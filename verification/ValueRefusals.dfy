module ValueRefusals {
  // Which value texts are refused, and for what.

  import opened Text
  import opened ValueWalking
  import opened ValueForms
  import opened ValueReading

  /** Every text is spaces and a form, to where the form has its first fault or its end. */
  lemma EveryTextHasAForm(text: string) returns (lead: string, f: Form, after: string)
    ensures IsText(text, lead, f, after)
  {
    hide Good, Spell;
    var spaces, next := EveryTrail(text, 0);
    f, after := EveryForm(text, next, 0);
    lead := spaces;
    RestsJoin(text, 0, next, lead, Spell(f) + after);
    assert text[0..] == text;
  }

  /** The check tells exactly the first thing wrong with the form a text has. */
  lemma TheFirstFaultIsTold(text: string, lead: string, f: Form, after: string)
    requires IsText(text, lead, f, after)
    ensures ProblemOf(text) == Fault(f)
  {
    hide Good, Spell, Fault, WalkValue;
    assert text[0..] == text;
    SkipsLead(text, 0, lead, Spell(f) + after, 0);
    ReadsForm(f, text, |lead|, 0, after);
  }

  /** A text has no problem exactly when, behind its spaces, it begins with a loose value or stops inside one. */
  lemma NoProblemExactlyWhen(text: string)
    ensures ProblemOf(text).None? <==> exists lead, f, after :: IsText(text, lead, f, after) && Sound(f)
  {
    hide IsText, Fault, Sound, ProblemOf;
    var lead, f, after := EveryTextHasAForm(text);
    TheFirstFaultIsTold(text, lead, f, after);
    SoundIs(f);
    if exists lead, f, after :: IsText(text, lead, f, after) && Sound(f) {
      var lead', f', after' :| IsText(text, lead', f', after') && Sound(f');
      TheFirstFaultIsTold(text, lead', f', after');
      SoundIs(f');
    }
  }

  /** A text is refused for a reason exactly when that is the first thing wrong with it. */
  lemma RefusedExactlyFor(text: string, why: Refusal)
    ensures ProblemOf(text) == Some(why) <==> exists lead, f, after :: IsText(text, lead, f, after) && Fault(f) == Some(why)
  {
    hide IsText, Fault, ProblemOf;
    var lead, f, after := EveryTextHasAForm(text);
    TheFirstFaultIsTold(text, lead, f, after);
    if exists lead, f, after :: IsText(text, lead, f, after) && Fault(f) == Some(why) {
      var lead', f', after' :| IsText(text, lead', f', after') && Fault(f') == Some(why);
      TheFirstFaultIsTold(text, lead', f', after');
    }
  }

  /** A name with no bracket behind it is a value when it is one of the seven words and is refused otherwise. */
  lemma NamesAloneAreWords(lead: string, name: string, after: string)
    requires AllSpace(lead) && IsName(name) && (after != [] ==> !IsIdentifierChar(after[0])) && NoneAhead(after, "([")
    ensures ProblemOf(lead + (name + after)) == if name in WORDS then None else Some(UnknownName(name))
  {
    hide ProblemOf, IsName, NoneAhead;
    TheFirstFaultIsTold(lead + (name + after), lead, Word(name), after);
  }
}
