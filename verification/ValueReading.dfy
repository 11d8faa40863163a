/** What the check makes of a form, and that every text has one. A form is read part by part: each part is told to
    be what the check finds from its place on, whatever stands before it, and the first fault stops both. The
    other way round, a form is built from any text by following the characters as the check does not: by what
    may stand at each place of the grammar. */
module ValueReading {
  import opened Text
  import opened ConfigString
  import opened StringWriting
  import opened ValueWalking
  import opened ValueForms

  // ----- The text from a place on -----

  predicate Rests(text: string, at: nat, s: string) {
    at <= |text| && text[at..] == s
  }

  lemma RestsOn(text: string, at: nat, a: string, b: string)
    requires Rests(text, at, a + b)
    ensures at + |a| + |b| == |text| && Rests(text, at + |a|, b)
  {
    assert text[at + |a|..] == text[at..][|a|..] == b;
  }

  lemma RestsChar(text: string, at: nat, s: string)
    requires Rests(text, at, s) && s != []
    ensures at < |text| && text[at] == s[0] && Rests(text, at + 1, s[1..])
  {
    assert text[at] == text[at..][0];
    assert text[at + 1..] == text[at..][1..];
  }

  lemma RestsAt(text: string, at: nat, a: string, b: string, i: nat)
    requires Rests(text, at, a + b) && i < |a|
    ensures at + i < |text| && text[at + i] == a[i]
  {
    assert text[at..][i] == (a + b)[i];
  }

  lemma RestsGrouped(text: string, at: nat, a: string, b: string, c: string)
    ensures Rests(text, at, a + (b + c)) <==> Rests(text, at, (a + b) + c)
  {
    Regrouped(a, b, c);
  }

  lemma RestsSpaces(text: string, at: nat, spaces: string, s: string)
    requires Rests(text, at, spaces + s) && AllSpace(spaces) && (s != [] ==> !IsSpace(s[0]))
    ensures at + |spaces| <= |text| && Rests(text, at + |spaces|, s) && NextNonSpace(text, at, |text|) == at + |spaces|
  {
    RestsOn(text, at, spaces, s);
    forall i | at <= i < at + |spaces| ensures IsSpace(text[i]) { RestsAt(text, at, spaces, s, i - at); }
    if s != [] { RestsChar(text, at + |spaces|, s); }
    NextNonSpaceIs(text, at, |text|, at + |spaces|);
  }

  // ----- Strings and brackets -----

  lemma SkipsString(text: string, at: nat, pieces: seq<Piece>, e: Ending, after: string, problem: Option<Refusal>)
    requires Rests(text, at, (['"'] + Inside(pieces, e)) + after) && Writable(pieces, e) && (e.Closed? || after == [])
    ensures At(text, at, '"')
    ensures SkipString(text, at, problem) == Walk(at + 1 + |Inside(pieces, e)|, First(problem, StringFault(pieces, e)))
    ensures Rests(text, at + 1 + |Inside(pieces, e)|, after)
  {
    hide *;
    RestsGrouped(text, at, ['"'], Inside(pieces, e), after);
    QuoteThere(text, at, Inside(pieces, e) + after);
    RestsOn(text, at + 1, Inside(pieces, e), after);
    SplitsAt(text, at + 1, Inside(pieces, e) + after);
    InsideIs(pieces, e);
    StringSpells(text[..at + 1], pieces, e, after);
    SkipStringIs(text, at, problem, pieces, e);
  }

  lemma InsideIs(pieces: seq<Piece>, e: Ending)
    ensures Inside(pieces, e) == AllWritten(pieces) + EndText(e)
  {
  }

  lemma QuoteThere(text: string, at: nat, s: string)
    requires Rests(text, at, ['"'] + s)
    ensures At(text, at, '"') && at < |text| && Rests(text, at + 1, s)
  {
    RestsChar(text, at, ['"'] + s);
    RestsOn(text, at, ['"'], s);
  }

  lemma SplitsAt(text: string, at: nat, s: string)
    requires Rests(text, at, s)
    ensures at <= |text| && text == text[..at] + s
  {
  }

  lemma SkipStringIs(text: string, at: nat, problem: Option<Refusal>, pieces: seq<Piece>, e: Ending)
    requires at < |text| && DecodeText(text, at + 1).problem == Trouble(pieces, e)
    ensures SkipString(text, at, problem) == Walk(DecodeText(text, at + 1).end, First(problem, StringFault(pieces, e)))
  {
    hide DecodeText, Trouble;
  }

  lemma FirstIsFirst(a: Option<Refusal>, b: Option<Refusal>, c: Option<Refusal>)
    ensures First(First(a, b), c) == First(a, First(b, c)) && First(a, None) == a && First(None, a) == a
  {
  }

  /** What the count makes of one bit. */
  lemma SkipsBit(text: string, at: nat, b: Bit, depth: nat, problem: Option<Refusal>, rest: string)
    requires Rests(text, at, BitText(b) + rest) && depth >= 1
    requires b.Mark? ==> b.c != '"' && (IsClose(b.c) ==> depth >= 2)
    requires b.Inner? ==> Writable(b.pieces, Closed)
    ensures Rests(text, at + |BitText(b)|, rest) && at + |BitText(b)| <= |text|
    ensures SkipBalanced(text, at, depth, problem)
         == SkipBalanced(text, at + |BitText(b)|, Level(b, depth), First(problem, BitFault(b)))
    ensures Level(b, depth) >= 1
  {
    hide SkipString, Inside, Writable, Trouble, StringFault, Rests;
    RestsOn(text, at, BitText(b), rest);
    RestsAt(text, at, BitText(b), rest, 0);
    if b.Inner? { SkipsString(text, at, b.pieces, Closed, rest, problem); }
  }

  lemma {:induction false} SkipsBits(text: string, at: nat, bits: seq<Bit>, depth: nat, problem: Option<Refusal>, rest: string)
    requires Rests(text, at, BitsText(bits) + rest) && Counted(bits, depth) && depth >= 1
    ensures Rests(text, at + |BitsText(bits)|, rest) && at + |BitsText(bits)| <= |text|
    ensures SkipBalanced(text, at, depth, problem)
         == SkipBalanced(text, at + |BitsText(bits)|, EndLevel(bits, depth), First(problem, BitsFault(bits)))
    ensures EndLevel(bits, depth) >= 1
    decreases |bits|
  {
    hide SkipBalanced, BitText, BitFault, Level, Rests, Writable, First;
    RestsOn(text, at, BitsText(bits), rest);
    if bits == [] {
      FirstIsFirst(problem, None, None);
    } else {
      var b := bits[0];
      RestsGrouped(text, at, BitText(b), BitsText(bits[1..]), rest);
      SkipsBit(text, at, b, depth, problem, BitsText(bits[1..]) + rest);
      SkipsBits(text, at + |BitText(b)|, bits[1..], Level(b, depth), First(problem, BitFault(b)), rest);
      FirstIsFirst(problem, BitFault(b), BitsFault(bits[1..]));
    }
  }

  lemma EndsGroup(text: string, at: nat, e: GroupEnd, depth: nat, problem: Option<Refusal>, after: string)
    requires Rests(text, at, GroupEndText(e) + after) && GoodEnd(e, depth, after) && depth >= 1
    ensures SkipBalanced(text, at, depth, problem)
         == Walk(at + |GroupEndText(e)|, First(problem, if e.CutInString? then StringFault(e.pieces, e.e) else None))
    ensures Rests(text, at + |GroupEndText(e)|, after)
  {
    hide SkipString, Inside, Writable, Trouble, StringFault, Rests;
    RestsOn(text, at, GroupEndText(e), after);
    match e
    case Shut(c) => RestsAt(text, at, GroupEndText(e), after, 0);
    case CutOff => RestsEnds(text, at, after);
    case CutInString(pieces, ending) =>
      SkipsString(text, at, pieces, ending, after, problem);
      RestsEnds(text, at + |GroupEndText(e)|, after);
  }

  lemma RestsEnds(text: string, at: nat, after: string)
    ensures Rests(text, at, after) && after == [] ==> at == |text|
  {
  }

  /** Counted brackets are skipped to their end, and the first string inside that is wrong is told. */
  lemma SkipsGroup(text: string, at: nat, g: Group, open: char, problem: Option<Refusal>, after: string)
    requires Rests(text, at, GroupText(g) + after) && GoodGroup(g, open, after)
    ensures At(text, at, open) && at + |GroupText(g)| <= |text| && Rests(text, at + |GroupText(g)|, after)
    ensures SkipBalanced(text, at, 0, problem) == Walk(at + |GroupText(g)|, First(problem, GroupFault(g)))
  {
    hide *;
    var bits := g.bits;
    OpensGroup(g, open, after);
    var more := BitsText(bits[1..]);
    RestsGrouped(text, at, [open] + more, GroupEndText(g.end), after);
    RestsGrouped(text, at, [open], more, GroupEndText(g.end) + after);
    SkipsOpen(text, at, open, problem, more + (GroupEndText(g.end) + after));
    SkipsBits(text, at + 1, bits[1..], 1, problem, GroupEndText(g.end) + after);
    EndsGroup(text, at + 1 + |more|, g.end, EndLevel(bits[1..], 1), First(problem, BitsFault(bits[1..])), after);
    RestsOn(text, at + 1 + |more|, GroupEndText(g.end), after);
    FirstIsFirst(problem, BitsFault(bits[1..]), if g.end.CutInString? then StringFault(g.end.pieces, g.end.e) else None);
  }

  lemma OpensGroup(g: Group, open: char, after: string)
    requires GoodGroup(g, open, after)
    ensures g.bits != [] && IsOpen(open) && Counted(g.bits[1..], 1) && GoodEnd(g.end, EndLevel(g.bits[1..], 1), after)
    ensures GroupText(g) == ([open] + BitsText(g.bits[1..])) + GroupEndText(g.end)
    ensures |GroupText(g)| == 1 + |BitsText(g.bits[1..])| + |GroupEndText(g.end)|
    ensures GroupFault(g)
         == First(BitsFault(g.bits[1..]), if g.end.CutInString? then StringFault(g.end.pieces, g.end.e) else None)
  {
    hide StringFault, GoodEnd, EndLevel, Counted;
  }

  lemma SkipsOpen(text: string, at: nat, open: char, problem: Option<Refusal>, rest: string)
    requires Rests(text, at, [open] + rest) && IsOpen(open)
    ensures At(text, at, open) && Rests(text, at + 1, rest) && at + 1 <= |text|
    ensures SkipBalanced(text, at, 0, problem) == SkipBalanced(text, at + 1, 1, problem)
  {
    hide SkipString, Rests;
    RestsOn(text, at, [open], rest);
    RestsAt(text, at, [open], rest, 0);
  }

  // ----- Names and tokens -----

  lemma WordStops(text: string, at: nat, name: string, rest: string)
    requires Rests(text, at, name + rest) && IsName(name) && (rest != [] ==> !IsIdentifierChar(rest[0]))
    ensures at + |name| <= |text| && WordEnd(text, at) == at + |name| && text[at..at + |name|] == name
    ensures Rests(text, at + |name|, rest) && at < |text| && text[at] == name[0]
  {
    RestsOn(text, at, name, rest);
    var end := WordEnd(text, at);
    forall i | at <= i < at + |name| ensures IsIdentifierChar(text[i]) && text[i] == name[i - at] {
      RestsAt(text, at, name, rest, i - at);
    }
    if rest != [] { RestsChar(text, at + |name|, rest); }
  }

  lemma {:induction false} AheadMoves(text: string, at: nat, from: nat)
    requires at + from <= |text|
    ensures NextNonSpace(text, at + from, |text|) == at + NextNonSpace(text[at..], from, |text[at..]|)
    decreases |text| - at - from
  {
    if at + from < |text| {
      assert text[at..][from] == text[at + from];
      if IsSpace(text[at + from]) { AheadMoves(text, at, from + 1); }
    }
  }

  lemma ReadsWord(text: string, at: nat, name: string, after: string)
    requires Rests(text, at, name + after) && Good(Word(name), 0, after)
    ensures at < |text| && text[at] == name[0]
    ensures WalkName(text, at) == Walk(at + |name|, Fault(Word(name)))
  {
    hide *;
    WordIs(name, after);
    WordStops(text, at, name, after);
    Ahead(text, at + |name|, after);
    NameAlone(text, at);
  }

  lemma WordIs(name: string, after: string)
    requires Good(Word(name), 0, after)
    ensures IsName(name) && (after != [] ==> !IsIdentifierChar(after[0])) && NoneAhead(after, "([")
    ensures Fault(Word(name)) == if IsValueKeyword(name) then None else Some(UnknownName(name))
  {
    hide IsName, NoneAhead;
  }

  lemma Ahead(text: string, at: nat, after: string)
    requires Rests(text, at, after) && NoneAhead(after, "([")
    ensures at <= |text|
    ensures var next := NextNonSpace(text, at, |text|); !At(text, next, '(') && !At(text, next, '[')
  {
    AheadMoves(text, at, 0);
    hide NextNonSpace;
    var next := NextNonSpace(text, at, |text|);
    if next < |text| { assert text[next] == text[at..][next - at]; }
  }

  lemma NameAlone(text: string, at: nat)
    requires at < |text|
    ensures var end := WordEnd(text, at);
      var next := NextNonSpace(text, end, |text|);
      !At(text, next, '(') && !At(text, next, '[') ==>
        WalkName(text, at)
        == Walk(end, if IsValueKeyword(text[at..end]) then None else Some(UnknownName(text[at..end])))
  {
    hide SkipBalanced, NextNonSpace, WordEnd, IsValueKeyword;
  }

  lemma GapIsNoWord(gap: string, rest: string)
    requires AllSpace(gap) && rest != [] && (rest[0] == '(' || rest[0] == '[')
    ensures !IsIdentifierChar((gap + rest)[0]) && !IsSpace(rest[0])
  {
  }

  lemma GroupAhead(text: string, from: nat, gap: string, rest: string)
    requires Rests(text, from, gap + rest) && AllSpace(gap) && rest != [] && !IsSpace(rest[0])
    ensures from + |gap| < |text| && NextNonSpace(text, from, |text|) == from + |gap| && Rests(text, from + |gap|, rest)
  {
    hide *;
    RestsSpaces(text, from, gap, rest);
    RestsChar(text, from + |gap|, rest);
  }

  /** After a name come its spaces and a bracket. */
  lemma GapThenGroup(text: string, at: nat, name: string, gap: string, rest: string)
    requires Rests(text, at, name + (gap + rest)) && IsName(name) && AllSpace(gap)
    requires rest != [] && (rest[0] == '(' || rest[0] == '[')
    ensures at < |text| && text[at] == name[0] && at + |name| + |gap| < |text| && WordEnd(text, at) == at + |name|
    ensures NextNonSpace(text, at + |name|, |text|) == at + |name| + |gap|
    ensures Rests(text, at + |name| + |gap|, rest)
  {
    hide *;
    GapIsNoWord(gap, rest);
    WordStops(text, at, name, gap + rest);
    GroupAhead(text, at + |name|, gap, rest);
  }

  lemma StartsWith(g: Group, open: char, rest: string, after: string)
    requires GoodGroup(g, open, after)
    ensures GroupText(g) + rest != [] && (GroupText(g) + rest)[0] == open && GroupText(g) != []
  {
    OpensGroup(g, open, after);
  }

  lemma ReadsCalled(text: string, at: nat, name: string, gap: string, args: Group, after: string)
    requires Rests(text, at, name + (gap + (GroupText(args) + after)))
    requires IsName(name) && AllSpace(gap) && GoodGroup(args, '(', after)
    ensures at < |text| && text[at] == name[0]
    ensures WalkName(text, at) == Walk(at + |name| + |gap| + |GroupText(args)|, GroupFault(args))
  {
    hide *;
    StartsWith(args, '(', after, after);
    GapThenGroup(text, at, name, gap, GroupText(args) + after);
    SkipsGroup(text, at + |name| + |gap|, args, '(', None, after);
    FirstIsFirst(GroupFault(args), None, None);
    NameOfCall(text, at);
  }

  lemma NameOfCall(text: string, at: nat)
    requires at < |text|
    ensures var next := NextNonSpace(text, WordEnd(text, at), |text|);
      At(text, next, '(') ==> WalkName(text, at) == SkipBalanced(text, next, 0, None)
  {
    hide SkipBalanced, NextNonSpace, WordEnd;
  }

  lemma NameOfType(text: string, at: nat)
    requires at < |text|
    ensures var next := NextNonSpace(text, WordEnd(text, at), |text|);
      At(text, next, '[') ==>
        var types := SkipBalanced(text, next, 0, None);
        var call := NextNonSpace(text, types.at, |text|);
        WalkName(text, at) == if At(text, call, '(') then SkipBalanced(text, call, 0, types.problem) else Walk(call, types.problem)
  {
    hide SkipBalanced, NextNonSpace, WordEnd;
  }

  lemma ReadsType(text: string, at: nat, name: string, gap: string, types: Group, rest: string)
    requires Rests(text, at, name + (gap + (GroupText(types) + rest)))
    requires IsName(name) && AllSpace(gap) && GoodGroup(types, '[', rest)
    ensures at < |text| && text[at] == name[0]
    ensures var end := at + |name| + |gap| + |GroupText(types)|;
      && end <= |text| && Rests(text, end, rest)
      && var call := NextNonSpace(text, end, |text|);
         WalkName(text, at)
         == if At(text, call, '(') then SkipBalanced(text, call, 0, GroupFault(types)) else Walk(call, GroupFault(types))
  {
    hide *;
    StartsWith(types, '[', rest, rest);
    GapThenGroup(text, at, name, gap, GroupText(types) + rest);
    SkipsGroup(text, at + |name| + |gap|, types, '[', None, rest);
    FirstIsFirst(GroupFault(types), None, None);
    NameOfType(text, at);
  }

  /** A type, and what stands behind it. */
  lemma TypeParts(text: string, at: nat, name: string, gap: string, types: string, rest: string, after: string)
    requires Rests(text, at, (name + (gap + (types + rest))) + after)
    ensures Rests(text, at, name + (gap + (types + (rest + after))))
    ensures |name + (gap + (types + rest))| == |name| + |gap| + |types| + |rest|
  {
    hide *;
    Regrouped(name, gap + (types + rest), after);
    Regrouped(gap, types + rest, after);
    Regrouped(types, rest, after);
  }

  lemma KindIs(f: Form, after: string)
    requires f.Kind? && Good(f, 0, after)
    ensures Spell(f) == f.name + (f.gap + (GroupText(f.types) + f.gap2)) && Fault(f) == GroupFault(f.types)
    ensures IsName(f.name) && AllSpace(f.gap) && GoodGroup(f.types, '[', f.gap2 + after) && AllSpace(f.gap2)
    ensures after != [] ==> !IsSpace(after[0]) && after[0] != '('
  {
    hide IsName, GroupText, GroupFault, GoodGroup;
  }

  lemma ReadsKind(text: string, at: nat, f: Form, after: string)
    requires f.Kind? && Rests(text, at, Spell(f) + after) && Good(f, 0, after)
    ensures at < |text| && text[at] == f.name[0] && WalkName(text, at) == Walk(at + |Spell(f)|, Fault(f))
  {
    hide *;
    KindIs(f, after);
    var end := at + |f.name| + |f.gap| + |GroupText(f.types)|;
    TypeParts(text, at, f.name, f.gap, GroupText(f.types), f.gap2, after);
    ReadsType(text, at, f.name, f.gap, f.types, f.gap2 + after);
    RestsSpaces(text, end, f.gap2, after);
    NoBracketAt(text, end + |f.gap2|, after);
  }

  lemma NoBracketAt(text: string, at: nat, after: string)
    requires Rests(text, at, after) && (after != [] ==> after[0] != '(')
    ensures !At(text, at, '(')
  {
    if after != [] { RestsChar(text, at, after); }
  }

  lemma KindCalledIs(f: Form, after: string)
    requires f.KindCalled? && Good(f, 0, after)
    ensures Spell(f) == f.name + (f.gap + (GroupText(f.types) + (f.gap2 + GroupText(f.args))))
    ensures Fault(f) == First(GroupFault(f.types), GroupFault(f.args))
    ensures IsName(f.name) && AllSpace(f.gap) && GoodGroup(f.types, '[', f.gap2 + (GroupText(f.args) + after))
    ensures AllSpace(f.gap2) && GoodGroup(f.args, '(', after) && !IsSpace('(')
  {
    hide IsName, GroupText, GroupFault, GoodGroup, First;
  }

  lemma ReadsKindCalled(text: string, at: nat, f: Form, after: string)
    requires f.KindCalled? && Rests(text, at, Spell(f) + after) && Good(f, 0, after)
    ensures at < |text| && text[at] == f.name[0] && WalkName(text, at) == Walk(at + |Spell(f)|, Fault(f))
  {
    hide *;
    KindCalledIs(f, after);
    var args := GroupText(f.args);
    var end := at + |f.name| + |f.gap| + |GroupText(f.types)|;
    TypeParts(text, at, f.name, f.gap, GroupText(f.types), f.gap2 + args, after);
    Regrouped(f.gap2, args, after);
    ReadsType(text, at, f.name, f.gap, f.types, f.gap2 + (args + after));
    StartsWith(f.args, '(', after, after);
    RestsSpaces(text, end, f.gap2, args + after);
    SkipsGroup(text, end + |f.gap2|, f.args, '(', GroupFault(f.types), after);
  }

  lemma ReadsToken(text: string, at: nat, token: string, after: string)
    requires Rests(text, at, token + after) && Good(Token(token), 0, after)
    ensures at < |text| && text[at] == token[0] && BareEnd(text, at) == at + |token|
  {
    RestsOn(text, at, token, after);
    forall i | at <= i < at + |token| ensures text[i] == token[i - at] && !EndsBare(text[i]) {
      RestsAt(text, at, token, after, i - at);
    }
    if after != [] { RestsChar(text, at + |token|, after); }
  }

  // ----- Values -----

  /** What the walk turns on: the first character that is no space. */
  lemma Turns(text: string, at: nat, depth: nat)
    requires at <= |text| && depth <= 32 && (at < |text| ==> !IsSpace(text[at]))
    ensures var w := WalkValue(text, at, depth);
      if at == |text| then w == Walk(at, Some(EmptyValue))
      else
        var c := text[at];
        if c in ")]},:(" then w == Walk(at, Some(CannotBegin(c)))
        else if c == '"' then w == SkipString(text, at, None)
        else if c in "&@" then
          w == if At(text, at + 1, '"') then SkipString(text, at + 1, None) else Walk(at + 1, Some(LoneSigil(c)))
        else if IsIdentifierStart(c) then w == WalkName(text, at)
        else if c == '[' then w == WalkElements(text, at + 1, depth)
        else if c == '{' then w == WalkPairs(text, at + 1, depth)
        else w == Walk(BareEnd(text, at), None)
  {
    hide SkipString, WalkName, WalkElements, WalkPairs, BareEnd;
    NextNonSpaceIs(text, at, |text|, at);
  }

  /** Nothing but where the walk stands matters of the spaces before a value. */
  lemma SkipsLead(text: string, start: nat, lead: string, rest: string, depth: nat)
    requires Rests(text, start, lead + rest) && AllSpace(lead)
    ensures start + |lead| <= |text| && Rests(text, start + |lead|, rest)
    ensures NextNonSpace(text, start, |text|) == NextNonSpace(text, start + |lead|, |text|)
    ensures WalkValue(text, start, depth) == WalkValue(text, start + |lead|, depth)
  {
    hide SkipString, WalkName, WalkElements, WalkPairs, BareEnd;
    RestsOn(text, start, lead, rest);
    forall i | start <= i < start + |lead| ensures IsSpace(text[i]) { RestsAt(text, start, lead, rest, i - start); }
    var at := NextNonSpace(text, start + |lead|, |text|);
    NextNonSpaceIs(text, start, |text|, at);
  }

  /** The walk of a form told the problem the form has, and stopped at its end where it has none. */
  predicate Told(w: Walk, fault: Option<Refusal>, end: nat) {
    w.problem == fault && (fault.None? ==> w.at == end)
  }

  lemma FormParts(f: Form, depth: nat, after: string)
    requires Good(f, depth, after) && depth <= 32
    ensures !f.Deep? && !(f.Table? && f.List?)
    ensures !f.List? && !f.Table? ==> Good(f, 0, after)
    ensures f.List? ==> GoodItems(f.items, depth, after) && Spell(f) == ['['] + SpellItems(f.items)
                        && Fault(f) == ItemsFault(f.items)
    ensures f.Table? ==> GoodFields(f.fields, depth, after) && Spell(f) == ['{'] + SpellFields(f.fields)
                         && Fault(f) == FieldsFault(f.fields)
  {
    hide GoodItems, GoodFields, GoodGroup, Writable, IsName, SpellItems, SpellFields, ItemsFault, FieldsFault;
  }

  lemma ReadsAtom(f: Form, text: string, at: nat, depth: nat, after: string)
    requires !f.List? && !f.Table? && Good(f, 0, after) && depth <= 32 && Rests(text, at, Spell(f) + after)
    ensures at <= |text| && Told(WalkValue(text, at, depth), Fault(f), at + |Spell(f)|)
  {
    hide Rests, WalkName, SkipString, BareEnd, WalkValue, WalkElements, WalkPairs, GoodGroup, GroupText, GroupFault,
      IsName, Writable, StringFault, NoneAhead, Inside;
    match f
    case Nothing => RestsEnds(text, at, after); AtEnd(text, at, after); Turns(text, at, depth);
    case Stray(c) => RestsAt(text, at, [c], after, 0); Turns(text, at, depth);
    case Sigil(c) => ReadsSigil(text, at, c, depth, after);
    case Quote(mark, pieces, e) => ReadsQuote(text, at, f, depth, after);
    case Word(name) => ReadsWord(text, at, name, after); NameFirst(name); Turns(text, at, depth);
    case Called(name, gap, args) =>
      Regrouped(name, gap + GroupText(args), after);
      Regrouped(gap, GroupText(args), after);
      ReadsCalled(text, at, name, gap, args, after);
      NameFirst(name);
      Turns(text, at, depth);
    case Kind(name, _, _, _) => ReadsKind(text, at, f, after); NameFirst(name); Turns(text, at, depth);
    case KindCalled(name, _, _, _, _) => ReadsKindCalled(text, at, f, after); NameFirst(name); Turns(text, at, depth);
    case Token(token) => ReadsToken(text, at, token, after); Turns(text, at, depth);
  }

  lemma AtEnd(text: string, at: nat, after: string)
    requires Rests(text, at, [] + after)
    ensures Rests(text, at, after)
  {
    assert [] + after == after;
  }

  lemma NameFirst(name: string)
    requires IsName(name)
    ensures name != [] && IsIdentifierStart(name[0])
    ensures name[0] !in ")]},:(" && name[0] != '"' && name[0] !in "&@" && !IsSpace(name[0])
  {
  }

  lemma ReadsSigil(text: string, at: nat, c: char, depth: nat, after: string)
    requires c in "&@" && (after != [] ==> after[0] != '"') && depth <= 32 && Rests(text, at, [c] + after)
    ensures at <= |text| && WalkValue(text, at, depth).problem == Some(LoneSigil(c))
  {
    hide WalkName, SkipString, BareEnd, WalkValue, WalkElements, WalkPairs, Rests;
    RestsAt(text, at, [c], after, 0);
    RestsOn(text, at, [c], after);
    if after != [] { RestsChar(text, at + 1, after); }
    RestsEnds(text, at + 1, after);
    Turns(text, at, depth);
  }

  lemma ReadsQuote(text: string, at: nat, f: Form, depth: nat, after: string)
    requires f.Quote? && Good(f, 0, after) && depth <= 32 && Rests(text, at, Spell(f) + after)
    ensures at <= |text| && Told(WalkValue(text, at, depth), Fault(f), at + |Spell(f)|)
  {
    hide WalkName, SkipString, BareEnd, WalkValue, WalkElements, WalkPairs, Rests, Writable, StringFault, Inside;
    var Quote(mark, pieces, e) := f;
    var quoted := ['"'] + Inside(pieces, e);
    RestsGrouped(text, at, mark, quoted, after);
    RestsOn(text, at, mark, quoted + after);
    SkipsString(text, at + |mark|, pieces, e, after, None);
    if mark != [] { RestsAt(text, at, mark, quoted + after, 0); }
    Turns(text, at, depth);
    FirstIsFirst(StringFault(pieces, e), None, None);
  }

  lemma {:induction false} ReadsForm(f: Form, text: string, at: nat, depth: nat, after: string)
    requires Good(f, depth, after) && Rests(text, at, Spell(f) + after)
    ensures at <= |text| && Told(WalkValue(text, at, depth), Fault(f), at + |Spell(f)|)
    decreases f, 0
  {
    hide *;
    if depth > 32 {
      ReadsDeep(f, text, at, depth, after);
    } else {
      FormParts(f, depth, after);
      if f.List? {
        RestsGrouped(text, at, ['['], SpellItems(f.items), after);
        Enters(text, at, '[', SpellItems(f.items) + after, depth);
        ReadsItems(f.items, text, at + 1, depth, after);
      } else if f.Table? {
        RestsGrouped(text, at, ['{'], SpellFields(f.fields), after);
        Enters(text, at, '{', SpellFields(f.fields) + after, depth);
        ReadsFields(f.fields, text, at + 1, depth, after);
      } else {
        ReadsAtom(f, text, at, depth, after);
      }
    }
  }

  lemma ReadsDeep(f: Form, text: string, at: nat, depth: nat, after: string)
    requires Good(f, depth, after) && Rests(text, at, Spell(f) + after) && depth > 32
    ensures at <= |text| && Told(WalkValue(text, at, depth), Fault(f), at + |Spell(f)|)
  {
  }

  lemma Enters(text: string, at: nat, open: char, rest: string, depth: nat)
    requires Rests(text, at, [open] + rest) && depth <= 32 && (open == '[' || open == '{')
    ensures at < |text| && Rests(text, at + 1, rest)
    ensures WalkValue(text, at, depth) == if open == '[' then WalkElements(text, at + 1, depth) else WalkPairs(text, at + 1, depth)
  {
    hide WalkName, SkipString, BareEnd, WalkValue, WalkElements, WalkPairs, Rests;
    RestsAt(text, at, [open], rest, 0);
    RestsOn(text, at, [open], rest);
    Turns(text, at, depth);
  }

  // ----- Arrays -----

  lemma {:induction false} ReadsItems(i: Items, text: string, at: nat, depth: nat, after: string)
    requires GoodItems(i, depth, after) && Rests(text, at, SpellItems(i) + after)
    ensures at <= |text| && Told(WalkElements(text, at, depth), ItemsFault(i), at + |SpellItems(i)|)
    decreases i, 0
  {
    hide *;
    match i
    case NoItem(trail, shut) =>
      NoItemIs(i, depth, after);
      ReadsShut(text, at, trail, shut, ']', after);
      ElementsTurn(text, at, depth);
    case SomeItem(lead, value, next) =>
      SomeItemIs(i, depth, after);
      var rest := SpellAfterItem(next) + after;
      RestsGrouped(text, at, lead, Spell(value) + SpellAfterItem(next), after);
      RestsGrouped(text, at + |lead|, Spell(value), SpellAfterItem(next), after);
      Regrouped(Spell(value), SpellAfterItem(next), after);
      ReachesValue(text, at, lead, Spell(value), ']', rest);
      ReadsForm(value, text, at + |lead|, depth + 1, rest);
      RestsOn(text, at + |lead|, Spell(value), rest);
      ElementsTurn(text, at, depth);
      IfTold(WalkValue(text, at + |lead|, depth + 1), Fault(value), at + |lead| + |Spell(value)|);
      if Fault(value).None? { ReadsAfterItem(next, text, at + |lead| + |Spell(value)|, depth, after); }
      TellsFirst(WalkElements(text, at, depth), Fault(value), AfterItemFault(next), at + |SpellItems(i)|);
  }

  lemma {:induction false} ReadsAfterItem(a: AfterItem, text: string, at: nat, depth: nat, after: string)
    requires GoodAfterItem(a, depth, after) && !a.ItemStops? && Rests(text, at, SpellAfterItem(a) + after)
    ensures at <= |text| && Told(WalkAfterElement(text, at, depth), AfterItemFault(a), at + |SpellAfterItem(a)|)
    decreases a, 0
  {
    hide *;
    AfterItemIs(a, depth, after);
    AfterElementTurns(text, at, depth);
    match a
    case ItemsEnd(trail, shut) => ReadsShut(text, at, trail, shut, ']', after);
    case NoItemComma(trail, c) => ReadsBad(text, at, trail, c, after);
    case MoreItems(trail, rest) =>
      ReadsComma(text, at, trail, ',', SpellItems(rest), after);
      ReadsItems(rest, text, at + |trail| + 1, depth, after);
    case _ =>
  }

  lemma NoItemIs(i: Items, depth: nat, after: string)
    requires i.NoItem? && GoodItems(i, depth, after)
    ensures AllSpace(i.trail) && (i.shut || after == []) && SpellItems(i) == i.trail + ShutText(i.shut, ']')
    ensures !IsSpace(']') && ItemsFault(i).None? && |SpellItems(i)| == |i.trail| + (if i.shut then 1 else 0)
    ensures forall w: Walk, end: nat :: Told(w, None, end) <==> w == Walk(end, None)
  {
  }

  lemma SomeItemIs(i: Items, depth: nat, after: string)
    requires i.SomeItem? && GoodItems(i, depth, after)
    ensures AllSpace(i.lead) && Starts(Spell(i.value), ']') && Good(i.value, depth + 1, SpellAfterItem(i.next) + after)
    ensures (i.next.ItemStops? <==> Fault(i.value).Some?) && GoodAfterItem(i.next, depth, after)
    ensures SpellItems(i) == i.lead + (Spell(i.value) + SpellAfterItem(i.next))
    ensures |SpellItems(i)| == |i.lead| + |Spell(i.value)| + |SpellAfterItem(i.next)|
    ensures ItemsFault(i) == First(Fault(i.value), AfterItemFault(i.next))
  {
    hide Good, Spell, Fault, SpellAfterItem, AfterItemFault, GoodAfterItem, Starts;
  }

  lemma AfterItemIs(a: AfterItem, depth: nat, after: string)
    requires GoodAfterItem(a, depth, after) && !a.ItemStops?
    ensures AllSpace(a.trail)
    ensures a.ItemsEnd? ==> (a.shut || after == []) && SpellAfterItem(a) == a.trail + ShutText(a.shut, ']')
                            && |SpellAfterItem(a)| == |a.trail| + (if a.shut then 1 else 0) && AfterItemFault(a).None?
    ensures a.NoItemComma? ==> !IsSpace(a.c) && a.c != ',' && a.c != ']' && SpellAfterItem(a) == a.trail + [a.c]
                               && AfterItemFault(a) == Some(ElementSeparator(a.c))
    ensures a.MoreItems? ==> GoodItems(a.rest, depth, after) && SpellAfterItem(a) == a.trail + ([','] + SpellItems(a.rest))
                             && |SpellAfterItem(a)| == |a.trail| + 1 + |SpellItems(a.rest)|
                             && AfterItemFault(a) == ItemsFault(a.rest)
    ensures forall w: Walk, end: nat :: Told(w, None, end) <==> w == Walk(end, None)
    ensures forall w: Walk, fault: Refusal, end: nat :: Told(w, Some(fault), end) <==> w.problem == Some(fault)
    ensures !IsSpace(']') && !IsSpace(',')
  {
    hide GoodItems, SpellItems, ItemsFault;
  }

  /** What the walk does with what follows in brackets: spaces, and then the end, the closing bracket, or more. */
  lemma ReadsShut(text: string, at: nat, trail: string, shut: bool, close: char, after: string)
    requires Rests(text, at, (trail + ShutText(shut, close)) + after) && AllSpace(trail) && (shut || after == [])
    requires !IsSpace(close)
    ensures at + |trail| <= |text| && NextNonSpace(text, at, |text|) == at + |trail|
    ensures if shut then at + |trail| < |text| && text[at + |trail|] == close else at + |trail| == |text|
  {
    hide Rests;
    RestsGrouped(text, at, trail, ShutText(shut, close), after);
    RestsSpaces(text, at, trail, ShutText(shut, close) + after);
    if shut { RestsChar(text, at + |trail|, [close] + after); }
    RestsEnds(text, at + |trail|, ShutText(shut, close) + after);
  }

  lemma ReadsBad(text: string, at: nat, trail: string, c: char, after: string)
    requires Rests(text, at, (trail + [c]) + after) && AllSpace(trail) && !IsSpace(c)
    ensures at + |trail| < |text| && NextNonSpace(text, at, |text|) == at + |trail| && text[at + |trail|] == c
  {
    hide Rests;
    RestsGrouped(text, at, trail, [c], after);
    RestsSpaces(text, at, trail, [c] + after);
    RestsChar(text, at + |trail|, [c] + after);
  }

  lemma ReadsComma(text: string, at: nat, trail: string, c: char, rest: string, after: string)
    requires Rests(text, at, (trail + ([c] + rest)) + after) && AllSpace(trail) && !IsSpace(c)
    ensures at + |trail| < |text| && NextNonSpace(text, at, |text|) == at + |trail| && text[at + |trail|] == c
    ensures Rests(text, at + |trail| + 1, rest + after)
  {
    hide Rests;
    RestsGrouped(text, at, trail, [c] + rest, after);
    Regrouped([c], rest, after);
    ReadsBadRest(text, at, trail, c, rest + after);
  }

  lemma ReadsBadRest(text: string, at: nat, trail: string, c: char, rest: string)
    requires Rests(text, at, trail + ([c] + rest)) && AllSpace(trail) && !IsSpace(c)
    ensures at + |trail| < |text| && NextNonSpace(text, at, |text|) == at + |trail| && text[at + |trail|] == c
    ensures Rests(text, at + |trail| + 1, rest)
  {
    hide Rests;
    RestsSpaces(text, at, trail, [c] + rest);
    RestsChar(text, at + |trail|, [c] + rest);
    RestsOn(text, at + |trail|, [c], rest);
  }

  lemma ReachesValue(text: string, at: nat, lead: string, s: string, close: char, rest: string)
    requires Rests(text, at, lead + (s + rest)) && AllSpace(lead) && Starts(s, close)
    ensures at + |lead| < |text| && NextNonSpace(text, at, |text|) == at + |lead| && text[at + |lead|] != close
    ensures Rests(text, at + |lead|, s + rest)
  {
    hide Rests;
    RestsSpaces(text, at, lead, s + rest);
    RestsChar(text, at + |lead|, s + rest);
  }

  lemma IfTold(w: Walk, fault: Option<Refusal>, end: nat)
    requires Told(w, fault, end)
    ensures w.problem == fault && (fault.None? ==> w.at == end)
  {
  }

  /** The first fault is told, and a walk that met one is over. */
  lemma TellsFirst(w: Walk, a: Option<Refusal>, b: Option<Refusal>, end: nat)
    requires a.Some? ==> w.problem == a
    requires a.None? ==> Told(w, b, end)
    ensures Told(w, First(a, b), end)
  {
  }

  lemma ElementsTurn(text: string, start: nat, depth: nat)
    requires start <= |text|
    ensures var at := NextNonSpace(text, start, |text|);
      var w := WalkElements(text, start, depth);
      if at == |text| then w == Walk(at, None)
      else if text[at] == ']' then w == Walk(at + 1, None)
      else
        var element := WalkValue(text, at, depth + 1);
        w == if element.problem.Some? then element else WalkAfterElement(text, element.at, depth)
  {
    hide WalkValue, WalkAfterElement, NextNonSpace;
  }

  lemma AfterElementTurns(text: string, start: nat, depth: nat)
    ensures start <= |text| ==>
      var at := NextNonSpace(text, start, |text|);
      var w := WalkAfterElement(text, start, depth);
      if at == |text| then w == Walk(at, None)
      else if text[at] == ',' then w == WalkElements(text, at + 1, depth)
      else if text[at] == ']' then w == Walk(at + 1, None)
      else w == Walk(at, Some(ElementSeparator(text[at])))
  {
    hide WalkElements, NextNonSpace;
  }

  // ----- Dictionaries -----

  lemma {:induction false} ReadsFields(i: Fields, text: string, at: nat, depth: nat, after: string)
    requires GoodFields(i, depth, after) && Rests(text, at, SpellFields(i) + after)
    ensures at <= |text| && Told(WalkPairs(text, at, depth), FieldsFault(i), at + |SpellFields(i)|)
    decreases i, 0
  {
    hide *;
    match i
    case NoField(trail, shut) =>
      NoFieldIs(i, depth, after);
      ReadsShut(text, at, trail, shut, '}', after);
      PairsTurn(text, at, depth);
    case SomeField(lead, key, next) =>
      SomeFieldIs(i, depth, after);
      var rest := SpellAfterKey(next) + after;
      RestsGrouped(text, at, lead, Spell(key) + SpellAfterKey(next), after);
      RestsGrouped(text, at + |lead|, Spell(key), SpellAfterKey(next), after);
      Regrouped(Spell(key), SpellAfterKey(next), after);
      ReachesValue(text, at, lead, Spell(key), '}', rest);
      ReadsForm(key, text, at + |lead|, depth + 1, rest);
      RestsOn(text, at + |lead|, Spell(key), rest);
      PairsTurn(text, at, depth);
      IfTold(WalkValue(text, at + |lead|, depth + 1), Fault(key), at + |lead| + |Spell(key)|);
      if Fault(key).None? { ReadsAfterKey(next, text, at + |lead| + |Spell(key)|, depth, after); }
      TellsFirst(WalkPairs(text, at, depth), Fault(key), AfterKeyFault(next), at + |SpellFields(i)|);
  }

  lemma {:induction false} ReadsAfterKey(a: AfterKey, text: string, at: nat, depth: nat, after: string)
    requires GoodAfterKey(a, depth, after) && !a.KeyStops? && Rests(text, at, SpellAfterKey(a) + after)
    ensures at <= |text| && Told(WalkAfterKey(text, at, depth), AfterKeyFault(a), at + |SpellAfterKey(a)|)
    decreases a, 0
  {
    hide *;
    AfterKeyIs(a, depth, after);
    AfterKeyTurns(text, at, depth);
    match a
    case KeyEnds(trail) => RestsSpaces(text, at, trail, after); RestsEnds(text, at + |trail|, after);
    case NoColon(trail, c) => ReadsBad(text, at, trail, c, after);
    case Colon(trail, lead, value, next) =>
      var from := at + |trail| + 1;
      var rest := SpellAfterField(next) + after;
      ReadsComma(text, at, trail, ':', lead + (Spell(value) + SpellAfterField(next)), after);
      RestsGrouped(text, from, lead, Spell(value) + SpellAfterField(next), after);
      RestsGrouped(text, from + |lead|, Spell(value), SpellAfterField(next), after);
      Regrouped(Spell(value), SpellAfterField(next), after);
      SkipsLead(text, from, lead, Spell(value) + rest, depth + 1);
      assert WalkValue(text, from, depth + 1) == WalkValue(text, from + |lead|, depth + 1);
      ReadsForm(value, text, from + |lead|, depth + 1, rest);
      RestsOn(text, from + |lead|, Spell(value), rest);
      IfTold(WalkValue(text, from + |lead|, depth + 1), Fault(value), from + |lead| + |Spell(value)|);
      if Fault(value).None? { ReadsAfterField(next, text, from + |lead| + |Spell(value)|, depth, after); }
      TellsFirst(WalkAfterKey(text, at, depth), Fault(value), AfterFieldFault(next), at + |SpellAfterKey(a)|);
    case _ =>
  }

  lemma {:induction false} ReadsAfterField(a: AfterField, text: string, at: nat, depth: nat, after: string)
    requires GoodAfterField(a, depth, after) && !a.FieldStops? && Rests(text, at, SpellAfterField(a) + after)
    ensures at <= |text| && Told(WalkAfterPair(text, at, depth), AfterFieldFault(a), at + |SpellAfterField(a)|)
    decreases a, 0
  {
    hide *;
    AfterFieldIs(a, depth, after);
    AfterPairTurns(text, at, depth);
    match a
    case FieldsEnd(trail, shut) => ReadsShut(text, at, trail, shut, '}', after);
    case NoFieldComma(trail, c) => ReadsBad(text, at, trail, c, after);
    case MoreFields(trail, rest) =>
      ReadsComma(text, at, trail, ',', SpellFields(rest), after);
      ReadsFields(rest, text, at + |trail| + 1, depth, after);
    case _ =>
  }

  lemma NoFieldIs(i: Fields, depth: nat, after: string)
    requires i.NoField? && GoodFields(i, depth, after)
    ensures AllSpace(i.trail) && (i.shut || after == []) && SpellFields(i) == i.trail + ShutText(i.shut, '}')
    ensures !IsSpace('}') && FieldsFault(i).None? && |SpellFields(i)| == |i.trail| + (if i.shut then 1 else 0)
    ensures forall w: Walk, end: nat :: Told(w, None, end) <==> w == Walk(end, None)
  {
  }

  lemma SomeFieldIs(i: Fields, depth: nat, after: string)
    requires i.SomeField? && GoodFields(i, depth, after)
    ensures AllSpace(i.lead) && Starts(Spell(i.key), '}') && Good(i.key, depth + 1, SpellAfterKey(i.next) + after)
    ensures (i.next.KeyStops? <==> Fault(i.key).Some?) && GoodAfterKey(i.next, depth, after)
    ensures SpellFields(i) == i.lead + (Spell(i.key) + SpellAfterKey(i.next))
    ensures |SpellFields(i)| == |i.lead| + |Spell(i.key)| + |SpellAfterKey(i.next)|
    ensures FieldsFault(i) == First(Fault(i.key), AfterKeyFault(i.next))
  {
    hide Good, Spell, Fault, SpellAfterKey, AfterKeyFault, GoodAfterKey, Starts;
  }

  lemma AfterKeyIs(a: AfterKey, depth: nat, after: string)
    requires GoodAfterKey(a, depth, after) && !a.KeyStops?
    ensures AllSpace(a.trail)
    ensures a.KeyEnds? ==> after == [] && SpellAfterKey(a) == a.trail && AfterKeyFault(a).None?
    ensures a.NoColon? ==> !IsSpace(a.c) && a.c != ':' && SpellAfterKey(a) == a.trail + [a.c]
                           && AfterKeyFault(a) == Some(KeySeparator(a.c))
    ensures a.Colon? ==>
      && AllSpace(a.lead) && Good(a.value, depth + 1, SpellAfterField(a.next) + after)
      && (a.next.FieldStops? <==> Fault(a.value).Some?) && GoodAfterField(a.next, depth, after)
      && SpellAfterKey(a) == a.trail + ([':'] + (a.lead + (Spell(a.value) + SpellAfterField(a.next))))
      && |SpellAfterKey(a)| == |a.trail| + 1 + |a.lead| + |Spell(a.value)| + |SpellAfterField(a.next)|
      && AfterKeyFault(a) == First(Fault(a.value), AfterFieldFault(a.next))
    ensures forall w: Walk, end: nat :: Told(w, None, end) <==> w == Walk(end, None)
    ensures forall w: Walk, fault: Refusal, end: nat :: Told(w, Some(fault), end) <==> w.problem == Some(fault)
    ensures !IsSpace(':') && !IsSpace(',')
  {
    hide Good, Spell, Fault, SpellAfterField, AfterFieldFault, GoodAfterField, First;
  }

  lemma AfterFieldIs(a: AfterField, depth: nat, after: string)
    requires GoodAfterField(a, depth, after) && !a.FieldStops?
    ensures AllSpace(a.trail)
    ensures a.FieldsEnd? ==> (a.shut || after == []) && SpellAfterField(a) == a.trail + ShutText(a.shut, '}')
                             && |SpellAfterField(a)| == |a.trail| + (if a.shut then 1 else 0) && AfterFieldFault(a).None?
    ensures a.NoFieldComma? ==> !IsSpace(a.c) && a.c != ',' && a.c != '}' && SpellAfterField(a) == a.trail + [a.c]
                                && AfterFieldFault(a) == Some(PairSeparator(a.c))
    ensures a.MoreFields? ==> GoodFields(a.rest, depth, after) && SpellAfterField(a) == a.trail + ([','] + SpellFields(a.rest))
                              && |SpellAfterField(a)| == |a.trail| + 1 + |SpellFields(a.rest)|
                              && AfterFieldFault(a) == FieldsFault(a.rest)
    ensures forall w: Walk, end: nat :: Told(w, None, end) <==> w == Walk(end, None)
    ensures forall w: Walk, fault: Refusal, end: nat :: Told(w, Some(fault), end) <==> w.problem == Some(fault)
    ensures !IsSpace('}') && !IsSpace(',')
  {
    hide GoodFields, SpellFields, FieldsFault;
  }

  lemma PairsTurn(text: string, start: nat, depth: nat)
    requires start <= |text|
    ensures var at := NextNonSpace(text, start, |text|);
      var w := WalkPairs(text, start, depth);
      if at == |text| then w == Walk(at, None)
      else if text[at] == '}' then w == Walk(at + 1, None)
      else
        var key := WalkValue(text, at, depth + 1);
        w == if key.problem.Some? then key else WalkAfterKey(text, key.at, depth)
  {
    hide WalkValue, WalkAfterKey, NextNonSpace;
  }

  lemma AfterKeyTurns(text: string, start: nat, depth: nat)
    ensures start <= |text| ==>
      var at := NextNonSpace(text, start, |text|);
      var w := WalkAfterKey(text, start, depth);
      if at == |text| then w == Walk(at, None)
      else if text[at] != ':' then w == Walk(at, Some(KeySeparator(text[at])))
      else
        var value := WalkValue(text, at + 1, depth + 1);
        w == if value.problem.Some? then value else WalkAfterPair(text, value.at, depth)
  {
    hide WalkValue, WalkAfterPair, NextNonSpace;
  }

  lemma AfterPairTurns(text: string, start: nat, depth: nat)
    ensures start <= |text| ==>
      var at := NextNonSpace(text, start, |text|);
      var w := WalkAfterPair(text, start, depth);
      if at == |text| then w == Walk(at, None)
      else if text[at] == ',' then w == WalkPairs(text, at + 1, depth)
      else if text[at] == '}' then w == Walk(at + 1, None)
      else w == Walk(at, Some(PairSeparator(text[at])))
  {
    hide WalkPairs, NextNonSpace;
  }

  // ----- Every text is of some form -----

  lemma RestsJoin(text: string, at: nat, end: nat, a: string, b: string)
    requires at <= end <= |text| && text[at..end] == a && Rests(text, end, b)
    ensures Rests(text, at, a + b) && |a| == end - at
  {
    assert text[at..] == text[at..end] + text[end..];
  }

  lemma RestsSelf(text: string, at: nat)
    requires at <= |text|
    ensures Rests(text, at, text[at..]) && Rests(text, at, text[at..] + [])
  {
  }

  lemma EveryString(text: string, at: nat) returns (pieces: seq<Piece>, e: Ending, after: string)
    requires at < |text| && text[at] == '"'
    ensures Writable(pieces, e) && (e.Closed? || after == [])
    ensures Rests(text, at, (['"'] + Inside(pieces, e)) + after)
  {
    hide Writable, AllWritten;
    pieces, e, after := EveryStringIsWritten(text, at + 1);
    var s := AllWritten(pieces) + EndText(e);
    assert text[at + 1..] == s + after;
    assert text[at..] == ['"'] + text[at + 1..];
    Regrouped(['"'], s, after);
  }

  lemma {:induction false} EveryBits(text: string, at: nat, depth: nat) returns (bits: seq<Bit>, end: GroupEnd, after: string)
    requires at <= |text| && depth >= 1
    ensures Counted(bits, depth) && GoodEnd(end, EndLevel(bits, depth), after)
    ensures Rests(text, at, BitsText(bits) + (GroupEndText(end) + after))
    decreases |text| - at
  {
    hide *;
    bits := [];
    NoBits(depth);
    if at == |text| {
      end, after := CutOff, [];
      EndsCut(text, depth);
    } else if text[at] == '"' {
      var pieces, e, rest := EveryString(text, at);
      if e.Closed? {
        var next := InnerIs(text, at, pieces, rest, depth);
        bits, end, after := EveryBits(text, next, depth);
        JoinsBit(text, at, Inner(pieces), bits, rest, GroupEndText(end) + after, depth);
        bits := [Inner(pieces)] + bits;
      } else {
        end, after := CutInString(pieces, e), rest;
        EndsInString(text, at, pieces, e, rest, depth);
      }
    } else if IsClose(text[at]) && depth == 1 {
      end, after := Shut(text[at]), text[at + 1..];
      EndsShut(text, at);
    } else {
      MarkIs(text, at, depth);
      bits, end, after := EveryBits(text, at + 1, Level(Mark(text[at]), depth));
      JoinsBit(text, at, Mark(text[at]), bits, text[at + 1..], GroupEndText(end) + after, depth);
      bits := [Mark(text[at])] + bits;
    }
  }

  lemma NoBits(depth: nat)
    ensures Counted([], depth) && EndLevel([], depth) == depth && BitsText([]) == []
  {
  }

  lemma EndsCut(text: string, depth: nat)
    ensures GoodEnd(CutOff, depth, []) && Rests(text, |text|, BitsText([]) + (GroupEndText(CutOff) + []))
  {
  }

  lemma EndsShut(text: string, at: nat)
    requires at < |text| && IsClose(text[at])
    ensures GoodEnd(Shut(text[at]), 1, text[at + 1..])
    ensures Rests(text, at, BitsText([]) + (GroupEndText(Shut(text[at])) + text[at + 1..]))
  {
  }

  lemma EndsInString(text: string, at: nat, pieces: seq<Piece>, e: Ending, after: string, depth: nat)
    requires Writable(pieces, e) && !e.Closed? && after == [] && Rests(text, at, (['"'] + Inside(pieces, e)) + after)
    ensures GoodEnd(CutInString(pieces, e), depth, after)
    ensures Rests(text, at, BitsText([]) + (GroupEndText(CutInString(pieces, e)) + after))
  {
    hide Writable, Inside;
    assert [] + (GroupEndText(CutInString(pieces, e)) + after) == GroupEndText(CutInString(pieces, e)) + after;
  }

  /** A bit may stand at this depth and its text is here. */
  predicate BitHere(text: string, at: nat, b: Bit, rest: string, depth: nat) {
    && (b.Mark? ==> b.c != '"' && (IsClose(b.c) ==> depth >= 2))
    && (b.Inner? ==> Writable(b.pieces, Closed))
    && Rests(text, at, BitText(b) + rest)
  }

  lemma InnerIs(text: string, at: nat, pieces: seq<Piece>, rest: string, depth: nat) returns (next: nat)
    requires Rests(text, at, (['"'] + Inside(pieces, Closed)) + rest) && Writable(pieces, Closed)
    ensures at < next <= |text| && next == at + |BitText(Inner(pieces))| && BitHere(text, at, Inner(pieces), rest, depth)
    ensures Level(Inner(pieces), depth) == depth && Rests(text, next, rest)
  {
    hide Writable, Inside;
    RestsOn(text, at, ['"'] + Inside(pieces, Closed), rest);
    next := at + |BitText(Inner(pieces))|;
  }

  lemma MarkIs(text: string, at: nat, depth: nat)
    requires at < |text| && text[at] != '"' && depth >= 1 && !(IsClose(text[at]) && depth == 1)
    ensures BitHere(text, at, Mark(text[at]), text[at + 1..], depth)
    ensures Level(Mark(text[at]), depth) >= 1
    ensures Rests(text, at + 1, text[at + 1..]) && |BitText(Mark(text[at]))| == 1
  {
    assert text[at..] == [text[at]] + text[at + 1..];
  }

  lemma JoinsBit(text: string, at: nat, b: Bit, bits: seq<Bit>, rest: string, more: string, depth: nat)
    requires BitHere(text, at, b, rest, depth) && Counted(bits, Level(b, depth))
    requires Rests(text, at + |BitText(b)|, BitsText(bits) + more)
    ensures Counted([b] + bits, depth) && EndLevel([b] + bits, depth) == EndLevel(bits, Level(b, depth))
    ensures Rests(text, at, BitsText([b] + bits) + more)
  {
    hide BitText, Level, Writable, Rests, IsClose;
    assert ([b] + bits)[1..] == bits;
    RestsOn(text, at, BitText(b), rest);
    SameRests(text, at + |BitText(b)|, rest, BitsText(bits) + more);
    RestsGrouped(text, at, BitText(b), BitsText(bits), more);
  }

  lemma SameRests(text: string, at: nat, a: string, b: string)
    requires Rests(text, at, a) && Rests(text, at, b)
    ensures a == b
  {
  }

  lemma EveryGroup(text: string, at: nat, open: char) returns (g: Group, after: string)
    requires at < |text| && text[at] == open && IsOpen(open)
    ensures GoodGroup(g, open, after) && Rests(text, at, GroupText(g) + after)
  {
    hide Counted, GoodEnd, EndLevel, BitsText, GroupEndText;
    var bits, end, rest := EveryBits(text, at + 1, 1);
    assert ([Mark(open)] + bits)[1..] == bits;
    g, after := Group([Mark(open)] + bits, end), rest;
    OpensGroup(g, open, after);
    assert text[at..] == [open] + text[at + 1..];
    Regrouped([open], BitsText(bits), GroupEndText(end) + after);
    Regrouped([open] + BitsText(bits), GroupEndText(end), after);
  }

  /** A name, and what the walk finds behind it. */
  lemma EveryName(text: string, at: nat) returns (f: Form, after: string)
    requires at < |text| && IsIdentifierStart(text[at])
    ensures Good(f, 0, after) && !f.Deep? && !f.List? && !f.Table? && Rests(text, at, Spell(f) + after)
    ensures Spell(f) != [] && Spell(f)[0] == text[at]
  {
    hide *;
    var end := WordEnd(text, at);
    var name := text[at..end];
    NameThere(text, at);
    var next := NextNonSpace(text, end, |text|);
    var gap := text[end..next];
    if next < |text| && text[next] == '(' {
      BracketsOpen();
      var args, rest := EveryGroup(text, next, '(');
      f, after := Called(name, gap, args), rest;
      RestsJoin(text, end, next, gap, GroupText(args) + rest);
      RestsJoin(text, at, end, name, gap + (GroupText(args) + rest));
      CalledGood(text, at, f, after);
    } else if next < |text| && text[next] == '[' {
      f, after := EveryType(text, at, end, next);
    } else {
      f, after := Word(name), text[end..];
      WordGood(text, at, end, next);
    }
    NameStarts(f, text, at, after);
  }

  lemma BracketsOpen()
    ensures IsOpen('(') && IsOpen('[')
  {
  }

  lemma NameThere(text: string, at: nat)
    requires at < |text| && IsIdentifierStart(text[at])
    ensures var end := WordEnd(text, at);
      && at < end <= |text| && IsName(text[at..end]) && (end < |text| ==> !IsIdentifierChar(text[end]))
      && end <= NextNonSpace(text, end, |text|) <= |text|
      && AllSpace(text[end..NextNonSpace(text, end, |text|)])
  {
    assert WordEnd(text, at) > at;
  }

  lemma CalledGood(text: string, at: nat, f: Form, after: string)
    requires f.Called? && IsName(f.name) && AllSpace(f.gap) && GoodGroup(f.args, '(', after)
    requires Rests(text, at, f.name + (f.gap + (GroupText(f.args) + after)))
    ensures Good(f, 0, after) && Rests(text, at, Spell(f) + after)
  {
    hide Rests, GoodGroup, GroupText, IsName;
    Regrouped(f.gap, GroupText(f.args), after);
    Regrouped(f.name, f.gap + GroupText(f.args), after);
  }

  lemma WordGood(text: string, at: nat, end: nat, next: nat)
    requires at < end <= |text| && IsName(text[at..end]) && (end < |text| ==> !IsIdentifierChar(text[end]))
    requires next == NextNonSpace(text, end, |text|) && (next < |text| ==> text[next] != '(' && text[next] != '[')
    ensures Good(Word(text[at..end]), 0, text[end..]) && Rests(text, at, Spell(Word(text[at..end])) + text[end..])
  {
    hide IsName, IsIdentifierChar, NoneAhead, NextNonSpace;
    NothingAhead(text, end, next);
    assert text[at..] == text[at..end] + text[end..];
  }

  lemma NothingAhead(text: string, end: nat, next: nat)
    requires end <= |text| && next == NextNonSpace(text, end, |text|)
    requires next < |text| ==> text[next] != '(' && text[next] != '['
    ensures NoneAhead(text[end..], "([")
  {
    AheadMoves(text, end, 0);
    hide NextNonSpace;
    var s := text[end..];
    var ahead := NextNonSpace(s, 0, |s|);
    assert next == end + ahead;
    if ahead < |s| { assert s[ahead] == text[next]; }
  }

  lemma NameStarts(f: Form, text: string, at: nat, after: string)
    requires f.Word? || f.Called? || f.Kind? || f.KindCalled?
    requires Good(f, 0, after) && Rests(text, at, Spell(f) + after)
    ensures at < |text| && Spell(f) != [] && Spell(f)[0] == text[at]
  {
    hide GoodGroup, GroupText, NoneAhead;
    RestsAt(text, at, Spell(f), after, 0);
  }

  lemma EveryType(text: string, at: nat, end: nat, next: nat) returns (f: Form, after: string)
    requires at < end <= next < |text| && text[next] == '[' && IsName(text[at..end]) && AllSpace(text[end..next])
    ensures (f.Kind? || f.KindCalled?) && Good(f, 0, after) && Rests(text, at, Spell(f) + after)
  {
    hide *;
    BracketsOpen();
    var types, rest := EveryGroup(text, next, '[');
    RestsOn(text, next, GroupText(types), rest);
    var from := next + |GroupText(types)|;
    var call := NextNonSpace(text, from, |text|);
    SpacesThere(text, from);
    var name, gap, gap2 := text[at..end], text[end..next], text[from..call];
    if call < |text| && text[call] == '(' {
      var args, last := EveryGroup(text, call, '(');
      f, after := KindCalled(name, gap, types, gap2, args), last;
      RestsJoin(text, from, call, gap2, GroupText(args) + after);
      SameRests(text, from, rest, gap2 + (GroupText(args) + after));
      KindCalledGood(f, after);
      Regrouped(gap2, GroupText(args), after);
      TypeJoins(text, at, end, next, GroupText(types), gap2 + GroupText(args), after);
    } else {
      f, after := Kind(name, gap, types, gap2), text[call..];
      RestsSelf(text, call);
      RestsJoin(text, from, call, gap2, after);
      SameRests(text, from, rest, gap2 + after);
      KindGood(text, f, call);
      TypeJoins(text, at, end, next, GroupText(types), gap2, after);
    }
  }

  lemma SpacesThere(text: string, from: nat)
    requires from <= |text|
    ensures var to := NextNonSpace(text, from, |text|);
      from <= to <= |text| && AllSpace(text[from..to]) && (to < |text| ==> !IsSpace(text[to]))
  {
  }

  lemma TypeJoins(text: string, at: nat, end: nat, next: nat, types: string, rest: string, after: string)
    requires at <= end <= next <= |text| && Rests(text, next, types + (rest + after))
    ensures var name, gap := text[at..end], text[end..next]; Rests(text, at, (name + (gap + (types + rest))) + after)
  {
    hide *;
    var name, gap := text[at..end], text[end..next];
    RestsJoin(text, end, next, gap, types + (rest + after));
    RestsJoin(text, at, end, name, gap + (types + (rest + after)));
    Regrouped(types, rest, after);
    Regrouped(gap, types + rest, after);
    Regrouped(name, gap + (types + rest), after);
  }

  lemma KindCalledGood(f: Form, after: string)
    requires f.KindCalled? && IsName(f.name) && AllSpace(f.gap) && AllSpace(f.gap2)
    requires GoodGroup(f.types, '[', f.gap2 + (GroupText(f.args) + after)) && GoodGroup(f.args, '(', after)
    ensures Good(f, 0, after) && Spell(f) == f.name + (f.gap + (GroupText(f.types) + (f.gap2 + GroupText(f.args))))
  {
    hide GoodGroup, GroupText, IsName;
  }

  lemma KindGood(text: string, f: Form, call: nat)
    requires f.Kind? && IsName(f.name) && AllSpace(f.gap) && AllSpace(f.gap2) && call <= |text|
    requires GoodGroup(f.types, '[', f.gap2 + text[call..])
    requires call < |text| ==> !IsSpace(text[call]) && text[call] != '('
    ensures Good(f, 0, text[call..]) && Spell(f) == f.name + (f.gap + (GroupText(f.types) + f.gap2))
  {
    hide GoodGroup, GroupText, IsName, IsSpace;
  }

  lemma EveryQuote(text: string, at: nat, mark: string) returns (f: Form, after: string)
    requires mark in {"", "&", "@"} && at + |mark| < |text| && text[at..at + |mark|] == mark && text[at + |mark|] == '"'
    ensures f.Quote? && Good(f, 0, after) && Rests(text, at, Spell(f) + after)
    ensures Spell(f) != [] && Spell(f)[0] == text[at]
  {
    hide Rests, Writable, Inside;
    var pieces, e, rest := EveryString(text, at + |mark|);
    f, after := Quote(mark, pieces, e), rest;
    var quoted := ['"'] + Inside(pieces, e);
    RestsJoin(text, at, at + |mark|, mark, quoted + after);
    Regrouped(mark, quoted, after);
    RestsAt(text, at, Spell(f), after, 0);
  }

  lemma EveryToken(text: string, at: nat) returns (f: Form, after: string)
    requires at < |text| && !IsSpace(text[at]) && text[at] !in ")]},:(" && text[at] !in "\"&@[{" && !IsIdentifierStart(text[at])
    ensures f.Token? && Good(f, 0, after) && Rests(text, at, Spell(f) + after)
    ensures Spell(f) != [] && Spell(f)[0] == text[at]
  {
    var end := BareEnd(text, at);
    assert end > at;
    f, after := Token(text[at..end]), text[end..];
    assert text[at..] == text[at..end] + text[end..];
  }

  lemma {:induction false} EveryForm(text: string, at: nat, depth: nat) returns (f: Form, after: string)
    requires at <= |text| && (at < |text| ==> !IsSpace(text[at]))
    ensures Good(f, depth, after) && Rests(text, at, Spell(f) + after)
    ensures at < |text| ==> Spell(f) != [] && Spell(f)[0] == text[at]
    decreases |text| - at, 1
  {
    hide *;
    if depth > 32 || at == |text| {
      f, after := EndForm(text, at, depth);
    } else if text[at] == '[' {
      var items, rest := EveryItems(text, at + 1, depth);
      f, after := List(items), rest;
      ListGood(text, at, items, depth, rest);
    } else if text[at] == '{' {
      var fields, rest := EveryFields(text, at + 1, depth);
      f, after := Table(fields), rest;
      TableGood(text, at, fields, depth, rest);
    } else {
      f, after := EveryAtom(text, at);
      AtAnyDepth(f, depth, after);
    }
  }

  lemma EndForm(text: string, at: nat, depth: nat) returns (f: Form, after: string)
    requires at <= |text| && (depth > 32 || at == |text|)
    ensures Good(f, depth, after) && Rests(text, at, Spell(f) + after)
    ensures at < |text| ==> Spell(f) != [] && Spell(f)[0] == text[at]
  {
    after := [];
    RestsSelf(text, at);
    f := if depth > 32 then Deep(text[at..]) else Nothing;
    assert [] + [] == text[|text|..];
  }

  lemma AtAnyDepth(f: Form, depth: nat, after: string)
    requires Good(f, 0, after) && !f.List? && !f.Table? && depth <= 32
    ensures Good(f, depth, after)
  {
  }

  lemma EveryAtom(text: string, at: nat) returns (f: Form, after: string)
    requires at < |text| && !IsSpace(text[at]) && text[at] != '[' && text[at] != '{'
    ensures Good(f, 0, after) && !f.List? && !f.Table? && Rests(text, at, Spell(f) + after)
    ensures Spell(f) != [] && Spell(f)[0] == text[at]
  {
    hide Good, Spell;
    var c := text[at];
    if c in ")]},:(" {
      f, after := Stray(c), text[at + 1..];
      OneChar(text, at);
    } else if c == '"' {
      f, after := EveryQuote(text, at, "");
    } else if c in "&@" && at + 1 < |text| && text[at + 1] == '"' {
      f, after := EveryQuote(text, at, [c]);
    } else if c in "&@" {
      f, after := Sigil(c), text[at + 1..];
      OneChar(text, at);
    } else if IsIdentifierStart(c) {
      f, after := EveryName(text, at);
    } else {
      f, after := EveryToken(text, at);
    }
  }

  lemma OneChar(text: string, at: nat)
    requires at < |text|
    ensures var c, after := text[at], text[at + 1..];
      && Rests(text, at, [c] + after) && Spell(Stray(c)) == [c] == Spell(Sigil(c))
      && (c in ")]},:(" ==> Good(Stray(c), 0, after))
      && (c in "&@" && (at + 1 < |text| ==> text[at + 1] != '"') ==> Good(Sigil(c), 0, after))
  {
  }

  lemma ListGood(text: string, at: nat, items: Items, depth: nat, after: string)
    requires at < |text| && text[at] == '[' && depth <= 32
    requires GoodItems(items, depth, after) && Rests(text, at + 1, SpellItems(items) + after)
    ensures Good(List(items), depth, after) && Rests(text, at, Spell(List(items)) + after)
    ensures Spell(List(items)) != [] && Spell(List(items))[0] == text[at]
  {
    hide GoodItems, SpellItems;
    assert text[at..] == ['['] + text[at + 1..];
    Regrouped(['['], SpellItems(items), after);
  }

  lemma TableGood(text: string, at: nat, fields: Fields, depth: nat, after: string)
    requires at < |text| && text[at] == '{' && depth <= 32
    requires GoodFields(fields, depth, after) && Rests(text, at + 1, SpellFields(fields) + after)
    ensures Good(Table(fields), depth, after) && Rests(text, at, Spell(Table(fields)) + after)
    ensures Spell(Table(fields)) != [] && Spell(Table(fields))[0] == text[at]
  {
    hide GoodFields, SpellFields;
    assert text[at..] == ['{'] + text[at + 1..];
    Regrouped(['{'], SpellFields(fields), after);
  }

  /** Spaces up to the end of the text, or up to a character. */
  lemma EveryTrail(text: string, at: nat) returns (trail: string, next: nat)
    requires at <= |text|
    ensures at <= next <= |text| && AllSpace(trail) && |trail| == next - at && text[at..next] == trail
    ensures next < |text| ==> !IsSpace(text[next])
    ensures next < |text| ==> Rests(text, at, (trail + [text[next]]) + text[next + 1..])
    ensures next == |text| ==> Rests(text, at, (trail + []) + [])
  {
    next := NextNonSpace(text, at, |text|);
    trail := text[at..next];
    if next < |text| {
      assert text[at..] == (trail + [text[next]]) + text[next + 1..];
    }
  }

  lemma {:induction false} EveryItems(text: string, at: nat, depth: nat) returns (i: Items, after: string)
    requires at <= |text|
    ensures GoodItems(i, depth, after) && Rests(text, at, SpellItems(i) + after)
    decreases |text| - at, 3
  {
    hide *;
    var trail, next := EveryTrail(text, at);
    if next == |text| || text[next] == ']' {
      i := NoItem(trail, next < |text|);
      after := if next < |text| then text[next + 1..] else [];
      NoItemGood(i, depth, after);
    } else {
      var value, rest := EveryForm(text, next, depth + 1);
      RestsOn(text, next, Spell(value), rest);
      var behind := ItemStops;
      after := rest;
      if Fault(value).None? { behind, after := EveryAfterItem(text, next + |Spell(value)|, depth); }
      i := SomeItem(trail, value, behind);
      ItemJoins(text, at, next, i, rest, depth, after);
    }
  }

  lemma NoItemGood(i: Items, depth: nat, after: string)
    requires i.NoItem? && AllSpace(i.trail) && (i.shut || after == [])
    ensures GoodItems(i, depth, after) && SpellItems(i) == i.trail + (if i.shut then [']'] else [])
  {
  }

  lemma ItemJoins(text: string, at: nat, next: nat, i: Items, rest: string, depth: nat, after: string)
    requires i.SomeItem? && at <= next < |text| && text[at..next] == i.lead && AllSpace(i.lead)
    requires !IsSpace(text[next]) && text[next] != ']' && Spell(i.value) != [] && Spell(i.value)[0] == text[next]
    requires Rests(text, next, Spell(i.value) + rest) && Good(i.value, depth + 1, rest)
    requires if Fault(i.value).Some? then i.next.ItemStops? && after == rest
             else !i.next.ItemStops? && GoodAfterItem(i.next, depth, after)
                  && Rests(text, next + |Spell(i.value)|, SpellAfterItem(i.next) + after)
    ensures GoodItems(i, depth, after) && Rests(text, at, SpellItems(i) + after)
  {
    hide Rests, Good, Spell, Fault, SpellAfterItem, GoodAfterItem, AllSpace;
    if Fault(i.value).Some? {
      NothingAfter(depth, after);
    } else {
      RestsOn(text, next, Spell(i.value), rest);
      SameRests(text, next + |Spell(i.value)|, rest, SpellAfterItem(i.next) + after);
    }
    assert rest == SpellAfterItem(i.next) + after;
    RestsJoin(text, at, next, i.lead, Spell(i.value) + rest);
    Regrouped(Spell(i.value), SpellAfterItem(i.next), after);
    Regrouped(i.lead, Spell(i.value) + SpellAfterItem(i.next), after);
  }

  lemma NothingAfter(depth: nat, after: string)
    ensures SpellAfterItem(ItemStops) + after == after && GoodAfterItem(ItemStops, depth, after)
    ensures SpellAfterKey(KeyStops) + after == after && GoodAfterKey(KeyStops, depth, after)
    ensures SpellAfterField(FieldStops) + after == after && GoodAfterField(FieldStops, depth, after)
  {
  }

  lemma {:induction false} EveryAfterItem(text: string, at: nat, depth: nat) returns (a: AfterItem, after: string)
    requires at <= |text|
    ensures GoodAfterItem(a, depth, after) && !a.ItemStops? && Rests(text, at, SpellAfterItem(a) + after)
    decreases |text| - at, 2
  {
    hide *;
    var trail, next := EveryTrail(text, at);
    if next < |text| && text[next] == ',' {
      var items, rest := EveryItems(text, next + 1, depth);
      a, after := MoreItems(trail, items), rest;
      AfterItemGood(a, depth, after);
      CommaJoins(text, at, next, trail, ',', SpellItems(items), after);
    } else if next < |text| && text[next] != ']' {
      a, after := NoItemComma(trail, text[next]), text[next + 1..];
      AfterItemGood(a, depth, after);
    } else {
      a, after := ItemsEnd(trail, next < |text|), if next < |text| then text[next + 1..] else [];
      AfterItemGood(a, depth, after);
    }
  }

  lemma AfterItemGood(a: AfterItem, depth: nat, after: string)
    requires !a.ItemStops? && AllSpace(a.trail)
    requires a.ItemsEnd? ==> a.shut || after == []
    requires a.NoItemComma? ==> !IsSpace(a.c) && a.c != ',' && a.c != ']'
    requires a.MoreItems? ==> GoodItems(a.rest, depth, after)
    ensures GoodAfterItem(a, depth, after)
    ensures a.ItemsEnd? ==> SpellAfterItem(a) == a.trail + (if a.shut then [']'] else [])
    ensures a.NoItemComma? ==> SpellAfterItem(a) == a.trail + [a.c]
    ensures a.MoreItems? ==> SpellAfterItem(a) == a.trail + ([','] + SpellItems(a.rest))
  {
    hide GoodItems, SpellItems, IsSpace, AllSpace;
  }

  lemma CommaJoins(text: string, at: nat, next: nat, trail: string, c: char, s: string, after: string)
    requires at <= next < |text| && text[at..next] == trail && text[next] == c && Rests(text, next + 1, s + after)
    ensures Rests(text, at, (trail + ([c] + s)) + after)
  {
    hide *;
    OneMore(text, next, s + after);
    RestsJoin(text, at, next, trail, [c] + (s + after));
    Regrouped([c], s, after);
    Regrouped(trail, [c] + s, after);
  }

  lemma OneMore(text: string, at: nat, s: string)
    requires at < |text| && Rests(text, at + 1, s)
    ensures Rests(text, at, [text[at]] + s)
  {
    assert text[at..] == [text[at]] + text[at + 1..];
  }

  lemma {:induction false} EveryFields(text: string, at: nat, depth: nat) returns (i: Fields, after: string)
    requires at <= |text|
    ensures GoodFields(i, depth, after) && Rests(text, at, SpellFields(i) + after)
    decreases |text| - at, 3
  {
    hide *;
    var trail, next := EveryTrail(text, at);
    if next == |text| || text[next] == '}' {
      i := NoField(trail, next < |text|);
      after := if next < |text| then text[next + 1..] else [];
      NoFieldGood(i, depth, after);
    } else {
      var key, rest := EveryForm(text, next, depth + 1);
      RestsOn(text, next, Spell(key), rest);
      var behind := KeyStops;
      after := rest;
      if Fault(key).None? { behind, after := EveryAfterKey(text, next + |Spell(key)|, depth); }
      i := SomeField(trail, key, behind);
      FieldJoins(text, at, next, i, rest, depth, after);
    }
  }

  lemma NoFieldGood(i: Fields, depth: nat, after: string)
    requires i.NoField? && AllSpace(i.trail) && (i.shut || after == [])
    ensures GoodFields(i, depth, after) && SpellFields(i) == i.trail + (if i.shut then ['}'] else [])
  {
  }

  lemma FieldJoins(text: string, at: nat, next: nat, i: Fields, rest: string, depth: nat, after: string)
    requires i.SomeField? && at <= next < |text| && text[at..next] == i.lead && AllSpace(i.lead)
    requires !IsSpace(text[next]) && text[next] != '}' && Spell(i.key) != [] && Spell(i.key)[0] == text[next]
    requires Rests(text, next, Spell(i.key) + rest) && Good(i.key, depth + 1, rest)
    requires if Fault(i.key).Some? then i.next.KeyStops? && after == rest
             else !i.next.KeyStops? && GoodAfterKey(i.next, depth, after)
                  && Rests(text, next + |Spell(i.key)|, SpellAfterKey(i.next) + after)
    ensures GoodFields(i, depth, after) && Rests(text, at, SpellFields(i) + after)
  {
    hide Rests, Good, Spell, Fault, SpellAfterKey, GoodAfterKey, AllSpace;
    if Fault(i.key).Some? {
      NothingAfter(depth, after);
    } else {
      RestsOn(text, next, Spell(i.key), rest);
      SameRests(text, next + |Spell(i.key)|, rest, SpellAfterKey(i.next) + after);
    }
    assert rest == SpellAfterKey(i.next) + after;
    RestsJoin(text, at, next, i.lead, Spell(i.key) + rest);
    Regrouped(Spell(i.key), SpellAfterKey(i.next), after);
    Regrouped(i.lead, Spell(i.key) + SpellAfterKey(i.next), after);
  }

  lemma {:induction false} EveryAfterKey(text: string, at: nat, depth: nat) returns (a: AfterKey, after: string)
    requires at <= |text|
    ensures GoodAfterKey(a, depth, after) && !a.KeyStops? && Rests(text, at, SpellAfterKey(a) + after)
    decreases |text| - at, 2
  {
    hide *;
    var trail, next := EveryTrail(text, at);
    if next == |text| {
      a, after := KeyEnds(trail), [];
      KeyEndsGood(text, at, trail, depth);
    } else if text[next] != ':' {
      a, after := NoColon(trail, text[next]), text[next + 1..];
      NoColonGood(a, depth, after);
    } else {
      var lead, from := EveryTrail(text, next + 1);
      var value, rest := EveryForm(text, from, depth + 1);
      RestsOn(text, from, Spell(value), rest);
      var behind := FieldStops;
      after := rest;
      if Fault(value).None? { behind, after := EveryAfterField(text, from + |Spell(value)|, depth); }
      a := Colon(trail, lead, value, behind);
      ColonJoins(text, next + 1, from, a, rest, depth, after);
      CommaJoins(text, at, next, trail, ':', lead + (Spell(value) + SpellAfterField(behind)), after);
    }
  }

  lemma KeyEndsGood(text: string, at: nat, trail: string, depth: nat)
    requires AllSpace(trail) && Rests(text, at, (trail + []) + [])
    ensures GoodAfterKey(KeyEnds(trail), depth, []) && Rests(text, at, SpellAfterKey(KeyEnds(trail)) + [])
  {
    assert trail + [] == trail;
  }

  lemma NoColonGood(a: AfterKey, depth: nat, after: string)
    requires a.NoColon? && AllSpace(a.trail) && !IsSpace(a.c) && a.c != ':'
    ensures GoodAfterKey(a, depth, after) && SpellAfterKey(a) == a.trail + [a.c]
  {
  }

  lemma ColonJoins(text: string, at: nat, from: nat, a: AfterKey, rest: string, depth: nat, after: string)
    requires a.Colon? && at <= from <= |text| && text[at..from] == a.lead && AllSpace(a.trail) && AllSpace(a.lead)
    requires Rests(text, from, Spell(a.value) + rest) && Good(a.value, depth + 1, rest)
    requires if Fault(a.value).Some? then a.next.FieldStops? && after == rest
             else !a.next.FieldStops? && GoodAfterField(a.next, depth, after)
                  && Rests(text, from + |Spell(a.value)|, SpellAfterField(a.next) + after)
    ensures GoodAfterKey(a, depth, after)
    ensures SpellAfterKey(a) == a.trail + ([':'] + (a.lead + (Spell(a.value) + SpellAfterField(a.next))))
    ensures Rests(text, at, (a.lead + (Spell(a.value) + SpellAfterField(a.next))) + after)
  {
    hide Rests, Good, Spell, Fault, SpellAfterField, GoodAfterField, AllSpace;
    if Fault(a.value).Some? {
      NothingAfter(depth, after);
    } else {
      RestsOn(text, from, Spell(a.value), rest);
      SameRests(text, from + |Spell(a.value)|, rest, SpellAfterField(a.next) + after);
    }
    assert rest == SpellAfterField(a.next) + after;
    RestsJoin(text, at, from, a.lead, Spell(a.value) + rest);
    Regrouped(Spell(a.value), SpellAfterField(a.next), after);
    Regrouped(a.lead, Spell(a.value) + SpellAfterField(a.next), after);
  }

  lemma {:induction false} EveryAfterField(text: string, at: nat, depth: nat) returns (a: AfterField, after: string)
    requires at <= |text|
    ensures GoodAfterField(a, depth, after) && !a.FieldStops? && Rests(text, at, SpellAfterField(a) + after)
    decreases |text| - at, 2
  {
    hide *;
    var trail, next := EveryTrail(text, at);
    if next < |text| && text[next] == ',' {
      var fields, rest := EveryFields(text, next + 1, depth);
      a, after := MoreFields(trail, fields), rest;
      AfterFieldGood(a, depth, after);
      CommaJoins(text, at, next, trail, ',', SpellFields(fields), after);
    } else if next < |text| && text[next] != '}' {
      a, after := NoFieldComma(trail, text[next]), text[next + 1..];
      AfterFieldGood(a, depth, after);
    } else {
      a, after := FieldsEnd(trail, next < |text|), if next < |text| then text[next + 1..] else [];
      AfterFieldGood(a, depth, after);
    }
  }

  lemma AfterFieldGood(a: AfterField, depth: nat, after: string)
    requires !a.FieldStops? && AllSpace(a.trail)
    requires a.FieldsEnd? ==> a.shut || after == []
    requires a.NoFieldComma? ==> !IsSpace(a.c) && a.c != ',' && a.c != '}'
    requires a.MoreFields? ==> GoodFields(a.rest, depth, after)
    ensures GoodAfterField(a, depth, after)
    ensures a.FieldsEnd? ==> SpellAfterField(a) == a.trail + (if a.shut then ['}'] else [])
    ensures a.NoFieldComma? ==> SpellAfterField(a) == a.trail + [a.c]
    ensures a.MoreFields? ==> SpellAfterField(a) == a.trail + ([','] + SpellFields(a.rest))
  {
    hide GoodFields, SpellFields, IsSpace, AllSpace;
  }
}
