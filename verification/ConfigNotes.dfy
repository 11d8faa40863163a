/** Comments between the lines of a written value. */
module ConfigNotes {
  import opened Text
  import opened ConfigGrammar
  import opened ConfigScan
  import opened ScanComments
  import opened ConfigRoundTrip
  import opened ConfigFileEnd
  import opened ValueModes
  import opened ConfigCutShort

  lemma {:induction false} PrintsBoth(a: seq<Item>, b: seq<Item>)
    ensures PrintFile(a + b) == PrintFile(a) + PrintFile(b)
    decreases |a|
  {
    hide PrintItem;
    if a == [] {
      assert [] + b == b;
    } else {
      assert (a + b)[1..] == a[1..] + b;
      PrintsBoth(a[1..], b);
      Regrouped([NEWLINE], PrintFile(a[1..]), PrintFile(b));
      Regrouped(PrintItem(a[0]), [NEWLINE] + PrintFile(a[1..]), PrintFile(b));
    }
  }

  lemma PrintsAround(before: seq<Item>, key: string, v: Value, n: nat, after: seq<Item>)
    requires StopsInside(v, n) && n < |Print(v)| && Print(v)[n] == NEWLINE
    ensures FileCut(before, key, v, n) + ([NEWLINE] + (Print(v)[n + 1..] + ([NEWLINE] + PrintFile(after))))
         == PrintFile(before + ([Setting(key, v)] + after))
  {
    hide *;
    FileCutIs(before, key, v, n);
    PrintsBoth(before, [Setting(key, v)] + after);
    PrintsSetting(key, v, after);
    AroundBreak(PrintFile(before), key, Print(v), n, [NEWLINE] + PrintFile(after));
  }

  lemma PrintsSetting(key: string, v: Value, after: seq<Item>)
    ensures PrintFile([Setting(key, v)] + after) == (key + (['='] + Print(v))) + ([NEWLINE] + PrintFile(after))
  {
    hide Print;
    assert ([Setting(key, v)] + after)[1..] == after;
  }

  lemma AroundBreak(front: string, key: string, s: string, n: nat, tail: string)
    requires n < |s| && s[n] == NEWLINE
    ensures (front + (key + (['='] + s[..n]))) + ([NEWLINE] + (s[n + 1..] + tail)) == front + ((key + (['='] + s)) + tail)
  {
    var below := [NEWLINE] + s[n + 1..];
    assert s == s[..n] + below;
    Regrouped([NEWLINE], s[n + 1..], tail);
    Regrouped(front, key + (['='] + s[..n]), below + tail);
    Regrouped(key, ['='] + s[..n], below + tail);
    Regrouped(['='], s[..n], below + tail);
    Regrouped(s[..n], below, tail);
    Regrouped(['='], s, tail);
    Regrouped(key, ['='] + s, tail);
  }

  lemma CutStandsInBracket(items: seq<Item>, key: string, v: Value, n: nat)
    requires ValidItems(items) && AllReadWhole(items) && ValidItem(Setting(key, v)) && StopsInside(v, n)
    requires !ModeAtCut(v, n).quoted
    ensures StandsInBracket(FileCut(items, key, v, n))
  {
    hide ScanFrom, PrintFile, UpTo, Print, StopsInside, AtEnd;
    var next, annotation := CutLeaves(items, key, v, n);
    SomethingIsOpen(key, v, n);
    CutBegins(key, v, n);
    FileCutIs(items, key, v, n);
    var p := Print(v)[..n];
    assert p[|p| - 1] in p;
  }

  lemma SomethingIsOpen(key: string, v: Value, n: nat)
    requires ValidItem(Setting(key, v)) && StopsInside(v, n)
    ensures n <= |Print(v)| && Within(ModeAtCut(v, n))
  {
    hide *;
    CutIs(v, n);
    var s := InsideOf(v, n)[..n - |Before(v, n)|];
    ValueIsValid(key, v);
    CutStaysInside(v, n);
    ModeOf(v);
    WithinAtEnd(OpenMode(v), s);
    CutModeIs(v, n);
  }

  lemma ValueIsValid(key: string, v: Value)
    requires ValidItem(Setting(key, v))
    ensures Valid(v)
  {
  }

  lemma {:induction false} WithinAtEnd(m: Mode, s: string)
    requires Stays(m, s)
    ensures Within(AtEnd(m, s))
    decreases |s|
  {
    if s != [] { WithinAtEnd(Step(m, s[0]), s[1..]); }
  }

  /** A comment behind a line of a written value, where the line break stands inside a bracket and outside a string,
      changes nothing that is read of the file. */
  lemma NoteInValueIsIdle(before: seq<Item>, key: string, v: Value, n: nat, note: string, after: seq<Item>)
    requires ValidItems(before) && AllReadWhole(before) && ValidItem(Setting(key, v)) && Comment(note)
    requires StopsInside(v, n) && !ModeAtCut(v, n).quoted && n < |Print(v)| && Print(v)[n] == NEWLINE
    ensures var above := PrintFile(before) + (key + (['='] + Print(v)[..n]));
      var below := Print(v)[n + 1..] + ([NEWLINE] + PrintFile(after));
      ScanText(above + (note + ([NEWLINE] + below))) == ScanText(PrintFile(before + ([Setting(key, v)] + after)))
  {
    hide *;
    FileCutIs(before, key, v, n);
    CutStandsInBracket(before, key, v, n);
    CommentIsIdle(FileCut(before, key, v, n), note, Print(v)[n + 1..] + ([NEWLINE] + PrintFile(after)));
    PrintsAround(before, key, v, n, after);
  }
}
