/** A bare name at the end of a line with lines below it, and a file that ends behind an `=`. */
module ConfigNames {
  import opened Text
  import opened ConfigGrammar
  import opened ConfigScan
  import opened ConfigRoundTrip
  import opened ConfigFileEnd
  import opened ConfigLoading
  import opened ScanLastLine
  import opened ConfigCutShort
  import opened ConfigRows

  /** The first line has something on it, and that calls nothing. */
  predicate CallsNothing(below: string) {
    exists k: nat ::
      && k < |below| && AllSpace(below[..k]) && NoNewline(below[..k])
      && !IsSpace(below[k]) && below[k] != '(' && below[k] != '['
  }

  /** A line that calls nothing ends the waiting and is read from its start. */
  lemma WaitingEnds(front: string, below: string, number: nat, st: State)
    requires CallsNothing(below) && st.inValue && st.value.awaitingCall
    ensures ScanFrom(front + below, |front|, number, st) == ScanFrom(front + below, |front|, number, st.(inValue := false))
  {
    hide Rest, Grow;
    var text, lo := front + below, |front|;
    var k: nat :| k < |below| && AllSpace(below[..k]) && NoNewline(below[..k])
                  && !IsSpace(below[k]) && below[k] != '(' && below[k] != '[';
    forall i | lo <= i < lo + k ensures IsSpace(text[i]) && text[i] != NEWLINE {
      assert text[i] == below[..k][i - lo];
    }
    assert text[lo + k] == below[k];
    var end := LineEnd(text, lo);
    var hi := RawEnd(text, lo, end);
    LineReaches(text, lo, lo + k);
    NextNonSpaceIs(text, lo, hi, lo + k);
  }

  lemma LineReaches(text: string, lo: nat, at: nat)
    requires lo <= at < |text| && !IsSpace(text[at]) && forall i :: lo <= i < at ==> text[i] != NEWLINE
    ensures at < RawEnd(text, lo, LineEnd(text, lo))
  {
    assert IsSpace(NEWLINE) && IsSpace('\r');
    hide IsSpace;
    assert LineEnd(text, lo) > at;
  }

  /** What is registered once the name turns out not to be called. */
  function WithName(items: seq<Item>, key: string, name: string): Read {
    var line := LineAfter(items, 1);
    Read(Registered(items, [], 1) + [Entry(SectionAfter(items, []), key, name, key, line, line, line, false)],
         HeadersOf(items, 1), [], line, SectionAfter(items, []))
  }

  lemma WaitedRead(items: seq<Item>, key: string, name: string, next: State, last: State)
    requires UpTo(START, next, items, 1) && Waiting(next, last, key, name, LineAfter(items, 1))
    ensures var closed := last.(inValue := false); !closed.inValue && ReadOf(closed) == WithName(items, key, name)
    ensures last.inValue && last.value.awaitingCall && Clean(next)
  {
    hide LineAfter, Registered, HeadersOf, SectionAfter;
    assert [] + Registered(items, [], 1) == Registered(items, [], 1);
    assert [] + HeadersOf(items, 1) == HeadersOf(items, 1);
  }

  /** A bare name ends on its own line when the line below calls nothing: its entry holds the name and that line
      only, and the lines below are read as if they stood alone. */
  lemma NameEndsOnItsLine(items: seq<Item>, key: string, name: string, rows: seq<Row>)
    requires ValidItems(items) && AllReadWhole(items) && PlainKey(key) && Identifier(name) && !IsValueKeyword(name)
    requires CallsNothing(PrintRows(rows)) && GoodRows(rows, WithName(items, key, name), LineAfter(items, 1) + 1)
    ensures var r := WithRows(WithName(items, key, name), rows, LineAfter(items, 1) + 1);
      ScanText(PrintFile(items) + (key + (['='] + (name + ([NEWLINE] + PrintRows(rows))))))
      == Scan(r.entries, r.headers, true, r.pending != [])
  {
    hide *;
    var before, line, below := PrintFile(items), key + (['='] + (name + [NEWLINE])), PrintRows(rows);
    var front := before + line;
    var text := front + below;
    GroupsLine(before, key, name, below);
    HasThree(before, line, below);
    StartIsClean();
    var next := ScansUpTo(items, text, 0, 1, START);
    NextIsClean(START, next, items, 1);
    var last := NameLineWaits(key, name, text, |before|, LineAfter(items, 1), next);
    WaitedRead(items, key, name, next, last);
    WaitingEnds(front, below, LineAfter(items, 1) + 1, last);
    ReadsRows(rows, text, |front|, LineAfter(items, 1) + 1, last.(inValue := false));
    ScanIs(text);
    AnswersRead(ScanFrom(text, 0, 1, START));
  }

  lemma GroupsLine(before: string, key: string, name: string, below: string)
    ensures before + (key + (['='] + (name + ([NEWLINE] + below)))) == (before + (key + (['='] + (name + [NEWLINE])))) + below
    ensures |before + (key + (['='] + (name + [NEWLINE])))| == |before| + |key| + |name| + 2
  {
    Regrouped(name, [NEWLINE], below);
    Regrouped(['='], name + [NEWLINE], below);
    Regrouped(key, ['='] + (name + [NEWLINE]), below);
    Regrouped(before, key + (['='] + (name + [NEWLINE])), below);
  }

  lemma HasThree(a: string, b: string, c: string)
    ensures var text := (a + b) + c;
      Has(text, 0, a) && Has(text, |a|, b) && Has(text, |a + b|, c) && |a + b| + |c| == |text| && |a + b| == |a| + |b|
  {
  }

  lemma AnswersRead(st: State)
    requires !st.inValue
    ensures Answer(st) == Scan(ReadOf(st).entries, ReadOf(st).headers, true, ReadOf(st).pending != [])
  {
  }

  // ----- No value at all -----

  /** What is left of a line that ends behind its `=`. */
  lemma LineOpensNothing(key: string, text: string, at: nat, number: nat, st: State)
    requires PlainKey(key) && Clean(st) && Has(text, at, key + ['=']) && at + |key| + 1 == |text|
    ensures StillOpen(AtValue(key, at, number, st).st, ScanFrom(text, at, number, st))
  {
    hide Has, PlainKey, KeyTokens, Rest, AppendPiece, NextNonSpace, TrimEnd;
    NothingStands(key, text, at);
    LineOutside(text, at, |text|, number, st);
    var equals := at + |key|;
    RestBegins(text, at, at, |text|, |text|, number, st, Key(key, Some(equals)), key);
    NothingIsRead(text, ConfigScan.Opened(st, key, key, number, number), number);
  }

  lemma NothingStands(key: string, text: string, at: nat)
    requires PlainKey(key) && Has(text, at, key + ['=']) && at + |key| + 1 == |text|
    ensures LineEnd(text, at) == |text| == RawEnd(text, at, |text|)
    ensures NextNonSpace(text, at, |text|) == at && TrimEnd(text, at, |text|) == |text|
    ensures text[at] != ';' && text[at] != '[' && KeyTokens(text, at, |text|, []) == Key(key, Some(at + |key|))
  {
    hide Has, KeyTokens;
    HasSplit(text, at, key, ['=']);
    HasChar(text, at + |key|, ['='], 0);
    HasChar(text, at, key, 0);
    forall i | at <= i < |text| ensures text[i] != NEWLINE {
      if i < at + |key| { HasChar(text, at, key, i - at); }
    }
    NextNonSpaceIs(text, at, |text|, at);
    TrimEndIs(text, at, |text|);
    ReadsKey(key, text, at, 0, |text|, []);
    assert [] + key[0..] == key;
  }

  lemma NothingIsRead(text: string, begun: State, number: nat)
    requires begun.entries != []
    ensures var next := FirstLine(text, |text|, |text|, number, begun);
      && next.inValue && !next.value.awaitingCall && next.pending == begun.pending && next.headers == begun.headers
      && GrownOnly(begun.entries, next.entries)
  {
    hide Grow;
    GrowsOnly(begun, [], false, number);
    assert text[|text|..|text|] == [];
  }

  /** A file that ends behind an `=` is not complete, and does not load because that key has no value. */
  lemma MissingValueIsIncomplete(items: seq<Item>, key: string)
    requires ValidItems(items) && AllReadWhole(items) && PlainKey(key)
    ensures var text := PrintFile(items) + (key + ['=']);
      && ScanText(text + [NEWLINE]) == ScanText(text) && ReadsCut(ScanText(text), items, key)
      && FailureOf(ScanText(text)) == Some(Failure(SectionAfter(items, []), key, LineAfter(items, 1), true, None))
  {
    hide *;
    var before := PrintFile(items);
    var text := before + (key + ['=']);
    FinalNewlineIsIdle(text);
    HasWhole(before, key + ['=']);
    StartIsClean();
    var next := ScansUpTo(items, text, 0, 1, START);
    NextIsClean(START, next, items, 1);
    LineOpensNothing(key, text, |before|, LineAfter(items, 1), next);
    ScanIs(text);
    AnswersOpen(items, key, |before|, next, ScanFrom(text, 0, 1, START));
    FailsOpen(ScanText(text), items, key);
  }
}
