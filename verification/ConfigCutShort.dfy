/** Files that end inside a value, and files that end inside a key. The state a scan is left in by the beginning of
    a value is told from what is open there: an open string stays open to the end of the text, and so does an open
    bracket, whatever the lines above the last one held. */
module ConfigCutShort {
  import opened Text
  import opened ConfigGrammar
  import opened ConfigScan
  import opened ScanLastLine
  import opened ScanValues
  import opened ScanTopLevel
  import opened ConfigRoundTrip
  import opened ConfigFileEnd
  import opened ConfigLoading
  import opened ValueModes

  /** The scan's state where this much is open. */
  function Of(m: Mode, annotation: bool): ValueState {
    ValueState(m.depth, m.quoted, true, false, false, annotation)
  }

  // ----- One line that stays inside -----

  lemma StaysOn(m: Mode, text: string, at: nat)
    requires at < |text| && Stays(m, text[at..])
    ensures (m.quoted || text[at] != ';') && Within(m) && Stays(Step(m, text[at]), text[at + 1..])
  {
    assert text[at..][1..] == text[at + 1..];
  }

  lemma LeavesOpen(text: string, at: nat, hi: nat, m: Mode, annotation: bool, word: Option<nat>)
    requires Within(m)
    ensures Leave(text, at, hi, Of(m, annotation), word) == Advance(false, at, Of(m, annotation))
  {
    hide ReadingKeyword;
  }

  /** One step of the walk is one step of what is open. */
  lemma StepsAlike(text: string, at: nat, hi: nat, m: Mode, annotation: bool)
    requires at < hi <= |text| && !m.escaped && Within(m) && (m.quoted || text[at] != ';') && Within(Step(m, text[at]))
    requires !(m.quoted && text[at] == '\\')
    ensures !Step(m, text[at]).escaped
    ensures Walk(text, at, hi, Of(m, annotation), None) == Walk(text, at + 1, hi, Of(Step(m, text[at]), annotation), None)
  {
    hide Leave, NextNonSpace, ReadingKeyword, IsIdentifierChar, IsIdentifierStart;
  }

  lemma EscapeWalks(text: string, at: nat, hi: nat, m: Mode, annotation: bool)
    requires at < hi <= |text| && m.quoted && text[at] == '\\'
    ensures Walk(text, at, hi, Of(m, annotation), None) == Walk(text, at + 2, hi, Of(m, annotation), None)
  {
    hide Leave;
  }

  /** How a line leaves a value it does not end: what is open at its end, after an escape the line's end cuts. */
  predicate LeftOpen(text: string, hi: nat, a: Advance, m: Mode, annotation: bool)
    requires hi <= |text|
  {
    && !a.finished && a.state == Of(m, annotation) && !m.escaped
    && ((a.end == hi && Stays(m, text[hi..])) || (a.end == hi + 1 && m.quoted && Stays(m.(escaped := true), text[hi..])))
  }

  lemma {:induction false} WalkStays(text: string, at: nat, hi: nat, m: Mode, annotation: bool) returns (last: Mode)
    requires at <= hi <= |text| && !m.escaped && Stays(m, text[at..])
    ensures LeftOpen(text, hi, Walk(text, at, hi, Of(m, annotation), None), last, annotation)
    ensures last == AtEnd(m, text[at..hi])
    decreases hi - at
  {
    hide Walk, Stays, Leave, Run;
    last := m;
    IsWithin(m, text[at..]);
    RunsOver(m, text, at, hi);
    if at == hi {
      LeavesOpen(text, at, hi, m, annotation, None);
      WalkEnds(text, at, hi, Of(m, annotation));
    } else {
      StaysOn(m, text, at);
      if m.quoted && text[at] == '\\' {
        EscapeWalks(text, at, hi, m, annotation);
        if at + 1 == hi {
          RunsOver(m.(escaped := true), text, hi, hi);
          LeavesOpen(text, at + 2, hi, m, annotation, None);
          WalkEnds(text, at + 2, hi, Of(m, annotation));
        } else {
          StaysOn(m.(escaped := true), text, at + 1);
          RunsOver(m.(escaped := true), text, at + 1, hi);
          last := WalkStays(text, at + 2, hi, m, annotation);
        }
      } else {
        IsWithin(Step(m, text[at]), text[at + 1..]);
        StepsAlike(text, at, hi, m, annotation);
        last := WalkStays(text, at + 1, hi, Step(m, text[at]), annotation);
      }
    }
  }

  /** What is open behind a text, whatever escape its end cuts. */
  function AtEnd(m: Mode, s: string): Mode {
    Run(m, s).(escaped := false)
  }

  lemma RunsOver(m: Mode, text: string, at: nat, hi: nat)
    requires at <= hi <= |text|
    ensures at == hi ==> Run(m, text[at..hi]) == m
    ensures at < hi ==> Run(m, text[at..hi]) == Run(Step(m, text[at]), text[at + 1..hi])
  {
    if at < hi { assert text[at..hi][1..] == text[at + 1..hi]; }
  }

  /** Over a line break to the end of the text. */
  lemma RunsOn(m: Mode, text: string, at: nat, hi: nat)
    requires at <= hi < |text| && text[hi] == NEWLINE && !m.escaped
    ensures AtEnd(m, text[at..]) == AtEnd(AtEnd(m, text[at..hi]), text[hi + 1..])
  {
    hide Run;
    assert text[at..] == text[at..hi] + ([text[hi]] + text[hi + 1..]);
    RunJoins(m, text[at..hi], [text[hi]] + text[hi + 1..]);
    RunJoins(Run(m, text[at..hi]), [text[hi]], text[hi + 1..]);
    EscapesInStrings(m, text[at..hi]);
    BreakRuns(Run(m, text[at..hi]));
  }

  lemma {:induction false} EscapesInStrings(m: Mode, s: string)
    requires m.escaped ==> m.quoted
    ensures Run(m, s).escaped ==> Run(m, s).quoted
    decreases |s|
  {
    if s != [] { EscapesInStrings(Step(m, s[0]), s[1..]); }
  }

  lemma BreakRuns(m: Mode)
    requires m.escaped ==> m.quoted
    ensures Run(m, [NEWLINE]) == m.(escaped := false)
  {
    assert [NEWLINE][1..] == [];
  }

  lemma IsWithin(m: Mode, s: string)
    requires Stays(m, s)
    ensures Within(m)
  {
  }

  lemma WalkEnds(text: string, at: nat, hi: nat, v: ValueState)
    requires hi <= at <= hi + 1 && hi <= |text| && (at == hi + 1 ==> v.inString)
    ensures Walk(text, at, hi, v, None) == Leave(text, at, hi, v, None)
  {
    hide Leave;
  }

  /** Over the line break. */
  lemma BreakStays(text: string, hi: nat, a: Advance, m: Mode, annotation: bool)
    requires hi < |text| && text[hi] == NEWLINE && LeftOpen(text, hi, a, m, annotation)
    ensures Stays(m, text[hi + 1..])
  {
    hide Stays;
    StaysOn(if a.end == hi then m else m.(escaped := true), text, hi);
  }

  // ----- The lines below -----

  /** Every entry is as it was, but for how much of its value the last one holds. */
  predicate GrownOnly(before: seq<Entry>, after: seq<Entry>) {
    && |after| == |before| > 0 && after[..|after| - 1] == before[..|before| - 1]
    && var a, b := before[|before| - 1], after[|after| - 1];
       b == a.(valueText := b.valueText, valueEndLine := b.valueEndLine)
  }

  /** The file ended inside the value, and nothing but that value was read. */
  predicate StillOpen(st: State, last: State) {
    && last.inValue && !last.value.awaitingCall && last.pending == st.pending && last.headers == st.headers
    && GrownOnly(st.entries, last.entries)
  }

  lemma GrowsOnly(st: State, piece: string, reached: bool, number: nat)
    requires st.entries != []
    ensures var grown := Grow(st, piece, reached, number);
      && GrownOnly(st.entries, grown.entries) && grown.pending == st.pending && grown.headers == st.headers
      && grown.inValue == st.inValue
  {
    hide AppendPiece;
  }

  lemma GrownTwice(a: seq<Entry>, b: seq<Entry>, c: seq<Entry>)
    requires GrownOnly(a, b) && GrownOnly(b, c)
    ensures GrownOnly(a, c)
  {
  }

  lemma SameIsGrown(a: seq<Entry>)
    requires a != []
    ensures GrownOnly(a, a)
  {
  }

  /** One line in the middle of a value that stays open. */
  lemma LineStays(text: string, lo: nat, hi: nat, number: nat, st: State, m: Mode, annotation: bool) returns (last: Mode)
    requires lo <= hi <= |text| && st.inValue && st.value == Of(m, annotation) && st.entries != []
    requires !m.escaped && Stays(m, text[lo..])
    ensures var next := Line(text, lo, hi, number, st);
      && StillOpen(st, next) && next.value == Of(last, annotation)
      && LeftOpen(text, hi, Advanced(text, lo, hi, st.value), last, annotation)
    ensures last == AtEnd(m, text[lo..hi])
  {
    hide Walk, Stays, AtEnd, Grow, Rest, GrownOnly;
    last := WalkStays(text, lo, hi, m, annotation);
    var a := Advanced(text, lo, hi, st.value);
    SameIsGrown(st.entries);
    GrowsOnly(st, text[lo..Min(a.end, hi)], true, number);
  }

  lemma {:induction false} ScanStays(text: string, cursor: nat, number: nat, st: State, m: Mode, annotation: bool)
    requires cursor <= |text| && st.inValue && st.value == Of(m, annotation) && st.entries != []
    requires !m.escaped && Stays(m, text[cursor..]) && '\r' !in text[cursor..]
    ensures StillOpen(st, ScanFrom(text, cursor, number, st))
    ensures ScanFrom(text, cursor, number, st).value == Of(AtEnd(m, text[cursor..]), annotation)
    decreases |text| - cursor
  {
    hide Line, Stays, LineEnd, Advanced, AtEnd;
    var end := LineEnd(text, cursor);
    NoReturn(text, cursor, end);
    var last := LineStays(text, cursor, end, number, st, m, annotation);
    var next := Line(text, cursor, end, number, st);
    if end == |text| {
      assert text[cursor..end] == text[cursor..];
    } else {
      RunsOn(m, text, cursor, end);
      BreakStays(text, end, Advanced(text, cursor, end, st.value), last, annotation);
      LaterText(text, cursor, end + 1);
      ScanStays(text, end + 1, number + 1, next, last, annotation);
      StaysTwice(st, next, ScanFrom(text, end + 1, number + 1, next));
    }
  }

  lemma NoReturn(text: string, lo: nat, end: nat)
    requires lo <= end <= |text| && '\r' !in text[lo..]
    ensures RawEnd(text, lo, end) == end
  {
    if end > lo { assert text[lo..][end - 1 - lo] == text[end - 1]; }
  }

  lemma LaterText(text: string, lo: nat, later: nat)
    requires lo <= later <= |text| && '\r' !in text[lo..]
    ensures '\r' !in text[later..]
  {
    assert text[later..] == text[lo..][later - lo..];
  }

  lemma StaysTwice(a: State, b: State, c: State)
    requires StillOpen(a, b) && StillOpen(b, c)
    ensures StillOpen(a, c)
  {
    GrownTwice(a.entries, b.entries, c.entries);
  }

  /** From the middle of a line on. */
  lemma ResumeStays(text: string, c: Cursor, at: nat, m: Mode, annotation: bool)
    requires c.lo <= |text| && c.lo <= at <= LineStop(text, c.lo) && c.st.entries != []
    requires !m.escaped && Stays(m, text[at..]) && '\r' !in text[c.lo..]
    ensures StillOpen(c.st, Resume(text, c, at, Of(m, annotation), None))
    ensures Resume(text, c, at, Of(m, annotation), None).value == Of(AtEnd(m, text[at..]), annotation)
  {
    hide Walk, Stays, AtEnd, LineEnd, Grow, Rest, ScanFrom;
    var end := LineEnd(text, c.lo);
    NoReturn(text, c.lo, end);
    var last := WalkStays(text, at, end, m, annotation);
    var a := Walk(text, at, end, Of(m, annotation), None);
    GrowsOnly(c.st, text[c.lo..Min(a.end, end)], a.end > c.lo, c.number);
    var next := Grow(c.st, text[c.lo..Min(a.end, end)], a.end > c.lo, c.number).(value := a.state, inValue := true);
    if end == |text| {
      assert text[at..end] == text[at..];
    } else {
      RunsOn(m, text, at, end);
      BreakStays(text, end, a, last, annotation);
      LaterText(text, c.lo, end + 1);
      ScanStays(text, end + 1, c.number + 1, next, last, annotation);
      StaysTwice(c.st.(inValue := true), next.(value := FRESH), ScanFrom(text, end + 1, c.number + 1, next));
    }
  }

  // ----- The line that opens the value -----

  lemma {:induction false} CarryGrows(text: string, c: Cursor, at: nat, goal: nat)
    requires c.lo <= at <= goal <= |text| && c.st.entries != []
    ensures var moved := Carry(text, c, at, goal).st;
      && GrownOnly(c.st.entries, moved.entries) && moved.pending == c.st.pending && moved.headers == c.st.headers
    decreases goal - at
  {
    hide Grow, GrownOnly;
    SameIsGrown(c.st.entries);
    if at < goal {
      if text[at] == NEWLINE {
        GrowsOnly(c.st, text[c.lo..at], at > c.lo, c.number);
        GrownIsSome(c.st.entries, Grow(c.st, text[c.lo..at], at > c.lo, c.number).entries);
        var below := Cursor(at + 1, c.number + 1, Grow(c.st, text[c.lo..at], at > c.lo, c.number));
        CarryGrows(text, below, at + 1, goal);
        GrownTwice(c.st.entries, below.st.entries, Carry(text, below, at + 1, goal).st.entries);
      } else {
        CarryGrows(text, c, at + 1, goal);
      }
    }
  }

  lemma GrownIsSome(a: seq<Entry>, b: seq<Entry>)
    requires GrownOnly(a, b)
    ensures b != []
  {
  }

  /** Where the parts of a last line `key=` and a beginning of a value stand. */
  lemma CutStands(key: string, p: string, text: string, at: nat)
    requires PlainKey(key) && p != [] && !IsSpace(p[0]) && '\r' !in p
    requires Has(text, at, key + (['='] + (p + [NEWLINE]))) && at + |key| + |p| + 2 == |text|
    ensures var begin := at + |key| + 1;
      var e := begin + |p|;
      && begin < e == |text| - 1 && text[e] == NEWLINE && Has(text, at, key) && Has(text, begin, p) && text[begin - 1] == '='
      && !IsSpace(text[at]) && text[at] != '[' && text[at] != ';' && !IsSpace(text[begin])
      && (forall i :: at <= i < begin ==> text[i] != NEWLINE) && (forall i :: begin <= i < e ==> text[i] != '\r')
  {
    hide Has;
    var begin := at + |key| + 1;
    HasSplit(text, at, key, ['='] + (p + [NEWLINE]));
    HasSplit(text, at + |key|, ['='], p + [NEWLINE]);
    HasSplit(text, begin, p, [NEWLINE]);
    HasChar(text, at, key, 0);
    HasChar(text, at + |key|, ['='], 0);
    HasChar(text, begin, p, 0);
    HasChar(text, begin + |p|, [NEWLINE], 0);
    forall i | at <= i < begin ensures text[i] != NEWLINE {
      if i < at + |key| { HasChar(text, at, key, i - at); }
    }
    forall i | begin <= i < begin + |p| ensures text[i] != '\r' {
      HasChar(text, begin, p, i - begin);
    }
  }

  lemma OpensCut(key: string, p: string, text: string, at: nat, number: nat, st: State)
    requires PlainKey(key) && Clean(st) && p != [] && !IsSpace(p[0]) && '\r' !in p
    requires Has(text, at, key + (['='] + (p + [NEWLINE]))) && at + |key| + |p| + 2 == |text|
    ensures var c := AtValue(key, at, number, st);
      var e := c.lo + |p|;
      && OnLine(text, c, c.lo, e) && e + 1 == |text| && Has(text, c.lo, p)
      && ScanFrom(text, at, number, st) == Resume(text, c, c.lo, FRESH, None)
  {
    hide Has, KeyTokens, Resume, ScanFrom, PlainKey;
    CutStands(key, p, text, at);
    var c := AtValue(key, at, number, st);
    var e := c.lo + |p|;
    SpaceAtBreak(text, c.lo);
    OnLineEnds(text, c, c.lo, e);
    LineEndAgrees(text, at, c.lo);
    KeyOfLine(key, text, at, LineStop(text, c.lo));
    OpensRest(key, text, at, LineStop(text, c.lo), number, st);
  }

  lemma SpaceAtBreak(text: string, at: nat)
    requires at < |text| && !IsSpace(text[at])
    ensures text[at] != NEWLINE
  {
  }

  // ----- Into the bracket or the string -----

  function OpenMode(v: Value): Mode {
    if v.Quoted? then IN_STRING else IN_BRACKET
  }

  /** The walk has come behind what opens the inside the text stops in. */
  predicate Comes(text: string, c: Cursor, k: nat, v: ValueState)
    requires c.lo + k <= |text|
  {
    Resume(text, c, c.lo, FRESH, None) == Resume(text, Carry(text, c, c.lo, c.lo + k), c.lo + k, v, None)
  }

  lemma ComesIntoString(v: Value, n: nat, text: string, c: Cursor, e: nat)
    requires v.Quoted? && Valid(v) && StopsInside(v, n) && Has(text, c.lo, Before(v, n))
    requires OnLine(text, c, c.lo, e) && c.lo + |Before(v, n)| <= e
    ensures Comes(text, c, |Before(v, n)|, Of(IN_STRING, false))
  {
    hide Has, Resume, Carry, StringBody;
    HasSplit(text, c.lo, v.mark, ['"']);
    HasChar(text, c.lo + |v.mark|, ['"'], 0);
    if v.mark != [] { HasChar(text, c.lo, v.mark, 0); }
    var k := |v.mark| + 1;
    ReachesOnLine(text, c, c.lo, c.lo + k, e);
    WalksIntoString(text, c.lo, c.lo + |v.mark|, LineStop(text, c.lo));
    ResumesAlike(text, c, c.lo, FRESH, None, c.lo + k, Of(IN_STRING, false), None);
  }

  lemma WalksIntoString(text: string, at: nat, quote: nat, hi: nat)
    requires at <= quote < hi <= |text| && quote <= at + 1 && text[quote] == '"'
    requires quote == at + 1 ==> text[at] == '&' || text[at] == '@'
    ensures Walk(text, at, hi, FRESH, None) == Walk(text, quote + 1, hi, Of(IN_STRING, false), None)
  {
    hide Leave;
  }

  lemma ComesIntoContainer(v: Value, n: nat, text: string, c: Cursor, e: nat)
    requires (v.Array? || v.Dictionary?) && StopsInside(v, n) && Has(text, c.lo, Before(v, n))
    requires OnLine(text, c, c.lo, e) && c.lo + |Before(v, n)| <= e
    ensures Comes(text, c, |Before(v, n)|, Of(IN_BRACKET, false))
  {
    hide Has, Resume, Carry;
    HasChar(text, c.lo, Before(v, n), 0);
    ReachesOnLine(text, c, c.lo, c.lo + 1, e);
    WalksIntoContainer(text, c.lo, LineStop(text, c.lo));
    ResumesAlike(text, c, c.lo, FRESH, None, c.lo + 1, Of(IN_BRACKET, false), None);
  }

  lemma WalksIntoContainer(text: string, at: nat, hi: nat)
    requires at < hi <= |text| && (text[at] == '[' || text[at] == '{')
    ensures Walk(text, at, hi, FRESH, None) == Walk(text, at + 1, hi, Of(IN_BRACKET, false), None)
  {
    hide Leave;
  }

  /** Over a name and its gap into the bracket behind. */
  lemma ComesIntoCall(name: string, gap: string, open: char, text: string, c: Cursor, e: nat)
    requires Identifier(name) && !IsValueKeyword(name) && AllSpace(gap) && (open == '(' || open == '[')
    requires Has(text, c.lo, name + (gap + [open])) && OnLine(text, c, c.lo, e) && c.lo + |name| + |gap| + 1 <= e
    ensures Comes(text, c, |name| + |gap| + 1, Inside(1, open == '[' && NoNewline(gap)))
  {
    hide *;
    var b := c.lo + |name| + |gap|;
    OnLineIsInside(text, c, c.lo, e);
    HasSplit(text, c.lo, name, gap + [open]);
    HasSplit(text, c.lo + |name|, gap, [open]);
    HasChar(text, b, [open], 0);
    OpensThere(text, b);
    ReadsName(name, gap, text, c, e);
    CarriesOver(text, c, b, e);
    IsComing(text, c, |name| + |gap| + 1, Inside(1, open == '[' && NoNewline(gap)));
  }

  lemma IsComing(text: string, c: Cursor, k: nat, v: ValueState)
    requires c.lo + k <= |text|
    requires Resume(text, c, c.lo, FRESH, None) == Resume(text, Carry(text, c, c.lo, c.lo + k), c.lo + k, v, None)
    ensures Comes(text, c, k, v)
  {
    hide Resume, Carry;
  }

  lemma OpensThere(text: string, b: nat)
    requires b < |text| && (text[b] == '(' || text[b] == '[')
    ensures OpensCall(text, b) && text[b] != NEWLINE
  {
  }

  /** An opening bracket leaves the cursor on its line. */
  lemma CarriesOver(text: string, c: Cursor, b: nat, e: nat)
    requires OnLine(text, c, c.lo, e) && c.lo <= b < e && text[b] != NEWLINE
    ensures e < |text| && Carry(text, c, c.lo, b + 1) == Carry(text, c, c.lo, b)
  {
    hide Carry;
    CarryStaysOnLine(text, c, c.lo, b, e);
    ReachesOnLine(text, Carry(text, c, c.lo, b), b, b + 1, e);
    CarryJoins(text, c, c.lo, b, b + 1);
  }

  /** Over a container's name and its whole type into the bracket of its call. */
  lemma ComesIntoArguments(v: Value, n: nat, text: string, c: Cursor, e: nat)
    requires v.Typed? && Valid(v) && StopsInside(v, n) && !InTypes(v, n) && Has(text, c.lo, Before(v, n))
    requires OnLine(text, c, c.lo, e) && c.lo + |Before(v, n)| <= e
    ensures Comes(text, c, |Before(v, n)|, Inside(1, false))
  {
    hide *;
    var b := c.lo + |v.name| + |v.gap|;
    var close := b + 1 + |PrintPieces(v.types)|;
    var b2 := close + 1 + |v.gap2|;
    OnLineIsInside(text, c, c.lo, e);
    ArgumentsStand(v, n, text, c.lo);
    ComesIntoCall(v.name, v.gap, '[', text, c, e);
    ComesBy(text, c, b + 1 - c.lo, Inside(1, true));
    var c1 := Carry(text, c, c.lo, b + 1);
    CarryStaysOnLine(text, c, c.lo, b + 1, e);
    PassesPieces(v.types, text, b + 1, e);
    PassesAt(text, Spot(c1, 1, true), b + 1, close, e);
    PassesBetween(text, Spot(c1, 1, true), b + 1, close, e);
    CarryJoins(text, c, c.lo, b + 1, close);
    var c2 := Carry(text, c, c.lo, close);
    CarryStaysOnLine(text, c1, b + 1, close, e);
    TypeCloses(text, c2, close, e);
    OpensThere(text, b2);
    BracketIsNoBreak(text[close]);
    ReachesOnLine(text, c2, close, close + 1, e);
    GapStands(v.gap2, text, close + 1);
    ReadsGap(text, c2, close + 1, b2, e, AWAITING, None);
    CarryJoins(text, c, c.lo, close, close + 1);
    CarryJoins(text, c, c.lo, close + 1, b2);
    CarriesOver(text, c, b2, e);
    IsComing(text, c, b2 + 1 - c.lo, Inside(1, false));
  }

  lemma ComesBy(text: string, c: Cursor, k: nat, v: ValueState)
    requires c.lo + k <= |text| && Comes(text, c, k, v)
    ensures Resume(text, c, c.lo, FRESH, None) == Resume(text, Carry(text, c, c.lo, c.lo + k), c.lo + k, v, None)
  {
    hide Resume, Carry;
  }

  lemma ArgumentsStand(v: Value, n: nat, text: string, at: nat)
    requires v.Typed? && Valid(v) && StopsInside(v, n) && !InTypes(v, n) && Has(text, at, Before(v, n))
    ensures var b := at + |v.name| + |v.gap|;
      var close := b + 1 + |PrintPieces(v.types)|;
      var b2 := close + 1 + |v.gap2|;
      && b2 + 1 == at + |Before(v, n)| <= |text| && text[close] == ']' && text[b2] == '('
      && Has(text, at, v.name + (v.gap + ['['])) && Has(text, b + 1, PrintPieces(v.types)) && Has(text, close + 1, v.gap2)
    ensures Identifier(v.name) && !IsValueKeyword(v.name) && AllSpace(v.gap) && AllSpace(v.gap2) && ValidPieces(v.types)
    ensures NoNewline(v.gap)
  {
    hide *;
    ArgumentsAre(v, n);
    var types := PrintPieces(v.types);
    var b := at + |v.name| + |v.gap|;
    var close := b + 1 + |types|;
    var last := [']'] + (v.gap2 + ['(']);
    HasSplit(text, at, v.name, v.gap + (['['] + (types + last)));
    HasSplit(text, at + |v.name|, v.gap, ['['] + (types + last));
    HasSplit(text, b, ['['], types + last);
    HasSplit(text, b + 1, types, last);
    HasSplit(text, close, [']'], v.gap2 + ['(']);
    HasChar(text, close, [']'], 0);
    HasSplit(text, close + 1, v.gap2, ['(']);
    HasChar(text, close + 1 + |v.gap2|, ['('], 0);
    HasSplit(text, at + |v.name|, v.gap, ['[']);
    HasSplit(text, at, v.name, v.gap + ['[']);
  }

  lemma ArgumentsAre(v: Value, n: nat)
    requires v.Typed? && Valid(v) && StopsInside(v, n) && !InTypes(v, n)
    ensures Before(v, n) == v.name + (v.gap + (['['] + (PrintPieces(v.types) + ([']'] + (v.gap2 + ['('])))))
    ensures |Before(v, n)| == |v.name| + |v.gap| + |PrintPieces(v.types)| + |v.gap2| + 3
    ensures Identifier(v.name) && !IsValueKeyword(v.name) && AllSpace(v.gap) && AllSpace(v.gap2) && ValidPieces(v.types)
    ensures NoNewline(v.gap)
  {
    hide PrintPieces, Identifier, ValidPieces, IsValueKeyword, AllSpace;
    Regrouped(['['], PrintPieces(v.types) + [']'], v.gap2 + ['(']);
    Regrouped(PrintPieces(v.types), [']'], v.gap2 + ['(']);
  }

  lemma ComesInside(v: Value, n: nat, text: string, c: Cursor, e: nat) returns (annotation: bool)
    requires Valid(v) && StopsInside(v, n) && Has(text, c.lo, Before(v, n))
    requires OnLine(text, c, c.lo, e) && c.lo + |Before(v, n)| <= e
    ensures Comes(text, c, |Before(v, n)|, Of(OpenMode(v), annotation))
  {
    hide Has, Resume, Carry, Comes, StringBody, ValidPieces, PrintPieces, PrintGroup, Identifier, OnLine;
    annotation := false;
    match v {
      case Quoted(_, _) => ComesIntoString(v, n, text, c, e);
      case Call(name, gap, _) => ComesIntoCall(name, gap, '(', text, c, e);
      case Typed(name, gap, _, _, _) =>
        if InTypes(v, n) {
          ComesIntoCall(name, gap, '[', text, c, e);
          annotation := NoNewline(gap);
        } else {
          ComesIntoArguments(v, n, text, c, e);
        }
      case Array(_) => ComesIntoContainer(v, n, text, c, e);
      case Dictionary(_) => ComesIntoContainer(v, n, text, c, e);
    }
  }

  // ----- The file that ends inside a value -----

  /** A last line `key=` with a beginning of a value that stops inside it leaves the value open. */
  lemma LastLineStaysOpen(key: string, v: Value, n: nat, text: string, at: nat, number: nat, st: State)
    returns (annotation: bool)
    requires ValidItem(Setting(key, v)) && StopsInside(v, n) && n <= |Print(v)| && Clean(st)
    requires Has(text, at, key + (['='] + (Print(v)[..n] + [NEWLINE]))) && at + |key| + n + 2 == |text|
    ensures StillOpen(AtValue(key, at, number, st).st, ScanFrom(text, at, number, st))
    ensures ScanFrom(text, at, number, st).value == Of(ModeAtCut(v, n), annotation)
  {
    hide *;
    var p := Print(v)[..n];
    CutIs(v, n);
    CutBegins(key, v, n);
    OpensCut(key, p, text, at, number, st);
    var c := AtValue(key, at, number, st);
    var e := c.lo + |p|;
    var k := |Before(v, n)|;
    HasSplit(text, c.lo, Before(v, n), InsideOf(v, n)[..n - k]);
    annotation := ComesInside(v, n, text, c, e);
    LineHolds(text, c, c.lo, e);
    ComesBy(text, c, k, Of(OpenMode(v), annotation));
    InsideToTheEnd(v, n, text, c.lo);
    CarryStaysOnLine(text, c, c.lo, c.lo + k, e);
    var c' := Carry(text, c, c.lo, c.lo + k);
    LineStopsBehind(text, c', c.lo + k, e);
    ResumeStays(text, c', c.lo + k, OpenMode(v), annotation);
    CarryGrows(text, c, c.lo, c.lo + k);
    CarriedStaysOpen(c.st, c'.st, Resume(text, c', c.lo + k, Of(OpenMode(v), annotation), None));
  }

  lemma LineHolds(text: string, c: Cursor, at: nat, e: nat)
    requires OnLine(text, c, at, e)
    ensures c.st.entries != [] && c.lo <= e < |text| && text[e] == NEWLINE
  {
  }

  lemma CutBegins(key: string, v: Value, n: nat)
    requires ValidItem(Setting(key, v)) && StopsInside(v, n) && n <= |Print(v)|
    ensures PlainKey(key) && Valid(v) && Print(v)[..n] != [] && !IsSpace(Print(v)[..n][0]) && '\r' !in Print(v)[..n]
  {
    Ends(v);
    assert n > 0;
    assert Print(v)[..n] <= Print(v);
  }

  lemma CarriedStaysOpen(a: State, b: State, c: State)
    requires GrownOnly(a.entries, b.entries) && b.pending == a.pending && b.headers == a.headers && StillOpen(b, c)
    ensures StillOpen(a, c)
  {
    GrownTwice(a.entries, b.entries, c.entries);
  }

  lemma LineStopsBehind(text: string, c: Cursor, at: nat, e: nat)
    requires OnLine(text, c, at, e) && e + 1 == |text|
    ensures c.lo <= at <= LineStop(text, c.lo) && c.st.entries != [] && '\r' !in text[c.lo..]
  {
    OnLineEnds(text, c, at, e);
    forall i | 0 <= i < |text[c.lo..]| ensures text[c.lo..][i] != '\r' {
      assert text[c.lo..][i] == text[c.lo + i];
    }
  }

  /** The whole rest of the text, its last newline included, stays inside. */
  lemma InsideToTheEnd(v: Value, n: nat, text: string, at: nat)
    requires Valid(v) && StopsInside(v, n) && n <= |Print(v)|
    requires Has(text, at, Print(v)[..n]) && at + n + 1 == |text| && text[at + n] == NEWLINE
    ensures at + |Before(v, n)| <= |text|
    ensures !OpenMode(v).escaped && Stays(OpenMode(v), text[at + |Before(v, n)|..])
    ensures AtEnd(OpenMode(v), text[at + |Before(v, n)|..]) == ModeAtCut(v, n)
  {
    hide *;
    CutIs(v, n);
    CutStaysInside(v, n);
    ModeOf(v);
    var s := InsideOf(v, n)[..n - |Before(v, n)|];
    HasSplit(text, at, Before(v, n), s);
    StaysToTheEnd(OpenMode(v), s, text, at + |Before(v, n)|);
    CutModeIs(v, n);
  }

  /** What is open where the value is cut. */
  function ModeAtCut(v: Value, n: nat): Mode
    requires StopsInside(v, n)
  {
    CutIs(v, n);
    AtEnd(OpenMode(v), InsideOf(v, n)[..n - |Before(v, n)|])
  }

  lemma CutModeIs(v: Value, n: nat)
    requires StopsInside(v, n) && |Before(v, n)| <= n <= |Before(v, n)| + |InsideOf(v, n)|
    ensures ModeAtCut(v, n) == AtEnd(OpenMode(v), InsideOf(v, n)[..n - |Before(v, n)|])
  {
    hide AtEnd, OpenMode, InsideOf, Before, StopsInside;
  }

  lemma ModeOf(v: Value)
    ensures OpenMode(v) == (if v.Quoted? then IN_STRING else IN_BRACKET) && !OpenMode(v).escaped
  {
  }

  lemma StaysToTheEnd(m: Mode, s: string, text: string, at: nat)
    requires Stays(m, s) && !m.escaped && Has(text, at, s) && at + |s| + 1 == |text| && text[at + |s|] == NEWLINE
    ensures Stays(m, text[at..]) && AtEnd(m, text[at..]) == AtEnd(m, s)
  {
    hide Stays, Run;
    assert text[at..] == s + [NEWLINE];
    RunJoins(m, s, [NEWLINE]);
    NewlineStays(m, s);
    EscapesInStrings(m, s);
    BreakRuns(Run(m, s));
  }

  lemma {:induction false} NewlineStays(m: Mode, s: string)
    requires Stays(m, s)
    ensures Stays(Run(m, s), [NEWLINE])
    decreases |s|
  {
    if s == [] {
      assert [NEWLINE][1..] == [];
    } else {
      NewlineStays(Step(m, s[0]), s[1..]);
    }
  }

  /** What is read of a file that ends inside a value. */
  predicate ReadsCut(s: Scan, items: seq<Item>, key: string) {
    var before := Registered(items, [], 1);
    && !s.complete && !s.trailingKey && s.headers == HeadersOf(items, 1)
    && |s.entries| == |before| + 1 && s.entries[..|before|] == before
    && var last := s.entries[|before|];
       && last.section == SectionAfter(items, []) && last.key == key && last.keyOnLine == key && !last.joined
       && last.keyLine == LineAfter(items, 1) == last.line
  }

  function FileCut(items: seq<Item>, key: string, v: Value, n: nat): string
    requires StopsInside(v, n)
  {
    CutIs(v, n);
    PrintFile(items) + (key + (['='] + Print(v)[..n]))
  }

  lemma FileCutIs(items: seq<Item>, key: string, v: Value, n: nat)
    requires StopsInside(v, n)
    ensures n <= |Print(v)| && FileCut(items, key, v, n) == PrintFile(items) + (key + (['='] + Print(v)[..n]))
  {
    hide PrintFile, Print, StopsInside;
    CutIs(v, n);
  }

  /** Where the scan stands at the end of such a file. */
  lemma CutLeaves(items: seq<Item>, key: string, v: Value, n: nat) returns (next: State, annotation: bool)
    requires ValidItems(items) && AllReadWhole(items) && ValidItem(Setting(key, v)) && StopsInside(v, n)
    ensures var last := ScanFrom(FileCut(items, key, v, n), 0, 1, START);
      && UpTo(START, next, items, 1)
      && StillOpen(AtValue(key, |PrintFile(items)|, LineAfter(items, 1), next).st, last)
      && last.value == Of(ModeAtCut(v, n), annotation)
  {
    hide *;
    FileCutIs(items, key, v, n);
    var p := Print(v)[..n];
    var before, tail := PrintFile(items), key + (['='] + (p + [NEWLINE]));
    var text := before + (key + (['='] + p));
    var whole := before + tail;
    EndsTheLine(before, key, p);
    StartIsSettled();
    ScansTheSame(text, 0, 1, START);
    HasWhole(before, tail);
    StartIsClean();
    next := ScansUpTo(items, whole, 0, 1, START);
    NextIsClean(START, next, items, 1);
    annotation := LastLineStaysOpen(key, v, n, whole, |before|, LineAfter(items, 1), next);
  }

  lemma StartIsSettled()
    ensures Settled(START)
  {
  }

  /** A file that ends inside a string or an open bracket of its last value is not complete, with and without a
      newline at its end: everything before it is registered as written, the last entry is the value's, and the
      file does not load because that key is not terminated. */
  lemma CutValueIsIncomplete(items: seq<Item>, key: string, v: Value, n: nat)
    requires ValidItems(items) && AllReadWhole(items) && ValidItem(Setting(key, v)) && StopsInside(v, n)
    ensures n <= |Print(v)|
    ensures var text := PrintFile(items) + (key + (['='] + Print(v)[..n]));
      && ScanText(text + [NEWLINE]) == ScanText(text) && ReadsCut(ScanText(text), items, key)
      && FailureOf(ScanText(text)) == Some(Failure(SectionAfter(items, []), key, LineAfter(items, 1), true, None))
  {
    hide *;
    FileCutIs(items, key, v, n);
    var text := FileCut(items, key, v, n);
    FinalNewlineIsIdle(text);
    var next, annotation := CutLeaves(items, key, v, n);
    ScanIs(text);
    AnswersOpen(items, key, |PrintFile(items)|, next, ScanFrom(text, 0, 1, START));
    FailsOpen(ScanText(text), items, key);
  }

  lemma AnswersOpen(items: seq<Item>, key: string, at: nat, next: State, last: State)
    requires UpTo(START, next, items, 1) && StillOpen(AtValue(key, at, LineAfter(items, 1), next).st, last)
    ensures ReadsCut(Answer(last), items, key)
  {
    hide LineAfter, Registered, HeadersOf, SectionAfter;
    assert [] + Registered(items, [], 1) == Registered(items, [], 1);
    assert [] + HeadersOf(items, 1) == HeadersOf(items, 1);
  }

  lemma FailsOpen(s: Scan, items: seq<Item>, key: string)
    requires ReadsCut(s, items, key)
    ensures FailureOf(s) == Some(Failure(SectionAfter(items, []), key, LineAfter(items, 1), true, None))
  {
    hide LineAfter, Registered, HeadersOf, SectionAfter, FirstProblem;
  }

  // ----- The file that ends inside a key -----

  /** A last line that never comes to its `=`. */
  predicate KeyText(s: string) {
    && s != [] && !IsSpace(s[0]) && s[0] != '[' && s[0] != ';'
    && forall i :: 0 <= i < |s| ==> s[i] != '=' && s[i] != '"' && s[i] != NEWLINE
  }

  lemma {:induction false} KeyGoesOn(text: string, at: nat, hi: nat, pending: string)
    requires at <= hi <= |text| && forall i :: at <= i < hi ==> text[i] != '=' && text[i] != '"'
    ensures var key := KeyTokens(text, at, hi, pending);
      key.equals.None? && |key.pending| >= |pending| && (at < hi && !IsSpace(text[at]) ==> key.pending != [])
    decreases hi - at
  {
    if at < hi { KeyGoesOn(text, at + 1, hi, if IsSpace(text[at]) then pending else pending + [text[at]]); }
  }

  lemma LastLineIsKey(s: string, text: string, at: nat, number: nat, st: State)
    requires KeyText(s) && Clean(st) && Has(text, at, s) && at + |s| == |text|
    ensures var last := ScanFrom(text, at, number, st);
      && last.entries == st.entries && last.headers == st.headers && !last.inValue && last.pending != []
  {
    hide Has, KeyTokens, Rest, Trimmed;
    forall i | at <= i < |text| ensures text[i] == s[i - at] { HasChar(text, at, s, i - at); }
    assert LineEnd(text, at) == |text|;
    var hi := RawEnd(text, at, |text|);
    RestIs(text, at, hi, number, st);
    FirstStaysPut(text, at, hi);
    var last := TrimEnd(text, at, hi);
    KeyGoesOn(text, at, last, []);
  }

  lemma FirstStaysPut(text: string, at: nat, hi: nat)
    requires at <= hi <= |text| && at < |text| && !IsSpace(text[at]) && hi == RawEnd(text, at, |text|)
    ensures at < hi && NextNonSpace(text, at, hi) == at && at < TrimEnd(text, at, hi)
  {
    assert IsSpace('\r');
    NextNonSpaceIs(text, at, hi, at);
  }

  /** A file whose last line is key text without an `=` is read up to that line, and the key is left over. */
  lemma EndsInKey(items: seq<Item>, s: string)
    requires ValidItems(items) && AllReadWhole(items) && KeyText(s)
    ensures var text := PrintFile(items) + s;
      && ScanText(text + [NEWLINE]) == ScanText(text)
      && ScanText(text) == Scan(Registered(items, [], 1), HeadersOf(items, 1), true, true)
  {
    hide *;
    var before := PrintFile(items);
    var text := before + s;
    FinalNewlineIsIdle(text);
    HasWhole(before, s);
    StartIsClean();
    var next := ScansUpTo(items, text, 0, 1, START);
    NextIsClean(START, next, items, 1);
    LastLineIsKey(s, text, |before|, LineAfter(items, 1), next);
    ScanIs(text);
    AnswersKey(items, next, ScanFrom(text, 0, 1, START));
  }

  lemma AnswersKey(items: seq<Item>, next: State, last: State)
    requires UpTo(START, next, items, 1) && !last.inValue && last.pending != []
    requires last.entries == next.entries && last.headers == next.headers
    ensures Answer(last) == Scan(Registered(items, [], 1), HeadersOf(items, 1), true, true)
  {
    hide Registered, HeadersOf;
    assert [] + Registered(items, [], 1) == Registered(items, [], 1);
    assert [] + HeadersOf(items, 1) == HeadersOf(items, 1);
  }
}
