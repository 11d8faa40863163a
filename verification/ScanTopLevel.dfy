/** How the scan reads one whole written value, from just past its `=` to the end of its last line. Inside
    brackets every value is passed over alike; outside them a word may wait for a call, a number runs on to a
    space, and a typed container has two brackets to close. One with a line break before its type ends too
    early. */
module ScanTopLevel {
  import opened Text
  import opened ConfigString
  import opened ConfigGrammar
  import opened ConfigScan
  import opened ScanValues

  /** At depth 0 with something read; an identifier or not. */
  function Word(identifier: bool): ValueState {
    ValueState(0, false, true, identifier, false, false)
  }

  const AWAITING: ValueState := ValueState(0, false, true, false, true, false)

  /** The scan's state once the value whose last line starts at `c.lo` has ended at `e`. */
  function Ended(text: string, c: Cursor, e: nat, value: ValueState): State
    requires c.lo <= e <= |text|
  {
    Grow(c.st, text[c.lo..e], e > c.lo, c.number).(value := value, inValue := false)
  }

  /** The value ends at `e`, the end of its last line, and the scan goes on below it. */
  predicate EndsAt(text: string, c: Cursor, e: nat, value: ValueState, last: State)
    requires c.lo <= e < |text|
  {
    last == ScanFrom(text, e + 1, c.number + 1, Ended(text, c, e, value))
  }

  lemma SettlesAtEnd(text: string, c: Cursor, e: nat, value: ValueState)
    requires OnLine(text, c, e, e)
    ensures EndsAt(text, c, e, value, Settle(text, c, Advance(true, e, value)))
  {
    hide AppendPiece, Grow;
    OnLineEnds(text, c, e, e);
  }

  // ----- One line -----

  lemma {:induction false} WalksWord(text: string, at: nat, goal: nat, hi: nat, identifier: bool, word: Option<nat>)
    requires at <= goal <= hi <= |text|
    requires forall i :: at <= i < goal ==> BareChar(text[i]) && (identifier ==> IsIdentifierChar(text[i]))
    ensures Walk(text, at, hi, Word(identifier), word) == Walk(text, goal, hi, Word(identifier), word)
    decreases goal - at
  {
    if at < goal {
      assert BareChar(text[at]);
      assert TakeCharacter(Word(identifier), text[at]) == Word(identifier);
      WalksWord(text, at + 1, goal, hi, identifier, word);
    }
  }

  /** The first characters of a value that begins with no bracket and no quote. */
  lemma WalksFirstWord(s: string, text: string, at: nat, hi: nat)
    requires s != [] && Has(text, at, s) && at + |s| <= hi <= |text|
    requires forall i :: 0 <= i < |s| ==> BareChar(s[i])
    requires IsIdentifierStart(s[0]) ==> forall i :: 0 <= i < |s| ==> IsIdentifierChar(s[i])
    ensures var identifier := IsIdentifierStart(s[0]);
      Walk(text, at, hi, FRESH, None)
      == Walk(text, at + |s|, hi, Word(identifier), if identifier then Some(at) else None)
  {
    hide Has, Leave;
    forall i | at <= i < at + |s| ensures text[i] == s[i - at] { HasChar(text, at, s, i - at); }
    assert BareChar(text[at]);
    var identifier := IsIdentifierStart(s[0]);
    assert TakeCharacter(FRESH, text[at]) == Word(identifier);
    WalksWord(text, at + 1, at + |s|, hi, identifier, if identifier then Some(at) else None);
  }

  lemma IdentifierIsBare(name: string)
    requires Identifier(name)
    ensures forall i :: 0 <= i < |name| ==> BareChar(name[i]) && name[i] != NEWLINE
  {
    forall i | 0 <= i < |name| ensures BareChar(name[i]) && name[i] != NEWLINE { assert IsIdentifierChar(name[i]); }
  }

  lemma BareHasNoBreak(s: string)
    requires forall i :: 0 <= i < |s| ==> BareChar(s[i])
    ensures NoNewline(s)
  {
    assert forall i :: 0 <= i < |s| && BareChar(s[i]) ==> s[i] != NEWLINE;
  }

  /** A value that is one word ends at the end of its line. */
  lemma ReadsWord(v: Value, text: string, c: Cursor, e: nat) returns (value: ValueState)
    requires (v.Keyword? || v.Bare?) && Valid(v) && Has(text, c.lo, Print(v)) && c.lo + |Print(v)| == e
    requires OnLine(text, c, c.lo, e)
    ensures EndsAt(text, c, e, value, Resume(text, c, c.lo, FRESH, None)) && Carry(text, c, c.lo, e) == c
  {
    hide *;
    WordEndsAt(v, text, c.lo, e);
    ReachesOnLine(text, c, c.lo, e, e);
    LineStopsAt(text, c, e);
    value := Word(v.Keyword?);
    SettlesAtEnd(text, c, e, value);
    ResumesBy(text, c, c.lo, FRESH, None, Advance(true, e, value));
  }

  /** The walk of a word to the end of its line. */
  lemma WordEndsAt(v: Value, text: string, at: nat, e: nat)
    requires (v.Keyword? || v.Bare?) && Valid(v) && Has(text, at, Print(v)) && at + |Print(v)| == e
    ensures e <= |text| && (forall i :: at <= i < e ==> text[i] != NEWLINE)
    ensures Walk(text, at, e, FRESH, None) == Advance(true, e, Word(v.Keyword?))
  {
    hide Has;
    var s := Print(v);
    if v.Keyword? { KeywordIsWord(s); IdentifierIsBare(s); }
    BareHasNoBreak(s);
    HasNoBreak(text, at, s);
    HasIs(text, at, s);
    WalksFirstWord(s, text, at, e);
  }

  lemma LineStopsAt(text: string, c: Cursor, e: nat)
    requires OnLine(text, c, e, e)
    ensures c.lo <= |text| && LineStop(text, c.lo) == e
  {
    OnLineEnds(text, c, e, e);
  }

  lemma ResumesBy(text: string, c: Cursor, at: nat, v: ValueState, word: Option<nat>, a: Advance)
    requires c.lo <= |text| && at <= LineStop(text, c.lo) && Walk(text, at, LineStop(text, c.lo), v, word) == a
    ensures Resume(text, c, at, v, word) == Settle(text, c, a)
  {
    hide Walk, Settle, LineStop;
  }

  lemma KeywordIsWord(s: string)
    requires IsValueKeyword(s)
    ensures Identifier(s)
  {
  }

  lemma HasIs(text: string, at: nat, s: string)
    requires Has(text, at, s)
    ensures at + |s| <= |text| && text[at..at + |s|] == s
  {
  }

  /** A string is a whole value: its closing quote ends it. */
  lemma ReadsQuoted(v: Value, text: string, c: Cursor, e: nat) returns (value: ValueState)
    requires v.Quoted? && Valid(v) && Has(text, c.lo, Print(v)) && c.lo + |Print(v)| == e
    requires OnLine(text, c, c.lo, e)
    ensures EndsAt(text, c, e, value, Resume(text, c, c.lo, FRESH, None)) && Carry(text, c, c.lo, e) == c
  {
    hide Has, Settle, Carry, TokensFrom, StringBody;
    var at := c.lo + |v.mark|;
    HasSplit(text, c.lo, v.mark, PrintQuoted(v.body));
    QuotedStands(v.body, text, at);
    if v.mark != [] { HasChar(text, c.lo, v.mark, 0); }
    ReachesOnLine(text, c, c.lo, e, e);
    OnLineEnds(text, c, e, e);
    var before := if v.mark == [] then FRESH else Word(false);
    assert Walk(text, c.lo, e, FRESH, None) == Walk(text, at, e, before, None);
    WalksString(text, at + 1, e, OpenString(before), None);
    value := Word(false);
    SettlesAtEnd(text, c, e, value);
  }

  // ----- Brackets at depth 0 -----

  /** The bracket that closes everything ends the value. */
  lemma ClosingEnds(text: string, c: Cursor, at: nat, e: nat)
    requires at + 1 == e && OnLine(text, c, at, e) && IsClose(text[at])
    ensures EndsAt(text, Carry(text, c, at, e), e, Word(false), Resume(text, c, at, Inside(1, false), None))
  {
    assert text[at] != NEWLINE;
    ClosesAll(text, at, e);
    hide *;
    ReachesOnLine(text, c, at, e, e);
    LineStopsAt(text, c, e);
    SettlesAtEnd(text, c, e, Word(false));
    ResumesBy(text, c, at, Inside(1, false), None, Advance(true, e, Word(false)));
  }

  lemma ClosesAll(text: string, at: nat, e: nat)
    requires at + 1 == e <= |text| && IsClose(text[at])
    ensures Walk(text, at, e, Inside(1, false), None) == Advance(true, e, Word(false))
  {
  }

  /** From just inside the last bracket of a value to its end. */
  lemma ReadsToClose(text: string, c: Cursor, at: nat, e: nat)
    requires at < e && OnLine(text, c, at, e) && Passes(text, at, e - 1, e) && IsClose(text[e - 1])
    ensures EndsAt(text, Carry(text, c, at, e), e, Word(false), Resume(text, c, at, Inside(1, false), None))
  {
    hide Settle, Carry, Resume, Passes, EndsAt;
    PassesAt(text, Spot(c, 1, false), at, e - 1, e);
    CarryStaysOnLine(text, c, at, e - 1, e);
    ClosingEnds(text, Carry(text, c, at, e - 1), e - 1, e);
    CarryJoins(text, c, at, e - 1, e);
  }

  lemma ReadsContainer(v: Value, text: string, c: Cursor, e: nat) returns (value: ValueState)
    requires (v.Array? || v.Dictionary?) && Valid(v) && Has(text, c.lo, Print(v)) && c.lo + |Print(v)| == e
    requires OnLine(text, c, c.lo, e)
    ensures EndsAt(text, Carry(text, c, c.lo, e), e, value, Resume(text, c, c.lo, FRESH, None))
  {
    hide Has, Settle, Carry, Passes;
    var at := c.lo + 1;
    if v.Array? {
      HasSplit(text, c.lo, ['['], PrintElements(v.elements));
      HasChar(text, c.lo, ['['], 0);
      PassesElements(v.elements, text, at, e);
    } else {
      HasSplit(text, c.lo, ['{'], PrintPairs(v.pairs));
      HasChar(text, c.lo, ['{'], 0);
      PassesPairs(v.pairs, text, at, e);
    }
    ReachesOnLine(text, c, c.lo, at, e);
    assert Resume(text, c, c.lo, FRESH, None) == Resume(text, c, at, Inside(1, false), None);
    ReadsToClose(text, c, at, e);
    CarryJoins(text, c, c.lo, at, e);
    value := Word(false);
  }

  // ----- Between a name and its bracket -----

  predicate NoBreakIn(text: string, at: nat, goal: nat)
    requires at <= goal <= |text|
  {
    forall i :: at <= i < goal ==> text[i] != NEWLINE
  }

  predicate SpacesIn(text: string, at: nat, goal: nat)
    requires at <= goal <= |text|
  {
    forall i :: at <= i < goal ==> IsSpace(text[i])
  }

  /** Once a line has ended while a call may still follow, blank lines are skipped up to the bracket. The
      bracket is then read as if no name stood before it. */
  lemma {:induction false} AwaitsOverLines(text: string, c: Cursor, b: nat, e: nat)
    requires OnLine(text, c, c.lo, e) && c.lo <= b < e && SpacesIn(text, c.lo, b) && OpensCall(text, b)
    ensures ScanFrom(text, c.lo, c.number, c.st.(value := AWAITING, inValue := true))
         == Resume(text, Carry(text, c, c.lo, b), b + 1, Inside(1, false), None)
    decreases b - c.lo
  {
    hide Settle, Carry, ScanFrom, OnLine;
    OnLineEnds(text, c, c.lo, e);
    LineSettles(text, c, AWAITING);
    var hi := LineStop(text, c.lo);
    if b < hi {
      NextNonSpaceIs(text, c.lo, hi, b);
      ReachesOnLine(text, c, c.lo, b, e);
      assert Walk(text, b, hi, Word(false), None) == Walk(text, b + 1, hi, Inside(1, false), None);
    } else {
      NextNonSpaceIs(text, c.lo, hi, hi);
      SuspendsAt(text, c, c.lo, hi, b, e);
    }
  }

  /** A line that ends while a call may still follow hands over to the line below. */
  lemma {:induction false} SuspendsAt(text: string, c: Cursor, at: nat, hi: nat, b: nat, e: nat)
    requires OnLine(text, c, at, e) && at <= hi <= b < e && hi == LineStop(text, c.lo) && hi == LineEnd(text, c.lo)
    requires SpacesIn(text, at, b) && OpensCall(text, b)
    ensures Settle(text, c, Advance(false, hi, AWAITING))
         == Resume(text, Carry(text, c, at, b), b + 1, Inside(1, false), None)
    decreases b - c.lo, 0
  {
    hide *;
    OnLineIsInside(text, c, at, e);
    OpensNoBreak(text, b);
    BreakStandsAt(text, c, at, hi, b, e);
    ReachesOnLine(text, c, at, hi, e);
    CarryStaysOnLine(text, c, hi, hi + 1, e);
    LineIsDone(text, c, hi);
    AwaitsOverLines(text, Carry(text, c, hi, hi + 1), b, e);
    CarryJoins(text, c, at, hi, hi + 1);
    CarryJoins(text, c, at, hi + 1, b);
  }

  lemma OpensNoBreak(text: string, b: nat)
    requires b < |text| && OpensCall(text, b)
    ensures text[b] != NEWLINE
  {
  }

  /** The line break that ends the cursor's line. */
  lemma BreakStandsAt(text: string, c: Cursor, at: nat, hi: nat, b: nat, e: nat)
    requires OnLine(text, c, at, e) && at <= hi <= b < e && hi == LineEnd(text, c.lo) && SpacesIn(text, at, b)
    requires text[b] != NEWLINE
    ensures text[hi] == NEWLINE && hi < b && SpacesIn(text, hi + 1, b) && SpacesIn(text, at, hi)
    ensures forall i :: at <= i < hi ==> text[i] != NEWLINE
  {
  }

  /** A line whose value waits hands over to the line below. */
  lemma LineIsDone(text: string, c: Cursor, hi: nat)
    requires c.lo <= hi < |text| && text[hi] == NEWLINE && hi == LineStop(text, c.lo) == LineEnd(text, c.lo)
    ensures var below := Carry(text, c, hi, hi + 1);
      && below.lo == hi + 1
      && Settle(text, c, Advance(false, hi, AWAITING))
         == ScanFrom(text, below.lo, below.number, below.st.(value := AWAITING, inValue := true))
  {
    hide Grow, Rest, ScanFrom, LineEnd;
  }

  /** From the end of a name, or of a container's type, over the gap and into the bracket. The bracket
      counts as a container's type only if it stands on the line the name ended on. */
  lemma ReadsGap(text: string, c: Cursor, at: nat, b: nat, e: nat, v: ValueState, word: Option<nat>)
    requires OnLine(text, c, at, e) && at <= b < e && SpacesIn(text, at, b) && OpensCall(text, b)
    requires v == AWAITING || (v == Word(true) && !ReadingKeyword(text, word, at))
    ensures Resume(text, c, at, v, word)
         == Resume(text, Carry(text, c, at, b), b + 1, Inside(1, text[b] == '[' && NoBreakIn(text, at, b)), None)
  {
    hide *;
    OnLineEnds(text, c, at, e);
    OnLineIsInside(text, c, at, e);
    OpensNoBreak(text, b);
    var hi := LineStop(text, c.lo);
    if b < hi {
      SpacesOnLine(text, c, at, b, hi);
      CarrySameLine(text, c, at, b);
      WalksGap(text, at, b, hi, v, word);
      ResumesAlike(text, c, at, v, word, b + 1, Inside(1, text[b] == '['), None);
    } else {
      BreakStandsAt(text, c, at, hi, b, e);
      BreaksIn(text, at, hi, b);
      WalksToLineEnd(text, at, hi, v, word);
      ResumesBy(text, c, at, v, word, Advance(false, hi, AWAITING));
      SuspendsAt(text, c, at, hi, b, e);
    }
  }

  lemma SpacesOnLine(text: string, c: Cursor, at: nat, b: nat, hi: nat)
    requires c.lo <= at <= b < hi <= |text| && hi == LineEnd(text, c.lo)
    ensures (forall i :: at <= i < b ==> text[i] != NEWLINE) && NoBreakIn(text, at, b)
  {
  }

  lemma BreaksIn(text: string, at: nat, hi: nat, b: nat)
    requires at <= hi < b <= |text| && text[hi] == NEWLINE
    ensures !NoBreakIn(text, at, b)
  {
  }

  lemma WalksGap(text: string, at: nat, b: nat, hi: nat, v: ValueState, word: Option<nat>)
    requires at <= b < hi <= |text| && SpacesIn(text, at, b) && OpensCall(text, b)
    requires v == AWAITING || (v == Word(true) && !ReadingKeyword(text, word, at))
    ensures Walk(text, at, hi, v, word) == Walk(text, b + 1, hi, Inside(1, text[b] == '['), None)
  {
    hide ReadingKeyword;
    if at < b {
      NextNonSpaceIs(text, at, hi, b);
      assert IsSpace(text[at]);
      assert Walk(text, at, hi, v, word) == Walk(text, b, hi, AWAITING, None);
    }
  }

  lemma WalksToLineEnd(text: string, at: nat, hi: nat, v: ValueState, word: Option<nat>)
    requires at <= hi <= |text| && SpacesIn(text, at, hi)
    requires v == AWAITING || (v == Word(true) && !ReadingKeyword(text, word, at))
    ensures Walk(text, at, hi, v, word) == Advance(false, hi, AWAITING)
  {
    hide ReadingKeyword;
    if at < hi {
      NextNonSpaceIs(text, at, hi, hi);
      assert IsSpace(text[at]);
    }
  }

  /** From the start of a value that begins with a name, over the name and the gap, into the bracket. */
  lemma ReadsName(name: string, gap: string, text: string, c: Cursor, e: nat)
    requires Identifier(name) && !IsValueKeyword(name) && AllSpace(gap)
    requires Has(text, c.lo, name) && Has(text, c.lo + |name|, gap)
    requires OnLine(text, c, c.lo, e) && c.lo + |name| + |gap| < e && OpensCall(text, c.lo + |name| + |gap|)
    ensures var b := c.lo + |name| + |gap|;
      Resume(text, c, c.lo, FRESH, None)
      == Resume(text, Carry(text, c, c.lo, b), b + 1, Inside(1, text[b] == '[' && NoNewline(gap)), None)
  {
    hide *;
    var at := c.lo + |name|;
    var b := at + |gap|;
    NameStands(name, text, c.lo);
    ReachesOnLine(text, c, c.lo, at, e);
    WalksName(name, text, c.lo, LineStop(text, c.lo));
    ResumesAlike(text, c, c.lo, FRESH, None, at, Word(true), Some(c.lo));
    GapStands(gap, text, at);
    ReadsGap(text, c, at, b, e, Word(true), Some(c.lo));
    CarryJoins(text, c, c.lo, at, b);
  }

  lemma NameStands(name: string, text: string, at: nat)
    requires Identifier(name) && !IsValueKeyword(name) && Has(text, at, name)
    ensures at + |name| <= |text| && (forall i :: at <= i < at + |name| ==> text[i] != NEWLINE)
    ensures !ReadingKeyword(text, Some(at), at + |name|)
  {
    HasIs(text, at, name);
    hide Has;
    IdentifierIsBare(name);
    BareHasNoBreak(name);
    HasNoBreak(text, at, name);
  }

  lemma WalksName(name: string, text: string, at: nat, hi: nat)
    requires Identifier(name) && Has(text, at, name) && at + |name| <= hi <= |text|
    ensures Walk(text, at, hi, FRESH, None) == Walk(text, at + |name|, hi, Word(true), Some(at))
  {
    hide Has, Walk;
    IdentifierIsBare(name);
    WalksFirstWord(name, text, at, hi);
  }

  lemma GapStands(gap: string, text: string, at: nat)
    requires AllSpace(gap) && Has(text, at, gap) && at + |gap| <= |text|
    ensures SpacesIn(text, at, at + |gap|) && (NoBreakIn(text, at, at + |gap|) <==> NoNewline(gap))
  {
    forall i | at <= i < at + |gap| ensures text[i] == gap[i - at] { HasChar(text, at, gap, i - at); }
    if NoBreakIn(text, at, at + |gap|) {
      forall i | 0 <= i < |gap| ensures gap[i] != NEWLINE { assert text[at + i] != NEWLINE; }
    }
  }

  lemma ReadsCall(v: Value, text: string, c: Cursor, e: nat) returns (value: ValueState)
    requires v.Call? && Valid(v) && Has(text, c.lo, Print(v)) && c.lo + |Print(v)| == e
    requires OnLine(text, c, c.lo, e)
    ensures EndsAt(text, Carry(text, c, c.lo, e), e, value, Resume(text, c, c.lo, FRESH, None))
  {
    hide Has, Resume, Carry, Passes, PrintGroup, Identifier;
    var group := PrintGroup('(', v.args, ')');
    var a1 := c.lo + |v.name|;
    var b := a1 + |v.gap|;
    HasSplit(text, c.lo, v.name, v.gap + group);
    HasSplit(text, a1, v.gap, group);
    GroupStands('(', v.args, ')', text, b);
    ReadsName(v.name, v.gap, text, c, e);
    value := ReadsGroup(v.args, text, c, b, e);
  }

  /** From just inside the bracket of a call to the end of the value. */
  lemma ReadsGroup(args: Pieces, text: string, c: Cursor, b: nat, e: nat) returns (value: ValueState)
    requires ValidPieces(args) && Has(text, b, PrintGroup('(', args, ')')) && b + |PrintGroup('(', args, ')')| == e
    requires c.lo <= b && OnLine(text, c, c.lo, e)
    ensures EndsAt(text, Carry(text, c, c.lo, e), e, value,
                   Resume(text, Carry(text, c, c.lo, b), b + 1, Inside(1, false), None))
  {
    hide Has, Resume, Carry, Passes, PrintPieces, EndsAt;
    GroupStands('(', args, ')', text, b);
    PassesPieces(args, text, b + 1, e);
    var c' := Carry(text, c, c.lo, b);
    CarryStaysOnLine(text, c, c.lo, b, e);
    ReachesOnLine(text, c', b, b + 1, e);
    ReadsToClose(text, c', b + 1, e);
    CarryJoins(text, c, c.lo, b, b + 1);
    CarryJoins(text, c, c.lo, b + 1, e);
    value := Word(false);
  }

  /** Where the parts of a typed container stand. */
  lemma TypedStands(v: Value, text: string, at: nat)
    requires v.Typed? && Valid(v) && Has(text, at, Print(v))
    ensures var b := at + |v.name| + |v.gap|;
      var close := b + 1 + |PrintPieces(v.types)|;
      var b2 := close + 1 + |v.gap2|;
      && at < b < close < b2 < at + |Print(v)| <= |text|
      && Has(text, at, v.name) && Has(text, at + |v.name|, v.gap) && Has(text, b, PrintGroup('[', v.types, ']'))
      && Has(text, close + 1, v.gap2) && Has(text, b2, PrintGroup('(', v.args, ')'))
      && b2 + |PrintGroup('(', v.args, ')')| == at + |Print(v)|
      && text[b] == '[' && text[close] == ']' && text[b2] == '('
  {
    hide Has, PrintPieces;
    var types := PrintGroup('[', v.types, ']');
    var group := PrintGroup('(', v.args, ')');
    var a1 := at + |v.name|;
    var b := a1 + |v.gap|;
    var close := b + 1 + |PrintPieces(v.types)|;
    HasSplit(text, at, v.name, v.gap + (types + (v.gap2 + group)));
    HasSplit(text, a1, v.gap, types + (v.gap2 + group));
    HasSplit(text, b, types, v.gap2 + group);
    HasSplit(text, close + 1, v.gap2, group);
    GroupStands('[', v.types, ']', text, b);
    GroupStands('(', v.args, ')', text, close + 1 + |v.gap2|);
  }

  /** A typed container up to the bracket that closes its type. Whether the walk knows it for a type
      is decided by the gap in front: with a line break in it, it does not. */
  lemma ReadsTypes(v: Value, text: string, c: Cursor, e: nat)
    requires v.Typed? && Valid(v) && Has(text, c.lo, Print(v)) && c.lo + |Print(v)| == e
    requires OnLine(text, c, c.lo, e)
    ensures var close := c.lo + |v.name| + |v.gap| + 1 + |PrintPieces(v.types)|;
      Resume(text, c, c.lo, FRESH, None)
      == Resume(text, Carry(text, c, c.lo, close), close, Inside(1, NoNewline(v.gap)), None)
  {
    hide Has, Resume, Carry, Passes, PrintPieces, Identifier;
    var b := c.lo + |v.name| + |v.gap|;
    var close := b + 1 + |PrintPieces(v.types)|;
    TypedStands(v, text, c.lo);
    ReadsName(v.name, v.gap, text, c, e);
    GroupStands('[', v.types, ']', text, b);
    PassesPieces(v.types, text, b + 1, e);
    var c' := Carry(text, c, c.lo, b);
    CarryStaysOnLine(text, c, c.lo, b, e);
    ReachesOnLine(text, c', b, b + 1, e);
    PassesAt(text, Spot(c', 1, NoNewline(v.gap)), b + 1, close, e);
    CarryJoins(text, c, c.lo, b, b + 1);
    CarryJoins(text, c, c.lo, b + 1, close);
  }

  /** The bracket that closes a container's type goes back to waiting for its call. */
  lemma TypeCloses(text: string, c: Cursor, close: nat, e: nat)
    requires OnLine(text, c, close, e) && close < e && text[close] == ']'
    ensures Resume(text, c, close, Inside(1, true), None) == Resume(text, c, close + 1, AWAITING, None)
  {
    hide Settle;
    ReachesOnLine(text, c, close, close + 1, e);
  }

  lemma ReadsTyped(v: Value, text: string, c: Cursor, e: nat) returns (value: ValueState)
    requires v.Typed? && Valid(v) && NoNewline(v.gap) && Has(text, c.lo, Print(v)) && c.lo + |Print(v)| == e
    requires OnLine(text, c, c.lo, e)
    ensures EndsAt(text, Carry(text, c, c.lo, e), e, value, Resume(text, c, c.lo, FRESH, None))
  {
    hide *;
    TypedHolds(v);
    OnLineIsInside(text, c, c.lo, e);
    var close := c.lo + |v.name| + |v.gap| + 1 + |PrintPieces(v.types)|;
    var b2 := close + 1 + |v.gap2|;
    TypedStands(v, text, c.lo);
    BracketIsNoBreak(text[close]);
    ParenOpens(text, b2);
    ReadsTypes(v, text, c, e);
    var c1 := Carry(text, c, c.lo, close);
    CarryStaysOnLine(text, c, c.lo, close, e);
    ReachesOnLine(text, c1, close, close + 1, e);
    TypeCloses(text, c1, close, e);
    GapStands(v.gap2, text, close + 1);
    ReadsGap(text, c1, close + 1, b2, e, AWAITING, None);
    CarryJoins(text, c, c.lo, close, close + 1);
    CarryJoins(text, c, c.lo, close + 1, b2);
    value := ReadsGroup(v.args, text, c, b2, e);
  }

  lemma ParenOpens(text: string, b: nat)
    requires b < |text| && text[b] == '('
    ensures OpensCall(text, b)
  {
  }

  lemma TypedHolds(v: Value)
    requires v.Typed? && Valid(v)
    ensures ValidPieces(v.args) && AllSpace(v.gap2)
  {
  }

  /** With a line break between a container's name and its type, the bracket after the type ends the
      value, and everything from there on is read as key text. */
  lemma TypedAfterBreakIsCut(v: Value, text: string, c: Cursor, e: nat)
    requires v.Typed? && Valid(v) && !NoNewline(v.gap) && Has(text, c.lo, Print(v)) && c.lo + |Print(v)| == e
    requires OnLine(text, c, c.lo, e)
    ensures var stop := c.lo + |v.name| + |v.gap| + 1 + |PrintPieces(v.types)| + 1;
      Resume(text, c, c.lo, FRESH, None) == Settle(text, Carry(text, c, c.lo, stop), Advance(true, stop, Word(false)))
      && OnLine(text, Carry(text, c, c.lo, stop), stop, e)
  {
    hide Has, Carry, Passes, PrintPieces, PrintGroup, Identifier, Settle;
    var close := c.lo + |v.name| + |v.gap| + 1 + |PrintPieces(v.types)|;
    TypedStands(v, text, c.lo);
    ReadsTypes(v, text, c, e);
    var c1 := Carry(text, c, c.lo, close);
    CarryStaysOnLine(text, c, c.lo, close, e);
    ReachesOnLine(text, c1, close, close + 1, e);
    CarryJoins(text, c, c.lo, close, close + 1);
  }

  /** Every written value but that one is read whole. */
  predicate ReadWhole(v: Value) {
    v.Typed? ==> NoNewline(v.gap)
  }

  lemma ReadsValue(v: Value, text: string, c: Cursor, e: nat) returns (value: ValueState)
    requires Valid(v) && ReadWhole(v) && Has(text, c.lo, Print(v)) && c.lo + |Print(v)| == e
    requires OnLine(text, c, c.lo, e)
    ensures EndsAt(text, Carry(text, c, c.lo, e), e, value, Resume(text, c, c.lo, FRESH, None))
  {
    hide Has, Resume, Carry, EndsAt, Valid, Print;
    match v
    case Keyword(_) => value := ReadsWord(v, text, c, e);
    case Bare(_) => value := ReadsWord(v, text, c, e);
    case Quoted(_, _) => value := ReadsQuoted(v, text, c, e);
    case Call(_, _, _) => value := ReadsCall(v, text, c, e);
    case Typed(_, _, _, _, _) => value := ReadsTyped(v, text, c, e);
    case Array(_) => value := ReadsContainer(v, text, c, e);
    case Dictionary(_) => value := ReadsContainer(v, text, c, e);
  }
}
