/** How the scan passes over one written value, line after line. A cursor holds the line the value is being read
    on and everything registered so far; inside brackets a written value moves the cursor and changes nothing
    else. */
module ScanValues {
  import opened Text
  import opened ConfigString
  import opened ConfigGrammar
  import opened ConfigScan

  // ----- Where a value is being read -----

  /** The line `number` whose contribution to the value starts at `lo`, with everything registered so
      far in `st`. How far the value itself is read is kept beside it. */
  datatype Cursor = Cursor(lo: nat, number: nat, st: State)

  function Plainly(st: State): State {
    st.(value := FRESH, inValue := false)
  }

  /** The rest of the scan once a line's walk has answered `a`. */
  function Settle(text: string, c: Cursor, a: Advance): State
    requires c.lo <= |text|
  {
    var end := LineEnd(text, c.lo);
    var hi := RawEnd(text, c.lo, end);
    var grown := Grow(c.st, if c.lo <= Min(a.end, hi) then text[c.lo..Min(a.end, hi)] else [], a.end > c.lo, c.number);
    var next :=
      if a.finished && a.end <= hi then Rest(text, a.end, hi, c.number, grown.(value := a.state, inValue := false))
      else grown.(value := a.state, inValue := true);
    if end == |text| then next else ScanFrom(text, end + 1, c.number + 1, next)
  }

  function LineStop(text: string, lo: nat): (hi: nat)
    requires lo <= |text|
    ensures lo <= hi <= |text|
  {
    RawEnd(text, lo, LineEnd(text, lo))
  }

  /** The whole scan's final state from the middle of a value: at `at` on the cursor's line, in state `v`. */
  function Resume(text: string, c: Cursor, at: nat, v: ValueState, word: Option<nat>): State
    requires c.lo <= |text|
  {
    var hi := LineStop(text, c.lo);
    if at <= hi then Settle(text, c, Walk(text, at, hi, v, word)) else c.st
  }

  /** The cursor moved over `[at, goal)`: every line break on the way closes a line of the value. */
  function Carry(text: string, c: Cursor, at: nat, goal: nat): (moved: Cursor)
    requires c.lo <= at <= goal <= |text|
    ensures c.lo <= moved.lo <= goal
    decreases goal - at
  {
    if at == goal then c
    else if text[at] == NEWLINE then
      Carry(text, Cursor(at + 1, c.number + 1, Grow(c.st, text[c.lo..at], at > c.lo, c.number)), at + 1, goal)
    else Carry(text, c, at + 1, goal)
  }

  lemma {:induction false} CarryJoins(text: string, c: Cursor, at: nat, mid: nat, goal: nat)
    requires c.lo <= at <= mid <= goal <= |text|
    ensures Carry(text, Carry(text, c, at, mid), mid, goal) == Carry(text, c, at, goal)
    decreases mid - at
  {
    if at < mid {
      if text[at] == NEWLINE {
        CarryJoins(text, Cursor(at + 1, c.number + 1, Grow(c.st, text[c.lo..at], at > c.lo, c.number)), at + 1, mid, goal);
      } else {
        CarryJoins(text, c, at + 1, mid, goal);
      }
    }
  }

  /** `at` is on the cursor's line, inside a value that ends at `e` in front of a line break and holds
      no carriage return. */
  predicate OnLine(text: string, c: Cursor, at: nat, e: nat) {
    && c.lo <= at <= e < |text| && text[e] == NEWLINE && c.st.entries != [] && c.st == Plainly(c.st)
    && (forall i :: c.lo <= i < at ==> text[i] != NEWLINE)
    && (forall i :: c.lo <= i < e ==> text[i] != '\r')
  }

  lemma OnLineEnds(text: string, c: Cursor, at: nat, e: nat)
    requires OnLine(text, c, at, e)
    ensures at <= LineEnd(text, c.lo) <= e && LineStop(text, c.lo) == LineEnd(text, c.lo)
    ensures at < e && text[at] != NEWLINE ==> at < LineEnd(text, c.lo)
    ensures text[at] == NEWLINE ==> LineEnd(text, c.lo) == at
  {
  }

  lemma {:induction false} CarryStaysOnLine(text: string, c: Cursor, at: nat, goal: nat, e: nat)
    requires OnLine(text, c, at, e) && at <= goal <= e
    ensures OnLine(text, Carry(text, c, at, goal), goal, e)
    decreases goal - at
  {
    hide AppendPiece;
    if at < goal {
      if text[at] == NEWLINE {
        CarryStaysOnLine(text, Cursor(at + 1, c.number + 1, Grow(c.st, text[c.lo..at], at > c.lo, c.number)), at + 1, goal, e);
      } else {
        CarryStaysOnLine(text, c, at + 1, goal, e);
      }
    }
  }

  /** Two places on one line from which the walk goes on alike. */
  lemma ResumesAlike(text: string, c: Cursor, at: nat, v: ValueState, word: Option<nat>, at2: nat, v2: ValueState,
                     word2: Option<nat>)
    requires c.lo <= |text| && at <= LineStop(text, c.lo) && at2 <= LineStop(text, c.lo)
    requires Walk(text, at, LineStop(text, c.lo), v, word) == Walk(text, at2, LineStop(text, c.lo), v2, word2)
    ensures Resume(text, c, at, v, word) == Resume(text, c, at2, v2, word2)
  {
    hide Walk, Settle, LineStop;
  }

  // ----- Inside brackets -----

  /** The state between two parts of a value with `depth` brackets open. */
  function Inside(depth: nat, annotation: bool): ValueState {
    ValueState(depth, false, true, false, false, annotation)
  }

  /** A line break inside brackets is read like any other space: the walk suspends and carries on. */
  lemma LineBreakPasses(text: string, c: Cursor, at: nat, e: nat, depth: nat, annotation: bool)
    requires OnLine(text, c, at, e) && at < e && text[at] == NEWLINE && depth >= 1
    ensures OnLine(text, Carry(text, c, at, at + 1), at + 1, e)
    ensures Resume(text, c, at, Inside(depth, annotation), None)
         == Resume(text, Carry(text, c, at, at + 1), at + 1, Inside(depth, annotation), None)
  {
    hide AppendPiece, Rest, Trimmed;
    var v := Inside(depth, annotation);
    OnLineEnds(text, c, at, e);
    CarryStaysOnLine(text, c, at, at + 1, e);
    var grown := Grow(c.st, text[c.lo..at], at > c.lo, c.number);
    var next := grown.(value := v, inValue := true);
    assert Walk(text, at, at, v, None) == Advance(false, at, v);
    assert Resume(text, c, at, v, None) == ScanFrom(text, at + 1, c.number + 1, next);
    var c' := Cursor(at + 1, c.number + 1, grown);
    assert Carry(text, c, at, at + 1) == c';
    LineContinues(text, c', next, v);
  }

  /** One line in the middle of a value. */
  lemma LineInValue(text: string, c: Cursor, v: ValueState, hi: nat)
    requires c.lo <= hi <= |text|
    ensures var a := Advanced(text, c.lo, hi, v);
      var grown := Grow(c.st, text[c.lo..Min(a.end, hi)], a.end > c.lo, c.number);
      Line(text, c.lo, hi, c.number, c.st.(value := v, inValue := true))
      == if a.finished then Rest(text, a.end, hi, c.number, grown.(value := a.state, inValue := false))
         else grown.(value := a.state, inValue := true)
  {
    hide Rest, Advanced, Grow;
    var a := Advanced(text, c.lo, hi, v);
    var piece := text[c.lo..Min(a.end, hi)];
    GrowIgnoresValue(c.st, piece, true, c.number, v);
    if a.end <= c.lo {
      assert piece == [];
      GrowsByNothing(c.st, c.number);
    }
  }

  /** A line that starts in the middle of a value settles as its own walk does. */
  lemma LineSettles(text: string, c: Cursor, v: ValueState)
    requires c.lo <= |text|
    ensures ScanFrom(text, c.lo, c.number, c.st.(value := v, inValue := true))
         == Settle(text, c, Advanced(text, c.lo, LineStop(text, c.lo), v))
  {
    hide Rest, Advanced, Grow, Line, LineEnd;
    LineInValue(text, c, v, LineStop(text, c.lo));
  }

  /** A line that starts in the middle of a value carries on with it. */
  lemma LineContinues(text: string, c: Cursor, st: State, v: ValueState)
    requires c.lo <= |text|
    requires st == c.st.(value := v, inValue := true) && !v.awaitingCall
    ensures ScanFrom(text, c.lo, c.number, st) == Resume(text, c, c.lo, v, None)
  {
    hide Settle, ScanFrom, Walk;
    LineSettles(text, c, v);
  }

  lemma GrowsByNothing(st: State, number: nat)
    ensures Grow(st, [], false, number) == st
  {
    if st.entries != [] {
      assert st.entries == st.entries[..|st.entries| - 1] + [st.entries[|st.entries| - 1]];
    }
  }

  lemma GrowIgnoresValue(st: State, piece: string, reached: bool, number: nat, v: ValueState)
    ensures Grow(st.(value := v, inValue := true), piece, reached, number)
         == Grow(st, piece, reached, number).(value := v, inValue := true)
  {
  }

  datatype Spot = Spot(c: Cursor, depth: nat, annotation: bool)

  /** Reading from `at` to `goal` inside brackets changes nothing but the line. */
  ghost predicate Passes(text: string, at: nat, goal: nat, e: nat) {
    at <= goal <= e < |text| && forall k: Spot :: PassesFrom(text, k, at, goal, e)
  }

  ghost predicate PassesFrom(text: string, k: Spot, at: nat, goal: nat, e: nat)
    requires at <= goal <= e < |text|
  {
    k.depth >= 1 && OnLine(text, k.c, at, e) ==>
      Resume(text, k.c, at, Inside(k.depth, k.annotation), None)
      == Resume(text, Carry(text, k.c, at, goal), goal, Inside(k.depth, k.annotation), None)
  }

  lemma PassesNothing(text: string, at: nat, e: nat)
    requires at <= e < |text|
    ensures Passes(text, at, at, e)
  {
  }

  lemma PassesJoin(text: string, at: nat, mid: nat, goal: nat, e: nat)
    requires Passes(text, at, mid, e) && Passes(text, mid, goal, e)
    ensures Passes(text, at, goal, e)
  {
    hide Resume, Carry;
    forall k: Spot ensures PassesFrom(text, k, at, goal, e) {
      if k.depth >= 1 && OnLine(text, k.c, at, e) {
        CarryJoins(text, k.c, at, mid, goal);
        CarryStaysOnLine(text, k.c, at, mid, e);
        assert PassesFrom(text, k, at, mid, e);
        assert PassesFrom(text, k.(c := Carry(text, k.c, at, mid)), mid, goal, e);
      }
    }
  }

  predicate PassingChar(c: char) {
    c != ';' && c != '"' && !IsOpen(c) && !IsClose(c)
  }

  lemma PassesChar(text: string, at: nat, e: nat)
    requires at < e < |text| && PassingChar(text[at])
    ensures Passes(text, at, at + 1, e)
  {
    hide Settle;
    var goal := at + 1;
    forall k: Spot ensures PassesFrom(text, k, at, goal, e) {
      if k.depth >= 1 && OnLine(text, k.c, at, e) {
        OnLineEnds(text, k.c, at, e);
        if text[at] == NEWLINE {
          LineBreakPasses(text, k.c, at, e, k.depth, k.annotation);
        } else {
          assert Carry(text, k.c, at, at + 1) == k.c;
        }
      }
    }
  }

  lemma {:induction false} PassesText(s: string, text: string, at: nat, e: nat)
    requires Has(text, at, s) && at + |s| <= e < |text| && forall i :: 0 <= i < |s| ==> PassingChar(s[i])
    ensures Passes(text, at, at + |s|, e)
    decreases |s|
  {
    hide Passes, Has;
    if s == [] {
      PassesNothing(text, at, e);
    } else {
      assert s == [s[0]] + s[1..];
      HasSplit(text, at, [s[0]], s[1..]);
      HasChar(text, at, s, 0);
      PassesChar(text, at, e);
      PassesText(s[1..], text, at + 1, e);
      PassesJoin(text, at, at + 1, at + |s|, e);
    }
  }

  // ----- Strings -----

  /** The walk leaves a string where its tokens end. */
  lemma {:induction false} WalksString(text: string, at: nat, hi: nat, v: ValueState, word: Option<nat>)
    requires v.inString && at <= hi <= |text| && TokensFrom(text, at).closed && TokensFrom(text, at).end <= hi
    ensures var end := TokensFrom(text, at).end;
      var closed := v.(inString := false);
      Walk(text, at, hi, v, word)
      == if v.depth == 0 then Leave(text, end, hi, closed, word) else Walk(text, end, hi, closed, word)
    decreases hi - at
  {
    if HasToken(text, at) {
      var next := TokenAt(text, at).1;
      assert TokensFrom(text, at).end == TokensFrom(text, next).end;
      WalksString(text, next, hi, v, word);
      if text[at] == '\\' && IsHexEscape(text[at + 1]) {
        WalksHexDigits(text, at + 2, next, hi, v, word);
      }
    }
  }

  lemma {:induction false} WalksHexDigits(text: string, at: nat, goal: nat, hi: nat, v: ValueState, word: Option<nat>)
    requires v.inString && at <= goal <= hi <= |text| && forall i :: at <= i < goal ==> HexValue(text[i]) >= 0
    ensures Walk(text, at, hi, v, word) == Walk(text, goal, hi, v, word)
    decreases goal - at
  {
    if at < goal { WalksHexDigits(text, at + 1, goal, hi, v, word); }
  }

  lemma {:induction false} CarrySameLine(text: string, c: Cursor, at: nat, goal: nat)
    requires c.lo <= at <= goal <= |text| && forall i :: at <= i < goal ==> text[i] != NEWLINE
    ensures Carry(text, c, at, goal) == c
    decreases goal - at
  {
    if at < goal { CarrySameLine(text, c, at + 1, goal); }
  }

  /** A line reaches at least as far as its first line break. */
  lemma ReachesOnLine(text: string, c: Cursor, at: nat, goal: nat, e: nat)
    requires OnLine(text, c, at, e) && at <= goal <= e && forall i :: at <= i < goal ==> text[i] != NEWLINE
    ensures OnLine(text, c, goal, e) && Carry(text, c, at, goal) == c
    ensures goal <= LineStop(text, c.lo) == LineEnd(text, c.lo)
  {
    CarrySameLine(text, c, at, goal);
    OnLineEnds(text, c, goal, e);
  }

  lemma HasNoBreak(text: string, at: nat, s: string)
    requires Has(text, at, s) && NoNewline(s)
    ensures forall i :: at <= i < at + |s| ==> text[i] != NEWLINE
  {
    forall i | at <= i < at + |s| ensures text[i] != NEWLINE {
      HasChar(text, at, s, i - at);
      assert s[i - at] in s;
    }
  }

  /** A quoted string standing at `at`: where its tokens end, and that it stays on its line. */
  lemma QuotedStands(body: string, text: string, at: nat)
    requires StringBody(body) && Has(text, at, PrintQuoted(body))
    ensures var end := at + |body| + 2;
      && end == at + |PrintQuoted(body)| <= |text| && text[at] == '"'
      && TokensFrom(text, at + 1).closed && TokensFrom(text, at + 1).end == end
      && (forall i :: at <= i < end ==> text[i] != NEWLINE)
  {
    hide Has, TokensFrom;
    var q := body + ['"'];
    HasSplit(text, at, ['"'], q);
    HasChar(text, at, ['"'], 0);
    assert TokensFrom(q, 0).closed && TokensFrom(q, 0).end == |q|;
    TokensMoved(q, 0, text, at + 1);
    assert NoNewline(q);
    HasNoBreak(text, at + 1, q);
  }

  lemma PassesQuoted(body: string, text: string, at: nat, e: nat)
    requires StringBody(body) && Has(text, at, PrintQuoted(body)) && at + |PrintQuoted(body)| <= e < |text|
    ensures Passes(text, at, at + |PrintQuoted(body)|, e)
  {
    hide Has, Settle, TokensFrom, Carry, StringBody;
    QuotedStands(body, text, at);
    var goal := at + |PrintQuoted(body)|;
    forall k: Spot ensures PassesFrom(text, k, at, goal, e) {
      if k.depth >= 1 && OnLine(text, k.c, at, e) {
        ReachesOnLine(text, k.c, at, goal, e);
        var v := Inside(k.depth, k.annotation);
        WalksString(text, at + 1, LineStop(text, k.c.lo), OpenString(v), None);
      }
    }
  }

  lemma PassesBracketed(text: string, at: nat, close: nat, e: nat)
    requires close < e < |text| && at < close && Passes(text, at + 1, close, e)
    requires IsOpen(text[at]) && IsClose(text[close])
    ensures Passes(text, at, close + 1, e)
  {
    hide Settle, Carry, Passes;
    var goal := close + 1;
    forall k: Spot ensures PassesFrom(text, k, at, goal, e) {
      if k.depth >= 1 && OnLine(text, k.c, at, e) {
        BracketPasses(text, k, at, close, e);
      }
    }
    assert Passes(text, at, close + 1, e) by { PassesIs(text, at, goal, e); }
  }

  lemma PassesIs(text: string, at: nat, goal: nat, e: nat)
    requires at <= goal <= e < |text| && forall k: Spot :: PassesFrom(text, k, at, goal, e)
    ensures Passes(text, at, goal, e)
  {
  }

  lemma PassesAt(text: string, k: Spot, at: nat, goal: nat, e: nat)
    requires Passes(text, at, goal, e)
    ensures PassesFrom(text, k, at, goal, e)
  {
  }

  lemma BracketPasses(text: string, k: Spot, at: nat, close: nat, e: nat)
    requires close < e < |text| && at < close && Passes(text, at + 1, close, e)
    requires IsOpen(text[at]) && IsClose(text[close])
    requires k.depth >= 1 && OnLine(text, k.c, at, e)
    ensures PassesFrom(text, k, at, close + 1, e)
  {
    hide *;
    BracketIsNoBreak(text[at]);
    BracketIsNoBreak(text[close]);
    OnLineIsInside(text, k.c, at, e);
    ReachesOnLine(text, k.c, at, at + 1, e);
    var deeper := Spot(k.c, k.depth + 1, k.annotation);
    PassesAt(text, deeper, at + 1, close, e);
    var c' := Carry(text, k.c, at + 1, close);
    CarryStaysOnLine(text, k.c, at + 1, close, e);
    ReachesOnLine(text, c', close, close + 1, e);
    CarryJoins(text, k.c, at, at + 1, close);
    CarryJoins(text, k.c, at, close, close + 1);
    OpensDeeper(text, at, LineStop(text, k.c.lo), k.depth, k.annotation);
    ResumesAlike(text, k.c, at, Inside(k.depth, k.annotation), None, at + 1, Inside(k.depth + 1, k.annotation), None);
    ClosesOne(text, close, LineStop(text, c'.lo), k.depth, k.annotation);
    ResumesAlike(text, c', close, Inside(k.depth + 1, k.annotation), None, close + 1, Inside(k.depth, k.annotation), None);
    PassesBetween(text, deeper, at + 1, close, e);
    IsPassedFrom(text, k, at, close + 1, e);
  }

  lemma BracketIsNoBreak(c: char)
    requires IsOpen(c) || IsClose(c) || c == ']'
    ensures c != NEWLINE
  {
  }

  lemma OnLineIsInside(text: string, c: Cursor, at: nat, e: nat)
    requires OnLine(text, c, at, e)
    ensures c.lo <= at <= e < |text|
  {
  }

  lemma OpensDeeper(text: string, at: nat, hi: nat, depth: nat, annotation: bool)
    requires at < hi <= |text| && IsOpen(text[at]) && depth >= 1
    ensures Walk(text, at, hi, Inside(depth, annotation), None) == Walk(text, at + 1, hi, Inside(depth + 1, annotation), None)
  {
  }

  lemma ClosesOne(text: string, at: nat, hi: nat, depth: nat, annotation: bool)
    requires at < hi <= |text| && IsClose(text[at]) && depth >= 1
    ensures Walk(text, at, hi, Inside(depth + 1, annotation), None) == Walk(text, at + 1, hi, Inside(depth, annotation), None)
  {
  }

  lemma PassesBetween(text: string, k: Spot, at: nat, goal: nat, e: nat)
    requires k.c.lo <= at <= goal <= e < |text| && PassesFrom(text, k, at, goal, e)
    requires k.depth >= 1 && OnLine(text, k.c, at, e)
    ensures Resume(text, k.c, at, Inside(k.depth, k.annotation), None)
         == Resume(text, Carry(text, k.c, at, goal), goal, Inside(k.depth, k.annotation), None)
  {
    hide OnLine, Resume, Carry;
  }

  lemma IsPassedFrom(text: string, k: Spot, at: nat, goal: nat, e: nat)
    requires k.c.lo <= at <= goal <= e < |text|
    requires Resume(text, k.c, at, Inside(k.depth, k.annotation), None)
          == Resume(text, Carry(text, k.c, at, goal), goal, Inside(k.depth, k.annotation), None)
    ensures PassesFrom(text, k, at, goal, e)
  {
    hide OnLine, Resume, Carry;
  }

  // ----- Written values inside brackets -----

  lemma {:induction false} PassesPieces(p: Pieces, text: string, at: nat, e: nat)
    requires ValidPieces(p) && Has(text, at, PrintPieces(p)) && at + |PrintPieces(p)| <= e < |text|
    ensures Passes(text, at, at + |PrintPieces(p)|, e)
    decreases p, 0
  {
    hide Has, Passes;
    match p
    case NoPieces => PassesNothing(text, at, e);
    case Plain(c, rest) =>
      HasSplit(text, at, [c], PrintPieces(rest));
      HasChar(text, at, [c], 0);
      PassesChar(text, at, e);
      PassesPieces(rest, text, at + 1, e);
      PassesJoin(text, at, at + 1, at + |PrintPieces(p)|, e);
    case Quote(body, rest) =>
      var mid := at + |PrintQuoted(body)|;
      HasSplit(text, at, PrintQuoted(body), PrintPieces(rest));
      PassesQuoted(body, text, at, e);
      PassesPieces(rest, text, mid, e);
      PassesJoin(text, at, mid, at + |PrintPieces(p)|, e);
    case Group(open, inner, close, rest) =>
      var mid := at + |PrintGroup(open, inner, close)|;
      HasSplit(text, at, PrintGroup(open, inner, close), PrintPieces(rest));
      PassesGroup(open, inner, close, text, at, e);
      PassesPieces(rest, text, mid, e);
      PassesJoin(text, at, mid, at + |PrintPieces(p)|, e);
  }

  lemma GroupStands(open: char, inner: Pieces, close: char, text: string, at: nat)
    requires Has(text, at, PrintGroup(open, inner, close))
    ensures var end := at + 1 + |PrintPieces(inner)|;
      && end + 1 == at + |PrintGroup(open, inner, close)| <= |text|
      && text[at] == open && Has(text, at + 1, PrintPieces(inner)) && text[end] == close
  {
    hide Has, PrintPieces;
    HasSplit(text, at, [open], PrintPieces(inner) + [close]);
    HasSplit(text, at + 1, PrintPieces(inner), [close]);
    HasChar(text, at, [open], 0);
    HasChar(text, at + 1 + |PrintPieces(inner)|, [close], 0);
  }

  lemma {:induction false} PassesGroup(open: char, inner: Pieces, close: char, text: string, at: nat, e: nat)
    requires IsOpen(open) && ValidPieces(inner) && IsClose(close)
    requires Has(text, at, PrintGroup(open, inner, close)) && at + |PrintGroup(open, inner, close)| <= e < |text|
    ensures Passes(text, at, at + |PrintGroup(open, inner, close)|, e)
    decreases inner, 1
  {
    hide Has, Passes;
    GroupStands(open, inner, close, text, at);
    PassesPieces(inner, text, at + 1, e);
    PassesBracketed(text, at, at + 1 + |PrintPieces(inner)|, e);
  }

  lemma WordPasses(s: string, i: nat)
    requires i < |s| && (BareText(s) || AllSpace(s) || Identifier(s) || s == ['&'] || s == ['@'])
    ensures PassingChar(s[i])
  {
    if BareText(s) { assert BareChar(s[i]); }
    if AllSpace(s) { assert IsSpace(s[i]); }
    if Identifier(s) { assert IsIdentifierChar(s[i]); }
  }

  lemma PassesWord(s: string, text: string, at: nat, e: nat)
    requires BareText(s) || AllSpace(s) || Identifier(s) || s == ['&'] || s == ['@']
    requires Has(text, at, s) && at + |s| <= e < |text|
    ensures Passes(text, at, at + |s|, e)
  {
    forall i | 0 <= i < |s| ensures PassingChar(s[i]) { WordPasses(s, i); }
    PassesText(s, text, at, e);
  }

  /** Every written value is read to its end inside brackets: it closes each bracket it opens, its
      strings hide theirs, and its line breaks change only the line. */
  lemma {:induction false} PassesValue(v: Value, text: string, at: nat, e: nat)
    requires Valid(v) && Has(text, at, Print(v)) && at + |Print(v)| <= e < |text|
    ensures Passes(text, at, at + |Print(v)|, e)
    decreases v, 1
  {
    hide Has, Passes;
    match v
    case Keyword(word) => PassesWord(word, text, at, e);
    case Bare(s) => PassesWord(s, text, at, e);
    case Quoted(mark, body) =>
      var mid := at + |mark|;
      HasSplit(text, at, mark, PrintQuoted(body));
      if mark == [] { PassesNothing(text, at, e); } else { PassesWord(mark, text, at, e); }
      PassesQuoted(body, text, mid, e);
      PassesJoin(text, at, mid, at + |Print(v)|, e);
    case Call(_, _, _) => PassesCall(v, text, at, e);
    case Typed(_, _, _, _, _) => PassesTyped(v, text, at, e);
    case Array(elements) =>
      HasSplit(text, at, ['['], PrintElements(elements));
      HasChar(text, at, ['['], 0);
      PassesElements(elements, text, at + 1, e);
      PassesBracketed(text, at, at + |PrintElements(elements)|, e);
    case Dictionary(pairs) =>
      HasSplit(text, at, ['{'], PrintPairs(pairs));
      HasChar(text, at, ['{'], 0);
      PassesPairs(pairs, text, at + 1, e);
      PassesBracketed(text, at, at + |PrintPairs(pairs)|, e);
  }

  lemma PassesCall(v: Value, text: string, at: nat, e: nat)
    requires v.Call? && Valid(v) && Has(text, at, Print(v)) && at + |Print(v)| <= e < |text|
    ensures Passes(text, at, at + |Print(v)|, e)
  {
    hide Has, Passes, PrintGroup;
    var group := PrintGroup('(', v.args, ')');
    var a1 := at + |v.name|;
    var a2 := a1 + |v.gap|;
    HasSplit(text, at, v.name, v.gap + group);
    HasSplit(text, a1, v.gap, group);
    PassesWord(v.name, text, at, e);
    PassesWord(v.gap, text, a1, e);
    PassesGroup('(', v.args, ')', text, a2, e);
    PassesJoin(text, at, a1, a2, e);
    PassesJoin(text, at, a2, at + |Print(v)|, e);
  }

  lemma PassesTyped(v: Value, text: string, at: nat, e: nat)
    requires v.Typed? && Valid(v) && Has(text, at, Print(v)) && at + |Print(v)| <= e < |text|
    ensures Passes(text, at, at + |Print(v)|, e)
  {
    hide Has, Passes, PrintGroup;
    var types := PrintGroup('[', v.types, ']');
    var group := PrintGroup('(', v.args, ')');
    var a1 := at + |v.name|;
    var a2 := a1 + |v.gap|;
    var a3 := a2 + |types|;
    var a4 := a3 + |v.gap2|;
    HasSplit(text, at, v.name, v.gap + (types + (v.gap2 + group)));
    HasSplit(text, a1, v.gap, types + (v.gap2 + group));
    HasSplit(text, a2, types, v.gap2 + group);
    HasSplit(text, a3, v.gap2, group);
    PassesWord(v.name, text, at, e);
    PassesWord(v.gap, text, a1, e);
    PassesGroup('[', v.types, ']', text, a2, e);
    PassesWord(v.gap2, text, a3, e);
    PassesGroup('(', v.args, ')', text, a4, e);
    PassesJoin(text, at, a1, a2, e);
    PassesJoin(text, at, a2, a3, e);
    PassesJoin(text, at, a3, a4, e);
    PassesJoin(text, at, a4, at + |Print(v)|, e);
  }

  /** One value with the spaces around it, to the separator after it. */
  lemma {:induction false} PassesSpaced(lead: string, v: Value, trail: string, c: char, rest: string, text: string, at: nat, e: nat)
    requires AllSpace(lead) && Valid(v) && AllSpace(trail)
    requires Has(text, at, lead + (Print(v) + (trail + ([c] + rest))))
    requires at + |lead| + |Print(v)| + |trail| + 1 + |rest| <= e < |text|
    ensures var stop := at + |lead| + |Print(v)| + |trail|;
      Passes(text, at, stop, e) && text[stop] == c && Has(text, stop + 1, rest)
    decreases v, 2
  {
    hide Has, Passes, Print;
    var a1 := at + |lead|;
    var a2 := a1 + |Print(v)|;
    var stop := a2 + |trail|;
    HasSplit(text, at, lead, Print(v) + (trail + ([c] + rest)));
    HasSplit(text, a1, Print(v), trail + ([c] + rest));
    HasSplit(text, a2, trail, [c] + rest);
    HasSplit(text, stop, [c], rest);
    HasChar(text, stop, [c], 0);
    PassesWord(lead, text, at, e);
    PassesValue(v, text, a1, e);
    PassesWord(trail, text, a2, e);
    PassesJoin(text, at, a1, a2, e);
    PassesJoin(text, at, a2, stop, e);
  }

  lemma {:induction false} PassesElements(el: Elements, text: string, at: nat, e: nat)
    requires ValidElements(el) && Has(text, at, PrintElements(el)) && at + |PrintElements(el)| <= e < |text|
    ensures PrintElements(el) != []
    ensures var close := at + |PrintElements(el)| - 1;
      Passes(text, at, close, e) && text[close] == ']'
    decreases el, 3
  {
    hide Has, Passes;
    if el.NoElement? {
      HasSplit(text, at, el.trail, [']']);
      HasChar(text, at + |el.trail|, [']'], 0);
      PassesWord(el.trail, text, at, e);
    } else {
      ElementsShape(el);
      PassesSomeElement(el, text, at, e);
    }
  }

  lemma {:induction false} PassesSomeElement(el: Elements, text: string, at: nat, e: nat)
    requires !el.NoElement? && ValidElements(el) && Has(text, at, PrintElements(el))
    requires at + |PrintElements(el)| <= e < |text|
    ensures PrintElements(el) != []
    ensures var close := at + |PrintElements(el)| - 1;
      Passes(text, at, close, e) && text[close] == ']'
    decreases el, 2
  {
    hide Has, Passes, PrintElements;
    ElementsShape(el);
    PassesSpaced(el.lead, el.value, el.trail, ElementSeparatorChar(el), AfterElementText(el), text, at, e);
    var stop := at + |el.lead| + |Print(el.value)| + |el.trail|;
    if el.MoreElements? {
      PassesChar(text, stop, e);
      PassesElements(el.rest, text, stop + 1, e);
      PassesJoin(text, at, stop, stop + 1, e);
      PassesJoin(text, at, stop + 1, at + |PrintElements(el)| - 1, e);
    }
  }

  lemma {:induction false} PassesPairs(p: Pairs, text: string, at: nat, e: nat)
    requires ValidPairs(p) && Has(text, at, PrintPairs(p)) && at + |PrintPairs(p)| <= e < |text|
    ensures PrintPairs(p) != []
    ensures var close := at + |PrintPairs(p)| - 1;
      Passes(text, at, close, e) && text[close] == '}'
    decreases p, 3
  {
    hide Has, Passes;
    if p.NoPair? {
      HasSplit(text, at, p.trail, ['}']);
      HasChar(text, at + |p.trail|, ['}'], 0);
      PassesWord(p.trail, text, at, e);
    } else {
      PairsShape(p);
      PassesSomePair(p, text, at, e);
    }
  }

  lemma {:induction false} PassesSomePair(p: Pairs, text: string, at: nat, e: nat)
    requires !p.NoPair? && ValidPairs(p) && Has(text, at, PrintPairs(p)) && at + |PrintPairs(p)| <= e < |text|
    ensures PrintPairs(p) != []
    ensures var close := at + |PrintPairs(p)| - 1;
      Passes(text, at, close, e) && text[close] == '}'
    decreases p, 2
  {
    hide Has, Passes, PrintPairs;
    PairsShape(p);
    PassesSpaced(p.lead, p.key, p.mid, ':', FromPairValue(p), text, at, e);
    var colon := at + |p.lead| + |Print(p.key)| + |p.mid|;
    PassesChar(text, colon, e);
    PassesSpaced(p.mid2, p.value, p.trail, PairSeparatorChar(p), AfterPairText(p), text, colon + 1, e);
    var stop := colon + 1 + |p.mid2| + |Print(p.value)| + |p.trail|;
    PassesJoin(text, at, colon, colon + 1, e);
    PassesJoin(text, at, colon + 1, stop, e);
    if p.MorePairs? {
      PassesChar(text, stop, e);
      PassesPairs(p.rest, text, stop + 1, e);
      PassesJoin(text, at, stop, stop + 1, e);
      PassesJoin(text, at, stop + 1, at + |PrintPairs(p)| - 1, e);
    }
  }
}
