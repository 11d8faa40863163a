/** That a last line means the same with and without its newline. */
module ScanLastLine {
  // What is read of a line does not depend on the text behind it, and an empty line below an open value changes
  // nothing, because the value is open for a reason the empty line leaves as it is.

  import opened Text
  import opened ConfigScan

  // ----- What is read of a line does not depend on what follows it -----

  lemma {:induction false} SameNextNonSpace(text: string, more: string, from: nat, hi: nat)
    requires from <= hi <= |text|
    ensures NextNonSpace(text + more, from, hi) == NextNonSpace(text, from, hi)
    decreases hi - from
  {
    if from < hi && IsSpace(text[from]) { SameNextNonSpace(text, more, from + 1, hi); }
  }

  lemma {:induction false} SameTrimEnd(text: string, more: string, from: nat, hi: nat)
    requires from <= hi <= |text|
    ensures TrimEnd(text + more, from, hi) == TrimEnd(text, from, hi)
    decreases hi - from
  {
    if hi > from && IsSpace(text[hi - 1]) { SameTrimEnd(text, more, from, hi - 1); }
  }

  lemma {:induction false} SameQuotedToken(text: string, more: string, at: nat, hi: nat, content: string)
    requires at <= hi <= |text|
    ensures QuotedToken(text + more, at, hi, content) == QuotedToken(text, at, hi, content)
    decreases hi - at
  {
    if at < hi {
      if text[at] == '\\' && at + 1 < hi {
        SameQuotedToken(text, more, at + 2, hi, content + [text[at + 1]]);
      } else if text[at] != '"' {
        SameQuotedToken(text, more, at + 1, hi, content + [text[at]]);
      }
    }
  }

  lemma {:induction false} SameKeyTokens(text: string, more: string, at: nat, hi: nat, pending: string)
    requires at <= hi <= |text|
    ensures KeyTokens(text + more, at, hi, pending) == KeyTokens(text, at, hi, pending)
    decreases hi - at
  {
    if at < hi && text[at] != '=' {
      if text[at] == '"' {
        SameQuotedToken(text, more, at + 1, hi, []);
        var q := QuotedToken(text, at + 1, hi, []);
        if q.closed { SameKeyTokens(text, more, q.at, hi, q.content); }
      } else {
        SameKeyTokens(text, more, at + 1, hi, if IsSpace(text[at]) then pending else pending + [text[at]]);
      }
    }
  }

  lemma SameSlice(text: string, more: string, lo: nat, hi: nat)
    requires lo <= hi <= |text|
    ensures (text + more)[lo..hi] == text[lo..hi]
  {
  }

  lemma SameLeave(text: string, more: string, at: nat, hi: nat, st: ValueState, word: Option<nat>)
    requires hi <= |text| && (at <= hi || st.inString)
    ensures Leave(text + more, at, hi, st, word) == Leave(text, at, hi, st, word)
  {
    SameKeyword(text, more, word, at);
  }

  lemma SameKeyword(text: string, more: string, word: Option<nat>, at: nat)
    ensures at <= |text| ==> ReadingKeyword(text + more, word, at) == ReadingKeyword(text, word, at)
  {
    if at <= |text| && word.Some? && word.value <= at { SameSlice(text, more, word.value, at); }
  }

  lemma {:induction false} SameWalk(text: string, more: string, at: nat, hi: nat, st: ValueState, word: Option<nat>)
    requires at <= hi + 1 && hi <= |text| && (at == hi + 1 ==> st.inString)
    ensures Walk(text + more, at, hi, st, word) == Walk(text, at, hi, st, word)
    decreases hi + 1 - at, 1
  {
    hide Leave, ReadingKeyword, IsSpace, IsOpen, IsClose, IsIdentifierStart, TakeCharacter, OpenBracket, OpenString, CloseBracket,
      AwaitCall, NextNonSpace;
    SameLeave(text, more, at, hi, st, word);
    if at < hi {
      var c := text[at];
      assert (text + more)[at] == c;
      if st.inString {
        SameString(text, more, at, hi, st, word);
      } else if c == ';' {
      } else if c == '"' {
        SameWalk(text, more, at + 1, hi, OpenString(st), None);
      } else if IsOpen(c) {
        SameWalk(text, more, at + 1, hi, OpenBracket(st, c), None);
      } else if IsClose(c) {
        var closed := CloseBracket(st);
        SameLeave(text, more, at + 1, hi, closed, None);
        SameWalk(text, more, at + 1, hi, closed, None);
        SameWalk(text, more, at + 1, hi, AwaitCall(closed).(annotation := false), None);
      } else if IsSpace(c) {
        SameAtSpace(text, more, at, hi, st, word);
      } else {
        SameWalk(text, more, at + 1, hi, TakeCharacter(st, c),
                 if st.depth == 0 && !st.seen && IsIdentifierStart(c) then Some(at) else word);
      }
    }
  }

  lemma {:induction false} SameString(text: string, more: string, at: nat, hi: nat, st: ValueState, word: Option<nat>)
    requires at < hi <= |text| && st.inString
    ensures Walk(text + more, at, hi, st, word) == Walk(text, at, hi, st, word)
    decreases hi + 1 - at, 0
  {
    hide Leave, ReadingKeyword;
    var closed := st.(inString := false);
    if text[at] == '\\' {
      SameWalk(text, more, at + 2, hi, st, word);
    } else if text[at] == '"' {
      SameLeave(text, more, at + 1, hi, closed, word);
      SameWalk(text, more, at + 1, hi, closed, word);
    } else {
      SameWalk(text, more, at + 1, hi, st, word);
    }
  }

  lemma SpaceIsPlain(c: char)
    requires IsSpace(c)
    ensures !IsOpen(c) && !IsClose(c) && c != '"' && c != ';'
  {
  }

  lemma {:induction false} SameAtSpace(text: string, more: string, at: nat, hi: nat, st: ValueState, word: Option<nat>)
    requires at < hi <= |text| && !st.inString && IsSpace(text[at])
    ensures Walk(text + more, at, hi, st, word) == Walk(text, at, hi, st, word)
    decreases hi + 1 - at, 0
  {
    SpaceIsPlain(text[at]);
    hide Leave, ReadingKeyword, NextNonSpace, IsSpace, IsOpen, IsClose;
    SameKeyword(text, more, word, at);
    SameNextNonSpace(text, more, at, hi);
    SameLeave(text, more, at, hi, st, word);
    var look := NextNonSpace(text, at, hi);
    if at < look < hi { SameWalk(text, more, look, hi, AwaitCall(st), None); }
    SameWalk(text, more, at + 1, hi, st, word);
  }

  lemma SameAdvanced(text: string, more: string, lo: nat, hi: nat, st: ValueState)
    requires lo <= hi <= |text|
    ensures Advanced(text + more, lo, hi, st) == Advanced(text, lo, hi, st)
  {
    hide Walk, NextNonSpace;
    SameNextNonSpace(text, more, lo, hi);
    SameWalk(text, more, lo, hi, st, None);
    var at := NextNonSpace(text, lo, hi);
    SameWalk(text, more, at, hi, st.(awaitingCall := false), None);
  }

  lemma SameTaken(text: string, more: string, begin: nat, hi: nat, number: nat, begun: State)
    requires begin <= hi <= |text|
    ensures Taken(text + more, begin, hi, number, begun) == Taken(text, begin, hi, number, begun)
    ensures Advanced(text + more, begin, hi, FRESH) == Advanced(text, begin, hi, FRESH)
  {
    hide Advanced, Grow;
    SameAdvanced(text, more, begin, hi, FRESH);
    SameSlice(text, more, begin, Min(Advanced(text, begin, hi, FRESH).end, hi));
  }

  lemma {:induction false} SameRest(text: string, more: string, offset: nat, hi: nat, number: nat, st: State)
    requires offset <= hi <= |text|
    ensures Rest(text + more, offset, hi, number, st) == Rest(text, offset, hi, number, st)
    decreases hi - offset, 1
  {
    hide NextNonSpace, TrimEnd, Rest, RestOfKey, Trimmed;
    SameNextNonSpace(text, more, offset, hi);
    var first := NextNonSpace(text, offset, hi);
    SameTrimEnd(text, more, first, hi);
    var last := TrimEnd(text, first, hi);
    RestIs(text, offset, hi, number, st);
    RestIs(text + more, offset, hi, number, st);
    if first != last && text[first] != ';' {
      if last - first >= 2 { SameSlice(text, more, first + 1, last - 1); }
      SameRestOfKey(text, more, first, last, hi, number, st);
    }
  }

  lemma {:induction false} SameRestOfKey(text: string, more: string, first: nat, last: nat, hi: nat, number: nat, st: State)
    requires first <= last <= hi <= |text|
    ensures RestOfKey(text + more, first, last, hi, number, st) == RestOfKey(text, first, last, hi, number, st)
    decreases hi - first, 0
  {
    hide KeyTokens, Taken, Advanced, Rest, Opened;
    SameKeyTokens(text, more, first, last, st.pending);
    SameKeyTokens(text, more, first, last, []);
    var keyLine := if st.pending == [] then number else st.pendingLine;
    var key := KeyTokens(text, first, last, st.pending);
    if key.equals.Some? {
      var onThisLine := KeyTokens(text, first, last, []).pending;
      var begin := key.equals.value + 1;
      var begun := Opened(st, key.pending, onThisLine, keyLine, number);
      SameTaken(text, more, begin, hi, number, begun);
      var a := Advanced(text, begin, hi, FRESH);
      if a.finished { SameRest(text, more, a.end, hi, number, Taken(text, begin, hi, number, begun)); }
    }
  }

  lemma SameLine(text: string, more: string, lo: nat, hi: nat, number: nat, st: State)
    requires lo <= hi <= |text|
    ensures Line(text + more, lo, hi, number, st) == Line(text, lo, hi, number, st)
  {
    hide Rest, Advanced, Grow;
    SameAdvanced(text, more, lo, hi, st.value);
    var a := Advanced(text, lo, hi, st.value);
    SameSlice(text, more, lo, Max(lo, Min(a.end, hi)));
    SameRest(text, more, lo, hi, number, st);
    if a.finished {
      var st' := if a.end > lo then Grow(st, text[lo..Min(a.end, hi)], true, number) else st;
      SameRest(text, more, a.end, hi, number, st'.(value := a.state, inValue := false));
    }
  }

  function Max(a: nat, b: nat): nat {
    if a >= b then a else b
  }

  // ----- A blank line changes nothing -----

  /** A value that is open has something that keeps it open. */
  predicate Waits(v: ValueState) {
    (v.inString || v.depth > 0 || !v.seen || v.awaitingCall) && (v.identifier ==> v.seen)
  }

  lemma LeaveWaits(text: string, at: nat, hi: nat, st: ValueState, word: Option<nat>)
    requires st.identifier ==> st.seen
    ensures var a := Leave(text, at, hi, st, word); !a.finished ==> Waits(a.state)
  {
    hide ReadingKeyword;
  }

  lemma AwaitingWaits(st: ValueState)
    ensures Waits(AwaitCall(st)) && !AwaitCall(st).identifier
  {
  }

  /** Nothing read makes an identifier of a value with nothing read. */
  lemma StaysSeen(st: ValueState, c: char)
    requires st.identifier ==> st.seen
    ensures !OpenString(st).identifier && !OpenBracket(st, c).identifier && !CloseBracket(st).identifier
    ensures TakeCharacter(st, c).seen && (OpenString(st).inString)
  {
  }

  lemma {:induction false} StringWaits(text: string, at: nat, hi: nat, st: ValueState, word: Option<nat>)
    requires at <= hi + 1 && hi <= |text| && st.inString && (st.identifier ==> st.seen)
    ensures var a := Walk(text, at, hi, st, word); !a.finished ==> Waits(a.state)
    decreases hi + 1 - at, 0
  {
    hide ReadingKeyword, Leave, Waits;
    LeaveWaits(text, at, hi, st, word);
    if at < hi {
      if text[at] == '\\' {
        StringWaits(text, at + 2, hi, st, word);
      } else if text[at] == '"' {
        LeaveWaits(text, at + 1, hi, st.(inString := false), word);
        WalkWaits(text, at + 1, hi, st.(inString := false), word);
      } else {
        StringWaits(text, at + 1, hi, st, word);
      }
    }
  }

  lemma {:induction false} WalkWaits(text: string, at: nat, hi: nat, st: ValueState, word: Option<nat>)
    requires at <= hi + 1 && hi <= |text| && (at == hi + 1 ==> st.inString) && (st.identifier ==> st.seen)
    ensures var a := Walk(text, at, hi, st, word); !a.finished ==> Waits(a.state)
    decreases hi + 1 - at, 1
  {
    hide ReadingKeyword, IsSpace, IsOpen, IsClose, IsIdentifierStart, Leave, Waits, OpenString, OpenBracket, CloseBracket,
      TakeCharacter, NextNonSpace;
    LeaveWaits(text, at, hi, st, word);
    if st.inString {
      StringWaits(text, at, hi, st, word);
    } else if at < hi {
      var c := text[at];
      StaysSeen(st, c);
      if c == '"' {
        StringWaits(text, at + 1, hi, OpenString(st), None);
      } else if IsOpen(c) {
        WalkWaits(text, at + 1, hi, OpenBracket(st, c), None);
      } else if IsClose(c) {
        var closed := CloseBracket(st);
        LeaveWaits(text, at + 1, hi, closed, None);
        WalkWaits(text, at + 1, hi, closed, None);
        WalkWaits(text, at + 1, hi, AwaitCall(closed).(annotation := false), None);
      } else if IsSpace(c) {
        SpaceWaits(text, at, hi, st, word);
      } else if c != ';' {
        WalkWaits(text, at + 1, hi, TakeCharacter(st, c),
                  if st.depth == 0 && !st.seen && IsIdentifierStart(c) then Some(at) else word);
      }
    }
  }

  lemma {:induction false} SpaceWaits(text: string, at: nat, hi: nat, st: ValueState, word: Option<nat>)
    requires at < hi <= |text| && !st.inString && IsSpace(text[at]) && (st.identifier ==> st.seen)
    ensures var a := Walk(text, at, hi, st, word); !a.finished ==> Waits(a.state)
    decreases hi + 1 - at, 0
  {
    hide ReadingKeyword, Leave, Waits, NextNonSpace;
    LeaveWaits(text, at, hi, st, word);
    AwaitingWaits(st);
    var look := NextNonSpace(text, at, hi);
    if at < look < hi { WalkWaits(text, look, hi, AwaitCall(st), None); }
    WalkWaits(text, at + 1, hi, st, word);
  }

  lemma AdvancedWaits(text: string, lo: nat, hi: nat, st: ValueState)
    requires lo <= hi <= |text| && (st == FRESH || Waits(st))
    ensures var a := Advanced(text, lo, hi, st); !a.finished ==> Waits(a.state)
  {
    hide Walk, NextNonSpace;
    WalkWaits(text, lo, hi, st, None);
    WalkWaits(text, NextNonSpace(text, lo, hi), hi, st.(awaitingCall := false), None);
  }

  predicate Settled(st: State) {
    st.inValue ==> Waits(st.value)
  }

  lemma {:induction false} RestSettles(text: string, offset: nat, hi: nat, number: nat, st: State)
    requires offset <= hi <= |text| && !st.inValue
    ensures Settled(Rest(text, offset, hi, number, st))
    decreases hi - offset
  {
    hide NextNonSpace, TrimEnd, KeyTokens, Advanced, AppendPiece, Trimmed, Waits, Rest;
    RestIs(text, offset, hi, number, st);
    var first := NextNonSpace(text, offset, hi);
    var last := TrimEnd(text, first, hi);
    if first != last && text[first] != ';' {
      var keyLine := if st.pending == [] then number else st.pendingLine;
      var key := KeyTokens(text, first, last, st.pending);
      if key.equals.Some? {
        var onThisLine := KeyTokens(text, first, last, []).pending;
        var begin := key.equals.value + 1;
        AdvancedWaits(text, begin, hi, FRESH);
        var a := Advanced(text, begin, hi, FRESH);
        if a.finished {
          RestSettles(text, a.end, hi, number, Taken(text, begin, hi, number, Opened(st, key.pending, onThisLine, keyLine, number)));
        }
      }
    }
  }

  lemma LineSettlesState(text: string, lo: nat, hi: nat, number: nat, st: State)
    requires lo <= hi <= |text| && Settled(st)
    ensures Settled(Line(text, lo, hi, number, st))
  {
    hide Rest, Advanced, AppendPiece, Waits;
    if !st.inValue {
      RestSettles(text, lo, hi, number, st);
    } else {
      AdvancedWaits(text, lo, hi, st.value);
      var a := Advanced(text, lo, hi, st.value);
      if a.finished {
        var st' := if a.end > lo then Grow(st, text[lo..Min(a.end, hi)], true, number) else st;
        RestSettles(text, a.end, hi, number, st'.(value := a.state, inValue := false));
      }
    }
  }

  lemma EmptyLineIsIdle(text: string, lo: nat, number: nat, st: State)
    requires lo <= |text| && Settled(st)
    ensures Line(text, lo, lo, number, st) == st
  {
    hide Grow;
  }

  // ----- The whole text -----

  lemma SameLineEnd(text: string, from: nat)
    requires from <= |text|
    ensures LineEnd(text + [NEWLINE], from) == LineEnd(text, from)
    decreases |text| - from
  {
    if from < |text| && text[from] != NEWLINE { SameLineEnd(text, from + 1); }
  }

  lemma {:induction false} ScansTheSame(text: string, cursor: nat, number: nat, st: State)
    requires cursor <= |text| && Settled(st)
    ensures ScanFrom(text + [NEWLINE], cursor, number, st) == ScanFrom(text, cursor, number, st)
    decreases |text| - cursor
  {
    hide Line, LineEnd, Settled;
    var whole := text + [NEWLINE];
    SameLineEnd(text, cursor);
    var end := LineEnd(text, cursor);
    var hi := RawEnd(text, cursor, end);
    SameLine(text, [NEWLINE], cursor, hi, number, st);
    LineSettlesState(text, cursor, hi, number, st);
    var st' := Line(text, cursor, hi, number, st);
    assert RawEnd(whole, cursor, end) == hi;
    if end == |text| {
      EndsWithIdleLine(whole, number + 1, st');
    } else {
      ScansTheSame(text, end + 1, number + 1, st');
    }
  }

  lemma EndsWithIdleLine(text: string, number: nat, st: State)
    requires Settled(st)
    ensures ScanFrom(text, |text|, number, st) == st
  {
    hide Line;
    EmptyLineIsIdle(text, |text|, number, st);
  }

  /** A newline at the end of a file changes nothing that is read from it: not the entries, not the line a
      value ends on, not whether the last value is complete. */
  lemma FinalNewlineIsIdle(text: string)
    ensures ScanText(text + [NEWLINE]) == ScanText(text)
  {
    hide ScanFrom;
    ScansTheSame(text, 0, 1, START);
  }
}
