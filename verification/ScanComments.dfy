/** Scanning goes line by line: a line is read from the state above it, wherever it stands. */
module ScanComments {
  // So a comment in the middle of a value changes nothing.

  import opened Text
  import opened ConfigScan
  import opened ScanLastLine

  // ----- A line is read alike wherever it stands -----

  lemma {:induction false} NextNonSpaceMoves(front: string, text: string, from: nat, hi: nat)
    requires from <= hi <= |text|
    ensures NextNonSpace(front + text, |front| + from, |front| + hi) == |front| + NextNonSpace(text, from, hi)
    decreases hi - from
  {
    if from < hi {
      assert (front + text)[|front| + from] == text[from];
      if IsSpace(text[from]) { NextNonSpaceMoves(front, text, from + 1, hi); }
    }
  }

  lemma {:induction false} TrimEndMoves(front: string, text: string, from: nat, hi: nat)
    requires from <= hi <= |text|
    ensures TrimEnd(front + text, |front| + from, |front| + hi) == |front| + TrimEnd(text, from, hi)
    decreases hi - from
  {
    if hi > from {
      assert (front + text)[|front| + hi - 1] == text[hi - 1];
      if IsSpace(text[hi - 1]) { TrimEndMoves(front, text, from, hi - 1); }
    }
  }

  lemma {:induction false} QuotedTokenMoves(front: string, text: string, at: nat, hi: nat, content: string)
    requires at <= hi <= |text|
    ensures var q := QuotedToken(text, at, hi, content);
      QuotedToken(front + text, |front| + at, |front| + hi, content) == q.(at := |front| + q.at)
    decreases hi - at
  {
    if at < hi {
      assert (front + text)[|front| + at] == text[at];
      if text[at] == '\\' && at + 1 < hi {
        assert (front + text)[|front| + at + 1] == text[at + 1];
        QuotedTokenMoves(front, text, at + 2, hi, content + [text[at + 1]]);
      } else if text[at] != '"' {
        QuotedTokenMoves(front, text, at + 1, hi, content + [text[at]]);
      }
    }
  }

  function MovedKey(shift: nat, key: Key): Key {
    key.(equals := if key.equals.Some? then Some(shift + key.equals.value) else None)
  }

  lemma {:induction false} KeyTokensMove(front: string, text: string, at: nat, hi: nat, pending: string)
    requires at <= hi <= |text|
    ensures KeyTokens(front + text, |front| + at, |front| + hi, pending) == MovedKey(|front|, KeyTokens(text, at, hi, pending))
    decreases hi - at
  {
    if at < hi && text[at] != '=' {
      assert (front + text)[|front| + at] == text[at];
      if text[at] == '"' {
        QuotedTokenMoves(front, text, at + 1, hi, []);
        var q := QuotedToken(text, at + 1, hi, []);
        if q.closed { KeyTokensMove(front, text, q.at, hi, q.content); }
      } else {
        KeyTokensMove(front, text, at + 1, hi, if IsSpace(text[at]) then pending else pending + [text[at]]);
      }
    } else if at < hi {
      assert (front + text)[|front| + at] == text[at];
    }
  }

  lemma SliceMoves(front: string, text: string, lo: nat, hi: nat)
    requires lo <= hi <= |text|
    ensures (front + text)[|front| + lo..|front| + hi] == text[lo..hi]
  {
  }

  function MovedWord(shift: nat, word: Option<nat>): Option<nat> {
    if word.Some? then Some(shift + word.value) else None
  }

  function Moved(shift: nat, a: Advance): Advance {
    a.(end := shift + a.end)
  }

  lemma KeywordMoves(front: string, text: string, word: Option<nat>, at: nat)
    ensures at <= |text| ==> ReadingKeyword(front + text, MovedWord(|front|, word), |front| + at) == ReadingKeyword(text, word, at)
  {
    if at <= |text| && word.Some? && word.value <= at { SliceMoves(front, text, word.value, at); }
  }

  lemma LeaveMoves(front: string, text: string, at: nat, hi: nat, st: ValueState, word: Option<nat>)
    requires hi <= |text| && (at <= hi || st.inString)
    ensures Leave(front + text, |front| + at, |front| + hi, st, MovedWord(|front|, word))
         == Moved(|front|, Leave(text, at, hi, st, word))
  {
    KeywordMoves(front, text, word, at);
  }

  lemma {:induction false} WalkMoves(front: string, text: string, at: nat, hi: nat, st: ValueState, word: Option<nat>)
    requires at <= hi + 1 && hi <= |text| && (at == hi + 1 ==> st.inString)
    ensures Walk(front + text, |front| + at, |front| + hi, st, MovedWord(|front|, word))
         == Moved(|front|, Walk(text, at, hi, st, word))
    decreases hi + 1 - at, 1
  {
    hide Leave, ReadingKeyword, IsSpace, IsOpen, IsClose, IsIdentifierStart, TakeCharacter, OpenBracket, OpenString, CloseBracket,
      AwaitCall, NextNonSpace;
    if at >= hi {
      LeaveMoves(front, text, at, hi, st, word);
    } else {
      var c := text[at];
      assert (front + text)[|front| + at] == c;
      if st.inString {
        StringMoves(front, text, at, hi, st, word);
      } else if c == ';' {
        LeaveMoves(front, text, at, hi, st, word);
      } else if c == '"' {
        WalkMoves(front, text, at + 1, hi, OpenString(st), None);
      } else if IsOpen(c) {
        WalkMoves(front, text, at + 1, hi, OpenBracket(st, c), None);
      } else if IsClose(c) {
        CloseMoves(front, text, at, hi, st, word);
      } else if IsSpace(c) {
        SpaceMoves(front, text, at, hi, st, word);
      } else {
        WalkMoves(front, text, at + 1, hi, TakeCharacter(st, c),
                  if st.depth == 0 && !st.seen && IsIdentifierStart(c) then Some(at) else word);
      }
    }
  }

  lemma {:induction false} StringMoves(front: string, text: string, at: nat, hi: nat, st: ValueState, word: Option<nat>)
    requires at < hi <= |text| && st.inString
    ensures Walk(front + text, |front| + at, |front| + hi, st, MovedWord(|front|, word))
         == Moved(|front|, Walk(text, at, hi, st, word))
    decreases hi + 1 - at, 0
  {
    hide Leave, ReadingKeyword;
    assert (front + text)[|front| + at] == text[at];
    var closed := st.(inString := false);
    if text[at] == '\\' {
      WalkMoves(front, text, at + 2, hi, st, word);
    } else if text[at] == '"' {
      LeaveMoves(front, text, at + 1, hi, closed, word);
      WalkMoves(front, text, at + 1, hi, closed, word);
    } else {
      WalkMoves(front, text, at + 1, hi, st, word);
    }
  }

  lemma WalkAtClose(text: string, at: nat, hi: nat, st: ValueState, word: Option<nat>)
    requires at < hi <= |text| && !st.inString && IsClose(text[at])
    ensures var closed := CloseBracket(st);
      Walk(text, at, hi, st, word)
      == if closed.depth > 0 then Walk(text, at + 1, hi, closed, None)
         else if closed.annotation then Walk(text, at + 1, hi, AwaitCall(closed).(annotation := false), None)
         else Leave(text, at + 1, hi, closed, None)
  {
    CloseIsPlain(text[at]);
    hide Leave, IsOpen, IsClose, CloseBracket, AwaitCall;
  }

  lemma {:induction false} CloseMoves(front: string, text: string, at: nat, hi: nat, st: ValueState, word: Option<nat>)
    requires at < hi <= |text| && !st.inString && IsClose(text[at])
    ensures Walk(front + text, |front| + at, |front| + hi, st, MovedWord(|front|, word))
         == Moved(|front|, Walk(text, at, hi, st, word))
    decreases hi + 1 - at, 0
  {
    hide Walk, Leave, IsClose, CloseBracket, AwaitCall, MovedWord;
    assert (front + text)[|front| + at] == text[at] && MovedWord(|front|, None) == None by { NoWordMoves(|front|); }
    var closed := CloseBracket(st);
    WalkAtClose(text, at, hi, st, word);
    WalkAtClose(front + text, |front| + at, |front| + hi, st, MovedWord(|front|, word));
    LeaveMoves(front, text, at + 1, hi, closed, None);
    WalkMoves(front, text, at + 1, hi, closed, None);
    WalkMoves(front, text, at + 1, hi, AwaitCall(closed).(annotation := false), None);
  }

  lemma NoWordMoves(shift: nat)
    ensures MovedWord(shift, None) == None
  {
  }

  lemma WalkAtSpace(text: string, at: nat, hi: nat, st: ValueState, word: Option<nat>)
    requires at < hi <= |text| && !st.inString && IsSpace(text[at])
    ensures Walk(text, at, hi, st, word)
      == if !(st.depth == 0 && st.seen) then Walk(text, at + 1, hi, st, word)
         else if !((st.identifier && !ReadingKeyword(text, word, at)) || st.awaitingCall) then Leave(text, at, hi, st, word)
         else
           var look := NextNonSpace(text, at, hi);
           if look >= hi then Advance(false, hi, AwaitCall(st))
           else if OpensCall(text, look) then Walk(text, look, hi, AwaitCall(st), None)
           else Leave(text, at, hi, st, word)
  {
    SpaceIsPlain(text[at]);
    hide Leave, ReadingKeyword, NextNonSpace, IsSpace, IsOpen, IsClose, AwaitCall;
  }

  lemma {:induction false} SpaceMoves(front: string, text: string, at: nat, hi: nat, st: ValueState, word: Option<nat>)
    requires at < hi <= |text| && !st.inString && IsSpace(text[at])
    ensures Walk(front + text, |front| + at, |front| + hi, st, MovedWord(|front|, word))
         == Moved(|front|, Walk(text, at, hi, st, word))
    decreases hi + 1 - at, 0
  {
    hide Walk, Leave, ReadingKeyword, NextNonSpace, IsSpace, MovedWord, AwaitCall;
    assert (front + text)[|front| + at] == text[at] && MovedWord(|front|, None) == None by { NoWordMoves(|front|); }
    WalkAtSpace(text, at, hi, st, word);
    WalkAtSpace(front + text, |front| + at, |front| + hi, st, MovedWord(|front|, word));
    KeywordMoves(front, text, word, at);
    NextNonSpaceMoves(front, text, at, hi);
    LeaveMoves(front, text, at, hi, st, word);
    var look := NextNonSpace(text, at, hi);
    if look < hi { OpensCallMoves(front, text, look); }
    if at < look < hi { WalkMoves(front, text, look, hi, AwaitCall(st), None); }
    NotSpaceAhead(text, at, hi);
    WalkMoves(front, text, at + 1, hi, st, word);
  }

  lemma OpensCallMoves(front: string, text: string, look: nat)
    requires look < |text|
    ensures OpensCall(front + text, |front| + look) == OpensCall(text, look)
  {
    assert (front + text)[|front| + look] == text[look];
  }

  lemma NotSpaceAhead(text: string, at: nat, hi: nat)
    requires at < hi <= |text| && IsSpace(text[at])
    ensures NextNonSpace(text, at, hi) > at
  {
  }

  lemma AdvancedMoves(front: string, text: string, lo: nat, hi: nat, st: ValueState)
    requires lo <= hi <= |text|
    ensures Advanced(front + text, |front| + lo, |front| + hi, st) == Moved(|front|, Advanced(text, lo, hi, st))
  {
    hide Walk, NextNonSpace;
    NextNonSpaceMoves(front, text, lo, hi);
    WalkMoves(front, text, lo, hi, st, None);
    var at := NextNonSpace(text, lo, hi);
    WalkMoves(front, text, at, hi, st.(awaitingCall := false), None);
    if at < hi { assert (front + text)[|front| + at] == text[at]; }
  }

  lemma TakenMoves(front: string, text: string, begin: nat, hi: nat, number: nat, begun: State)
    requires begin <= hi <= |text|
    ensures Taken(front + text, |front| + begin, |front| + hi, number, begun) == Taken(text, begin, hi, number, begun)
    ensures Advanced(front + text, |front| + begin, |front| + hi, FRESH) == Moved(|front|, Advanced(text, begin, hi, FRESH))
  {
    hide Advanced, Grow;
    AdvancedMoves(front, text, begin, hi, FRESH);
    SliceMoves(front, text, begin, Min(Advanced(text, begin, hi, FRESH).end, hi));
  }

  lemma {:induction false} RestMoves(front: string, text: string, offset: nat, hi: nat, number: nat, st: State)
    requires offset <= hi <= |text|
    ensures Rest(front + text, |front| + offset, |front| + hi, number, st) == Rest(text, offset, hi, number, st)
    decreases hi - offset, 1
  {
    hide NextNonSpace, TrimEnd, Rest, RestOfKey, Trimmed;
    NextNonSpaceMoves(front, text, offset, hi);
    var first := NextNonSpace(text, offset, hi);
    TrimEndMoves(front, text, first, hi);
    var last := TrimEnd(text, first, hi);
    RestIs(text, offset, hi, number, st);
    RestIs(front + text, |front| + offset, |front| + hi, number, st);
    if first != last {
      assert (front + text)[|front| + first] == text[first] && (front + text)[|front| + last - 1] == text[last - 1];
      if text[first] != ';' {
        if last - first >= 2 { SliceMoves(front, text, first + 1, last - 1); }
        RestOfKeyMoves(front, text, first, last, hi, number, st);
      }
    }
  }

  lemma {:induction false} RestOfKeyMoves(front: string, text: string, first: nat, last: nat, hi: nat, number: nat, st: State)
    requires first <= last <= hi <= |text|
    ensures RestOfKey(front + text, |front| + first, |front| + last, |front| + hi, number, st)
         == RestOfKey(text, first, last, hi, number, st)
    decreases hi - first, 0
  {
    hide KeyTokens, Taken, Advanced, Rest, Opened;
    KeyTokensMove(front, text, first, last, st.pending);
    KeyTokensMove(front, text, first, last, []);
    var keyLine := if st.pending == [] then number else st.pendingLine;
    var key := KeyTokens(text, first, last, st.pending);
    if key.equals.Some? {
      var onThisLine := KeyTokens(text, first, last, []).pending;
      var begin := key.equals.value + 1;
      var begun := Opened(st, key.pending, onThisLine, keyLine, number);
      TakenMoves(front, text, begin, hi, number, begun);
      var a := Advanced(text, begin, hi, FRESH);
      if a.finished { RestMoves(front, text, a.end, hi, number, Taken(text, begin, hi, number, begun)); }
    }
  }

  lemma LineMoves(front: string, text: string, lo: nat, hi: nat, number: nat, st: State)
    requires lo <= hi <= |text|
    ensures Line(front + text, |front| + lo, |front| + hi, number, st) == Line(text, lo, hi, number, st)
  {
    hide Rest, Advanced, Grow;
    AdvancedMoves(front, text, lo, hi, st.value);
    var a := Advanced(text, lo, hi, st.value);
    SliceMoves(front, text, lo, Max(lo, Min(a.end, hi)));
    RestMoves(front, text, lo, hi, number, st);
    if a.finished {
      var st' := if a.end > lo then Grow(st, text[lo..Min(a.end, hi)], true, number) else st;
      RestMoves(front, text, a.end, hi, number, st'.(value := a.state, inValue := false));
    }
  }

  lemma {:induction false} LineEndMoves(front: string, text: string, from: nat)
    requires from <= |text|
    ensures LineEnd(front + text, |front| + from) == |front| + LineEnd(text, from)
    decreases |text| - from
  {
    if from < |text| {
      assert (front + text)[|front| + from] == text[from];
      if text[from] != NEWLINE { LineEndMoves(front, text, from + 1); }
    }
  }

  lemma RawEndMoves(front: string, text: string, lo: nat, end: nat)
    requires lo <= end <= |text|
    ensures RawEnd(front + text, |front| + lo, |front| + end) == |front| + RawEnd(text, lo, end)
  {
    if end > lo { assert (front + text)[|front| + end - 1] == text[end - 1]; }
  }

  /** What is read of the lines of a text does not depend on the text in front of them, once the state the lines in
      front left is given. */
  lemma {:induction false} ScanMoves(front: string, text: string, cursor: nat, number: nat, st: State)
    requires cursor <= |text|
    ensures ScanFrom(front + text, |front| + cursor, number, st) == ScanFrom(text, cursor, number, st)
    decreases |text| - cursor
  {
    hide Line, LineEnd, RawEnd;
    LineEndMoves(front, text, cursor);
    var end := LineEnd(text, cursor);
    RawEndMoves(front, text, cursor, end);
    var hi := RawEnd(text, cursor, end);
    LineMoves(front, text, cursor, hi, number, st);
    if end < |text| { ScanMoves(front, text, end + 1, number + 1, Line(text, cursor, hi, number, st)); }
  }

  // ----- A text is its lines in turn -----

  function LinesIn(text: string): nat {
    if text == [] then 0 else (if text[0] == NEWLINE then 1 else 0) + LinesIn(text[1..])
  }

  /** Scanning on behind a line break is scanning the rest from the state the lines above left. */
  lemma {:induction false} ScanGoesOn(above: string, below: string, cursor: nat, number: nat, st: State)
    requires cursor <= |above|
    ensures var text := above + ([NEWLINE] + below);
      ScanFrom(text, cursor, number, st)
      == ScanFrom(below, 0, number + LinesIn(above[cursor..]) + 1, ScanFrom(above, cursor, number, st))
    decreases |above| - cursor
  {
    hide Line, LineEnd, RawEnd;
    var more := [NEWLINE] + below;
    var text := above + more;
    LineEndInFront(above, below, cursor);
    var end := LineEnd(above, cursor);
    var hi := RawEnd(above, cursor, end);
    SameLine(above, more, cursor, hi, number, st);
    var next := Line(above, cursor, hi, number, st);
    RawEndInFront(above, more, cursor, end);
    LinesUpTo(above, cursor, end);
    if end == |above| {
      assert above + [NEWLINE] + below == text;
      ScanMoves(above + [NEWLINE], below, 0, number + 1, next);
    } else {
      ScanGoesOn(above, below, end + 1, number + 1, next);
    }
  }

  lemma {:induction false} LineEndInFront(above: string, below: string, from: nat)
    requires from <= |above|
    ensures LineEnd(above + ([NEWLINE] + below), from) == LineEnd(above, from)
    decreases |above| - from
  {
    if from < |above| && above[from] != NEWLINE { LineEndInFront(above, below, from + 1); }
  }

  lemma RawEndInFront(above: string, more: string, lo: nat, end: nat)
    requires lo <= end <= |above|
    ensures RawEnd(above + more, lo, end) == RawEnd(above, lo, end)
  {
  }

  lemma {:induction false} LinesUpTo(text: string, from: nat, end: nat)
    requires from <= end <= |text| && end == LineEnd(text, from)
    ensures LinesIn(text[from..]) == if end == |text| then 0 else 1 + LinesIn(text[end + 1..])
    decreases end - from
  {
    if from < |text| {
      assert text[from..][1..] == text[from + 1..];
      if from < end { LinesUpTo(text, from + 1, end); }
    }
  }

  // ----- A comment at the end of a line -----

  /** Inside a bracket and outside a string. */
  predicate InBracket(v: ValueState) {
    v.depth >= 1 && !v.inString && !v.awaitingCall
  }

  lemma LeavesInside(text: string, at: nat, hi: nat, st: ValueState, word: Option<nat>)
    ensures var a := Leave(text, at, hi, st, word);
      && a.end == at && (a.finished ==> !st.inString) && (a.state.depth == st.depth) && (a.state.inString == st.inString)
      && (st.depth >= 1 ==> a == Advance(false, at, st))
  {
    hide ReadingKeyword;
  }

  /** What a walk up to a comment decides or leaves inside a bracket is what a walk into the comment does. */
  predicate Decided(a: Advance, comment: nat) {
    if a.finished then a.end < comment else InBracket(a.state)
  }

  lemma SameAhead(text: string, from: nat, comment: nat, hi: nat)
    requires from <= comment < hi <= |text| && text[comment] == ';'
    ensures NextNonSpace(text, from, hi) == NextNonSpace(text, from, comment) <= comment
  {
    var at := NextNonSpace(text, from, comment);
    NextNonSpaceIs(text, from, hi, at);
  }

  lemma {:induction false} WalkMeetsComment(text: string, at: nat, comment: nat, hi: nat, st: ValueState, word: Option<nat>)
    requires at <= comment + 1 <= hi <= |text| && text[comment] == ';' && (at == comment + 1 ==> st.inString)
    requires Decided(Walk(text, at, comment, st, word), comment)
    ensures Walk(text, at, hi, st, word) == Walk(text, at, comment, st, word)
    decreases hi + 1 - at, 1
  {
    hide Leave, ReadingKeyword, IsSpace, IsOpen, IsClose, IsIdentifierStart, TakeCharacter, OpenBracket, OpenString, CloseBracket,
      AwaitCall, NextNonSpace;
    LeavesInside(text, at, comment, st, word);
    LeavesInside(text, at, hi, st, word);
    if at < comment {
      var c := text[at];
      if st.inString {
        StringMeetsComment(text, at, comment, hi, st, word);
      } else if c == ';' {
        LeaveAlike(text, at, comment, hi, st, word);
      } else if c == '"' {
        WalkMeetsComment(text, at + 1, comment, hi, OpenString(st), None);
      } else if IsOpen(c) {
        WalkMeetsComment(text, at + 1, comment, hi, OpenBracket(st, c), None);
      } else if IsClose(c) {
        CloseMeetsComment(text, at, comment, hi, st, word);
      } else if IsSpace(c) {
        SpaceMeetsComment(text, at, comment, hi, st, word);
      } else {
        WalkMeetsComment(text, at + 1, comment, hi, TakeCharacter(st, c),
                         if st.depth == 0 && !st.seen && IsIdentifierStart(c) then Some(at) else word);
      }
    }
  }

  lemma LeaveAlike(text: string, at: nat, comment: nat, hi: nat, st: ValueState, word: Option<nat>)
    requires at < comment <= hi
    ensures Leave(text, at, hi, st, word) == Leave(text, at, comment, st, word)
  {
    hide ReadingKeyword;
  }

  lemma {:induction false} StringMeetsComment(text: string, at: nat, comment: nat, hi: nat, st: ValueState, word: Option<nat>)
    requires at < comment < hi <= |text| && text[comment] == ';' && st.inString
    requires Decided(Walk(text, at, comment, st, word), comment)
    ensures Walk(text, at, hi, st, word) == Walk(text, at, comment, st, word)
    decreases hi + 1 - at, 0
  {
    hide Leave, ReadingKeyword;
    var closed := st.(inString := false);
    if text[at] == '\\' {
      WalkMeetsComment(text, at + 2, comment, hi, st, word);
    } else if text[at] == '"' {
      if closed.depth == 0 {
        LeavesInside(text, at + 1, comment, closed, word);
        LeaveAlike(text, at + 1, comment, hi, closed, word);
      } else {
        WalkMeetsComment(text, at + 1, comment, hi, closed, word);
      }
    } else {
      WalkMeetsComment(text, at + 1, comment, hi, st, word);
    }
  }

  lemma {:induction false} CloseMeetsComment(text: string, at: nat, comment: nat, hi: nat, st: ValueState, word: Option<nat>)
    requires at < comment < hi <= |text| && text[comment] == ';' && !st.inString && IsClose(text[at])
    requires Decided(Walk(text, at, comment, st, word), comment)
    ensures Walk(text, at, hi, st, word) == Walk(text, at, comment, st, word)
    decreases hi + 1 - at, 0
  {
    CloseIsPlain(text[at]);
    hide Leave, IsOpen, IsClose, AwaitCall;
    var closed := CloseBracket(st);
    if closed.depth > 0 {
      WalkMeetsComment(text, at + 1, comment, hi, closed, None);
    } else if closed.annotation {
      WalkMeetsComment(text, at + 1, comment, hi, AwaitCall(closed).(annotation := false), None);
    } else {
      LeavesInside(text, at + 1, comment, closed, None);
      LeaveAlike(text, at + 1, comment, hi, closed, None);
    }
  }

  lemma CloseIsPlain(c: char)
    requires IsClose(c)
    ensures !IsOpen(c) && c != '"' && c != ';'
  {
  }

  lemma {:induction false} SpaceMeetsComment(text: string, at: nat, comment: nat, hi: nat, st: ValueState, word: Option<nat>)
    requires at < comment < hi <= |text| && text[comment] == ';' && !st.inString && IsSpace(text[at])
    requires Decided(Walk(text, at, comment, st, word), comment)
    ensures Walk(text, at, hi, st, word) == Walk(text, at, comment, st, word)
    decreases hi + 1 - at, 0
  {
    SpaceIsPlain(text[at]);
    hide Leave, ReadingKeyword, NextNonSpace, IsSpace, IsOpen, IsClose;
    SameAhead(text, at, comment, hi);
    LeaveAlike(text, at, comment, hi, st, word);
    if st.depth == 0 && st.seen {
      var look := NextNonSpace(text, at, comment);
      var called := (st.identifier && !ReadingKeyword(text, word, at)) || st.awaitingCall;
      if called && at < look < comment && OpensCall(text, look) { WalkMeetsComment(text, look, comment, hi, AwaitCall(st), None); }
    } else {
      WalkMeetsComment(text, at + 1, comment, hi, st, word);
    }
  }

  lemma AdvancedMeetsComment(text: string, lo: nat, comment: nat, hi: nat, st: ValueState)
    requires lo <= comment < hi <= |text| && text[comment] == ';'
    requires Decided(Advanced(text, lo, comment, st), comment)
    ensures Advanced(text, lo, hi, st) == Advanced(text, lo, comment, st)
  {
    hide Walk, NextNonSpace;
    SameAhead(text, lo, comment, hi);
    if st.awaitingCall {
      var at := NextNonSpace(text, lo, comment);
      if at < comment && OpensCall(text, at) { WalkMeetsComment(text, at, comment, hi, st.(awaitingCall := false), None); }
    } else {
      WalkMeetsComment(text, lo, comment, hi, st, None);
    }
  }

  lemma {:induction false} TokenMeetsComment(text: string, at: nat, last: nat, hi: nat, content: string)
    requires at <= last <= hi <= |text| && QuotedToken(text, at, last, content).closed
    ensures QuotedToken(text, at, hi, content) == QuotedToken(text, at, last, content)
    decreases last - at
  {
    if at < last {
      if text[at] == '\\' && at + 1 < last {
        TokenMeetsComment(text, at + 2, last, hi, content + [text[at + 1]]);
      } else if text[at] != '"' {
        TokenMeetsComment(text, at + 1, last, hi, content + [text[at]]);
      }
    }
  }

  /** A key closed by its `=` is closed by it however much of the line is looked at. */
  lemma {:induction false} KeyMeetsComment(text: string, at: nat, last: nat, hi: nat, pending: string)
    requires at <= last <= hi <= |text| && KeyTokens(text, at, last, pending).equals.Some?
    ensures KeyTokens(text, at, hi, pending) == KeyTokens(text, at, last, pending)
    decreases last - at
  {
    if at < last && text[at] != '=' {
      if text[at] == '"' {
        var q := QuotedToken(text, at + 1, last, []);
        TokenMeetsComment(text, at + 1, last, hi, []);
        KeyMeetsComment(text, q.at, last, hi, q.content);
      } else {
        KeyMeetsComment(text, at + 1, last, hi, if IsSpace(text[at]) then pending else pending + [text[at]]);
      }
    }
  }

  lemma TrimsBehind(text: string, first: nat, comment: nat, hi: nat)
    requires first <= comment < hi <= |text| && text[comment] == ';'
    ensures comment < TrimEnd(text, first, hi) <= hi && TrimEnd(text, first, hi) == TrimEnd(text, comment, hi)
    ensures TrimEnd(text, first, comment) <= comment
    decreases hi
  {
    if IsSpace(text[hi - 1]) && hi - 1 > comment { TrimsBehind(text, first, comment, hi - 1); }
  }

  /** The last character of the comment that is no space. */
  function CommentEnds(text: string, comment: nat, hi: nat): char
    requires comment < hi <= |text| && text[comment] == ';'
  {
    TrimsBehind(text, comment, comment, hi);
    text[TrimEnd(text, comment, hi) - 1]
  }

  lemma {:induction false} RestMeetsComment(text: string, offset: nat, comment: nat, hi: nat, number: nat, st: State)
    requires offset <= comment < hi <= |text| && text[comment] == ';' && !st.inValue && CommentEnds(text, comment, hi) != ']'
    requires var last := Rest(text, offset, comment, number, st); last.inValue && InBracket(last.value)
    ensures Rest(text, offset, hi, number, st) == Rest(text, offset, comment, number, st)
    decreases comment - offset, 1
  {
    hide NextNonSpace, TrimEnd, Rest, RestOfKey, Trimmed, InBracket;
    SameAhead(text, offset, comment, hi);
    var first := NextNonSpace(text, offset, comment);
    TrimsBehind(text, first, comment, hi);
    RestIs(text, offset, comment, number, st);
    RestIs(text, offset, hi, number, st);
    KeyMeetsEnd(text, first, TrimEnd(text, first, comment), TrimEnd(text, first, hi), comment, hi, number, st);
  }

  lemma {:induction false} KeyMeetsEnd(text: string, first: nat, last: nat, last2: nat, comment: nat, hi: nat, number: nat, st: State)
    requires first <= last <= comment < last2 <= hi <= |text| && text[comment] == ';' && !st.inValue
    requires CommentEnds(text, comment, hi) != ']'
    requires var next := RestOfKey(text, first, last, comment, number, st); next.inValue && InBracket(next.value)
    ensures RestOfKey(text, first, last2, hi, number, st) == RestOfKey(text, first, last, comment, number, st)
    decreases comment - first, 0
  {
    hide KeyTokens, Advanced, Rest, Opened, Grow, InBracket, CommentEnds;
    var key := KeyTokens(text, first, last, st.pending);
    if key.equals.Some? {
      ScanClosesAlike(text, first, last, st.pending);
      KeyMeetsComment(text, first, last, last2, st.pending);
      KeyMeetsComment(text, first, last, last2, []);
      var keyLine := if st.pending == [] then number else st.pendingLine;
      var begin := key.equals.value + 1;
      var a := Advanced(text, begin, comment, FRESH);
      var begun := Opened(st, key.pending, KeyTokens(text, first, last, []).pending, keyLine, number);
      StaysBegun(st, key.pending, KeyTokens(text, first, last, []).pending, keyLine, number, text[begin..Min(a.end, comment)], a.state);
      if a.finished && a.end == comment { RestAtEnd(text, comment, number, Taken(text, begin, comment, number, begun)); }
      AdvancedMeetsComment(text, begin, comment, hi, FRESH);
      AdvancedEnds(text, begin, comment, hi);
      if a.finished { RestMeetsComment(text, a.end, comment, hi, number, Taken(text, begin, comment, number, begun)); }
    }
  }

  /** Where a key closes does not depend on what earlier lines left of it. */
  lemma {:induction false} ScanClosesAlike(text: string, at: nat, hi: nat, pending: string)
    requires at <= hi <= |text|
    ensures KeyTokens(text, at, hi, pending).equals == KeyTokens(text, at, hi, []).equals
    decreases hi - at
  {
    if at < hi && text[at] != '=' && text[at] != '"' {
      var own: string := if IsSpace(text[at]) then [] else [text[at]];
      assert [] + own == own;
      ScanClosesAlike(text, at + 1, hi, pending + own);
      ScanClosesAlike(text, at + 1, hi, own);
      assert pending + [] == pending;
    }
  }

  lemma StaysBegun(st: State, key: string, keyOnLine: string, keyLine: nat, number: nat, piece: string, value: ValueState)
    ensures Grow(Opened(st, key, keyOnLine, keyLine, number), piece, false, number).(value := value).inValue == st.inValue
    ensures Grow(Opened(st, key, keyOnLine, keyLine, number), piece, false, number).(value := value).value == value
  {
    hide AppendPiece;
  }

  lemma RestAtEnd(text: string, hi: nat, number: nat, st: State)
    requires hi <= |text|
    ensures Rest(text, hi, hi, number, st) == st
  {
  }

  /** A walk that stops inside a bracket stops at the end of what it may look at. */
  lemma AdvancedEnds(text: string, lo: nat, comment: nat, hi: nat)
    requires lo <= comment < hi <= |text|
    ensures var a := Advanced(text, lo, comment, FRESH);
      Decided(a, comment) ==> text[lo..Min(a.end, comment)] == text[lo..Min(a.end, hi)]
  {
    hide Walk;
    WalkStopsInside(text, lo, comment, FRESH, None);
  }

  lemma {:induction false} WalkStopsInside(text: string, at: nat, hi: nat, st: ValueState, word: Option<nat>)
    requires at <= hi + 1 && hi <= |text| && (at == hi + 1 ==> st.inString)
    ensures var a := Walk(text, at, hi, st, word); a.end <= hi || a.state.inString
    decreases hi + 1 - at
  {
    hide Leave, ReadingKeyword, IsSpace, IsOpen, IsClose, IsIdentifierStart, TakeCharacter, OpenBracket, OpenString, CloseBracket,
      AwaitCall, NextNonSpace;
    LeavesInside(text, at, hi, st, word);
    if at < hi {
      var c := text[at];
      if st.inString {
        var closed := st.(inString := false);
        LeavesInside(text, at + 1, hi, closed, word);
        if c == '\\' {
          WalkStopsInside(text, at + 2, hi, st, word);
        } else {
          WalkStopsInside(text, at + 1, hi, if c == '"' then closed else st, word);
        }
      } else if c == '"' {
        WalkStopsInside(text, at + 1, hi, OpenString(st), None);
      } else if IsOpen(c) {
        WalkStopsInside(text, at + 1, hi, OpenBracket(st, c), None);
      } else if IsClose(c) {
        var closed := CloseBracket(st);
        LeavesInside(text, at + 1, hi, closed, None);
        WalkStopsInside(text, at + 1, hi, closed, None);
        WalkStopsInside(text, at + 1, hi, AwaitCall(closed).(annotation := false), None);
      } else if IsSpace(c) {
        var look := NextNonSpace(text, at, hi);
        if at < look < hi { WalkStopsInside(text, look, hi, AwaitCall(st), None); }
        WalkStopsInside(text, at + 1, hi, st, word);
      } else if c != ';' {
        WalkStopsInside(text, at + 1, hi, TakeCharacter(st, c),
                        if st.depth == 0 && !st.seen && IsIdentifierStart(c) then Some(at) else word);
      }
    }
  }

  lemma LineMeetsComment(text: string, lo: nat, comment: nat, hi: nat, number: nat, st: State)
    requires lo <= comment < hi <= |text| && text[comment] == ';' && CommentEnds(text, comment, hi) != ']'
    requires var last := Line(text, lo, comment, number, st); last.inValue && InBracket(last.value)
    ensures Line(text, lo, hi, number, st) == Line(text, lo, comment, number, st)
  {
    hide Rest, Advanced, Grow, InBracket, CommentEnds;
    if !st.inValue {
      RestMeetsComment(text, lo, comment, hi, number, st);
    } else {
      var a := Advanced(text, lo, comment, st.value);
      var st' := if a.end > lo then Grow(st, text[lo..Min(a.end, comment)], true, number) else st;
      var ended := st'.(value := a.state, inValue := false);
      if a.finished && a.end == comment { RestAtEnd(text, comment, number, ended); }
      AdvancedMeetsComment(text, lo, comment, hi, st.value);
      LineStopsInside(text, lo, comment, hi, st.value);
      if a.finished { RestMeetsComment(text, a.end, comment, hi, number, ended); }
    }
  }

  lemma LineStopsInside(text: string, lo: nat, comment: nat, hi: nat, st: ValueState)
    requires lo <= comment < hi <= |text|
    ensures var a := Advanced(text, lo, comment, st);
      Decided(a, comment) ==> text[lo..Min(a.end, comment)] == text[lo..Min(a.end, hi)]
  {
    hide Walk, NextNonSpace;
    WalkStopsInside(text, lo, comment, st, None);
    var at := NextNonSpace(text, lo, comment);
    WalkStopsInside(text, at, comment, st.(awaitingCall := false), None);
  }

  // ----- A comment in the middle of a file -----

  /** A comment: it stays on its line, and a line that would otherwise begin with `[` does not end in `]` with it. */
  predicate Comment(note: string) {
    note != [] && note[0] == ';' && NoNewline(note) && note[TrimEnd(note, 0, |note|) - 1] != ']'
  }

  /** The scan of everything so far stands inside a bracket of a value, and outside its strings. */
  predicate StandsInBracket(above: string) {
    var st := ScanFrom(above, 0, 1, START);
    st.inValue && InBracket(st.value) && (above != [] ==> above[|above| - 1] != '\r')
  }

  lemma CommentEndsAlike(above: string, note: string)
    requires Comment(note)
    ensures var text := above + note;
      var hi := RawEnd(text, |above|, |text|);
      |above| < hi && text[|above|] == ';' && CommentEnds(text, |above|, hi) != ']'
  {
    var text := above + note;
    var hi := RawEnd(text, |above|, |text|);
    TrimEndMoves(above, note, 0, |note|);
    assert IsSpace('\r');
    assert text[|above|] == note[0];
    TrimsBehind(text, |above|, |above|, |text|);
    var last := TrimEnd(note, 0, |note|);
    assert text[|above| + last - 1] == note[last - 1];
  }

  lemma {:induction false} AboveMeetsComment(above: string, note: string, cursor: nat, number: nat, st: State)
    requires cursor <= |above| && Comment(note) && (cursor < |above| ==> above[|above| - 1] != '\r')
    requires var last := ScanFrom(above, cursor, number, st); last.inValue && InBracket(last.value)
    ensures ScanFrom(above + note, cursor, number, st) == ScanFrom(above, cursor, number, st)
    decreases |above| - cursor
  {
    hide Line, LineEnd, InBracket, CommentEnds, Comment;
    var text := above + note;
    var end := LineEnd(above, cursor);
    if end == |above| {
      LastEndMoves(above, note, cursor);
      CommentEndsAlike(above, note);
      var hi := RawEnd(text, cursor, |text|);
      SameLine(above, note, cursor, |above|, number, st);
      LineMeetsComment(text, cursor, |above|, hi, number, st);
    } else {
      EndInFront(above, note, cursor);
      RawEndInFront(above, note, cursor, end);
      var hi := RawEnd(above, cursor, end);
      SameLine(above, note, cursor, hi, number, st);
      AboveMeetsComment(above, note, end + 1, number + 1, Line(above, cursor, hi, number, st));
    }
  }

  lemma {:induction false} EndInFront(above: string, note: string, from: nat)
    requires from <= |above| && LineEnd(above, from) < |above|
    ensures LineEnd(above + note, from) == LineEnd(above, from)
    decreases |above| - from
  {
    assert (above + note)[from] == above[from];
    if above[from] != NEWLINE { EndInFront(above, note, from + 1); }
  }

  /** The last line goes on to the end of the comment. */
  lemma LastEndMoves(above: string, note: string, from: nat)
    requires from <= |above| && LineEnd(above, from) == |above| && Comment(note) && (from < |above| ==> above[|above| - 1] != '\r')
    ensures var text := above + note;
      && LineEnd(text, from) == |text| && RawEnd(above, from, |above|) == |above|
      && RawEnd(text, from, |text|) == RawEnd(text, |above|, |text|)
  {
    var text := above + note;
    forall i | from <= i < |text| ensures text[i] != NEWLINE {
      if i >= |above| { assert text[i] == note[i - |above|]; }
    }
    assert LineEnd(text, from) == |text|;
  }

  /** A comment written behind a line that leaves a value inside a bracket changes nothing that is read of the
      file, whatever stands above and below. */
  lemma CommentIsIdle(above: string, note: string, below: string)
    requires StandsInBracket(above) && Comment(note)
    ensures ScanText(above + (note + ([NEWLINE] + below))) == ScanText(above + ([NEWLINE] + below))
  {
    hide ScanFrom, InBracket;
    AboveMeetsComment(above, note, 0, 1, START);
    Regrouped(above, note, [NEWLINE] + below);
    ScanGoesOn(above + note, below, 0, 1, START);
    ScanGoesOn(above, below, 0, 1, START);
    LinesAlike(above, note);
    assert (above + note)[0..] == above + note && above[0..] == above;
  }

  lemma {:induction false} LinesAlike(above: string, note: string)
    requires Comment(note)
    ensures LinesIn(above + note) == LinesIn(above)
    decreases |above|
  {
    hide Comment;
    if above == [] {
      assert above + note == note;
      NoLinesIn(note);
    } else {
      assert (above + note)[1..] == above[1..] + note;
      LinesAlike(above[1..], note);
    }
  }

  lemma NoLinesIn(note: string)
    requires Comment(note)
    ensures LinesIn(note) == 0
  {
    NoBreaksIn(note);
  }

  lemma {:induction false} NoBreaksIn(s: string)
    requires NoNewline(s)
    ensures LinesIn(s) == 0
    decreases |s|
  {
    if s != [] { NoBreaksIn(s[1..]); }
  }
}
