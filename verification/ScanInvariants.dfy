/** What holds of a scan of any text at all. */
module ScanInvariants {
  // How far the end of a value may lie past its line, that keys waiting for their `=` change nothing else, that
  // entries and headings come in line order, and that what was registered once is never changed.

  import opened Text
  import opened ConfigScan

  // ----- One line -----

  /** A line of value text is left past its end only in the middle of a string, on a trailing
      backslash, and then the value is not finished. */
  lemma {:induction false} WalkOverruns(text: string, at: nat, hi: nat, st: ValueState, word: Option<nat>)
    requires at <= hi && hi <= |text|
    ensures var a := Walk(text, at, hi, st, word);
      a.end == hi + 1 ==> !a.finished && a.state.inString && hi > at && text[hi - 1] == '\\'
    decreases hi - at
  {
    if at < hi {
      hide Leave, OpenString, OpenBracket, CloseBracket, TakeCharacter, ReadingKeyword;
      var a := Walk(text, at, hi, st, word);
      var c := text[at];
      if st.inString {
        if c == '\\' {
          if at + 2 <= hi { WalkOverruns(text, at + 2, hi, st, word); } else { LeavesAsIs(text, at + 2, hi, st, word); }
        } else if c != '"' {
          WalkOverruns(text, at + 1, hi, st, word);
        } else if st.depth > 0 {
          WalkOverruns(text, at + 1, hi, st.(inString := false), word);
        } else {
          LeavesAsIs(text, at + 1, hi, st.(inString := false), word);
        }
      } else {
        WalkOutsideOverruns(text, at, hi, st, word);
      }
    } else {
      LeavesAsIs(text, at, hi, st, word);
    }
  }

  lemma LeavesAsIs(text: string, at: nat, hi: nat, st: ValueState, word: Option<nat>)
    ensures var a := Leave(text, at, hi, st, word);
      a.end == at && (st.inString ==> !a.finished && a.state == st)
  {
  }

  lemma {:induction false} WalkOutsideOverruns(text: string, at: nat, hi: nat, st: ValueState, word: Option<nat>)
    requires at < hi && hi <= |text| && !st.inString
    ensures var a := Walk(text, at, hi, st, word);
      a.end == hi + 1 ==> !a.finished && a.state.inString && hi > at && text[hi - 1] == '\\'
    decreases hi - at, 0
  {
    hide Leave, OpenString, OpenBracket, CloseBracket, TakeCharacter, ReadingKeyword;
    var c := text[at];
    LeavesAsIs(text, at, hi, st, word);
    LeavesAsIs(text, at + 1, hi, CloseBracket(st), None);
    if c == '"' {
      WalkOverruns(text, at + 1, hi, OpenString(st), None);
    } else if IsOpen(c) {
      WalkOverruns(text, at + 1, hi, OpenBracket(st, c), None);
    } else if IsClose(c) {
      WalkOverruns(text, at + 1, hi, CloseBracket(st), None);
      WalkOverruns(text, at + 1, hi, AwaitCall(CloseBracket(st)).(annotation := false), None);
    } else if IsSpace(c) {
      var look := NextNonSpace(text, at, hi);
      if look < hi && look > at { WalkOverruns(text, look, hi, AwaitCall(st), None); }
      WalkOverruns(text, at + 1, hi, st, word);
    } else if c != ';' {
      WalkOverruns(text, at + 1, hi, TakeCharacter(st, c),
                   if st.depth == 0 && !st.seen && IsIdentifierStart(c) then Some(at) else word);
    }
  }

  /** What one line contributes to a value ends inside the line, except after a trailing backslash in
      a string, and a finished value always ends inside it. */
  lemma AdvanceStaysInside(text: string, lo: nat, hi: nat, st: ValueState)
    requires lo <= hi <= |text|
    ensures var a := Advanced(text, lo, hi, st);
      && lo <= a.end <= hi + 1 && (a.finished ==> a.end <= hi)
      && (a.end > hi ==> a.state.inString && hi > lo && text[hi - 1] == '\\')
  {
    if st.awaitingCall {
      var at := NextNonSpace(text, lo, hi);
      if at < hi && OpensCall(text, at) { WalkOverruns(text, at, hi, st.(awaitingCall := false), None); }
    } else {
      WalkOverruns(text, lo, hi, st, None);
    }
  }

  // ----- Keys -----

  /** Whether the key text of `[at, hi)` holds a quote before the `=` that closes the key. */
  predicate QuotesBeforeEquals(text: string, at: nat, hi: nat)
    requires at <= hi <= |text|
  {
    var equals := KeyTokens(text, at, hi, []).equals;
    '"' in text[at..if equals.Some? then equals.value else hi]
  }

  /** Where a key closes does not depend on what earlier lines left pending, and that pending text is
      either kept in front of the line's own tokens or, when the line holds a quote, dropped. */
  lemma {:induction false} PendingOnlyPrefixes(text: string, at: nat, hi: nat, pending: string)
    requires at <= hi <= |text|
    ensures var own := KeyTokens(text, at, hi, []);
      KeyTokens(text, at, hi, pending)
      == Key((if QuotesBeforeEquals(text, at, hi) then [] else pending) + own.pending, own.equals)
    decreases hi - at
  {
    if at < hi && text[at] != '=' {
      var stop := KeyTokens(text, at, hi, []).equals;
      var end := if stop.Some? then stop.value else hi;
      if text[at] == '"' {
        assert text[at..end][0] == '"';
      } else {
        var own: string := if IsSpace(text[at]) then [] else [text[at]];
        PendingOnlyPrefixes(text, at + 1, hi, pending + own);
        PendingOnlyPrefixes(text, at + 1, hi, own);
        var later := KeyTokens(text, at + 1, hi, []).pending;
        assert text[at..end] == [text[at]] + text[at + 1..end];
        assert [] + own == own;
        Regrouped(pending, own, later);
      }
    } else {
      assert pending + [] == pending;
    }
  }

  // ----- Lines -----

  predicate EntryOrdered(e: Entry) {
    1 <= e.keyLine <= e.line <= e.valueEndLine && (e.joined <==> e.keyLine != e.line)
  }

  predicate EntriesOrdered(entries: seq<Entry>) {
    && (forall i :: 0 <= i < |entries| ==> EntryOrdered(entries[i]))
    && (forall i :: 0 < i < |entries| ==> entries[i - 1].valueEndLine <= entries[i].keyLine)
  }

  function LastLine(st: State): nat {
    if st.entries == [] then 1 else st.entries[|st.entries| - 1].valueEndLine
  }

  /** What every line keeps, `number` lines in. */
  predicate Orderly(st: State, number: nat) {
    && number >= 1
    && EntriesOrdered(st.entries) && LastLine(st) <= number
    && (st.inValue ==> st.entries != [] && st.pending == [])
    && (st.pending != [] ==> LastLine(st) <= st.pendingLine <= number)
    && (forall i :: 0 <= i < |st.headers| ==> 1 <= st.headers[i].line <= number)
    && (forall i :: 0 < i < |st.headers| ==> st.headers[i - 1].line <= st.headers[i].line)
  }

  lemma GrowKeepsOrder(st: State, piece: string, reached: bool, number: nat)
    requires Orderly(st, number) && st.entries != [] && st.pending == []
    ensures Orderly(Grow(st, piece, reached, number), number)
    ensures Grow(st, piece, reached, number).entries != [] && Grow(st, piece, reached, number).pending == []
  {
    hide AppendPiece;
    var entries := Grow(st, piece, reached, number).entries;
    assert forall i :: 0 <= i < |entries| - 1 ==> entries[i] == st.entries[i];
  }

  lemma OpenKeepsOrder(st: State, key: string, keyOnLine: string, keyLine: nat, number: nat)
    requires Orderly(st, number) && !st.inValue && LastLine(st) <= keyLine <= number
    ensures Orderly(Opened(st, key, keyOnLine, keyLine, number), number)
  {
  }

  lemma {:induction false} RestKeepsOrder(text: string, offset: nat, hi: nat, number: nat, st: State)
    requires offset <= hi <= |text| && Orderly(st, number) && !st.inValue
    ensures Orderly(Rest(text, offset, hi, number, st), number)
    decreases hi - offset
  {
    hide Orderly, Grow, Opened, KeyTokens, Advanced, Trimmed;
    var first := NextNonSpace(text, offset, hi);
    var last := TrimEnd(text, first, hi);
    if first == last || text[first] == ';' {
      return;
    }
    if st.pending == [] && last - first >= 2 && text[first] == '[' && text[last - 1] == ']' {
      HeaderKeepsOrder(st, Trimmed(text[first + 1..last - 1]), number);
      return;
    }
    var keyLine := if st.pending == [] then number else st.pendingLine;
    var key := KeyTokens(text, first, last, st.pending);
    KeyLineIsOrdered(st, number);
    if key.equals.None? {
      PendingKeepsOrder(st, key.pending, keyLine, number);
    } else {
      var begin := key.equals.value + 1;
      var a := Advanced(text, begin, hi, FRESH);
      var st1 := Opened(st, key.pending, KeyTokens(text, first, last, []).pending, keyLine, number);
      OpenKeepsOrder(st, key.pending, KeyTokens(text, first, last, []).pending, keyLine, number);
      OpensOne(st, key.pending, KeyTokens(text, first, last, []).pending, keyLine, number);
      var st2 := Grow(st1, text[begin..Min(a.end, hi)], false, number);
      GrowKeepsOrder(st1, text[begin..Min(a.end, hi)], false, number);
      ValueKeepsOrder(st2, a.state, number);
      GrowKeepsMode(st1, text[begin..Min(a.end, hi)], false, number);
      if a.finished { RestKeepsOrder(text, a.end, hi, number, st2.(value := a.state)); }
    }
  }

  lemma OpensOne(st: State, key: string, keyOnLine: string, keyLine: nat, number: nat)
    ensures var o := Opened(st, key, keyOnLine, keyLine, number);
      o.entries != [] && o.pending == [] && o.inValue == st.inValue
  {
  }

  lemma GrowKeepsMode(st: State, piece: string, reached: bool, number: nat)
    ensures Grow(st, piece, reached, number).inValue == st.inValue
  {
  }

  lemma HeaderKeepsOrder(st: State, name: string, number: nat)
    requires Orderly(st, number)
    ensures Orderly(st.(section := name, headers := st.headers + [Header(name, number)]), number)
  {
  }

  lemma KeyLineIsOrdered(st: State, number: nat)
    requires Orderly(st, number)
    ensures LastLine(st) <= (if st.pending == [] then number else st.pendingLine) <= number
  {
  }

  lemma PendingKeepsOrder(st: State, pending: string, keyLine: nat, number: nat)
    requires Orderly(st, number) && !st.inValue && LastLine(st) <= keyLine <= number
    ensures Orderly(st.(pending := pending, pendingLine := keyLine), number)
  {
  }

  lemma ValueKeepsOrder(st: State, value: ValueState, number: nat)
    requires Orderly(st, number) && st.entries != [] && st.pending == []
    ensures Orderly(st.(value := value), number) && Orderly(st.(value := value, inValue := true), number)
    ensures Orderly(st.(value := value, inValue := false), number)
  {
  }

  lemma LineKeepsOrder(text: string, lo: nat, hi: nat, number: nat, st: State)
    requires lo <= hi <= |text| && Orderly(st, number)
    ensures Orderly(Line(text, lo, hi, number, st), number)
  {
    hide Grow, Advanced, Rest, EntriesOrdered;
    if !st.inValue {
      RestKeepsOrder(text, lo, hi, number, st);
    } else {
      var a := Advanced(text, lo, hi, st.value);
      var piece := text[lo..Min(a.end, hi)];
      GrowKeepsOrder(st, piece, true, number);
      var st' := if a.end > lo then Grow(st, piece, true, number) else st;
      ValueKeepsOrder(st', a.state, number);
      GrowKeepsMode(st, piece, true, number);
      assert !a.finished ==> st'.(value := a.state) == st'.(value := a.state, inValue := true);
      if a.finished { RestKeepsOrder(text, a.end, hi, number, st'.(value := a.state, inValue := false)); }
    }
  }

  lemma {:induction false} ScanKeepsOrder(text: string, cursor: nat, number: nat, st: State) returns (last: nat)
    requires cursor <= |text| && Orderly(st, number)
    ensures Orderly(ScanFrom(text, cursor, number, st), last)
    decreases |text| - cursor
  {
    hide Line, Orderly;
    var end := LineEnd(text, cursor);
    LineKeepsOrder(text, cursor, RawEnd(text, cursor, end), number, st);
    var st' := Line(text, cursor, RawEnd(text, cursor, end), number, st);
    last := number;
    if end < |text| {
      LaterKeepsOrder(st', number);
      last := ScanKeepsOrder(text, end + 1, number + 1, st');
    }
  }

  lemma LaterKeepsOrder(st: State, number: nat)
    requires Orderly(st, number)
    ensures Orderly(st, number + 1)
  {
  }

  /** On any text at all the entries come in file order and their line spans never overlap: each has
      key_line <= line <= value_end_line, and ends no later than the line the next one's key starts on.
      Headers come in order too. */
  lemma ScanIsOrdered(text: string)
    ensures var s := ScanText(text);
      && EntriesOrdered(s.entries)
      && (forall i :: 0 < i < |s.headers| ==> s.headers[i - 1].line <= s.headers[i].line)
  {
    var last := ScanKeepsOrder(text, 0, 1, START);
  }

  // ----- What is registered stays -----

  /** Entries before `keep` never change again. */
  predicate Keeps(before: State, after: State, keep: nat) {
    |before.entries| >= keep && |after.entries| >= keep && after.entries[..keep] == before.entries[..keep]
  }

  lemma OneEntryMore(st: State, key: string, keyOnLine: string, keyLine: nat, number: nat, piece: string,
                     value: ValueState, keep: nat)
    requires keep <= |st.entries|
    ensures var st1 := Grow(Opened(st, key, keyOnLine, keyLine, number), piece, false, number).(value := value);
      Keeps(st, st1, keep) && |st1.entries| == |st.entries| + 1 && st1.inValue == st.inValue
  {
    hide AppendPiece;
  }

  lemma {:induction false} RestKeeps(text: string, offset: nat, hi: nat, number: nat, st: State, keep: nat)
    requires offset <= hi <= |text| && keep <= |st.entries|
    ensures Keeps(st, Rest(text, offset, hi, number, st), keep)
    ensures var after := Rest(text, offset, hi, number, st);
      !st.inValue && after.inValue ==> |after.entries| > |st.entries|
    ensures |Rest(text, offset, hi, number, st).entries| >= |st.entries|
    decreases hi - offset
  {
    hide KeyTokens, Advanced, Trimmed, Grow, Opened, NextNonSpace, TrimEnd;
    var first := NextNonSpace(text, offset, hi);
    var last := TrimEnd(text, first, hi);
    var key := KeyTokens(text, first, last, st.pending);
    if first != last && key.equals.Some? {
      var begin := key.equals.value + 1;
      var a := Advanced(text, begin, hi, FRESH);
      var piece := text[begin..Min(a.end, hi)];
      var onThisLine := KeyTokens(text, first, last, []).pending;
      var keyLine := if st.pending == [] then number else st.pendingLine;
      OneEntryMore(st, key.pending, onThisLine, keyLine, number, piece, a.state, keep);
      if a.finished {
        var st1 := Grow(Opened(st, key.pending, onThisLine, keyLine, number), piece, false, number).(value := a.state);
        RestKeeps(text, a.end, hi, number, st1, keep);
      }
    }
  }

  lemma {:induction false} ScanKeeps(text: string, cursor: nat, number: nat, st: State, keep: nat)
    requires cursor <= |text| && keep <= |st.entries| && (st.inValue ==> keep < |st.entries|)
    ensures Keeps(st, ScanFrom(text, cursor, number, st), keep)
    decreases |text| - cursor
  {
    hide Advanced, Rest, AppendPiece;
    var end := LineEnd(text, cursor);
    var hi := RawEnd(text, cursor, end);
    var st' := Line(text, cursor, hi, number, st);
    if st.inValue {
      var a := Advanced(text, cursor, hi, st.value);
      var grown := if a.end > cursor then Grow(st, text[cursor..Min(a.end, hi)], true, number) else st;
      assert grown.entries[..keep] == st.entries[..keep];
      if a.finished { RestKeeps(text, a.end, hi, number, grown.(value := a.state, inValue := false), keep); }
    } else {
      RestKeeps(text, cursor, hi, number, st, keep);
    }
    if end < |text| { ScanKeeps(text, end + 1, number + 1, st', keep); }
  }
}
