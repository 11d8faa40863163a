/** The line rules every ConfigFile shares: which keys, values and headers a text registers. */
module ConfigScan {
  // A view of the text is a pair of bounds `[lo, hi)` into it, so every offset here is one into the file.

  import opened Text

  datatype ValueState = ValueState(
    depth: nat,
    inString: bool,
    seen: bool,
    identifier: bool,       // all read so far outside brackets spells a name
    awaitingCall: bool,     // what was read may go on with an opening bracket, here or further down
    annotation: bool)       // the open brackets hold a container's element type

  const FRESH: ValueState := ValueState(0, false, false, false, false, false)

  datatype Entry = Entry(
    section: string,
    key: string,
    valueText: string,
    keyOnLine: string,
    keyLine: nat,
    line: nat,
    valueEndLine: nat,
    joined: bool)

  datatype Header = Header(name: string, line: nat)

  datatype Scan = Scan(entries: seq<Entry>, headers: seq<Header>, complete: bool, trailingKey: bool)

  // ----- One line of value text -----

  datatype Advance = Advance(finished: bool, end: nat, state: ValueState)

  predicate ReadingKeyword(text: string, word: Option<nat>, end: nat) {
    word.Some? && word.value <= end <= |text| && IsValueKeyword(text[word.value..end])
  }

  predicate OpensCall(text: string, at: nat)
    requires at < |text|
  {
    text[at] == '(' || text[at] == '['
  }

  // What one character does to the state outside a string.

  function OpenString(st: ValueState): ValueState {
    st.(inString := true, seen := true, identifier := false)
  }

  /** After a name a `[` opens an element type; anywhere else it opens an array. */
  function OpenBracket(st: ValueState, c: char): ValueState {
    var within :=
      if st.depth == 0
      then st.(annotation := c == '[' && (st.identifier || st.awaitingCall), awaitingCall := false) else st;
    within.(depth := st.depth + 1, seen := true, identifier := false)
  }

  function CloseBracket(st: ValueState): ValueState {
    st.(depth := if st.depth > 0 then st.depth - 1 else 0, seen := true, identifier := false)
  }

  function AwaitCall(st: ValueState): ValueState {
    st.(identifier := false, awaitingCall := true)
  }

  function TakeCharacter(st: ValueState, c: char): ValueState {
    var read :=
      if st.depth > 0 then st
      else st.(identifier := if st.seen then st.identifier && IsIdentifierChar(c) else IsIdentifierStart(c));
    read.(seen := true)
  }

  /** What follows the walk however it left its loop at `at`. */
  function Leave(text: string, at: nat, hi: nat, st: ValueState, word: Option<nat>): Advance {
    var last :=
      if at >= hi && st.depth == 0 && !st.inString && st.identifier && !ReadingKeyword(text, word, at)
      then AwaitCall(st) else st;
    Advance(!last.inString && last.depth == 0 && last.seen && !last.awaitingCall, at, last)
  }

  /** The walk's loop at `at`; `word` is the start of a name not yet read to its end. */
  function Walk(text: string, at: nat, hi: nat, st: ValueState, word: Option<nat>): (a: Advance)
    requires at <= hi + 1 && hi <= |text| && (at == hi + 1 ==> st.inString)
    ensures at <= a.end <= hi + 1
    ensures a.finished ==> a.end <= hi
    decreases hi + 1 - at
  {
    if at >= hi then Leave(text, at, hi, st, word)
    else
      var c := text[at];
      if st.inString then
        if c == '\\' then Walk(text, at + 2, hi, st, word)
        else if c == '"' then
          var closed := st.(inString := false);
          if closed.depth == 0 then Leave(text, at + 1, hi, closed, word) else Walk(text, at + 1, hi, closed, word)
        else Walk(text, at + 1, hi, st, word)
      else if c == ';' then Leave(text, at, hi, st, word)
      else if c == '"' then Walk(text, at + 1, hi, OpenString(st), None)
      else if IsOpen(c) then Walk(text, at + 1, hi, OpenBracket(st, c), None)
      else if IsClose(c) then
        var closed := CloseBracket(st);
        if closed.depth > 0 then Walk(text, at + 1, hi, closed, None)
        else if closed.annotation then Walk(text, at + 1, hi, AwaitCall(closed).(annotation := false), None)
        else Leave(text, at + 1, hi, closed, None)
      else if IsSpace(c) then
        if st.depth == 0 && st.seen then
          if (st.identifier && !ReadingKeyword(text, word, at)) || st.awaitingCall then
            var look := NextNonSpace(text, at, hi);
            if look >= hi then Advance(false, hi, AwaitCall(st))
            else if OpensCall(text, look) then Walk(text, look, hi, AwaitCall(st), None)
            else Leave(text, at, hi, st, word)
          else Leave(text, at, hi, st, word)
        else Walk(text, at + 1, hi, st, word)
      else
        Walk(text, at + 1, hi, TakeCharacter(st, c),
             if st.depth == 0 && !st.seen && IsIdentifierStart(c) then Some(at) else word)
  }

  /** One line `[lo, hi)` of value text, continued from the state the line above left. */
  function Advanced(text: string, lo: nat, hi: nat, st: ValueState): (a: Advance)
    requires lo <= hi <= |text|
    ensures lo <= a.end <= hi + 1
    ensures a.finished ==> a.end <= hi
  {
    if st.awaitingCall then
      var at := NextNonSpace(text, lo, hi);
      if at >= hi then Advance(false, hi, st)
      else if !OpensCall(text, at) then Advance(true, lo, st)
      else Walk(text, at, hi, st.(awaitingCall := false), None)
    else Walk(text, lo, hi, st, None)
  }

  method AdvanceValue(text: string, lo: nat, hi: nat, state: ValueState)
    returns (finished: bool, end: nat, st: ValueState)
    requires lo <= hi <= |text|
    ensures Advance(finished, end, st) == Advanced(text, lo, hi, state)
  {
    hide Walk, NextNonSpace;
    st := state;
    var index := lo;
    if st.awaitingCall {
      index := FindNonSpace(text, lo, hi);
      if index >= hi { return false, hi, st; }
      if text[index] != '(' && text[index] != '[' { return true, lo, st; }
      st := st.(awaitingCall := false);
    }
    finished, end, st := WalkLine(text, index, hi, st);
  }

  /** The loop over the line's characters. */
  method WalkLine(text: string, lo: nat, hi: nat, state: ValueState) returns (finished: bool, end: nat, st: ValueState)
    requires lo <= hi <= |text|
    ensures Advance(finished, end, st) == Walk(text, lo, hi, state, None)
  {
    hide IsOpen, IsClose, IsSpace, IsIdentifierChar, IsIdentifierStart, ReadingKeyword, NextNonSpace,
      OpenString, OpenBracket, CloseBracket, TakeCharacter, AwaitCall, Leave;
    st := state;
    var index := lo;
    var wordStart: Option<nat> := None;
    ghost var goal := Walk(text, lo, hi, state, None);
    while index < hi
      invariant lo <= index <= hi + 1 && (index == hi + 1 ==> st.inString)
      invariant Walk(text, index, hi, st, wordStart) == goal
      decreases hi - index
    {
      var character := text[index];
      if st.inString {
        if character == '\\' {
          index := index + 2;
          continue;
        }
        if character == '"' {
          st := st.(inString := false);
          if st.depth == 0 {
            index := index + 1;
            break;
          }
        }
        index := index + 1;
        continue;
      }
      if character == ';' { break; }
      if character == '"' {
        st := OpenString(st);
        wordStart := None;
        index := index + 1;
        continue;
      }
      if IsOpen(character) {
        st := OpenBracket(st, character);
        wordStart := None;
        index := index + 1;
        continue;
      }
      if IsClose(character) {
        st := CloseBracket(st);
        wordStart := None;
        index := index + 1;
        if st.depth == 0 {
          if st.annotation {
            st := AwaitCall(st).(annotation := false);
            continue;
          }
          break;
        }
        continue;
      }
      if IsSpace(character) {
        if st.depth == 0 && st.seen {
          if (st.identifier && !ReadingKeyword(text, wordStart, index)) || st.awaitingCall {
            var look := FindNonSpace(text, index, hi);
            if look >= hi {
              return false, hi, AwaitCall(st);
            }
            if OpensCall(text, look) {
              st := AwaitCall(st);
              wordStart := None;
              index := look;
              continue;
            }
          }
          break;
        }
        index := index + 1;
        continue;
      }
      if st.depth == 0 && !st.seen && IsIdentifierStart(character) { wordStart := Some(index); }
      st := TakeCharacter(st, character);
      index := index + 1;
    }
    finished, end, st := LeaveLoop(text, index, hi, st, wordStart);
  }

  method LeaveLoop(text: string, index: nat, hi: nat, state: ValueState, wordStart: Option<nat>)
    returns (finished: bool, end: nat, st: ValueState)
    ensures Advance(finished, end, st) == Leave(text, index, hi, state, wordStart)
  {
    st := state;
    if index >= hi && st.depth == 0 && !st.inString && st.identifier && !ReadingKeyword(text, wordStart, index) {
      // Nothing on this line says whether the name is called.
      st := AwaitCall(st);
    }
    end := index;
    finished := !st.inString && st.depth == 0 && st.seen && !st.awaitingCall;
  }

  // ----- One line of key text -----

  datatype Quoted = Quoted(content: string, at: nat, closed: bool)

  /** The rest of a quoted token once its first quote is read. */
  function QuotedToken(text: string, at: nat, hi: nat, content: string): (q: Quoted)
    requires at <= hi <= |text|
    ensures at <= q.at <= hi
    decreases hi - at
  {
    if at >= hi then Quoted(content, at, false)
    else if text[at] == '\\' && at + 1 < hi then QuotedToken(text, at + 2, hi, content + [text[at + 1]])
    else if text[at] == '"' then Quoted(content, at + 1, true)
    else QuotedToken(text, at + 1, hi, content + [text[at]])
  }

  datatype Key = Key(pending: string, equals: Option<nat>)

  /** The key tokens of `[at, hi)` joined onto `pending`, up to the first `=` outside quotes. */
  function KeyTokens(text: string, at: nat, hi: nat, pending: string): (k: Key)
    requires at <= hi <= |text|
    ensures k.equals.Some? ==> at <= k.equals.value < hi && text[k.equals.value] == '='
    decreases hi - at
  {
    if at >= hi then Key(pending, None)
    else if text[at] == '=' then Key(pending, Some(at))
    else if text[at] == '"' then
      var q := QuotedToken(text, at + 1, hi, []);
      if !q.closed then Key(q.content, None) else KeyTokens(text, q.at, hi, q.content)
    else KeyTokens(text, at + 1, hi, if IsSpace(text[at]) then pending else pending + [text[at]])
  }

  method AppendKeyTokens(text: string, lo: nat, hi: nat, soFar: string) returns (key: Key)
    requires lo <= hi <= |text|
    ensures key == KeyTokens(text, lo, hi, soFar)
  {
    var pending := soFar;
    var index := lo;
    while index < hi
      invariant lo <= index <= hi && KeyTokens(text, index, hi, pending) == KeyTokens(text, lo, hi, soFar)
    {
      var character := text[index];
      if character == '=' { return Key(pending, Some(index)); }
      if character == '"' {
        var content: string := [];
        index := index + 1;
        var closed := false;
        ghost var token := QuotedToken(text, index, hi, []);
        while index < hi
          invariant index <= hi && !closed && QuotedToken(text, index, hi, content) == token
        {
          if text[index] == '\\' && index + 1 < hi {
            content := content + [text[index + 1]];
            index := index + 2;
            continue;
          }
          if text[index] == '"' {
            closed := true;
            index := index + 1;
            break;
          }
          content := content + [text[index]];
          index := index + 1;
        }
        // Quoted text replaces whatever was read of the key before it.
        pending := content;
        if !closed { return Key(pending, None); }
        continue;
      }
      if !IsSpace(character) { pending := pending + [character]; }
      index := index + 1;
    }
    return Key(pending, None);
  }

  // ----- A value over several lines -----

  /** The value text with the trimmed piece of one more line below it. */
  function AppendPiece(valueText: string, piece: string): string {
    var trimmed := Trimmed(piece);
    if trimmed == [] then valueText
    else if valueText == [] then trimmed else valueText + [NEWLINE] + trimmed
  }

  method AppendValueText(valueText: string, text: string, lo: nat, hi: nat) returns (longer: string)
    requires lo <= hi <= |text|
    ensures longer == AppendPiece(valueText, text[lo..hi])
  {
    var piece := text[lo..hi];
    var first, last := TrimmedView(piece, 0, |piece|);
    longer := valueText;
    if first == last { return; }
    if longer != [] { longer := longer + [NEWLINE]; }
    longer := longer + piece[first..last];
  }

  // ----- The whole text -----

  datatype State = State(
    entries: seq<Entry>,
    headers: seq<Header>,
    pending: string,
    pendingLine: nat,
    section: string,
    value: ValueState,
    inValue: bool)

  const START: State := State([], [], [], 0, [], FRESH, false)

  /** The last entry's value grows by what the line reached into it. */
  function Grow(st: State, piece: string, reached: bool, number: nat): State {
    if st.entries == [] then st
    else
      var last := st.entries[|st.entries| - 1];
      st.(entries := st.entries[..|st.entries| - 1]
                   + [last.(valueText := AppendPiece(last.valueText, piece),
                            valueEndLine := if reached then number else last.valueEndLine)])
  }

  /** A new entry whose `=` is on line `number`. */
  function Opened(st: State, key: string, keyOnLine: string, keyLine: nat, number: nat): State {
    st.(entries := st.entries + [Entry(st.section, key, [], keyOnLine, keyLine, number, number, keyLine != number)],
        pending := [], pendingLine := keyLine)
  }

  /** What the rest of a line registers, from its start or from behind a value that ended on it. */
  function Rest(text: string, offset: nat, hi: nat, number: nat, st: State): State
    requires offset <= hi <= |text|
    decreases hi - offset
  {
    var first := NextNonSpace(text, offset, hi);
    var last := TrimEnd(text, first, hi);
    if first == last || text[first] == ';' then st
    else if st.pending == [] && last - first >= 2 && text[first] == '[' && text[last - 1] == ']' then
      var name := Trimmed(text[first + 1..last - 1]);
      st.(section := name, headers := st.headers + [Header(name, number)])
    else
      var keyLine := if st.pending == [] then number else st.pendingLine;
      var key := KeyTokens(text, first, last, st.pending);
      if key.equals.None? then st.(pending := key.pending, pendingLine := keyLine)
      else
        var onThisLine := KeyTokens(text, first, last, []).pending;
        var begin := key.equals.value + 1;
        var a := Advanced(text, begin, hi, FRESH);
        var st' := Grow(Opened(st, key.pending, onThisLine, keyLine, number), text[begin..Min(a.end, hi)], false, number);
        if a.finished then Rest(text, a.end, hi, number, st'.(value := a.state))
        else st'.(value := a.state, inValue := true)
  }

  /** One raw line `[lo, hi)`. It counts towards an open value only if the value reads some of it. */
  function Line(text: string, lo: nat, hi: nat, number: nat, st: State): State
    requires lo <= hi <= |text|
  {
    if !st.inValue then Rest(text, lo, hi, number, st)
    else
      var a := Advanced(text, lo, hi, st.value);
      var st' := if a.end > lo then Grow(st, text[lo..Min(a.end, hi)], true, number) else st;
      if a.finished then Rest(text, a.end, hi, number, st'.(value := a.state, inValue := false))
      else st'.(value := a.state)
  }

  function LineEnd(text: string, from: nat): (end: nat)
    requires from <= |text|
    ensures from <= end <= |text|
    ensures forall i :: from <= i < end ==> text[i] != NEWLINE
    ensures end < |text| ==> text[end] == NEWLINE
    decreases |text| - from
  {
    if from < |text| && text[from] != NEWLINE then LineEnd(text, from + 1) else from
  }

  /** The end of the line without the carriage return in front of its newline. */
  function RawEnd(text: string, lo: nat, end: nat): (hi: nat)
    requires lo <= end <= |text|
    ensures lo <= hi <= end
  {
    if end > lo && text[end - 1] == '\r' then end - 1 else end
  }

  /** Every line from `cursor` on, the first of them numbered `number`. */
  function ScanFrom(text: string, cursor: nat, number: nat, st: State): State
    requires cursor <= |text|
    decreases |text| - cursor
  {
    var end := LineEnd(text, cursor);
    var st' := Line(text, cursor, RawEnd(text, cursor, end), number, st);
    if end == |text| then st' else ScanFrom(text, end + 1, number + 1, st')
  }

  function Answer(st: State): Scan {
    Scan(st.entries, st.headers, !st.inValue || st.value.awaitingCall, st.pending != [])
  }

  function ScanText(text: string): Scan {
    Answer(ScanFrom(text, 0, 1, START))
  }

  /** The state once a value that starts at `begin` has been read as far as its line goes. */
  function Taken(text: string, begin: nat, hi: nat, number: nat, begun: State): State
    requires begin <= hi <= |text|
  {
    var a := Advanced(text, begin, hi, FRESH);
    Grow(begun, text[begin..Min(a.end, hi)], false, number).(value := a.state)
  }

  /** One turn of the loop that reads on in the middle of a line. */
  lemma RestIs(text: string, offset: nat, hi: nat, number: nat, st: State)
    requires offset <= hi <= |text|
    ensures var first := NextNonSpace(text, offset, hi);
      var last := TrimEnd(text, first, hi);
      Rest(text, offset, hi, number, st)
      == if first == last || text[first] == ';' then st
         else if st.pending == [] && last - first >= 2 && text[first] == '[' && text[last - 1] == ']' then
           st.(section := Trimmed(text[first + 1..last - 1]),
               headers := st.headers + [Header(Trimmed(text[first + 1..last - 1]), number)])
         else RestOfKey(text, first, last, hi, number, st)
  {
    hide NextNonSpace, TrimEnd, KeyTokens, Advanced, Grow, Opened, Trimmed;
  }

  function RestOfKey(text: string, first: nat, last: nat, hi: nat, number: nat, st: State): State
    requires first <= last <= hi <= |text|
  {
    var keyLine := if st.pending == [] then number else st.pendingLine;
    var key := KeyTokens(text, first, last, st.pending);
    if key.equals.None? then st.(pending := key.pending, pendingLine := keyLine)
    else
      var onThisLine := KeyTokens(text, first, last, []).pending;
      var begin := key.equals.value + 1;
      var taken := Taken(text, begin, hi, number, Opened(st, key.pending, onThisLine, keyLine, number));
      var a := Advanced(text, begin, hi, FRESH);
      if a.finished then Rest(text, a.end, hi, number, taken) else taken.(inValue := true)
  }

  /** One key and as much of its value as its line holds. `more` is whether the line goes on behind it. */
  method ReadKey(text: string, first: nat, last: nat, hi: nat, number: nat, before: State)
    returns (more: bool, offset: nat, st: State)
    requires first <= last <= hi <= |text|
    ensures more ==> first < offset <= hi
    ensures RestOfKey(text, first, last, hi, number, before) == if more then Rest(text, offset, hi, number, st) else st
  {
    hide Grow, Opened, KeyTokens, Advanced, Rest;
    more, offset, st := false, first, before;
    var keyLine := if st.pending == [] then number else st.pendingLine;
    var onThisLine := AppendKeyTokens(text, first, last, []);
    var key := AppendKeyTokens(text, first, last, st.pending);
    if key.equals.None? {
      st := st.(pending := key.pending, pendingLine := keyLine);
      return;
    }
    var begin := key.equals.value + 1;
    var finished, end, value := AdvanceValue(text, begin, hi, FRESH);
    st := ReadEntry(text, begin, Min(end, hi), number, Opened(st, key.pending, onThisLine.pending, keyLine, number), false);
    st := st.(value := value);
    if finished {
      more, offset := true, end;
    } else {
      st := st.(inValue := true);
    }
  }

  /** Reads on from `start` as far as the line goes, however many values end on it. */
  method ReadRest(text: string, start: nat, hi: nat, number: nat, before: State) returns (st: State)
    requires start <= hi <= |text|
    ensures st == Rest(text, start, hi, number, before)
  {
    hide Rest, RestOfKey, Trimmed;
    st := before;
    var offset := start;
    while true
      invariant offset <= hi && Rest(text, offset, hi, number, st) == Rest(text, start, hi, number, before)
      decreases hi - offset
    {
      var first, last := TrimmedView(text, offset, hi);
      RestIs(text, offset, hi, number, st);
      if first == last || text[first] == ';' { break; }
      if st.pending == [] && last - first >= 2 && text[first] == '[' && text[last - 1] == ']' {
        var name := TrimmedText(text[first + 1..last - 1]);
        st := st.(section := name, headers := st.headers + [Header(name, number)]);
        break;
      }
      var more, end, read := ReadKey(text, first, last, hi, number, st);
      st := read;
      if !more { break; }
      offset := end;
    }
  }

  method TrimmedText(s: string) returns (t: string)
    ensures t == Trimmed(s)
  {
    var first, last := TrimmedView(s, 0, |s|);
    t := s[first..last];
  }

  method ReadEntry(text: string, lo: nat, hi: nat, number: nat, before: State, reached: bool) returns (st: State)
    requires lo <= hi <= |text|
    ensures st == Grow(before, text[lo..hi], reached, number)
  {
    st := before;
    if st.entries == [] { return; }
    var last := st.entries[|st.entries| - 1];
    var longer := AppendValueText(last.valueText, text, lo, hi);
    last := last.(valueText := longer);
    if reached { last := last.(valueEndLine := number); }
    st := st.(entries := st.entries[..|st.entries| - 1] + [last]);
  }

  /** The scan itself, a line at a time. */
  method ScanConfigFile(text: string) returns (result: Scan)
    ensures result == ScanText(text)
  {
    hide Line;
    var st := START;
    var cursor := 0;
    var number := 1;
    ghost var goal := ScanFrom(text, 0, 1, START);
    while true
      invariant cursor <= |text| && ScanFrom(text, cursor, number, st) == goal
      decreases |text| - cursor
    {
      var end := cursor;
      while end < |text| && text[end] != NEWLINE
        invariant cursor <= end <= |text| && LineEnd(text, end) == LineEnd(text, cursor)
      {
        end := end + 1;
      }
      var hi := if end > cursor && text[end - 1] == '\r' then end - 1 else end;
      st := ReadLine(text, cursor, hi, number, st);
      if end == |text| { break; }
      cursor := end + 1;
      number := number + 1;
    }
    result := Scan(st.entries, st.headers, !st.inValue || st.value.awaitingCall, st.pending != []);
  }

  method ReadLine(text: string, lo: nat, hi: nat, number: nat, before: State) returns (st: State)
    requires lo <= hi <= |text|
    ensures st == Line(text, lo, hi, number, before)
  {
    st := before;
    var offset := lo;
    if st.inValue {
      var finished, end, value := AdvanceValue(text, lo, hi, st.value);
      if end > lo { st := ReadEntry(text, lo, Min(end, hi), number, st, true); }
      st := st.(value := value);
      if !finished { return; }
      st := st.(inValue := false);
      offset := end;
    }
    st := ReadRest(text, offset, hi, number, st);
  }
}
