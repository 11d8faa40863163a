module ConfigString {
  // Quoted strings of a ConfigFile: escapes, UTF-16 surrogate pairing and the closing UTF-8 decode.

  import opened Text
  import Utf8

  datatype StringProblem = UnpairedLead | UnpairedTrail | ShortEscape(wide: bool)

  datatype DecodedString = DecodedString(text: string, problem: Option<StringProblem>, end: nat, closed: bool)

  // ----- What a string is made of -----

  predicate IsLeadSurrogate(unit: nat) {
    0xD800 <= unit <= 0xDBFF
  }

  predicate IsTrailSurrogate(unit: nat) {
    0xDC00 <= unit <= 0xDFFF
  }

  datatype Token =
    | Raw(c: char)          // a byte of the file
    | Unit(u: nat)          // an escape that stands for one unit
    | Lead(u: nat)          // an escape that is the first half of a surrogate pair
    | Trail(u: nat)         // an escape that is the second half
    | Short(wide: bool, u: nat) // a hex escape that met a character that is no hex digit

  datatype Tokens = Tokens(items: seq<Token>, closed: bool, end: nat)

  datatype HexRun = HexRun(unit: nat, at: nat, short: bool)

  /** Up to `digits` hex digits from `at`; `short` when some other character came too soon. */
  function ReadHex(text: string, at: nat, digits: nat, unit: nat): (r: HexRun)
    requires at <= |text|
    ensures at <= r.at <= |text| && r.at <= at + digits
    ensures forall i :: at <= i < r.at ==> HexValue(text[i]) >= 0
    ensures r.short ==> r.at < |text| && HexValue(text[r.at]) < 0
    ensures !r.short && r.at < |text| ==> r.at == at + digits
    decreases digits
  {
    if digits == 0 || at >= |text| then HexRun(unit, at, false)
    else if HexValue(text[at]) < 0 then HexRun(unit, at, true)
    else ReadHex(text, at + 1, digits - 1, unit * 16 + HexValue(text[at]))
  }

  /** What one character after a backslash stands for, hex escapes apart. */
  function SimpleEscape(next: char): nat {
    if next == 'b' then 0x08
    else if next == 't' then 0x09
    else if next == 'n' then 0x0A
    else if next == 'f' then 0x0C
    else if next == 'r' then 0x0D
    else next as nat
  }

  function Digits(next: char): nat {
    if next == 'U' then 6 else 4
  }

  predicate IsHexEscape(next: char) {
    next == 'u' || next == 'U'
  }

  function TokenOfUnit(unit: nat): Token {
    if IsLeadSurrogate(unit) then Lead(unit) else if IsTrailSurrogate(unit) then Trail(unit) else Unit(unit)
  }

  predicate ValidToken(t: Token) {
    match t
    case Raw(c) => true
    case Unit(u) => !IsLeadSurrogate(u) && !IsTrailSurrogate(u)
    case Lead(u) => IsLeadSurrogate(u)
    case Trail(u) => IsTrailSurrogate(u)
    case Short(_, _) => true
  }

  predicate ValidTokens(items: seq<Token>) {
    forall i :: 0 <= i < |items| ==> ValidToken(items[i])
  }

  /** Whether a whole token starts at `at`: not the closing quote, and not a backslash with nothing behind it. */
  predicate HasToken(text: string, at: nat) {
    at < |text| && text[at] != '"' && (text[at] == '\\' ==> at + 1 < |text|)
  }

  function TokenAt(text: string, at: nat): (r: (Token, nat))
    requires HasToken(text, at)
    ensures at < r.1 <= |text| && ValidToken(r.0)
  {
    if text[at] != '\\' then (Raw(text[at]), at + 1)
    else if IsHexEscape(text[at + 1]) then
      var run := ReadHex(text, at + 2, Digits(text[at + 1]), 0);
      (if run.short then Short(text[at + 1] == 'U', run.unit) else TokenOfUnit(run.unit), run.at)
    else (TokenOfUnit(SimpleEscape(text[at + 1])), at + 2)
  }

  /** The tokens from `at` to the closing quote, or to the end of a text that never closes. */
  function TokensFrom(text: string, at: nat): (r: Tokens)
    requires at <= |text|
    ensures at <= r.end <= |text| && ValidTokens(r.items)
    ensures r.closed ==> r.end > at && text[r.end - 1] == '"'
    decreases |text| - at
  {
    if at >= |text| then Tokens([], false, at)
    else if text[at] == '"' then Tokens([], true, at + 1)
    else if !HasToken(text, at) then Tokens([], false, |text|)
    else
      var (token, next) := TokenAt(text, at);
      var rest := TokensFrom(text, next);
      Tokens([token] + rest.items, rest.closed, rest.end)
  }

  predicate NoShortEscape(items: seq<Token>) {
    forall i :: 0 <= i < |items| ==> !items[i].Short?
  }

  /** Surrogate escapes pair adjacently: every lead has a trail right after it and every trail a lead
      right before it. */
  predicate SurrogatesPair(items: seq<Token>) {
    && (forall i :: 0 <= i < |items| && items[i].Lead? ==> i + 1 < |items| && items[i + 1].Trail?)
    && (forall i :: 0 <= i < |items| && items[i].Trail? ==> i > 0 && items[i - 1].Lead?)
  }

  predicate Acceptable(items: seq<Token>) {
    NoShortEscape(items) && SurrogatesPair(items)
  }

  /** The byte an escape puts into the decoder's input: its unit where that is a byte other than zero, or a space. */
  function UnitByte(unit: nat): char {
    if unit == 0 || unit > 0xFF then ' ' else unit as char
  }

  /** The bytes the tokens stand for. A surrogate pair spells a code point that fits no byte. */
  function TokenBytes(items: seq<Token>): string {
    if items == [] then [] else TokenByte(items[0]) + TokenBytes(items[1..])
  }

  function TokenByte(t: Token): string {
    match t
    case Raw(c) => [c]
    case Unit(u) => [UnitByte(u)]
    case Lead(_) => []
    case Trail(_) => [' ']
    case Short(_, _) => []
  }

  // ----- The reader -----

  datatype Reading = Reading(bytes: string, lead: nat, problem: Option<StringProblem>)

  function Refuse(r: Reading, reason: StringProblem): Reading {
    if r.problem.None? then r.(problem := Some(reason)) else r
  }

  /** One unit read by an escape, with the lead surrogate still waiting for its trail. */
  function TakeUnit(r: Reading, unit: nat): Reading {
    if IsLeadSurrogate(unit) then
      (if r.lead != 0 then Refuse(r, UnpairedLead) else r).(lead := unit)
    else if IsTrailSurrogate(unit) && r.lead == 0 then
      Refuse(r, UnpairedTrail)
    else if IsTrailSurrogate(unit) then
      var point := r.lead * 0x400 + unit - (0xD800 * 0x400 + 0xDC00 - 0x10000);
      r.(lead := 0, bytes := r.bytes + [if point <= 0 || point > 0xFF then ' ' else point as char])
    else
      var refused := if r.lead != 0 then Refuse(r, UnpairedLead) else r;
      refused.(bytes := refused.bytes + [UnitByte(unit)])
  }

  /** The reader's loop from `at`, and its answer. */
  function ReadFrom(text: string, at: nat, r: Reading): (d: DecodedString)
    requires at <= |text|
    ensures at <= d.end <= |text|
    ensures d.closed ==> d.end > at
    decreases |text| - at
  {
    if at >= |text| then Finished(r, at, false)
    else if text[at] == '"' then Finished(r, at + 1, true)
    else if text[at] != '\\' then
      var refused := if r.lead != 0 then Refuse(r, UnpairedLead) else r;
      ReadFrom(text, at + 1, refused.(bytes := refused.bytes + [text[at]]))
    else if at + 1 >= |text| then Finished(r, at + 1, false)
    else if IsHexEscape(text[at + 1]) then
      var run := ReadHex(text, at + 2, Digits(text[at + 1]), 0);
      ReadFrom(text, run.at,
               TakeUnit(if run.short then Refuse(r, ShortEscape(text[at + 1] == 'U')) else r, run.unit))
    else ReadFrom(text, at + 2, TakeUnit(r, SimpleEscape(text[at + 1])))
  }

  function Finished(r: Reading, end: nat, closed: bool): DecodedString {
    var last := if closed && r.lead != 0 then Refuse(r, UnpairedLead) else r;
    DecodedString(if last.problem.None? then Utf8.DecodeUtf8(last.bytes) else [], last.problem, end, closed)
  }

  function DecodeText(text: string, at: nat): (d: DecodedString)
    requires at <= |text|
    ensures at <= d.end <= |text|
    ensures d.closed ==> d.end > at
  {
    ReadFrom(text, at, Reading([], 0, None))
  }

  /** What one token does to the reading. */
  function TakeToken(r: Reading, t: Token): Reading {
    match t
    case Raw(c) =>
      var refused := if r.lead != 0 then Refuse(r, UnpairedLead) else r;
      refused.(bytes := refused.bytes + [c])
    case Unit(u) => TakeUnit(r, u)
    case Lead(u) => TakeUnit(r, u)
    case Trail(u) => TakeUnit(r, u)
    case Short(wide, u) => TakeUnit(Refuse(r, ShortEscape(wide)), u)
  }

  /** The digits of a hex escape. Reading stops in front of any other character, a quote among them, which is
      then read as what it is. */
  method HexDigits(text: string, start: nat, digits: nat) returns (run: HexRun)
    requires start <= |text|
    ensures run == ReadHex(text, start, digits, 0)
  {
    run := HexRun(0, start, false);
    var i := 0;
    while i < digits && run.at < |text|
      invariant i <= digits && run.at <= |text| && !run.short
      invariant ReadHex(text, run.at, digits - i, run.unit) == ReadHex(text, start, digits, 0)
    {
      var value := HexValue(text[run.at]);
      if value < 0 {
        run := run.(short := true);
        break;
      }
      run := HexRun(run.unit * 16 + value, run.at + 1, false);
      i := i + 1;
    }
  }

  /** One escape, `at` just past its backslash: the unit it stands for. */
  method UnitOfEscape(text: string, at: nat) returns (run: HexRun, wide: bool)
    requires at < |text|
    ensures wide == (text[at] == 'U')
    ensures run == if IsHexEscape(text[at]) then ReadHex(text, at + 1, Digits(text[at]), 0)
                   else HexRun(SimpleEscape(text[at]), at + 1, false)
  {
    var next := text[at];
    wide := next == 'U';
    run := HexRun(next as nat, at + 1, false);
    match next {
      case 'b' => run := run.(unit := 0x08);
      case 't' => run := run.(unit := 0x09);
      case 'n' => run := run.(unit := 0x0A);
      case 'f' => run := run.(unit := 0x0C);
      case 'r' => run := run.(unit := 0x0D);
      case 'u' => run := HexDigits(text, at + 1, 4);
      case 'U' => run := HexDigits(text, at + 1, 6);
      case _ =>
    }
  }

  /** The unit of an escape, taken as the byte, the half of a pair or the problem it is. */
  method ReadUnit(before: Reading, unit: nat) returns (r: Reading)
    ensures r == TakeUnit(before, unit)
  {
    r := before;
    if 0xD800 <= unit <= 0xDBFF {
      if r.lead != 0 { r := Refuse(r, UnpairedLead); }
      return r.(lead := unit);
    }
    if 0xDC00 <= unit <= 0xDFFF && r.lead == 0 { return Refuse(r, UnpairedTrail); }
    var point: int := unit;
    if 0xDC00 <= unit <= 0xDFFF {
      point := r.lead * 0x400 + unit - (0xD800 * 0x400 + 0xDC00 - 0x10000);
      r := r.(lead := 0);
    }
    if r.lead != 0 { r := Refuse(r, UnpairedLead); }
    r := r.(bytes := r.bytes + [if point <= 0 || point > 0xFF then ' ' else point as char]);
  }

  /** One whole escape: what its token appends, which surrogate it leaves open and what it refuses. */
  method ReadEscape(text: string, at: nat, before: Reading) returns (r: Reading, end: nat)
    requires at + 1 < |text| && text[at] == '\\'
    ensures var (token, next) := TokenAt(text, at); r == TakeToken(before, token) && end == next
    ensures ReadFrom(text, at, before) == ReadFrom(text, end, r)
  {
    hide TakeUnit, ReadHex, SimpleEscape, Refuse;
    var run, wide := UnitOfEscape(text, at + 1);
    r, end := before, run.at;
    if run.short { r := Refuse(r, ShortEscape(wide)); }
    r := ReadUnit(r, run.unit);
  }

  /** The reader itself: a byte at a time, with the waiting lead surrogate and the first problem kept. */
  method DecodeString(text: string, start: nat) returns (decoded: DecodedString)
    requires start <= |text|
    ensures decoded == DecodeText(text, start)
  {
    var at := start;
    var r := Reading([], 0, None);
    var closed := false;
    while at < |text|
      invariant start <= at <= |text|
      invariant DecodeText(text, start) == ReadFrom(text, at, r)
      decreases |text| - at
    {
      var character := text[at];
      if character == '"' {
        at := at + 1;
        closed := true;
        break;
      }
      if character != '\\' {
        if r.lead != 0 { r := Refuse(r, UnpairedLead); }
        r := r.(bytes := r.bytes + [character]);
        at := at + 1;
        continue;
      }
      if at + 1 >= |text| {
        at := at + 1;
        break;
      }
      r, at := ReadEscape(text, at, r);
    }
    if closed && r.lead != 0 { r := Refuse(r, UnpairedLead); }
    var plain := [];
    if r.problem.None? { plain := Utf8.DecodeUtf8TheWayGodotDoes(r.bytes); }
    decoded := DecodedString(plain, r.problem, at, closed);
  }

  // ----- What the reader guarantees -----

  function TakeTokens(r: Reading, items: seq<Token>): Reading
    decreases items
  {
    if items == [] then r else TakeTokens(TakeToken(r, items[0]), items[1..])
  }

  lemma {:induction false} ReaderTakesTokens(text: string, at: nat, r: Reading)
    requires at <= |text|
    ensures var t := TokensFrom(text, at);
      ReadFrom(text, at, r) == Finished(TakeTokens(r, t.items), t.end, t.closed)
    decreases |text| - at
  {
    if HasToken(text, at) {
      var (token, next) := TokenAt(text, at);
      ReaderTakesTokens(text, next, TakeToken(r, token));
      assert TokensFrom(text, at).items[1..] == TokensFrom(text, next).items;
    }
  }

  /** Whether the rest of a string is acceptable when a lead surrogate is, or is not, still waiting. */
  predicate AcceptableAfter(waiting: bool, items: seq<Token>)
    decreases items
  {
    if items == [] then !waiting
    else match items[0]
      case Raw(_) => !waiting && AcceptableAfter(false, items[1..])
      case Unit(_) => !waiting && AcceptableAfter(false, items[1..])
      case Lead(_) => !waiting && AcceptableAfter(true, items[1..])
      case Trail(_) => waiting && AcceptableAfter(false, items[1..])
      case Short(_, _) => false
  }

  lemma {:induction false} ProblemStays(r: Reading, items: seq<Token>)
    requires r.problem.Some?
    ensures TakeTokens(r, items).problem == r.problem
    decreases items
  {
    if items != [] { ProblemStays(TakeToken(r, items[0]), items[1..]); }
  }

  predicate Waits(r: Reading) {
    r.problem.None? && (r.lead == 0 || IsLeadSurrogate(r.lead))
  }

  /** One token from a reading without a problem: it is taken, or it is the first problem. */
  lemma TakesToken(r: Reading, t: Token)
    requires ValidToken(t) && Waits(r)
    ensures var next := TakeToken(r, t);
      && (next.problem.Some? <==> t.Short? || (t.Trail? && r.lead == 0) || (!t.Trail? && r.lead != 0))
      && (next.problem.None? ==> Waits(next) && (next.lead != 0 <==> t.Lead?) && next.bytes == r.bytes + TokenByte(t))
  {
    assert t.Lead? ==> r.bytes + [] == r.bytes;
  }

  lemma {:induction false} TakesAcceptable(r: Reading, items: seq<Token>)
    requires ValidTokens(items) && Waits(r)
    ensures var last := TakeTokens(r, items);
      && (last.problem.None? && last.lead == 0 <==> AcceptableAfter(r.lead != 0, items))
      && (AcceptableAfter(r.lead != 0, items) ==> last.bytes == r.bytes + TokenBytes(items))
    decreases items
  {
    if items == [] {
      assert r.bytes + [] == r.bytes;
    } else {
      hide TakeToken;
      var next := TakeToken(r, items[0]);
      TakesToken(r, items[0]);
      if next.problem.Some? {
        ProblemStays(next, items[1..]);
      } else {
        TakesAcceptable(next, items[1..]);
        Regrouped(r.bytes, TokenByte(items[0]), TokenBytes(items[1..]));
      }
    }
  }

  /** A complete front decides nothing about what follows it. */
  lemma FrontIsIndependent(front: seq<Token>, rest: seq<Token>)
    requires front != [] && Acceptable(front)
    ensures Acceptable(front + rest) <==> Acceptable(rest)
  {
    var all := front + rest;
    var k := |front|;
    assert !front[k - 1].Lead?;
    assert forall i :: 0 <= i < k ==> all[i] == front[i];
    assert forall i :: k <= i < |all| ==> all[i] == rest[i - k];
    assert forall i :: 0 <= i < |rest| ==> rest[i] == all[k + i];
    if Acceptable(all) {
      forall i | 0 <= i < |rest| && rest[i].Lead?
        ensures i + 1 < |rest| && rest[i + 1].Trail?
      {
        assert all[k + i].Lead?;
        assert all[k + i + 1].Trail?;
      }
      forall i | 0 <= i < |rest| && rest[i].Trail?
        ensures i > 0 && rest[i - 1].Lead?
      {
        assert all[k + i].Trail?;
        assert all[k + i - 1].Lead?;
      }
    }
  }

  lemma {:induction false} AcceptableAfterIs(waiting: bool, items: seq<Token>)
    ensures AcceptableAfter(waiting, items) <==> Acceptable((if waiting then [Lead(0xD800)] else []) + items)
    decreases items
  {
    var all := (if waiting then [Lead(0xD800)] else []) + items;
    if items == [] {
      if waiting { assert all[0].Lead?; }
      return;
    }
    var head, tail := items[0], items[1..];
    if waiting {
      assert all[0].Lead? && all[1] == head;
      if head.Trail? {
        AcceptableAfterIs(false, tail);
        FrontIsIndependent([all[0], head], tail);
        assert all == [all[0], head] + tail && [] + tail == tail;
      }
    } else if head.Lead? {
      AcceptableAfterIs(true, tail);
      LeadsAreAlike(head, Lead(0xD800), tail);
      assert all == [head] + tail;
    } else if head.Raw? || head.Unit? {
      AcceptableAfterIs(false, tail);
      FrontIsIndependent([head], tail);
      assert all == [head] + tail && [] + tail == tail;
    } else {
      assert all[0] == head;
    }
  }

  lemma LeadsAreAlike(a: Token, b: Token, rest: seq<Token>)
    requires a.Lead? && b.Lead?
    ensures Acceptable([a] + rest) <==> Acceptable([b] + rest)
  {
    var x, y := [a] + rest, [b] + rest;
    assert forall i :: 0 <= i < |x| ==>
      x[i].Lead? == y[i].Lead? && x[i].Trail? == y[i].Trail? && x[i].Short? == y[i].Short?;
  }

  /** Exactly what the reader makes of a quoted string. It ends where the tokens end. A closed string
      is refused exactly when some hex escape is short or the surrogate escapes do not pair adjacently,
      and otherwise its text is the UTF-8 decode of the bytes its tokens stand for. */
  lemma DecodeStringTheorem(text: string, at: nat)
    requires at <= |text|
    ensures var t := TokensFrom(text, at);
      var d := DecodeText(text, at);
      && d.end == t.end && d.closed == t.closed
      && (d.closed ==> (d.problem.None? <==> NoShortEscape(t.items) && SurrogatesPair(t.items)))
      && (d.closed && d.problem.None? ==> d.text == Utf8.DecodeUtf8(TokenBytes(t.items)))
  {
    var t := TokensFrom(text, at);
    var start := Reading([], 0, None);
    ReaderTakesTokens(text, at, start);
    TakesAcceptable(start, t.items);
    AcceptableAfterIs(false, t.items);
    assert [] + t.items == t.items;
    assert [] + TokenBytes(t.items) == TokenBytes(t.items);
  }

  // ----- Writing a string -----

  /** Backslash-escapes quotes and backslashes. */
  function Escaped(s: string): string {
    if s == [] then []
    else EscapedChar(s[0]) + Escaped(s[1..])
  }

  function EscapedTokens(s: string): seq<Token> {
    if s == [] then []
    else [EscapedToken(s[0])] + EscapedTokens(s[1..])
  }

  /** What writing puts in front for one character. */
  function EscapedChar(c: char): string {
    if c == '"' || c == '\\' then ['\\', c] else [c]
  }

  function EscapedToken(c: char): Token {
    if c == '"' || c == '\\' then Unit(c as nat) else Raw(c)
  }

  lemma EscapedCharReads(text: string, at: nat, c: char)
    requires Has(text, at, EscapedChar(c))
    ensures HasToken(text, at) && TokenAt(text, at) == (EscapedToken(c), at + |EscapedChar(c)|)
  {
    HasChar(text, at, EscapedChar(c), 0);
    HasChar(text, at, EscapedChar(c), |EscapedChar(c)| - 1);
  }

  lemma {:induction false} EscapedReads(text: string, at: nat, s: string)
    requires Has(text, at, Escaped(s)) && at + |Escaped(s)| < |text| && text[at + |Escaped(s)|] == '"'
    ensures TokensFrom(text, at) == Tokens(EscapedTokens(s), true, at + |Escaped(s)| + 1)
    decreases |s|
  {
    hide *;
    if s == [] {
      EndsAtQuote(text, at, s);
    } else {
      EscapedIs(s);
      HasSplit(text, at, EscapedChar(s[0]), Escaped(s[1..]));
      EscapedCharReads(text, at, s[0]);
      var next := at + |EscapedChar(s[0])|;
      EscapedReads(text, next, s[1..]);
      ReadsOn(text, at);
    }
  }

  lemma EndsAtQuote(text: string, at: nat, s: string)
    requires s == [] && at + |Escaped(s)| < |text| && text[at + |Escaped(s)|] == '"'
    ensures Escaped(s) == [] && EscapedTokens(s) == [] && TokensFrom(text, at) == Tokens([], true, at + 1)
  {
  }

  lemma EscapedIs(s: string)
    requires s != []
    ensures Escaped(s) == EscapedChar(s[0]) + Escaped(s[1..])
    ensures EscapedTokens(s) == [EscapedToken(s[0])] + EscapedTokens(s[1..])
  {
  }

  lemma ReadsOn(text: string, at: nat)
    requires HasToken(text, at)
    ensures var (token, next) := TokenAt(text, at);
      var rest := TokensFrom(text, next);
      TokensFrom(text, at) == Tokens([token] + rest.items, rest.closed, rest.end)
  {
    hide TokenAt;
  }

  lemma {:induction false} EscapedTokensSpell(s: string)
    ensures TokenBytes(EscapedTokens(s)) == s
    ensures forall i :: 0 <= i < |EscapedTokens(s)| ==> EscapedTokens(s)[i].Raw? || EscapedTokens(s)[i].Unit?
  {
    if s != [] {
      EscapedTokensSpell(s[1..]);
      assert EscapedTokens(s)[1..] == EscapedTokens(s[1..]);
    }
  }

  lemma EscapedReadsBetween(before: string, s: string, rest: string)
    ensures var text := before + (['"'] + (Escaped(s) + (['"'] + rest)));
      TokensFrom(text, |before| + 1) == Tokens(EscapedTokens(s), true, |before| + |Escaped(s)| + 2)
  {
    var e := Escaped(s);
    var text := before + (['"'] + (e + (['"'] + rest)));
    var at := |before| + 1;
    assert text[at..] == e + (['"'] + rest);
    assert text[at..at + |e|] == text[at..][..|e|] == e;
    assert text[at + |e|] == text[at..][|e|] == '"';
    EscapedReads(text, at, s);
  }

  /** Reading undoes writing: an escaped text between quotes, whatever stands around it, reads back to
      the end of its closing quote, is never refused, and gives the text's UTF-8 decode. So it gives
      back the text itself exactly when that is well-formed UTF-8 with no leading byte order mark. */
  lemma EscapeRoundTrip(before: string, s: string, rest: string)
    ensures var text := before + (['"'] + (Escaped(s) + (['"'] + rest)));
      var d := DecodeText(text, |before| + 1);
      && d.closed && d.end == |before| + |Escaped(s)| + 2 && d.problem.None?
      && d.text == Utf8.DecodeUtf8(s)
      && (d.text == s <==> Utf8.WellFormed(s) && !Utf8.HasBom(s))
  {
    hide DecodeText, TokensFrom, Escaped, EscapedTokens;
    var text := before + (['"'] + (Escaped(s) + (['"'] + rest)));
    EscapedReadsBetween(before, s, rest);
    EscapedTokensSpell(s);
    DecodeStringTheorem(text, |before| + 1);
    Utf8.DecodeUtf8Theorem(s);
  }
}
