/** What every quoted string stands for, said of the pieces it is written with. */
module StringWriting {
  import opened Text
  import opened ConfigString
  import Utf8

  const SMALLS := "0123456789abcdef"
  const CAPITALS := "0123456789ABCDEF"

  /** One piece of a quoted string. `cases` says of each hex digit whether it is written as a capital. */
  datatype Piece =
    | Plain(c: char)
    | Backspace | Tab | LineFeed | FormFeed | Return
    | Itself(c: char)                                  // a backslash and a character without a meaning of its own
    | Hex(wide: bool, n: nat, cases: seq<bool>)
    | Short(wide: bool, n: nat, cases: seq<bool>)      // too few digits, and then some other character

  /** How a string ends: with its quote, with the text, or with the text behind a lone backslash. */
  datatype Ending = Closed | Open | OpenEscape

  function EndText(e: Ending): string {
    match e
    case Closed => "\""
    case Open => ""
    case OpenEscape => "\\"
  }

  function DigitFor(d: nat, capital: bool): char
    requires d < 16
  {
    if capital then CAPITALS[d] else SMALLS[d]
  }

  function HexText(n: nat, cases: seq<bool>): (s: string)
    ensures |s| == |cases|
  {
    if cases == [] then []
    else
      var last := |cases| - 1;
      HexText(n / 16, cases[..last]) + [DigitFor(n % 16, cases[last])]
  }

  function HexStart(wide: bool): string {
    if wide then "\\U" else "\\u"
  }

  function Written(p: Piece): (s: string)
    ensures s != []
  {
    match p
    case Plain(c) => [c]
    case Backspace => "\\b"
    case Tab => "\\t"
    case LineFeed => "\\n"
    case FormFeed => "\\f"
    case Return => "\\r"
    case Itself(c) => ['\\', c]
    case Hex(wide, n, cases) => HexStart(wide) + HexText(n, cases)
    case Short(wide, n, cases) => HexStart(wide) + HexText(n, cases)
  }

  function AllWritten(pieces: seq<Piece>): string {
    if pieces == [] then [] else Written(pieces[0]) + AllWritten(pieces[1..])
  }

  function Power(k: nat): nat {
    if k == 0 then 1 else 16 * Power(k - 1)
  }

  function Whole(wide: bool): nat {
    if wide then 6 else 4
  }

  predicate IsHexDigit(c: char) {
    c in SMALLS || c in CAPITALS
  }

  /** What can follow a hex escape that is too short. */
  predicate StopsHex(after: string) {
    after != [] && !IsHexDigit(after[0])
  }

  predicate WritablePiece(p: Piece, after: string) {
    match p
    case Plain(c) => c != '"' && c != '\\'
    case Itself(c) => c !in "btnfruU"
    case Hex(wide, n, cases) => n < Power(|cases|) && (|cases| == Whole(wide) || (|cases| < Whole(wide) && after == []))
    case Short(wide, n, cases) => n < Power(|cases|) && |cases| < Whole(wide) && StopsHex(after)
    case _ => true
  }

  predicate Writable(pieces: seq<Piece>, e: Ending) {
    pieces != [] ==>
      WritablePiece(pieces[0], AllWritten(pieces[1..]) + EndText(e)) && Writable(pieces[1..], e)
  }

  // ----- What they stand for -----

  predicate LeadHalf(p: Piece) {
    p.Hex? && 0xD800 <= p.n < 0xDC00
  }

  predicate TrailHalf(p: Piece) {
    p.Hex? && 0xDC00 <= p.n < 0xE000
  }

  /** The byte a number gives: itself from 1 to 255, and otherwise a space. */
  function Fitting(n: nat): char {
    if 0 < n < 256 then n as char else ' '
  }

  function ByteOf(p: Piece): char {
    match p
    case Plain(c) => c
    case Backspace => 8 as char
    case Tab => 9 as char
    case LineFeed => 10 as char
    case FormFeed => 12 as char
    case Return => 13 as char
    case Itself(c) => Fitting(c as nat)
    case Hex(_, n, _) => Fitting(n)
    case Short(_, n, _) => ' '
  }

  /** The bytes the pieces stand for; the two halves of a pair stand for one space. */
  function Spelled(pieces: seq<Piece>): string {
    if pieces == [] then []
    else if LeadHalf(pieces[0]) then (if |pieces| == 1 then [] else [' '] + Spelled(pieces[2..]))
    else [ByteOf(pieces[0])] + Spelled(pieces[1..])
  }

  /** The first thing wrong with the pieces: a short hex escape, or half of a pair without its other half. */
  function Trouble(pieces: seq<Piece>, e: Ending): Option<StringProblem> {
    if pieces == [] then None
    else if pieces[0].Short? then Some(ShortEscape(pieces[0].wide))
    else if TrailHalf(pieces[0]) then Some(UnpairedTrail)
    else if !LeadHalf(pieces[0]) then Trouble(pieces[1..], e)
    else if |pieces| == 1 then (if e.Closed? then Some(UnpairedLead) else None)
    else if pieces[1].Short? then Some(ShortEscape(pieces[1].wide))
    else if TrailHalf(pieces[1]) then Trouble(pieces[2..], e)
    else Some(UnpairedLead)
  }

  // ----- Hex digits -----

  lemma DigitReads(d: nat, capital: bool)
    requires d < 16
    ensures HexValue(DigitFor(d, capital)) == d
  {
    assert d in {0, 1, 2, 3, 4, 5, 6, 7, 8, 9, 10, 11, 12, 13, 14, 15};
  }

  lemma IsHexDigitIs(c: char)
    ensures IsHexDigit(c) <==> HexValue(c) >= 0
  {
    if IsHexDigit(c) {
      var d :| 0 <= d < 16 && (c == SMALLS[d] || c == CAPITALS[d]);
      DigitReads(d, c == CAPITALS[d]);
    }
    if HexValue(c) >= 0 { DigitIsWritten(c); }
  }

  lemma DigitIsWritten(c: char)
    requires HexValue(c) >= 0
    ensures c == DigitFor(HexValue(c), !(c <= '9' || 'a' <= c))
  {
    assert HexValue(c) in {0, 1, 2, 3, 4, 5, 6, 7, 8, 9, 10, 11, 12, 13, 14, 15};
  }

  lemma {:induction false} HexReads(text: string, at: nat, n: nat, cases: seq<bool>, digits: nat)
    requires n < Power(|cases|) && |cases| <= digits && Has(text, at, HexText(n, cases))
    ensures ReadHex(text, at, digits, 0) == ReadHex(text, at + |cases|, digits - |cases|, n)
    decreases |cases|
  {
    hide DigitFor, HexValue, Has;
    if cases != [] {
      var last := |cases| - 1;
      var front := HexText(n / 16, cases[..last]);
      var c := DigitFor(n % 16, cases[last]);
      HasSplit(text, at, front, [c]);
      HasChar(text, at + last, [c], 0);
      HexReads(text, at, n / 16, cases[..last], digits);
      DigitReads(n % 16, cases[last]);
    }
  }

  /** Every run of hex digits is some number's. */
  lemma {:induction false} DigitsWriteNumber(s: string) returns (n: nat, cases: seq<bool>)
    requires forall i :: 0 <= i < |s| ==> HexValue(s[i]) >= 0
    ensures |cases| == |s| && n < Power(|s|) && HexText(n, cases) == s
    decreases |s|
  {
    hide DigitFor, HexValue;
    if s == [] { return 0, []; }
    var last := |s| - 1;
    var high, front := DigitsWriteNumber(s[..last]);
    var d := HexValue(s[last]);
    n, cases := high * 16 + d, front + [!(s[last] <= '9' || 'a' <= s[last])];
    assert cases[..last] == front && s == s[..last] + [s[last]];
    DigitIsWritten(s[last]);
  }

  // ----- One piece -----

  /** What the reader takes from a piece. */
  function Taking(r: Reading, p: Piece): Reading {
    match p
    case Plain(c) =>
      var refused := if r.lead != 0 then Refuse(r, UnpairedLead) else r;
      refused.(bytes := refused.bytes + [c])
    case Short(wide, n, _) => TakeUnit(Refuse(r, ShortEscape(wide)), n)
    case Hex(_, n, _) => TakeUnit(r, n)
    case Itself(c) => TakeUnit(r, c as nat)
    case _ => TakeUnit(r, ByteOf(p) as nat)
  }

  lemma ReadsEscape(text: string, at: nat, p: Piece, after: string, r: Reading)
    requires !p.Plain? && !p.Hex? && !p.Short? && WritablePiece(p, after) && Has(text, at, Written(p))
    ensures ReadFrom(text, at, r) == ReadFrom(text, at + |Written(p)|, Taking(r, p))
  {
    hide TakeUnit, Finished, ReadHex;
    HasChar(text, at, Written(p), 0);
    HasChar(text, at, Written(p), 1);
  }

  /** The digits of a hex escape and what they come to. */
  lemma DigitsOf(text: string, at: nat, p: Piece, after: string)
    requires (p.Hex? || p.Short?) && WritablePiece(p, after) && Has(text, at, HexText(p.n, p.cases) + after)
    requires after == [] ==> at + |p.cases| == |text|
    ensures ReadHex(text, at, Whole(p.wide), 0) == HexRun(p.n, at + |p.cases|, p.Short?)
  {
    hide HexText, Power, Has, HexValue, IsHexDigit;
    HasSplit(text, at, HexText(p.n, p.cases), after);
    HexReads(text, at, p.n, p.cases, Whole(p.wide));
    if p.Short? {
      HasChar(text, at + |p.cases|, after, 0);
      IsHexDigitIs(after[0]);
    }
  }

  lemma HexStarts(text: string, at: nat, p: Piece, after: string)
    requires (p.Hex? || p.Short?) && Has(text, at, Written(p) + after)
    ensures at + 1 < |text| && text[at] == '\\' && text[at + 1] == (if p.wide then 'U' else 'u')
    ensures |Written(p)| == 2 + |p.cases| && Has(text, at + 2, HexText(p.n, p.cases) + after)
  {
    hide Has, HexText;
    Regrouped(HexStart(p.wide), HexText(p.n, p.cases), after);
    HasSplit(text, at, HexStart(p.wide), HexText(p.n, p.cases) + after);
    HasChar(text, at, HexStart(p.wide), 0);
    HasChar(text, at, HexStart(p.wide), 1);
  }

  lemma ReadsHex(text: string, at: nat, p: Piece, after: string, r: Reading)
    requires (p.Hex? || p.Short?) && WritablePiece(p, after) && Has(text, at, Written(p) + after)
    requires after == [] ==> at + |Written(p)| == |text|
    ensures at + |Written(p)| <= |text|
    ensures ReadFrom(text, at, r) == ReadFrom(text, at + |Written(p)|, Taking(r, p))
  {
    hide TakeUnit, Finished, HexText, Power, Has, HexValue, WritablePiece, Written;
    HexStarts(text, at, p, after);
    DigitsOf(text, at + 2, p, after);
  }

  lemma ReadsPiece(text: string, at: nat, p: Piece, after: string, r: Reading)
    requires WritablePiece(p, after) && Has(text, at, Written(p) + after)
    requires after == [] ==> at + |Written(p)| == |text|
    ensures at + |Written(p)| <= |text|
    ensures ReadFrom(text, at, r) == ReadFrom(text, at + |Written(p)|, Taking(r, p))
  {
    HasSplit(text, at, Written(p), after);
    if p.Hex? || p.Short? {
      hide *;
      ReadsHex(text, at, p, after, r);
    } else if p.Plain? {
      HasChar(text, at, Written(p), 0);
    } else {
      hide *;
      ReadsEscape(text, at, p, after, r);
    }
  }

  lemma Restful(p: Piece, r: Reading)
    requires r.problem.None? && r.lead == 0 && !p.Short? && !TrailHalf(p)
    ensures Taking(r, p) == if LeadHalf(p) then r.(lead := p.n) else r.(bytes := r.bytes + [ByteOf(p)])
  {
  }

  lemma SecondHalf(p: Piece, r: Reading)
    requires r.problem.None? && IsLeadSurrogate(r.lead) && TrailHalf(p)
    ensures Taking(r, p) == r.(lead := 0, bytes := r.bytes + [' '])
  {
  }

  lemma Refused(p: Piece, r: Reading)
    requires r.problem.None? && (r.lead == 0 ==> p.Short? || TrailHalf(p)) && (r.lead != 0 ==> !TrailHalf(p))
    ensures Taking(r, p).problem
         == Some(if p.Short? then ShortEscape(p.wide) else if r.lead == 0 then UnpairedTrail else UnpairedLead)
  {
  }

  lemma ProblemIsKept(p: Piece, r: Reading)
    requires r.problem.Some?
    ensures Taking(r, p).problem == r.problem
  {
  }

  // ----- The whole string -----

  /** The string's pieces and its ending stand at `at`; only a closed string has more text behind it. */
  predicate Stands(text: string, at: nat, pieces: seq<Piece>, e: Ending) {
    && Writable(pieces, e) && Has(text, at, AllWritten(pieces) + EndText(e))
    && (!e.Closed? ==> at + |AllWritten(pieces) + EndText(e)| == |text|)
  }

  lemma NextStands(text: string, at: nat, pieces: seq<Piece>, e: Ending, r: Reading)
    requires pieces != [] && Stands(text, at, pieces, e)
    ensures var next := at + |Written(pieces[0])|;
      && next <= |text| && Stands(text, next, pieces[1..], e)
      && at + |AllWritten(pieces)| == next + |AllWritten(pieces[1..])|
      && ReadFrom(text, at, r) == ReadFrom(text, next, Taking(r, pieces[0]))
  {
    hide *;
    var after := AllWritten(pieces[1..]) + EndText(e);
    FirstStands(text, at, pieces, e);
    ReadsPiece(text, at, pieces[0], after, r);
  }

  lemma FirstStands(text: string, at: nat, pieces: seq<Piece>, e: Ending)
    requires pieces != [] && Stands(text, at, pieces, e)
    ensures var after := AllWritten(pieces[1..]) + EndText(e);
      && WritablePiece(pieces[0], after) && Has(text, at, Written(pieces[0]) + after)
      && (after == [] ==> at + |Written(pieces[0])| == |text|)
      && Stands(text, at + |Written(pieces[0])|, pieces[1..], e)
      && |AllWritten(pieces)| == |Written(pieces[0])| + |AllWritten(pieces[1..])|
  {
    hide *;
    var p, after := pieces[0], AllWritten(pieces[1..]) + EndText(e);
    IsWritten(pieces, e);
    StandsIs(text, at, pieces, e);
    HasSplit(text, at, Written(p), after);
    assert |AllWritten(pieces) + EndText(e)| == |Written(p)| + |after|;
    StandsIs(text, at + |Written(p)|, pieces[1..], e);
  }

  lemma StandsIs(text: string, at: nat, pieces: seq<Piece>, e: Ending)
    ensures Stands(text, at, pieces, e) <==>
      && Writable(pieces, e) && Has(text, at, AllWritten(pieces) + EndText(e))
      && (!e.Closed? ==> at + |AllWritten(pieces) + EndText(e)| == |text|)
    ensures EndText(e) == [] ==> !e.Closed?
    ensures pieces != [] && Writable(pieces, e) ==>
      WritablePiece(pieces[0], AllWritten(pieces[1..]) + EndText(e)) && Writable(pieces[1..], e)
  {
    hide WritablePiece, AllWritten, Has;
  }

  lemma IsWritten(pieces: seq<Piece>, e: Ending)
    requires pieces != []
    ensures AllWritten(pieces) + EndText(e) == Written(pieces[0]) + (AllWritten(pieces[1..]) + EndText(e))
  {
    Regrouped(Written(pieces[0]), AllWritten(pieces[1..]), EndText(e));
  }

  lemma EndsHere(text: string, at: nat, e: Ending, r: Reading)
    requires Stands(text, at, [], e)
    ensures AllWritten([]) == [] && at + |EndText(e)| <= |text| && ReadFrom(text, at, r) == Finished(r, at + |EndText(e)|, e.Closed?)
  {
    assert AllWritten([]) + EndText(e) == EndText(e);
    if !e.Open? { HasChar(text, at, EndText(e), 0); }
  }

  /** Where a string ends and whether it is closed does not depend on what was read so far, and a problem met
      before stays the one that is told. */
  lemma {:induction false} EndsWhereWritten(text: string, at: nat, pieces: seq<Piece>, e: Ending, r: Reading)
    requires Stands(text, at, pieces, e)
    ensures at <= |text|
    ensures var d := ReadFrom(text, at, r);
      && d.end == at + |AllWritten(pieces)| + |EndText(e)| && d.closed == e.Closed?
      && (r.problem.Some? ==> d.problem == r.problem && d.text == [])
    decreases |pieces|
  {
    hide ReadFrom, Taking, Stands, AllWritten, Written;
    if pieces == [] {
      EndsHere(text, at, e, r);
    } else {
      NextStands(text, at, pieces, e, r);
      EndsWhereWritten(text, at + |Written(pieces[0])|, pieces[1..], e, Taking(r, pieces[0]));
      if r.problem.Some? { ProblemIsKept(pieces[0], r); }
    }
  }

  lemma {:induction false} ReadsPieces(text: string, at: nat, pieces: seq<Piece>, e: Ending, r: Reading)
    requires Stands(text, at, pieces, e) && r.problem.None? && r.lead == 0
    ensures at <= |text|
    ensures var d := ReadFrom(text, at, r);
      && d.problem == Trouble(pieces, e)
      && d.text == if d.problem.None? then Utf8.DecodeUtf8(r.bytes + Spelled(pieces)) else []
    decreases |pieces|
  {
    hide ReadFrom, Taking, Stands, Utf8.DecodeUtf8;
    if pieces == [] {
      EndsHere(text, at, e, r);
      assert r.bytes + [] == r.bytes;
      return;
    }
    var p := pieces[0];
    NextStands(text, at, pieces, e, r);
    var next, taken := at + |Written(p)|, Taking(r, p);
    if p.Short? || TrailHalf(p) {
      Refused(p, r);
      EndsWhereWritten(text, next, pieces[1..], e, taken);
    } else {
      Restful(p, r);
      if LeadHalf(p) {
        ReadsAfterLead(text, next, pieces, e, taken);
      } else {
        ReadsPieces(text, next, pieces[1..], e, taken);
        Regrouped(r.bytes, [ByteOf(p)], Spelled(pieces[1..]));
      }
    }
  }

  /** The same where the first half of a pair has been read. */
  lemma {:induction false} ReadsAfterLead(text: string, at: nat, pieces: seq<Piece>, e: Ending, r: Reading)
    requires pieces != [] && LeadHalf(pieces[0]) && Stands(text, at, pieces[1..], e)
    requires r.problem.None? && r.lead == pieces[0].n
    ensures at <= |text|
    ensures var d := ReadFrom(text, at, r);
      && d.problem == Trouble(pieces, e)
      && d.text == if d.problem.None? then Utf8.DecodeUtf8(r.bytes + Spelled(pieces)) else []
    decreases |pieces| - 1
  {
    hide ReadFrom, Taking, Stands, Utf8.DecodeUtf8;
    var rest := pieces[1..];
    if rest == [] {
      EndsHere(text, at, e, r);
      assert r.bytes + [] == r.bytes;
      return;
    }
    var p := rest[0];
    assert p == pieces[1] && rest[1..] == pieces[2..];
    NextStands(text, at, rest, e, r);
    var next, taken := at + |Written(p)|, Taking(r, p);
    if TrailHalf(p) {
      SecondHalf(p, r);
      ReadsPieces(text, next, rest[1..], e, taken);
      Regrouped(r.bytes, [' '], Spelled(rest[1..]));
    } else {
      Refused(p, r);
      EndsWhereWritten(text, next, rest[1..], e, taken);
    }
  }

  /** What a string stands for wherever it stands, said of the pieces it is written with: where it ends, whether
      it is closed, the first thing wrong with it, and otherwise the text its bytes decode to. */
  lemma StringSpells(before: string, pieces: seq<Piece>, e: Ending, rest: string)
    requires Writable(pieces, e) && (e.Closed? || rest == [])
    ensures var text := before + ((AllWritten(pieces) + EndText(e)) + rest);
      var d := DecodeText(text, |before|);
      && d.end == |before| + |AllWritten(pieces)| + |EndText(e)| && d.closed == e.Closed?
      && d.problem == Trouble(pieces, e)
      && d.text == if d.problem.None? then Utf8.DecodeUtf8(Spelled(pieces)) else []
  {
    hide Writable, AllWritten, ReadFrom, Spelled, Utf8.DecodeUtf8, Trouble;
    var s := AllWritten(pieces) + EndText(e);
    var text := before + (s + rest);
    assert text[|before|..|before| + |s|] == s;
    var start := Reading([], 0, None);
    EndsWhereWritten(text, |before|, pieces, e, start);
    ReadsPieces(text, |before|, pieces, e, start);
    assert [] + Spelled(pieces) == Spelled(pieces);
  }

  // ----- Every string is so written -----

  lemma HexPiece(text: string, at: nat) returns (p: Piece, next: nat)
    requires at + 1 < |text| && text[at] == '\\' && IsHexEscape(text[at + 1])
    ensures at < next <= |text| && text[at..next] == Written(p) && (p.Hex? || p.Short?)
    ensures WritablePiece(p, text[next..])
  {
    var wide := text[at + 1] == 'U';
    var run := ReadHex(text, at + 2, Whole(wide), 0);
    next := run.at;
    var n, cases := DigitsWriteNumber(text[at + 2..next]);
    p := if run.short then Piece.Short(wide, n, cases) else Hex(wide, n, cases);
    ShortStops(text, at + 2, Whole(wide), 0);
    assert text[at..next] == [text[at], text[at + 1]] + text[at + 2..next];
    if run.short { IsHexDigitIs(text[next]); }
  }

  lemma {:induction false} ShortStops(text: string, at: nat, digits: nat, unit: nat)
    requires at <= |text|
    ensures ReadHex(text, at, digits, unit).short ==> ReadHex(text, at, digits, unit).at < at + digits
    decreases digits
  {
    if digits > 0 && at < |text| && HexValue(text[at]) >= 0 {
      ShortStops(text, at + 1, digits - 1, unit * 16 + HexValue(text[at]));
    }
  }

  lemma SimplePiece(text: string, at: nat) returns (p: Piece)
    requires at + 1 < |text| && text[at] == '\\' && !IsHexEscape(text[at + 1])
    ensures text[at..at + 2] == Written(p) && WritablePiece(p, text[at + 2..])
  {
    var c := text[at + 1];
    p := if c == 'b' then Backspace else if c == 't' then Tab else if c == 'n' then LineFeed
         else if c == 'f' then FormFeed else if c == 'r' then Return else Itself(c);
    assert text[at..at + 2] == [text[at], text[at + 1]];
  }

  lemma FirstPiece(text: string, at: nat) returns (p: Piece, next: nat)
    requires at < |text| && text[at] != '"' && (text[at] == '\\' ==> at + 1 < |text|)
    ensures at < next <= |text| && text[at..next] == Written(p) && WritablePiece(p, text[next..])
  {
    if text[at] != '\\' {
      p, next := Plain(text[at]), at + 1;
    } else if IsHexEscape(text[at + 1]) {
      p, next := HexPiece(text, at);
    } else {
      next := at + 2;
      p := SimplePiece(text, at);
    }
  }

  /** What follows a piece matters up to its first character only. */
  lemma AfterIsEnough(p: Piece, after: string, more: string)
    requires WritablePiece(p, after + more) && (after == [] ==> more == [])
    ensures WritablePiece(p, after)
  {
    assert after != [] ==> (after + more)[0] == after[0];
    assert after == [] ==> after + more == [];
  }

  /** From any place on, a text is a string's pieces and its ending, with more behind it only when it is closed. */
  lemma {:induction false} EveryStringIsWritten(text: string, at: nat) returns (pieces: seq<Piece>, e: Ending, rest: string)
    requires at <= |text|
    ensures Writable(pieces, e) && (e.Closed? || rest == [])
    ensures text == text[..at] + ((AllWritten(pieces) + EndText(e)) + rest)
    decreases |text| - at
  {
    hide WritablePiece, Written;
    if at == |text| {
      pieces, e, rest := [], Open, [];
      assert AllWritten([]) + EndText(Open) == [];
    } else if text[at] == '"' {
      pieces, e, rest := [], Closed, text[at + 1..];
      assert text == text[..at] + ((AllWritten([]) + EndText(Closed)) + text[at + 1..]);
    } else if text[at] == '\\' && at + 1 == |text| {
      pieces, e, rest := [], OpenEscape, [];
      assert text == text[..at] + ((AllWritten([]) + EndText(OpenEscape)) + []);
    } else {
      var p, next := FirstPiece(text, at);
      pieces, e, rest := EveryStringIsWritten(text, next);
      var after := AllWritten(pieces) + EndText(e);
      JoinsPiece(text, at, next, p, after, rest);
      AfterIsEnough(p, after, rest);
      assert ([p] + pieces)[1..] == pieces;
      pieces := [p] + pieces;
      IsWritten(pieces, e);
    }
  }

  lemma JoinsPiece(text: string, at: nat, next: nat, p: Piece, after: string, rest: string)
    requires at < next <= |text| && text[at..next] == Written(p) && text == text[..next] + (after + rest)
    ensures text == text[..at] + ((Written(p) + after) + rest) && text[next..] == after + rest
  {
    hide Written;
    assert text[next..] == after + rest;
    assert text[..next] == text[..at] + text[at..next];
  }

  // ----- Any way of writing a text -----

  /** The piece stands for this one byte by itself. */
  predicate Writes(p: Piece, c: char) {
    !p.Short? && !LeadHalf(p) && !TrailHalf(p) && ByteOf(p) == c
  }

  lemma {:induction false} WritesAll(s: string, pieces: seq<Piece>, e: Ending)
    requires |pieces| == |s| && forall i :: 0 <= i < |s| ==> Writes(pieces[i], s[i])
    ensures Spelled(pieces) == s && Trouble(pieces, e).None?
    decreases |s|
  {
    if s != [] {
      assert Writes(pieces[0], s[0]);
      assert forall i :: 0 <= i < |s[1..]| ==> pieces[1..][i] == pieces[i + 1] && s[1..][i] == s[i + 1];
      WritesAll(s[1..], pieces[1..], e);
      assert s == [s[0]] + s[1..];
    }
  }

  /** However each byte of a text is written, the text reads back: it is itself again exactly when it is
      well-formed UTF-8 without a leading byte order mark. */
  lemma AnyWritingReadsBack(before: string, s: string, pieces: seq<Piece>, rest: string)
    requires |pieces| == |s| && (forall i :: 0 <= i < |s| ==> Writes(pieces[i], s[i])) && Writable(pieces, Closed)
    ensures var d := DecodeText(before + ((AllWritten(pieces) + EndText(Closed)) + rest), |before|);
      && d.closed && d.end == |before| + |AllWritten(pieces)| + 1 && d.problem.None?
      && d.text == Utf8.DecodeUtf8(s)
      && (d.text == s <==> Utf8.WellFormed(s) && !Utf8.HasBom(s))
  {
    hide DecodeText, AllWritten, Writable, Utf8.DecodeUtf8;
    StringSpells(before, pieces, Closed, rest);
    WritesAll(s, pieces, Closed);
    Utf8.DecodeUtf8Theorem(s);
  }
}
