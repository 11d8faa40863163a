module Utf8 {
  // The UTF-8 decode that runs when a quoted string closes. Text is a `string` whose characters stand for bytes; a
  // character above 0xFF is no byte, begins no sequence, and is replaced like any other byte that begins none.

  import Text

  const BOM: string := ['\U{EF}', '\U{BB}', '\U{BF}']
  const REPLACEMENT: string := ['\U{EF}', '\U{BF}', '\U{BD}']

  predicate HasBom(bytes: string) {
    BOM <= bytes
  }

  // ----- The grammar of RFC 3629, section 4 -----

  predicate Between(lo: int, c: char, hi: int) {
    lo <= c as int <= hi
  }

  predicate Tail(c: char) {
    Between(0x80, c, 0xBF)
  }

  predicate SecondOfThree(lead: char, second: char) {
    || (Between(0xE0, lead, 0xE0) && Between(0xA0, second, 0xBF))
    || (Between(0xE1, lead, 0xEC) && Tail(second))
    || (Between(0xED, lead, 0xED) && Between(0x80, second, 0x9F))
    || (Between(0xEE, lead, 0xEF) && Tail(second))
  }

  predicate SecondOfFour(lead: char, second: char) {
    || (Between(0xF0, lead, 0xF0) && Between(0x90, second, 0xBF))
    || (Between(0xF1, lead, 0xF3) && Tail(second))
    || (Between(0xF4, lead, 0xF4) && Between(0x80, second, 0x8F))
  }

  /** How many octets the UTF8-char at the front of `s` has by the grammar; zero when none starts there. */
  function CharLength(s: string): (n: nat)
    ensures n <= 4 && n <= |s|
  {
    if |s| >= 1 && Between(0x00, s[0], 0x7F) then 1
    else if |s| >= 2 && Between(0xC2, s[0], 0xDF) && Tail(s[1]) then 2
    else if |s| >= 3 && SecondOfThree(s[0], s[1]) && Tail(s[2]) then 3
    else if |s| >= 4 && SecondOfFour(s[0], s[1]) && Tail(s[2]) && Tail(s[3]) then 4
    else 0
  }

  predicate WellFormed(s: string) {
    s == [] || (CharLength(s) > 0 && WellFormed(s[CharLength(s)..]))
  }

  // ----- The decoder -----

  /** How many bytes a sequence led by `lead` claims; zero when no multi-byte sequence starts so. */
  function ClaimedLength(lead: char): nat {
    if Between(0xC0, lead, 0xDF) then 2
    else if Between(0xE0, lead, 0xEF) then 3
    else if Between(0xF0, lead, 0xF7) then 4
    else 0
  }

  function LeadBits(lead: char): nat
    requires ClaimedLength(lead) != 0
  {
    if ClaimedLength(lead) == 2 then lead as int - 0xC0
    else if ClaimedLength(lead) == 3 then lead as int - 0xE0
    else lead as int - 0xF0
  }

  function Smallest(length: nat): nat {
    if length == 2 then 0x80 else if length == 3 then 0x800 else 0x10000
  }

  /** The code point the first `length` bytes of `s` spell, six bits per continuation byte. */
  function Code(s: string, length: nat): nat
    requires 1 <= length <= |s| && ClaimedLength(s[0]) != 0
    requires forall i :: 1 <= i < length ==> Tail(s[i])
  {
    if length == 1 then LeadBits(s[0])
    else
      assert Tail(s[length - 1]);
      Code(s, length - 1) * 64 + (s[length - 1] as int - 0x80)
  }

  predicate AcceptedCode(code: nat, length: nat) {
    Smallest(length) <= code <= 0x10FFFF && !(0xD800 <= code <= 0xDFFF)
  }

  /** The multi-byte sequence at the front of `s` is one the decoder copies. */
  predicate AcceptsSequence(s: string)
    requires |s| > 0
  {
    var length := ClaimedLength(s[0]);
    && length != 0 && length <= |s|
    && (forall i :: 1 <= i < length ==> Tail(s[i]))
    && AcceptedCode(Code(s, length), length)
  }

  /** What the decoder copies from the front of `s`; zero when it replaces one byte instead. */
  function Taken(s: string): (n: nat)
    ensures n <= |s|
  {
    if s == [] then 0
    else if s[0] as int < 0x80 then 1
    else if AcceptsSequence(s) then ClaimedLength(s[0]) else 0
  }

  function Decoded(s: string): string {
    if s == [] then []
    else if Taken(s) > 0 then s[..Taken(s)] + Decoded(s[Taken(s)..])
    else REPLACEMENT + Decoded(s[1..])
  }

  function DecodeUtf8(bytes: string): string {
    Decoded(if HasBom(bytes) then bytes[3..] else bytes)
  }

  lemma NothingDecoded()
    ensures Decoded([]) == []
  {
  }

  lemma AsciiIsTaken(s: string)
    requires s != []
    ensures s[0] as int < 0x80 ==> Taken(s) == 1
  {
  }

  /** What the decoder appends at `at`, and where it goes on. */
  lemma DecodedAt(out: string, bytes: string, at: nat)
    requires at < |bytes|
    ensures var n := Taken(bytes[at..]);
      && (n > 0 ==> out + Decoded(bytes[at..]) == (out + bytes[at..at + n]) + Decoded(bytes[at + n..]))
      && (n == 0 ==> out + Decoded(bytes[at..]) == (out + REPLACEMENT) + Decoded(bytes[at + 1..]))
  {
    hide Taken;
    var rest := bytes[at..];
    var n := Taken(rest);
    if n > 0 {
      assert Decoded(rest) == rest[..n] + Decoded(rest[n..]);
      assert rest[..n] == bytes[at..at + n] && rest[n..] == bytes[at + n..];
      Text.Regrouped(out, bytes[at..at + n], Decoded(bytes[at + n..]));
    } else {
      assert Decoded(rest) == REPLACEMENT + Decoded(rest[1..]);
      assert rest[1..] == bytes[at + 1..];
      Text.Regrouped(out, REPLACEMENT, Decoded(bytes[at + 1..]));
    }
  }

  /** The check of one multi-byte sequence: its claimed length, its continuation bytes, its code point. */
  method CheckSequence(bytes: string, at: nat) returns (valid: bool, length: nat)
    requires at < |bytes| && bytes[at] as int >= 0x80
    ensures Taken(bytes[at..]) == if valid then length else 0
    ensures valid ==> length >= 2
  {
    var lead := bytes[at];
    length := 0;
    var code: nat := 0;
    if 0xC0 <= lead as int <= 0xDF {
      length := 2;
      code := lead as int - 0xC0;
    } else if 0xE0 <= lead as int <= 0xEF {
      length := 3;
      code := lead as int - 0xE0;
    } else if 0xF0 <= lead as int <= 0xF7 {
      length := 4;
      code := lead as int - 0xF0;
    }
    ghost var rest := bytes[at..];
    valid := length != 0 && at + length <= |bytes|;
    var i := 1;
    while valid && i < length
      invariant 1 <= i && length == ClaimedLength(rest[0])
      invariant valid ==> 2 <= length <= |rest| && i <= length
      invariant valid ==> forall k :: 1 <= k < i ==> Tail(rest[k])
      invariant valid ==> code == Code(rest, i)
      invariant !valid ==> !AcceptsSequence(rest)
    {
      var next := bytes[at + i];
      assert next == rest[i];
      if !(0x80 <= next as int <= 0xBF) {
        valid := false;
      } else {
        code := code * 64 + (next as int - 0x80);
      }
      i := i + 1;
    }
    if valid {
      valid := Smallest(length) <= code <= 0x10FFFF && !(0xD800 <= code <= 0xDFFF);
    }
  }

  /** The decoder's own loop: it copies a byte or a checked sequence, or replaces one byte. */
  method DecodeUtf8TheWayGodotDoes(bytes: string) returns (out: string)
    ensures out == DecodeUtf8(bytes)
  {
    hide Taken, Decoded;
    out := [];
    var at: nat := if HasBom(bytes) then 3 else 0;
    assert bytes[0..] == bytes;
    while at < |bytes|
      invariant at <= |bytes|
      invariant out + Decoded(bytes[at..]) == DecodeUtf8(bytes)
    {
      DecodedAt(out, bytes, at);
      AsciiIsTaken(bytes[at..]);
      if bytes[at] as int < 0x80 {
        assert bytes[at..at + 1] == [bytes[at]];
        out := out + [bytes[at]];
        at := at + 1;
        continue;
      }
      var valid, length := CheckSequence(bytes, at);
      if valid {
        out := out + bytes[at..at + length];
        at := at + length;
      } else {
        out := out + REPLACEMENT;
        at := at + 1;
      }
    }
    assert bytes[at..] == [] && Decoded([]) == [] by { NothingDecoded(); }
  }

  // ----- What the decode guarantees -----

  /** The arithmetic test on the accumulated code point and the octet ranges of the grammar are the
      same test: overlong forms, surrogates and codes past 0x10FFFF all fail both. */
  lemma TakenIsTheGrammar(s: string)
    ensures Taken(s) == CharLength(s)
  {
    if s != [] && s[0] as int >= 0x80 && ClaimedLength(s[0]) != 0 && ClaimedLength(s[0]) <= |s| {
      var n := ClaimedLength(s[0]);
      if forall i :: 1 <= i < n ==> Tail(s[i]) {
        assert Tail(s[1]);
        assert Code(s, 2) == Code(s, 1) * 64 + (s[1] as int - 0x80);
        if n >= 3 {
          assert Tail(s[2]);
          assert Code(s, 3) == Code(s, 2) * 64 + (s[2] as int - 0x80);
        }
        if n == 4 {
          assert Tail(s[3]);
          assert Code(s, 4) == Code(s, 3) * 64 + (s[3] as int - 0x80);
        }
      }
    }
  }

  lemma CharLengthOfPrefix(s: string, rest: string)
    requires CharLength(s) > 0
    ensures CharLength(s + rest) == CharLength(s)
  {
  }

  /** The output is always well-formed UTF-8 and at most three times as long. */
  lemma {:induction false} DecodedIsWellFormed(s: string)
    ensures WellFormed(Decoded(s)) && |Decoded(s)| <= 3 * |s|
  {
    if s != [] {
      TakenIsTheGrammar(s);
      var n := Taken(s);
      var head := if n > 0 then s[..n] else REPLACEMENT;
      var tail := Decoded(if n > 0 then s[n..] else s[1..]);
      DecodedIsWellFormed(if n > 0 then s[n..] else s[1..]);
      assert CharLength(head) == |head| > 0;
      CharLengthOfPrefix(head, tail);
      assert (head + tail)[|head|..] == tail;
    }
  }

  lemma {:induction false} DecodedKeepsWellFormed(s: string)
    requires WellFormed(s)
    ensures Decoded(s) == s
  {
    if s != [] {
      TakenIsTheGrammar(s);
      DecodedKeepsWellFormed(s[Taken(s)..]);
    }
  }

  lemma ReplacementIsNoBom(s: string)
    requires s != [] && Taken(s) == 0
    ensures Decoded(s)[..3] == REPLACEMENT != BOM
  {
    assert REPLACEMENT[1] != BOM[1];
  }

  /** No decode puts a byte order mark in front of its own input: that would take an endless run of them. */
  lemma {:induction false} DecodedNeverPrependsBom(s: string)
    ensures Decoded(s) != BOM + s
  {
    if Decoded(s) == BOM + s {
      assert Decoded(s)[..3] == BOM;
      TakenIsTheGrammar(s);
      var n := Taken(s);
      assert Decoded(s)[1] == BOM[1];
      if s != [] && n == 0 { ReplacementIsNoBom(s); }
      if n > 0 {
        assert s[0] == Decoded(s)[0] == '\U{EF}';
        assert n == 3 && Decoded(s)[..3] == s[..3];
        assert Decoded(s[3..]) == Decoded(s)[3..] == s;
        assert s == BOM + s[3..];
        DecodedNeverPrependsBom(s[3..]);
      }
    }
  }

  /** The decode always yields well-formed UTF-8, at most three times as long as its input, and changes
      nothing exactly when the input is already well formed and has no leading byte order mark. */
  lemma DecodeUtf8Theorem(bytes: string)
    ensures WellFormed(DecodeUtf8(bytes)) && |DecodeUtf8(bytes)| <= 3 * |bytes|
    ensures DecodeUtf8(bytes) == bytes <==> WellFormed(bytes) && !HasBom(bytes)
    ensures HasBom(bytes) && WellFormed(bytes) ==> DecodeUtf8(bytes) == bytes[3..]
  {
    var body := if HasBom(bytes) then bytes[3..] else bytes;
    DecodedIsWellFormed(body);
    if WellFormed(bytes) && !HasBom(bytes) {
      DecodedKeepsWellFormed(bytes);
    }
    if HasBom(bytes) {
      assert bytes == BOM + body;
      DecodedNeverPrependsBom(body);
      assert CharLength(bytes) == 3;
      if WellFormed(bytes) {
        DecodedKeepsWellFormed(body);
      }
    }
  }

  lemma DecodedFront(s: string, rest: string)
    requires CharLength(s) > 0
    ensures var n := CharLength(s);
      Decoded(s + rest) == s[..n] + Decoded(s[n..] + rest)
  {
    var n := CharLength(s);
    CharLengthOfPrefix(s, rest);
    TakenIsTheGrammar(s + rest);
    assert (s + rest)[..n] == s[..n] && (s + rest)[n..] == s[n..] + rest;
  }

  lemma Joined(s: string, n: nat, t: string)
    requires n <= |s|
    ensures s[..n] + (s[n..] + t) == s + t
  {
  }

  lemma {:induction false} DecodedAfterWellFormed(good: string, rest: string)
    requires WellFormed(good)
    ensures Decoded(good + rest) == good + Decoded(rest)
  {
    if good == [] {
      assert [] + rest == rest;
    } else {
      var n := CharLength(good);
      DecodedFront(good, rest);
      DecodedAfterWellFormed(good[n..], rest);
      Joined(good, n, Decoded(rest));
    }
  }

  /** One bad byte costs exactly itself: decoding carries on at the very next byte, and well-formed text
      in front of it comes through untouched. */
  lemma DecodeResumesAfterBadByte(good: string, bad: char, rest: string)
    requires WellFormed(good) && Taken([bad] + rest) == 0
    ensures Decoded(good + ([bad] + rest)) == good + (REPLACEMENT + Decoded(rest))
  {
    DecodedAfterWellFormed(good, [bad] + rest);
    assert ([bad] + rest)[1..] == rest;
  }
}
