/** SHA-256 as it is computed, against FIPS 180-4. */
module Sha256 {
  // The padding of section 5.1.1 is not built first but made up byte by byte as each block is read, and the message
  // schedule of section 6.2.2 is extended in place. The specification pads, cuts into blocks, expands and compresses
  // as the standard does, and every loop is proved to compute what the specification says.

  import opened Text

  const BLOCK := 64

  // ----- Padding (section 5.1.1) -----

  function Power256(k: nat): (p: nat)
    ensures p > 0
  {
    if k == 0 then 1 else 256 * Power256(k - 1)
  }

  /** The eight bytes of a 64-bit number, high byte first. */
  function LengthBytes(bits: nat): seq<byte> {
    seq(8, i requires 0 <= i < 8 => bits / Power256(7 - i) % 256)
  }

  function Zeros(n: nat): seq<byte> {
    seq(n, i requires 0 <= i < n => 0)
  }

  function BlockCount(length: nat): nat {
    (length + 9 + 63) / BLOCK
  }

  /** The message, a one bit, as many zero bits as it takes, and the length in bits. */
  function Padded(message: seq<byte>): (p: seq<byte>)
    ensures |p| == BLOCK * BlockCount(|message|)
  {
    var zeros := BLOCK * BlockCount(|message|) - |message| - 9;
    message + ([0x80] + (Zeros(zeros) + LengthBytes(8 * |message|)))
  }

  /** The padding is the one the standard asks for: with `l` bits of message and `k` zero bits,
      `l + 1 + k` is 448 modulo 512 and `k` is the least number for which it is. */
  lemma PaddingIsMinimal(length: nat)
    ensures var l := 8 * length;
      var k := 8 * (BLOCK * BlockCount(length) - length - 9) + 7;
      0 <= k < 512 && (l + 1 + k) % 512 == 448 && 8 * BLOCK * BlockCount(length) == l + 1 + k + 64
  {
    var n := BlockCount(length);
    assert 8 * length + 1 + (8 * (BLOCK * n - length - 9) + 7) == 512 * (n - 1) + 448;
  }

  /** The byte the loop puts at `pos`, message, marker, length or zero. */
  function PaddedByte(message: seq<byte>, pos: nat): byte
    requires pos < BLOCK * BlockCount(|message|)
  {
    var end := BLOCK * BlockCount(|message|);
    if pos < |message| then message[pos]
    else if pos == |message| then 0x80
    else if pos >= end - 8 then 8 * |message| / Power256(end - 1 - pos) % 256
    else 0
  }

  /** Byte by byte the loop builds exactly the padded message; the marker never meets the length. */
  lemma BuildsThePadding(message: seq<byte>, pos: nat)
    requires pos < BLOCK * BlockCount(|message|)
    ensures PaddedByte(message, pos) == Padded(message)[pos]
    ensures |message| < BLOCK * BlockCount(|message|) - 8
  {
    hide Power256;
    var end := BLOCK * BlockCount(|message|);
    var zeros := end - |message| - 9;
    var bits := 8 * |message|;
    if pos >= end - 8 {
      var i := pos - (end - 8);
      assert Padded(message)[pos] == LengthBytes(bits)[i];
      assert 7 - i == end - 1 - pos;
    }
  }

  lemma {:induction false} Recovers(x: nat, y: nat, k: nat)
    requires x < Power256(k) && y < Power256(k)
    requires forall i: nat :: i < k ==> x / Power256(i) % 256 == y / Power256(i) % 256
    ensures x == y
    decreases k
  {
    if k > 0 {
      forall i: nat | i < k - 1 ensures x / 256 / Power256(i) % 256 == y / 256 / Power256(i) % 256 {
        Nested(x, Power256(i));
        Nested(y, Power256(i));
        assert Power256(i + 1) == 256 * Power256(i);
      }
      Recovers(x / 256, y / 256, k - 1);
      assert Power256(0) == 1;
      assert x / Power256(0) % 256 == y / Power256(0) % 256;
      assert x / 1 == x && y / 1 == y;
    }
  }

  lemma Nested(x: nat, p: nat)
    requires p > 0
    ensures x / (256 * p) == x / 256 / p
  {
    var q := x / 256 / p;
    var a, b := x % 256, x / 256 % p;
    assert x == 256 * (p * q + b) + a;
    assert x == (256 * p) * q + (256 * b + a);
    assert 256 * b + a < 256 * p;
    Quotient(x, 256 * p, q, 256 * b + a);
  }

  lemma Quotient(x: nat, d: nat, q: nat, r: nat)
    requires d > 0 && x == d * q + r && r < d
    ensures x / d == q
  {
    var e := x / d - q;
    assert d * (x / d) + x % d == x;
    assert d * e == r - x % d;
    Far(d, e);
  }

  lemma Far(d: int, e: int)
    requires d > 0
    ensures e >= 1 ==> d * e >= d
    ensures e <= -1 ==> d * e <= -d
  {
  }

  /** Messages of fewer than 2^61 bytes that pad alike are alike. */
  lemma PaddingIsInjective(a: seq<byte>, b: seq<byte>)
    requires 8 * |a| < Power256(8) && 8 * |b| < Power256(8) && Padded(a) == Padded(b)
    ensures a == b
  {
    SameLength(a, b);
    assert Padded(a)[..|a|] == a && Padded(b)[..|b|] == b;
  }

  lemma SameLength(a: seq<byte>, b: seq<byte>)
    requires 8 * |a| < Power256(8) && 8 * |b| < Power256(8) && Padded(a) == Padded(b)
    ensures |a| == |b|
  {
    hide Power256;
    var end := |Padded(a)|;
    forall i: nat | i < 8 ensures 8 * |a| / Power256(i) % 256 == 8 * |b| / Power256(i) % 256 {
      BuildsThePadding(a, end - 1 - i);
      BuildsThePadding(b, end - 1 - i);
    }
    Recovers(8 * |a|, 8 * |b|, 8);
  }

  // ----- The functions of section 4.1.2 -----

  function Rotr(x: bv32, n: bv32): bv32
    requires 0 < n < 32
  {
    (x >> n) | (x << (32 - n))
  }

  function Ch(x: bv32, y: bv32, z: bv32): bv32 {
    (x & y) ^ (!x & z)
  }

  function Maj(x: bv32, y: bv32, z: bv32): bv32 {
    (x & y) ^ (x & z) ^ (y & z)
  }

  function BigSigma0(x: bv32): bv32 {
    Rotr(x, 2) ^ Rotr(x, 13) ^ Rotr(x, 22)
  }

  function BigSigma1(x: bv32): bv32 {
    Rotr(x, 6) ^ Rotr(x, 11) ^ Rotr(x, 25)
  }

  function SmallSigma0(x: bv32): bv32 {
    Rotr(x, 7) ^ Rotr(x, 18) ^ (x >> 3)
  }

  function SmallSigma1(x: bv32): bv32 {
    Rotr(x, 17) ^ Rotr(x, 19) ^ (x >> 10)
  }

  /** The constants of section 4.2.2. */
  const K: seq<bv32> :=
    [0x428a2f98, 0x71374491, 0xb5c0fbcf, 0xe9b5dba5, 0x3956c25b, 0x59f111f1, 0x923f82a4, 0xab1c5ed5]
    + [0xd807aa98, 0x12835b01, 0x243185be, 0x550c7dc3, 0x72be5d74, 0x80deb1fe, 0x9bdc06a7, 0xc19bf174]
    + [0xe49b69c1, 0xefbe4786, 0x0fc19dc6, 0x240ca1cc, 0x2de92c6f, 0x4a7484aa, 0x5cb0a9dc, 0x76f988da]
    + [0x983e5152, 0xa831c66d, 0xb00327c8, 0xbf597fc7, 0xc6e00bf3, 0xd5a79147, 0x06ca6351, 0x14292967]
    + [0x27b70a85, 0x2e1b2138, 0x4d2c6dfc, 0x53380d13, 0x650a7354, 0x766a0abb, 0x81c2c92e, 0x92722c85]
    + [0xa2bfe8a1, 0xa81a664b, 0xc24b8b70, 0xc76c51a3, 0xd192e819, 0xd6990624, 0xf40e3585, 0x106aa070]
    + [0x19a4c116, 0x1e376c08, 0x2748774c, 0x34b0bcb5, 0x391c0cb3, 0x4ed8aa4a, 0x5b9cca4f, 0x682e6ff3]
    + [0x748f82ee, 0x78a5636f, 0x84c87814, 0x8cc70208, 0x90befffa, 0xa4506ceb, 0xbef9a3f7, 0xc67178f2]

  function RoundConstant(t: nat): bv32 {
    if t < |K| then K[t] else 0
  }

  /** Addition modulo 2^32. */
  function Add(x: bv32, y: bv32): bv32 {
    x + y
  }

  function Sum4(a: bv32, b: bv32, c: bv32, d: bv32): bv32 {
    a + b + c + d
  }

  // ----- One block (section 6.2.2) -----

  function ShiftedIn(b: byte, r: nat): bv32
    requires r < 4
  {
    (b as bv32) << (24 - 8 * r)
  }

  /** The first `r` bytes of word `j` of a block, high byte first. */
  function Partial(bytes: seq<byte>, j: nat, r: nat): bv32
    requires r <= 4 && 4 * j + 4 <= |bytes|
  {
    if r == 0 then 0 else Partial(bytes, j, r - 1) | ShiftedIn(bytes[4 * j + r - 1], r - 1)
  }

  function Words(bytes: seq<byte>): seq<bv32>
    requires |bytes| == BLOCK
  {
    seq(16, j requires 0 <= j < 16 => Partial(bytes, j, 4))
  }

  /** The word after `w`, as the standard orders the sum. */
  function NextWord(w: seq<bv32>): bv32
    requires |w| >= 16
  {
    var t := |w|;
    Sum4(SmallSigma1(w[t - 2]), w[t - 7], SmallSigma0(w[t - 15]), w[t - 16])
  }

  /** The message schedule up to word `t`. */
  function Schedule(m: seq<bv32>, t: nat): (w: seq<bv32>)
    requires |m| == 16 && 16 <= t
    ensures |w| == t
  {
    if t == 16 then m
    else
      var w := Schedule(m, t - 1);
      w + [NextWord(w)]
  }

  datatype Working = Working(a: bv32, b: bv32, c: bv32, d: bv32, e: bv32, f: bv32, g: bv32, h: bv32)

  function Round(s: Working, k: bv32, w: bv32): Working {
    var t1 := Add(Add(Add(Add(s.h, BigSigma1(s.e)), Ch(s.e, s.f, s.g)), k), w);
    var t2 := Add(BigSigma0(s.a), Maj(s.a, s.b, s.c));
    Working(Add(t1, t2), s.a, s.b, s.c, Add(s.d, t1), s.e, s.f, s.g)
  }

  /** The working variables after the first `t` rounds. */
  function Rounds(s: Working, w: seq<bv32>, t: nat): Working
    requires t <= |w|
  {
    if t == 0 then s else Round(Rounds(s, w, t - 1), RoundConstant(t - 1), w[t - 1])
  }

  function Plus(x: Working, y: Working): Working {
    Working(Add(x.a, y.a), Add(x.b, y.b), Add(x.c, y.c), Add(x.d, y.d),
            Add(x.e, y.e), Add(x.f, y.f), Add(x.g, y.g), Add(x.h, y.h))
  }

  function Compress(h: Working, bytes: seq<byte>): Working
    requires |bytes| == BLOCK
  {
    Plus(h, Rounds(h, Schedule(Words(bytes), 64), 64))
  }

  /** The initial hash value of section 5.3.3. */
  const INITIAL := Working(0x6a09e667, 0xbb67ae85, 0x3c6ef372, 0xa54ff53a, 0x510e527f, 0x9b05688c, 0x1f83d9ab, 0x5be0cd19)

  /** The hash value after the first `n` blocks of a padded message. */
  function Hash(padded: seq<byte>, n: nat): Working
    requires BLOCK * n <= |padded|
  {
    if n == 0 then INITIAL else Compress(Hash(padded, n - 1), padded[BLOCK * (n - 1)..BLOCK * n])
  }

  // ----- The computation -----

  function BlockAt(padded: seq<byte>, block: nat): seq<byte>
    requires BLOCK * (block + 1) <= |padded|
  {
    padded[BLOCK * block..BLOCK * (block + 1)]
  }

  /** Word `j` of the block when its first `i` bytes have been put in. */
  ghost predicate Filled(w: seq<bv32>, bytes: seq<byte>, i: nat) {
    && |w| == 64 && |bytes| == BLOCK && i <= BLOCK
    && forall j :: 0 <= j < 16 ==>
         w[j] == Partial(bytes, j, if 4 * j + 4 <= i then 4 else if 4 * j <= i then i - 4 * j else 0)
  }

  lemma FillsNothing(w: seq<bv32>, bytes: seq<byte>)
    requires |w| == 64 && |bytes| == BLOCK && forall j :: 0 <= j < 64 ==> w[j] == 0
    ensures Filled(w, bytes, 0)
  {
  }

  lemma FillsOne(w: seq<bv32>, bytes: seq<byte>, i: nat)
    requires i < BLOCK && Filled(w, bytes, i)
    ensures Filled(w[i / 4 := w[i / 4] | ShiftedIn(bytes[i], i % 4)], bytes, i + 1)
  {
    hide ShiftedIn;
    var more := w[i / 4 := w[i / 4] | ShiftedIn(bytes[i], i % 4)];
    forall j | 0 <= j < 16
      ensures more[j] == Partial(bytes, j, if 4 * j + 4 <= i + 1 then 4 else if 4 * j <= i + 1 then i + 1 - 4 * j else 0)
    {
      if j == i / 4 {
        assert 4 * j + i % 4 == i;
      }
    }
  }

  lemma FilledAll(w: seq<bv32>, bytes: seq<byte>)
    requires Filled(w, bytes, BLOCK)
    ensures w[..16] == Words(bytes)
  {
    hide Partial;
  }

  /** The sixteen words of a block, read as it is padded. */
  method ReadBlock(message: seq<byte>, block: nat) returns (w: array<bv32>)
    requires BLOCK * (block + 1) <= |Padded(message)|
    ensures fresh(w) && w.Length == 64 && w[..16] == Words(BlockAt(Padded(message), block))
  {
    hide Padded, PaddedByte, ShiftedIn, Partial, Words, Filled;
    ghost var bytes := BlockAt(Padded(message), block);
    w := new bv32[64](_ => 0);
    FillsNothing(w[..], bytes);
    var i := 0;
    while i < 64
      invariant i <= 64 && w.Length == 64 && Filled(w[..], bytes, i)
    {
      var b := PaddedByte(message, block * 64 + i);
      BuildsThePadding(message, block * 64 + i);
      FillsOne(w[..], bytes, i);
      PutIn(w, i / 4, ShiftedIn(b, i % 4));
      i := i + 1;
    }
    FilledAll(w[..], bytes);
    assert w[..][..16] == w[..16];
  }

  method PutIn(w: array<bv32>, j: nat, part: bv32)
    requires j < w.Length
    modifies w
    ensures w[..] == old(w[..])[j := old(w[j]) | part]
  {
    w[j] := w[j] | part;
  }

  /** The rest of the schedule, in place. */
  method Extend(w: array<bv32>)
    requires w.Length == 64
    modifies w
    ensures w[..] == Schedule(old(w[..16]), 64)
  {
    hide Schedule, SmallSigma0, SmallSigma1, Sum4;
    ghost var m := w[..16];
    StartsSchedule(m);
    var i := 16;
    while i < 64
      invariant 16 <= i <= 64 && w[..i] == Schedule(m, i)
    {
      OneMoreWord(m, i);
      ghost var was := w[..i];
      Reorders(w[i - 16], SmallSigma0(w[i - 15]), w[i - 7], SmallSigma1(w[i - 2]));
      w[i] := Sum4(w[i - 16], SmallSigma0(w[i - 15]), w[i - 7], SmallSigma1(w[i - 2]));
      assert w[..i] == was;
      assert w[..i + 1] == was + [w[i]];
      i := i + 1;
    }
    assert w[..64] == w[..];
  }

  lemma StartsSchedule(m: seq<bv32>)
    requires |m| == 16
    ensures Schedule(m, 16) == m
  {
  }

  lemma OneMoreWord(m: seq<bv32>, t: nat)
    requires |m| == 16 && 16 <= t
    ensures Schedule(m, t + 1) == Schedule(m, t) + [NextWord(Schedule(m, t))]
  {
    hide NextWord;
  }

  /** The code adds in another order. */
  lemma Reorders(a: bv32, b: bv32, c: bv32, d: bv32)
    ensures Sum4(a, b, c, d) == Sum4(d, c, b, a)
  {
  }

  /** The digest is the standard's hash of the padded message. */
  method Digest(message: seq<byte>) returns (h: Working)
    ensures h == Hash(Padded(message), BlockCount(|message|))
  {
    hide Padded, Rounds, Schedule, Words, Round, Hash, BlockAt;
    h := INITIAL;
    var blocks := BlockCount(|message|);
    NoBlocks(Padded(message));
    var block := 0;
    while block < blocks
      invariant block <= blocks && h == Hash(Padded(message), block)
    {
      var w := ReadBlock(message, block);
      Extend(w);
      var s := AllRounds(h, w);
      OneMoreBlock(Padded(message), block);
      h := Plus(h, s);
      block := block + 1;
    }
  }

  method AllRounds(h: Working, w: array<bv32>) returns (s: Working)
    requires w.Length == 64
    ensures s == Rounds(h, w[..], 64)
  {
    hide Rounds, Round;
    s := h;
    var i := 0;
    NoRounds(h, w[..]);
    while i < 64
      invariant i <= 64 && s == Rounds(h, w[..], i)
    {
      OneMoreRound(h, w[..], i);
      s := OneRound(s, RoundConstant(i), w[i]);
      i := i + 1;
    }
  }

  /** One round as the code shifts its eight variables along. */
  method OneRound(s: Working, k: bv32, w: bv32) returns (next: Working)
    ensures next == Round(s, k, w)
  {
    hide BigSigma0, BigSigma1, Ch, Maj, Add;
    var a, b, c, d, e, f, g, v := s.a, s.b, s.c, s.d, s.e, s.f, s.g, s.h;
    var t1 := Add(Add(Add(Add(v, BigSigma1(e)), Ch(e, f, g)), k), w);
    var t2 := Add(BigSigma0(a), Maj(a, b, c));
    v := g;
    g := f;
    f := e;
    e := Add(d, t1);
    d := c;
    c := b;
    b := a;
    a := Add(t1, t2);
    next := Working(a, b, c, d, e, f, g, v);
  }

  lemma NoBlocks(padded: seq<byte>)
    ensures Hash(padded, 0) == INITIAL
  {
  }

  lemma NoRounds(s: Working, w: seq<bv32>)
    ensures Rounds(s, w, 0) == s
  {
  }

  lemma OneMoreRound(s: Working, w: seq<bv32>, t: nat)
    requires t < |w|
    ensures Rounds(s, w, t + 1) == Round(Rounds(s, w, t), RoundConstant(t), w[t])
  {
    hide Round, RoundConstant;
  }

  lemma OneMoreBlock(padded: seq<byte>, block: nat)
    requires BLOCK * (block + 1) <= |padded|
    ensures var before := Hash(padded, block);
      Hash(padded, block + 1) == Plus(before, Rounds(before, Schedule(Words(BlockAt(padded, block)), 64), 64))
  {
    hide Plus, Rounds, Schedule, Words;
  }

  // ----- The digest as text -----

  function HexDigit(v: nat): char
    requires v < 16
  {
    if v < 10 then '0' + v as char else 'a' + (v - 10) as char
  }

  /** A word as eight lower-case hexadecimal digits. */
  function Hex(word: bv32): (s: string)
    ensures |s| == 8
  {
    HexOf(word as nat)
  }

  function HexOf(v: nat): (s: string)
    ensures |s| == 8
  {
    seq(8, i requires 0 <= i < 8 => HexDigit(v / Power16(7 - i) % 16))
  }

  function Power16(k: nat): (p: nat)
    ensures p > 0
  {
    if k == 0 then 1 else 16 * Power16(k - 1)
  }

  method Sha256Hex(message: seq<byte>) returns (text: string)
    ensures var h := Hash(Padded(message), BlockCount(|message|));
      text == Hex(h.a) + Hex(h.b) + Hex(h.c) + Hex(h.d) + Hex(h.e) + Hex(h.f) + Hex(h.g) + Hex(h.h)
    ensures |text| == 64
  {
    hide Hex, Hash, Padded;
    var h := Digest(message);
    text := Hex(h.a) + Hex(h.b) + Hex(h.c) + Hex(h.d) + Hex(h.e) + Hex(h.f) + Hex(h.g) + Hex(h.h);
  }
}
