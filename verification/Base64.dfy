module Base64 {
  // Base64 as it is encoded and decoded, against section 4 of RFC 4648. The code keeps bits in a 32-bit accumulator
  // that wraps on long input and takes six or eight of them out at a time; the specification cuts the input into
  // groups of three bytes and four letters. Decoding inverts encoding although the accumulator has long forgotten
  // where the input began.

  import opened Text

  type sextet = x: int | 0 <= x < 64

  // ----- The alphabet -----

  function Letter(v: sextet): char {
    if v < 26 then 'A' + v as char
    else if v < 52 then 'a' + (v - 26) as char
    else if v < 62 then '0' + (v - 52) as char
    else if v == 62 then '+' else '/'
  }

  /** A character's place in the alphabet, or -1. */
  function Place(c: char): (v: int)
    ensures -1 <= v < 64
  {
    if 'A' <= c <= 'Z' then c as int - 'A' as int
    else if 'a' <= c <= 'z' then c as int - 'a' as int + 26
    else if '0' <= c <= '9' then c as int - '0' as int + 52
    else if c == '+' then 62 else if c == '/' then 63 else -1
  }

  lemma LettersHavePlaces(v: sextet, c: char)
    ensures Place(Letter(v)) == v && Letter(v) != '='
    ensures Place(c) != -1 ==> Letter(Place(c)) == c
  {
  }

  // ----- What the encoding is -----

  /** Byte `i` of the data, zero bits past its end. */
  function ByteAt(data: seq<byte>, i: nat): byte {
    if i < |data| then data[i] else 0
  }

  /** The `k`-th group of six bits of the data. */
  function SextetAt(data: seq<byte>, k: nat): sextet {
    var q := k / 4 * 3;
    var a: int, b: int, c: int := ByteAt(data, q), ByteAt(data, q + 1), ByteAt(data, q + 2);
    if k % 4 == 0 then a / 4
    else if k % 4 == 1 then a % 4 * 16 + b / 16
    else if k % 4 == 2 then b % 16 * 4 + c / 64
    else c % 64
  }

  /** As many groups as it takes to hold every bit. */
  function SextetCount(n: nat): nat {
    (8 * n + 5) / 6
  }

  function Sextets(data: seq<byte>): seq<sextet> {
    seq(SextetCount(|data|), k requires 0 <= k < SextetCount(|data|) => SextetAt(data, k))
  }

  function Quartets(n: nat): nat {
    (n + 2) / 3
  }

  function LetterAt(data: seq<byte>, k: nat): char {
    if k < SextetCount(|data|) then Letter(SextetAt(data, k)) else '='
  }

  /** The groups as letters, padded to a multiple of four characters. */
  function Encoded(data: seq<byte>): string {
    seq(4 * Quartets(|data|), k requires 0 <= k < 4 * Quartets(|data|) => LetterAt(data, k))
  }

  method Encode(data: seq<byte>) returns (out: string)
    ensures out == Encoded(data)
  {
    hide Encoded, Letter, ByteAt;
    out := [];
    var i := 0;
    ghost var q := 0;
    QuartetCount(|data|, 0);
    while i < |data|
      invariant i <= |data| && q <= Quartets(|data|)
      invariant if i < |data| then i == 3 * q else q == Quartets(|data|)
      invariant |Encoded(data)| == 4 * Quartets(|data|) && out == Encoded(data)[..4 * q]
    {
      var remaining := |data| - i;
      var a: int := data[i];
      i := i + 1;
      var b: int, c: int := 0, 0;
      if remaining > 1 { b := data[i]; i := i + 1; }
      if remaining > 2 { c := data[i]; i := i + 1; }
      var triple := a * 0x1_0000 + b * 0x100 + c;
      QuartetCount(|data|, q);
      ReadsTriple(data, q, a, b, c);
      SplitsTriple(a, b, c);
      var third := if remaining > 1 then Letter(triple / 64 % 64) else '=';
      var fourth := if remaining > 2 then Letter(triple % 64) else '=';
      out := out + [Letter(triple / 0x4_0000 % 64), Letter(triple / 0x1000 % 64), third, fourth];
      Quartet(data, q, a, b, c);
      q := q + 1;
    }
  }

  lemma QuartetCount(n: nat, q: nat)
    ensures 3 * q < n ==> q + 1 <= Quartets(n) && (n <= 3 * q + 3 ==> q + 1 == Quartets(n))
    ensures forall data: seq<byte> :: |Encoded(data)| == 4 * Quartets(|data|)
    ensures n == 0 ==> Quartets(n) == 0
  {
  }

  lemma ReadsTriple(data: seq<byte>, q: nat, a: int, b: int, c: int)
    requires 3 * q < |data| && a == data[3 * q]
    requires b == (if |data| - 3 * q > 1 then data[3 * q + 1] as int else 0)
    requires c == (if |data| - 3 * q > 2 then data[3 * q + 2] as int else 0)
    ensures a == ByteAt(data, 3 * q) && b == ByteAt(data, 3 * q + 1) && c == ByteAt(data, 3 * q + 2)
  {
  }

  /** The four characters written for the `q`-th three bytes. */
  lemma Quartet(data: seq<byte>, q: nat, a: int, b: int, c: int)
    requires 3 * q < |data| && 4 * q + 4 <= |Encoded(data)|
    requires a == ByteAt(data, 3 * q) && b == ByteAt(data, 3 * q + 1) && c == ByteAt(data, 3 * q + 2)
    ensures Encoded(data)[..4 * (q + 1)] == Encoded(data)[..4 * q]
           + [Letter(a / 4), Letter(a % 4 * 16 + b / 16),
              if |data| - 3 * q > 1 then Letter(b % 16 * 4 + c / 64) else '=',
              if |data| - 3 * q > 2 then Letter(c % 64) else '=']
  {
    hide *;
    FourSextets(data, q);
    CountOfSextets(|data|, q);
    FourLetters(data, q);
    FourMore(Encoded(data), 4 * q);
  }

  lemma FourLetters(data: seq<byte>, q: nat)
    requires 4 * q + 4 <= |Encoded(data)|
    ensures forall k :: 4 * q <= k < 4 * q + 4 ==>
              Encoded(data)[k] == if k < SextetCount(|data|) then Letter(SextetAt(data, k)) else '='
  {
    hide SextetAt, SextetCount, Letter, Quartets;
  }

  lemma FourMore(s: string, k: nat)
    requires k + 4 <= |s|
    ensures s[..k + 4] == s[..k] + [s[k], s[k + 1], s[k + 2], s[k + 3]]
  {
  }

  lemma FourSextets(data: seq<byte>, q: nat)
    ensures var a: int, b: int, c: int := ByteAt(data, 3 * q), ByteAt(data, 3 * q + 1), ByteAt(data, 3 * q + 2);
      && SextetAt(data, 4 * q) == a / 4 && SextetAt(data, 4 * q + 1) == a % 4 * 16 + b / 16
      && SextetAt(data, 4 * q + 2) == b % 16 * 4 + c / 64 && SextetAt(data, 4 * q + 3) == c % 64
  {
    assert (4 * q) / 4 == q && (4 * q + 1) / 4 == q && (4 * q + 2) / 4 == q && (4 * q + 3) / 4 == q;
  }

  lemma SplitsTriple(a: int, b: int, c: int)
    requires 0 <= a < 256 && 0 <= b < 256 && 0 <= c < 256
    ensures var t := a * 0x1_0000 + b * 0x100 + c;
      && t / 0x4_0000 % 64 == a / 4 && t / 0x1000 % 64 == a % 4 * 16 + b / 16
      && t / 64 % 64 == b % 16 * 4 + c / 64 && t % 64 == c % 64
  {
    var t := a * 0x1_0000 + b * 0x100 + c;
    var first, second, third, fourth := a / 4, a % 4 * 16 + b / 16, b % 16 * 4 + c / 64, c % 64;
    assert t == first * 0x4_0000 + second * 0x1000 + third * 64 + fourth;
    ReadsFour(first, second, third, fourth);
  }

  lemma ReadsFour(first: int, second: int, third: int, fourth: int)
    requires 0 <= first < 64 && 0 <= second < 64 && 0 <= third < 64 && 0 <= fourth < 64
    ensures var t := first * 0x4_0000 + second * 0x1000 + third * 64 + fourth;
      t / 0x4_0000 % 64 == first && t / 0x1000 % 64 == second && t / 64 % 64 == third && t % 64 == fourth
  {
    var t := first * 0x4_0000 + second * 0x1000 + third * 64 + fourth;
    assert t / 64 == first * 0x1000 + second * 64 + third;
    assert t / 0x1000 == first * 64 + second;
    assert t / 0x4_0000 == first;
  }

  lemma CountOfSextets(n: nat, q: nat)
    requires 3 * q < n
    ensures 4 * q + 1 < SextetCount(n)
    ensures 4 * q + 2 < SextetCount(n) <==> 3 * q + 1 < n
    ensures 4 * q + 3 < SextetCount(n) <==> 3 * q + 2 < n
  {
  }

  // ----- What the decoding is -----

  /** The places of the alphabet's characters before the first padding; anything else is passed over. */
  function Read(input: string): seq<sextet> {
    if input == [] || input[0] == '=' then []
    else if Place(input[0]) == -1 then Read(input[1..])
    else [Place(input[0])] + Read(input[1..])
  }

  function GroupAt(groups: seq<sextet>, k: nat): int {
    if k < |groups| then groups[k] else 0
  }

  /** How many whole bytes the groups hold. */
  function ByteCount(n: nat): nat {
    6 * n / 8
  }

  /** Byte `i` of what the groups hold. */
  function Regrouped(groups: seq<sextet>, i: nat): byte {
    var q := i / 3 * 4;
    if i % 3 == 0 then GroupAt(groups, q) * 4 + GroupAt(groups, q + 1) / 16
    else if i % 3 == 1 then GroupAt(groups, q + 1) % 16 * 16 + GroupAt(groups, q + 2) / 4
    else GroupAt(groups, q + 2) % 4 * 64 + GroupAt(groups, q + 3)
  }

  function BytesOf(groups: seq<sextet>): seq<byte> {
    seq(ByteCount(|groups|), i requires 0 <= i < ByteCount(|groups|) => Regrouped(groups, i))
  }

  function Decoded(input: string): seq<byte> {
    BytesOf(Read(input))
  }

  /** A value kept in 32 bits, two's complement. */
  function Wrapped(x: int): int {
    (x + 0x8000_0000) % 0x1_0000_0000 - 0x8000_0000
  }

  /** An arithmetic shift to the right by as many bits as the loop ever shifts. */
  function Shifted(x: int, k: int): int {
    if k == 4 then x / 16 else if k == 2 then x / 4 else x
  }

  /** Decodes character by character. The accumulator wraps on long input and the bytes do not notice. */
  method Decode(input: string) returns (out: seq<byte>)
    ensures out == Decoded(input)
    ensures |out| == 6 * |Read(input)| / 8 <= |input| * 3 / 4
  {
    hide Regrouped, Place, Read, Wrapped, ByteCount, GroupAt, Shifted;
    out := [];
    ReadIsShorter(input);
    ghost var groups: seq<sextet> := [];
    var val := 0;
    var valb := -8;
    NothingYet();
    for p := 0 to |input|
      invariant groups + Read(input[p..]) == Read(input)
      invariant out == BytesOf(groups) && valb == 6 * |groups| - 8 * |out| - 8 && -8 <= valb < 0
      invariant val % 0x1000 == Low(groups)
    {
      assert input[p..][0] == input[p] && input[p..][1..] == input[p + 1..];
      ReadsOn(input[p..]);
      if input[p] == '=' {
        assert groups + [] == groups;
        return;
      }
      var place := Place(input[p]);
      if place != -1 {
        ghost var before := groups;
        groups := groups + [place];
        assert before + ([place] + Read(input[p + 1..])) == groups + Read(input[p + 1..]);
        Accumulates(before, val, place);
        val := Wrapped(val * 64 + place);
        valb := valb + 6;
        GrowsByOne(before, place, |out|, valb);
        if valb >= 0 {
          PushesByte(groups, val, valb);
          out := out + [Shifted(val, valb) % 256];
          valb := valb - 8;
        }
      }
    }
    assert input[|input|..] == [];
    ReadsNothing();
    assert groups + [] == groups;
  }

  /** The last two groups read, as one number. */
  function Low(groups: seq<sextet>): int {
    (if |groups| >= 2 then groups[|groups| - 2] as int * 64 else 0)
    + (if |groups| >= 1 then groups[|groups| - 1] as int else 0)
  }

  lemma NothingYet()
    ensures BytesOf([]) == [] && Low([]) == 0
  {
  }

  lemma ReadsNothing()
    ensures Read([]) == []
  {
  }

  lemma ReadsOn(rest: string)
    requires rest != []
    ensures Read(rest) == if rest[0] == '=' then [] else if Place(rest[0]) == -1 then Read(rest[1..])
                          else [Place(rest[0])] + Read(rest[1..])
  {
  }

  lemma {:induction false} ReadIsShorter(input: string)
    ensures |Read(input)| <= |input|
  {
    if input != [] && input[0] != '=' { ReadIsShorter(input[1..]); }
  }

  /** The wrap loses nothing that is still to be written. */
  lemma Accumulates(groups: seq<sextet>, val: int, place: sextet)
    requires val % 0x1000 == Low(groups)
    ensures Wrapped(val * 64 + place) % 0x1000 == Low(groups + [place])
  {
    var last: int := if |groups| >= 1 then groups[|groups| - 1] else 0;
    var other: int := if |groups| >= 2 then groups[|groups| - 2] else 0;
    var high := val / 0x1000;
    assert val == high * 0x1000 + other * 64 + last;
    var next := val * 64 + place;
    var low := last * 64 + place;
    assert next == (high * 64 + other) * 0x1000 + low;
    var turns := (next + 0x8000_0000) / 0x1_0000_0000;
    assert Wrapped(next) == (high * 64 + other - turns * 0x10_0000) * 0x1000 + low;
    Remainder(high * 64 + other - turns * 0x10_0000, low);
  }

  lemma Remainder(q: int, r: int)
    requires 0 <= r < 0x1000
    ensures (q * 0x1000 + r) % 0x1000 == r
  {
  }

  lemma GrowsByOne(groups: seq<sextet>, place: sextet, count: nat, valb: int)
    requires count == |BytesOf(groups)| && valb == 6 * |groups| - 8 * count - 8 + 6
    ensures valb < 0 ==> BytesOf(groups + [place]) == BytesOf(groups)
    ensures valb >= 0 ==> BytesOf(groups + [place]) == BytesOf(groups) + [Regrouped(groups + [place], count)]
    ensures valb >= 0 ==> |BytesOf(groups + [place])| == count + 1 && valb in {0, 2, 4}
  {
    var more := groups + [place];
    forall i | 0 <= i < ByteCount(|groups|) ensures Regrouped(more, i) == Regrouped(groups, i) {
      assert i / 3 * 4 + i % 3 + 1 < |groups|;
    }
  }

  lemma PushesByte(groups: seq<sextet>, val: int, valb: nat)
    requires groups != [] && val % 0x1000 == Low(groups) && valb in {0, 2, 4}
    requires valb == 6 * |groups| - 8 * |BytesOf(groups)|
    ensures Shifted(val, valb) % 256 == Regrouped(groups, |BytesOf(groups)| - 1)
  {
    ShiftsLow(val, Low(groups), valb);
    LastByte(groups, (|groups| - 1) / 4, valb);
  }

  /** The byte the last group completes is in the last two groups. */
  lemma LastByte(groups: seq<sextet>, m: nat, valb: nat)
    requires groups != [] && valb in {0, 2, 4} && m == (|groups| - 1) / 4
    requires valb == 6 * |groups| - 8 * |BytesOf(groups)|
    ensures Shifted(Low(groups), valb) % 256 == Regrouped(groups, |BytesOf(groups)| - 1)
  {
    hide *;
    CountOfBytes(groups);
    LastCounts(|groups|, m, |BytesOf(groups)|, valb);
    LowOfTwo(groups);
    var a: int, b: int := groups[|groups| - 2], groups[|groups| - 1];
    ShiftsTo(a * 64 + b, valb);
    LastGroup(groups, m, if valb == 4 then 0 else if valb == 2 then 1 else 2);
    LowBits(a, b);
  }

  lemma CountOfBytes(groups: seq<sextet>)
    ensures |BytesOf(groups)| == 6 * |groups| / 8
  {
    hide Regrouped;
  }

  lemma LastCounts(n: nat, m: nat, count: nat, valb: nat)
    requires n > 0 && valb in {0, 2, 4} && m == (n - 1) / 4 && count == 6 * n / 8 && valb == 6 * n - 8 * count
    ensures n == 4 * m + (if valb == 4 then 2 else if valb == 2 then 3 else 4)
    ensures count == 3 * m + (if valb == 4 then 1 else if valb == 2 then 2 else 3)
  {
  }

  lemma LowOfTwo(groups: seq<sextet>)
    requires |groups| >= 2
    ensures Low(groups) == groups[|groups| - 2] as int * 64 + groups[|groups| - 1] as int
  {
  }

  lemma ShiftsTo(x: int, valb: nat)
    requires valb in {0, 2, 4}
    ensures Shifted(x, valb) == if valb == 4 then x / 16 else if valb == 2 then x / 4 else x
  {
  }

  lemma LastGroup(groups: seq<sextet>, m: nat, r: nat)
    requires r < 3 && |groups| == 4 * m + r + 2
    ensures var a: int, b: int := groups[4 * m + r], groups[4 * m + r + 1];
      Regrouped(groups, 3 * m + r) == if r == 0 then a * 4 + b / 16 else if r == 1 then a % 16 * 16 + b / 4 else a % 4 * 64 + b
  {
    assert (3 * m + r) / 3 == m && (3 * m + r) % 3 == r;
  }

  lemma LowBits(a: int, b: int)
    requires 0 <= a < 64 && 0 <= b < 64
    ensures var low := a * 64 + b;
      && low / 16 % 256 == a * 4 + b / 16 && low / 4 % 256 == a % 16 * 16 + b / 4 && low % 256 == a % 4 * 64 + b
  {
    LowBits4(a, b / 16, b % 16);
    LowBits2(a / 16, a % 16, b / 4, b % 4);
    LowBits0(a / 4, a % 4, b);
  }

  lemma LowBits4(a: int, high: int, low: int)
    requires 0 <= a < 64 && 0 <= high < 4 && 0 <= low < 16
    ensures (a * 64 + (high * 16 + low)) / 16 % 256 == a * 4 + high
  {
  }

  lemma LowBits2(high: int, low: int, b: int, rest: int)
    requires 0 <= high < 4 && 0 <= low < 16 && 0 <= b < 16 && 0 <= rest < 4
    ensures ((high * 16 + low) * 64 + (b * 4 + rest)) / 4 % 256 == low * 16 + b
  {
    Quarter(high * 256 + (low * 16 + b), rest);
    assert (high * 16 + low) * 64 + (b * 4 + rest) == (high * 256 + (low * 16 + b)) * 4 + rest;
    Turns(high, low * 16 + b);
  }

  lemma Quarter(x: int, rest: int)
    requires 0 <= rest < 4
    ensures (x * 4 + rest) / 4 == x
  {
  }

  lemma LowBits0(high: int, low: int, b: int)
    requires 0 <= high < 16 && 0 <= low < 4 && 0 <= b < 64
    ensures ((high * 4 + low) * 64 + b) % 256 == low * 64 + b
  {
  }

  lemma ShiftsLow(val: int, low: int, valb: nat)
    requires val % 0x1000 == low && valb in {0, 2, 4}
    ensures Shifted(val, valb) % 256 == Shifted(low, valb) % 256
  {
    var high := val / 0x1000;
    assert val == high * 0x1000 + low;
    if valb == 4 {
      assert val / 16 == high * 0x100 + low / 16;
      Turns(high, low / 16);
    } else if valb == 2 {
      assert val / 4 == high * 4 * 0x100 + low / 4;
      Turns(high * 4, low / 4);
    } else {
      Turns(high * 16, low);
    }
  }

  lemma Turns(q: int, r: int)
    ensures (q * 0x100 + r) % 0x100 == r % 0x100
  {
  }

  // ----- There and back -----

  /** The letters of the encoding read back as the groups, and the padding ends them. */
  lemma ReadsEncoded(data: seq<byte>)
    ensures Read(Encoded(data)) == Sextets(data)
  {
    ReadsEncodedFrom(data, 0);
    assert Encoded(data)[0..] == Encoded(data) && Sextets(data)[0..] == Sextets(data);
  }

  lemma {:induction false} ReadsEncodedFrom(data: seq<byte>, k: nat)
    requires k <= |Sextets(data)| <= |Encoded(data)|
    ensures Read(Encoded(data)[k..]) == Sextets(data)[k..]
    decreases |Sextets(data)| - k
  {
    hide Letter, SextetAt, Place;
    var text := Encoded(data);
    if k < |text| {
      assert text[k..][0] == text[k] && text[k..][1..] == text[k + 1..];
      LettersHavePlaces(SextetAt(data, k), '=');
    }
    if k < |Sextets(data)| {
      ReadsEncodedFrom(data, k + 1);
      assert Sextets(data)[k..] == [Sextets(data)[k]] + Sextets(data)[k + 1..];
    } else {
      assert Sextets(data)[k..] == [];
    }
  }

  /** The groups of some bytes hold those bytes. */
  lemma GroupsHoldTheBytes(data: seq<byte>)
    ensures BytesOf(Sextets(data)) == data
  {
    assert ByteCount(SextetCount(|data|)) == |data|;
    forall i | 0 <= i < |data| ensures Regrouped(Sextets(data), i) == data[i] { HoldsByte(data, i / 3, i % 3); }
  }

  lemma HoldsByte(data: seq<byte>, q: nat, r: nat)
    requires r < 3 && 3 * q + r < |data|
    ensures Regrouped(Sextets(data), 3 * q + r) == data[3 * q + r]
  {
    hide Regrouped, Sextets, GroupAt;
    FourSextets(data, q);
    CountOfSextets(|data|, q);
    GroupIs(data, 4 * q);
    GroupIs(data, 4 * q + 1);
    GroupIs(data, 4 * q + 2);
    GroupIs(data, 4 * q + 3);
    hide SextetAt, SextetCount;
    RegroupsTo(Sextets(data), q, r, ByteAt(data, 3 * q), ByteAt(data, 3 * q + 1), ByteAt(data, 3 * q + 2));
  }

  lemma RegroupsTo(groups: seq<sextet>, q: nat, r: nat, a: int, b: int, c: int)
    requires r < 3 && 0 <= a < 256 && 0 <= b < 256 && 0 <= c < 256
    requires GroupAt(groups, 4 * q) == a / 4 && GroupAt(groups, 4 * q + 1) == a % 4 * 16 + b / 16
    requires r >= 1 ==> GroupAt(groups, 4 * q + 2) == b % 16 * 4 + c / 64
    requires r >= 2 ==> GroupAt(groups, 4 * q + 3) == c % 64
    ensures Regrouped(groups, 3 * q + r) == if r == 0 then a else if r == 1 then b else c
  {
    hide GroupAt;
    assert (3 * q + r) / 3 == q && (3 * q + r) % 3 == r;
    JoinsBits(a, b, c);
  }

  lemma GroupIs(data: seq<byte>, k: nat)
    ensures k < SextetCount(|data|) ==> GroupAt(Sextets(data), k) == SextetAt(data, k)
  {
  }

  lemma JoinsBits(a: int, b: int, c: int)
    requires 0 <= a < 256 && 0 <= b < 256 && 0 <= c < 256
    ensures a / 4 * 4 + (a % 4 * 16 + b / 16) / 16 == a
    ensures (a % 4 * 16 + b / 16) % 16 * 16 + (b % 16 * 4 + c / 64) / 4 == b
    ensures (b % 16 * 4 + c / 64) % 4 * 64 + c % 64 == c
  {
    Joins16(a % 4, b / 16);
    Joins4(b % 16, c / 64);
  }

  lemma Joins16(high: int, low: int)
    requires 0 <= low < 16
    ensures (high * 16 + low) / 16 == high && (high * 16 + low) % 16 == low
  {
  }

  lemma Joins4(high: int, low: int)
    requires 0 <= low < 4
    ensures (high * 4 + low) / 4 == high && (high * 4 + low) % 4 == low
  {
  }

  /** Decoding inverts encoding for every sequence of bytes. */
  lemma DecodeInvertsEncode(data: seq<byte>)
    ensures Decoded(Encoded(data)) == data
  {
    hide Encoded, Sextets, Read, BytesOf;
    ReadsEncoded(data);
    GroupsHoldTheBytes(data);
  }

  /** Whatever text was accepted, encoding what it decoded to is stable from then on. */
  lemma ReencodingIsStable(input: string)
    ensures Decoded(Encoded(Decoded(input))) == Decoded(input)
    ensures Encoded(Decoded(Encoded(Decoded(input)))) == Encoded(Decoded(input))
  {
    DecodeInvertsEncode(Decoded(input));
  }
}
