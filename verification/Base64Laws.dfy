/** What Base64 means, letter by letter and bit by bit. */
module Base64Laws {
  import opened Text
  import opened Base64

  /** Table 1 of RFC 4648. */
  const ALPHABET := "ABCDEFGHIJKLM" + "NOPQRSTUVWXYZ" + "abcdefghijklm" + "nopqrstuvwxyz" + "0123456789+/"

  /** The letter of each value is the table's, and the characters read are the table's. */
  lemma LettersAreTheTable(v: sextet, c: char)
    ensures |ALPHABET| == 64 && Letter(v) == ALPHABET[v]
    ensures Place(c) == -1 <==> c !in ALPHABET
  {
    SixtyFourLetters(v);
    if Place(c) != -1 {
      LettersHavePlaces(v, c);
      SixtyFourLetters(Place(c));
    }
    if c in ALPHABET {
      var k :| 0 <= k < 64 && ALPHABET[k] == c;
      SixtyFourLetters(k);
      LettersHavePlaces(k, c);
    }
  }

  lemma SixtyFourLetters(v: sextet)
    ensures |ALPHABET| == 64 && Letter(v) == ALPHABET[v]
  {
  }

  // ----- Groups of 24 bits -----

  /** Group `k` of six bits, zero bits behind the last one written. */
  function WrittenSextet(data: seq<byte>, k: nat): sextet {
    if k < |Sextets(data)| then Sextets(data)[k] else 0
  }

  /** Three bytes and the four groups written for them are one number of 24 bits, zero bits standing for the bytes a
      last group lacks; and as few groups are written as hold every byte. */
  lemma GroupsAreOneNumber(data: seq<byte>, q: nat)
    requires 3 * q < |data|
    ensures 0x1_0000 * ByteAt(data, 3 * q) + 0x100 * ByteAt(data, 3 * q + 1) + ByteAt(data, 3 * q + 2)
         == 0x4_0000 * WrittenSextet(data, 4 * q) + 0x1000 * WrittenSextet(data, 4 * q + 1)
            + 0x40 * WrittenSextet(data, 4 * q + 2) + WrittenSextet(data, 4 * q + 3)
    ensures 6 * |Sextets(data)| >= 8 * |data| > 6 * (|Sextets(data)| - 1)
  {
    hide *;
    WrittenAre(data, q);
    Splits(ByteAt(data, 3 * q), ByteAt(data, 3 * q + 1), ByteAt(data, 3 * q + 2));
    CountIsLeast(data);
  }

  lemma CountIsLeast(data: seq<byte>)
    ensures data != [] ==> 6 * |Sextets(data)| >= 8 * |data| > 6 * (|Sextets(data)| - 1)
  {
  }

  lemma WrittenAre(data: seq<byte>, q: nat)
    requires 3 * q < |data|
    ensures var a: int, b: int, c: int := ByteAt(data, 3 * q), ByteAt(data, 3 * q + 1), ByteAt(data, 3 * q + 2);
      && WrittenSextet(data, 4 * q) == a / 4 && WrittenSextet(data, 4 * q + 1) == a % 4 * 16 + b / 16
      && WrittenSextet(data, 4 * q + 2) == b % 16 * 4 + c / 64 && WrittenSextet(data, 4 * q + 3) == c % 64
  {
    Unwritten(data, q);
    FourSextets(data, q);
  }

  lemma Splits(a: int, b: int, c: int)
    ensures 0x1_0000 * a + 0x100 * b + c
         == 0x4_0000 * (a / 4) + 0x1000 * (a % 4 * 16 + b / 16) + 0x40 * (b % 16 * 4 + c / 64) + c % 64
  {
    assert a == a / 4 * 4 + a % 4 && b == b / 16 * 16 + b % 16 && c == c / 64 * 64 + c % 64;
  }

  /** A group that is not written holds no bit of the data. */
  lemma Unwritten(data: seq<byte>, q: nat)
    requires 3 * q < |data|
    ensures 4 * q + 1 < |Sextets(data)|
    ensures 4 * q + 2 >= |Sextets(data)| ==> SextetAt(data, 4 * q + 2) == 0
    ensures 4 * q + 3 >= |Sextets(data)| ==> SextetAt(data, 4 * q + 3) == 0
  {
    CountOfSextets(|data|, q);
  }

  /** The encoding is the letters of those groups, and then what fills up four. */
  lemma EncodedIs(data: seq<byte>)
    ensures var letters := SextetCount(|data|);
      && |Encoded(data)| % 4 == 0 && letters <= |Encoded(data)| < letters + 4
      && (forall k :: 0 <= k < letters ==> Encoded(data)[k] == ALPHABET[Sextets(data)[k]])
      && forall k :: letters <= k < |Encoded(data)| ==> Encoded(data)[k] == '='
  {
    forall k | 0 <= k < SextetCount(|data|)
      ensures |ALPHABET| == 64 && k < |Encoded(data)| && Encoded(data)[k] == ALPHABET[Sextets(data)[k]]
    {
      SixtyFourLetters(Sextets(data)[k]);
    }
  }

  // ----- What decoding passes over -----

  /** Nothing behind the first padding is read, and a character outside the alphabet in front of it is passed over. */
  lemma {:induction false} ReadPassesOver(before: string, c: char, rest: string)
    requires '=' !in before
    ensures c == '=' ==> Decoded(before + ([c] + rest)) == Decoded(before)
    ensures c != '=' && c !in ALPHABET ==> Decoded(before + ([c] + rest)) == Decoded(before + rest)
  {
    hide BytesOf;
    LettersAreTheTable(0, c);
    ReadsPast(before, c, rest);
  }

  lemma {:induction false} ReadsPast(before: string, c: char, rest: string)
    requires '=' !in before
    ensures c == '=' ==> Read(before + ([c] + rest)) == Read(before)
    ensures c != '=' && Place(c) == -1 ==> Read(before + ([c] + rest)) == Read(before + rest)
  {
    hide Place;
    if before == [] {
      assert before + ([c] + rest) == [c] + rest && ([c] + rest)[1..] == rest;
      assert before + rest == rest;
    } else {
      assert (before + ([c] + rest))[1..] == before[1..] + ([c] + rest);
      assert (before + rest)[1..] == before[1..] + rest;
      ReadsPast(before[1..], c, rest);
    }
  }
}
