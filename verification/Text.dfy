/** Characters and slices of the text a ConfigFile reader walks, in the C locale. A character stands
    for one byte of the file. */
module Text {

  datatype Option<+T> = None | Some(value: T)

  type byte = x: int | 0 <= x < 256

  const NEWLINE: char := '\n'

  predicate IsSpace(c: char) {
    c == ' ' || 0x09 <= c as int <= 0x0D
  }

  predicate IsDigit(c: char) {
    '0' <= c <= '9'
  }

  predicate IsAlpha(c: char) {
    'a' <= c <= 'z' || 'A' <= c <= 'Z'
  }

  predicate IsIdentifierStart(c: char) {
    IsAlpha(c) || c == '_'
  }

  predicate IsIdentifierChar(c: char) {
    IsAlpha(c) || IsDigit(c) || c == '_'
  }

  function HexValue(c: char): (v: int)
    ensures -1 <= v <= 15
  {
    if '0' <= c <= '9' then c as int - '0' as int
    else if 'a' <= c <= 'f' then c as int - 'a' as int + 10
    else if 'A' <= c <= 'F' then c as int - 'A' as int + 10
    else -1
  }

  /** The words that name a value by themselves. */
  predicate IsValueKeyword(word: string) {
    word == "true" || word == "false" || word == "null" || word == "nil"
    || word == "nan" || word == "inf" || word == "inf_neg"
  }

  predicate IsOpen(c: char) {
    c == '[' || c == '{' || c == '('
  }

  predicate IsClose(c: char) {
    c == ']' || c == '}' || c == ')'
  }

  predicate AllSpace(s: string) {
    forall i :: 0 <= i < |s| ==> IsSpace(s[i])
  }

  predicate NoNewline(s: string) {
    NEWLINE !in s
  }

  /** The first position at or after `from` and before `hi` that holds no space; `hi` when there is none. */
  function NextNonSpace(text: string, from: nat, hi: nat): (at: nat)
    requires from <= hi <= |text|
    ensures from <= at <= hi
    ensures forall i :: from <= i < at ==> IsSpace(text[i])
    ensures at < hi ==> !IsSpace(text[at])
    decreases hi - from
  {
    if from < hi && IsSpace(text[from]) then NextNonSpace(text, from + 1, hi) else from
  }

  method FindNonSpace(text: string, start: nat, hi: nat) returns (at: nat)
    requires start <= hi <= |text|
    ensures at == NextNonSpace(text, start, hi)
  {
    at := start;
    while at < hi && IsSpace(text[at])
      invariant start <= at <= hi
      invariant NextNonSpace(text, start, hi) == NextNonSpace(text, at, hi)
    {
      at := at + 1;
    }
  }

  /** Spaces are skipped to the first character that is none, wherever the skipping starts. */
  lemma NextNonSpaceIs(text: string, from: nat, hi: nat, at: nat)
    requires from <= at <= hi <= |text|
    requires forall i :: from <= i < at ==> IsSpace(text[i])
    requires at < hi ==> !IsSpace(text[at])
    ensures NextNonSpace(text, from, hi) == at
  {
  }

  /** One past the last character of `[from, hi)` that is no space; `from` when all are spaces. */
  function TrimEnd(text: string, from: nat, hi: nat): (end: nat)
    requires from <= hi <= |text|
    ensures from <= end <= hi
    ensures forall i :: end <= i < hi ==> IsSpace(text[i])
    ensures end > from ==> !IsSpace(text[end - 1])
    decreases hi - from
  {
    if hi > from && IsSpace(text[hi - 1]) then TrimEnd(text, from, hi - 1) else hi
  }

  /** The part of `[lo, hi)` between its first and its last character that is no space. */
  method TrimmedView(text: string, lo: nat, hi: nat) returns (first: nat, last: nat)
    requires lo <= hi <= |text|
    ensures first == NextNonSpace(text, lo, hi) && last == TrimEnd(text, first, hi)
  {
    first := FindNonSpace(text, lo, hi);
    last := hi;
    while last > first && IsSpace(text[last - 1])
      invariant first <= last <= hi && TrimEnd(text, first, last) == TrimEnd(text, first, hi)
    {
      last := last - 1;
    }
  }

  function Trimmed(s: string): string {
    var first := NextNonSpace(s, 0, |s|);
    s[first..TrimEnd(s, first, |s|)]
  }

  function Min(a: nat, b: nat): nat {
    if a <= b then a else b
  }

  lemma Regrouped(a: string, b: string, c: string)
    ensures a + (b + c) == (a + b) + c
  {
  }

  // ----- Text at a place -----

  predicate Has(text: string, at: nat, s: string) {
    at + |s| <= |text| && text[at..at + |s|] == s
  }

  lemma HasSplit(text: string, at: nat, a: string, b: string)
    ensures Has(text, at, a + b) <==> Has(text, at, a) && Has(text, at + |a|, b)
    ensures Has(text, at, a + b) ==> at + |a| + |b| <= |text|
  {
    if Has(text, at, a + b) {
      assert text[at..at + |a|] == text[at..at + |a + b|][..|a|] == a;
      assert text[at + |a|..at + |a| + |b|] == text[at..at + |a + b|][|a|..] == b;
    }
    if Has(text, at, a) && Has(text, at + |a|, b) {
      assert text[at..at + |a + b|] == text[at..at + |a|] + text[at + |a|..at + |a| + |b|];
    }
  }

  lemma HasNothing(text: string, at: nat)
    requires at <= |text|
    ensures Has(text, at, [])
  {
  }

  lemma HasChar(text: string, at: nat, s: string, i: nat)
    requires Has(text, at, s) && i < |s|
    ensures at + |s| <= |text| && text[at + i] == s[i]
  {
    assert text[at..at + |s|][i] == s[i];
  }
}
