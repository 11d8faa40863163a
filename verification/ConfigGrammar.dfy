/** The values a ConfigFile holds, as they are written. */
module ConfigGrammar {
  // Every layout of spaces and line breaks that may stand between the parts of a value is part of it.

  import opened Text
  import opened ConfigString

  /** What stands between the brackets of a call or of a container's type: anything with its quotes
      closed and its brackets matched. */
  datatype Pieces =
    | NoPieces
    | Plain(c: char, rest: Pieces)
    | Quote(body: string, rest: Pieces)
    | Group(open: char, inner: Pieces, close: char, rest: Pieces)

  datatype Value =
    | Keyword(word: string)
    | Bare(text: string)                        // a number or a #colour
    | Quoted(mark: string, body: string)        // a string, a StringName or a NodePath
    | Call(name: string, gap: string, args: Pieces)
    | Typed(name: string, gap: string, types: Pieces, gap2: string, args: Pieces)
    | Array(elements: Elements)
    | Dictionary(pairs: Pairs)

  datatype Elements =
    | NoElement(trail: string)
    | LastElement(lead: string, value: Value, trail: string)
    | MoreElements(lead: string, value: Value, trail: string, rest: Elements)

  datatype Pairs =
    | NoPair(trail: string)
    | LastPair(lead: string, key: Value, mid: string, mid2: string, value: Value, trail: string)
    | MorePairs(lead: string, key: Value, mid: string, mid2: string, value: Value, trail: string, rest: Pairs)

  // ----- Writing -----

  function PrintPieces(p: Pieces): string
    decreases p, 0
  {
    match p
    case NoPieces => []
    case Plain(c, rest) => [c] + PrintPieces(rest)
    case Quote(body, rest) => PrintQuoted(body) + PrintPieces(rest)
    case Group(open, inner, close, rest) => PrintGroup(open, inner, close) + PrintPieces(rest)
  }

  function PrintQuoted(body: string): string {
    ['"'] + (body + ['"'])
  }

  function PrintGroup(open: char, inner: Pieces, close: char): string
    decreases inner, 1
  {
    [open] + (PrintPieces(inner) + [close])
  }

  function Print(v: Value): string {
    match v
    case Keyword(word) => word
    case Bare(text) => text
    case Quoted(mark, body) => mark + PrintQuoted(body)
    case Call(name, gap, args) => name + (gap + PrintGroup('(', args, ')'))
    case Typed(name, gap, types, gap2, args) =>
      name + (gap + (PrintGroup('[', types, ']') + (gap2 + PrintGroup('(', args, ')'))))
    case Array(elements) => ['['] + PrintElements(elements)
    case Dictionary(pairs) => ['{'] + PrintPairs(pairs)
  }

  function PrintElements(e: Elements): string {
    match e
    case NoElement(trail) => trail + [']']
    case LastElement(lead, value, trail) => lead + (Print(value) + (trail + [']']))
    case MoreElements(lead, value, trail, rest) => lead + (Print(value) + (trail + ([','] + PrintElements(rest))))
  }

  function PrintPairs(p: Pairs): string {
    match p
    case NoPair(trail) => trail + ['}']
    case LastPair(lead, key, mid, mid2, value, trail) =>
      lead + (Print(key) + (mid + ([':'] + (mid2 + (Print(value) + (trail + ['}']))))))
    case MorePairs(lead, key, mid, mid2, value, trail, rest) =>
      lead + (Print(key) + (mid + ([':'] + (mid2 + (Print(value) + (trail + ([','] + PrintPairs(rest))))))))
  }

  // The separator after an element, and what is written after it.

  function ElementSeparatorChar(e: Elements): char {
    if e.MoreElements? then ',' else ']'
  }

  function AfterElementText(e: Elements): string {
    if e.MoreElements? then PrintElements(e.rest) else []
  }

  lemma ElementsShape(e: Elements)
    requires !e.NoElement?
    ensures PrintElements(e)
         == e.lead + (Print(e.value) + (e.trail + ([ElementSeparatorChar(e)] + AfterElementText(e))))
    ensures |PrintElements(e)| == |e.lead| + |Print(e.value)| + |e.trail| + 1 + |AfterElementText(e)|
  {
    hide Print;
    assert [']'] + [] == [']'];
  }

  // The same for pairs.

  function PairSeparatorChar(p: Pairs): char {
    if p.MorePairs? then ',' else '}'
  }

  function AfterPairText(p: Pairs): string {
    if p.MorePairs? then PrintPairs(p.rest) else []
  }

  /** A pair's value and everything written after it. */
  function FromPairValue(p: Pairs): string
    requires !p.NoPair?
  {
    p.mid2 + (Print(p.value) + (p.trail + ([PairSeparatorChar(p)] + AfterPairText(p))))
  }

  lemma PairsShape(p: Pairs)
    requires !p.NoPair?
    ensures PrintPairs(p) == p.lead + (Print(p.key) + (p.mid + ([':'] + FromPairValue(p))))
    ensures |PrintPairs(p)| == |p.lead| + |Print(p.key)| + |p.mid| + 1 + |FromPairValue(p)|
    ensures |FromPairValue(p)| == |p.mid2| + |Print(p.value)| + |p.trail| + 1 + |AfterPairText(p)|
  {
    hide Print;
    assert ['}'] + [] == ['}'];
  }

  // ----- What may be written -----

  /** The inside of a quoted string: it reaches its closing quote and no earlier one, none of its
      escapes is short, and its surrogate escapes pair. */
  predicate StringBody(body: string) {
    var t := TokensFrom(body + ['"'], 0);
    NoNewline(body) && t.closed && t.end == |body| + 1 && Acceptable(t.items)
  }

  predicate Identifier(name: string) {
    name != [] && IsIdentifierStart(name[0]) && forall i :: 0 <= i < |name| ==> IsIdentifierChar(name[i])
  }

  predicate BareChar(c: char) {
    !IsSpace(c) && !IsOpen(c) && !IsClose(c) && c != '"' && c != ',' && c != ':' && c != ';'
  }

  predicate BareText(text: string) {
    && text != [] && !IsIdentifierStart(text[0]) && text[0] != '&' && text[0] != '@'
    && forall i :: 0 <= i < |text| ==> BareChar(text[i])
  }

  predicate ValidPieces(p: Pieces) {
    match p
    case NoPieces => true
    case Plain(c, rest) => !IsOpen(c) && !IsClose(c) && c != '"' && c != ';' && ValidPieces(rest)
    case Quote(body, rest) => StringBody(body) && ValidPieces(rest)
    case Group(open, inner, close, rest) =>
      IsOpen(open) && ValidPieces(inner) && IsClose(close) && ValidPieces(rest)
  }

  predicate Valid(v: Value) {
    match v
    case Keyword(word) => IsValueKeyword(word)
    case Bare(text) => BareText(text)
    case Quoted(mark, body) => (mark == [] || mark == ['&'] || mark == ['@']) && StringBody(body)
    case Call(name, gap, args) =>
      Identifier(name) && !IsValueKeyword(name) && AllSpace(gap) && ValidPieces(args)
    case Typed(name, gap, types, gap2, args) =>
      && Identifier(name) && !IsValueKeyword(name) && AllSpace(gap) && ValidPieces(types)
      && AllSpace(gap2) && ValidPieces(args)
    case Array(elements) => ValidElements(elements)
    case Dictionary(pairs) => ValidPairs(pairs)
  }

  predicate ValidElements(e: Elements) {
    match e
    case NoElement(trail) => AllSpace(trail)
    case LastElement(lead, value, trail) => AllSpace(lead) && Valid(value) && AllSpace(trail)
    case MoreElements(lead, value, trail, rest) =>
      AllSpace(lead) && Valid(value) && AllSpace(trail) && ValidElements(rest)
  }

  predicate ValidPairs(p: Pairs) {
    match p
    case NoPair(trail) => AllSpace(trail)
    case LastPair(lead, key, mid, mid2, value, trail) =>
      && AllSpace(lead) && Valid(key) && AllSpace(mid) && AllSpace(mid2) && Valid(value) && AllSpace(trail)
    case MorePairs(lead, key, mid, mid2, value, trail, rest) =>
      && AllSpace(lead) && Valid(key) && AllSpace(mid) && AllSpace(mid2) && Valid(value) && AllSpace(trail)
      && ValidPairs(rest)
  }

  /** No array or dictionary inside `v` is nested past the reader's depth cap. */
  predicate Fits(v: Value, depth: nat) {
    depth <= 32 && (match v
                    case Array(elements) => ElementsFit(elements, depth + 1)
                    case Dictionary(pairs) => PairsFit(pairs, depth + 1)
                    case _ => true)
  }

  predicate ElementsFit(e: Elements, depth: nat) {
    match e
    case NoElement(_) => true
    case LastElement(_, value, _) => Fits(value, depth)
    case MoreElements(_, value, _, rest) => Fits(value, depth) && ElementsFit(rest, depth)
  }

  predicate PairsFit(p: Pairs, depth: nat) {
    match p
    case NoPair(_) => true
    case LastPair(_, key, _, _, value, _) => Fits(key, depth) && Fits(value, depth)
    case MorePairs(_, key, _, _, value, _, rest) => Fits(key, depth) && Fits(value, depth) && PairsFit(rest, depth)
  }

  // ----- Reading a string where it stands -----

  lemma TokenMoved(q: string, i: nat, text: string, at: nat)
    requires HasToken(q, i) && TokenAt(q, i).1 < |q| && Has(text, at, q)
    ensures HasToken(text, at + i) && TokenAt(text, at + i) == (TokenAt(q, i).0, at + TokenAt(q, i).1)
  {
    HasChar(text, at, q, i);
    if q[i] == '\\' {
      HasChar(text, at, q, i + 1);
      if IsHexEscape(q[i + 1]) {
        HexMoved(q, i + 2, Digits(q[i + 1]), 0, text, at);
      }
    }
  }

  /** Tokens read the same wherever their text stands. */
  lemma {:induction false} TokensMoved(q: string, i: nat, text: string, at: nat)
    requires i <= |q| && Has(text, at, q) && TokensFrom(q, i).closed
    ensures var t := TokensFrom(q, i);
      TokensFrom(text, at + i) == Tokens(t.items, true, at + t.end)
    decreases |q| - i
  {
    HasChar(text, at, q, i);
    if q[i] != '"' {
      var next := TokenAt(q, i).1;
      assert TokensFrom(q, next).closed;
      TokenMoved(q, i, text, at);
      TokensMoved(q, next, text, at);
    }
  }

  lemma HasInside(text: string, at: nat, q: string)
    requires Has(text, at, q)
    ensures at + |q| <= |text|
  {
  }

  lemma {:induction false} HexMoved(q: string, i: nat, digits: nat, unit: nat, text: string, at: nat)
    requires i <= |q| && Has(text, at, q) && ReadHex(q, i, digits, unit).at < |q|
    ensures var r := ReadHex(q, i, digits, unit);
      ReadHex(text, at + i, digits, unit) == HexRun(r.unit, at + r.at, r.short)
    decreases digits
  {
    hide Has, HexValue;
    HasInside(text, at, q);
    if i < |q| { HasChar(text, at, q, i); }
    if digits > 0 && i < |q| && HexValue(q[i]) >= 0 {
      HexMoved(q, i + 1, digits - 1, unit * 16 + HexValue(q[i]), text, at);
    }
  }

  /** A string body standing before its closing quote reads to just past that quote, without a problem. */
  lemma StringBodyReads(body: string, text: string, at: nat)
    requires StringBody(body) && Has(text, at, body + ['"'])
    ensures var d := DecodeText(text, at);
      d.closed && d.end == at + |body| + 1 && d.problem.None?
  {
    TokensMoved(body + ['"'], 0, text, at);
    DecodeStringTheorem(text, at);
  }

  lemma EscapedIsStringBody(s: string)
    requires NoNewline(s)
    ensures StringBody(Escaped(s))
  {
    var q := Escaped(s) + ['"'];
    assert q[0..|Escaped(s)|] == Escaped(s);
    EscapedReads(q, 0, s);
    EscapedTokensSpell(s);
    EscapedHasNoNewline(s);
  }

  lemma {:induction false} EscapedHasNoNewline(s: string)
    requires NoNewline(s)
    ensures NoNewline(Escaped(s))
  {
    if s != [] { EscapedHasNoNewline(s[1..]); }
  }
}
