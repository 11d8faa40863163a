/** That the text kept of a written value is a written value again. The scan keeps each line of a value trimmed
    and joins them with single newlines, which on the whole text comes to narrowing every run of spaces that
    holds a line break. The grammar has a value for that text: the same one with its gaps narrowed. */
module ConfigTidying {
  import opened Text
  import opened ConfigString
  import opened ConfigGrammar
  import opened ConfigScan
  import opened ConfigRoundTrip

  // ----- Trimming every line, seen from the text -----

  /** What is left of a run of spaces between two characters that are none. */
  function Narrowed(gap: string): string {
    if NEWLINE in gap then [NEWLINE] else gap
  }

  /** The text with every run of spaces narrowed. */
  function Squeezed(s: string): string
    decreases |s|
  {
    if s == [] then []
    else if !IsSpace(s[0]) then [s[0]] + Squeezed(s[1..])
    else
      var k := NextNonSpace(s, 0, |s|);
      Narrowed(s[..k]) + Squeezed(s[k..])
  }

  predicate Solid(s: string) {
    s != [] && !IsSpace(s[0])
  }

  lemma {:induction false} SqueezedJoin(a: string, b: string)
    requires a == [] || b == [] || !IsSpace(a[|a| - 1]) || Solid(b)
    ensures Squeezed(a + b) == Squeezed(a) + Squeezed(b)
    decreases |a|
  {
    hide IsSpace, NextNonSpace, Narrowed;
    if a == [] {
      assert a + b == b;
    } else if b == [] {
      assert a + b == a;
    } else if !IsSpace(a[0]) {
      assert (a + b)[1..] == a[1..] + b;
      SqueezedJoin(a[1..], b);
      Regrouped([a[0]], Squeezed(a[1..]), Squeezed(b));
    } else {
      var k := NextNonSpace(a, 0, |a|);
      GapJoins(a, b);
      SqueezedJoin(a[k..], b);
      Regrouped(Narrowed(a[..k]), Squeezed(a[k..]), Squeezed(b));
    }
  }

  lemma GapJoins(a: string, b: string)
    requires a != [] && IsSpace(a[0]) && (!IsSpace(a[|a| - 1]) || Solid(b))
    ensures var k := NextNonSpace(a, 0, |a|);
      0 < k && Squeezed(a + b) == Narrowed(a[..k]) + Squeezed(a[k..] + b)
  {
    hide IsSpace, Narrowed, Squeezed;
    var k := NextNonSpace(a, 0, |a|);
    SqueezedIs(a);
    SqueezedIs(a + b);
    NextNonSpaceIs(a + b, 0, |a + b|, k);
    CutBoth(a, b, k);
  }

  lemma SqueezedIs(s: string)
    requires s != [] && IsSpace(s[0])
    ensures var k := NextNonSpace(s, 0, |s|); 0 < k && Squeezed(s) == Narrowed(s[..k]) + Squeezed(s[k..])
  {
    hide IsSpace, Narrowed;
  }

  lemma CutBoth(a: string, b: string, k: nat)
    requires k <= |a|
    ensures (a + b)[..k] == a[..k] && (a + b)[k..] == a[k..] + b
  {
  }

  lemma {:induction false} SqueezedLine(s: string)
    requires NoNewline(s)
    ensures Squeezed(s) == s
    decreases |s|
  {
    if s != [] {
      var k := if IsSpace(s[0]) then NextNonSpace(s, 0, |s|) else 1;
      assert s == s[..k] + s[k..];
      SqueezedLine(s[k..]);
    }
  }

  lemma SqueezedGap(gap: string)
    requires AllSpace(gap)
    ensures Squeezed(gap) == Narrowed(gap) && AllSpace(Narrowed(gap))
  {
    if gap != [] {
      NextNonSpaceIs(gap, 0, |gap|, |gap|);
      assert gap[..|gap|] == gap && gap[|gap|..] == [];
    }
  }

  /** A solid text, a gap and another solid text. */
  lemma SqueezedAround(a: string, gap: string, b: string)
    requires a != [] && !IsSpace(a[|a| - 1]) && AllSpace(gap) && Solid(b)
    ensures Squeezed(a + (gap + b)) == Squeezed(a) + (Narrowed(gap) + Squeezed(b))
  {
    SqueezedJoin(a, gap + b);
    SqueezedJoin(gap, b);
    SqueezedGap(gap);
  }

  function Started(soFar: string): string {
    if soFar == [] then [] else soFar + [NEWLINE]
  }

  /** A text from its first character that is no space. */
  function FromSolid(p: string): string {
    p[NextNonSpace(p, 0, |p|)..]
  }

  /** Lines trimmed and joined are the text squeezed, from its first character that is no space. */
  lemma {:induction false} JoinedIsSqueezed(soFar: string, p: string)
    requires p != [] && !IsSpace(p[|p| - 1])
    ensures Joined(soFar, p) == Started(soFar) + Squeezed(FromSolid(p))
    decreases |p|
  {
    hide *;
    var end := LineEnd(p, 0);
    JoinedIs(soFar, p);
    if end == |p| {
      OneLine(p);
      Appends(soFar, p);
    } else {
      var line, below := p[..end], p[end + 1..];
      JoinedIsSqueezed(AppendPiece(soFar, line), below);
      Appends(soFar, line);
      if NextNonSpace(p, 0, |p|) >= end {
        BlankLine(p, end);
      } else {
        LineAndBelow(p, end);
        Regrouped(Started(soFar), Trimmed(line), [NEWLINE] + Squeezed(FromSolid(below)));
        Regrouped(Started(soFar) + Trimmed(line), [NEWLINE], Squeezed(FromSolid(below)));
      }
    }
  }

  lemma Appends(soFar: string, piece: string)
    ensures Trimmed(piece) == [] ==> AppendPiece(soFar, piece) == soFar
    ensures Trimmed(piece) != [] ==>
              && AppendPiece(soFar, piece) == Started(soFar) + Trimmed(piece)
              && Started(AppendPiece(soFar, piece)) == (Started(soFar) + Trimmed(piece)) + [NEWLINE]
  {
    hide Trimmed;
  }

  lemma JoinedIs(soFar: string, p: string)
    requires p != [] && !IsSpace(p[|p| - 1])
    ensures var end := LineEnd(p, 0);
      && (end == |p| ==> Joined(soFar, p) == AppendPiece(soFar, p))
      && (end < |p| ==> && end < |p| - 1 && IsSpace(p[end]) && p[end] == NEWLINE && NoNewline(p[..end])
                        && p[end + 1..] != [] && !IsSpace(p[end + 1..][|p| - end - 2])
                        && Joined(soFar, p) == Joined(AppendPiece(soFar, p[..end]), p[end + 1..]))
  {
    hide AppendPiece;
    var end := LineEnd(p, 0);
    if end < |p| { assert IsSpace(p[end]); }
  }

  lemma OneLine(p: string)
    requires p != [] && !IsSpace(p[|p| - 1]) && LineEnd(p, 0) == |p|
    ensures Trimmed(p) == Squeezed(FromSolid(p)) != []
  {
    hide Squeezed, Trimmed;
    TrimmedFrom(p, |p|);
    assert p[..|p|] == p;
    assert NoNewline(FromSolid(p));
    SqueezedLine(FromSolid(p));
  }

  lemma TrimmedFrom(p: string, hi: nat)
    requires 0 < hi <= |p| && !IsSpace(p[hi - 1])
    ensures Trimmed(p[..hi]) == p[NextNonSpace(p, 0, |p|)..hi] != []
  {
    var k := NextNonSpace(p, 0, |p|);
    NextNonSpaceIs(p[..hi], 0, hi, k);
    assert TrimEnd(p[..hi], k, hi) == hi;
  }

  lemma BlankLine(p: string, end: nat)
    requires end + 1 < |p| && end <= NextNonSpace(p, 0, |p|) && IsSpace(p[end]) && !IsSpace(p[|p| - 1])
    ensures Trimmed(p[..end]) == [] && FromSolid(p) == FromSolid(p[end + 1..])
  {
    hide IsSpace;
    var k := NextNonSpace(p, 0, |p|);
    NextNonSpaceIs(p[..end], 0, end, end);
    NextNonSpaceIs(p[end + 1..], 0, |p| - end - 1, k - end - 1);
    assert p[end + 1..][k - end - 1..] == p[k..];
  }

  /** A line with something on it, and what is below it. */
  lemma LineAndBelow(p: string, end: nat)
    requires end + 1 < |p| && p[end] == NEWLINE && NoNewline(p[..end]) && NextNonSpace(p, 0, |p|) < end && !IsSpace(p[|p| - 1])
    ensures Trimmed(p[..end]) != []
    ensures Squeezed(FromSolid(p)) == Trimmed(p[..end]) + ([NEWLINE] + Squeezed(FromSolid(p[end + 1..])))
  {
    hide *;
    var k, below := NextNonSpace(p, 0, |p|), p[end + 1..];
    var m, j := TrimEnd(p, k, end), NextNonSpace(below, 0, |below|);
    assert below[|below| - 1] == p[|p| - 1];
    StartsSolid(p);
    StartsSolid(below);
    TrimmedIs(p, k, m, end);
    Cuts(p, k, m, end, j);
    GapIsSpace(p, m, end);
    LineHasNone(p, k, m, end);
    assert (p[m..end] + ([NEWLINE] + below[..j]))[end - m] == NEWLINE;
    LineSqueezes(p[k..m], p[m..end] + ([NEWLINE] + below[..j]), below[j..], end - m);
  }

  lemma StartsSolid(p: string)
    requires p != [] && !IsSpace(p[|p| - 1])
    ensures FromSolid(p) == p[NextNonSpace(p, 0, |p|)..] && Solid(FromSolid(p))
  {
  }

  lemma LineSqueezes(line: string, gap: string, rest: string, i: nat)
    requires line != [] && !IsSpace(line[|line| - 1]) && NoNewline(line)
    requires AllSpace(gap) && i < |gap| && gap[i] == NEWLINE && Solid(rest)
    ensures Squeezed(line + (gap + rest)) == line + ([NEWLINE] + Squeezed(rest))
  {
    hide Squeezed;
    SqueezedAround(line, gap, rest);
    SqueezedLine(line);
  }

  lemma Cuts(p: string, k: nat, m: nat, end: nat, j: nat)
    requires k <= m <= end < |p| && p[end] == NEWLINE && j <= |p| - end - 1
    ensures p[k..] == p[k..m] + ((p[m..end] + ([NEWLINE] + p[end + 1..][..j])) + p[end + 1..][j..])
  {
  }

  lemma GapIsSpace(p: string, m: nat, end: nat)
    requires m <= end < |p| && forall i :: m <= i < end ==> IsSpace(p[i])
    ensures var below := p[end + 1..]; AllSpace(p[m..end] + ([NEWLINE] + below[..NextNonSpace(below, 0, |below|)]))
  {
    assert IsSpace(NEWLINE);
    hide IsSpace, NextNonSpace;
  }

  lemma LineHasNone(p: string, k: nat, m: nat, end: nat)
    requires k <= m <= end <= |p| && NoNewline(p[..end])
    ensures NoNewline(p[k..m])
  {
    forall i | 0 <= i < m - k ensures p[k..m][i] != NEWLINE { assert p[k..m][i] == p[..end][k + i]; }
  }

  lemma TrimmedIs(p: string, k: nat, m: nat, end: nat)
    requires end <= |p| && k == NextNonSpace(p, 0, |p|) < end && m == TrimEnd(p, k, end)
    ensures k < m && !IsSpace(p[m - 1]) && !IsSpace(p[k]) && Trimmed(p[..end]) == p[k..m]
  {
    hide IsSpace, NextNonSpace, TrimEnd;
    NextNonSpaceIs(p[..end], 0, end, k);
    TrimEndOf(p, k, end);
    assert p[..end][k..m] == p[k..m];
  }

  lemma {:induction false} TrimEndOf(p: string, from: nat, end: nat)
    requires from <= end <= |p|
    ensures TrimEnd(p[..end], from, end) == TrimEnd(p, from, end)
  {
    SameEnd(p[..end], p, from, end);
  }

  lemma {:induction false} SameEnd(a: string, b: string, from: nat, hi: nat)
    requires from <= hi <= |a| && hi <= |b| && a[..hi] == b[..hi]
    ensures TrimEnd(a, from, hi) == TrimEnd(b, from, hi)
    decreases hi
  {
    if hi > from {
      assert a[hi - 1] == a[..hi][hi - 1] == b[hi - 1];
      assert a[..hi - 1] == a[..hi][..hi - 1] == b[..hi - 1];
      SameEnd(a, b, from, hi - 1);
    }
  }

  // ----- The value with its gaps narrowed -----

  /** The spaces a run of pieces begins with, and the pieces after them. */
  function LeadingGap(p: Pieces): string {
    if p.Plain? && IsSpace(p.c) then [p.c] + LeadingGap(p.rest) else []
  }

  function AfterGap(p: Pieces): (rest: Pieces)
    ensures rest == p || rest < p
  {
    if p.Plain? && IsSpace(p.c) then AfterGap(p.rest) else p
  }

  function Spelled(s: string, rest: Pieces): Pieces {
    if s == [] then rest else Plain(s[0], Spelled(s[1..], rest))
  }

  function TidiedPieces(p: Pieces): Pieces {
    match p
    case NoPieces => NoPieces
    case Plain(c, rest) =>
      if IsSpace(c) then Spelled(Narrowed(LeadingGap(p)), TidiedPieces(AfterGap(rest))) else Plain(c, TidiedPieces(rest))
    case Quote(body, rest) => Quote(body, TidiedPieces(rest))
    case Group(open, inner, close, rest) => Group(open, TidiedPieces(inner), close, TidiedPieces(rest))
  }

  function Tidied(v: Value): Value {
    match v
    case Call(name, gap, args) => Call(name, Narrowed(gap), TidiedPieces(args))
    case Typed(name, gap, types, gap2, args) =>
      Typed(name, Narrowed(gap), TidiedPieces(types), Narrowed(gap2), TidiedPieces(args))
    case Array(elements) => Array(TidiedElements(elements))
    case Dictionary(pairs) => Dictionary(TidiedPairs(pairs))
    case _ => v
  }

  function TidiedElements(e: Elements): Elements {
    match e
    case NoElement(trail) => NoElement(Narrowed(trail))
    case LastElement(lead, value, trail) => LastElement(Narrowed(lead), Tidied(value), Narrowed(trail))
    case MoreElements(lead, value, trail, rest) =>
      MoreElements(Narrowed(lead), Tidied(value), Narrowed(trail), TidiedElements(rest))
  }

  function TidiedPairs(p: Pairs): Pairs {
    match p
    case NoPair(trail) => NoPair(Narrowed(trail))
    case LastPair(lead, key, mid, mid2, value, trail) =>
      LastPair(Narrowed(lead), Tidied(key), Narrowed(mid), Narrowed(mid2), Tidied(value), Narrowed(trail))
    case MorePairs(lead, key, mid, mid2, value, trail, rest) =>
      MorePairs(Narrowed(lead), Tidied(key), Narrowed(mid), Narrowed(mid2), Tidied(value), Narrowed(trail), TidiedPairs(rest))
  }

  // ----- Pieces -----

  lemma {:induction false} GapStandsFirst(p: Pieces)
    ensures AllSpace(LeadingGap(p)) && PrintPieces(p) == LeadingGap(p) + PrintPieces(AfterGap(p))
    ensures ValidPieces(p) ==> ValidPieces(AfterGap(p))
    ensures AfterGap(p).Plain? ==> !IsSpace(AfterGap(p).c)
  {
    if p.Plain? && IsSpace(p.c) {
      GapStandsFirst(p.rest);
      assert PrintPieces(p) == [p.c] + PrintPieces(p.rest);
      Regrouped([p.c], LeadingGap(p.rest), PrintPieces(AfterGap(p)));
    }
  }

  lemma {:induction false} SpelledPrints(s: string, rest: Pieces)
    ensures PrintPieces(Spelled(s, rest)) == s + PrintPieces(rest)
    ensures AllSpace(s) && ValidPieces(rest) ==> ValidPieces(Spelled(s, rest))
  {
    if s != [] {
      SpelledPrints(s[1..], rest);
      assert s == [s[0]] + s[1..];
      Regrouped([s[0]], s[1..], PrintPieces(rest));
      if AllSpace(s) { assert IsSpace(s[0]); }
    }
  }

  lemma {:induction false} TidiedPiecesPrint(p: Pieces)
    requires ValidPieces(p)
    ensures PrintPieces(TidiedPieces(p)) == Squeezed(PrintPieces(p)) && ValidPieces(TidiedPieces(p))
    decreases p
  {
    hide Squeezed, StringBody;
    match p
    case NoPieces => assert Squeezed([]) == [] by { SqueezedLine([]); }
    case Plain(c, rest) =>
      if IsSpace(c) {
        GapStandsFirst(rest);
        TidiedPiecesPrint(AfterGap(rest));
        GapPrints(p);
      } else {
        TidiedPiecesPrint(rest);
        SqueezedJoin([c], PrintPieces(rest));
        SolidStays([c]);
      }
    case Quote(body, rest) =>
      TidiedPiecesPrint(rest);
      QuotedIsLine(body);
      SqueezedJoin(PrintQuoted(body), PrintPieces(rest));
    case Group(open, inner, close, rest) =>
      TidiedPiecesPrint(inner);
      TidiedPiecesPrint(rest);
      GroupPrints(open, inner, close);
      SqueezedJoin(PrintGroup(open, inner, close), PrintPieces(rest));
  }

  lemma GapPrints(p: Pieces)
    requires p.Plain? && IsSpace(p.c) && ValidPieces(p)
    requires var rest := AfterGap(p); PrintPieces(TidiedPieces(rest)) == Squeezed(PrintPieces(rest)) && ValidPieces(TidiedPieces(rest))
    ensures PrintPieces(TidiedPieces(p)) == Squeezed(PrintPieces(p)) && ValidPieces(TidiedPieces(p))
  {
    hide Squeezed;
    GapStandsFirst(p);
    var gap, rest := LeadingGap(p), AfterGap(p);
    assert PrintPieces(rest) == [] || Solid(PrintPieces(rest));
    SqueezedJoin(gap, PrintPieces(rest));
    SqueezedGap(gap);
    SpelledPrints(Narrowed(gap), TidiedPieces(rest));
  }

  lemma SolidStays(s: string)
    requires NoNewline(s)
    ensures Squeezed(s) == s
  {
    SqueezedLine(s);
  }

  lemma QuotedIsLine(body: string)
    requires StringBody(body)
    ensures Squeezed(PrintQuoted(body)) == PrintQuoted(body)
    ensures Solid(PrintQuoted(body)) && !IsSpace(PrintQuoted(body)[|PrintQuoted(body)| - 1])
  {
    SqueezedLine(PrintQuoted(body));
  }

  lemma GroupPrints(open: char, inner: Pieces, close: char)
    requires IsOpen(open) && IsClose(close) && PrintPieces(TidiedPieces(inner)) == Squeezed(PrintPieces(inner))
    ensures PrintGroup(open, TidiedPieces(inner), close) == Squeezed(PrintGroup(open, inner, close))
    ensures var g := PrintGroup(open, inner, close); Solid(g) && !IsSpace(g[|g| - 1])
  {
    hide Squeezed;
    SqueezedJoin([open], PrintPieces(inner) + [close]);
    SqueezedJoin(PrintPieces(inner), [close]);
    SqueezedLine([open]);
    SqueezedLine([close]);
  }

  // ----- Values -----

  /** A value's text begins and ends with characters that are no spaces. */
  lemma ValueIsSolid(v: Value)
    requires Valid(v)
    ensures Solid(Print(v)) && !IsSpace(Print(v)[|Print(v)| - 1])
  {
    Ends(v);
  }

  lemma {:induction false} TidiedPrints(v: Value)
    requires Valid(v)
    ensures Print(Tidied(v)) == Squeezed(Print(v)) && Valid(Tidied(v))
    decreases v
  {
    hide Squeezed, StringBody, PrintPieces, PrintGroup, PrintElements, PrintPairs, ValidPieces, Narrowed;
    match v
    case Keyword(word) => SqueezedLine(word);
    case Bare(text) =>
      assert forall i :: 0 <= i < |text| && BareChar(text[i]) ==> text[i] != NEWLINE;
      SqueezedLine(text);
    case Quoted(mark, body) =>
      QuotedIsLine(body);
      SqueezedLine(mark);
      SqueezedJoin(mark, PrintQuoted(body));
    case Call(name, gap, args) => CallPrints(v);
    case Typed(name, gap, types, gap2, args) => TypedPrints(v);
    case Array(elements) =>
      TidiedElementsPrint(elements);
      SqueezedJoin(['['], PrintElements(elements));
      SqueezedLine(['[']);
    case Dictionary(pairs) =>
      TidiedPairsPrint(pairs);
      SqueezedJoin(['{'], PrintPairs(pairs));
      SqueezedLine(['{']);
  }

  lemma IdentifierIsLine(name: string)
    requires Identifier(name)
    ensures Squeezed(name) == name && !IsSpace(name[|name| - 1])
  {
    assert forall i :: 0 <= i < |name| ==> IsIdentifierChar(name[i]);
    SqueezedLine(name);
  }

  lemma ArgsPrint(open: char, args: Pieces, close: char)
    requires ValidPieces(args) && IsOpen(open) && IsClose(close)
    ensures PrintGroup(open, TidiedPieces(args), close) == Squeezed(PrintGroup(open, args, close)) && ValidPieces(TidiedPieces(args))
    ensures var g := PrintGroup(open, args, close); Solid(g) && !IsSpace(g[|g| - 1])
  {
    TidiedPiecesPrint(args);
    GroupPrints(open, args, close);
  }

  lemma CallPrints(v: Value)
    requires v.Call? && Valid(v)
    ensures Print(Tidied(v)) == Squeezed(Print(v)) && Valid(Tidied(v))
  {
    hide Squeezed, PrintPieces, PrintGroup, ValidPieces, TidiedPieces, Narrowed, Identifier, IsValueKeyword;
    IdentifierIsLine(v.name);
    SqueezedGap(v.gap);
    ArgsPrint('(', v.args, ')');
    assert v.name != [] by { IdentifierIsWord(v.name); }
    SqueezedAround(v.name, v.gap, PrintGroup('(', v.args, ')'));
  }

  lemma IdentifierIsWord(name: string)
    requires Identifier(name)
    ensures name != []
  {
  }

  lemma TypedPrints(v: Value)
    requires v.Typed? && Valid(v)
    ensures Print(Tidied(v)) == Squeezed(Print(v)) && Valid(Tidied(v))
  {
    hide Squeezed, PrintPieces, PrintGroup, ValidPieces, TidiedPieces, Narrowed, Identifier, IsValueKeyword;
    IdentifierIsLine(v.name);
    IdentifierIsWord(v.name);
    SqueezedGap(v.gap);
    SqueezedGap(v.gap2);
    ArgsPrint('[', v.types, ']');
    ArgsPrint('(', v.args, ')');
    var types, args := PrintGroup('[', v.types, ']'), PrintGroup('(', v.args, ')');
    SqueezedAround(types, v.gap2, args);
    SqueezedAround(v.name, v.gap, types + (v.gap2 + args));
  }

  /** One value inside a container, with the gaps around it and what follows. */
  lemma SpacedPrints(lead: string, v: Value, trail: string, c: char, rest: string)
    requires AllSpace(lead) && Valid(v) && AllSpace(trail) && !IsSpace(c)
    requires Print(Tidied(v)) == Squeezed(Print(v))
    ensures Squeezed(lead + (Print(v) + (trail + ([c] + rest))))
         == Narrowed(lead) + (Print(Tidied(v)) + (Narrowed(trail) + ([c] + Squeezed(rest))))
    ensures AllSpace(Narrowed(lead)) && AllSpace(Narrowed(trail))
  {
    hide Squeezed, Print, Narrowed, Valid, Tidied;
    ValueIsSolid(v);
    SqueezedGap(lead);
    SqueezedGap(trail);
    SqueezedJoin(lead, Print(v) + (trail + ([c] + rest)));
    SqueezedAround(Print(v), trail, [c] + rest);
    SqueezedJoin([c], rest);
    SqueezedLine([c]);
  }

  lemma {:induction false} TidiedElementsPrint(e: Elements)
    requires ValidElements(e)
    ensures PrintElements(TidiedElements(e)) == Squeezed(PrintElements(e)) && ValidElements(TidiedElements(e))
    decreases e
  {
    hide Squeezed, Print, Narrowed, Valid, Tidied;
    assert Squeezed([]) == [] by { SqueezedLine([]); }
    match e
    case NoElement(trail) =>
      SqueezedGap(trail);
      SqueezedJoin(trail, [']']);
      SqueezedLine([']']);
    case LastElement(lead, value, trail) =>
      TidiedPrints(value);
      SpacedPrints(lead, value, trail, ']', []);
      assert [']'] + [] == [']'];
    case MoreElements(lead, value, trail, rest) =>
      TidiedPrints(value);
      TidiedElementsPrint(rest);
      SpacedPrints(lead, value, trail, ',', PrintElements(rest));
  }

  lemma {:induction false} TidiedPairsPrint(p: Pairs)
    requires ValidPairs(p)
    ensures PrintPairs(TidiedPairs(p)) == Squeezed(PrintPairs(p)) && ValidPairs(TidiedPairs(p))
    decreases p
  {
    hide Squeezed, Print, Narrowed, Valid, Tidied;
    assert Squeezed([]) == [] by { SqueezedLine([]); }
    match p
    case NoPair(trail) =>
      SqueezedGap(trail);
      SqueezedJoin(trail, ['}']);
      SqueezedLine(['}']);
    case LastPair(lead, key, mid, mid2, value, trail) =>
      TidiedPrints(key);
      TidiedPrints(value);
      SpacedPrints(mid2, value, trail, '}', []);
      assert ['}'] + [] == ['}'];
      SpacedPrints(lead, key, mid, ':', mid2 + (Print(value) + (trail + ['}'])));
    case MorePairs(lead, key, mid, mid2, value, trail, rest) =>
      TidiedPrints(key);
      TidiedPrints(value);
      TidiedPairsPrint(rest);
      SpacedPrints(mid2, value, trail, ',', PrintPairs(rest));
      SpacedPrints(lead, key, mid, ':', mid2 + (Print(value) + (trail + ([','] + PrintPairs(rest)))));
  }

  /** The text kept of any written value is the printed form of a written value. */
  lemma KeptTextIsWritten(v: Value)
    requires Valid(v)
    ensures Joined([], Print(v)) == Print(Tidied(v)) && Valid(Tidied(v))
  {
    hide Squeezed, Joined, Print, Valid, Tidied;
    ValueIsSolid(v);
    JoinedIsSqueezed([], Print(v));
    NextNonSpaceIs(Print(v), 0, |Print(v)|, 0);
    assert FromSolid(Print(v)) == Print(v);
    TidiedPrints(v);
  }
}
