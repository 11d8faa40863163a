/** The value walk refuses nothing the grammar writes. Within the depth cap it stops at the end of a written
    value where what follows does not run on from it; beyond the cap it goes to the end of the text. */
module ValueAcceptance {
  import opened Text
  import opened ConfigString
  import opened ConfigGrammar
  import opened ValueWalking

  /** What may follow a written value so that the walk does not read past its end: a number needs a
      separator, and a keyword needs a separator and no call after it. */
  predicate Follows(v: Value, text: string, end: nat)
    requires end <= |text|
  {
    match v
    case Keyword(_) =>
      var next := NextNonSpace(text, end, |text|);
      (end < |text| ==> !IsIdentifierChar(text[end])) && !At(text, next, '(') && !At(text, next, '[')
    case Bare(_) => end < |text| ==> EndsBare(text[end])
    case _ => true
  }

  lemma SpacesSkipped(text: string, at: nat, spaces: string)
    requires Has(text, at, spaces) && AllSpace(spaces)
    requires at + |spaces| < |text| ==> !IsSpace(text[at + |spaces|])
    ensures NextNonSpace(text, at, |text|) == at + |spaces|
  {
    forall i | at <= i < at + |spaces| ensures IsSpace(text[i]) {
      HasChar(text, at, spaces, i - at);
    }
    NextNonSpaceIs(text, at, |text|, at + |spaces|);
  }

  lemma SeparatorFollows(v: Value, text: string, end: nat, spaces: string, c: char)
    requires Has(text, end, spaces + [c]) && AllSpace(spaces)
    requires c == ',' || c == ']' || c == ':' || c == '}'
    ensures end + |spaces| < |text| && Follows(v, text, end)
    ensures NextNonSpace(text, end, |text|) == end + |spaces| && text[end + |spaces|] == c
  {
    hide Has;
    HasSplit(text, end, spaces, [c]);
    HasChar(text, end + |spaces|, [c], 0);
    SpacesSkipped(text, end, spaces);
    if spaces != [] { HasChar(text, end, spaces, 0); }
  }

  // ----- Brackets -----

  lemma PiecesAre(p: Pieces)
    ensures PrintPieces(p) == match p
                              case NoPieces => []
                              case Plain(c, rest) => [c] + PrintPieces(rest)
                              case Quote(body, rest) => PrintQuoted(body) + PrintPieces(rest)
                              case Group(open, inner, close, rest) => PrintGroup(open, inner, close) + PrintPieces(rest)
  {
  }

  lemma {:induction false} SkipsPieces(p: Pieces, text: string, at: nat, depth: int)
    requires ValidPieces(p) && Has(text, at, PrintPieces(p)) && depth >= 1
    ensures SkipBalanced(text, at, depth, None) == SkipBalanced(text, at + |PrintPieces(p)|, depth, None)
    decreases p
  {
    hide Has, SkipString, StringBody, PrintPieces, SkipBalanced;
    PiecesAre(p);
    match p
    case NoPieces =>
    case Plain(c, rest) =>
      HasSplit(text, at, [c], PrintPieces(rest));
      HasChar(text, at, [c], 0);
      SkipsChar(text, at, depth);
      SkipsPieces(rest, text, at + 1, depth);
    case Quote(body, rest) =>
      HasSplit(text, at, PrintQuoted(body), PrintPieces(rest));
      SkipsQuoted(body, text, at);
      SkipsChar(text, at, depth);
      SkipsPieces(rest, text, at + |PrintQuoted(body)|, depth);
    case Group(open, inner, close, rest) =>
      var group := PrintGroup(open, inner, close);
      HasSplit(text, at, group, PrintPieces(rest));
      HasSplit(text, at, [open], PrintPieces(inner) + [close]);
      HasSplit(text, at + 1, PrintPieces(inner), [close]);
      HasChar(text, at, [open], 0);
      HasChar(text, at + 1 + |PrintPieces(inner)|, [close], 0);
      SkipsChar(text, at, depth);
      SkipsPieces(inner, text, at + 1, depth + 1);
      SkipsChar(text, at + 1 + |PrintPieces(inner)|, depth + 1);
      SkipsPieces(rest, text, at + |group|, depth);
  }

  /** What the count makes of one character, or of one string. */
  lemma SkipsChar(text: string, at: nat, depth: int)
    requires at < |text| && depth >= 1
    ensures var c, skipped := text[at], SkipBalanced(text, at, depth, None);
      if c == '"' then
        SkipString(text, at, None).problem.None? ==> skipped == SkipBalanced(text, SkipString(text, at, None).at, depth, None)
      else if IsOpen(c) then skipped == SkipBalanced(text, at + 1, depth + 1, None)
      else if IsClose(c) then depth > 1 ==> skipped == SkipBalanced(text, at + 1, depth - 1, None)
      else skipped == SkipBalanced(text, at + 1, depth, None)
  {
    hide SkipString;
  }

  lemma SkipsQuoted(body: string, text: string, at: nat)
    requires StringBody(body) && Has(text, at, PrintQuoted(body))
    ensures text[at] == '"' && SkipString(text, at, None) == Walk(at + |PrintQuoted(body)|, None)
  {
    hide Has;
    HasSplit(text, at, ['"'], body + ['"']);
    HasChar(text, at, ['"'], 0);
    StringBodyReads(body, text, at + 1);
  }

  lemma SkipsOne(text: string, at: nat)
    ensures at < |text| && IsOpen(text[at]) ==> SkipBalanced(text, at, 0, None) == SkipBalanced(text, at + 1, 1, None)
  {
  }

  lemma SkipsLast(text: string, at: nat)
    ensures at < |text| && IsClose(text[at]) ==> SkipBalanced(text, at, 1, None) == Walk(at + 1, None)
  {
  }

  lemma SkipsGroup(open: char, inner: Pieces, close: char, text: string, at: nat)
    requires IsOpen(open) && ValidPieces(inner) && IsClose(close) && Has(text, at, PrintGroup(open, inner, close))
    ensures at < |text| && text[at] == open
    ensures SkipBalanced(text, at, 0, None) == Walk(at + |PrintGroup(open, inner, close)|, None)
  {
    hide Has, PrintPieces, ValidPieces, SkipBalanced;
    SkipsOne(text, at);
    SkipsLast(text, at + 1 + |PrintPieces(inner)|);
    HasSplit(text, at, [open], PrintPieces(inner) + [close]);
    HasSplit(text, at + 1, PrintPieces(inner), [close]);
    HasChar(text, at, [open], 0);
    HasChar(text, at + 1 + |PrintPieces(inner)|, [close], 0);
    SkipsPieces(inner, text, at + 1, 1);
    assert |PrintGroup(open, inner, close)| == |PrintPieces(inner)| + 2;
  }

  // ----- Names -----

  lemma WordIs(name: string, text: string, at: nat)
    requires Has(text, at, name) && (forall i :: 0 <= i < |name| ==> IsIdentifierChar(name[i]))
    requires at + |name| < |text| ==> !IsIdentifierChar(text[at + |name|])
    ensures WordEnd(text, at) == at + |name|
  {
    var end := WordEnd(text, at);
    forall i | at <= i < at + |name| ensures IsIdentifierChar(text[i]) {
      HasChar(text, at, name, i - at);
    }
    if end < at + |name| { assert false; }
  }

  lemma WalksKeyword(word: string, text: string, at: nat)
    requires word != [] && Valid(Keyword(word)) && Has(text, at, word) && Follows(Keyword(word), text, at + |word|)
    ensures WalkName(text, at) == Walk(at + |word|, None)
  {
    KeywordIsIdentifier(word);
    WordIs(word, text, at);
  }

  lemma KeywordIsIdentifier(word: string)
    requires IsValueKeyword(word)
    ensures Identifier(word)
  {
  }

  lemma GapThenBracket(text: string, at: nat, gap: string, open: char)
    requires Has(text, at, gap) && AllSpace(gap)
    requires at + |gap| < |text| && text[at + |gap|] == open && IsOpen(open)
    ensures NextNonSpace(text, at, |text|) == at + |gap| && !IsIdentifierChar(text[at])
  {
    hide Has;
    SpacesSkipped(text, at, gap);
    if gap != [] { HasChar(text, at, gap, 0); }
  }

  lemma WalksCall(v: Value, text: string, at: nat)
    requires v.Call? && Valid(v) && Has(text, at, Print(v))
    ensures WalkName(text, at) == Walk(at + |Print(v)|, None)
  {
    hide Has, SkipBalanced, PrintGroup, PrintPieces;
    var Call(name, gap, args) := v;
    var group := PrintGroup('(', args, ')');
    HasSplit(text, at, name, gap + group);
    HasSplit(text, at + |name|, gap, group);
    SkipsGroup('(', args, ')', text, at + |name| + |gap|);
    GapThenBracket(text, at + |name|, gap, '(');
    WordIs(name, text, at);
  }

  lemma WalksTyped(v: Value, text: string, at: nat)
    requires v.Typed? && Valid(v) && Has(text, at, Print(v))
    ensures WalkName(text, at) == Walk(at + |Print(v)|, None)
  {
    hide *;
    TypedParts(v);
    var Typed(name, gap, types, gap2, args) := v;
    var group := PrintGroup('[', types, ']');
    var group2 := PrintGroup('(', args, ')');
    var a1 := at + |name|;
    var a2 := a1 + |gap|;
    var a3 := a2 + |group|;
    HasSplit(text, at, name, gap + (group + (gap2 + group2)));
    HasSplit(text, a1, gap, group + (gap2 + group2));
    HasSplit(text, a2, group, gap2 + group2);
    HasSplit(text, a3, gap2, group2);
    SkipsGroup('[', types, ']', text, a2);
    SkipsGroup('(', args, ')', text, a3 + |gap2|);
    GapThenBracket(text, a1, gap, '[');
    GapThenBracket(text, a3, gap2, '(');
    WordIs(name, text, at);
    WalksBothGroups(text, at, a1, a2, a3, a3 + |gap2|, a3 + |gap2| + |group2|);
  }

  lemma TypedParts(v: Value)
    requires v.Typed? && Valid(v)
    ensures Print(v) == v.name + (v.gap + (PrintGroup('[', v.types, ']') + (v.gap2 + PrintGroup('(', v.args, ')'))))
    ensures Print(v) != [] && (forall i :: 0 <= i < |v.name| ==> IsIdentifierChar(v.name[i]))
    ensures AllSpace(v.gap) && AllSpace(v.gap2) && ValidPieces(v.types) && ValidPieces(v.args)
    ensures IsOpen('[') && IsOpen('(') && IsClose(']') && IsClose(')')
  {
    hide PrintGroup, ValidPieces, IsIdentifierChar, IsSpace;
  }

  lemma WalksBothGroups(text: string, at: nat, a1: nat, a2: nat, a3: nat, a4: nat, end: nat)
    requires at <= a1 <= a2 < a3 <= a4 < |text| && WordEnd(text, at) == a1
    requires NextNonSpace(text, a1, |text|) == a2 && text[a2] == '[' && SkipBalanced(text, a2, 0, None) == Walk(a3, None)
    requires NextNonSpace(text, a3, |text|) == a4 && text[a4] == '(' && SkipBalanced(text, a4, 0, None) == Walk(end, None)
    ensures WalkName(text, at) == Walk(end, None)
  {
    hide SkipBalanced, NextNonSpace, WordEnd;
  }

  // ----- Values -----

  lemma FirstChar(v: Value)
    requires Valid(v)
    ensures Print(v) != [] && !IsSpace(Print(v)[0]) && !CannotBeginValue(Print(v)[0])
  {
  }

  lemma WalksBare(v: Value, text: string, at: nat)
    requires v.Bare? && Valid(v) && Has(text, at, Print(v)) && Follows(v, text, at + |Print(v)|)
    ensures BareEnd(text, at) == at + |Print(v)|
  {
    var end := BareEnd(text, at);
    forall i | at <= i < at + |v.text| ensures !EndsBare(text[i]) {
      HasChar(text, at, v.text, i - at);
      assert BareChar(v.text[i - at]);
    }
    if end < at + |v.text| { assert false; }
  }

  lemma WalksQuoted(v: Value, text: string, at: nat, depth: nat)
    requires v.Quoted? && Valid(v) && Has(text, at, Print(v)) && depth <= 32
    ensures WalkValue(text, at, depth) == Walk(at + |Print(v)|, None)
  {
    hide Has;
    HasSplit(text, at, v.mark, PrintQuoted(v.body));
    SkipsQuoted(v.body, text, at + |v.mark|);
    if v.mark != [] { HasChar(text, at, v.mark, 0); }
  }

  /** Nothing the grammar writes is refused. Down to the depth cap the walk stops exactly at the end of
      the value; a value nested deeper is accepted too, because the cap sends the walk to the end of the
      text and every caller unwinds from there. */
  lemma {:induction false} WalkAcceptsPrinted(v: Value, text: string, start: nat, lead: string, depth: nat)
    requires Valid(v) && AllSpace(lead)
    requires Has(text, start, lead) && Has(text, start + |lead|, Print(v))
    requires start + |lead| + |Print(v)| <= |text| && Follows(v, text, start + |lead| + |Print(v)|)
    ensures WalkValue(text, start, depth)
         == Walk(if Fits(v, depth) then start + |lead| + |Print(v)| else |text|, None)
    decreases v, 1
  {
    hide *;
    if depth <= 32 {
      var at := start + |lead|;
      FirstChar(v);
      HasChar(text, at, Print(v), 0);
      SpacesSkipped(text, start, lead);
      SkipsToValue(text, start, at, depth);
      WalkAcceptsAt(v, text, at, depth);
    } else {
      TooDeep(v, text, start, depth);
    }
  }

  lemma SkipsToValue(text: string, start: nat, at: nat, depth: nat)
    requires start <= at < |text| && NextNonSpace(text, start, |text|) == at && !IsSpace(text[at])
    ensures WalkValue(text, start, depth) == WalkValue(text, at, depth)
  {
    hide SkipString, WalkName, WalkElements, WalkPairs, BareEnd, CannotBeginValue;
    NextNonSpaceIs(text, at, |text|, at);
  }

  lemma TooDeep(v: Value, text: string, start: nat, depth: nat)
    requires start <= |text| && depth > 32
    ensures !Fits(v, depth) && WalkValue(text, start, depth) == Walk(|text|, None)
  {
  }

  lemma {:induction false} WalkAcceptsAt(v: Value, text: string, at: nat, depth: nat)
    requires Valid(v) && Has(text, at, Print(v)) && depth <= 32
    requires at + |Print(v)| <= |text| && Follows(v, text, at + |Print(v)|)
    ensures WalkValue(text, at, depth) == Walk(if Fits(v, depth) then at + |Print(v)| else |text|, None)
    decreases v, 0
  {
    hide *;
    FirstIs(v);
    HasChar(text, at, Print(v), 0);
    WalkDispatch(text, at, depth);
    AtomsFit(v, depth);
    match v
    case Keyword(word) => WalksKeyword(word, text, at);
    case Bare(_) => WalksBare(v, text, at);
    case Quoted(_, _) => WalksQuoted(v, text, at, depth);
    case Call(_, _, _) => WalksCall(v, text, at);
    case Typed(_, _, _, _, _) => WalksTyped(v, text, at);
    case Array(elements) =>
      HasSplit(text, at, ['['], PrintElements(elements));
      WalkAcceptsElements(elements, text, at + 1, depth);
    case Dictionary(pairs) =>
      HasSplit(text, at, ['{'], PrintPairs(pairs));
      WalkAcceptsPairs(pairs, text, at + 1, depth);
  }

  /** What the walk turns on: the first character of a value. */
  lemma WalkDispatch(text: string, at: nat, depth: nat)
    requires at < |text| && !IsSpace(text[at]) && !CannotBeginValue(text[at]) && depth <= 32
    ensures var c, w := text[at], WalkValue(text, at, depth);
      && (IsIdentifierStart(c) ==> w == WalkName(text, at))
      && (c == '[' ==> w == WalkElements(text, at + 1, depth))
      && (c == '{' ==> w == WalkPairs(text, at + 1, depth))
      && (BareFirst(c) ==> w == Walk(BareEnd(text, at), None))
  {
    hide WalkName, WalkElements, WalkPairs, BareEnd, SkipString;
    NextNonSpaceIs(text, at, |text|, at);
  }

  predicate BareFirst(c: char) {
    c != '"' && c != '&' && c != '@' && !IsIdentifierStart(c) && c != '[' && c != '{'
  }

  lemma FirstIs(v: Value)
    requires Valid(v)
    ensures Print(v) != [] && !IsSpace(Print(v)[0]) && !CannotBeginValue(Print(v)[0])
    ensures v.Keyword? || v.Call? || v.Typed? ==> IsIdentifierStart(Print(v)[0])
    ensures v.Bare? ==> BareFirst(Print(v)[0])
    ensures v.Keyword? ==> Print(v) == v.word != []
    ensures v.Array? ==> Print(v) == ['['] + PrintElements(v.elements) && ValidElements(v.elements)
    ensures v.Dictionary? ==> Print(v) == ['{'] + PrintPairs(v.pairs) && ValidPairs(v.pairs)
  {
    FirstChar(v);
    hide StringBody, ValidPieces, PrintPieces;
    if v.Keyword? { KeywordIsIdentifier(v.word); }
    if v.Bare? { assert BareChar(v.text[0]); }
  }

  lemma AtomsFit(v: Value, depth: nat)
    requires depth <= 32
    ensures v.Array? ==> (Fits(v, depth) <==> ElementsFit(v.elements, depth + 1))
    ensures v.Dictionary? ==> (Fits(v, depth) <==> PairsFit(v.pairs, depth + 1))
    ensures !v.Array? && !v.Dictionary? ==> Fits(v, depth)
  {
  }

  /** Where everything stands around one value inside a container: spaces, the value, spaces, the
      separator that follows it, and what comes after that. */
  lemma Layout(text: string, start: nat, lead: string, v: Value, trail: string, c: char, rest: string)
    requires AllSpace(lead) && Valid(v) && AllSpace(trail)
    requires c == ',' || c == ']' || c == ':' || c == '}'
    requires Has(text, start, lead + (Print(v) + (trail + ([c] + rest))))
    ensures var at := start + |lead|;
      var end := at + |Print(v)|;
      && end + |trail| < |text|
      && Has(text, start, lead) && Has(text, at, Print(v)) && Has(text, end + |trail| + 1, rest)
      && NextNonSpace(text, start, |text|) == at && !CannotBeginValue(text[at])
      && Follows(v, text, end) && NextNonSpace(text, end, |text|) == end + |trail| && text[end + |trail|] == c
  {
    hide Has, Follows;
    var at := start + |lead|;
    var end := at + |Print(v)|;
    HasSplit(text, start, lead, Print(v) + (trail + ([c] + rest)));
    HasSplit(text, at, Print(v), trail + ([c] + rest));
    HasSplit(text, end, trail, [c] + rest);
    HasSplit(text, end + |trail|, [c], rest);
    HasSplit(text, end, trail, [c]);
    SeparatorFollows(v, text, end, trail, c);
    FirstChar(v);
    HasChar(text, at, Print(v), 0);
    SpacesSkipped(text, start, lead);
  }

  lemma {:induction false} WalkAcceptsElements(e: Elements, text: string, start: nat, depth: nat)
    requires ValidElements(e) && Has(text, start, PrintElements(e)) && depth <= 32
    ensures WalkElements(text, start, depth)
         == Walk(if ElementsFit(e, depth + 1) then start + |PrintElements(e)| else |text|, None)
    decreases e, 3
  {
    if e.NoElement? {
      WalkAcceptsNoElement(e, text, start, depth);
    } else {
      WalkAcceptsSomeElement(e, text, start, depth);
    }
  }

  lemma WalkAcceptsNoElement(e: Elements, text: string, start: nat, depth: nat)
    requires e.NoElement? && ValidElements(e) && Has(text, start, PrintElements(e))
    ensures WalkElements(text, start, depth) == Walk(start + |PrintElements(e)|, None)
  {
    hide Has, Follows, WalkValue;
    SeparatorFollows(Array(e), text, start, e.trail, ']');
  }

  lemma {:induction false} WalkAcceptsSomeElement(e: Elements, text: string, start: nat, depth: nat)
    requires !e.NoElement? && ValidElements(e) && Has(text, start, PrintElements(e)) && depth <= 32
    ensures WalkElements(text, start, depth)
         == Walk(if ElementsFit(e, depth + 1) then start + |PrintElements(e)| else |text|, None)
    decreases e, 2
  {
    hide Has, Follows, WalkValue, WalkAfterElement, Print, PrintElements, NextNonSpace, Valid;
    ElementsShape(e);
    Layout(text, start, e.lead, e.value, e.trail, ElementSeparatorChar(e), AfterElementText(e));
    HasNothing(text, start + |e.lead|);
    WalkAcceptsPrinted(e.value, text, start + |e.lead|, [], depth + 1);
    WalkFromSeparator(text, |text|, depth);
    if Fits(e.value, depth + 1) {
      WalkAcceptsAfterElement(e, text, start + |e.lead| + |Print(e.value)|, depth);
    }
  }

  lemma {:induction false} WalkAcceptsAfterElement(e: Elements, text: string, end: nat, depth: nat)
    requires ValidElements(e) && !e.NoElement? && depth <= 32
    requires end + |e.trail| < |text|
    requires NextNonSpace(text, end, |text|) == end + |e.trail| && text[end + |e.trail|] == ElementSeparatorChar(e)
    requires Has(text, end + |e.trail| + 1, AfterElementText(e)) && Fits(e.value, depth + 1)
    ensures WalkAfterElement(text, end, depth)
         == Walk(if ElementsFit(e, depth + 1) then end + |e.trail| + 1 + |AfterElementText(e)| else |text|, None)
    decreases e, 1
  {
    hide Has, Follows, WalkValue, WalkElements;
    WalkFromSeparator(text, end, depth);
    if e.MoreElements? {
      WalkAcceptsElements(e.rest, text, end + |e.trail| + 1, depth);
    }
  }

  /** After an element or a pair the walk turns on the next character that is no space. */
  lemma WalkFromSeparator(text: string, end: nat, depth: nat)
    requires end <= |text|
    ensures var after := NextNonSpace(text, end, |text|);
      && (after == |text| ==> WalkAfterElement(text, end, depth) == Walk(|text|, None)
                              && WalkAfterPair(text, end, depth) == Walk(|text|, None)
                              && WalkAfterKey(text, end, depth) == Walk(|text|, None))
      && (At(text, after, ',') ==>
            && WalkAfterElement(text, end, depth) == WalkElements(text, after + 1, depth)
            && WalkAfterPair(text, end, depth) == WalkPairs(text, after + 1, depth))
      && (At(text, after, ']') ==> WalkAfterElement(text, end, depth) == Walk(after + 1, None))
      && (At(text, after, '}') ==> WalkAfterPair(text, end, depth) == Walk(after + 1, None))
  {
    hide WalkValue, WalkElements, WalkPairs;
  }

  lemma {:induction false} WalkAcceptsPairs(p: Pairs, text: string, start: nat, depth: nat)
    requires ValidPairs(p) && Has(text, start, PrintPairs(p)) && depth <= 32
    ensures WalkPairs(text, start, depth)
         == Walk(if PairsFit(p, depth + 1) then start + |PrintPairs(p)| else |text|, None)
    decreases p, 3
  {
    if p.NoPair? {
      WalkAcceptsNoPair(p, text, start, depth);
    } else {
      WalkAcceptsSomePair(p, text, start, depth);
    }
  }

  lemma WalkAcceptsNoPair(p: Pairs, text: string, start: nat, depth: nat)
    requires p.NoPair? && ValidPairs(p) && Has(text, start, PrintPairs(p))
    ensures WalkPairs(text, start, depth) == Walk(start + |PrintPairs(p)|, None)
  {
    hide Has, Follows, WalkValue;
    SeparatorFollows(Dictionary(p), text, start, p.trail, '}');
  }

  lemma {:induction false} WalkAcceptsSomePair(p: Pairs, text: string, start: nat, depth: nat)
    requires !p.NoPair? && ValidPairs(p) && Has(text, start, PrintPairs(p)) && depth <= 32
    ensures WalkPairs(text, start, depth)
         == Walk(if PairsFit(p, depth + 1) then start + |PrintPairs(p)| else |text|, None)
    decreases p, 2
  {
    hide *;
    PairHolds(p, depth + 1);
    PairsShape(p);
    Layout(text, start, p.lead, p.key, p.mid, ':', FromPairValue(p));
    EntersPair(text, start, depth);
    HasNothing(text, start + |p.lead|);
    EmptyIsSpace();
    WalkAcceptsPrinted(p.key, text, start + |p.lead|, [], depth + 1);
    WalkFromSeparator(text, |text|, depth);
    if Fits(p.key, depth + 1) {
      WalkAcceptsAfterKey(p, text, start + |p.lead| + |Print(p.key)|, depth);
    }
  }

  lemma EmptyIsSpace()
    ensures AllSpace([])
  {
  }

  lemma PairHolds(p: Pairs, depth: nat)
    requires ValidPairs(p) && !p.NoPair?
    ensures AllSpace(p.lead) && Valid(p.key) && AllSpace(p.mid) && AllSpace(p.mid2) && Valid(p.value) && AllSpace(p.trail)
    ensures PairSeparatorChar(p) == ',' || PairSeparatorChar(p) == '}'
    ensures !Fits(p.key, depth) || !Fits(p.value, depth) ==> !PairsFit(p, depth)
  {
    hide Valid, Fits, AllSpace;
  }

  lemma EntersPair(text: string, start: nat, depth: nat)
    requires start <= |text| && NextNonSpace(text, start, |text|) < |text|
    requires !CannotBeginValue(text[NextNonSpace(text, start, |text|)])
    ensures var key := WalkValue(text, NextNonSpace(text, start, |text|), depth + 1);
      WalkPairs(text, start, depth) == if key.problem.Some? then key else WalkAfterKey(text, key.at, depth)
  {
    hide WalkValue, WalkAfterKey, NextNonSpace;
  }

  /** A pair's colon, and the value behind it. */
  lemma EntersPairValue(text: string, start: nat, depth: nat)
    requires start <= |text|
    requires var colon := NextNonSpace(text, start, |text|); colon < |text| && text[colon] == ':'
    ensures var value := WalkValue(text, NextNonSpace(text, start, |text|) + 1, depth + 1);
      WalkAfterKey(text, start, depth) == if value.problem.Some? then value else WalkAfterPair(text, value.at, depth)
  {
    hide WalkValue, WalkAfterPair, NextNonSpace;
  }

  lemma {:induction false} WalkAcceptsAfterKey(p: Pairs, text: string, keyEnd: nat, depth: nat)
    requires ValidPairs(p) && !p.NoPair? && depth <= 32
    requires keyEnd + |p.mid| < |text|
    requires NextNonSpace(text, keyEnd, |text|) == keyEnd + |p.mid| && text[keyEnd + |p.mid|] == ':'
    requires Has(text, keyEnd + |p.mid| + 1, FromPairValue(p)) && Fits(p.key, depth + 1)
    ensures WalkAfterKey(text, keyEnd, depth)
         == Walk(if PairsFit(p, depth + 1) then keyEnd + |p.mid| + 1 + |FromPairValue(p)| else |text|, None)
    decreases p, 1
  {
    hide *;
    var at := keyEnd + |p.mid| + 1;
    PairHolds(p, depth + 1);
    PairsShape(p);
    ValueOfPair(p);
    EntersPairValue(text, keyEnd, depth);
    Layout(text, at, p.mid2, p.value, p.trail, PairSeparatorChar(p), AfterPairText(p));
    WalkAcceptsPrinted(p.value, text, at, p.mid2, depth + 1);
    WalkFromSeparator(text, |text|, depth);
    if Fits(p.value, depth + 1) {
      WalkAcceptsAfterPair(p, text, at + |p.mid2| + |Print(p.value)|, depth);
    }
  }

  lemma ValueOfPair(p: Pairs)
    requires !p.NoPair?
    ensures FromPairValue(p) == p.mid2 + (Print(p.value) + (p.trail + ([PairSeparatorChar(p)] + AfterPairText(p))))
  {
  }

  lemma {:induction false} WalkAcceptsAfterPair(p: Pairs, text: string, end: nat, depth: nat)
    requires ValidPairs(p) && !p.NoPair? && depth <= 32
    requires end + |p.trail| < |text|
    requires NextNonSpace(text, end, |text|) == end + |p.trail| && text[end + |p.trail|] == PairSeparatorChar(p)
    requires Has(text, end + |p.trail| + 1, AfterPairText(p)) && Fits(p.key, depth + 1) && Fits(p.value, depth + 1)
    ensures WalkAfterPair(text, end, depth)
         == Walk(if PairsFit(p, depth + 1) then end + |p.trail| + 1 + |AfterPairText(p)| else |text|, None)
    decreases p, 0
  {
    hide Has, Follows, WalkValue, WalkPairs, WalkElements, NextNonSpace, Fits, PrintPairs, Valid;
    WalkFromSeparator(text, end, depth);
    if p.MorePairs? {
      WalkAcceptsPairs(p.rest, text, end + |p.trail| + 1, depth);
    }
  }

  /** A value on its own is accepted, however deeply it nests. */
  lemma PrintedHasNoProblem(v: Value)
    requires Valid(v)
    ensures ProblemOf(Print(v)).None?
  {
    var text := Print(v);
    assert text[0..|text|] == text;
    HasNothing(text, 0);
    WalkAcceptsPrinted(v, text, 0, [], 0);
  }

  // ----- Stopping at the end of the value -----

  lemma KeywordRunsOn(word: string, text: string, at: nat)
    requires Valid(Keyword(word)) && Has(text, at, word) && !Follows(Keyword(word), text, at + |word|)
    ensures at < |text| && WalkName(text, at).at > at + |word|
  {
    hide *;
    FirstIs(Keyword(word));
    KeywordIs(word);
    HasChar(text, at, word, 0);
    var end := at + |word|;
    KeywordFollowed(word, text, end);
    if end < |text| && IsIdentifierChar(text[end]) {
      WordGoesOn(text, at, word);
      NameCovers(text, at);
    } else {
      WordIs(word, text, at);
      SkipsTheBracket(text, NextNonSpace(text, end, |text|));
      NameCovers(text, at);
    }
  }

  lemma KeywordIs(word: string)
    requires Valid(Keyword(word))
    ensures Identifier(word) && word != [] && forall i :: 0 <= i < |word| ==> IsIdentifierChar(word[i])
  {
    KeywordIsIdentifier(word);
  }

  lemma KeywordFollowed(word: string, text: string, end: nat)
    requires end <= |text| && !Follows(Keyword(word), text, end)
    ensures (end < |text| && IsIdentifierChar(text[end]))
            || (var next := NextNonSpace(text, end, |text|); At(text, next, '(') || At(text, next, '['))
  {
    hide NextNonSpace;
  }

  /** A name is walked at least to its end, and past a bracket behind it. */
  lemma NameCovers(text: string, at: nat)
    requires at < |text|
    ensures var end := WordEnd(text, at);
      var next := NextNonSpace(text, end, |text|);
      && WalkName(text, at).at >= end
      && (At(text, next, '[') || At(text, next, '(') ==> WalkName(text, at).at >= SkipBalanced(text, next, 0, None).at)
  {
    hide SkipBalanced, NextNonSpace, WordEnd;
  }

  lemma WordGoesOn(text: string, at: nat, word: string)
    requires Has(text, at, word) && Identifier(word) && at + |word| < |text| && IsIdentifierChar(text[at + |word|])
    ensures WordEnd(text, at) > at + |word|
  {
    hide Has;
    forall i | at <= i <= at + |word| ensures IsIdentifierChar(text[i]) {
      if i < at + |word| { HasChar(text, at, word, i - at); }
    }
  }

  lemma SkipsTheBracket(text: string, at: nat)
    requires at <= |text|
    ensures At(text, at, '(') || At(text, at, '[') ==> SkipBalanced(text, at, 0, None).at > at
  {
  }

  /** The walk of a value within the depth cap stops exactly at its end if and only if what follows does not
      run on from it: after a number a separator, after a keyword no more of a name and no call. After every
      other value anything may follow. */
  lemma StopsExactlyWhen(v: Value, text: string, at: nat, depth: nat)
    requires Valid(v) && Has(text, at, Print(v)) && at + |Print(v)| <= |text| && Fits(v, depth)
    ensures WalkValue(text, at, depth) == Walk(at + |Print(v)|, None) <==> Follows(v, text, at + |Print(v)|)
  {
    if Follows(v, text, at + |Print(v)|) {
      WalkAcceptsAt(v, text, at, depth);
    } else {
      RunsOn(v, text, at, depth);
    }
  }

  lemma RunsOn(v: Value, text: string, at: nat, depth: nat)
    requires Valid(v) && Has(text, at, Print(v)) && depth <= 32
    requires at + |Print(v)| <= |text| && !Follows(v, text, at + |Print(v)|)
    ensures at <= |text| && WalkValue(text, at, depth).at != at + |Print(v)|
  {
    hide *;
    NotFollowed(v, text, at);
    FirstIs(v);
    HasChar(text, at, Print(v), 0);
    WalkDispatch(text, at, depth);
    if v.Keyword? { KeywordRunsOn(v.word, text, at); }
  }

  lemma NotFollowed(v: Value, text: string, at: nat)
    requires at + |Print(v)| <= |text| && !Follows(v, text, at + |Print(v)|)
    ensures v.Keyword? || v.Bare?
    ensures v.Bare? ==> BareEnd(text, at) != at + |Print(v)|
  {
  }
}
