/** What a scan makes of text row by row: several settings in a row, their values over any number of lines, quoted
    keys, and keys that go on from the line above. Headings and comments may stand behind the last value of a
    row, and a carriage return in front of its line break. */
module ConfigRows {
  import opened Text
  import opened ConfigString
  import opened ConfigGrammar
  import opened ConfigScan
  import opened ScanLastLine
  import opened ScanValues
  import opened ScanTopLevel
  import opened ConfigRoundTrip
  import opened ValueModes
  import opened ConfigCutShort

  // ----- Lines as they are written -----

  /** A key's text: bare characters, spaces among them, or a name in quotes. */
  datatype KeyToken = Chars(s: string) | Named(content: string)

  /** One setting on a line, with the spaces around its value. */
  datatype Part = Part(key: seq<KeyToken>, lead: string, value: Value, gap: string)

  datatype Ending =
    | Blank
    | Note(text: string)                // a `;` comment
    | Heading(name: string)
    | Unfinished(key: seq<KeyToken>)    // key text that goes on below

  /** A row is one line but for the line breaks inside its values; `carriage` is whether a carriage return stands in
      front of its own line break. */
  datatype Row = Row(lead: string, parts: seq<Part>, end: Ending, carriage: bool)

  function PrintToken(t: KeyToken): string {
    match t
    case Chars(s) => s
    case Named(content) => ['"'] + (Escaped(content) + ['"'])
  }

  function PrintKey(key: seq<KeyToken>): string {
    if key == [] then [] else PrintToken(key[0]) + PrintKey(key[1..])
  }

  function PrintPart(p: Part): string {
    PrintKey(p.key) + (['='] + (p.lead + Print(p.value)))
  }

  function PrintEnding(e: Ending): string {
    match e
    case Blank => []
    case Note(text) => text
    case Heading(name) => ['['] + (name + [']'])
    case Unfinished(key) => PrintKey(key)
  }

  function PrintParts(parts: seq<Part>, e: Ending): string {
    if parts == [] then PrintEnding(e) else PrintPart(parts[0]) + (parts[0].gap + PrintParts(parts[1..], e))
  }

  function PrintRow(l: Row): string {
    l.lead + PrintParts(l.parts, l.end)
  }

  function BreakOf(l: Row): string {
    if l.carriage then ['\r', NEWLINE] else [NEWLINE]
  }

  function PrintRows(rows: seq<Row>): string {
    if rows == [] then [] else PrintRow(rows[0]) + (BreakOf(rows[0]) + PrintRows(rows[1..]))
  }

  // ----- What they register -----

  function WithoutSpaces(s: string): string {
    if s == [] then [] else (if IsSpace(s[0]) then [] else [s[0]]) + WithoutSpaces(s[1..])
  }

  /** The key so far with more key text behind it: characters join on, a name in quotes replaces what was there. */
  function KeyOf(key: seq<KeyToken>, soFar: string): string {
    if key == [] then soFar
    else KeyOf(key[1..], match key[0]
                         case Chars(s) => soFar + WithoutSpaces(s)
                         case Named(content) => content)
  }

  /** What the scan has registered, and the key text that waits for its `=`. */
  datatype Read = Read(entries: seq<Entry>, headers: seq<Header>, pending: string, pendingLine: nat, section: string)

  function ReadOf(st: State): Read {
    Read(st.entries, st.headers, st.pending, st.pendingLine, st.section)
  }

  function KeyLine(r: Read, number: nat): nat {
    if r.pending == [] then number else r.pendingLine
  }

  /** A setting whose `=` is on line `number`. */
  function WithPart(r: Read, p: Part, number: nat): Read {
    var keyLine := KeyLine(r, number);
    r.(entries := r.entries + [Entry(r.section, KeyOf(p.key, r.pending), Joined([], Print(p.value)), KeyOf(p.key, []), keyLine,
                                     number, number + Breaks(Print(p.value)), keyLine != number)],
       pending := [], pendingLine := keyLine)
  }

  function WithParts(r: Read, parts: seq<Part>, number: nat): Read
    decreases |parts|
  {
    if parts == [] then r
    else WithParts(WithPart(r, parts[0], number), parts[1..], number + Breaks(Print(parts[0].value)))
  }

  /** The line the values of a row that starts on line `number` end on. */
  function LastLine(parts: seq<Part>, number: nat): nat {
    if parts == [] then number else LastLine(parts[1..], number + Breaks(Print(parts[0].value)))
  }

  function WithEnding(r: Read, e: Ending, number: nat): Read {
    match e
    case Blank => r
    case Note(_) => r
    case Heading(name) => r.(section := name, headers := r.headers + [Header(name, number)])
    case Unfinished(key) => r.(pending := KeyOf(key, r.pending), pendingLine := KeyLine(r, number))
  }

  function WithRow(r: Read, l: Row, number: nat): Read {
    WithEnding(WithParts(r, l.parts, number), l.end, LastLine(l.parts, number))
  }

  function WithRows(r: Read, rows: seq<Row>, number: nat): Read
    decreases |rows|
  {
    if rows == [] then r else WithRows(WithRow(r, rows[0], number), rows[1..], LastLine(rows[0].parts, number) + 1)
  }

  // ----- Which may be written -----

  predicate GoodToken(t: KeyToken) {
    match t
    case Chars(s) => '=' !in s && '"' !in s && NoNewline(s)
    case Named(content) => NoNewline(content)
  }

  /** Key text that no comment and no heading could be. */
  predicate GoodKey(key: seq<KeyToken>) {
    && (forall i :: 0 <= i < |key| ==> GoodToken(key[i]))
    && PrintKey(key) != [] && !IsSpace(PrintKey(key)[0]) && PrintKey(key)[0] != ';' && PrintKey(key)[0] != '['
  }

  /** What follows a number or a keyword is a space or a comment, or nothing. */
  predicate GoodPart(p: Part, after: string) {
    && GoodKey(p.key) && AllSpace(p.lead) && NoNewline(p.lead) && Valid(p.value) && ReadWhole(p.value)
    && AllSpace(p.gap) && NoNewline(p.gap) && (NoNewline(Print(p.value)) || p.lead == [])
    && (p.value.Keyword? || p.value.Bare? ==> p.gap + after != [] ==> IsSpace((p.gap + after)[0]) || (p.gap + after)[0] == ';')
  }

  predicate GoodEnding(e: Ending, pending: string) {
    match e
    case Blank => true
    case Note(text) => text != [] && text[0] == ';' && NoNewline(text)
    case Heading(name) => pending == [] && Trimmed(name) == name && NoNewline(name)
    case Unfinished(key) => GoodKey(key) && !IsSpace(PrintKey(key)[|PrintKey(key)| - 1])
  }

  predicate GoodParts(parts: seq<Part>, e: Ending, pending: string) {
    if parts == [] then GoodEnding(e, pending)
    else GoodPart(parts[0], PrintParts(parts[1..], e)) && GoodParts(parts[1..], e, [])
  }

  predicate GoodRow(l: Row, pending: string) {
    && AllSpace(l.lead) && NoNewline(l.lead) && GoodParts(l.parts, l.end, pending)
    && '\r' !in PrintRow(l) && (l.carriage ==> NoNewline(PrintRow(l)))
  }

  predicate GoodRows(rows: seq<Row>, r: Read, number: nat)
    decreases |rows|
  {
    rows != [] ==> GoodRow(rows[0], r.pending) && GoodRows(rows[1..], WithRow(r, rows[0], number), LastLine(rows[0].parts, number) + 1)
  }

  // ----- Keys -----

  lemma {:induction false} ReadsChars(s: string, text: string, at: nat, hi: nat, soFar: string)
    requires Has(text, at, s) && at + |s| <= hi <= |text| && '=' !in s && '"' !in s
    ensures KeyTokens(text, at, hi, soFar) == KeyTokens(text, at + |s|, hi, soFar + WithoutSpaces(s))
    decreases |s|
  {
    hide Has;
    if s == [] {
      assert soFar + [] == soFar;
    } else {
      var first := if IsSpace(s[0]) then [] else [s[0]];
      assert s == [s[0]] + s[1..];
      HasSplit(text, at, [s[0]], s[1..]);
      HasChar(text, at, s, 0);
      assert text[at] in s;
      ReadsChars(s[1..], text, at + 1, hi, soFar + first);
      Regrouped(soFar, first, WithoutSpaces(s[1..]));
      assert soFar + [] == soFar;
    }
  }

  lemma {:induction false} ReadsQuotedName(s: string, text: string, at: nat, hi: nat, soFar: string)
    requires Has(text, at, Escaped(s) + ['"']) && at + |Escaped(s)| + 1 <= hi <= |text|
    ensures QuotedToken(text, at, hi, soFar) == ConfigScan.Quoted(soFar + s, at + |Escaped(s)| + 1, true)
    decreases |s|
  {
    hide Has;
    if s == [] {
      HasChar(text, at, Escaped(s) + ['"'], 0);
      assert soFar + [] == soFar;
    } else {
      var c := EscapedChar(s[0]);
      Regrouped(c, Escaped(s[1..]), ['"']);
      HasSplit(text, at, c, Escaped(s[1..]) + ['"']);
      HasChar(text, at, c, 0);
      HasChar(text, at, c, |c| - 1);
      ReadsQuotedName(s[1..], text, at + |c|, hi, soFar + [s[0]]);
      Regrouped(soFar, [s[0]], s[1..]);
      assert [s[0]] + s[1..] == s;
    }
  }

  lemma ReadsToken(t: KeyToken, text: string, at: nat, hi: nat, soFar: string)
    requires GoodToken(t) && Has(text, at, PrintToken(t)) && at + |PrintToken(t)| <= hi <= |text|
    ensures KeyTokens(text, at, hi, soFar)
         == KeyTokens(text, at + |PrintToken(t)|, hi, if t.Chars? then soFar + WithoutSpaces(t.s) else t.content)
  {
    hide Has, WithoutSpaces, Escaped;
    match t
    case Chars(s) => ReadsChars(s, text, at, hi, soFar);
    case Named(content) =>
      HasSplit(text, at, ['"'], Escaped(content) + ['"']);
      HasChar(text, at, ['"'], 0);
      ReadsQuotedName(content, text, at + 1, hi, []);
      assert [] + content == content;
  }

  lemma {:induction false} ReadsTokens(key: seq<KeyToken>, text: string, at: nat, hi: nat, soFar: string)
    requires (forall i :: 0 <= i < |key| ==> GoodToken(key[i]))
    requires Has(text, at, PrintKey(key)) && at + |PrintKey(key)| <= hi <= |text|
    ensures KeyTokens(text, at, hi, soFar) == KeyTokens(text, at + |PrintKey(key)|, hi, KeyOf(key, soFar))
    decreases |key|
  {
    hide Has, PrintToken, GoodToken, KeyTokens;
    if key != [] {
      HasSplit(text, at, PrintToken(key[0]), PrintKey(key[1..]));
      ReadsToken(key[0], text, at, hi, soFar);
      var more := if key[0].Chars? then soFar + WithoutSpaces(key[0].s) else key[0].content;
      ReadsTokens(key[1..], text, at + |PrintToken(key[0])|, hi, more);
    }
  }

  // ----- A value that ends on its line -----

  lemma {:induction false} WalksOver(text: string, at: nat, s: string, hi: nat, m: Mode, annotation: bool)
    requires Has(text, at, s) && at + |s| <= hi <= |text| && Stays(m, s) && !m.escaped && !Run(m, s).escaped
    ensures Walk(text, at, hi, Of(m, annotation), None) == Walk(text, at + |s|, hi, Of(Run(m, s), annotation), None)
    decreases |s|
  {
    hide Has, Walk, Stays, Run;
    RunIs(m, s);
    if s != [] {
      var next := Step(m, s[0]);
      assert s == [s[0]] + s[1..];
      HasSplit(text, at, [s[0]], s[1..]);
      HasChar(text, at, s, 0);
      if m.quoted && s[0] == '\\' {
        EscapeWalks(text, at, hi, m, annotation);
        RunIs(next, s[1..]);
        var rest := s[1..];
        assert rest == [rest[0]] + rest[1..];
        HasSplit(text, at + 1, [rest[0]], rest[1..]);
        WalksOver(text, at + 2, rest[1..], hi, m, annotation);
      } else {
        RunIs(next, s[1..]);
        StepsAlike(text, at, hi, m, annotation);
        WalksOver(text, at + 1, s[1..], hi, next, annotation);
      }
    }
  }

  lemma RunIs(m: Mode, s: string)
    requires Stays(m, s)
    ensures Within(m) && (s == [] ==> Run(m, s) == m)
    ensures s != [] ==> (m.quoted || s[0] != ';') && Stays(Step(m, s[0]), s[1..]) && Run(m, s) == Run(Step(m, s[0]), s[1..])
  {
  }

  /** From behind what opens it to the closing bracket of the value. */
  lemma WalksToClose(text: string, at: nat, s: string, hi: nat, annotation: bool)
    requires Has(text, at, s) && at + |s| < hi <= |text| && Neutral(s)
    ensures Walk(text, at, hi, Inside(1, annotation), None) == Walk(text, at + |s|, hi, Inside(1, annotation), None)
  {
    hide Walk, Stays, Run;
    assert NeutralAt(s, 1);
    WalksOver(text, at, s, hi, IN_BRACKET, annotation);
  }

  lemma ClosesValue(text: string, at: nat, hi: nat)
    requires at < hi <= |text| && IsClose(text[at])
    ensures Walk(text, at, hi, Inside(1, false), None) == Advance(true, at + 1, Word(false))
  {
  }

  lemma WalksQuotedValue(v: Value, text: string, at: nat, hi: nat)
    requires v.Quoted? && Valid(v) && Has(text, at, Print(v)) && at + |Print(v)| <= hi <= |text|
    ensures Walk(text, at, hi, FRESH, None) == Advance(true, at + |Print(v)|, Word(false))
  {
    hide Has, Walk, Stays, Run, StringBody;
    HasSplit(text, at, v.mark, PrintQuoted(v.body));
    var quote := at + |v.mark|;
    HasSplit(text, quote, ['"'], v.body + ['"']);
    HasSplit(text, quote + 1, v.body, ['"']);
    HasChar(text, quote, ['"'], 0);
    HasChar(text, quote + 1 + |v.body|, ['"'], 0);
    if v.mark != [] { HasChar(text, at, v.mark, 0); }
    WalksIntoString(text, at, quote, hi);
    QuotedStays(IN_STRING, v.body);
    WalksOver(text, quote + 1, v.body, hi, IN_STRING, false);
    ClosesString(text, quote + 1 + |v.body|, hi);
  }

  lemma ClosesString(text: string, at: nat, hi: nat)
    requires at < hi <= |text| && text[at] == '"'
    ensures Walk(text, at, hi, Of(IN_STRING, false), None) == Advance(true, at + 1, Word(false))
  {
  }

  lemma WalksContainer(v: Value, text: string, at: nat, hi: nat)
    requires (v.Array? || v.Dictionary?) && Valid(v) && Has(text, at, Print(v)) && at + |Print(v)| <= hi <= |text|
    ensures Walk(text, at, hi, FRESH, None) == Advance(true, at + |Print(v)|, Word(false))
  {
    hide Has, Walk, Neutral, PrintElements, PrintPairs;
    var inner := if v.Array? then PrintElements(v.elements) else PrintPairs(v.pairs);
    if v.Array? { NeutralElements(v.elements); } else { NeutralPairs(v.pairs); }
    HasSplit(text, at, Print(v)[..1], inner);
    HasChar(text, at, Print(v), 0);
    LastJoins(inner);
    HasSplit(text, at + 1, Within1(inner), [inner[|inner| - 1]]);
    HasChar(text, at + |inner|, [inner[|inner| - 1]], 0);
    WalksIntoContainer(text, at, hi);
    WalksToClose(text, at + 1, Within1(inner), hi, false);
    ClosesValue(text, at + |inner|, hi);
  }

  /** Over a bracket and what stands in it, to the bracket that closes it. */
  lemma WalksGroup(open: char, inner: Pieces, close: char, text: string, b: nat, hi: nat, annotation: bool)
    requires ValidPieces(inner) && Has(text, b, PrintGroup(open, inner, close))
    requires b + |PrintGroup(open, inner, close)| <= hi <= |text|
    ensures var end := b + |PrintGroup(open, inner, close)| - 1;
      && b + 1 <= end && text[b] == open && text[end] == close
      && Walk(text, b + 1, hi, Inside(1, annotation), None) == Walk(text, end, hi, Inside(1, annotation), None)
  {
    hide *;
    GroupStands(open, inner, close, text, b);
    NeutralPieces(inner);
    WalksToClose(text, b + 1, PrintPieces(inner), hi, annotation);
  }

  /** Over a name and its gap into the bracket behind. */
  lemma WalksNameIn(name: string, gap: string, open: char, rest: string, text: string, at: nat, hi: nat)
    requires Identifier(name) && !IsValueKeyword(name) && AllSpace(gap) && NoNewline(gap) && (open == '(' || open == '[')
    requires Has(text, at, name + (gap + ([open] + rest))) && at + |name| + |gap| + 1 + |rest| <= hi <= |text|
    ensures var b := at + |name| + |gap|;
      && Has(text, b, [open] + rest)
      && Walk(text, at, hi, FRESH, None) == Walk(text, b + 1, hi, Inside(1, open == '['), None)
  {
    hide *;
    var b := at + |name| + |gap|;
    HasSplit(text, at, name, gap + ([open] + rest));
    HasSplit(text, at + |name|, gap, [open] + rest);
    HasSplit(text, b, [open], rest);
    HasChar(text, b, [open], 0);
    OpensThere(text, b);
    NameStands(name, text, at);
    WalksName(name, text, at, hi);
    GapStands(gap, text, at + |name|);
    WalksGap(text, at + |name|, b, hi, ScanTopLevel.Word(true), Some(at));
  }

  lemma WalksCallValue(v: Value, text: string, at: nat, hi: nat)
    requires v.Call? && Valid(v) && NoNewline(Print(v)) && Has(text, at, Print(v)) && at + |Print(v)| <= hi <= |text|
    ensures Walk(text, at, hi, FRESH, None) == Advance(true, at + |Print(v)|, Word(false))
  {
    hide *;
    CallIs(v);
    var b := at + |v.name| + |v.gap|;
    WalksNameIn(v.name, v.gap, '(', PrintPieces(v.args) + [')'], text, at, hi);
    WalksGroup('(', v.args, ')', text, b, hi, false);
    ParenCloses(text, at + |Print(v)| - 1);
    ClosesValue(text, at + |Print(v)| - 1, hi);
  }

  lemma ParenCloses(text: string, at: nat)
    requires at < |text| && text[at] == ')'
    ensures IsClose(text[at])
  {
  }

  lemma CallIs(v: Value)
    requires v.Call? && Valid(v) && NoNewline(Print(v))
    ensures Print(v) == v.name + (v.gap + (['('] + (PrintPieces(v.args) + [')'])))
    ensures PrintGroup('(', v.args, ')') == ['('] + (PrintPieces(v.args) + [')'])
    ensures |Print(v)| == |v.name| + |v.gap| + |PrintGroup('(', v.args, ')')|
    ensures Identifier(v.name) && !IsValueKeyword(v.name) && AllSpace(v.gap) && NoNewline(v.gap) && ValidPieces(v.args)
  {
    hide PrintPieces, Identifier, ValidPieces, IsValueKeyword, AllSpace;
    forall i | 0 <= i < |v.gap| ensures v.gap[i] != NEWLINE { assert Print(v)[|v.name| + i] == v.gap[i]; }
  }

  lemma TypedIs(v: Value)
    requires v.Typed? && Valid(v) && NoNewline(Print(v))
    ensures var call := v.gap2 + PrintGroup('(', v.args, ')');
      && Print(v) == v.name + (v.gap + (['['] + (PrintPieces(v.types) + ([']'] + call))))
      && PrintGroup('[', v.types, ']') == ['['] + (PrintPieces(v.types) + [']'])
      && |Print(v)| == |v.name| + |v.gap| + |PrintGroup('[', v.types, ']')| + |v.gap2| + |PrintGroup('(', v.args, ')')|
      && |PrintGroup('[', v.types, ']')| == |PrintPieces(v.types)| + 2 && |PrintGroup('(', v.args, ')')| >= 2
    ensures Identifier(v.name) && !IsValueKeyword(v.name) && AllSpace(v.gap) && NoNewline(v.gap)
    ensures ValidPieces(v.types) && ValidPieces(v.args) && AllSpace(v.gap2)
  {
    hide PrintPieces, Identifier, ValidPieces, IsValueKeyword, AllSpace;
    var call := v.gap2 + PrintGroup('(', v.args, ')');
    Regrouped(['['], PrintPieces(v.types) + [']'], call);
    Regrouped(PrintPieces(v.types), [']'], call);
    forall i | 0 <= i < |v.gap| ensures v.gap[i] != NEWLINE { assert Print(v)[|v.name| + i] == v.gap[i]; }
  }

  lemma WalksTypedValue(v: Value, text: string, at: nat, hi: nat)
    requires v.Typed? && Valid(v) && NoNewline(Print(v)) && Has(text, at, Print(v)) && at + |Print(v)| <= hi <= |text|
    ensures Walk(text, at, hi, FRESH, None) == Advance(true, at + |Print(v)|, Word(false))
  {
    hide *;
    TypedIs(v);
    var types, group := PrintGroup('[', v.types, ']'), PrintGroup('(', v.args, ')');
    var b := at + |v.name| + |v.gap|;
    var close := b + |types| - 1;
    var b2 := close + 1 + |v.gap2|;
    WalksNameIn(v.name, v.gap, '[', PrintPieces(v.types) + ([']'] + (v.gap2 + group)), text, at, hi);
    Regrouped(PrintPieces(v.types), [']'], v.gap2 + group);
    Regrouped(['['], PrintPieces(v.types) + [']'], v.gap2 + group);
    HasSplit(text, b, types, v.gap2 + group);
    HasSplit(text, close + 1, v.gap2, group);
    WalksGroup('[', v.types, ']', text, b, hi, true);
    TypeEnds(text, close, hi);
    GroupStands('(', v.args, ')', text, b2);
    OpensThere(text, b2);
    GapStands(v.gap2, text, close + 1);
    WalksGap(text, close + 1, b2, hi, AWAITING, None);
    WalksGroup('(', v.args, ')', text, b2, hi, false);
    ParenCloses(text, at + |Print(v)| - 1);
    ClosesValue(text, at + |Print(v)| - 1, hi);
  }

  lemma TypeEnds(text: string, close: nat, hi: nat)
    requires close < hi <= |text| && text[close] == ']'
    ensures Walk(text, close, hi, Inside(1, true), None) == Walk(text, close + 1, hi, AWAITING, None)
  {
    hide Leave;
  }

  /** A word ends in front of a space, a comment or the end of its line. */
  lemma WalksWordValue(v: Value, text: string, at: nat, hi: nat)
    requires (v.Keyword? || v.Bare?) && Valid(v) && Has(text, at, Print(v)) && at + |Print(v)| <= hi <= |text|
    requires var e := at + |Print(v)|; e < hi ==> IsSpace(text[e]) || text[e] == ';'
    ensures Walk(text, at, hi, FRESH, None) == Advance(true, at + |Print(v)|, Word(v.Keyword?))
  {
    hide Has;
    var s := Print(v);
    if v.Keyword? { ScanTopLevel.KeywordIsWord(s); IdentifierIsBare(s); }
    HasIs(text, at, s);
    WalksFirstWord(s, text, at, hi);
  }

  lemma WalksValue(v: Value, text: string, at: nat, hi: nat) returns (state: ValueState)
    requires Valid(v) && NoNewline(Print(v)) && Has(text, at, Print(v)) && at + |Print(v)| <= hi <= |text|
    requires v.Keyword? || v.Bare? ==>
               var e := at + |Print(v)|; e < hi ==> IsSpace(text[e]) || text[e] == ';'
    ensures Walk(text, at, hi, FRESH, None) == Advance(true, at + |Print(v)|, state)
  {
    hide *;
    state := Word(v.Keyword?);
    match v
    case Keyword(_) => WalksWordValue(v, text, at, hi);
    case Bare(_) => WalksWordValue(v, text, at, hi);
    case Quoted(_, _) => WalksQuotedValue(v, text, at, hi);
    case Call(_, _, _) => WalksCallValue(v, text, at, hi);
    case Typed(_, _, _, _, _) => WalksTypedValue(v, text, at, hi);
    case Array(_) => WalksContainer(v, text, at, hi);
    case Dictionary(_) => WalksContainer(v, text, at, hi);
  }

  lemma {:induction false} WalksLead(text: string, at: nat, goal: nat, hi: nat)
    requires at <= goal <= hi <= |text| && SpacesIn(text, at, goal)
    ensures Walk(text, at, hi, FRESH, None) == Walk(text, goal, hi, FRESH, None)
    decreases goal - at
  {
    if at < goal {
      WalksSpace(text, at, hi);
      WalksLead(text, at + 1, goal, hi);
    }
  }

  lemma WalksSpace(text: string, at: nat, hi: nat)
    requires at < hi <= |text| && IsSpace(text[at])
    ensures Walk(text, at, hi, FRESH, None) == Walk(text, at + 1, hi, FRESH, None)
  {
    hide Leave;
  }

  // ----- One part of a line -----

  lemma TrimsTo(lead: string, s: string)
    requires AllSpace(lead) && s != [] && !IsSpace(s[0]) && !IsSpace(s[|s| - 1])
    ensures AppendPiece([], lead + s) == s
  {
    var p := lead + s;
    NextNonSpaceIs(p, 0, |p|, |lead|);
    assert TrimEnd(p, |lead|, |p|) == |p|;
    assert p[|lead|..] == s;
  }

  /** Where the parts of one setting on a line stand. */
  lemma PartStands(p: Part, spaces: string, text: string, offset: nat)
    requires GoodKey(p.key) && AllSpace(p.lead) && Valid(p.value) && AllSpace(spaces)
    requires Has(text, offset, spaces + PrintPart(p))
    ensures var first := offset + |spaces|;
      var equals := first + |PrintKey(p.key)|;
      var begin := equals + 1;
      var e := begin + |p.lead| + |Print(p.value)|;
      && e == first + |PrintPart(p)| <= |text| && first < equals
      && SpacesIn(text, offset, first) && Has(text, offset, spaces) && Has(text, first, PrintKey(p.key)) && text[equals] == '='
      && !IsSpace(text[first]) && text[first] != ';' && text[first] != '['
      && SpacesIn(text, begin, begin + |p.lead|) && Has(text, begin + |p.lead|, Print(p.value))
      && text[begin..e] == p.lead + Print(p.value)
  {
    hide Has, Print, PrintKey, Valid, GoodToken;
    var first := offset + |spaces|;
    var equals := first + |PrintKey(p.key)|;
    HasSplit(text, offset, spaces, PrintPart(p));
    HasSplit(text, first, PrintKey(p.key), ['='] + (p.lead + Print(p.value)));
    HasSplit(text, equals, ['='], p.lead + Print(p.value));
    HasSplit(text, equals + 1, p.lead, Print(p.value));
    HasChar(text, equals, ['='], 0);
    HasChar(text, first, PrintKey(p.key), 0);
    HasIs(text, equals + 1, p.lead + Print(p.value));
    GapStands(spaces, text, offset);
    GapStands(p.lead, text, equals + 1);
  }

  lemma KeyEnds(key: seq<KeyToken>, text: string, first: nat, hi: nat, soFar: string)
    requires GoodKey(key) && Has(text, first, PrintKey(key)) && first + |PrintKey(key)| < hi <= |text|
    requires text[first + |PrintKey(key)|] == '='
    ensures KeyTokens(text, first, hi, soFar) == Key(KeyOf(key, soFar), Some(first + |PrintKey(key)|))
  {
    hide PrintKey, KeyOf, GoodToken, Has;
    ReadsTokens(key, text, first, hi, soFar);
  }

  lemma PartIsRead(p: Part, st: State, number: nat, piece: string, state: ValueState)
    requires AllSpace(p.lead) && Valid(p.value) && NoNewline(Print(p.value)) && piece == p.lead + Print(p.value) && !st.inValue
    ensures var keyLine := KeyLine(ReadOf(st), number);
      var begun := ConfigScan.Opened(st, KeyOf(p.key, st.pending), KeyOf(p.key, []), keyLine, number);
      var next := Grow(begun, piece, false, number).(value := state);
      ReadOf(next) == WithPart(ReadOf(st), p, number) && !next.inValue
  {
    hide Print, Valid, KeyOf, AppendPiece, Joined, Breaks;
    Ends(p.value);
    TrimsTo(p.lead, Print(p.value));
    TrimsTo([], Print(p.value));
    assert [] + Print(p.value) == Print(p.value);
    NoBreaks(Print(p.value));
    JoinedOneLine([], Print(p.value));
  }

  lemma TrimmedBehind(text: string, first: nat, hi: nat, at: nat)
    requires first <= at < hi <= |text| && !IsSpace(text[at])
    ensures at < TrimEnd(text, first, hi) <= hi
  {
  }

  /** A setting is registered, and what stands behind it on its line is read as a line of its own would be. */
  lemma RestOfPart(p: Part, spaces: string, text: string, offset: nat, hi: nat, number: nat, st: State) returns (next: State)
    requires GoodKey(p.key) && AllSpace(p.lead) && Valid(p.value) && NoNewline(Print(p.value)) && AllSpace(spaces)
    requires Has(text, offset, spaces + PrintPart(p)) && !st.inValue
    requires var e := offset + |spaces| + |PrintPart(p)|;
      e <= hi <= |text| && (p.value.Keyword? || p.value.Bare? ==> e < hi ==> IsSpace(text[e]) || text[e] == ';')
    ensures !next.inValue && ReadOf(next) == WithPart(ReadOf(st), p, number)
    ensures Rest(text, offset, hi, number, st) == Rest(text, offset + |spaces| + |PrintPart(p)|, hi, number, next)
  {
    hide *;
    PartStands(p, spaces, text, offset);
    var first := offset + |spaces|;
    var equals := first + |PrintKey(p.key)|;
    var begin := equals + 1;
    var e := begin + |p.lead| + |Print(p.value)|;
    EqualsIsNoSpace(text, equals);
    FindsFirst(text, offset, first, hi);
    TrimmedBehind(text, first, hi, equals);
    var last := TrimEnd(text, first, hi);
    KeyEnds(p.key, text, first, last, st.pending);
    KeyEnds(p.key, text, first, last, []);
    WalksLead(text, begin, begin + |p.lead|, hi);
    var state := WalksValue(p.value, text, begin + |p.lead|, hi);
    PartIsRead(p, st, number, text[begin..e], state);
    var keyLine := KeyLine(ReadOf(st), number);
    next := Grow(ConfigScan.Opened(st, KeyOf(p.key, st.pending), KeyOf(p.key, []), keyLine, number), text[begin..e], false, number)
            .(value := state);
    RestTakes(text, offset, first, last, hi, number, st, Key(KeyOf(p.key, st.pending), Some(equals)), KeyOf(p.key, []), e, state);
  }

  lemma EqualsIsNoSpace(text: string, at: nat)
    requires at < |text| && text[at] == '='
    ensures !IsSpace(text[at])
  {
  }

  lemma FindsFirst(text: string, offset: nat, first: nat, hi: nat)
    requires offset <= first < hi <= |text| && SpacesIn(text, offset, first) && !IsSpace(text[first])
    ensures NextNonSpace(text, offset, hi) == first
  {
    NextNonSpaceIs(text, offset, hi, first);
  }

  lemma RestTakes(text: string, offset: nat, first: nat, last: nat, hi: nat, number: nat, st: State, key: Key,
                  onThisLine: string, e: nat, state: ValueState)
    requires offset <= first < last <= hi <= |text|
    requires NextNonSpace(text, offset, hi) == first && TrimEnd(text, first, hi) == last
    requires text[first] != ';' && text[first] != '['
    requires key.equals.Some? && first <= key.equals.value < last
    requires KeyTokens(text, first, last, st.pending) == key && KeyTokens(text, first, last, []).pending == onThisLine
    requires key.equals.value + 1 <= e <= hi
    requires Walk(text, key.equals.value + 1, hi, FRESH, None) == Advance(true, e, state)
    ensures var begin := key.equals.value + 1;
      var begun := ConfigScan.Opened(st, key.pending, onThisLine, KeyLine(ReadOf(st), number), number);
      Rest(text, offset, hi, number, st)
      == Rest(text, e, hi, number, Grow(begun, text[begin..e], false, number).(value := state))
  {
    hide Walk, KeyTokens, NextNonSpace, TrimEnd, Rest, Grow, Trimmed, ConfigScan.Opened;
    RestIs(text, offset, hi, number, st);
  }

  // ----- The end of a line -----

  lemma RestOfEnding(e: Ending, spaces: string, text: string, offset: nat, hi: nat, number: nat, st: State)
    requires GoodEnding(e, st.pending) && AllSpace(spaces) && Has(text, offset, spaces + PrintEnding(e)) && !st.inValue
    requires offset + |spaces| + |PrintEnding(e)| == hi <= |text|
    ensures var next := Rest(text, offset, hi, number, st);
      !next.inValue && ReadOf(next) == WithEnding(ReadOf(st), e, number)
  {
    hide Rest, Trimmed, Has, PrintKey, GoodToken, KeyOf, KeyTokens;
    var first := offset + |spaces|;
    HasSplit(text, offset, spaces, PrintEnding(e));
    GapStands(spaces, text, offset);
    RestIs(text, offset, hi, number, st);
    match e
    case Blank => NextNonSpaceIs(text, offset, hi, hi);
    case Note(note) =>
      HasChar(text, first, note, 0);
      NextNonSpaceIs(text, offset, hi, first);
    case Heading(name) => EndsInHeading(name, text, offset, first, hi);
    case Unfinished(key) => EndsInUnfinished(key, text, offset, first, hi, st.pending);
  }

  lemma EndsInHeading(name: string, text: string, offset: nat, first: nat, hi: nat)
    requires Has(text, first, ['['] + (name + [']'])) && first + |name| + 2 == hi <= |text|
    requires offset <= first && SpacesIn(text, offset, first) && Trimmed(name) == name
    ensures NextNonSpace(text, offset, hi) == first && TrimEnd(text, first, hi) == hi
    ensures text[first] == '[' && text[hi - 1] == ']' && Trimmed(text[first + 1..hi - 1]) == name
  {
    hide Has, Trimmed;
    HasSplit(text, first, ['['], name + [']']);
    HasSplit(text, first + 1, name, [']']);
    HasChar(text, first, ['['], 0);
    HasChar(text, hi - 1, [']'], 0);
    HasIs(text, first + 1, name);
    NextNonSpaceIs(text, offset, hi, first);
    TrimEndIs(text, first, hi);
  }

  lemma EndsInUnfinished(key: seq<KeyToken>, text: string, offset: nat, first: nat, hi: nat, pending: string)
    requires GoodEnding(Unfinished(key), pending) && Has(text, first, PrintKey(key)) && first + |PrintKey(key)| == hi <= |text|
    requires offset <= first && SpacesIn(text, offset, first)
    ensures first < hi && NextNonSpace(text, offset, hi) == first && TrimEnd(text, first, hi) == hi
    ensures text[first] != ';' && text[first] != '[' && KeyTokens(text, first, hi, pending) == Key(KeyOf(key, pending), None)
  {
    hide Has, PrintKey, GoodToken, KeyOf;
    HasChar(text, first, PrintKey(key), 0);
    HasChar(text, first, PrintKey(key), |PrintKey(key)| - 1);
    NextNonSpaceIs(text, offset, hi, first);
    TrimEndIs(text, first, hi);
    ReadsTokens(key, text, first, hi, pending);
  }

  // ----- Values over several lines -----

  /** The rest of the line from `offset`, and every line below. */
  function Tail(text: string, offset: nat, number: nat, st: State): State
    requires offset <= |text|
  {
    var end := LineEnd(text, offset);
    var next := Rest(text, offset, RawEnd(text, offset, end), number, st);
    if end == |text| then next else ScanFrom(text, end + 1, number + 1, next)
  }

  lemma TailAlike(text: string, a: nat, b: nat, number: nat, st: State, next: State)
    requires a <= |text| && b <= |text| && LineEnd(text, a) == LineEnd(text, b)
    requires Rest(text, a, RawEnd(text, a, LineEnd(text, a)), number, st) == Rest(text, b, RawEnd(text, b, LineEnd(text, b)), number, next)
    ensures Tail(text, a, number, st) == Tail(text, b, number, next)
  {
    hide Rest, ScanFrom, LineEnd;
  }

  lemma BracketedIfBroken(v: Value)
    requires Valid(v) && !NoNewline(Print(v))
    ensures v.Call? || v.Typed? || v.Array? || v.Dictionary?
  {
    hide ValidPieces, ValidElements, ValidPairs;
    match v
    case Keyword(word) => ScanTopLevel.KeywordIsWord(word); IdentifierIsBare(word); BareHasNoBreak(word);
    case Bare(s) => BareHasNoBreak(s);
    case Quoted(mark, body) => QuotedHasNoBreak(mark, body);
    case _ =>
  }

  lemma QuotedHasNoBreak(mark: string, body: string)
    requires Valid(Value.Quoted(mark, body))
    ensures NoNewline(Print(Value.Quoted(mark, body)))
  {
  }

  /** The inside of a bracketed value is passed over, up to the bracket that closes the value. */
  lemma PassesInside(v: Value, text: string, at: nat, e: nat)
    requires (v.Call? || v.Typed? || v.Array? || v.Dictionary?) && Valid(v) && ReadWhole(v)
    requires Has(text, at, Print(v)) && at + |Print(v)| <= e < |text|
    ensures |Print(v)| >= 2 && StopsInside(v, |Print(v)| - 1)
    ensures var k, close := |Before(v, |Print(v)| - 1)|, at + |Print(v)| - 1;
      at + k <= close && Has(text, at, Before(v, |Print(v)| - 1)) && Passes(text, at + k, close, e) && IsClose(text[close])
  {
    hide Has, Passes, PrintPieces, PrintElements, PrintPairs, ValidPieces;
    ClosesBehind(v);
    var n := |Print(v)| - 1;
    PartsAre(v, n);
    var k := |Before(v, n)|;
    HasSplit(text, at, Before(v, n), InsideOf(v, n) + Behind(v, n));
    HasSplit(text, at + k, InsideOf(v, n), Behind(v, n));
    HasChar(text, at + n, Behind(v, n), 0);
    match v {
      case Call(_, _, args) => PassesPieces(args, text, at + k, e);
      case Typed(_, _, _, _, args) => PassesPieces(args, text, at + k, e);
      case Array(elements) =>
        HasSplit(text, at, ['['], PrintElements(elements));
        PassesElements(elements, text, at + 1, e);
      case Dictionary(pairs) =>
        HasSplit(text, at, ['{'], PrintPairs(pairs));
        PassesPairs(pairs, text, at + 1, e);
      case _ =>
    }
  }

  /** A bracketed value but for its last character stops inside its last bracket. */
  lemma ClosesBehind(v: Value)
    requires (v.Call? || v.Typed? || v.Array? || v.Dictionary?) && Valid(v) && ReadWhole(v)
    ensures |Print(v)| >= 2 && StopsInside(v, |Print(v)| - 1) && (v.Typed? ==> !InTypes(v, |Print(v)| - 1))
    ensures var n := |Print(v)| - 1;
      |Before(v, n)| + |InsideOf(v, n)| == n && |Behind(v, n)| == 1 && IsClose(Behind(v, n)[0])
  {
    hide PrintPieces, PrintElements, PrintPairs, Valid;
    match v {
      case Array(elements) => ElementsEnd(elements);
      case Dictionary(pairs) => PairsEnd(pairs);
      case _ =>
    }
  }

  lemma ComesToLast(v: Value, text: string, c: Cursor, e: nat)
    requires (v.Call? || v.Typed? || v.Array? || v.Dictionary?) && Valid(v) && ReadWhole(v)
    requires StopsInside(v, |Print(v)| - 1) && Has(text, c.lo, Before(v, |Print(v)| - 1))
    requires OnLine(text, c, c.lo, e) && c.lo + |Before(v, |Print(v)| - 1)| <= e
    ensures Comes(text, c, |Before(v, |Print(v)| - 1)|, Inside(1, false))
  {
    hide Has, Resume, Carry, Comes, ValidPieces, PrintPieces, PrintGroup, PrintElements, PrintPairs, Identifier, OnLine;
    ClosesBehind(v);
    match v {
      case Call(name, gap, _) => ComesIntoCall(name, gap, '(', text, c, e);
      case Typed(_, _, _, _, _) => ComesIntoArguments(v, |Print(v)| - 1, text, c, e);
      case Array(_) => ComesIntoContainer(v, |Print(v)| - 1, text, c, e);
      case Dictionary(_) => ComesIntoContainer(v, |Print(v)| - 1, text, c, e);
      case _ =>
    }
  }

  /** A bracketed value is read to its end, and its last line is read on from there. */
  lemma ReadsBracketed(v: Value, text: string, c: Cursor, e: nat)
    requires (v.Call? || v.Typed? || v.Array? || v.Dictionary?) && Valid(v) && ReadWhole(v)
    requires Has(text, c.lo, Print(v)) && OnLine(text, c, c.lo, e) && c.lo + |Print(v)| <= e
    ensures var stop := c.lo + |Print(v)|;
      var c' := Carry(text, c, c.lo, stop);
      && stop <= |text| && c'.lo <= stop
      && Resume(text, c, c.lo, FRESH, None) == Tail(text, stop, c'.number, Ended(text, c', stop, Word(false)))
  {
    hide *;
    OnLineIsInside(text, c, c.lo, e);
    PassesInside(v, text, c.lo, e);
    var n := |Print(v)| - 1;
    var k, close := |Before(v, n)|, c.lo + n;
    ComesToLast(v, text, c, e);
    ComesBy(text, c, k, Inside(1, false));
    var c1 := Carry(text, c, c.lo, c.lo + k);
    CarryStaysOnLine(text, c, c.lo, c.lo + k, e);
    PassesAt(text, Spot(c1, 1, false), c.lo + k, close, e);
    PassesBetween(text, Spot(c1, 1, false), c.lo + k, close, e);
    CarryJoins(text, c, c.lo, c.lo + k, close);
    var c2 := Carry(text, c, c.lo, close);
    CarryStaysOnLine(text, c, c.lo, close, e);
    BracketIsNoBreak(text[close]);
    ReachesOnLine(text, c2, close, close + 1, e);
    CarriesOver(text, c, close, e);
    ClosesValue(text, close, LineStop(text, c2.lo));
    ResumesBy(text, c2, close, Inside(1, false), None, Advance(true, close + 1, Word(false)));
    SettlesOn(text, c2, close + 1, e);
  }

  lemma SettlesOn(text: string, c: Cursor, stop: nat, e: nat)
    requires OnLine(text, c, stop, e)
    ensures Settle(text, c, Advance(true, stop, Word(false))) == Tail(text, stop, c.number, Ended(text, c, stop, Word(false)))
  {
    hide Grow, Rest, ScanFrom;
    OnLineEnds(text, c, stop, e);
    LineEndOn(text, c.lo, stop);
    RawEndOn(text, c, stop, e);
  }

  lemma {:induction false} LineEndOn(text: string, lo: nat, at: nat)
    requires lo <= at <= |text| && forall i :: lo <= i < at ==> text[i] != NEWLINE
    ensures LineEnd(text, at) == LineEnd(text, lo)
    decreases at - lo
  {
    if lo < at { LineEndOn(text, lo + 1, at); }
  }

  lemma RawEndOn(text: string, c: Cursor, at: nat, e: nat)
    requires OnLine(text, c, at, e)
    ensures RawEnd(text, at, LineEnd(text, c.lo)) == LineEnd(text, c.lo) == LineStop(text, c.lo) && at <= LineEnd(text, c.lo)
  {
    OnLineEnds(text, c, at, e);
  }

  /** A setting whose value goes over several lines. */
  lemma TailOfBroken(p: Part, spaces: string, text: string, offset: nat, number: nat, st: State, e: nat) returns (next: State)
    requires GoodKey(p.key) && p.lead == [] && Valid(p.value) && ReadWhole(p.value) && !NoNewline(Print(p.value))
    requires AllSpace(spaces) && NoNewline(spaces) && Has(text, offset, spaces + PrintPart(p)) && !st.inValue
    requires offset + |spaces| + |PrintPart(p)| <= e < |text| && text[e] == NEWLINE
    requires forall i :: offset <= i < e ==> text[i] != '\r'
    ensures !next.inValue && ReadOf(next) == WithPart(ReadOf(st), p, number)
    ensures Tail(text, offset, number, st)
         == Tail(text, offset + |spaces| + |PrintPart(p)|, number + Breaks(Print(p.value)), next)
  {
    hide *;
    var c, stop := OpensBroken(p, spaces, text, offset, number, st, e);
    BracketedIfBroken(p.value);
    ReadsBracketed(p.value, text, c, e);
    HasIs(text, c.lo, Print(p.value));
    NoBreakBehind(p.value, text, stop);
    EndedText(text, c, c.lo, stop);
    next := Ended(text, Carry(text, c, c.lo, stop), stop, Word(false));
    BrokenIsRead(text, p, st, number, c, stop);
  }

  /** The cursor at the start of such a value, and where it ends. */
  lemma OpensBroken(p: Part, spaces: string, text: string, offset: nat, number: nat, st: State, e: nat)
    returns (c: Cursor, stop: nat)
    requires GoodKey(p.key) && p.lead == [] && Valid(p.value)
    requires AllSpace(spaces) && NoNewline(spaces) && Has(text, offset, spaces + PrintPart(p)) && !st.inValue
    requires offset + |spaces| + |PrintPart(p)| <= e < |text| && text[e] == NEWLINE
    requires forall i :: offset <= i < e ==> text[i] != '\r'
    ensures stop == c.lo + |Print(p.value)| == offset + |spaces| + |PrintPart(p)| && c.lo < stop
    ensures c.number == number && OnLine(text, c, c.lo, e) && Has(text, c.lo, Print(p.value))
    ensures c.st == Plainly(ConfigScan.Opened(st, KeyOf(p.key, st.pending), KeyOf(p.key, []), KeyLine(ReadOf(st), number), number))
    ensures c.st.entries != [] && LastOf(c.st).valueText == []
    ensures Tail(text, offset, number, st) == Resume(text, c, c.lo, FRESH, None)
  {
    hide *;
    LeadIsSpace(p);
    PartStands(p, spaces, text, offset);
    var first := offset + |spaces|;
    var equals := first + |PrintKey(p.key)|;
    var begin := equals + 1;
    stop := begin + |Print(p.value)|;
    HasNowhereBreaks(p.key, spaces, text, offset);
    Ends(p.value);
    HasChar(text, begin, Print(p.value), 0);
    SpaceAtBreak(text, begin);
    var hi := RawEnd(text, offset, LineEnd(text, offset));
    LineGoesBeyond(text, offset, begin, e);
    KeysOnLine(p.key, text, offset, first, hi, st.pending);
    var last := TrimEnd(text, first, hi);
    var key, own := KeyOf(p.key, st.pending), KeyOf(p.key, []);
    c := Cursor(begin, number, Plainly(ConfigScan.Opened(st, key, own, KeyLine(ReadOf(st), number), number)));
    BegunIs(st, key, own, KeyLine(ReadOf(st), number), number);
    TailOpens(text, offset, first, last, hi, number, st, Key(key, Some(equals)), own);
    IsOnLine(text, c, e);
  }

  lemma KeysOnLine(key: seq<KeyToken>, text: string, offset: nat, first: nat, hi: nat, pending: string)
    requires GoodKey(key) && offset <= first && first + |PrintKey(key)| < hi <= |text| && SpacesIn(text, offset, first)
    requires Has(text, first, PrintKey(key)) && text[first + |PrintKey(key)|] == '=' && !IsSpace(text[first])
    ensures var last, equals := TrimEnd(text, first, hi), first + |PrintKey(key)|;
      && NextNonSpace(text, offset, hi) == first && equals < last <= hi
      && KeyTokens(text, first, last, pending) == Key(KeyOf(key, pending), Some(equals))
      && KeyTokens(text, first, last, []) == Key(KeyOf(key, []), Some(equals))
  {
    hide *;
    var equals := first + |PrintKey(key)|;
    EqualsIsNoSpace(text, equals);
    FindsFirst(text, offset, first, hi);
    TrimmedBehind(text, first, hi, equals);
    KeyEnds(key, text, first, TrimEnd(text, first, hi), pending);
    KeyEnds(key, text, first, TrimEnd(text, first, hi), []);
  }

  lemma LeadIsSpace(p: Part)
    requires p.lead == []
    ensures AllSpace(p.lead) && |PrintPart(p)| == |PrintKey(p.key)| + 1 + |Print(p.value)|
  {
    hide Print, PrintKey;
  }

  lemma {:induction false} KeyHasNoBreak(key: seq<KeyToken>)
    requires forall i :: 0 <= i < |key| ==> GoodToken(key[i])
    ensures NoNewline(PrintKey(key))
    decreases |key|
  {
    if key != [] {
      KeyHasNoBreak(key[1..]);
      assert GoodToken(key[0]);
      if key[0].Named? { EscapedHasNoNewline(key[0].content); }
    }
  }

  lemma HasNowhereBreaks(key: seq<KeyToken>, spaces: string, text: string, offset: nat)
    requires GoodKey(key) && NoNewline(spaces) && offset + |spaces| + |PrintKey(key)| < |text|
    requires Has(text, offset, spaces) && Has(text, offset + |spaces|, PrintKey(key))
    requires text[offset + |spaces| + |PrintKey(key)|] == '='
    ensures forall i :: offset <= i < offset + |spaces| + |PrintKey(key)| + 1 ==> text[i] != NEWLINE
  {
    hide Has, PrintKey, GoodToken;
    KeyHasNoBreak(key);
    HasNoBreak(text, offset, spaces);
    HasNoBreak(text, offset + |spaces|, PrintKey(key));
  }

  /** The line goes on at least to the first character of the value. */
  lemma LineGoesBeyond(text: string, offset: nat, begin: nat, e: nat)
    requires offset <= begin < e < |text| && text[e] == NEWLINE && text[begin] != NEWLINE
    requires forall i :: offset <= i < begin ==> text[i] != NEWLINE
    requires forall i :: offset <= i < e ==> text[i] != '\r'
    ensures var end := LineEnd(text, offset);
      && begin < end <= e && RawEnd(text, offset, end) == end == LineEnd(text, begin) && LineStop(text, begin) == end
  {
    LineEndOn(text, offset, begin);
  }

  lemma BegunIs(st: State, key: string, keyOnLine: string, keyLine: nat, number: nat)
    requires !st.inValue
    ensures var begun := ConfigScan.Opened(st, key, keyOnLine, keyLine, number);
      && begun.entries != [] && LastOf(begun).valueEndLine == number && !begun.inValue && LastOf(begun).valueText == []
      && Plainly(begun) == Plainly(Plainly(begun)) && LastOf(Plainly(begun)).valueText == []
      && Plainly(begun).entries == begun.entries && begun.entries[..|begun.entries| - 1] == st.entries
  {
  }

  lemma IsOnLine(text: string, c: Cursor, e: nat)
    requires c.lo <= e < |text| && text[e] == NEWLINE && c.st.entries != [] && c.st == Plainly(c.st)
    requires forall i :: c.lo <= i < e ==> text[i] != '\r'
    ensures OnLine(text, c, c.lo, e)
  {
  }

  lemma NoBreakBehind(v: Value, text: string, stop: nat)
    requires Valid(v) && |Print(v)| <= stop <= |text| && text[stop - |Print(v)|..stop] == Print(v)
    ensures Print(v) != [] && stop > 0 && text[stop - 1] != NEWLINE
  {
    hide Print, Valid;
    Ends(v);
    assert text[stop - 1] == text[stop - |Print(v)|..stop][|Print(v)| - 1];
  }

  /** The rest of a line that opens a value is the value read from its first character on. */
  lemma TailOpens(text: string, offset: nat, first: nat, last: nat, hi: nat, number: nat, st: State, key: Key, onThisLine: string)
    requires offset <= first < last <= hi <= |text| && !st.inValue
    requires hi == RawEnd(text, offset, LineEnd(text, offset))
    requires NextNonSpace(text, offset, hi) == first && TrimEnd(text, first, hi) == last
    requires text[first] != ';' && text[first] != '['
    requires key.equals.Some? && first <= key.equals.value < last
    requires KeyTokens(text, first, last, st.pending) == key && KeyTokens(text, first, last, []).pending == onThisLine
    requires LineEnd(text, key.equals.value + 1) == LineEnd(text, offset) && LineStop(text, key.equals.value + 1) == hi
    ensures var begin := key.equals.value + 1;
      var begun := ConfigScan.Opened(st, key.pending, onThisLine, KeyLine(ReadOf(st), number), number);
      Tail(text, offset, number, st) == Resume(text, Cursor(begin, number, Plainly(begun)), begin, FRESH, None)
  {
    hide *;
    var begin := key.equals.value + 1;
    var begun := ConfigScan.Opened(st, key.pending, onThisLine, KeyLine(ReadOf(st), number), number);
    BegunIs(st, key.pending, onThisLine, KeyLine(ReadOf(st), number), number);
    RestBegins(text, offset, first, last, hi, number, st, key, onThisLine);
    FirstLineSettles(text, Cursor(begin, number, Plainly(begun)), begun, hi);
    TailIs(text, offset, number, st);
  }

  lemma TailIs(text: string, offset: nat, number: nat, st: State)
    requires offset <= |text|
    ensures var end := LineEnd(text, offset);
      var next := Rest(text, offset, RawEnd(text, offset, end), number, st);
      Tail(text, offset, number, st) == if end == |text| then next else ScanFrom(text, end + 1, number + 1, next)
  {
    hide Rest, ScanFrom, LineEnd;
  }

  lemma RestBegins(text: string, offset: nat, first: nat, last: nat, hi: nat, number: nat, st: State, key: Key, onThisLine: string)
    requires offset <= first < last <= hi <= |text|
    requires NextNonSpace(text, offset, hi) == first && TrimEnd(text, first, hi) == last
    requires text[first] != ';' && text[first] != '['
    requires key.equals.Some? && first <= key.equals.value < last
    requires KeyTokens(text, first, last, st.pending) == key && KeyTokens(text, first, last, []).pending == onThisLine
    ensures var begin := key.equals.value + 1;
      var begun := ConfigScan.Opened(st, key.pending, onThisLine, KeyLine(ReadOf(st), number), number);
      Rest(text, offset, hi, number, st) == FirstLine(text, begin, hi, number, begun)
  {
    hide Advanced, KeyTokens, NextNonSpace, TrimEnd, Rest, AppendPiece, Trimmed, ConfigScan.Opened;
    RestIs(text, offset, hi, number, st);
    var begun := ConfigScan.Opened(st, key.pending, onThisLine, KeyLine(ReadOf(st), number), number);
    assert KeyLine(ReadOf(st), number) == if st.pending == [] then number else st.pendingLine;
  }

  lemma BrokenIsRead(text: string, p: Part, st: State, number: nat, c: Cursor, stop: nat)
    requires c.lo <= stop <= |text| && text[c.lo..stop] == Print(p.value) && !st.inValue
    requires var keyLine := KeyLine(ReadOf(st), number);
      c.st == Plainly(ConfigScan.Opened(st, KeyOf(p.key, st.pending), KeyOf(p.key, []), keyLine, number))
    requires var c' := Carry(text, c, c.lo, stop);
      && c'.number == number + Breaks(Print(p.value))
      && Grow(c'.st, text[c'.lo..stop], stop > c'.lo, c'.number) == WithLast(c.st, Joined([], Print(p.value)), c'.number)
    ensures var next := Ended(text, Carry(text, c, c.lo, stop), stop, Word(false));
      !next.inValue && ReadOf(next) == WithPart(ReadOf(st), p, number)
  {
    hide Carry, Grow, Joined, Breaks, Print, KeyOf;
    BegunIs(st, KeyOf(p.key, st.pending), KeyOf(p.key, []), KeyLine(ReadOf(st), number), number);
  }

  // ----- Whole rows -----

  /** A setting on one line. */
  lemma TailOfPlain(p: Part, spaces: string, text: string, offset: nat, number: nat, st: State) returns (next: State)
    requires GoodKey(p.key) && AllSpace(p.lead) && NoNewline(p.lead) && Valid(p.value) && NoNewline(Print(p.value))
    requires AllSpace(spaces) && NoNewline(spaces) && Has(text, offset, spaces + PrintPart(p)) && !st.inValue
    requires var e := offset + |spaces| + |PrintPart(p)|;
      e < |text| && (p.value.Keyword? || p.value.Bare? ==> IsSpace(text[e]) || text[e] == ';')
    ensures !next.inValue && ReadOf(next) == WithPart(ReadOf(st), p, number)
    ensures Breaks(Print(p.value)) == 0
    ensures Tail(text, offset, number, st) == Tail(text, offset + |spaces| + |PrintPart(p)|, number, next)
  {
    hide *;
    var e := offset + |spaces| + |PrintPart(p)|;
    PlainStands(p, spaces, text, offset);
    LineEndOn(text, offset, e);
    var end := LineEnd(text, offset);
    RawEndAfter(text, offset, e, end);
    next := RestOfPart(p, spaces, text, offset, RawEnd(text, offset, end), number, st);
    NoBreaks(Print(p.value));
    TailAlike(text, offset, e, number, st, next);
  }

  lemma {:induction false} NoBreaks(s: string)
    requires NoNewline(s)
    ensures Breaks(s) == 0
    decreases |s|
  {
    if s != [] { NoBreaks(s[1..]); }
  }

  lemma RawEndAfter(text: string, lo: nat, at: nat, end: nat)
    requires lo < at <= end <= |text| && text[at - 1] != '\r'
    ensures at <= RawEnd(text, lo, end) == RawEnd(text, at, end)
  {
  }

  lemma PlainStands(p: Part, spaces: string, text: string, offset: nat)
    requires GoodKey(p.key) && AllSpace(p.lead) && NoNewline(p.lead) && Valid(p.value) && NoNewline(Print(p.value))
    requires AllSpace(spaces) && NoNewline(spaces) && Has(text, offset, spaces + PrintPart(p))
    ensures var e := offset + |spaces| + |PrintPart(p)|;
      && offset < e <= |text| && text[e - 1] != '\r' && forall i :: offset <= i < e ==> text[i] != NEWLINE
  {
    hide Has, Print, PrintKey, GoodToken, Valid;
    KeyHasNoBreak(p.key);
    Ends(p.value);
    var s := spaces + PrintPart(p);
    assert NoNewline(s);
    HasNoBreak(text, offset, s);
    HasChar(text, offset, s, |s| - 1);
    assert s[|s| - 1] == Print(p.value)[|Print(p.value)| - 1];
    NoReturnAtEnd(s[|s| - 1]);
  }

  lemma NoReturnAtEnd(c: char)
    requires !IsSpace(c)
    ensures c != '\r'
  {
  }

  /** The line break at the end of a row. */
  predicate RowBreaks(text: string, at: nat, carriage: bool) {
    Has(text, at, if carriage then ['\r', NEWLINE] else [NEWLINE])
  }

  lemma TailOfEnding(e: Ending, spaces: string, text: string, offset: nat, number: nat, st: State, carriage: bool)
    returns (next: State)
    requires GoodEnding(e, st.pending) && AllSpace(spaces) && NoNewline(spaces) && !st.inValue
    requires Has(text, offset, spaces + PrintEnding(e)) && '\r' !in spaces + PrintEnding(e)
    requires RowBreaks(text, offset + |spaces| + |PrintEnding(e)|, carriage)
    ensures !next.inValue && ReadOf(next) == WithEnding(ReadOf(st), e, number)
    ensures var below := offset + |spaces| + |PrintEnding(e)| + (if carriage then 2 else 1);
      below <= |text| && Tail(text, offset, number, st) == ScanFrom(text, below, number + 1, next)
  {
    hide *;
    var hi := offset + |spaces| + |PrintEnding(e)|;
    EndingStands(e, spaces, text, offset, st.pending, carriage);
    RestOfEnding(e, spaces, text, offset, hi, number, st);
    TailIs(text, offset, number, st);
    next := Rest(text, offset, hi, number, st);
  }

  lemma EndingStands(e: Ending, spaces: string, text: string, offset: nat, pending: string, carriage: bool)
    requires GoodEnding(e, pending) && NoNewline(spaces)
    requires Has(text, offset, spaces + PrintEnding(e)) && '\r' !in spaces + PrintEnding(e)
    requires RowBreaks(text, offset + |spaces| + |PrintEnding(e)|, carriage)
    ensures var hi := offset + |spaces| + |PrintEnding(e)|;
      var end := if carriage then hi + 1 else hi;
      end < |text| && LineEnd(text, offset) == end && RawEnd(text, offset, end) == hi
  {
    hide Has, PrintKey, GoodToken;
    if e.Unfinished? { KeyHasNoBreak(e.key); }
    var s := spaces + PrintEnding(e);
    assert NoNewline(s);
    HasNoBreak(text, offset, s);
    var b := if carriage then ['\r', NEWLINE] else [NEWLINE];
    HasChar(text, offset + |s|, b, 0);
    HasChar(text, offset + |s|, b, |b| - 1);
    if s != [] { HasChar(text, offset, s, |s| - 1); }
  }

  lemma {:induction false} TailOfParts(parts: seq<Part>, e: Ending, spaces: string, text: string, offset: nat, number: nat,
                                       st: State, carriage: bool) returns (next: State)
    requires GoodParts(parts, e, st.pending) && AllSpace(spaces) && NoNewline(spaces) && !st.inValue
    requires Has(text, offset, spaces + PrintParts(parts, e)) && '\r' !in spaces + PrintParts(parts, e)
    requires RowBreaks(text, offset + |spaces + PrintParts(parts, e)|, carriage)
    requires carriage ==> NoNewline(PrintParts(parts, e))
    ensures var below := offset + |spaces + PrintParts(parts, e)| + (if carriage then 2 else 1);
      && below <= |text|
      && !next.inValue && ReadOf(next) == WithEnding(WithParts(ReadOf(st), parts, number), e, LastLine(parts, number))
      && Tail(text, offset, number, st) == ScanFrom(text, below, LastLine(parts, number) + 1, next)
    decreases |parts|
  {
    hide *;
    GoodPartsAre(parts, e, st.pending);
    if parts == [] {
      NoPartsRead(ReadOf(st), number);
      next := TailOfEnding(e, spaces, text, offset, number, st, carriage);
    } else {
      var p := parts[0];
      var more := p.gap + PrintParts(parts[1..], e);
      var end := offset + |spaces| + |PrintPart(p)|;
      Regrouped(spaces, PrintPart(p), more);
      HasSplit(text, offset, spaces + PrintPart(p), more);
      FollowsPart(text, end, more, carriage);
      RestHasNone(spaces + PrintPart(p), more, '\r');
      var mid: State;
      if NoNewline(Print(p.value)) {
        mid := TailOfPlain(p, spaces, text, offset, number, st);
      } else {
        BrokenPart(p, parts, e);
        NoReturnIn(text, offset, spaces + PrintParts(parts, e));
        BreakIs(text, end + |more|, carriage);
        mid := TailOfBroken(p, spaces, text, offset, number, st, end + |more|);
      }
      PendingIs(st, mid, p, number);
      SomePartsRead(ReadOf(st), parts, number);
      FewerBreaks(p, parts, e);
      next := TailOfParts(parts[1..], e, p.gap, text, end, number + Breaks(Print(p.value)), mid, carriage);
    }
  }

  lemma BreakIs(text: string, at: nat, carriage: bool)
    requires RowBreaks(text, at, carriage) && !carriage
    ensures at < |text| && text[at] == NEWLINE
  {
    HasChar(text, at, [NEWLINE], 0);
  }

  lemma NoReturnIn(text: string, at: nat, s: string)
    requires Has(text, at, s) && '\r' !in s
    ensures forall i :: at <= i < at + |s| ==> i < |text| && text[i] != '\r'
  {
    forall i | at <= i < at + |s| ensures i < |text| && text[i] != '\r' {
      HasChar(text, at, s, i - at);
      assert s[i - at] in s;
    }
  }

  lemma RestHasNone(a: string, b: string, c: char)
    ensures c !in a + b ==> c !in b
  {
    assert forall i :: 0 <= i < |b| ==> b[i] == (a + b)[|a| + i];
  }

  lemma BrokenPart(p: Part, parts: seq<Part>, e: Ending)
    requires parts != [] && p == parts[0] && !NoNewline(Print(p.value))
    ensures !NoNewline(PrintParts(parts, e))
  {
    hide Print, PrintKey;
    var s := Print(p.value);
    var k :| 0 <= k < |s| && s[k] == NEWLINE;
    assert PrintParts(parts, e)[|PrintKey(p.key)| + 1 + |p.lead| + k] == NEWLINE;
  }

  lemma FewerBreaks(p: Part, parts: seq<Part>, e: Ending)
    requires parts != [] && p == parts[0]
    ensures NoNewline(PrintParts(parts, e)) ==> NoNewline(PrintParts(parts[1..], e))
  {
    hide PrintPart;
    RestHasNone(PrintPart(p), p.gap + PrintParts(parts[1..], e), NEWLINE);
    RestHasNone(p.gap, PrintParts(parts[1..], e), NEWLINE);
  }

  /** What stands behind a setting: the rest of its row, or the row's line break. */
  lemma FollowsPart(text: string, end: nat, more: string, carriage: bool)
    requires Has(text, end, more) && RowBreaks(text, end + |more|, carriage)
    ensures end < |text|
    ensures if more == [] then IsSpace(text[end]) else text[end] == more[0]
  {
    HasChar(text, end + |more|, if carriage then ['\r', NEWLINE] else [NEWLINE], 0);
    if more != [] { HasChar(text, end, more, 0); }
  }

  lemma GoodPartsAre(parts: seq<Part>, e: Ending, pending: string)
    requires GoodParts(parts, e, pending)
    ensures parts == [] ==> PrintParts(parts, e) == PrintEnding(e) && GoodEnding(e, pending)
    ensures parts != [] ==>
      var p, after := parts[0], PrintParts(parts[1..], e);
      && PrintParts(parts, e) == PrintPart(p) + (p.gap + after) && GoodParts(parts[1..], e, [])
      && |PrintParts(parts, e)| == |PrintPart(p)| + |p.gap| + |after|
      && GoodKey(p.key) && AllSpace(p.lead) && NoNewline(p.lead) && Valid(p.value) && ReadWhole(p.value)
      && AllSpace(p.gap) && NoNewline(p.gap) && (NoNewline(Print(p.value)) || p.lead == [])
      && (p.value.Keyword? || p.value.Bare? ==> p.gap + after != [] ==> IsSpace((p.gap + after)[0]) || (p.gap + after)[0] == ';')
  {
    hide GoodKey, Valid, PrintPart, AllSpace, IsSpace, Print, GoodEnding, PrintEnding, ReadWhole;
  }

  lemma NoPartsRead(r: Read, number: nat)
    ensures WithParts(r, [], number) == r && LastLine([], number) == number
  {
  }

  lemma SomePartsRead(r: Read, parts: seq<Part>, number: nat)
    requires parts != []
    ensures var next := number + Breaks(Print(parts[0].value));
      && WithParts(r, parts, number) == WithParts(WithPart(r, parts[0], number), parts[1..], next)
      && LastLine(parts, number) == LastLine(parts[1..], next)
  {
    hide WithPart, Print;
  }

  lemma PendingIs(st: State, next: State, p: Part, number: nat)
    requires ReadOf(next) == WithPart(ReadOf(st), p, number)
    ensures next.pending == []
  {
  }

  /** Outside a value a line is read from its start on. */
  lemma ScanIsTail(text: string, at: nat, number: nat, st: State)
    requires at <= |text| && !st.inValue
    ensures ScanFrom(text, at, number, st) == Tail(text, at, number, st)
  {
    hide Rest;
    LineOutside(text, at, RawEnd(text, at, LineEnd(text, at)), number, st);
  }

  lemma {:induction false} ReadsRows(rows: seq<Row>, text: string, at: nat, number: nat, st: State)
    requires GoodRows(rows, ReadOf(st), number) && !st.inValue
    requires Has(text, at, PrintRows(rows)) && at + |PrintRows(rows)| == |text|
    ensures var last := ScanFrom(text, at, number, st);
      !last.inValue && ReadOf(last) == WithRows(ReadOf(st), rows, number)
    decreases |rows|
  {
    hide *;
    RowsAre(rows, ReadOf(st), number);
    if rows == [] {
      LastLineIsEmpty(text, number, st);
    } else {
      var l := rows[0];
      HasSplit(text, at, PrintRow(l), BreakOf(l) + PrintRows(rows[1..]));
      HasSplit(text, at + |PrintRow(l)|, BreakOf(l), PrintRows(rows[1..]));
      RowIs(l, st, text, at);
      ScanIsTail(text, at, number, st);
      var next := TailOfParts(l.parts, l.end, l.lead, text, at, number, st, l.carriage);
      WithRowIs(ReadOf(st), l, number);
      ReadsRows(rows[1..], text, at + |PrintRow(l)| + |BreakOf(l)|, LastLine(l.parts, number) + 1, next);
    }
  }

  lemma RowsAre(rows: seq<Row>, r: Read, number: nat)
    requires GoodRows(rows, r, number)
    ensures rows == [] ==> PrintRows(rows) == [] && WithRows(r, rows, number) == r
    ensures rows != [] ==>
      var below := LastLine(rows[0].parts, number) + 1;
      && PrintRows(rows) == PrintRow(rows[0]) + (BreakOf(rows[0]) + PrintRows(rows[1..]))
      && |PrintRows(rows)| == |PrintRow(rows[0])| + |BreakOf(rows[0])| + |PrintRows(rows[1..])|
      && GoodRow(rows[0], r.pending) && GoodRows(rows[1..], WithRow(r, rows[0], number), below)
      && WithRows(r, rows, number) == WithRows(WithRow(r, rows[0], number), rows[1..], below)
  {
    hide PrintRow, BreakOf, GoodRow, WithRow, LastLine;
  }

  lemma WithRowIs(r: Read, l: Row, number: nat)
    ensures WithRow(r, l, number) == WithEnding(WithParts(r, l.parts, number), l.end, LastLine(l.parts, number))
  {
    hide WithEnding, WithParts, LastLine;
  }

  lemma RowIs(l: Row, st: State, text: string, at: nat)
    requires GoodRow(l, ReadOf(st).pending) && Has(text, at + |PrintRow(l)|, BreakOf(l))
    ensures PrintRow(l) == l.lead + PrintParts(l.parts, l.end) && GoodParts(l.parts, l.end, st.pending)
    ensures AllSpace(l.lead) && NoNewline(l.lead) && '\r' !in l.lead + PrintParts(l.parts, l.end)
    ensures l.carriage ==> NoNewline(PrintParts(l.parts, l.end))
    ensures RowBreaks(text, at + |PrintRow(l)|, l.carriage) && |BreakOf(l)| == (if l.carriage then 2 else 1)
  {
    hide Has, PrintParts, GoodParts, AllSpace;
    RestHasNone(l.lead, PrintParts(l.parts, l.end), NEWLINE);
  }

  lemma LastLineIsEmpty(text: string, number: nat, st: State)
    requires !st.inValue
    ensures ScanFrom(text, |text|, number, st) == st
  {
    hide Line;
    EmptyLineIsIdle(text, |text|, number, st);
  }

  /** Rows with any number of settings on each, whose values may go over several lines, with comments and headings
      behind them, with names in quotes and with keys that go on over several lines, are read in order: each setting
      is one entry under the section in force, its key is all the key text since the last value, and a name in quotes
      replaces the key text before it. */
  lemma ReadsEveryRow(rows: seq<Row>)
    requires GoodRows(rows, Read([], [], [], 0, []), 1)
    ensures var r := WithRows(Read([], [], [], 0, []), rows, 1);
      ScanText(PrintRows(rows)) == Scan(r.entries, r.headers, true, r.pending != [])
  {
    hide ScanFrom, PrintRows, GoodRows, WithRows;
    var text := PrintRows(rows);
    assert text[0..|text|] == text;
    ReadsRows(rows, text, 0, 1, START);
  }
}
