/** What a scan makes of a whole written file: line by line it registers what was written, as long as every
    value is read whole, and the one kind of value that is not is cut for good. */
module ConfigRoundTrip {
  import opened Text
  import opened ConfigString
  import opened ConfigGrammar
  import opened ConfigScan
  import opened ScanValues
  import opened ScanTopLevel
  import opened ScanInvariants

  // ----- Files as they are written -----

  datatype Item =
    | Section(name: string)
    | Setting(key: string, value: Value)
    | Remark(text: string)      // a blank line or a `;` comment

  function PrintItem(item: Item): string {
    match item
    case Section(name) => ['['] + (name + [']'])
    case Setting(key, value) => key + (['='] + Print(value))
    case Remark(text) => text
  }

  function PrintFile(items: seq<Item>): string {
    if items == [] then [] else PrintItem(items[0]) + ([NEWLINE] + PrintFile(items[1..]))
  }

  predicate PlainKey(key: string) {
    && key != [] && key[0] != '[' && key[0] != ';'
    && forall i :: 0 <= i < |key| ==> !IsSpace(key[i]) && key[i] != '=' && key[i] != '"'
  }

  predicate ValidItem(item: Item) {
    match item
    case Section(name) => NoNewline(name) && Trimmed(name) == name
    case Setting(key, value) => PlainKey(key) && Valid(value) && '\r' !in Print(value)
    case Remark(text) =>
      var first := NextNonSpace(text, 0, |text|);
      NoNewline(text) && (first < |text| ==> text[first] == ';')
  }

  predicate ValidItems(items: seq<Item>) {
    forall i :: 0 <= i < |items| ==> ValidItem(items[i])
  }

  function Breaks(s: string): nat {
    if s == [] then 0 else (if s[0] == NEWLINE then 1 else 0) + Breaks(s[1..])
  }

  /** Every line of `p`, trimmed, joined onto `soFar` with newlines, blank lines dropped. */
  function Joined(soFar: string, p: string): string
    decreases |p|
  {
    var end := LineEnd(p, 0);
    if end == |p| then AppendPiece(soFar, p) else Joined(AppendPiece(soFar, p[..end]), p[end + 1..])
  }

  /** The entry a setting on line `number` registers. */
  function EntryOf(key: string, value: Value, section: string, number: nat): Entry {
    Entry(section, key, Joined([], Print(value)), key, number, number, number + Breaks(Print(value)), false)
  }

  function Registered(items: seq<Item>, section: string, number: nat): seq<Entry> {
    if items == [] then []
    else match items[0]
      case Section(name) => Registered(items[1..], name, number + 1)
      case Setting(key, value) =>
        [EntryOf(key, value, section, number)]
        + Registered(items[1..], section, number + Breaks(Print(value)) + 1)
      case Remark(_) => Registered(items[1..], section, number + 1)
  }

  function HeadersOf(items: seq<Item>, number: nat): seq<Header> {
    if items == [] then []
    else match items[0]
      case Section(name) => [Header(name, number)] + HeadersOf(items[1..], number + 1)
      case Setting(_, value) => HeadersOf(items[1..], number + Breaks(Print(value)) + 1)
      case Remark(_) => HeadersOf(items[1..], number + 1)
  }

  function Expected(items: seq<Item>): Scan {
    Scan(Registered(items, [], 1), HeadersOf(items, 1), true, false)
  }

  // ----- The text a value leaves -----

  function LastOf(st: State): Entry
    requires st.entries != []
  {
    st.entries[|st.entries| - 1]
  }

  /** `st` with another value text and another end for its last entry. */
  function WithLast(st: State, valueText: string, valueEndLine: nat): State
    requires st.entries != []
  {
    st.(entries := st.entries[..|st.entries| - 1] + [LastOf(st).(valueText := valueText, valueEndLine := valueEndLine)])
  }

  lemma GrowsLast(st: State, piece: string, reached: bool, number: nat)
    requires st.entries != []
    ensures Grow(st, piece, reached, number)
         == WithLast(st, AppendPiece(LastOf(st).valueText, piece), if reached then number else LastOf(st).valueEndLine)
  {
  }

  lemma WithLastAgain(st: State, t1: string, n1: nat, t2: string, n2: nat)
    requires st.entries != []
    ensures var once := WithLast(st, t1, n1);
      && once.entries != [] && LastOf(once).valueText == t1 && LastOf(once).valueEndLine == n1
      && WithLast(once, t2, n2) == WithLast(st, t2, n2)
  {
    var once := WithLast(st, t1, n1);
    assert once.entries[..|once.entries| - 1] == st.entries[..|st.entries| - 1];
  }

  lemma JoinedAtBreak(soFar: string, p: string, k: nat)
    requires k < |p| && p[k] == NEWLINE && forall i :: 0 <= i < k ==> p[i] != NEWLINE
    ensures Joined(soFar, p) == Joined(AppendPiece(soFar, p[..k]), p[k + 1..])
  {
    assert LineEnd(p, 0) == k;
  }

  lemma JoinedOneLine(soFar: string, p: string)
    requires forall i :: 0 <= i < |p| ==> p[i] != NEWLINE
    ensures Joined(soFar, p) == AppendPiece(soFar, p)
  {
    assert LineEnd(p, 0) == |p|;
  }

  /** A value's lines, grown one by one, are its text with each line trimmed. */
  lemma {:induction false} EndedText(text: string, c: Cursor, at: nat, e: nat)
    requires c.lo <= at <= e <= |text| && c.lo < e && text[e - 1] != NEWLINE && c.st.entries != []
    requires forall i :: c.lo <= i < at ==> text[i] != NEWLINE
    ensures var c' := Carry(text, c, at, e);
      && c'.number == c.number + Breaks(text[at..e])
      && Grow(c'.st, text[c'.lo..e], e > c'.lo, c'.number)
         == WithLast(c.st, Joined(LastOf(c.st).valueText, text[c.lo..e]), c'.number)
    decreases e - at
  {
    hide AppendPiece, Grow, Joined, WithLast;
    var p := text[c.lo..e];
    if at == e {
      JoinedOneLine(LastOf(c.st).valueText, p);
      GrowsLast(c.st, p, true, c.number);
    } else if text[at] == NEWLINE {
      var below := Cursor(at + 1, c.number + 1, Grow(c.st, text[c.lo..at], at > c.lo, c.number));
      EndedLine(text, c, at, e, Carry(text, below, at + 1, e).number);
      EndedText(text, below, at + 1, e);
      assert text[at..e][1..] == text[at + 1..e];
    } else {
      EndedText(text, c, at + 1, e);
      assert text[at..e][1..] == text[at + 1..e];
    }
  }

  /** One line of a value, and the lines below it. */
  lemma EndedLine(text: string, c: Cursor, at: nat, e: nat, number: nat)
    requires c.lo <= at < e <= |text| && text[at] == NEWLINE && c.st.entries != []
    requires forall i :: c.lo <= i < at ==> text[i] != NEWLINE
    ensures var once := Grow(c.st, text[c.lo..at], at > c.lo, c.number);
      && once.entries != []
      && WithLast(once, Joined(LastOf(once).valueText, text[at + 1..e]), number)
         == WithLast(c.st, Joined(LastOf(c.st).valueText, text[c.lo..e]), number)
  {
    hide AppendPiece, Grow, Joined, WithLast;
    var p := text[c.lo..e];
    var line := text[c.lo..at];
    GrowsLast(c.st, line, at > c.lo, c.number);
    var soFar := AppendPiece(LastOf(c.st).valueText, line);
    var n := if at > c.lo then c.number else LastOf(c.st).valueEndLine;
    WithLastAgain(c.st, soFar, n, Joined(soFar, text[at + 1..e]), number);
    forall i | 0 <= i < at - c.lo ensures p[i] != NEWLINE { assert p[i] == text[c.lo + i]; }
    assert p[..at - c.lo] == line && p[at - c.lo + 1..] == text[at + 1..e];
    JoinedAtBreak(LastOf(c.st).valueText, p, at - c.lo);
  }

  // ----- One item -----

  predicate Clean(st: State) {
    st.pending == [] && !st.inValue
  }

  /** A line of the file up to its line break. */
  lemma LineIs(text: string, at: nat, s: string)
    requires Has(text, at, s + [NEWLINE]) && NoNewline(s)
    ensures at + |s| < |text| && LineEnd(text, at) == at + |s| && Has(text, at, s)
    ensures s != [] && s[|s| - 1] != '\r' ==> LineStop(text, at) == at + |s|
  {
    hide Has;
    HasSplit(text, at, s, [NEWLINE]);
    HasChar(text, at + |s|, [NEWLINE], 0);
    HasNoBreak(text, at, s);
    if s != [] { HasChar(text, at, s, |s| - 1); }
  }

  lemma TrimEndIs(text: string, lo: nat, hi: nat)
    requires lo < hi <= |text| && !IsSpace(text[hi - 1])
    ensures TrimEnd(text, lo, hi) == hi
  {
  }

  lemma ScansSection(name: string, text: string, at: nat, number: nat, st: State)
    requires ValidItem(Section(name)) && Clean(st) && Has(text, at, PrintItem(Section(name)) + [NEWLINE])
    ensures at + |name| + 3 <= |text|
    ensures ScanFrom(text, at, number, st)
         == ScanFrom(text, at + |name| + 3, number + 1,
                     st.(section := name, headers := st.headers + [Header(name, number)]))
  {
    hide Has, Trimmed, Line;
    var s := PrintItem(Section(name));
    LineIs(text, at, s);
    HasSplit(text, at, ['['], name + [']']);
    HasSplit(text, at + 1, name, [']']);
    HasChar(text, at, ['['], 0);
    HasChar(text, at + 1 + |name|, [']'], 0);
    HasIs(text, at + 1, name);
    LineOutside(text, at, LineStop(text, at), number, st);
    RestOpensSection(name, text, at, LineStop(text, at), number, st);
  }

  lemma RestOpensSection(name: string, text: string, at: nat, hi: nat, number: nat, st: State)
    requires at + 1 < hi <= |text| && text[at] == '[' && text[hi - 1] == ']' && text[at + 1..hi - 1] == name
    requires Trimmed(name) == name && Clean(st)
    ensures Rest(text, at, hi, number, st) == st.(section := name, headers := st.headers + [Header(name, number)])
  {
    hide Trimmed, Advanced, KeyTokens, Grow, Opened;
    NextNonSpaceIs(text, at, hi, at);
    TrimEndIs(text, at, hi);
  }

  lemma ScansRemark(remark: string, text: string, at: nat, number: nat, st: State)
    requires ValidItem(Remark(remark)) && Clean(st) && Has(text, at, remark + [NEWLINE])
    ensures at + |remark| + 1 <= |text|
    ensures ScanFrom(text, at, number, st) == ScanFrom(text, at + |remark| + 1, number + 1, st)
  {
    hide Has, Line;
    LineIs(text, at, remark);
    RemarkStands(remark, text, at);
    RestSkipsRemark(text, at, LineStop(text, at), number, st);
    LineOutside(text, at, LineStop(text, at), number, st);
  }

  lemma RemarkStands(remark: string, text: string, at: nat)
    requires ValidItem(Remark(remark)) && Has(text, at, remark) && LineEnd(text, at) == at + |remark| < |text|
    ensures var hi := LineStop(text, at);
      var first := NextNonSpace(text, at, hi);
      first < hi ==> text[first] == ';'
  {
    hide Has;
    var hi := LineStop(text, at);
    var first := NextNonSpace(remark, 0, |remark|);
    forall i | at <= i < at + |remark| ensures text[i] == remark[i - at] { HasChar(text, at, remark, i - at); }
    if first < |remark| && at + first < hi {
      NextNonSpaceIs(text, at, hi, at + first);
    } else {
      NextNonSpaceIs(text, at, hi, hi);
    }
  }

  lemma LineOutside(text: string, lo: nat, hi: nat, number: nat, st: State)
    requires lo <= hi <= |text| && !st.inValue
    ensures Line(text, lo, hi, number, st) == Rest(text, lo, hi, number, st)
  {
  }

  lemma RestSkipsRemark(text: string, at: nat, hi: nat, number: nat, st: State)
    requires at <= hi <= |text|
    requires var first := NextNonSpace(text, at, hi); first < hi ==> text[first] == ';'
    ensures Rest(text, at, hi, number, st) == st
  {
    hide Advanced, KeyTokens, Trimmed, Grow, Opened;
  }

  lemma {:induction false} ReadsKey(key: string, text: string, at: nat, k: nat, hi: nat, pending: string)
    requires PlainKey(key) && Has(text, at, key) && k <= |key| && at + |key| < hi <= |text| && text[at + |key|] == '='
    ensures KeyTokens(text, at + k, hi, pending) == Key(pending + key[k..], Some(at + |key|))
    decreases |key| - k
  {
    hide Has;
    if k < |key| {
      HasChar(text, at, key, k);
      ReadsKey(key, text, at, k + 1, hi, pending + [key[k]]);
      assert key[k..] == [key[k]] + key[k + 1..];
      Regrouped(pending, [key[k]], key[k + 1..]);
    } else {
      assert key[k..] == [] && pending + [] == pending;
    }
  }

  /** The cursor at the start of a setting's value. */
  function AtValue(key: string, at: nat, number: nat, st: State): Cursor {
    Cursor(at + |key| + 1, number, Plainly(Opened(st, key, key, number, number)))
  }

  /** Where the parts of a written setting stand. */
  lemma SettingStands(key: string, value: Value, text: string, at: nat)
    requires ValidItem(Setting(key, value)) && Has(text, at, PrintItem(Setting(key, value)) + [NEWLINE])
    ensures var begin := at + |key| + 1;
      var e := begin + |Print(value)|;
      && begin < e < |text| && text[e] == NEWLINE && text[begin - 1] == '='
      && Has(text, at, key) && Has(text, begin, Print(value))
      && !IsSpace(text[at]) && text[at] != '[' && text[at] != ';' && !IsSpace(text[begin]) && !IsSpace(text[e - 1])
      && (forall i :: at <= i < begin ==> text[i] != NEWLINE) && (forall i :: begin <= i < e ==> text[i] != '\r')
  {
    hide Has, Print;
    var begin := at + |key| + 1;
    HasSplit(text, at, PrintItem(Setting(key, value)), [NEWLINE]);
    HasChar(text, begin + |Print(value)|, [NEWLINE], 0);
    HasSplit(text, at, key, ['='] + Print(value));
    HasSplit(text, at + |key|, ['='], Print(value));
    HasChar(text, at + |key|, ['='], 0);
    HasChar(text, at, key, 0);
    Ends(value);
    HasChar(text, begin, Print(value), 0);
    HasChar(text, begin, Print(value), |Print(value)| - 1);
    forall i | at <= i < begin ensures text[i] != NEWLINE {
      if i < at + |key| { HasChar(text, at, key, i - at); }
    }
    forall i | begin <= i < begin + |Print(value)| ensures text[i] != '\r' {
      HasChar(text, begin, Print(value), i - begin);
    }
  }

  lemma Ends(v: Value)
    requires Valid(v)
    ensures Print(v) != [] && !IsSpace(Print(v)[0]) && !IsSpace(Print(v)[|Print(v)| - 1])
  {
    hide StringBody, PrintPieces, PrintElements, PrintPairs, ValidPieces, ValidElements, ValidPairs, AllSpace;
    match v
    case Keyword(_) =>
    case Bare(s) => assert BareChar(s[0]) && BareChar(s[|s| - 1]);
    case Quoted(mark, body) =>
    case Call(name, gap, args) => assert IsIdentifierChar(name[0]);
    case Typed(name, _, _, _, _) => assert IsIdentifierChar(name[0]);
    case Array(elements) => ElementsEnd(elements);
    case Dictionary(pairs) => PairsEnd(pairs);
  }

  lemma {:induction false} ElementsEnd(e: Elements)
    ensures PrintElements(e) != [] && PrintElements(e)[|PrintElements(e)| - 1] == ']'
  {
    if e.MoreElements? { ElementsEnd(e.rest); }
  }

  lemma {:induction false} PairsEnd(p: Pairs)
    ensures PrintPairs(p) != [] && PrintPairs(p)[|PrintPairs(p)| - 1] == '}'
  {
    if p.MorePairs? { PairsEnd(p.rest); }
  }

  /** A setting's line opens its entry and hands over to its value. */
  lemma OpensSetting(key: string, value: Value, text: string, at: nat, number: nat, st: State)
    requires ValidItem(Setting(key, value)) && Clean(st)
    requires Has(text, at, PrintItem(Setting(key, value)) + [NEWLINE])
    ensures var c := AtValue(key, at, number, st);
      var e := c.lo + |Print(value)|;
      && OnLine(text, c, c.lo, e) && Has(text, c.lo, Print(value))
      && ScanFrom(text, at, number, st) == Resume(text, c, c.lo, FRESH, None)
  {
    hide Has, Print, KeyTokens, Resume, ScanFrom, PlainKey, Valid;
    SettingStands(key, value, text, at);
    var c := AtValue(key, at, number, st);
    var e := c.lo + |Print(value)|;
    OnLineEnds(text, c, c.lo, e);
    var hi := LineStop(text, c.lo);
    LineEndAgrees(text, at, c.lo);
    assert ValidItem(Setting(key, value)) ==> PlainKey(key);
    KeyOfLine(key, text, at, hi);
    OpensRest(key, text, at, hi, number, st);
  }

  lemma KeyOfLine(key: string, text: string, at: nat, hi: nat)
    requires PlainKey(key) && Has(text, at, key) && at + |key| + 1 < hi <= |text| && text[at + |key|] == '='
    requires !IsSpace(text[at + |key| + 1])
    ensures KeyTokens(text, at, TrimEnd(text, at, hi), []) == Key(key, Some(at + |key|))
  {
    hide Has, KeyTokens;
    var last := TrimEnd(text, at, hi);
    assert last > at + |key| + 1;
    ReadsKey(key, text, at, 0, last, []);
    assert [] + key[0..] == key;
  }

  lemma LineEndAgrees(text: string, at: nat, lo: nat)
    requires at <= lo <= |text| && forall i :: at <= i < lo ==> text[i] != NEWLINE
    requires lo < LineEnd(text, lo)
    ensures LineEnd(text, at) == LineEnd(text, lo) && LineStop(text, at) == LineStop(text, lo)
  {
    assert LineEnd(text, at) == LineEnd(text, lo);
  }

  /** On the first line of a value its entry already ends on this line. */
  lemma SettlesFirstLine(text: string, c: Cursor, begun: State, hi: nat)
    requires c.lo <= |text| && hi == LineStop(text, c.lo) && c.st == Plainly(begun)
    requires begun.entries != [] && LastOf(begun).valueEndLine == c.number && !begun.inValue
    ensures var a := Walk(text, c.lo, hi, FRESH, None);
      var grown := Grow(begun, text[c.lo..Min(a.end, hi)], false, c.number);
      && grown.(value := a.state, inValue := false)
         == Grow(c.st, text[c.lo..Min(a.end, hi)], a.end > c.lo, c.number).(value := a.state, inValue := false)
      && !grown.inValue
  {
    hide Walk, AppendPiece;
  }

  /** Where a line that opens a value leaves the scan. */
  function FirstLine(text: string, begin: nat, hi: nat, number: nat, begun: State): State
    requires begin <= hi <= |text|
  {
    var a := Advanced(text, begin, hi, FRESH);
    var grown := Grow(begun, text[begin..Min(a.end, hi)], false, number);
    if a.finished then Rest(text, a.end, hi, number, grown.(value := a.state))
    else grown.(value := a.state, inValue := true)
  }

  lemma RestOpens(key: string, text: string, at: nat, hi: nat, number: nat, st: State)
    requires Clean(st) && at < hi <= |text| && !IsSpace(text[at]) && text[at] != '[' && text[at] != ';'
    requires at + |key| + 1 <= hi
    requires KeyTokens(text, at, TrimEnd(text, at, hi), []) == Key(key, Some(at + |key|))
    ensures Line(text, at, hi, number, st)
         == FirstLine(text, at + |key| + 1, hi, number, Opened(st, key, key, number, number))
  {
    hide KeyTokens, Advanced, Grow, Opened, TrimEnd;
    NextNonSpaceIs(text, at, hi, at);
  }

  lemma FirstLineSettles(text: string, c: Cursor, begun: State, hi: nat)
    requires c.lo <= |text| && hi == LineStop(text, c.lo) && c.st == Plainly(begun)
    requires begun.entries != [] && LastOf(begun).valueEndLine == c.number && !begun.inValue
    ensures var end := LineEnd(text, c.lo);
      var next := FirstLine(text, c.lo, hi, c.number, begun);
      Resume(text, c, c.lo, FRESH, None)
      == if end == |text| then next else ScanFrom(text, end + 1, c.number + 1, next)
  {
    hide Walk, Grow, Rest, ScanFrom, LineEnd;
    SettlesFirstLine(text, c, begun, hi);
  }

  lemma OpensRest(key: string, text: string, at: nat, hi: nat, number: nat, st: State)
    requires Clean(st) && at < hi <= |text| && !IsSpace(text[at]) && text[at] != '[' && text[at] != ';'
    requires at + |key| + 1 < hi && LineStop(text, at) == hi == LineStop(text, at + |key| + 1)
    requires LineEnd(text, at) == LineEnd(text, at + |key| + 1)
    requires KeyTokens(text, at, TrimEnd(text, at, hi), []) == Key(key, Some(at + |key|))
    ensures ScanFrom(text, at, number, st)
         == Resume(text, AtValue(key, at, number, st), at + |key| + 1, FRESH, None)
  {
    hide KeyTokens, FirstLine, Line, Resume, TrimEnd, Walk, Grow, Rest, Advanced, NextNonSpace, AppendPiece, LineEnd;
    RestOpens(key, text, at, hi, number, st);
    FirstLineSettles(text, AtValue(key, at, number, st), Opened(st, key, key, number, number), hi);
  }

  /** The state below a setting whose value was read up to `e`. */
  predicate Registers(st: State, next: State, entry: Entry) {
    && next.entries == st.entries + [entry] && next.headers == st.headers
    && next.section == st.section && Clean(next)
  }

  lemma EndedRegisters(key: string, text: string, at: nat, number: nat, st: State, e: nat, value: ValueState)
    requires Clean(st) && at + |key| + 1 < e <= |text| && text[e - 1] != NEWLINE
    ensures var c := AtValue(key, at, number, st);
      var written := text[c.lo..e];
      var c' := Carry(text, c, c.lo, e);
      && c'.number == number + Breaks(written)
      && Registers(st, Ended(text, c', e, value),
                   Entry(st.section, key, Joined([], written), key, number, number, number + Breaks(written), false))
  {
    hide AppendPiece, Grow, Joined;
    var c := AtValue(key, at, number, st);
    EndedText(text, c, c.lo, e);
    assert c.st.entries[..|c.st.entries| - 1] == st.entries;
  }

  lemma SettingBounds(key: string, value: Value, text: string, at: nat)
    requires ValidItem(Setting(key, value)) && Has(text, at, PrintItem(Setting(key, value)) + [NEWLINE])
    ensures var begin := at + |key| + 1;
      var e := begin + |Print(value)|;
      && begin < e < |text| && text[e - 1] != NEWLINE && text[begin..e] == Print(value) && Valid(value)
  {
    hide Has, Print, PlainKey, Valid;
    SettingStands(key, value, text, at);
    HasIs(text, at + |key| + 1, Print(value));
  }

  /** A setting whose value is read whole registers the entry written and nothing else. */
  lemma ScansSetting(key: string, value: Value, text: string, at: nat, number: nat, st: State) returns (next: State)
    requires ValidItem(Setting(key, value)) && Clean(st) && ReadWhole(value)
    requires Has(text, at, PrintItem(Setting(key, value)) + [NEWLINE])
    ensures Registers(st, next, EntryOf(key, value, st.section, number))
    ensures at + |key| + 2 + |Print(value)| <= |text|
    ensures ScanFrom(text, at, number, st)
         == ScanFrom(text, at + |key| + 2 + |Print(value)|, number + Breaks(Print(value)) + 1, next)
  {
    hide Has, Print, Carry, Resume, Registers, Joined, Ended, ValidItem, Valid, ReadWhole, OnLine, ScanFrom, Breaks;
    var c := AtValue(key, at, number, st);
    var e := c.lo + |Print(value)|;
    SettingBounds(key, value, text, at);
    OpensSetting(key, value, text, at, number, st);
    var state := ReadsValue(value, text, c, e);
    EndedRegisters(key, text, at, number, st, e, state);
    next := Ended(text, Carry(text, c, c.lo, e), e, state);
  }

  // ----- The value that is cut short -----

  lemma {:induction false} JoinedEnds(soFar: string, p: string)
    requires p != [] && !IsSpace(p[|p| - 1])
    ensures Joined(soFar, p) != [] && Joined(soFar, p)[|Joined(soFar, p)| - 1] == p[|p| - 1]
    decreases |p|
  {
    hide AppendPiece;
    var end := LineEnd(p, 0);
    if end == |p| {
      PieceEnds(soFar, p);
    } else {
      JoinedEnds(AppendPiece(soFar, p[..end]), p[end + 1..]);
    }
  }

  lemma PieceEnds(soFar: string, p: string)
    requires p != [] && !IsSpace(p[|p| - 1])
    ensures AppendPiece(soFar, p) != [] && AppendPiece(soFar, p)[|AppendPiece(soFar, p)| - 1] == p[|p| - 1]
  {
    hide IsSpace;
    var first := NextNonSpace(p, 0, |p|);
    assert TrimEnd(p, first, |p|) == |p|;
  }

  /** What ends a value in the middle of a line leaves its entry as it is for good. */
  lemma SettledStays(text: string, c: Cursor, e: nat, value: ValueState, number: nat, keep: nat)
    requires c.lo <= |text| && c.lo <= e <= LineStop(text, c.lo) && number == c.number
    requires c.st.entries != [] && keep == |c.st.entries|
    ensures Keeps(Ended(text, c, e, value), Settle(text, c, Advance(true, e, value)), keep)
  {
    hide ScanFrom, Rest, AppendPiece;
    var end := LineEnd(text, c.lo);
    var hi := LineStop(text, c.lo);
    var ended := Ended(text, c, e, value);
    RestKeeps(text, e, hi, c.number, ended, keep);
    var next := Rest(text, e, hi, c.number, ended);
    if end < |text| { ScanKeeps(text, end + 1, c.number + 1, next, keep); }
  }

  lemma CutAtType(v: Value)
    requires v.Typed? && Valid(v)
    ensures var stop := |v.name| + |v.gap| + 1 + |PrintPieces(v.types)| + 1;
      && |v.name| < stop < |Print(v)| && Print(v)[stop - 1] == ']' && Print(v)[|Print(v)| - 1] == ')'
  {
    hide Has, PrintPieces, Print, Valid, PrintGroup;
    var text := Print(v);
    HasAll(text);
    TypedStands(v, text, 0);
    GroupStands('(', v.args, ')', text, |v.name| + |v.gap| + 1 + |PrintPieces(v.types)| + 1 + |v.gap2|);
  }

  lemma HasAll(text: string)
    ensures Has(text, 0, text)
  {
    assert text[0..|text|] == text;
  }

  /** A typed container with a line break in front of its type leaves an entry that stops at the
      bracket that closes the type. */
  lemma CutsSetting(key: string, value: Value, text: string, at: nat, number: nat, st: State)
    requires ValidItem(Setting(key, value)) && Clean(st) && !ReadWhole(value)
    requires Has(text, at, PrintItem(Setting(key, value)) + [NEWLINE])
    ensures var stop := |value.name| + |value.gap| + 1 + |PrintPieces(value.types)| + 1;
      var last := ScanFrom(text, at, number, st);
      && stop <= |Print(value)| && |last.entries| > |st.entries|
      && last.entries[|st.entries|].valueText == Joined([], Print(value)[..stop])
  {
    hide Has, Print, Carry, Resume, Joined, ValidItem, Valid, Settle, OnLine, PrintPieces, ScanFrom, Keeps, Ended;
    var c := AtValue(key, at, number, st);
    var e := c.lo + |Print(value)|;
    SettingBounds(key, value, text, at);
    OpensSetting(key, value, text, at, number, st);
    CutAtType(value);
    TypedAfterBreakIsCut(value, text, c, e);
    var stop := |value.name| + |value.gap| + 1 + |PrintPieces(value.types)| + 1;
    assert text[c.lo + stop - 1] == ']' by { assert text[c.lo..e][stop - 1] == Print(value)[stop - 1]; }
    EndedRegisters(key, text, at, number, st, c.lo + stop, Word(false));
    assert text[c.lo..c.lo + stop] == Print(value)[..stop] by { CutText(value, text, c.lo, stop); }
    CutStays(text, Carry(text, c, c.lo, c.lo + stop), c.lo + stop, e, st);
  }

  lemma CutStays(text: string, c: Cursor, stop: nat, e: nat, st: State)
    requires OnLine(text, c, stop, e) && |Ended(text, c, stop, Word(false)).entries| == |st.entries| + 1
    ensures var last := Settle(text, c, Advance(true, stop, Word(false)));
      && |last.entries| > |st.entries|
      && last.entries[|st.entries|] == Ended(text, c, stop, Word(false)).entries[|st.entries|]
  {
    hide Settle, Ended;
    OnLineEnds(text, c, stop, e);
    var ended := Ended(text, c, stop, Word(false));
    CarriedKeepsCount(text, c, stop, Word(false));
    SettledStays(text, c, stop, Word(false), c.number, |c.st.entries|);
    var last := Settle(text, c, Advance(true, stop, Word(false)));
    assert last.entries[..|ended.entries|][|st.entries|] == ended.entries[..|ended.entries|][|st.entries|];
  }

  lemma CutText(value: Value, text: string, at: nat, stop: nat)
    requires stop <= |Print(value)| && at + |Print(value)| <= |text| && text[at..at + |Print(value)|] == Print(value)
    ensures text[at..at + stop] == Print(value)[..stop]
  {
    assert text[at..at + |Print(value)|][..stop] == text[at..at + stop];
  }

  lemma CarriedKeepsCount(text: string, c: Cursor, e: nat, value: ValueState)
    requires c.lo <= e <= |text|
    ensures |Ended(text, c, e, value).entries| == |c.st.entries|
  {
  }

  // ----- The whole file -----

  predicate AllReadWhole(items: seq<Item>) {
    forall i :: 0 <= i < |items| && items[i].Setting? ==> ReadWhole(items[i].value)
  }

  /** What `items` add to what is already registered. */
  function Onto(st: State, items: seq<Item>, number: nat): Scan {
    Scan(st.entries + Registered(items, st.section, number), st.headers + HeadersOf(items, number), true, false)
  }

  lemma AddsEntry(st: State, next: State, key: string, value: Value, items: seq<Item>, number: nat)
    requires items != [] && items[0] == Setting(key, value) && Registers(st, next, EntryOf(key, value, st.section, number))
    ensures Onto(st, items, number) == Onto(next, items[1..], number + Breaks(Print(value)) + 1)
  {
    hide Joined, Print;
    var entry := [EntryOf(key, value, st.section, number)];
    var rest := Registered(items[1..], st.section, number + Breaks(Print(value)) + 1);
    assert st.entries + (entry + rest) == (st.entries + entry) + rest;
  }

  lemma AddsHeader(st: State, next: State, name: string, items: seq<Item>, number: nat)
    requires items != [] && items[0] == Section(name)
    requires next == st.(section := name, headers := st.headers + [Header(name, number)])
    ensures Onto(st, items, number) == Onto(next, items[1..], number + 1)
  {
    var header := [Header(name, number)];
    var rest := HeadersOf(items[1..], number + 1);
    assert st.headers + (header + rest) == (st.headers + header) + rest;
  }

  lemma EndsFile(text: string, number: nat, st: State)
    requires Clean(st)
    ensures ScanFrom(text, |text|, number, st) == st && Answer(st) == Onto(st, [], number)
  {
    assert st.entries + [] == st.entries && st.headers + [] == st.headers;
  }

  lemma CutDiffers(key: string, value: Value, text: string, at: nat, number: nat, st: State, items: seq<Item>)
    requires items != [] && items[0] == Setting(key, value)
    requires ValidItem(Setting(key, value)) && Clean(st) && !ReadWhole(value)
    requires Has(text, at, PrintItem(Setting(key, value)) + [NEWLINE])
    ensures at <= |text| && Answer(ScanFrom(text, at, number, st)) != Onto(st, items, number)
  {
    hide Has, Print, Joined, ScanFrom, PlainKey, PrintPieces;
    assert Valid(value) by { assert ValidItem(items[0]); }
    hide Valid;
    SettingStands(key, value, text, at);
    CutsSetting(key, value, text, at, number, st);
    CutAtType(value);
    var stop := |value.name| + |value.gap| + 1 + |PrintPieces(value.types)| + 1;
    JoinedEnds([], Print(value)[..stop]);
    JoinedEnds([], Print(value));
    var expected := Onto(st, items, number).entries;
    assert expected[|st.entries|] == EntryOf(key, value, st.section, number);
  }

  lemma {:induction false} ScansItems(items: seq<Item>, text: string, at: nat, number: nat, st: State)
    requires ValidItems(items) && Clean(st) && Has(text, at, PrintFile(items)) && at + |PrintFile(items)| == |text|
    ensures Answer(ScanFrom(text, at, number, st)) == Onto(st, items, number) <==> AllReadWhole(items)
    decreases |items|
  {
    hide Has, Print, ScanFrom, Answer, Onto, Clean, ValidItem, Registers, ReadWhole, AllReadWhole;
    if items == [] {
      EndsFile(text, number, st);
      SplitsNothing();
    } else {
      var item := items[0];
      var rest := items[1..];
      HeadStands(items, text, at);
      SplitsWhole(items);
      match item
      case Section(name) =>
        ScansSection(name, text, at, number, st);
        var next := st.(section := name, headers := st.headers + [Header(name, number)]);
        AddsHeader(st, next, name, items, number);
        assert Clean(next) by { StaysClean(st, next); }
        ScansItems(rest, text, at + |name| + 3, number + 1, next);
      case Setting(key, value) =>
        if ReadWhole(value) {
          var next := ScansSetting(key, value, text, at, number, st);
          AddsEntry(st, next, key, value, items, number);
          assert Clean(next) by { RegistersClean(st, next, EntryOf(key, value, st.section, number)); }
          ScansItems(rest, text, at + |key| + 2 + |Print(value)|, number + Breaks(Print(value)) + 1, next);
        } else {
          CutDiffers(key, value, text, at, number, st, items);
        }
      case Remark(remark) =>
        ScansRemark(remark, text, at, number, st);
        assert Onto(st, items, number) == Onto(st, rest, number + 1) by { AddsNothing(st, items, number); }
        ScansItems(rest, text, at + |remark| + 1, number + 1, st);
    }
  }

  /** The first item of a file, and the rest of the file below it. */
  lemma HeadStands(items: seq<Item>, text: string, at: nat)
    requires items != [] && ValidItems(items) && Has(text, at, PrintFile(items)) && at + |PrintFile(items)| == |text|
    ensures var below := at + |PrintItem(items[0])| + 1;
      && ValidItem(items[0]) && ValidItems(items[1..])
      && Has(text, at, PrintItem(items[0]) + [NEWLINE])
      && Has(text, below, PrintFile(items[1..])) && below + |PrintFile(items[1..])| == |text|
  {
    hide Has, PrintItem, ValidItem;
    var item := items[0];
    var rest := items[1..];
    HasSplit(text, at, PrintItem(item), [NEWLINE] + PrintFile(rest));
    HasSplit(text, at + |PrintItem(item)|, [NEWLINE], PrintFile(rest));
    HasSplit(text, at, PrintItem(item), [NEWLINE]);
  }

  lemma SplitsNothing()
    ensures AllReadWhole([])
  {
  }

  lemma SplitsWhole(items: seq<Item>)
    requires items != []
    ensures AllReadWhole(items) <==> (items[0].Setting? ==> ReadWhole(items[0].value)) && AllReadWhole(items[1..])
  {
    if (items[0].Setting? ==> ReadWhole(items[0].value)) && AllReadWhole(items[1..]) {
      forall i | 0 <= i < |items| && items[i].Setting? ensures ReadWhole(items[i].value) {
        if i > 0 { assert items[i] == items[1..][i - 1]; }
      }
    }
  }

  lemma StaysClean(st: State, next: State)
    requires Clean(st) && next.pending == st.pending && next.inValue == st.inValue
    ensures Clean(next)
  {
  }

  lemma RegistersClean(st: State, next: State, entry: Entry)
    requires Registers(st, next, entry)
    ensures Clean(next)
  {
  }

  lemma AddsNothing(st: State, items: seq<Item>, number: nat)
    requires items != [] && items[0].Remark?
    ensures Onto(st, items, number) == Onto(st, items[1..], number + 1)
  {
  }

  /** Scanning a written file gives back its sections, its settings, their value texts and the lines
      they span, complete and with no key left over, exactly when no typed container has a line break
      between its name and its type. */
  lemma ScanInvertsPrint(items: seq<Item>)
    requires ValidItems(items)
    ensures ScanText(PrintFile(items)) == Expected(items) <==> AllReadWhole(items)
  {
    hide ScanFrom, Answer;
    var text := PrintFile(items);
    assert text[0..|text|] == text;
    ScansItems(items, text, 0, 1, START);
    assert [] + Registered(items, [], 1) == Registered(items, [], 1);
    assert [] + HeadersOf(items, 1) == HeadersOf(items, 1);
  }

  // ----- Value texts as they were written -----

  /** No line of `p` begins or ends with a space, and no line is blank. */
  predicate Tidy(p: string) {
    && p != [] && !IsSpace(p[0]) && !IsSpace(p[|p| - 1])
    && forall i :: 0 <= i < |p| && p[i] == NEWLINE ==> TidyBreak(p, i)
  }

  predicate TidyBreak(p: string, i: nat) {
    0 < i < |p| - 1 && !IsSpace(p[i - 1]) && !IsSpace(p[i + 1])
  }

  lemma TrimmedTidy(p: string)
    requires p != [] && !IsSpace(p[0]) && !IsSpace(p[|p| - 1])
    ensures Trimmed(p) == p
  {
    NextNonSpaceIs(p, 0, |p|, 0);
    assert TrimEnd(p, 0, |p|) == |p|;
  }

  /** A tidy text joins onto `soFar` unchanged. */
  lemma {:induction false} JoinedTidy(soFar: string, p: string)
    requires Tidy(p)
    ensures Joined(soFar, p) == if soFar == [] then p else soFar + ([NEWLINE] + p)
    decreases |p|
  {
    assert IsSpace(NEWLINE);
    hide Trimmed, IsSpace;
    var end := LineEnd(p, 0);
    if end == |p| {
      TrimmedTidy(p);
      Regrouped(soFar, [NEWLINE], p);
    } else {
      assert TidyBreak(p, end);
      var line := p[..end];
      var below := p[end + 1..];
      TrimmedTidy(line);
      forall i | 0 <= i < |below| && below[i] == NEWLINE ensures TidyBreak(below, i) {
        assert TidyBreak(p, end + 1 + i);
      }
      JoinedTidy(AppendPiece(soFar, line), below);
      assert p == line + ([NEWLINE] + below);
      Regrouped(soFar, [NEWLINE], line);
      Regrouped(soFar, [NEWLINE] + line, [NEWLINE] + below);
      Regrouped([NEWLINE], line, [NEWLINE] + below);
    }
  }

  lemma TrimmedIsTidy(p: string)
    requires NoNewline(p) && Trimmed(p) != []
    ensures Tidy(Trimmed(p))
  {
    forall i | 0 <= i < |Trimmed(p)| ensures Trimmed(p)[i] != NEWLINE {
      assert Trimmed(p)[i] in p;
    }
  }

  lemma TidyJoins(a: string, b: string)
    requires Tidy(a) && Tidy(b)
    ensures Tidy(a + [NEWLINE] + b)
  {
    hide IsSpace;
    var p := a + [NEWLINE] + b;
    forall i | 0 <= i < |p| && p[i] == NEWLINE ensures TidyBreak(p, i) {
      if i < |a| {
        assert TidyBreak(a, i);
      } else if i > |a| {
        assert TidyBreak(b, i - |a| - 1);
      }
    }
  }

  lemma {:induction false} JoinedIsTidy(soFar: string, p: string)
    requires soFar == [] || Tidy(soFar)
    ensures Joined(soFar, p) == [] || Tidy(Joined(soFar, p))
    decreases |p|
  {
    hide Trimmed, Tidy;
    var end := LineEnd(p, 0);
    var line := p[..end];
    assert end == |p| ==> line == p;
    assert NoNewline(line);
    if Trimmed(line) != [] {
      TrimmedIsTidy(line);
      if soFar != [] { TidyJoins(soFar, Trimmed(line)); }
    }
    if end < |p| { JoinedIsTidy(AppendPiece(soFar, line), p[end + 1..]); }
  }

  /** The text a value leaves is the text written exactly when every line of it is tidy. */
  lemma ValueTextIsExact(v: Value)
    requires Valid(v)
    ensures Joined([], Print(v)) == Print(v) <==> Tidy(Print(v))
  {
    hide Print, Valid, Tidy;
    Ends(v);
    JoinedIsTidy([], Print(v));
    if Tidy(Print(v)) { JoinedTidy([], Print(v)); }
  }

  /** The smallest file it fails on: `a=Array`, and `[int]()` on the line below. */
  const BROKEN: Item := Setting("a", Typed("Array", "\n", Plain('i', Plain('n', Plain('t', NoPieces))), [], NoPieces))

  lemma BreakBeforeTypeIsCut()
    ensures ValidItems([BROKEN])
    ensures ScanText(PrintFile([BROKEN])) != Expected([BROKEN])
  {
    hide *;
    BrokenIsValid();
    ScanInvertsPrint([BROKEN]);
  }

  lemma BrokenIsValid()
    ensures ValidItems([BROKEN]) && !AllReadWhole([BROKEN])
  {
    hide ValidItem;
    assert ValidItem(BROKEN) by { BrokenPrints(); }
    assert [BROKEN][0] == BROKEN && BROKEN.value.gap[0] == NEWLINE;
  }

  lemma BrokenPrints()
    ensures Print(BROKEN.value) == "Array\n[int]()" && ValidItem(BROKEN)
  {
    assert PrintPieces(Plain('t', NoPieces)) == ['t'];
    assert PrintPieces(Plain('n', Plain('t', NoPieces))) == ['n', 't'];
  }
}
