/** Written files whose last line is not ended, and files whose last value is a bare name. */
module ConfigFileEnd {
  // Such a name waits for a call that may stand on the line below; at the end of a file there is no such line, and
  // the name is the whole value.

  import opened Text
  import opened ConfigGrammar
  import opened ConfigScan
  import opened ScanLastLine
  import opened ScanValues
  import opened ScanTopLevel
  import opened ConfigRoundTrip

  lemma {:induction false} EndsInNewline(items: seq<Item>)
    requires items != []
    ensures var text := PrintFile(items); text != [] && text[|text| - 1] == NEWLINE
  {
    if |items| > 1 {
      EndsInNewline(items[1..]);
    } else {
      assert PrintFile(items[1..]) == [];
    }
  }

  function WithoutFinalNewline(items: seq<Item>): string
    requires items != []
  {
    EndsInNewline(items);
    PrintFile(items)[..|PrintFile(items)| - 1]
  }

  lemma IsWithoutNewline(items: seq<Item>)
    requires items != []
    ensures PrintFile(items) == WithoutFinalNewline(items) + [NEWLINE]
  {
    hide PrintFile;
    EndsInNewline(items);
  }

  /** The round trip of a file whose last line is not ended. */
  lemma ScanInvertsPrintWithoutNewline(items: seq<Item>)
    requires items != [] && ValidItems(items)
    ensures ScanText(WithoutFinalNewline(items)) == Expected(items) <==> AllReadWhole(items)
  {
    hide *;
    IsWithoutNewline(items);
    FinalNewlineIsIdle(WithoutFinalNewline(items));
    ScanInvertsPrint(items);
  }

  // ----- A file that ends while a call may still follow -----

  function SectionAfter(items: seq<Item>, section: string): string {
    if items == [] then section
    else SectionAfter(items[1..], if items[0].Section? then items[0].name else section)
  }

  function LineAfter(items: seq<Item>, number: nat): nat {
    if items == [] then number
    else LineAfter(items[1..], number + 1 + if items[0].Setting? then Breaks(Print(items[0].value)) else 0)
  }

  /** Between two items, with everything written so far registered and nothing else. */
  predicate UpTo(st: State, next: State, items: seq<Item>, number: nat) {
    && Clean(next) && next.section == SectionAfter(items, st.section)
    && next.entries == st.entries + Registered(items, st.section, number)
    && next.headers == st.headers + HeadersOf(items, number)
  }

  lemma FirstItem(items: seq<Item>, text: string, at: nat)
    requires items != [] && ValidItems(items) && AllReadWhole(items) && Has(text, at, PrintFile(items))
    ensures var below := at + |PrintItem(items[0])| + 1;
      && ValidItem(items[0]) && ValidItems(items[1..]) && AllReadWhole(items[1..])
      && (items[0].Setting? ==> ReadWhole(items[0].value))
      && Has(text, at, PrintItem(items[0]) + [NEWLINE])
      && Has(text, below, PrintFile(items[1..])) && below + |PrintFile(items[1..])| == at + |PrintFile(items)| <= |text|
  {
    hide Has, PrintItem, ValidItem, ReadWhole, AllReadWhole;
    var item, rest := items[0], items[1..];
    SplitsWhole(items);
    HasSplit(text, at, PrintItem(item), [NEWLINE] + PrintFile(rest));
    HasSplit(text, at + |PrintItem(item)|, [NEWLINE], PrintFile(rest));
    HasSplit(text, at, PrintItem(item), [NEWLINE]);
  }

  lemma {:induction false} ScansUpTo(items: seq<Item>, text: string, at: nat, number: nat, st: State) returns (next: State)
    requires ValidItems(items) && AllReadWhole(items) && Clean(st) && Has(text, at, PrintFile(items)) && at <= |text|
    ensures at + |PrintFile(items)| <= |text| && UpTo(st, next, items, number)
    ensures ScanFrom(text, at, number, st)
         == ScanFrom(text, at + |PrintFile(items)|, LineAfter(items, number), next)
    decreases |items|
  {
    hide *;
    ItemsAre(items, number);
    if items == [] {
      next := st;
      UpToNothing(st, number);
    } else {
      var rest := items[1..];
      FirstItem(items, text, at);
      match items[0]
      case Section(name) =>
        ScansSection(name, text, at, number, st);
        var mid := st.(section := name, headers := st.headers + [Header(name, number)]);
        StaysClean(st, mid);
        next := ScansUpTo(rest, text, at + |name| + 3, number + 1, mid);
        UpToSection(st, next, items, number);
      case Setting(key, value) =>
        var mid := ScansSetting(key, value, text, at, number, st);
        RegistersClean(st, mid, EntryOf(key, value, st.section, number));
        next := ScansUpTo(rest, text, at + |key| + 2 + |Print(value)|, number + Breaks(Print(value)) + 1, mid);
        UpToSetting(st, mid, next, items, number);
      case Remark(remark) =>
        ScansRemark(remark, text, at, number, st);
        next := ScansUpTo(rest, text, at + |remark| + 1, number + 1, st);
        UpToRemark(st, next, items, number);
    }
  }

  lemma ItemsAre(items: seq<Item>, number: nat)
    ensures items == [] ==> PrintFile(items) == [] && LineAfter(items, number) == number
    ensures items != [] ==>
              && LineAfter(items, number)
                 == LineAfter(items[1..], number + 1 + if items[0].Setting? then Breaks(Print(items[0].value)) else 0)
              && |PrintItem(items[0])| == (match items[0]
                                           case Section(name) => |name| + 2
                                           case Setting(key, value) => |key| + 1 + |Print(value)|
                                           case Remark(text) => |text|)
              && (items[0].Remark? ==> PrintItem(items[0]) == items[0].text)
  {
    hide Print, Breaks;
  }

  lemma UpToNothing(st: State, number: nat)
    requires Clean(st)
    ensures UpTo(st, st, [], number)
  {
    assert st.entries + [] == st.entries && st.headers + [] == st.headers;
  }

  lemma UpToSection(st: State, next: State, items: seq<Item>, number: nat)
    requires items != [] && items[0].Section?
    requires UpTo(st.(section := items[0].name, headers := st.headers + [Header(items[0].name, number)]), next, items[1..], number + 1)
    ensures UpTo(st, next, items, number)
  {
    Regroup(st.headers, [Header(items[0].name, number)], HeadersOf(items[1..], number + 1));
  }

  lemma UpToSetting(st: State, mid: State, next: State, items: seq<Item>, number: nat)
    requires items != [] && items[0].Setting?
    requires Registers(st, mid, EntryOf(items[0].key, items[0].value, st.section, number))
    requires UpTo(mid, next, items[1..], number + Breaks(Print(items[0].value)) + 1)
    ensures UpTo(st, next, items, number)
  {
    hide Print, Joined;
    Regroup(st.entries, [EntryOf(items[0].key, items[0].value, st.section, number)],
            Registered(items[1..], st.section, number + Breaks(Print(items[0].value)) + 1));
  }

  lemma UpToRemark(st: State, next: State, items: seq<Item>, number: nat)
    requires items != [] && items[0].Remark? && UpTo(st, next, items[1..], number + 1)
    ensures UpTo(st, next, items, number)
  {
  }

  lemma Regroup<T>(a: seq<T>, b: seq<T>, c: seq<T>)
    ensures a + (b + c) == (a + b) + c
  {
  }

  /** The state `key=name` leaves, where `name` could still turn out to be called. */
  predicate Waiting(st: State, last: State, key: string, name: string, number: nat) {
    && last.inValue && last.value == AWAITING && last.pending == [] && last.headers == st.headers
    && last.section == st.section && last.pendingLine == number
    && last.entries == st.entries + [Entry(st.section, key, name, key, number, number, number, false)]
  }

  lemma NameLineWaits(key: string, name: string, text: string, at: nat, number: nat, st: State) returns (last: State)
    requires PlainKey(key) && Identifier(name) && !IsValueKeyword(name) && Clean(st)
    requires Has(text, at, key + (['='] + (name + [NEWLINE])))
    ensures at + |key| + |name| + 2 <= |text| && Waiting(st, last, key, name, number)
    ensures ScanFrom(text, at, number, st) == ScanFrom(text, at + |key| + |name| + 2, number + 1, last)
  {
    hide Has, ScanFrom, Identifier, PlainKey, Walk, Rest, KeyTokens, Line, LineEnd, AppendPiece, NextNonSpace, TrimEnd, IsValueKeyword;
    var c := AtValue(key, at, number, st);
    var e := c.lo + |name|;
    NameLineStands(key, name, text, at);
    KeyOfLine(key, text, at, e);
    OpensRest(key, text, at, e, number, st);
    WalkWaitsForCall(name, text, c.lo, e);
    var grown := Grow(c.st, text[c.lo..e], true, number);
    last := grown.(value := AWAITING, inValue := true);
    NameIsTrimmed(name);
  }

  /** What a last line `key=name` leaves. */
  lemma LastLineWaits(key: string, name: string, text: string, at: nat, number: nat, st: State)
    requires PlainKey(key) && Identifier(name) && !IsValueKeyword(name) && Clean(st)
    requires Has(text, at, key + (['='] + (name + [NEWLINE]))) && at + |key| + |name| + 2 == |text|
    ensures Waiting(st, ScanFrom(text, at, number, st), key, name, number)
  {
    hide Has, ScanFrom, Identifier, PlainKey, IsValueKeyword;
    var last := NameLineWaits(key, name, text, at, number, st);
    EndsWithIdleLine(text, number + 1, last);
  }

  lemma NameIsTrimmed(name: string)
    requires Identifier(name)
    ensures AppendPiece([], name) == name
  {
    assert IsIdentifierChar(name[|name| - 1]);
    TrimmedTidy(name);
  }

  lemma WalkWaitsForCall(name: string, text: string, at: nat, e: nat)
    requires Identifier(name) && !IsValueKeyword(name) && Has(text, at, name) && e == at + |name|
    ensures e <= |text| && Walk(text, at, e, FRESH, None) == Advance(false, e, AWAITING)
  {
    IdentifierIsBare(name);
    HasIs(text, at, name);
    hide Has;
    WalksFirstWord(name, text, at, e);
  }

  /** Where the parts of that line stand. */
  lemma NameLineStands(key: string, name: string, text: string, at: nat)
    requires PlainKey(key) && Identifier(name) && Has(text, at, key + (['='] + (name + [NEWLINE])))
    ensures var begin := at + |key| + 1;
      var e := begin + |name|;
      && begin < e < |text| && Has(text, at, key) && Has(text, begin, name) && text[begin..e] == name && text[begin - 1] == '='
      && !IsSpace(text[at]) && text[at] != '[' && text[at] != ';' && !IsSpace(text[begin])
      && LineStop(text, at) == e == LineStop(text, begin) && LineEnd(text, at) == e == LineEnd(text, begin)
  {
    hide Has;
    var begin := at + |key| + 1;
    var e := begin + |name|;
    HasSplit(text, at, key, ['='] + (name + [NEWLINE]));
    HasSplit(text, at + |key|, ['='], name + [NEWLINE]);
    HasSplit(text, begin, name, [NEWLINE]);
    HasChar(text, at, key, 0);
    HasChar(text, at + |key|, ['='], 0);
    HasChar(text, e, [NEWLINE], 0);
    HasIs(text, begin, name);
    forall i | 0 <= i < |key| ensures text[at + i] == key[i] && !IsSpace(key[i]) { HasChar(text, at, key, i); }
    forall i | 0 <= i < |name| ensures text[begin + i] == name[i] && !IsSpace(name[i]) {
      HasChar(text, begin, name, i);
      assert IsIdentifierChar(name[i]);
    }
    assert IsSpace(NEWLINE) && IsSpace('\r');
    hide IsSpace, Identifier, PlainKey;
    forall i | at <= i < e ensures text[i] != NEWLINE && text[i] != '\r' {
      if i < at + |key| { assert text[at + (i - at)] == key[i - at]; }
      else if i >= begin { assert text[begin + (i - begin)] == name[i - begin]; }
    }
    LineEndIs(text, at, e);
    LineEndIs(text, begin, e);
  }

  lemma {:induction false} LineEndIs(text: string, from: nat, e: nat)
    requires from < e < |text| && text[e] == NEWLINE && forall i :: from <= i < e ==> text[i] != NEWLINE && text[i] != '\r'
    ensures LineEnd(text, from) == e && LineStop(text, from) == e
  {
    assert LineEnd(text, from) == e;
  }

  /** A file may end in an identifier that could still be called, with or without a newline after it: the
      entry's value is that identifier, and nothing is left open. */
  lemma EndsInIdentifier(items: seq<Item>, key: string, name: string)
    requires ValidItems(items) && AllReadWhole(items) && PlainKey(key) && Identifier(name) && !IsValueKeyword(name)
    ensures var line := LineAfter(items, 1);
      var text := PrintFile(items) + (key + (['='] + name));
      var read := Scan(Registered(items, [], 1) + [Entry(SectionAfter(items, []), key, name, key, line, line, line, false)],
                       HeadersOf(items, 1), true, false);
      ScanText(text) == read && ScanText(text + [NEWLINE]) == read
  {
    hide *;
    var before, tail := PrintFile(items), key + (['='] + (name + [NEWLINE]));
    var text := before + (key + (['='] + name));
    var whole := before + tail;
    EndsTheLine(before, key, name);
    FinalNewlineIsIdle(text);
    HasWhole(before, tail);
    StartIsClean();
    var next := ScansUpTo(items, whole, 0, 1, START);
    NextIsClean(START, next, items, 1);
    LastLineWaits(key, name, whole, |before|, LineAfter(items, 1), next);
    AnswersFrom(items, key, name, next, ScanFrom(whole, 0, 1, START));
    ScanIs(whole);
  }

  lemma EndsTheLine(before: string, key: string, name: string)
    ensures before + (key + (['='] + name)) + [NEWLINE] == before + (key + (['='] + (name + [NEWLINE])))
  {
  }

  lemma StartIsClean()
    ensures Clean(START)
  {
  }

  lemma NextIsClean(st: State, next: State, items: seq<Item>, number: nat)
    requires UpTo(st, next, items, number)
    ensures Clean(next)
  {
  }

  lemma ScanIs(text: string)
    ensures ScanText(text) == Answer(ScanFrom(text, 0, 1, START))
  {
    hide ScanFrom;
  }

  lemma AnswersFrom(items: seq<Item>, key: string, name: string, next: State, last: State)
    requires UpTo(START, next, items, 1) && Waiting(next, last, key, name, LineAfter(items, 1))
    ensures var line := LineAfter(items, 1);
      Answer(last) == Scan(Registered(items, [], 1) + [Entry(SectionAfter(items, []), key, name, key, line, line, line, false)],
                           HeadersOf(items, 1), true, false)
  {
    hide LineAfter, Registered, HeadersOf, SectionAfter;
    assert [] + Registered(items, [], 1) == Registered(items, [], 1);
    assert [] + HeadersOf(items, 1) == HeadersOf(items, 1);
  }

  lemma HasWhole(a: string, b: string)
    ensures Has(a + b, 0, a) && Has(a + b, |a|, b)
  {
  }
}
