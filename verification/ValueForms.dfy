/** Every text a value can be taken for, with what is wrong with it where something is. */
module ValueForms {
  // A form covers as much of a text as is looked at, to the first thing wrong or to the value's end.

  import opened Text
  import opened ConfigString
  import opened StringWriting
  import opened ValueWalking

  /** What stands inside brackets that are only counted: a character outside any string, or a closed string. */
  datatype Bit = Mark(c: char) | Inner(pieces: seq<Piece>)

  /** How such a bracket ends: with the closing bracket of any kind that matches it in number, with the text, or
      with the text inside a string. */
  datatype GroupEnd = Shut(c: char) | CutOff | CutInString(pieces: seq<Piece>, e: Ending)

  /** The opening bracket is the first bit. */
  datatype Group = Group(bits: seq<Bit>, end: GroupEnd)

  datatype Form =
    | Nothing                                                               // the text is over
    | Stray(c: char)
    | Sigil(c: char)                                                        // with no string right behind it
    | Quote(mark: string, pieces: seq<Piece>, e: Ending)
    | Word(name: string)                                                    // with no bracket behind it
    | Called(name: string, gap: string, args: Group)
    | Kind(name: string, gap: string, types: Group, gap2: string)           // a type with no call behind it
    | KindCalled(name: string, gap: string, types: Group, gap2: string, args: Group)
    | Token(text: string)
    | List(items: Items)
    | Table(fields: Fields)
    | Deep(text: string)                                                    // not looked at, and so to the end

  /** What stands behind `[` or a comma. `shut` is false where the text is over. */
  datatype Items =
    | NoItem(trail: string, shut: bool)
    | SomeItem(lead: string, value: Form, next: AfterItem)

  datatype AfterItem =
    | ItemStops                                                             // something is wrong with the element
    | ItemsEnd(trail: string, shut: bool)
    | NoItemComma(trail: string, c: char)
    | MoreItems(trail: string, rest: Items)

  /** What stands behind `{` or a comma. */
  datatype Fields =
    | NoField(trail: string, shut: bool)
    | SomeField(lead: string, key: Form, next: AfterKey)

  datatype AfterKey =
    | KeyStops
    | KeyEnds(trail: string)                                                // the text is over
    | NoColon(trail: string, c: char)
    | Colon(trail: string, lead: string, value: Form, next: AfterField)

  datatype AfterField =
    | FieldStops
    | FieldsEnd(trail: string, shut: bool)
    | NoFieldComma(trail: string, c: char)
    | MoreFields(trail: string, rest: Fields)

  // ----- Spelling -----

  function Inside(pieces: seq<Piece>, e: Ending): string {
    AllWritten(pieces) + EndText(e)
  }

  function BitText(b: Bit): string {
    match b
    case Mark(c) => [c]
    case Inner(pieces) => ['"'] + Inside(pieces, Closed)
  }

  function BitsText(bits: seq<Bit>): string {
    if bits == [] then [] else BitText(bits[0]) + BitsText(bits[1..])
  }

  function GroupEndText(e: GroupEnd): string {
    match e
    case Shut(c) => [c]
    case CutOff => []
    case CutInString(pieces, ending) => ['"'] + Inside(pieces, ending)
  }

  function GroupText(g: Group): string {
    BitsText(g.bits) + GroupEndText(g.end)
  }

  function ShutText(shut: bool, c: char): string {
    if shut then [c] else []
  }

  function Spell(f: Form): string {
    match f
    case Nothing => []
    case Stray(c) => [c]
    case Sigil(c) => [c]
    case Quote(mark, pieces, e) => mark + (['"'] + Inside(pieces, e))
    case Word(name) => name
    case Called(name, gap, args) => name + (gap + GroupText(args))
    case Kind(name, gap, types, gap2) => name + (gap + (GroupText(types) + gap2))
    case KindCalled(name, gap, types, gap2, args) => name + (gap + (GroupText(types) + (gap2 + GroupText(args))))
    case Token(text) => text
    case List(items) => ['['] + SpellItems(items)
    case Table(fields) => ['{'] + SpellFields(fields)
    case Deep(text) => text
  }

  function SpellItems(i: Items): string {
    match i
    case NoItem(trail, shut) => trail + ShutText(shut, ']')
    case SomeItem(lead, value, next) => lead + (Spell(value) + SpellAfterItem(next))
  }

  function SpellAfterItem(a: AfterItem): string {
    match a
    case ItemStops => []
    case ItemsEnd(trail, shut) => trail + ShutText(shut, ']')
    case NoItemComma(trail, c) => trail + [c]
    case MoreItems(trail, rest) => trail + ([','] + SpellItems(rest))
  }

  function SpellFields(i: Fields): string {
    match i
    case NoField(trail, shut) => trail + ShutText(shut, '}')
    case SomeField(lead, key, next) => lead + (Spell(key) + SpellAfterKey(next))
  }

  function SpellAfterKey(a: AfterKey): string {
    match a
    case KeyStops => []
    case KeyEnds(trail) => trail
    case NoColon(trail, c) => trail + [c]
    case Colon(trail, lead, value, next) => trail + ([':'] + (lead + (Spell(value) + SpellAfterField(next))))
  }

  function SpellAfterField(a: AfterField): string {
    match a
    case FieldStops => []
    case FieldsEnd(trail, shut) => trail + ShutText(shut, '}')
    case NoFieldComma(trail, c) => trail + [c]
    case MoreFields(trail, rest) => trail + ([','] + SpellFields(rest))
  }

  // ----- What is wrong -----

  const WORDS := {"true", "false", "null", "nil", "nan", "inf", "inf_neg"}

  function First(a: Option<Refusal>, b: Option<Refusal>): Option<Refusal> {
    if a.Some? then a else b
  }

  function StringFault(pieces: seq<Piece>, e: Ending): Option<Refusal> {
    var trouble := Trouble(pieces, e);
    if trouble.Some? then Some(InString(trouble.value)) else None
  }

  function BitFault(b: Bit): Option<Refusal> {
    if b.Inner? then StringFault(b.pieces, Closed) else None
  }

  function BitsFault(bits: seq<Bit>): Option<Refusal> {
    if bits == [] then None else First(BitFault(bits[0]), BitsFault(bits[1..]))
  }

  function GroupFault(g: Group): Option<Refusal> {
    First(BitsFault(g.bits), if g.end.CutInString? then StringFault(g.end.pieces, g.end.e) else None)
  }

  /** The first thing wrong with a value. */
  function Fault(f: Form): Option<Refusal> {
    match f
    case Nothing => Some(EmptyValue)
    case Stray(c) => Some(CannotBegin(c))
    case Sigil(c) => Some(LoneSigil(c))
    case Quote(_, pieces, e) => StringFault(pieces, e)
    case Word(name) => if name in WORDS then None else Some(UnknownName(name))
    case Called(_, _, args) => GroupFault(args)
    case Kind(_, _, types, _) => GroupFault(types)
    case KindCalled(_, _, types, _, args) => First(GroupFault(types), GroupFault(args))
    case Token(_) => None
    case List(items) => ItemsFault(items)
    case Table(fields) => FieldsFault(fields)
    case Deep(_) => None
  }

  function ItemsFault(i: Items): Option<Refusal> {
    match i
    case NoItem(_, _) => None
    case SomeItem(_, value, next) => First(Fault(value), AfterItemFault(next))
  }

  function AfterItemFault(a: AfterItem): Option<Refusal> {
    match a
    case NoItemComma(_, c) => Some(ElementSeparator(c))
    case MoreItems(_, rest) => ItemsFault(rest)
    case _ => None
  }

  function FieldsFault(i: Fields): Option<Refusal> {
    match i
    case NoField(_, _) => None
    case SomeField(_, key, next) => First(Fault(key), AfterKeyFault(next))
  }

  function AfterKeyFault(a: AfterKey): Option<Refusal> {
    match a
    case NoColon(_, c) => Some(KeySeparator(c))
    case Colon(_, _, value, next) => First(Fault(value), AfterFieldFault(next))
    case _ => None
  }

  function AfterFieldFault(a: AfterField): Option<Refusal> {
    match a
    case NoFieldComma(_, c) => Some(PairSeparator(c))
    case MoreFields(_, rest) => FieldsFault(rest)
    case _ => None
  }

  // ----- Which forms a text can have -----

  /** Every bracket opened within is counted, and the count does not come back to zero. */
  predicate Counted(bits: seq<Bit>, depth: nat) {
    bits != [] ==>
      && (bits[0].Mark? ==> bits[0].c != '"' && (IsClose(bits[0].c) ==> depth >= 2))
      && (bits[0].Inner? ==> Writable(bits[0].pieces, Closed))
      && Counted(bits[1..], Level(bits[0], depth))
  }

  function Level(b: Bit, depth: nat): nat {
    if b.Mark? && IsOpen(b.c) then depth + 1 else if b.Mark? && IsClose(b.c) && depth > 0 then depth - 1 else depth
  }

  function EndLevel(bits: seq<Bit>, depth: nat): nat {
    if bits == [] then depth else EndLevel(bits[1..], Level(bits[0], depth))
  }

  predicate GoodEnd(e: GroupEnd, depth: nat, after: string) {
    match e
    case Shut(c) => IsClose(c) && depth == 1
    case CutOff => after == []
    case CutInString(pieces, ending) => after == [] && Writable(pieces, ending) && !ending.Closed?
  }

  predicate GoodGroup(g: Group, open: char, after: string) {
    && g.bits != [] && g.bits[0] == Mark(open) && IsOpen(open)
    && Counted(g.bits[1..], 1) && GoodEnd(g.end, EndLevel(g.bits[1..], 1), after)
  }

  predicate IsName(name: string) {
    name != [] && IsIdentifierStart(name[0]) && forall i :: 0 <= i < |name| ==> IsIdentifierChar(name[i])
  }

  /** What follows has none of the characters `cs` as its first one that is no space. */
  predicate NoneAhead(after: string, cs: string) {
    var next := NextNonSpace(after, 0, |after|);
    next < |after| ==> after[next] !in cs
  }

  predicate Good(f: Form, depth: nat, after: string)
    decreases f, 0
  {
    if depth > 32 then f.Deep? && after == []
    else
      match f
      case Nothing => after == []
      case Stray(c) => c in ")]},:("
      case Sigil(c) => c in "&@" && (after != [] ==> after[0] != '"')
      case Quote(mark, pieces, e) => mark in {"", "&", "@"} && Writable(pieces, e) && (e.Closed? || after == [])
      case Word(name) => IsName(name) && (after != [] ==> !IsIdentifierChar(after[0])) && NoneAhead(after, "([")
      case Called(name, gap, args) => IsName(name) && AllSpace(gap) && GoodGroup(args, '(', after)
      case Kind(name, gap, types, gap2) =>
        && IsName(name) && AllSpace(gap) && GoodGroup(types, '[', gap2 + after) && AllSpace(gap2)
        && (after != [] ==> !IsSpace(after[0]) && after[0] != '(')
      case KindCalled(name, gap, types, gap2, args) =>
        && IsName(name) && AllSpace(gap) && GoodGroup(types, '[', gap2 + (GroupText(args) + after)) && AllSpace(gap2)
        && GoodGroup(args, '(', after)
      case Token(text) =>
        && text != [] && text[0] !in "\"&@[{(" && !IsIdentifierStart(text[0])
        && (forall i :: 0 <= i < |text| ==> !IsSpace(text[i]) && text[i] !in ",:)]}")
        && (after != [] ==> IsSpace(after[0]) || after[0] in ",:)]}")
      case List(items) => GoodItems(items, depth, after)
      case Table(fields) => GoodFields(fields, depth, after)
      case Deep(_) => false
  }

  predicate Starts(s: string, close: char) {
    s != [] && !IsSpace(s[0]) && s[0] != close
  }

  predicate GoodItems(i: Items, depth: nat, after: string)
    decreases i, 0
  {
    match i
    case NoItem(trail, shut) => AllSpace(trail) && (shut || after == [])
    case SomeItem(lead, value, next) =>
      && AllSpace(lead) && Starts(Spell(value), ']') && Good(value, depth + 1, SpellAfterItem(next) + after)
      && (next.ItemStops? <==> Fault(value).Some?) && GoodAfterItem(next, depth, after)
  }

  predicate GoodAfterItem(a: AfterItem, depth: nat, after: string)
    decreases a, 0
  {
    match a
    case ItemStops => true
    case ItemsEnd(trail, shut) => AllSpace(trail) && (shut || after == [])
    case NoItemComma(trail, c) => AllSpace(trail) && !IsSpace(c) && c !in ",]"
    case MoreItems(trail, rest) => AllSpace(trail) && GoodItems(rest, depth, after)
  }

  predicate GoodFields(i: Fields, depth: nat, after: string)
    decreases i, 0
  {
    match i
    case NoField(trail, shut) => AllSpace(trail) && (shut || after == [])
    case SomeField(lead, key, next) =>
      && AllSpace(lead) && Starts(Spell(key), '}') && Good(key, depth + 1, SpellAfterKey(next) + after)
      && (next.KeyStops? <==> Fault(key).Some?) && GoodAfterKey(next, depth, after)
  }

  predicate GoodAfterKey(a: AfterKey, depth: nat, after: string)
    decreases a, 0
  {
    match a
    case KeyStops => true
    case KeyEnds(trail) => AllSpace(trail) && after == []
    case NoColon(trail, c) => AllSpace(trail) && !IsSpace(c) && c != ':'
    case Colon(trail, lead, value, next) =>
      && AllSpace(trail) && AllSpace(lead) && Good(value, depth + 1, SpellAfterField(next) + after)
      && (next.FieldStops? <==> Fault(value).Some?) && GoodAfterField(next, depth, after)
  }

  predicate GoodAfterField(a: AfterField, depth: nat, after: string)
    decreases a, 0
  {
    match a
    case FieldStops => true
    case FieldsEnd(trail, shut) => AllSpace(trail) && (shut || after == [])
    case NoFieldComma(trail, c) => AllSpace(trail) && !IsSpace(c) && c !in ",}"
    case MoreFields(trail, rest) => AllSpace(trail) && GoodFields(rest, depth, after)
  }

  /** A text as spaces, a form, and what is not looked at. */
  predicate IsText(text: string, lead: string, f: Form, after: string) {
    AllSpace(lead) && Good(f, 0, after) && text == lead + (Spell(f) + after)
  }

  // ----- Values with nothing wrong -----

  predicate SoundBits(bits: seq<Bit>) {
    forall i :: 0 <= i < |bits| ==> bits[i].Inner? ==> Trouble(bits[i].pieces, Closed).None?
  }

  predicate SoundGroup(g: Group) {
    SoundBits(g.bits) && (g.end.CutInString? ==> Trouble(g.end.pieces, g.end.e).None?)
  }

  /** A loose value, or the beginning of one the text stops inside. */
  predicate Sound(f: Form) {
    match f
    case Nothing => false
    case Stray(_) => false
    case Sigil(_) => false
    case Quote(_, pieces, e) => Trouble(pieces, e).None?
    case Word(name) => name in WORDS
    case Called(_, _, args) => SoundGroup(args)
    case Kind(_, _, types, _) => SoundGroup(types)
    case KindCalled(_, _, types, _, args) => SoundGroup(types) && SoundGroup(args)
    case Token(_) => true
    case List(items) => SoundItems(items)
    case Table(fields) => SoundFields(fields)
    case Deep(_) => true
  }

  predicate SoundItems(i: Items) {
    i.SomeItem? ==> Sound(i.value) && SoundAfterItem(i.next)
  }

  predicate SoundAfterItem(a: AfterItem) {
    !a.NoItemComma? && (a.MoreItems? ==> SoundItems(a.rest))
  }

  predicate SoundFields(i: Fields) {
    i.SomeField? ==> Sound(i.key) && SoundAfterKey(i.next)
  }

  predicate SoundAfterKey(a: AfterKey) {
    !a.NoColon? && (a.Colon? ==> Sound(a.value) && SoundAfterField(a.next))
  }

  predicate SoundAfterField(a: AfterField) {
    !a.NoFieldComma? && (a.MoreFields? ==> SoundFields(a.rest))
  }

  lemma {:induction false} SoundBitsAre(bits: seq<Bit>)
    ensures SoundBits(bits) <==> BitsFault(bits).None?
  {
    if bits != [] {
      SoundBitsAre(bits[1..]);
      assert forall i :: 0 <= i < |bits[1..]| ==> bits[1..][i] == bits[i + 1];
      if SoundBits(bits[1..]) && BitFault(bits[0]).None? {
        forall i | 0 <= i < |bits| && bits[i].Inner? ensures Trouble(bits[i].pieces, Closed).None? {
          if i > 0 { assert bits[i] == bits[1..][i - 1]; }
        }
      }
    }
  }

  lemma {:induction false} SoundIs(f: Form)
    ensures Sound(f) <==> Fault(f).None?
  {
    hide SoundBits, BitsFault, Trouble;
    match f
    case Called(_, _, args) => SoundBitsAre(args.bits);
    case Kind(_, _, types, _) => SoundBitsAre(types.bits);
    case KindCalled(_, _, types, _, args) => SoundBitsAre(types.bits); SoundBitsAre(args.bits);
    case List(items) => SoundItemsAre(items);
    case Table(fields) => SoundFieldsAre(fields);
    case _ =>
  }

  lemma {:induction false} SoundItemsAre(i: Items)
    ensures SoundItems(i) <==> ItemsFault(i).None?
  {
    if i.SomeItem? {
      SoundIs(i.value);
      if i.next.MoreItems? { SoundItemsAre(i.next.rest); }
    }
  }

  lemma {:induction false} SoundFieldsAre(i: Fields)
    ensures SoundFields(i) <==> FieldsFault(i).None?
  {
    if i.SomeField? {
      SoundIs(i.key);
      if i.next.Colon? {
        SoundIs(i.next.value);
        var last := i.next.next;
        if last.MoreFields? { SoundFieldsAre(last.rest); }
        assert SoundAfterField(last) <==> AfterFieldFault(last).None?;
      }
    }
  }
}
