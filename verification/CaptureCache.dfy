module CaptureCache {
  // The frames kept for viewport captures, limited in number and in bytes: the one longest unused goes first. The
  // code keeps a map with stamps from a clock and a running count of bytes. What it stands for is a list in order of
  // use, and every store and find is proved to do to the list what the list's own definition says.

  import opened Text

  const MAX_CAPTURE_DIMENSION := 2048

  datatype RgbaImage = RgbaImage(width: int, height: int, rgba: seq<byte>)

  predicate ValidCaptureId(id: string) {
    |id| == 32 && forall i :: 0 <= i < |id| ==> ('0' <= id[i] <= '9' || 'a' <= id[i] <= 'f')
  }

  function CheckedRgbaSize(width: int, height: int): (size: Option<nat>)
    ensures size.Some? <==> 1 <= width <= MAX_CAPTURE_DIMENSION && 1 <= height <= MAX_CAPTURE_DIMENSION
    ensures size.Some? ==> 0 < size.value == 4 * (width * height)
  {
    if width < 1 || height < 1 || width > MAX_CAPTURE_DIMENSION || height > MAX_CAPTURE_DIMENSION then None
    else Some(width * height * 4)
  }

  // ----- The list it stands for -----

  /** A cached frame; lists of them run from the least to the most recently used. */
  datatype Frame = Frame(id: string, pixels: RgbaImage)

  function Bytes(list: seq<Frame>): nat {
    if list == [] then 0 else Bytes(list[..|list| - 1]) + |list[|list| - 1].pixels.rgba|
  }

  function Without(list: seq<Frame>, id: string): seq<Frame> {
    if list == [] then []
    else
      var rest := Without(list[..|list| - 1], id);
      if list[|list| - 1].id == id then rest else rest + [list[|list| - 1]]
  }

  /** A frame of `size` bytes can stand beside these. */
  predicate FitsBeside(list: seq<Frame>, size: nat, maxEntries: nat, maxBytes: nat) {
    |list| < maxEntries && Bytes(list) + size <= maxBytes
  }

  function Evicted(list: seq<Frame>, size: nat, maxEntries: nat, maxBytes: nat): seq<Frame> {
    if list == [] || FitsBeside(list, size, maxEntries, maxBytes) then list
    else Evicted(list[1..], size, maxEntries, maxBytes)
  }

  predicate Storable(id: string, pixels: RgbaImage, maxEntries: nat, maxBytes: nat) {
    && ValidCaptureId(id)
    && CheckedRgbaSize(pixels.width, pixels.height) == Some(|pixels.rgba|)
    && maxEntries > 0 && |pixels.rgba| <= maxBytes
  }

  function Stored(list: seq<Frame>, id: string, pixels: RgbaImage, maxEntries: nat, maxBytes: nat): seq<Frame> {
    if !Storable(id, pixels, maxEntries, maxBytes) then list
    else Evicted(Without(list, id), |pixels.rgba|, maxEntries, maxBytes) + [Frame(id, pixels)]
  }

  function Lookup(list: seq<Frame>, id: string): Option<RgbaImage> {
    if list == [] then None
    else if list[|list| - 1].id == id then Some(list[|list| - 1].pixels)
    else Lookup(list[..|list| - 1], id)
  }

  function Found(list: seq<Frame>, id: string): seq<Frame> {
    if Lookup(list, id).None? then list else Without(list, id) + [Frame(id, Lookup(list, id).value)]
  }

  // ----- What the list operations come to -----

  /** What is kept is the longest run of most recently used frames that fits beside the new one. */
  lemma {:induction false} KeepsTheLongestThatFits(list: seq<Frame>, size: nat, maxEntries: nat, maxBytes: nat)
    requires maxEntries > 0 && size <= maxBytes
    ensures var kept := Evicted(list, size, maxEntries, maxBytes);
      && |kept| <= |list| && kept == list[|list| - |kept|..]
      && FitsBeside(kept, size, maxEntries, maxBytes)
      && forall k :: 0 <= k < |list| - |kept| ==> !FitsBeside(list[k..], size, maxEntries, maxBytes)
  {
    if list != [] && !FitsBeside(list, size, maxEntries, maxBytes) {
      KeepsTheLongestThatFits(list[1..], size, maxEntries, maxBytes);
      var kept := Evicted(list, size, maxEntries, maxBytes);
      forall k | 0 <= k < |list| - |kept| ensures !FitsBeside(list[k..], size, maxEntries, maxBytes) {
        if k == 0 { assert list[0..] == list; } else { assert list[1..][k - 1..] == list[k..]; }
      }
    }
  }

  lemma {:induction false} WithoutHas(list: seq<Frame>, id: string, f: Frame)
    ensures f in Without(list, id) <==> f in list && f.id != id
  {
    if list != [] {
      var rest := list[..|list| - 1];
      WithoutHas(rest, id, f);
      assert list == rest + [list[|list| - 1]];
    }
  }

  lemma {:induction false} WithoutShrinks(list: seq<Frame>, id: string)
    ensures |Without(list, id)| <= |list| && Bytes(Without(list, id)) <= Bytes(list)
  {
    if list != [] {
      var rest := list[..|list| - 1];
      WithoutShrinks(rest, id);
      BytesAndLast(Without(rest, id), list[|list| - 1]);
    }
  }

  lemma BytesAndLast(list: seq<Frame>, frame: Frame)
    ensures Bytes(list + [frame]) == Bytes(list) + |frame.pixels.rgba|
  {
    assert (list + [frame])[..|list|] == list;
  }

  lemma WithoutForgets(list: seq<Frame>, id: string)
    ensures |Without(list, id)| <= |list| && Bytes(Without(list, id)) <= Bytes(list)
    ensures forall f <- Without(list, id) :: f in list && f.id != id
  {
    hide Without;
    WithoutShrinks(list, id);
    forall f <- Without(list, id) ensures f in list && f.id != id { WithoutHas(list, id, f); }
  }

  predicate WithinBudget(list: seq<Frame>, maxEntries: nat, maxBytes: nat) {
    |list| <= maxEntries && Bytes(list) <= maxBytes
  }

  // ----- Runs -----

  datatype Use = Store(id: string, pixels: RgbaImage) | Find(id: string)

  function After(list: seq<Frame>, uses: seq<Use>, maxEntries: nat, maxBytes: nat): seq<Frame>
    decreases |uses|
  {
    if uses == [] then list
    else
      var next :=
        match uses[0]
        case Store(id, pixels) => Stored(list, id, pixels, maxEntries, maxBytes)
        case Find(id) => if ValidCaptureId(id) then Found(list, id) else list;
      After(next, uses[1..], maxEntries, maxBytes)
  }

  predicate NoIdTwice(list: seq<Frame>) {
    forall i, j :: 0 <= i < j < |list| ==> list[i].id != list[j].id
  }

  lemma {:induction false} WithoutKeepsOrder(list: seq<Frame>, id: string)
    requires NoIdTwice(list)
    ensures NoIdTwice(Without(list, id))
  {
    if list != [] {
      var rest := list[..|list| - 1];
      WithoutKeepsOrder(rest, id);
      WithoutForgets(rest, id);
      if list[|list| - 1].id != id {
        forall f <- Without(rest, id) ensures f.id != list[|list| - 1].id { assert f in rest; }
      }
    }
  }

  lemma LastAgain(list: seq<Frame>, frame: Frame)
    requires NoIdTwice(list) && forall f <- list :: f.id != frame.id
    ensures NoIdTwice(list + [frame])
  {
  }

  lemma {:induction false} LookupFinds(list: seq<Frame>, id: string)
    ensures Lookup(list, id).Some? ==> Frame(id, Lookup(list, id).value) in list
    ensures Lookup(list, id).None? <==> forall f <- list :: f.id != id
  {
    if list != [] { LookupFinds(list[..|list| - 1], id); }
  }

  lemma {:induction false} WithoutNothing(list: seq<Frame>, id: string)
    requires Lookup(list, id).None?
    ensures Without(list, id) == list
  {
    if list != [] { WithoutNothing(list[..|list| - 1], id); }
  }

  /** A list without one frame weighs that much less. */
  lemma {:induction false} WithoutWeighs(list: seq<Frame>, id: string)
    requires NoIdTwice(list)
    ensures Lookup(list, id).None? ==> Without(list, id) == list
    ensures Lookup(list, id).Some? ==>
              |Without(list, id)| == |list| - 1 && Bytes(Without(list, id)) + |Lookup(list, id).value.rgba| == Bytes(list)
  {
    if Lookup(list, id).None? {
      WithoutNothing(list, id);
    } else {
      var rest := list[..|list| - 1];
      var last := list[|list| - 1];
      if last.id == id {
        LastIsOnly(list);
        WithoutNothing(rest, id);
      } else {
        WithoutWeighs(rest, id);
        BytesAndLast(Without(rest, id), last);
      }
    }
  }

  lemma LastIsOnly(list: seq<Frame>)
    requires NoIdTwice(list) && list != []
    ensures Lookup(list[..|list| - 1], list[|list| - 1].id).None?
  {
    hide Lookup;
    LookupFinds(list[..|list| - 1], list[|list| - 1].id);
  }

  lemma StoreKeeps(list: seq<Frame>, id: string, pixels: RgbaImage, maxEntries: nat, maxBytes: nat)
    requires NoIdTwice(list) && WithinBudget(list, maxEntries, maxBytes)
    ensures var next := Stored(list, id, pixels, maxEntries, maxBytes);
      NoIdTwice(next) && WithinBudget(next, maxEntries, maxBytes)
  {
    if Storable(id, pixels, maxEntries, maxBytes) {
      var rest := Without(list, id);
      var kept := Evicted(rest, |pixels.rgba|, maxEntries, maxBytes);
      WithoutKeepsOrder(list, id);
      WithoutForgets(list, id);
      KeepsTheLongestThatFits(rest, |pixels.rgba|, maxEntries, maxBytes);
      LastAgain(kept, Frame(id, pixels));
      BytesAndLast(kept, Frame(id, pixels));
    }
  }

  lemma FindKeeps(list: seq<Frame>, id: string, maxEntries: nat, maxBytes: nat)
    requires NoIdTwice(list) && WithinBudget(list, maxEntries, maxBytes)
    ensures NoIdTwice(Found(list, id)) && WithinBudget(Found(list, id), maxEntries, maxBytes)
    ensures multiset(Found(list, id)) == multiset(list)
  {
    if Lookup(list, id).Some? {
      var frame := Frame(id, Lookup(list, id).value);
      WithoutKeepsOrder(list, id);
      WithoutForgets(list, id);
      WithoutWeighs(list, id);
      LastAgain(Without(list, id), frame);
      BytesAndLast(Without(list, id), frame);
      SameFrames(list, id);
    }
  }

  lemma {:induction false} SameFrames(list: seq<Frame>, id: string)
    requires NoIdTwice(list) && Lookup(list, id).Some?
    ensures multiset(Without(list, id) + [Frame(id, Lookup(list, id).value)]) == multiset(list)
  {
    var rest := list[..|list| - 1];
    assert list == rest + [list[|list| - 1]];
    if list[|list| - 1].id == id {
      LookupFinds(rest, id);
      WithoutWeighs(rest, id);
    } else {
      SameFrames(rest, id);
    }
  }

  /** Over every run of stores and finds both limits hold and no capture is kept twice. */
  lemma {:induction false} RunKeepsBudget(list: seq<Frame>, uses: seq<Use>, maxEntries: nat, maxBytes: nat)
    requires NoIdTwice(list) && WithinBudget(list, maxEntries, maxBytes)
    ensures var last := After(list, uses, maxEntries, maxBytes); NoIdTwice(last) && WithinBudget(last, maxEntries, maxBytes)
    decreases |uses|
  {
    hide NoIdTwice, WithinBudget, Stored, Found, ValidCaptureId;
    if uses != [] {
      match uses[0] {
        case Store(id, pixels) =>
          StoreKeeps(list, id, pixels, maxEntries, maxBytes);
          RunKeepsBudget(Stored(list, id, pixels, maxEntries, maxBytes), uses[1..], maxEntries, maxBytes);
        case Find(id) =>
          FindKeeps(list, id, maxEntries, maxBytes);
          RunKeepsBudget(if ValidCaptureId(id) then Found(list, id) else list, uses[1..], maxEntries, maxBytes);
      }
    }
  }

  // ----- A map of frames with their order -----

  datatype Entry = Entry(pixels: RgbaImage, lastUsed: nat)

  type Entries = map<string, Entry>

  function FramesOf(order: seq<string>, entries: Entries): seq<Frame>
    requires forall id <- order :: id in entries
  {
    seq(|order|, i requires 0 <= i < |order| => Frame(order[i], entries[order[i]].pixels))
  }

  /** `order` lists the keys by the time they were last used. */
  ghost predicate Ordered(order: seq<string>, entries: Entries) {
    && (forall id <- order :: id in entries)
    && (forall id <- entries :: id in order)
    && (forall i, j :: 0 <= i < j < |order| ==> entries[order[i]].lastUsed < entries[order[j]].lastUsed)
  }

  function Keyless(order: seq<string>, id: string): seq<string> {
    if order == [] then []
    else
      var rest := Keyless(order[..|order| - 1], id);
      if order[|order| - 1] == id then rest else rest + [order[|order| - 1]]
  }

  lemma {:induction false} LooksUp(order: seq<string>, entries: Entries, id: string)
    requires forall k <- order :: k in entries
    ensures Lookup(FramesOf(order, entries), id) == if id in order then Some(entries[id].pixels) else None
  {
    if order != [] {
      var last := |order| - 1;
      LooksUp(order[..last], entries, id);
      assert FramesOf(order, entries)[..last] == FramesOf(order[..last], entries);
    }
  }

  lemma OrderedFrames(order: seq<string>, entries: Entries)
    requires Ordered(order, entries)
    ensures NoIdTwice(FramesOf(order, entries))
  {
    forall i, j | 0 <= i < j < |order| ensures order[i] != order[j] {
      assert entries[order[i]].lastUsed < entries[order[j]].lastUsed;
    }
  }

  lemma {:induction false} KeylessKeys(order: seq<string>, id: string)
    ensures forall k :: k in Keyless(order, id) <==> k in order && k != id
  {
    if order != [] { KeylessKeys(order[..|order| - 1], id); }
  }

  lemma {:induction false} KeylessFrames(order: seq<string>, entries: Entries, id: string)
    requires forall k <- order :: k in entries
    ensures forall k <- Keyless(order, id) :: k in entries - {id}
    ensures FramesOf(Keyless(order, id), entries - {id}) == Without(FramesOf(order, entries), id)
  {
    KeylessKeys(order, id);
    if order != [] {
      hide Keyless, Without;
      var last := |order| - 1;
      KeylessFrames(order[..last], entries, id);
      assert FramesOf(order, entries)[..last] == FramesOf(order[..last], entries);
      KeylessKeys(order[..last], id);
      KeylessStep(order, entries, id);
    }
  }

  lemma KeylessStep(order: seq<string>, entries: Entries, id: string)
    requires order != [] && forall k <- order :: k in entries
    requires forall k <- Keyless(order[..|order| - 1], id) :: k in entries - {id}
    requires forall k <- Keyless(order, id) :: k in entries - {id}
    requires FramesOf(Keyless(order[..|order| - 1], id), entries - {id})
          == Without(FramesOf(order, entries)[..|order| - 1], id)
    ensures FramesOf(Keyless(order, id), entries - {id}) == Without(FramesOf(order, entries), id)
  {
  }

  lemma {:induction false} KeylessOrdered(order: seq<string>, entries: Entries, id: string, i: nat, j: nat)
    requires forall k <- order :: k in entries
    requires forall i, j :: 0 <= i < j < |order| ==> entries[order[i]].lastUsed < entries[order[j]].lastUsed
    requires i < j < |Keyless(order, id)|
    ensures Keyless(order, id)[i] in entries && Keyless(order, id)[j] in entries
    ensures entries[Keyless(order, id)[i]].lastUsed < entries[Keyless(order, id)[j]].lastUsed
    decreases |order|
  {
    KeylessKeys(order, id);
    var last := |order| - 1;
    var rest := Keyless(order[..last], id);
    if order[last] != id && j == |rest| {
      KeylessKeys(order[..last], id);
      assert rest[i] in order[..last];
    } else {
      KeylessOrdered(order[..last], entries, id, i, j);
    }
  }

  /** Without one key the rest stands as it stood. */
  lemma Erases(order: seq<string>, entries: Entries, id: string)
    requires Ordered(order, entries)
    ensures Ordered(Keyless(order, id), entries - {id})
    ensures FramesOf(Keyless(order, id), entries - {id}) == Without(FramesOf(order, entries), id)
  {
    var rest := Keyless(order, id);
    KeylessKeys(order, id);
    KeylessFrames(order, entries, id);
    forall i, j | 0 <= i < j < |rest| ensures entries[rest[i]].lastUsed < entries[rest[j]].lastUsed {
      KeylessOrdered(order, entries, id, i, j);
    }
  }

  /** A key used after all others comes last. */
  lemma PutsLast(order: seq<string>, entries: Entries, id: string, entry: Entry)
    requires Ordered(order, entries) && id !in entries && forall k <- entries :: entries[k].lastUsed < entry.lastUsed
    ensures Ordered(order + [id], entries[id := entry])
    ensures FramesOf(order + [id], entries[id := entry]) == FramesOf(order, entries) + [Frame(id, entry.pixels)]
  {
    var more := entries[id := entry];
    assert order + [id] != [];
    forall i, j | 0 <= i < j < |order + [id]|
      ensures more[(order + [id])[i]].lastUsed < more[(order + [id])[j]].lastUsed
    {
      assert (order + [id])[i] == order[i];
      if j < |order| { assert (order + [id])[j] == order[j]; }
    }
  }

  lemma {:induction false} CountsKeys(order: seq<string>, entries: Entries)
    requires Ordered(order, entries)
    ensures |entries| == |order|
  {
    forall i, j | 0 <= i < j < |order| ensures order[i] != order[j] {
      assert entries[order[i]].lastUsed < entries[order[j]].lastUsed;
    }
    DistinctCount(order);
    assert entries.Keys == set k | k in order;
  }

  lemma {:induction false} DistinctCount(order: seq<string>)
    requires forall i, j :: 0 <= i < j < |order| ==> order[i] != order[j]
    ensures |set k | k in order| == |order|
  {
    if order != [] {
      var rest := order[..|order| - 1];
      DistinctCount(rest);
      assert (set k | k in order) == (set k | k in rest) + {order[|order| - 1]};
    }
  }

  lemma {:induction false} WithoutFirst(list: seq<Frame>)
    requires NoIdTwice(list) && list != []
    ensures Without(list, list[0].id) == list[1..]
  {
    var last := |list| - 1;
    if last > 0 {
      WithoutFirst(list[..last]);
    } else {
      assert Without(list[..0], list[0].id) == [];
    }
  }

  // ----- The cache -----

  class Cache {
    const maxEntries: nat
    const maxBytes: nat
    var bytes: nat
    var clock: nat
    var entries: Entries
    ghost var order: seq<string>

    /** The byte counter is the sum of the stored sizes, the stamps are distinct and both limits hold. */
    ghost predicate Valid()
      reads this
    {
      && Ordered(order, entries)
      && (forall id <- entries :: entries[id].lastUsed <= clock)
      && bytes == Bytes(FramesOf(order, entries))
      && WithinBudget(FramesOf(order, entries), maxEntries, maxBytes)
    }

    ghost function Contents(): (list: seq<Frame>)
      requires Valid()
      reads this
    {
      FramesOf(order, entries)
    }

    constructor (maxEntries: nat, maxBytes: nat)
      ensures Valid() && Contents() == [] && this.maxEntries == maxEntries && this.maxBytes == maxBytes
    {
      this.maxEntries, this.maxBytes := maxEntries, maxBytes;
      bytes, clock, entries, order := 0, 0, map[], [];
    }

    method Contains(id: string) returns (found: bool)
      requires Valid()
      ensures found <==> ValidCaptureId(id) && Lookup(Contents(), id).Some?
    {
      found := ValidCaptureId(id) && id in entries;
      LooksUp(order, entries, id);
    }

    method Find(id: string) returns (pixels: Option<RgbaImage>)
      requires Valid()
      modifies this
      ensures Valid()
      ensures pixels == if ValidCaptureId(id) then Lookup(old(Contents()), id) else None
      ensures Contents() == if ValidCaptureId(id) then Found(old(Contents()), id) else old(Contents())
    {
      hide Ordered, WithinBudget, Found, Lookup, Without, Keyless, Bytes, NoIdTwice, FramesOf, ValidCaptureId;
      if !ValidCaptureId(id) { return None; }
      Knows(order, entries, id);
      if id !in entries {
        FoundNothing(Contents(), id);
        return None;
      }
      ghost var list := Contents();
      FindKeeps(list, id, maxEntries, maxBytes);
      BytesOfFound(list, id);
      Erases(order, entries, id);
      var stamped := Entry(entries[id].pixels, clock + 1);
      PutsLast(Keyless(order, id), entries - {id}, id, stamped);
      FoundSomething(list, id);
      assert (entries - {id})[id := stamped] == entries[id := stamped];
      pixels := Some(stamped.pixels);
      clock := clock + 1;
      entries := entries[id := stamped];
      order := Keyless(order, id) + [id];
    }

    /** The entry used longest ago. */
    method Oldest() returns (id: string)
      requires Valid() && entries != map[]
      ensures order != [] && id == order[0]
    {
      var left := entries.Keys;
      id :| id in left;
      left := left - {id};
      while left != {}
        invariant left <= entries.Keys && id in entries
        invariant forall k <- entries :: k in left || entries[id].lastUsed <= entries[k].lastUsed
        decreases |left|
      {
        var k :| k in left;
        left := left - {k};
        if entries[k].lastUsed < entries[id].lastUsed { id := k; }
      }
      assert order[0] in entries;
      ghost var i :| 0 <= i < |order| && order[i] == id;
    }

    method Erase(id: string)
      requires Valid() && id in entries
      modifies `bytes, `entries, `order
      ensures Valid() && Contents() == Without(old(Contents()), id)
    {
      hide Ordered, Lookup, Without, Keyless, Bytes, NoIdTwice, FramesOf;
      ghost var list := Contents();
      Knows(order, entries, id);
      WithoutWeighs(list, id);
      WithoutForgets(list, id);
      Erases(order, entries, id);
      bytes := bytes - |entries[id].pixels.rgba|;
      order := Keyless(order, id);
      entries := entries - {id};
    }

    /** Makes room: the least recently used go until a frame of `size` bytes fits. */
    method MakeRoom(size: nat)
      requires Valid()
      modifies `bytes, `entries, `order
      ensures Valid() && Contents() == Evicted(old(Contents()), size, maxEntries, maxBytes)
    {
      hide Ordered, WithinBudget;
      ghost var goal := Evicted(Contents(), size, maxEntries, maxBytes);
      CountsKeys(order, entries);
      while entries != map[] && (|entries| >= maxEntries || bytes + size > maxBytes)
        invariant Valid() && Evicted(Contents(), size, maxEntries, maxBytes) == goal && |entries| == |Contents()|
        decreases |entries|
      {
        OrderedFrames(order, entries);
        WithoutFirst(Contents());
        var oldest := Oldest();
        IsFirst(order, entries);
        Erase(oldest);
        CountsKeys(order, entries);
      }
    }

    /** Adds a frame that fits as the most recently used one. */
    method Append(id: string, pixels: RgbaImage)
      requires Valid() && id !in entries && FitsBeside(Contents(), |pixels.rgba|, maxEntries, maxBytes)
      modifies this
      ensures Valid() && Contents() == old(Contents()) + [Frame(id, pixels)]
    {
      hide Ordered;
      PutsLast(order, entries, id, Entry(pixels, clock + 1));
      BytesAndLast(Contents(), Frame(id, pixels));
      clock := clock + 1;
      entries := entries[id := Entry(pixels, clock)];
      bytes := bytes + |pixels.rgba|;
      order := order + [id];
    }

    /** Stores a frame, or leaves everything as it was. */
    method Store(id: string, pixels: RgbaImage) returns (ok: bool)
      requires Valid()
      modifies this
      ensures Valid()
      ensures ok <==> Storable(id, pixels, maxEntries, maxBytes)
      ensures Contents() == Stored(old(Contents()), id, pixels, maxEntries, maxBytes)
      ensures !ok ==> entries == old(entries) && bytes == old(bytes) && clock == old(clock)
    {
      hide Ordered, ValidCaptureId, FitsBeside, WithinBudget, Evicted, FramesOf;
      if !ValidCaptureId(id) { return false; }
      var expected := CheckedRgbaSize(pixels.width, pixels.height);
      if expected.None? || |pixels.rgba| != expected.value { return false; }
      if maxEntries == 0 || expected.value > maxBytes { return false; }
      ghost var list := Contents();
      Knows(order, entries, id);
      WithoutWeighs(list, id);
      WithoutForgets(list, id);
      if id in entries { Erase(id); }
      MakeRoom(expected.value);
      KeepsTheLongestThatFits(Without(list, id), expected.value, maxEntries, maxBytes);
      Knows(order, entries, id);
      LookupFinds(Contents(), id);
      Append(id, pixels);
      ok := true;
    }
  }

  /** Under distinct stamps the list knows exactly the keys of the map. */
  lemma Knows(order: seq<string>, entries: Entries, id: string)
    requires Ordered(order, entries)
    ensures Ordered(order, entries) && (forall k <- order :: k in entries)
    ensures NoIdTwice(FramesOf(order, entries))
    ensures Lookup(FramesOf(order, entries), id) == if id in entries then Some(entries[id].pixels) else None
  {
    LooksUp(order, entries, id);
    OrderedFrames(order, entries);
  }

  lemma IsFirst(order: seq<string>, entries: Entries)
    requires Ordered(order, entries) && order != []
    ensures order[0] in entries && FramesOf(order, entries)[0].id == order[0]
  {
  }

  lemma FoundNothing(list: seq<Frame>, id: string)
    requires Lookup(list, id).None?
    ensures Found(list, id) == list
  {
  }

  lemma FoundSomething(list: seq<Frame>, id: string)
    requires Lookup(list, id).Some?
    ensures Found(list, id) == Without(list, id) + [Frame(id, Lookup(list, id).value)]
  {
  }

  lemma BytesOfFound(list: seq<Frame>, id: string)
    requires NoIdTwice(list)
    ensures Bytes(Found(list, id)) == Bytes(list)
  {
    WithoutWeighs(list, id);
    if Lookup(list, id).Some? { BytesAndLast(Without(list, id), Frame(id, Lookup(list, id).value)); }
  }
}
