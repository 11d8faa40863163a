module ContractOverlay {
  // What one recorded contract changes about another, and where two recordings first disagree. An overlay holds the
  // members that differ, to any depth, and marks those that are gone. Applying it is not part of the tool and stands
  // here as the meaning an overlay has: laid over the base it gives the other recording, unless it holds nulls or
  // marks of its own.

  import opened Text

  datatype Json =
    | Null
    | Number(value: int)
    | Str(text: string)
    | List(items: seq<Json>)
    | Dict(fields: map<string, Json>)

  const ABSENT := Str("<absent>")

  /** How `other` differs from `base`; null where it does not, as in the code. */
  function Overlay(base: Json, other: Json): Json
    decreases base, other, 2
  {
    if base.Dict? && other.Dict? then
      var changed := ChangesAmong(base, other, base.fields.Keys + other.fields.Keys);
      if changed == map[] then Null else Dict(changed)
    else if base == other then Null
    else other
  }

  function ChangesAmong(base: Json, other: Json, keys: set<string>): map<string, Json>
    requires base.Dict? && other.Dict? && keys <= base.fields.Keys + other.fields.Keys
    decreases base, other, 1
  {
    map key | key in keys && Changes(base, other, key) :: ChangeAt(base, other, key)
  }

  predicate Changes(base: Json, other: Json, key: string)
    requires base.Dict? && other.Dict?
    decreases base, other, 0
  {
    if key in base.fields && key in other.fields then Overlay(base.fields[key], other.fields[key]) != Null
    else key in base.fields || key in other.fields
  }

  function ChangeAt(base: Json, other: Json, key: string): Json
    requires base.Dict? && other.Dict? && (key in base.fields || key in other.fields)
    decreases base, other, 0
  {
    if key !in other.fields then ABSENT
    else if key !in base.fields then other.fields[key]
    else Overlay(base.fields[key], other.fields[key])
  }

  /** The changes carried out. */
  function Applied(base: Json, change: Json): Json {
    if change.Null? then base
    else if base.Dict? && change.Dict? then
      Dict(map key | key in base.fields.Keys + change.fields.Keys && !(key in change.fields && change.fields[key] == ABSENT) ::
        if key !in change.fields then base.fields[key]
        else if key !in base.fields then change.fields[key]
        else Applied(base.fields[key], change.fields[key]))
    else change
  }

  // ----- When the changes say it all -----

  /** Nothing in `other` is taken for something else: no null stands where it would read as no change, and
      no "<absent>" where it would read as a deletion. */
  predicate Expressible(base: Json, other: Json)
    decreases base, other, 1
  {
    if base.Dict? && other.Dict? then forall key :: key in other.fields ==> FieldExpressible(base, other, key)
    else base == other || !other.Null?
  }

  predicate FieldExpressible(base: Json, other: Json, key: string)
    requires base.Dict? && other.Dict? && key in other.fields
    decreases base, other, 0
  {
    if key !in base.fields then other.fields[key] != ABSENT
    else Expressible(base.fields[key], other.fields[key])
         && (other.fields[key] == ABSENT ==> base.fields[key] == ABSENT)
  }

  /** Carrying the changes out on `base` gives `other` exactly when it is expressible. */
  lemma {:induction false} AppliedGivesOther(base: Json, other: Json)
    ensures Applied(base, Overlay(base, other)) == other <==> Expressible(base, other)
    decreases base, other
  {
    if base.Dict? && other.Dict? {
      forall key | key in base.fields && key in other.fields
        ensures Applied(base.fields[key], Overlay(base.fields[key], other.fields[key])) == other.fields[key]
           <==> Expressible(base.fields[key], other.fields[key])
      {
        AppliedGivesOther(base.fields[key], other.fields[key]);
      }
      var after := Applied(base, Overlay(base, other));
      forall key: string
        ensures after.Dict? && (SameAt(after, other, key) <==> (key in other.fields ==> FieldExpressible(base, other, key)))
      {
        AppliedAt(base, other, key);
      }
      SameEverywhere(after, other);
    }
  }

  predicate SameAt(a: Json, b: Json, key: string)
    requires a.Dict? && b.Dict?
  {
    (key in a.fields <==> key in b.fields) && (key in a.fields && key in b.fields ==> a.fields[key] == b.fields[key])
  }

  lemma SameEverywhere(a: Json, b: Json)
    requires a.Dict? && b.Dict?
    ensures a == b <==> forall key: string :: SameAt(a, b, key)
  {
    if forall key: string :: SameAt(a, b, key) {
      forall key ensures key in a.fields <==> key in b.fields { assert SameAt(a, b, key); }
      forall key | key in a.fields ensures a.fields[key] == b.fields[key] { assert SameAt(a, b, key); }
      assert a.fields == b.fields;
    }
  }

  /** One key of the result. */
  lemma AppliedAt(base: Json, other: Json, key: string)
    requires base.Dict? && other.Dict?
    requires key in base.fields && key in other.fields ==>
               (Applied(base.fields[key], Overlay(base.fields[key], other.fields[key])) == other.fields[key]
                <==> Expressible(base.fields[key], other.fields[key]))
    ensures var after := Applied(base, Overlay(base, other));
      after.Dict? && (SameAt(after, other, key) <==> (key in other.fields ==> FieldExpressible(base, other, key)))
  {
    hide Expressible;
    var change := Overlay(base, other);
    if change.Null? {
      NoChanges(base, other, key);
    } else {
      ChangesAre(base, other, key);
      if key in base.fields && key in other.fields { OverlayIsAbsent(base.fields[key], other.fields[key]); }
      hide Overlay;
    }
  }

  lemma NoChanges(base: Json, other: Json, key: string)
    requires base.Dict? && other.Dict? && Overlay(base, other).Null?
    ensures key in base.fields <==> key in other.fields
    ensures key in base.fields && key in other.fields ==> Overlay(base.fields[key], other.fields[key]) == Null
  {
    var keys := base.fields.Keys + other.fields.Keys;
    AmongIs(base, other, keys, key);
    assert ChangesAmong(base, other, keys) == map[];
    hide ChangesAmong, Overlay;
    if key in keys { ChangeCases(base, other, key); }
  }

  lemma AmongIs(base: Json, other: Json, keys: set<string>, key: string)
    requires base.Dict? && other.Dict? && keys <= base.fields.Keys + other.fields.Keys
    ensures key in ChangesAmong(base, other, keys) <==> key in keys && Changes(base, other, key)
  {
    hide Changes, ChangeAt;
  }

  lemma ChangeCases(base: Json, other: Json, key: string)
    requires base.Dict? && other.Dict? && key in base.fields.Keys + other.fields.Keys
    ensures key !in other.fields ==> Changes(base, other, key) && ChangeAt(base, other, key) == ABSENT
    ensures key !in base.fields ==> Changes(base, other, key) && ChangeAt(base, other, key) == other.fields[key]
    ensures key in base.fields && key in other.fields ==>
              var inner := Overlay(base.fields[key], other.fields[key]);
              ChangeAt(base, other, key) == inner && (Changes(base, other, key) <==> inner != Null)
  {
    hide Overlay;
  }

  lemma ChangesAre(base: Json, other: Json, key: string)
    requires base.Dict? && other.Dict? && !Overlay(base, other).Null?
    ensures var change := Overlay(base, other);
      && change.Dict? && (key in change.fields <==> Changes(base, other, key))
      && (key in change.fields ==> change.fields[key] == ChangeAt(base, other, key))
  {
  }

  lemma OverlayIsAbsent(base: Json, other: Json)
    ensures Overlay(base, other) == ABSENT <==> other == ABSENT && base != ABSENT
  {
  }

  /** Between plain values nothing is said exactly when nothing differs. */
  lemma {:induction false} NothingMeansEqual(base: Json, other: Json)
    requires Expressible(base, other)
    ensures Overlay(base, other) == Null <==> base == other
  {
    AppliedGivesOther(base, other);
    if base == other { NothingAgainstItself(base); }
  }

  lemma {:induction false} NothingAgainstItself(v: Json)
    ensures Overlay(v, v) == Null
  {
    if v.Dict? {
      forall key | key in v.fields ensures !Changes(v, v, key) { NothingAgainstItself(v.fields[key]); }
      NothingChanges(v, v);
    }
  }

  lemma NothingChanges(base: Json, other: Json)
    requires base.Dict? && other.Dict?
    requires forall key <- base.fields.Keys + other.fields.Keys :: !Changes(base, other, key)
    ensures Overlay(base, other) == Null
  {
    assert ChangesAmong(base, other, base.fields.Keys + other.fields.Keys) == map[];
  }

  /** No object member anywhere in it is null or the text "<absent>". */
  predicate Plain(v: Json) {
    v.Dict? ==> forall key :: key in v.fields ==> v.fields[key] != Null && v.fields[key] != ABSENT && Plain(v.fields[key])
  }

  /** What the recordings are: against a plain value that is not null itself nothing is ever lost. */
  lemma {:induction false} PlainIsExpressible(base: Json, other: Json)
    requires Plain(other) && !other.Null?
    ensures Expressible(base, other)
    decreases other
  {
    if base.Dict? && other.Dict? {
      forall key | key in other.fields ensures FieldExpressible(base, other, key) {
        if key in base.fields { PlainIsExpressible(base.fields[key], other.fields[key]); }
      }
    }
  }

  lemma OverlayRoundTrip(base: Json, other: Json)
    requires Plain(other) && !other.Null?
    ensures Applied(base, Overlay(base, other)) == other
    ensures Overlay(base, other) == Null <==> base == other
  {
    PlainIsExpressible(base, other);
    AppliedGivesOther(base, other);
    NothingMeansEqual(base, other);
  }

  /** A member that becomes null is not reported at all. */
  lemma NullIsLost()
    ensures var base, other := Dict(map["a" := Number(1)]), Dict(map["a" := Null]);
      base != other && Overlay(base, other) == Null
  {
    var base, other := Dict(map["a" := Number(1)]), Dict(map["a" := Null]);
    assert base.fields["a"] != other.fields["a"];
    forall key <- base.fields.Keys + other.fields.Keys ensures !Changes(base, other, key) { assert key == "a"; }
    NothingChanges(base, other);
  }

  /** A member that becomes the text "<absent>" is reported as one that went: two recordings that differ have
      the same overlay, and it gives back only the one without the member. */
  lemma AbsentIsTakenForGone()
    ensures var base, other, gone := Dict(map["a" := Number(1)]), Dict(map["a" := ABSENT]), Dict(map[]);
      && other != gone && Overlay(base, other) == Overlay(base, gone) == Dict(map["a" := ABSENT])
      && Applied(base, Overlay(base, other)) == gone
  {
    var base, other, gone := Dict(map["a" := Number(1)]), Dict(map["a" := ABSENT]), Dict(map[]);
    assert "a" in base.fields && "a" in other.fields && "a" !in gone.fields;
    OneChange(base, other, "a");
    OneChange(base, gone, "a");
    assert Applied(base, Dict(map["a" := ABSENT])).fields == map[];
  }

  lemma OneChange(base: Json, other: Json, key: string)
    requires base.Dict? && other.Dict? && base.fields.Keys + other.fields.Keys == {key} && Changes(base, other, key)
    ensures Overlay(base, other) == Dict(map[key := ChangeAt(base, other, key)])
  {
    hide Changes, ChangeAt;
    var changed := ChangesAmong(base, other, {key});
    assert changed == map[key := ChangeAt(base, other, key)];
    assert key in changed;
  }

  // ----- Keys in order -----

  /** One text before another, character by character. */
  predicate Less(s: string, t: string) {
    t != [] && (s == [] || s[0] < t[0] || (s[0] == t[0] && Less(s[1..], t[1..])))
  }

  lemma {:induction false} OneIsLess(s: string, t: string)
    ensures s == t || Less(s, t) || Less(t, s)
  {
    if s != [] && t != [] {
      OneIsLess(s[1..], t[1..]);
      assert s == [s[0]] + s[1..] && t == [t[0]] + t[1..];
    }
  }

  lemma {:induction false} NotItself(s: string)
    ensures !Less(s, s)
  {
    if s != [] { NotItself(s[1..]); }
  }

  lemma {:induction false} LessTwice(s: string, t: string, u: string)
    requires Less(s, t) && Less(t, u)
    ensures Less(s, u)
  {
    if s != [] && s[0] == t[0] == u[0] { LessTwice(s[1..], t[1..], u[1..]); }
  }

  function Among(list: seq<string>): set<string> {
    set key | key in list
  }

  predicate InOrder(list: seq<string>) {
    forall i, j :: 0 <= i < j < |list| ==> Less(list[i], list[j])
  }

  method LeastOf(keys: set<string>) returns (least: string)
    requires keys != {}
    ensures least in keys && forall key :: key in keys && key != least ==> Less(least, key)
  {
    least :| least in keys;
    var left, seen := keys - {least}, {least};
    while left != {}
      invariant least in seen && seen + left == keys
      invariant forall key :: key in seen && key != least ==> Less(least, key)
      decreases |left|
    {
      var key :| key in left;
      OneIsLess(key, least);
      if Less(key, least) {
        forall other | other in seen && other != least ensures Less(key, other) { LessTwice(key, least, other); }
        least := key;
      }
      left, seen := left - {key}, seen + {key};
    }
  }

  method Ordered(keys: set<string>) returns (list: seq<string>)
    ensures InOrder(list) && forall key :: key in list <==> key in keys
  {
    list := [];
    var left := keys;
    while left != {}
      invariant left <= keys && forall key :: key in list <==> key in keys - left
      invariant InOrder(list) && forall key, other :: key in list && other in left ==> Less(key, other)
      decreases |left|
    {
      hide Less;
      var least := LeastOf(left);
      list, left := list + [least], left - {least};
    }
  }

  // ----- The loop that fills the changes -----

  method OverlayOf(base: Json, other: Json) returns (change: Json)
    ensures change == Overlay(base, other)
    decreases base, other, 2
  {
    if !base.Dict? || !other.Dict? { return if base == other then Null else other; }
    var changed := ChangesOf(base, other);
    change := if changed == map[] then Null else Dict(changed);
  }

  method ChangesOf(base: Json, other: Json) returns (changed: map<string, Json>)
    requires base.Dict? && other.Dict?
    ensures changed == ChangesAmong(base, other, base.fields.Keys + other.fields.Keys)
    decreases base, other, 1
  {
    hide ChangesAmong, Overlay, Changes, ChangeAt, Less;
    var keys := Ordered(base.fields.Keys + other.fields.Keys);
    changed := map[];
    ghost var done: set<string> := {};
    NoneAmong(base, other);
    for i := 0 to |keys|
      invariant done == Among(keys[..i])
      invariant changed == ChangesAmong(base, other, done)
    {
      NotYet(keys, i);
      OneMoreKey(base, other, done, keys[i]);
      var changes, value := ChangeFor(base, other, keys[i]);
      if changes { changed := changed[keys[i] := value]; }
      done := done + {keys[i]};
    }
    assert keys[..|keys|] == keys;
    assert done == base.fields.Keys + other.fields.Keys;
  }

  lemma NoneAmong(base: Json, other: Json)
    requires base.Dict? && other.Dict?
    ensures ChangesAmong(base, other, {}) == map[]
  {
  }

  lemma NotYet(keys: seq<string>, i: nat)
    requires InOrder(keys) && i < |keys|
    ensures keys[i] !in keys[..i] && Among(keys[..i + 1]) == Among(keys[..i]) + {keys[i]}
  {
    forall j | 0 <= j < i ensures keys[j] != keys[i] { NotItself(keys[i]); }
    assert keys[..i + 1] == keys[..i] + [keys[i]];
  }

  method ChangeFor(base: Json, other: Json, key: string) returns (changes: bool, value: Json)
    requires base.Dict? && other.Dict? && key in base.fields.Keys + other.fields.Keys
    ensures changes <==> Changes(base, other, key)
    ensures changes ==> value == ChangeAt(base, other, key)
    decreases base, other, 0
  {
    hide Overlay, Changes, ChangeAt;
    ChangeCases(base, other, key);
    if key !in other.fields { return true, ABSENT; }
    if key !in base.fields { return true, other.fields[key]; }
    value := OverlayOf(base.fields[key], other.fields[key]);
    changes := value != Null;
  }

  lemma OneMoreKey(base: Json, other: Json, done: set<string>, key: string)
    requires base.Dict? && other.Dict? && done + {key} <= base.fields.Keys + other.fields.Keys && key !in done
    ensures ChangesAmong(base, other, done + {key})
         == if Changes(base, other, key) then ChangesAmong(base, other, done)[key := ChangeAt(base, other, key)]
            else ChangesAmong(base, other, done)
  {
    hide Changes, ChangeAt;
  }

  // ----- The first disagreement -----

  datatype Step = Key(name: string) | Index(i: nat)

  /** What stands at a path, if anything does. */
  function At(v: Json, path: seq<Step>): Option<Json>
    decreases |path|
  {
    if path == [] then Some(v)
    else
      match path[0]
      case Key(name) => if v.Dict? && name in v.fields then At(v.fields[name], path[1..]) else None
      case Index(i) => if v.List? && i < |v.items| then At(v.items[i], path[1..]) else None
  }

  /** `p` is met before `q`: where they part it goes to the earlier key or place. */
  predicate Before(p: seq<Step>, q: seq<Step>) {
    && p != [] && q != []
    && (if p[0] == q[0] then Before(p[1..], q[1..])
        else if p[0].Key? && q[0].Key? then Less(p[0].name, q[0].name)
        else p[0].Index? && q[0].Index? && p[0].i < q[0].i)
  }

  /** Every other path they disagree at comes later, or one of the two paths goes on from the other. */
  ghost predicate IsFirst(a: Json, b: Json, path: seq<Step>) {
    && At(a, path) != At(b, path)
    && forall q :: At(a, q) != At(b, q) ==> q <= path || path <= q || Before(path, q)
  }

  lemma FirstBelow(a: Json, b: Json, step: Step, c: Json, d: Json, path: seq<Step>)
    requires At(a, [step]) == Some(c) && At(b, [step]) == Some(d) && IsFirst(c, d, path)
    requires forall q :: q != [] && q[0] != step && At(a, q) != At(b, q) ==> Before([step], q)
    ensures IsFirst(a, b, [step] + path)
  {
    var whole := [step] + path;
    assert [step][1..] == [] && whole[1..] == path;
    forall q | At(a, q) != At(b, q) ensures q <= whole || whole <= q || Before(whole, q) {
      if q != [] && q[0] == step {
        assert q == [step] + q[1..];
        assert At(a, q) == At(c, q[1..]) && At(b, q) == At(d, q[1..]);
      }
    }
  }

  lemma FirstMissing(a: Json, b: Json, key: string)
    requires a.Dict? && b.Dict? && (key in a.fields <==> key !in b.fields)
    requires forall q :: q != [] && q[0] != Key(key) && At(a, q) != At(b, q) ==> Before([Key(key)], q)
    ensures IsFirst(a, b, [Key(key)])
  {
    assert [Key(key)][1..] == [];
  }

  /** Where all earlier keys agree, every other disagreement below another key is met later. */
  lemma KeysBefore(a: Json, b: Json, keys: seq<string>, i: nat)
    requires a.Dict? && b.Dict? && InOrder(keys) && i < |keys|
    requires forall key :: key in a.fields || key in b.fields ==> key in keys
    requires forall j :: 0 <= j < i ==>
               keys[j] in a.fields && keys[j] in b.fields && a.fields[keys[j]] == b.fields[keys[j]]
    ensures forall q :: q != [] && q[0] != Key(keys[i]) && At(a, q) != At(b, q) ==> Before([Key(keys[i])], q)
  {
    forall q: seq<Step> | q != [] && q[0] != Key(keys[i]) && At(a, q) != At(b, q) ensures Before([Key(keys[i])], q) {
      assert q[0].Key? && q[0].name in keys;
      var j :| 0 <= j < |keys| && keys[j] == q[0].name;
      assert j > i;
    }
  }

  /** The first path the two disagree at, keys in order, or None when they are equal. */
  method FirstDisagreement(a: Json, b: Json) returns (path: Option<seq<Step>>)
    ensures path.None? <==> a == b
    ensures path.Some? ==> IsFirst(a, b, path.value)
    decreases a, b, 1
  {
    if a.Dict? && b.Dict? {
      path := FirstAmongKeys(a, b);
    } else if a.List? && b.List? {
      if |a.items| != |b.items| { return Some([]); }
      path := FirstAmongItems(a, b);
    } else {
      path := if a == b then None else Some([]);
    }
  }

  method FirstAmongKeys(a: Json, b: Json) returns (path: Option<seq<Step>>)
    requires a.Dict? && b.Dict?
    ensures path.None? <==> a == b
    ensures path.Some? ==> IsFirst(a, b, path.value)
    decreases a, b, 0
  {
    hide IsFirst, Less, Before;
    var keys := Ordered(a.fields.Keys + b.fields.Keys);
    for i := 0 to |keys|
      invariant forall j :: 0 <= j < i ==>
                  keys[j] in a.fields && keys[j] in b.fields && a.fields[keys[j]] == b.fields[keys[j]]
    {
      var key := keys[i];
      assert key in keys;
      KeysBefore(a, b, keys, i);
      if key !in a.fields || key !in b.fields {
        FirstMissing(a, b, key);
        return Some([Key(key)]);
      }
      var found := FirstDisagreement(a.fields[key], b.fields[key]);
      if found.Some? {
        assert [Key(key)][1..] == [];
        FirstBelow(a, b, Key(key), a.fields[key], b.fields[key], found.value);
        return Some([Key(key)] + found.value);
      }
    }
    assert a.fields == b.fields;
    path := None;
  }

  method FirstAmongItems(a: Json, b: Json) returns (path: Option<seq<Step>>)
    requires a.List? && b.List? && |a.items| == |b.items|
    ensures path.None? <==> a == b
    ensures path.Some? ==> IsFirst(a, b, path.value)
    decreases a, b, 0
  {
    hide IsFirst;
    for i := 0 to |a.items|
      invariant forall j :: 0 <= j < i ==> a.items[j] == b.items[j]
    {
      var found := FirstDisagreement(a.items[i], b.items[i]);
      if found.Some? {
        assert [Index(i)][1..] == [];
        FirstBelow(a, b, Index(i), a.items[i], b.items[i], found.value);
        return Some([Index(i)] + found.value);
      }
    }
    path := None;
  }
}
