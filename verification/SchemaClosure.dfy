module SchemaClosure {
  // Standalone request schemas: the definitions a request reaches, and no others.

  import opened Text

  datatype Json =
    | Null
    | Str(text: string)
    | Other
    | Arr(items: seq<Json>)
    | Obj(fields: seq<Field>)

  /** One member of an object; keys are unique and keep their order. */
  datatype Field = Field(key: string, value: Json)

  const REF := "$ref"
  const PREFIX := "#/$defs/"
  const REQUEST := "request"

  // ----- The references in a value -----

  function Get(fields: seq<Field>, key: string): Option<Json> {
    if fields == [] then None
    else if fields[0].key == key then Some(fields[0].value)
    else Get(fields[1..], key)
  }

  /** An object's own reference: none, one, or not a string at all. A null counts as none. */
  function OwnRef(fields: seq<Field>): Option<seq<string>> {
    match Get(fields, REF)
    case None => Some([])
    case Some(Null) => Some([])
    case Some(Str(text)) => Some([text])
    case Some(_) => None
  }

  function Both(a: Option<seq<string>>, b: Option<seq<string>>): Option<seq<string>> {
    if a.Some? && b.Some? then Some(a.value + b.value) else None
  }

  /** Every reference of a value in the order the walk yields them; None when one is not a string. */
  function Refs(v: Json): Option<seq<string>> {
    match v
    case Obj(fields) => Both(OwnRef(fields), RefsOfFields(fields))
    case Arr(items) => RefsOfItems(items)
    case _ => Some([])
  }

  function RefsOfFields(fields: seq<Field>): Option<seq<string>> {
    if fields == [] then Some([]) else Both(Refs(fields[0].value), RefsOfFields(fields[1..]))
  }

  function RefsOfItems(items: seq<Json>): Option<seq<string>> {
    if items == [] then Some([]) else Both(Refs(items[0]), RefsOfItems(items[1..]))
  }

  /** A reference somewhere inside a value. */
  predicate Mentions(v: Json, ref: string) {
    match v
    case Obj(fields) =>
      Get(fields, REF) == Some(Str(ref)) || exists i :: 0 <= i < |fields| && Mentions(fields[i].value, ref)
    case Arr(items) => exists i :: 0 <= i < |items| && Mentions(items[i], ref)
    case _ => false
  }

  lemma {:induction false} WalkFindsEveryReference(v: Json, ref: string)
    requires Refs(v).Some?
    ensures ref in Refs(v).value <==> Mentions(v, ref)
  {
    match v
    case Obj(fields) => WalkFindsInFields(fields, ref);
    case Arr(items) => WalkFindsInItems(items, ref);
    case _ =>
  }

  lemma {:induction false} WalkFindsInFields(fields: seq<Field>, ref: string)
    requires RefsOfFields(fields).Some?
    ensures ref in RefsOfFields(fields).value <==> exists i :: 0 <= i < |fields| && Mentions(fields[i].value, ref)
  {
    hide Mentions;
    if fields != [] {
      WalkFindsEveryReference(fields[0].value, ref);
      WalkFindsInFields(fields[1..], ref);
      if i :| 0 <= i < |fields[1..]| && Mentions(fields[1..][i].value, ref) { assert Mentions(fields[i + 1].value, ref); }
      if i :| 0 <= i < |fields| && Mentions(fields[i].value, ref) {
        if i > 0 { assert Mentions(fields[1..][i - 1].value, ref); }
      }
    }
  }

  lemma {:induction false} WalkFindsInItems(items: seq<Json>, ref: string)
    requires RefsOfItems(items).Some?
    ensures ref in RefsOfItems(items).value <==> exists i :: 0 <= i < |items| && Mentions(items[i], ref)
  {
    hide Mentions;
    if items != [] {
      WalkFindsEveryReference(items[0], ref);
      WalkFindsInItems(items[1..], ref);
      if i :| 0 <= i < |items[1..]| && Mentions(items[1..][i], ref) { assert Mentions(items[i + 1], ref); }
      if i :| 0 <= i < |items| && Mentions(items[i], ref) {
        if i > 0 { assert Mentions(items[1..][i - 1], ref); }
      }
    }
  }

  /** A reference somewhere inside a value that is neither a string nor null. */
  predicate HoldsOddReference(v: Json) {
    match v
    case Obj(fields) =>
      || (Get(fields, REF).Some? && !Get(fields, REF).value.Str? && !Get(fields, REF).value.Null?)
      || exists i :: 0 <= i < |fields| && HoldsOddReference(fields[i].value)
    case Arr(items) => exists i :: 0 <= i < |items| && HoldsOddReference(items[i])
    case _ => false
  }

  /** The walk gives up exactly on a value with such a reference, however deep it stands. */
  lemma {:induction false} GivesUpExactlyOnOddReferences(v: Json)
    ensures Refs(v).None? <==> HoldsOddReference(v)
  {
    match v
    case Obj(fields) => GivesUpInFields(fields);
    case Arr(items) => GivesUpInItems(items);
    case _ =>
  }

  lemma {:induction false} GivesUpInFields(fields: seq<Field>)
    ensures RefsOfFields(fields).None? <==> exists i :: 0 <= i < |fields| && HoldsOddReference(fields[i].value)
  {
    hide HoldsOddReference;
    if fields != [] {
      GivesUpExactlyOnOddReferences(fields[0].value);
      GivesUpInFields(fields[1..]);
      if i :| 0 <= i < |fields[1..]| && HoldsOddReference(fields[1..][i].value) { assert HoldsOddReference(fields[i + 1].value); }
      if i :| 0 <= i < |fields| && HoldsOddReference(fields[i].value) {
        if i > 0 { assert HoldsOddReference(fields[1..][i - 1].value); }
      }
    }
  }

  lemma {:induction false} GivesUpInItems(items: seq<Json>)
    ensures RefsOfItems(items).None? <==> exists i :: 0 <= i < |items| && HoldsOddReference(items[i])
  {
    hide HoldsOddReference;
    if items != [] {
      GivesUpExactlyOnOddReferences(items[0]);
      GivesUpInItems(items[1..]);
      if i :| 0 <= i < |items[1..]| && HoldsOddReference(items[1..][i]) { assert HoldsOddReference(items[i + 1]); }
      if i :| 0 <= i < |items| && HoldsOddReference(items[i]) {
        if i > 0 { assert HoldsOddReference(items[1..][i - 1]); }
      }
    }
  }

  // ----- Closed sets of definitions -----

  /** The definition a reference names when it is local and well formed. */
  function Local(ref: string): Option<string> {
    if PREFIX <= ref && ref != PREFIX && '/' !in ref[|PREFIX|..] then Some(ref[|PREFIX|..]) else None
  }

  /** A reference names a definition exactly when it is `#/$defs/` and a name that is neither empty nor a path. */
  lemma LocalIs(ref: string, name: string)
    ensures Local(ref) == Some(name) <==> ref == "#/$defs/" + name && name != "" && '/' !in name
  {
    if PREFIX <= ref { assert ref == PREFIX + ref[|PREFIX|..]; }
    if ref == PREFIX + name { assert ref[|PREFIX|..] == name; }
  }

  type Definitions = map<string, Json>

  /** Every reference of `v` names a member of `names`. */
  predicate ResolvesIn(v: Json, names: set<string>) {
    Refs(v).Some? && AllIn(Refs(v).value, names)
  }

  predicate AllIn(refs: seq<string>, names: set<string>) {
    forall ref <- refs :: Local(ref).Some? && Local(ref).value in names
  }

  /** A set of definitions the request and its own members can do with. */
  predicate Closed(names: set<string>, request: Json, definitions: Definitions) {
    && (forall name <- names :: name in definitions && definitions[name].Obj? && name != REQUEST)
    && ResolvesIn(request, names)
    && (forall name <- names :: ResolvesIn(definitions[name], names))
  }

  datatype Reason = NotAString | NotLocal | Recursive | Missing

  datatype Closure = Reaches(names: set<string>) | Rejected(reason: Reason)

  /** The references a value still has to have followed. */
  predicate Followed(v: Json, pending: seq<string>, reachable: set<string>) {
    Refs(v).Some? && forall ref <- Refs(v).value :: ref in pending || (Local(ref).Some? && Local(ref).value in reachable)
  }

  /** What the loop keeps: the definitions reached are ones there are, all they refer to is reached or waits,
      and no closed set can do without any of it. */
  ghost predicate Underway(request: Json, definitions: Definitions, pending: seq<string>, reachable: set<string>) {
    && (forall name <- reachable :: name in definitions && definitions[name].Obj? && name != REQUEST)
    && Followed(request, pending, reachable)
    && (forall name <- reachable :: Followed(definitions[name], pending, reachable))
    && (forall names :: Closed(names, request, definitions) ==> reachable <= names && AllIn(pending, names))
  }

  /** The worklist. It succeeds exactly when some closed set exists, cycles or not, and then finds the
      least one: what the request reaches. */
  method Standalone(request: Json, definitions: Definitions) returns (closure: Closure)
    ensures closure.Reaches? ==> Closed(closure.names, request, definitions)
    ensures closure.Reaches? ==> forall names :: Closed(names, request, definitions) ==> closure.names <= names
    ensures closure.Rejected? ==> forall names :: !Closed(names, request, definitions)
  {
    hide Refs, Local, Closed, Underway;
    var reachable: set<string> := {};
    var first := Refs(request);
    Begins(request, definitions);
    if first.None? { return Rejected(NotAString); }
    var pending := first.value;
    while pending != []
      invariant Underway(request, definitions, pending, reachable)
      decreases |definitions.Keys - reachable|, |pending|
    {
      ghost var before := pending;
      var ref := pending[|pending| - 1];
      pending := pending[..|pending| - 1];
      assert before == pending + [ref];
      var name := Local(ref);
      CannotClose(request, definitions, before, ref, reachable);
      if name.None? { return Rejected(NotLocal); }
      if name.value == REQUEST { return Rejected(Recursive); }
      if name.value in reachable {
        IsKnown(request, definitions, pending, ref, reachable);
        continue;
      }
      if name.value !in definitions || !definitions[name.value].Obj? { return Rejected(Missing); }
      var more := Refs(definitions[name.value]);
      if more.None? { return Rejected(NotAString); }
      Shrinks(definitions.Keys, reachable, name.value);
      IsReached(request, definitions, pending, ref, reachable);
      reachable := reachable + {name.value};
      pending := pending + more.value;
    }
    IsLeast(request, definitions, reachable);
    closure := Reaches(reachable);
  }

  lemma Begins(request: Json, definitions: Definitions)
    ensures Refs(request).None? ==> forall names :: !Closed(names, request, definitions)
    ensures Refs(request).Some? ==> Underway(request, definitions, Refs(request).value, {})
  {
    hide Refs, Local;
  }

  /** A reference nothing can follow. */
  predicate DeadEnd(ref: string, definitions: Definitions) {
    || Local(ref).None? || Local(ref).value == REQUEST || Local(ref).value !in definitions
    || !definitions[Local(ref).value].Obj? || Refs(definitions[Local(ref).value]).None?
  }

  lemma CannotClose(request: Json, definitions: Definitions, pending: seq<string>, ref: string, reachable: set<string>)
    requires Underway(request, definitions, pending, reachable) && ref in pending
    ensures DeadEnd(ref, definitions) ==> forall names :: !Closed(names, request, definitions)
  {
    hide Refs, Local;
    forall names | Closed(names, request, definitions) ensures !DeadEnd(ref, definitions) {
      assert AllIn(pending, names);
      assert ResolvesIn(definitions[Local(ref).value], names);
    }
  }

  lemma IsKnown(request: Json, definitions: Definitions, pending: seq<string>, ref: string, reachable: set<string>)
    requires Underway(request, definitions, pending + [ref], reachable) && Local(ref).Some? && Local(ref).value in reachable
    ensures Underway(request, definitions, pending, reachable)
  {
    hide Refs, Local, Closed, Followed;
    AllFollowed(request, definitions, pending + [ref], pending, ref, reachable, reachable);
    forall names | Closed(names, request, definitions) ensures AllIn(pending, names) { AllInFront(pending, [ref], names); }
  }

  lemma AllInFront(a: seq<string>, b: seq<string>, names: set<string>)
    requires AllIn(a + b, names)
    ensures AllIn(a, names)
  {
    forall r <- a ensures r in a + b {}
  }

  lemma IsReached(request: Json, definitions: Definitions, pending: seq<string>, ref: string, reachable: set<string>)
    requires Underway(request, definitions, pending + [ref], reachable)
    requires Local(ref).Some? && Local(ref).value in definitions && definitions[Local(ref).value].Obj?
    requires Local(ref).value != REQUEST && Local(ref).value !in reachable && Refs(definitions[Local(ref).value]).Some?
    ensures var name := Local(ref).value;
      Underway(request, definitions, pending + Refs(definitions[name]).value, reachable + {name})
  {
    hide Refs, Local, Closed, Followed, AllIn;
    var more := Refs(definitions[Local(ref).value]).value;
    AllFollowed(request, definitions, pending + [ref], pending + more, ref, reachable, reachable + {Local(ref).value});
    EveryClosedSet(request, definitions, pending, ref, reachable, more);
  }

  lemma IsLeast(request: Json, definitions: Definitions, reachable: set<string>)
    requires Underway(request, definitions, [], reachable)
    ensures Closed(reachable, request, definitions)
    ensures forall names :: Closed(names, request, definitions) ==> reachable <= names
  {
    hide Refs, Local;
  }


  /** Following one reference leaves no other one behind. */
  lemma FollowedOn(v: Json, before: seq<string>, after: seq<string>, ref: string, known: set<string>, reachable: set<string>)
    requires Followed(v, before, known) && known <= reachable && Local(ref).Some? && Local(ref).value in reachable
    requires forall r <- before :: r == ref || r in after
    ensures Followed(v, after, reachable)
  {
  }

  lemma AllFollowed(request: Json, definitions: Definitions, before: seq<string>, after: seq<string>, ref: string,
                    known: set<string>, reachable: set<string>)
    requires forall name <- reachable :: name in definitions
    requires Followed(request, before, known)
    requires forall name <- known :: name in definitions && Followed(definitions[name], before, known)
    requires known <= reachable && Local(ref).Some? && Local(ref).value in reachable
    requires reachable <= known + {Local(ref).value}
    requires Local(ref).value !in known ==>
               Refs(definitions[Local(ref).value]).Some?
               && forall r <- Refs(definitions[Local(ref).value]).value :: r in after
    requires forall r <- before :: r == ref || r in after
    ensures Followed(request, after, reachable)
    ensures forall name <- reachable :: Followed(definitions[name], after, reachable)
  {
    hide Local, Refs;
    FollowedOn(request, before, after, ref, known, reachable);
    forall name <- reachable ensures Followed(definitions[name], after, reachable) {
      if name in known { FollowedOn(definitions[name], before, after, ref, known, reachable); }
    }
  }

  lemma Shrinks(all: set<string>, known: set<string>, name: string)
    requires name in all && name !in known
    ensures |all - (known + {name})| < |all - known|
  {
    assert all - known == (all - (known + {name})) + {name};
  }

  /** A set that can do with what was known can do with what the reference names. */
  lemma EveryClosedSet(request: Json, definitions: Definitions, pending: seq<string>, ref: string, known: set<string>,
                       more: seq<string>)
    requires Local(ref).Some? && Local(ref).value in definitions && Refs(definitions[Local(ref).value]) == Some(more)
    requires forall names :: Closed(names, request, definitions) ==> known <= names && AllIn(pending + [ref], names)
    ensures forall names :: Closed(names, request, definitions) ==>
              known + {Local(ref).value} <= names && AllIn(pending + more, names)
  {
    hide Local, Refs;
    forall names | Closed(names, request, definitions)
      ensures known + {Local(ref).value} <= names && AllIn(pending + more, names)
    {
      assert AllIn(pending + [ref], names);
      assert ref in pending + [ref];
      forall r <- pending ensures r in pending + [ref] {}
      assert ResolvesIn(definitions[Local(ref).value], names);
    }
  }

  // ----- What is emitted -----

  /** The definitions that go with the request. */
  function Emitted(names: set<string>, definitions: Definitions): Definitions
    requires forall name <- names :: name in definitions
  {
    map name | name in names :: definitions[name]
  }

  /** Every reference anywhere in the emitted schema resolves inside it. */
  lemma EmittedIsSelfContained(names: set<string>, request: Json, definitions: Definitions, ref: string)
    requires Closed(names, request, definitions)
    requires Mentions(request, ref) || exists name :: name in names && Mentions(definitions[name], ref)
    ensures Local(ref).Some? && Local(ref).value in Emitted(names, definitions)
  {
    hide Local, Refs, Mentions;
    if Mentions(request, ref) {
      WalkFindsEveryReference(request, ref);
    } else {
      var name :| name in names && Mentions(definitions[name], ref);
      assert ResolvesIn(definitions[name], names);
      WalkFindsEveryReference(definitions[name], ref);
    }
  }

  /** A chain of references from the request to a definition. */
  ghost predicate Chain(path: seq<string>, request: Json, definitions: Definitions) {
    && path != [] && MentionsName(request, path[0])
    && forall i :: 0 <= i < |path| - 1 ==> path[i] in definitions && MentionsName(definitions[path[i]], path[i + 1])
  }

  ghost predicate MentionsName(v: Json, name: string) {
    exists ref :: Mentions(v, ref) && Local(ref) == Some(name)
  }

  /** Every definition kept is really reached: taking the unreached ones out would still leave a closed
      set, and the one found is the least. */
  lemma EveryNameIsReached(names: set<string>, request: Json, definitions: Definitions)
    requires Closed(names, request, definitions)
    requires forall other :: Closed(other, request, definitions) ==> names <= other
    ensures forall name <- names :: exists path :: Chain(path, request, definitions) && path[|path| - 1] == name
  {
    var reached := set name | name in names && Reached(name, request, definitions);
    ReachedIsClosed(names, reached, request, definitions);
    assert names <= reached;
    forall name <- names ensures exists path :: Chain(path, request, definitions) && path[|path| - 1] == name {
      assert Reached(name, request, definitions);
    }
  }

  ghost predicate Reached(name: string, request: Json, definitions: Definitions) {
    exists path :: Chain(path, request, definitions) && path[|path| - 1] == name
  }

  lemma ReachedIsClosed(names: set<string>, reached: set<string>, request: Json, definitions: Definitions)
    requires Closed(names, request, definitions)
    requires reached == set name | name in names && Reached(name, request, definitions)
    ensures Closed(reached, request, definitions)
  {
    hide Local, Refs, Mentions;
    forall ref <- Refs(request).value ensures Local(ref).value in reached {
      WalkFindsEveryReference(request, ref);
      var name := Local(ref).value;
      assert MentionsName(request, name);
      assert Chain([name], request, definitions) && [name][0] == name;
    }
    forall source <- reached ensures ResolvesIn(definitions[source], reached) {
      assert ResolvesIn(definitions[source], names);
      var path :| Chain(path, request, definitions) && path[|path| - 1] == source;
      forall ref <- Refs(definitions[source]).value ensures Local(ref).value in reached {
        WalkFindsEveryReference(definitions[source], ref);
        Extends(path, Local(ref).value, request, definitions);
      }
    }
  }

  lemma Extends(path: seq<string>, name: string, request: Json, definitions: Definitions)
    requires Chain(path, request, definitions)
    requires path[|path| - 1] in definitions && MentionsName(definitions[path[|path| - 1]], name)
    ensures Reached(name, request, definitions)
  {
    hide MentionsName;
    var longer := path + [name];
    assert Chain(longer, request, definitions) && longer[|longer| - 1] == name;
  }
}
