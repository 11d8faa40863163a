module NodeEdits {
  // Remove, reparent and duplicate with the calls they register for undo and redo.

  import opened Text
  import opened NodeTree

  // ----- Which nodes an undo gives back to the root -----

  /** The nodes of a branch that `root` owns, last child first, as a stack gives them up. */
  function OwnedBy(root: nat, n: Node): seq<nat>
  {
    (if n.owner == Some(root) then [n.id] else []) + OwnedByThese(root, n.children)
  }

  function OwnedByThese(root: nat, stack: seq<Node>): seq<nat> {
    if stack == [] then []
    else OwnedBy(root, stack[|stack| - 1]) + OwnedByThese(root, stack[..|stack| - 1])
  }

  lemma {:induction false} OwnedJoin(root: nat, below: seq<Node>, above: seq<Node>)
    ensures OwnedByThese(root, below + above) == OwnedByThese(root, above) + OwnedByThese(root, below)
    decreases |above|
  {
    if above == [] {
      assert below + above == below;
    } else {
      var rest := above[..|above| - 1];
      assert (below + above)[..|below + above| - 1] == below + rest;
      OwnedJoin(root, below, rest);
    }
  }

  method CollectNodesOwnedBy(root: nat, node: Node) returns (owned: seq<nat>)
    ensures owned == OwnedBy(root, node)
  {
    owned := [];
    var pending := [node];
    OwnedJoin(root, [], [node]);
    assert [] + [node] == [node];
    while pending != []
      invariant owned + OwnedByThese(root, pending) == OwnedBy(root, node)
      decreases |IdsOf(pending)|
    {
      hide OwnedByThese;
      ghost var before := owned;
      ghost var stack := pending;
      var current := pending[|pending| - 1];
      pending := pending[..|pending| - 1];
      ghost var rest := pending;
      if current.owner == Some(root) { owned := owned + [current.id]; }
      Popped(root, before, stack);
      for i := 0 to |current.children|
        invariant pending == rest + current.children[..i]
      {
        pending := pending + [current.children[i]];
      }
      assert current.children[..|current.children|] == current.children;
      Pushed(root, owned, rest, current.children);
    }
  }

  lemma Popped(root: nat, owned: seq<nat>, stack: seq<Node>)
    requires stack != []
    ensures var current := stack[|stack| - 1];
      var rest := stack[..|stack| - 1];
      && IdsOf(stack) == IdsOf(rest) + Ids(current)
      && owned + OwnedByThese(root, stack)
         == (owned + (if current.owner == Some(root) then [current.id] else []))
            + (OwnedByThese(root, current.children) + OwnedByThese(root, rest))
  {
  }

  lemma Pushed(root: nat, owned: seq<nat>, rest: seq<Node>, children: seq<Node>)
    ensures owned + OwnedByThese(root, rest + children)
         == owned + (OwnedByThese(root, children) + OwnedByThese(root, rest))
    ensures |IdsOf(rest + children)| == |IdsOf(rest)| + |IdsOf(children)|
  {
    OwnedJoin(root, rest, children);
    IdsJoin(rest, children);
  }

  // ----- Two trees of one shape -----

  predicate SameShape(a: Node, b: Node) {
    |a.children| == |b.children| && forall i :: 0 <= i < |a.children| ==> SameShape(a.children[i], b.children[i])
  }

  /** `ids` picks out of `b` exactly the counterparts of the nodes of `a` that `root` owns. */
  predicate Picks(ids: set<nat>, a: Node, b: Node, root: nat)
    requires SameShape(a, b)
  {
    && (b.id in ids <==> a.owner == Some(root))
    && forall i :: 0 <= i < |a.children| ==> Picks(ids, a.children[i], b.children[i], root)
  }

  function Chosen(a: Node, b: Node, root: nat): set<nat>
    requires SameShape(a, b)
  {
    (if a.owner == Some(root) then {b.id} else {})
    + set i, x | 0 <= i < |a.children| && x in Chosen(a.children[i], b.children[i], root) :: x
  }

  lemma {:induction false} ChosenInside(a: Node, b: Node, root: nat)
    requires SameShape(a, b)
    ensures forall x <- Chosen(a, b, root) :: x in Ids(b)
  {
    forall i | 0 <= i < |a.children| ensures forall x <- Chosen(a.children[i], b.children[i], root) :: x in Ids(b) {
      ChosenInside(a.children[i], b.children[i], root);
      IdsSplit(b.children, i);
    }
  }

  lemma DistinctChild(n: Node, i: nat)
    requires Distinct(n) && i < |n.children|
    ensures Distinct(n.children[i])
    ensures forall x <- Ids(n.children[i]) :: x in Ids(n) && x != n.id
    ensures forall x <- Ids(n.children[i]), j :: 0 <= j < |n.children| && j != i ==> x !in Ids(n.children[j])
  {
    IdsSplit(n.children, i);
    forall x ensures Ids(n.children[i])[x] <= 1 { assert Ids(n)[x] <= 1; }
    forall x <- Ids(n.children[i]) ensures x != n.id { assert Ids(n)[x] <= 1; }
    forall x <- Ids(n.children[i]), j | 0 <= j < |n.children| && j != i ensures x !in Ids(n.children[j]) {
      assert Ids(n)[x] <= 1;
      Apart(n.children, j, i, x);
    }
  }

  lemma {:induction false} ChosenPicks(ids: set<nat>, a: Node, b: Node, root: nat)
    requires SameShape(a, b) && Distinct(b)
    requires forall x <- Ids(b) :: x in ids <==> x in Chosen(a, b, root)
    ensures Picks(ids, a, b, root)
  {
    assert b.id in Chosen(a, b, root) <==> a.owner == Some(root) by {
      forall i | 0 <= i < |a.children| ensures b.id !in Chosen(a.children[i], b.children[i], root) {
        DistinctChild(b, i);
        ChosenInside(a.children[i], b.children[i], root);
      }
    }
    forall i | 0 <= i < |a.children| ensures Picks(ids, a.children[i], b.children[i], root) {
      DistinctChild(b, i);
      forall x <- Ids(b.children[i]) ensures x in ids <==> x in Chosen(a.children[i], b.children[i], root) {
        ChosenBelow(a, b, root, i, x);
      }
      ChosenPicks(ids, a.children[i], b.children[i], root);
    }
  }

  lemma ChosenBelow(a: Node, b: Node, root: nat, i: nat, x: nat)
    requires SameShape(a, b) && Distinct(b) && i < |a.children| && x in Ids(b.children[i])
    ensures x in Chosen(a, b, root) <==> x in Chosen(a.children[i], b.children[i], root)
  {
    DistinctChild(b, i);
    forall j | 0 <= j < |a.children| && x in Chosen(a.children[j], b.children[j], root) ensures j == i {
      ChosenInside(a.children[j], b.children[j], root);
    }
  }

  lemma {:induction false} ShapeOfItself(n: Node)
    ensures SameShape(n, n)
  {
    forall i | 0 <= i < |n.children| ensures SameShape(n.children[i], n.children[i]) { ShapeOfItself(n.children[i]); }
  }

  lemma {:induction false} OwnedAreChosen(root: nat, n: Node)
    requires SameShape(n, n)
    ensures Among(OwnedBy(root, n)) == Chosen(n, n, root)
  {
    forall i | 0 <= i < |n.children|
      ensures Among(OwnedBy(root, n.children[i])) == Chosen(n.children[i], n.children[i], root)
    {
      OwnedAreChosen(root, n.children[i]);
    }
    forall x ensures x in OwnedByThese(root, n.children)
                <==> exists i :: 0 <= i < |n.children| && x in OwnedBy(root, n.children[i]) {
      OwnedByOne(root, n.children, x);
    }
    forall x ensures x in Among(OwnedBy(root, n)) <==> x in Chosen(n, n, root) {
      if i :| 0 <= i < |n.children| && x in OwnedBy(root, n.children[i]) {
        assert x in Among(OwnedBy(root, n.children[i]));
      }
      if i :| 0 <= i < |n.children| && x in Chosen(n.children[i], n.children[i], root) {
        assert x in Among(OwnedBy(root, n.children[i]));
      }
    }
  }

  lemma {:induction false} OwnedByOne(root: nat, stack: seq<Node>, x: nat)
    ensures x in OwnedByThese(root, stack) <==> exists i :: 0 <= i < |stack| && x in OwnedBy(root, stack[i])
    decreases |stack|
  {
    hide OwnedBy;
    if stack != [] {
      var rest := stack[..|stack| - 1];
      OwnedByOne(root, rest, x);
      if x in OwnedByThese(root, rest) {
        var i :| 0 <= i < |rest| && x in OwnedBy(root, rest[i]);
        assert x in OwnedBy(root, stack[i]);
      } else {
        forall i | 0 <= i < |rest| ensures x !in OwnedBy(root, stack[i]) { assert stack[i] == rest[i]; }
      }
    }
  }

  // ----- Calls on the scene -----

  datatype Call =
    | RemoveChild(parent: nat, child: nat)
    | AddChild(parent: nat, child: nat)
    | MoveChild(parent: nat, child: nat, index: nat)
    | SetOwner(node: nat, owner: nat)
    | Reparent(child: nat, parent: nat, newParent: nat)   // `parent` is the one it has when called

  /** The tree, and the branches outside it that an undo or a redo still refers to. */
  datatype Scene = Scene(tree: Node, out: map<nat, Node>)

  function IndexOf(ns: seq<Node>, id: nat): (k: nat)
    ensures k <= |ns|
    ensures forall i :: 0 <= i < k ==> ns[i].id != id
    ensures k < |ns| ==> ns[k].id == id
  {
    if ns == [] || ns[0].id == id then 0 else 1 + IndexOf(ns[1..], id)
  }

  function Dropped(ns: seq<Node>, id: nat): seq<Node> {
    var k := IndexOf(ns, id);
    if k < |ns| then Without(ns, k) else ns
  }

  function MovedTo(ns: seq<Node>, id: nat, goal: nat): seq<Node> {
    var k := IndexOf(ns, id);
    if k < |ns| && goal < |ns| then
      var rest := Without(ns, k);
      rest[..goal] + ([ns[k]] + rest[goal..])
    else ns
  }

  function Dropping(id: nat): seq<Node> -> seq<Node> {
    ns => Dropped(ns, id)
  }

  function Adding(branch: Node): seq<Node> -> seq<Node> {
    ns => ns + [branch]
  }

  function Moving(id: nat, goal: nat): seq<Node> -> seq<Node> {
    ns => MovedTo(ns, id, goal)
  }

  /** The tree with the children of node `id` changed by `f`. */
  function Update(n: Node, id: nat, f: seq<Node> -> seq<Node>): Node {
    n.(children :=
         if n.id == id then f(n.children)
         else seq(|n.children|, i requires 0 <= i < |n.children| => Update(n.children[i], id, f)))
  }

  function Find(n: Node, id: nat): Option<Node> {
    if n.id == id then Some(n) else FindIn(n.children, id)
  }

  function FindIn(ns: seq<Node>, id: nat): Option<Node> {
    if ns == [] then None
    else if Find(ns[0], id).Some? then Find(ns[0], id) else FindIn(ns[1..], id)
  }

  function Perform(s: Scene, c: Call): Scene {
    match c
    case RemoveChild(parent, child) =>
      var found := Find(s.tree, child);
      if found.None? then s
      else Scene(Update(s.tree, parent, Dropping(child)), s.out[child := Cleared(found.value, {})])
    case AddChild(parent, child) =>
      if child !in s.out then s
      else
        Scene(Update(s.tree, parent, Adding(s.out[child])), s.out - {child})
    case MoveChild(parent, child, index) => s.(tree := Update(s.tree, parent, Moving(child, index)))
    case SetOwner(node, owner) => s.(tree := NodeTree.SetOwner(s.tree, node, owner))
    case Reparent(child, parent, newParent) =>
      var found := Find(s.tree, child);
      if found.None? then s
      else s.(tree := Update(Update(s.tree, parent, Dropping(child)), newParent, Adding(found.value)))
  }

  function PerformAll(s: Scene, calls: seq<Call>): Scene
    decreases |calls|
  {
    if calls == [] then s else PerformAll(Perform(s, calls[0]), calls[1..])
  }

  function SetAll(ids: seq<nat>, owner: nat): seq<Call> {
    seq(|ids|, i requires 0 <= i < |ids| => SetOwner(ids[i], owner))
  }

  datatype Action = Action(doCalls: seq<Call>, undoCalls: seq<Call>)

  /** What a remove registers for the child at `index` of `parent`. */
  function RemoveAction(root: nat, parent: Node, index: nat): Action
    requires index < |parent.children|
  {
    var child := parent.children[index];
    Action([RemoveChild(parent.id, child.id)],
           [AddChild(parent.id, child.id), MoveChild(parent.id, child.id, index)] + SetAll(OwnedBy(root, child), root))
  }

  // ----- One call and then another -----

  lemma {:induction false} UpdateTwice(n: Node, id: nat, f: seq<Node> -> seq<Node>, g: seq<Node> -> seq<Node>,
                                       both: seq<Node> -> seq<Node>)
    requires forall ns :: both(ns) == g(f(ns))
    ensures Update(Update(n, id, f), id, g) == Update(n, id, both)
  {
    if n.id != id {
      forall i | 0 <= i < |n.children|
        ensures Update(Update(n.children[i], id, f), id, g) == Update(n.children[i], id, both)
      {
        UpdateTwice(n.children[i], id, f, g, both);
      }
    }
  }

  lemma {:induction false} UpdateElsewhere(n: Node, id: nat, f: seq<Node> -> seq<Node>)
    requires id !in Ids(n)
    ensures Update(n, id, f) == n
  {
    forall i | 0 <= i < |n.children| ensures Update(n.children[i], id, f) == n.children[i] {
      IdsSplit(n.children, i);
      UpdateElsewhere(n.children[i], id, f);
    }
  }

  lemma {:induction false} UpdateIsPut(n: Node, path: seq<nat>, f: seq<Node> -> seq<Node>)
    requires Distinct(n) && IsPath(n, path)
    ensures var there := At(n, path); Update(n, there.id, f) == Put(n, path, there.(children := f(there.children)))
    decreases |path|
  {
    if path != [] {
      var k := path[0];
      var there := At(n, path);
      HasNodeAt(n.children[k], path[1..]);
      DistinctChild(n, k);
      UpdateIsPut(n.children[k], path[1..], f);
      forall i | 0 <= i < |n.children| && i != k ensures Update(n.children[i], there.id, f) == n.children[i] {
        UpdateElsewhere(n.children[i], there.id, f);
      }
      assert Update(n, there.id, f).children == Put(n, path, there.(children := f(there.children))).children;
    }
  }

  lemma HasNodeAt(n: Node, path: seq<nat>)
    requires IsPath(n, path)
    ensures At(n, path).id in Ids(n)
  {
    IdsOfPut(n, path, At(n, path));
  }

  lemma {:induction false} FindsAt(n: Node, path: seq<nat>)
    requires Distinct(n) && IsPath(n, path)
    ensures Find(n, At(n, path).id) == Some(At(n, path))
    decreases |path|
  {
    if path != [] {
      var k := path[0];
      HasNodeAt(n.children[k], path[1..]);
      DistinctChild(n, k);
      FindsAt(n.children[k], path[1..]);
      FindsAmong(n.children, k, At(n, path).id);
    }
  }

  lemma {:induction false} FindsAmong(ns: seq<Node>, k: nat, id: nat)
    requires k < |ns| && Find(ns[k], id).Some? && forall j :: 0 <= j < |ns| && j != k ==> id !in Ids(ns[j])
    ensures FindIn(ns, id) == Find(ns[k], id)
    decreases k
  {
    hide Find, Ids;
    if k > 0 {
      FindsNothing(ns[0], id);
      FindsAmong(ns[1..], k - 1, id);
    }
  }

  lemma {:induction false} FindsNothing(n: Node, id: nat)
    requires id !in Ids(n)
    ensures Find(n, id).None?
  {
    FindsNothingIn(n.children, id);
  }

  lemma {:induction false} FindsNothingIn(ns: seq<Node>, id: nat)
    requires id !in IdsOf(ns)
    ensures FindIn(ns, id).None?
  {
    if ns != [] {
      hide Find, Ids, IdsOf;
      IdsSplit(ns, 0);
      FindsNothing(ns[0], id);
      FindsNothingIn(ns[1..], id);
    }
  }

  lemma {:induction false} PerformsSetAll(s: Scene, ids: seq<nat>, owner: nat)
    ensures PerformAll(s, SetAll(ids, owner)) == s.(tree := SetOwners(s.tree, ids, owner))
    decreases |ids|
  {
    if ids != [] {
      var calls := SetAll(ids, owner);
      assert calls[1..] == SetAll(ids[1..], owner);
      PerformsSetAll(Perform(s, calls[0]), ids[1..], owner);
    }
  }

  lemma {:induction false} PerformsBoth(s: Scene, a: seq<Call>, b: seq<Call>)
    ensures PerformAll(s, a + b) == PerformAll(PerformAll(s, a), b)
    decreases |a|
  {
    if a == [] {
      assert a + b == b;
    } else {
      assert (a + b)[1..] == a[1..] + b;
      PerformsBoth(Perform(s, a[0]), a[1..], b);
    }
  }

  // ----- Remove -----

  /** Each node is owned by the root, by nobody, or by one of its ancestors inside the branch. */
  predicate Restorable(n: Node, root: nat, ancestors: set<nat>) {
    && (n.owner.None? || n.owner.value == root || n.owner.value in ancestors)
    && forall i :: 0 <= i < |n.children| ==> Restorable(n.children[i], root, ancestors + {n.id})
  }

  lemma {:induction false} ClearedShape(n: Node, ancestors: set<nat>)
    ensures SameShape(n, Cleared(n, ancestors)) && Ids(Cleared(n, ancestors)) == Ids(n)
  {
    var c := Cleared(n, ancestors);
    forall i | 0 <= i < |n.children|
      ensures SameShape(n.children[i], c.children[i]) && Ids(c.children[i]) == Ids(n.children[i])
    {
      ClearedShape(n.children[i], ancestors + {n.id});
    }
    SameIds(n.children, c.children);
  }

  lemma {:induction false} SameIds(a: seq<Node>, b: seq<Node>)
    requires |a| == |b| && forall i :: 0 <= i < |a| ==> Ids(a[i]) == Ids(b[i])
    ensures IdsOf(a) == IdsOf(b)
    decreases |a|
  {
    hide Ids;
    if a != [] { SameIds(a[..|a| - 1], b[..|b| - 1]); }
  }

  /** Giving the root's nodes back to the root undoes what leaving the tree cleared, or it does not. */
  lemma {:induction false} MarkingRestores(n: Node, ancestors: set<nat>, ids: set<nat>, root: nat)
    requires SameShape(n, n) && Picks(ids, n, n, root)
    ensures Marked(Cleared(n, ancestors), ids, root) == n <==> Restorable(n, root, ancestors)
  {
    var m := Marked(Cleared(n, ancestors), ids, root);
    forall i | 0 <= i < |n.children|
      ensures m.children[i] == Marked(Cleared(n.children[i], ancestors + {n.id}), ids, root)
      ensures m.children[i] == n.children[i] <==> Restorable(n.children[i], root, ancestors + {n.id})
    {
      MarkingRestores(n.children[i], ancestors + {n.id}, ids, root);
    }
    assert m.children == n.children <==> forall i :: 0 <= i < |n.children| ==> m.children[i] == n.children[i];
  }

  lemma DropsAt(ns: seq<Node>, k: nat)
    requires k < |ns| && forall i :: 0 <= i < |ns| && i != k ==> ns[i].id != ns[k].id
    ensures IndexOf(ns, ns[k].id) == k && Dropped(ns, ns[k].id) == Without(ns, k)
  {
  }

  /** Taken out, added last and moved back: the branch stands where it stood. */
  lemma MovesBack(ns: seq<Node>, k: nat, branch: Node)
    requires k < |ns| && branch.id == ns[k].id && forall i :: 0 <= i < |ns| && i != k ==> ns[i].id != ns[k].id
    ensures MovedTo(Dropped(ns, branch.id) + [branch], branch.id, k) == ns[k := branch]
  {
    DropsAt(ns, k);
    var rest := Without(ns, k);
    forall i | 0 <= i < |rest| ensures rest[i].id != branch.id { assert rest[i] == if i < k then ns[i] else ns[i + 1]; }
    LastIndex(rest, branch);
    hide IndexOf, Without;
    PutsBack(ns, k, branch);
  }

  lemma PutsBack(ns: seq<Node>, k: nat, branch: Node)
    requires k < |ns|
    ensures |Without(ns, k)| == |ns| - 1
    ensures Without(ns, k)[..k] + ([branch] + Without(ns, k)[k..]) == ns[k := branch]
  {
  }

  lemma LastIndex(rest: seq<Node>, branch: Node)
    requires forall i :: 0 <= i < |rest| ==> rest[i].id != branch.id
    ensures IndexOf(rest + [branch], branch.id) == |rest| && Without(rest + [branch], |rest|) == rest
  {
    var more := rest + [branch];
    forall i | 0 <= i < |rest| ensures more[i].id != branch.id { assert more[i] == rest[i]; }
    assert more[|rest|] == branch;
  }

  lemma SiblingsDiffer(n: Node, k: nat)
    requires Distinct(n) && k < |n.children|
    ensures forall i :: 0 <= i < |n.children| && i != k ==> n.children[i].id != n.children[k].id
  {
    forall i | 0 <= i < |n.children| && i != k ensures n.children[i].id != n.children[k].id {
      DistinctChild(n, k);
      assert n.children[i].id in Ids(n.children[i]) && n.children[k].id in Ids(n.children[k]);
    }
  }

  lemma {:induction false} DistinctAt(n: Node, path: seq<nat>)
    requires Distinct(n) && IsPath(n, path)
    ensures Distinct(At(n, path)) && (path != [] ==> n.id !in Ids(At(n, path)))
    decreases |path|
  {
    if path != [] {
      DistinctChild(n, path[0]);
      DistinctAt(n.children[path[0]], path[1..]);
      IdsOfPut(n.children[path[0]], path[1..], n);
    }
  }

  lemma {:induction false} ChildPath(n: Node, path: seq<nat>, k: nat, sub: Node)
    requires IsPath(n, path) && k < |At(n, path).children|
    ensures IsPath(n, path + [k]) && At(n, path + [k]) == At(n, path).children[k]
    ensures Put(n, path + [k], sub) == Put(n, path, At(n, path).(children := At(n, path).children[k := sub]))
    decreases |path|
  {
    if path == [] {
      assert [] + [k] == [k] && [k][1..] == [];
    } else {
      assert (path + [k])[1..] == path[1..] + [k] && (path + [k])[0] == path[0];
      ChildPath(n.children[path[0]], path[1..], k, sub);
    }
  }

  /** The scene after the remove: the branch is out of the tree and nothing else has changed. */
  lemma Removes(tree: Node, out: map<nat, Node>, path: seq<nat>, index: nat)
    requires Distinct(tree) && IsPath(tree, path) && index < |At(tree, path).children|
    ensures var parent := At(tree, path);
      var branch := parent.children[index];
      PerformAll(Scene(tree, out), RemoveAction(tree.id, parent, index).doCalls)
      == Scene(Update(tree, parent.id, Dropping(branch.id)), out[branch.id := Cleared(branch, {})])
  {
    ChildPath(tree, path, index, tree);
    FindsAt(tree, path + [index]);
  }

  lemma AddsAndMovesBack(tree: Node, out: map<nat, Node>, path: seq<nat>, index: nat, branch: Node)
    requires Distinct(tree) && IsPath(tree, path) && index < |At(tree, path).children|
    requires branch.id == At(tree, path).children[index].id && branch.id !in out
    ensures IsPath(tree, path + [index])
    ensures var parent := At(tree, path);
      var removed := Update(tree, parent.id, Dropping(branch.id));
      PerformAll(Scene(removed, out[branch.id := branch]),
                 [AddChild(parent.id, branch.id), MoveChild(parent.id, branch.id, index)])
      == Scene(Put(tree, path + [index], branch), out)
  {
    hide MovedTo, Dropped, Distinct;
    var parent := At(tree, path);
    var drop, add, move := Dropping(branch.id), Adding(branch), Moving(branch.id, index);
    var dropAdd := (ns: seq<Node>) => Dropped(ns, branch.id) + [branch];
    var back := (ns: seq<Node>) => MovedTo(Dropped(ns, branch.id) + [branch], branch.id, index);
    UpdateTwice(tree, parent.id, drop, add, dropAdd);
    UpdateTwice(tree, parent.id, dropAdd, move, back);
    UpdateIsPut(tree, path, back);
    DistinctAt(tree, path);
    SiblingsDiffer(parent, index);
    MovesBack(parent.children, index, branch);
    ChildPath(tree, path, index, branch);
    AddThenMove(Update(tree, parent.id, drop), out, parent.id, branch, index);
  }

  lemma AddThenMove(tree: Node, out: map<nat, Node>, parent: nat, branch: Node, index: nat)
    requires branch.id !in out
    ensures PerformAll(Scene(tree, out[branch.id := branch]),
                       [AddChild(parent, branch.id), MoveChild(parent, branch.id, index)])
         == Scene(Update(Update(tree, parent, Adding(branch)), parent, Moving(branch.id, index)), out)
  {
    hide Update;
    var s := Scene(tree, out[branch.id := branch]);
    var s1 := Perform(s, AddChild(parent, branch.id));
    assert s1 == Scene(Update(tree, parent, Adding(branch)), out);
    var calls := [AddChild(parent, branch.id), MoveChild(parent, branch.id, index)];
    assert calls[1..] == [MoveChild(parent, branch.id, index)] && calls[1..][1..] == [];
    assert PerformAll(s, calls) == PerformAll(s1, calls[1..]);
    var s2 := Perform(s1, MoveChild(parent, branch.id, index));
    assert PerformAll(s1, calls[1..]) == PerformAll(s2, []) == s2;
    assert s2 == Scene(Update(Update(tree, parent, Adding(branch)), parent, Moving(branch.id, index)), out);
  }

  /** What the undo's set_owner calls make of the branch they find back in its place. */
  lemma GivesBack(tree: Node, path: seq<nat>, branch: Node)
    requires Distinct(tree) && IsPath(tree, path) && path != [] && At(tree, path) == branch
    ensures var put := Put(tree, path, Cleared(branch, {}));
      var undone := SetOwners(put, OwnedBy(tree.id, branch), tree.id);
      && undone == Put(tree, path, Marked(Cleared(branch, {}), Among(OwnedBy(tree.id, branch)), tree.id))
      && (undone == tree <==> Restorable(branch, tree.id, {}))
  {
    hide Distinct, Cleared, Marked, OwnedBy, Restorable, Chosen;
    var owned := OwnedBy(tree.id, branch);
    var cleared := Cleared(branch, {});
    var put := Put(tree, path, cleared);
    SetOwnersMarks(put, owned, tree.id);
    ShapeOfItself(branch);
    OwnedAreChosen(tree.id, branch);
    ClearedShape(branch, {});
    DistinctAt(tree, path);
    ChosenInside(branch, branch, tree.id);
    ChosenPicks(Among(owned), branch, branch, tree.id);
    MarkingRestores(branch, {}, Among(owned), tree.id);
    IdsOfPut(tree, path, cleared);
    assert Distinct(put) by { SameIdsDistinct(tree, put); }
    PutThere(tree, path, cleared);
    MarkedBelow(put, path, Among(owned), tree.id);
    PutDiffers(tree, path, Marked(cleared, Among(owned), tree.id), branch);
    PutThere(tree, path, branch);
  }

  lemma SameIdsDistinct(a: Node, b: Node)
    requires Distinct(a) && Ids(a) == Ids(b)
    ensures Distinct(b)
  {
    forall x ensures Ids(b)[x] <= 1 { assert Ids(a)[x] <= 1; }
  }

  /** The scene after the remove and its undo. */
  lemma UndoneIs(tree: Node, out: map<nat, Node>, path: seq<nat>, index: nat)
    requires Distinct(tree) && IsPath(tree, path) && index < |At(tree, path).children|
    requires At(tree, path).children[index].id !in out
    ensures IsPath(tree, path + [index])
    ensures var branch := At(tree, path).children[index];
      var action := RemoveAction(tree.id, At(tree, path), index);
      var removed := PerformAll(Scene(tree, out), action.doCalls);
      PerformAll(removed, action.undoCalls)
      == Scene(SetOwners(Put(tree, path + [index], Cleared(branch, {})), OwnedBy(tree.id, branch), tree.id), out)
  {
    hide Distinct, Cleared, Update, Restorable, OwnedBy;
    var parent := At(tree, path);
    var branch := parent.children[index];
    var action := RemoveAction(tree.id, parent, index);
    Removes(tree, out, path, index);
    var removed := PerformAll(Scene(tree, out), action.doCalls);
    assert Cleared(branch, {}).id == branch.id by { KeepsId(branch, {}); }
    AddsAndMovesBack(tree, out, path, index, Cleared(branch, {}));
    var back := [AddChild(parent.id, branch.id), MoveChild(parent.id, branch.id, index)];
    PerformsBoth(removed, back, SetAll(OwnedBy(tree.id, branch), tree.id));
    PerformsSetAll(PerformAll(removed, back), OwnedBy(tree.id, branch), tree.id);
  }

  /** Undoing a remove gives back the scene as it was, child order and every owner, exactly when each
      node of the branch was owned by the root, by nobody, or inside the branch. */
  lemma UndoOfRemoveRestores(tree: Node, out: map<nat, Node>, path: seq<nat>, index: nat)
    requires Distinct(tree) && IsPath(tree, path) && index < |At(tree, path).children|
    requires At(tree, path).children[index].id !in out
    ensures var branch := At(tree, path).children[index];
      var action := RemoveAction(tree.id, At(tree, path), index);
      var removed := PerformAll(Scene(tree, out), action.doCalls);
      PerformAll(removed, action.undoCalls) == Scene(tree, out) <==> Restorable(branch, tree.id, {})
  {
    hide Distinct, Cleared, Update, Restorable, OwnedBy, RemoveAction;
    var branch := At(tree, path).children[index];
    UndoneIs(tree, out, path, index);
    ChildPath(tree, path, index, branch);
    GivesBack(tree, path + [index], branch);
  }

  lemma KeepsId(n: Node, ancestors: set<nat>)
    ensures Cleared(n, ancestors).id == n.id
  {
  }
}
