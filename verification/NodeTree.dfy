/** The edited scene as a tree, and what the engine does to one when a node is added, removed, moved or
    given an owner. A node is known by its id. */
module NodeTree {
  import opened Text

  datatype Node = Node(id: nat, owner: Option<nat>, children: seq<Node>)

  /** Every node of the tree, counted. */
  function Ids(n: Node): multiset<nat> {
    multiset{n.id} + IdsOf(n.children)
  }

  function IdsOf(ns: seq<Node>): multiset<nat> {
    if ns == [] then multiset{} else IdsOf(ns[..|ns| - 1]) + Ids(ns[|ns| - 1])
  }

  ghost predicate Distinct(n: Node) {
    forall x :: Ids(n)[x] <= 1
  }

  // ----- Places in the tree -----

  predicate IsPath(n: Node, path: seq<nat>) {
    path != [] ==> path[0] < |n.children| && IsPath(n.children[path[0]], path[1..])
  }

  function At(n: Node, path: seq<nat>): Node
    requires IsPath(n, path)
  {
    if path == [] then n else At(n.children[path[0]], path[1..])
  }

  /** The tree with `sub` in place of the node at `path`. */
  function Put(n: Node, path: seq<nat>, sub: Node): Node
    requires IsPath(n, path)
    decreases |path|
  {
    if path == [] then sub
    else n.(children := n.children[path[0] := Put(n.children[path[0]], path[1..], sub)])
  }

  lemma {:induction false} PutThere(n: Node, path: seq<nat>, sub: Node)
    requires IsPath(n, path)
    ensures IsPath(Put(n, path, sub), path) && At(Put(n, path, sub), path) == sub
    ensures forall other :: Put(Put(n, path, sub), path, other) == Put(n, path, other)
    ensures Put(n, path, At(n, path)) == n
    decreases |path|
  {
    if path != [] {
      var k := path[0];
      PutThere(n.children[k], path[1..], sub);
      var put := Put(n, path, sub);
      forall other ensures Put(put, path, other) == Put(n, path, other) {
        assert put.children[k := Put(put.children[k], path[1..], other)]
            == n.children[k := Put(n.children[k], path[1..], other)];
      }
      assert n.children[k := n.children[k]] == n.children;
    }
  }

  lemma PutDiffers(n: Node, path: seq<nat>, a: Node, b: Node)
    requires IsPath(n, path)
    ensures Put(n, path, a) == Put(n, path, b) <==> a == b
  {
    PutThere(n, path, a);
    PutThere(n, path, b);
  }

  // ----- Counting nodes -----

  lemma {:induction false} IdsJoin(a: seq<Node>, b: seq<Node>)
    ensures IdsOf(a + b) == IdsOf(a) + IdsOf(b)
    decreases |b|
  {
    if b == [] {
      assert a + b == a;
    } else {
      var last := |b| - 1;
      assert (a + b)[..|a + b| - 1] == a + b[..last];
      IdsJoin(a, b[..last]);
    }
  }

  lemma IdsOfOne(n: Node)
    ensures IdsOf([n]) == Ids(n)
  {
    assert [n][..0] == [];
  }

  /** One child among its siblings. */
  lemma IdsSplit(ns: seq<Node>, k: nat)
    requires k < |ns|
    ensures IdsOf(ns) == IdsOf(ns[..k]) + Ids(ns[k]) + IdsOf(ns[k + 1..])
  {
    hide IdsOf, Ids;
    assert ns == ns[..k] + ([ns[k]] + ns[k + 1..]);
    IdsJoin(ns[..k], [ns[k]] + ns[k + 1..]);
    IdsJoin([ns[k]], ns[k + 1..]);
    IdsOfOne(ns[k]);
  }

  lemma {:induction false} CountOfPut(n: Node, path: seq<nat>, sub: Node, x: nat)
    requires IsPath(n, path)
    ensures Ids(Put(n, path, sub))[x] + Ids(At(n, path))[x] == Ids(n)[x] + Ids(sub)[x]
    ensures Ids(At(n, path))[x] <= Ids(n)[x]
    decreases |path|
  {
    hide IdsOf;
    if path != [] {
      var k := path[0];
      CountOfPut(n.children[k], path[1..], sub, x);
      var put := Put(n, path, sub);
      IdsSplit(n.children, k);
      IdsSplit(put.children, k);
      assert put.children[..k] == n.children[..k] && put.children[k + 1..] == n.children[k + 1..];
    }
  }

  lemma IdsOfPut(n: Node, path: seq<nat>, sub: Node)
    requires IsPath(n, path)
    ensures Ids(At(n, path)) <= Ids(n)
    ensures Ids(Put(n, path, sub)) == Ids(n) - Ids(At(n, path)) + Ids(sub)
  {
    hide Ids;
    forall x ensures Ids(Put(n, path, sub))[x] + Ids(At(n, path))[x] == Ids(n)[x] + Ids(sub)[x]
                  && Ids(At(n, path))[x] <= Ids(n)[x] {
      CountOfPut(n, path, sub, x);
    }
  }

  // ----- What the engine does -----

  function Without(ns: seq<Node>, k: nat): seq<Node>
    requires k < |ns|
  {
    ns[..k] + ns[k + 1..]
  }

  /** A branch outside the tree: its nodes keep only owners that are above them inside the branch. */
  function Cleared(n: Node, ancestors: set<nat>): Node {
    Node(n.id, if n.owner.Some? && n.owner.value in ancestors then n.owner else None,
         seq(|n.children|, i requires 0 <= i < |n.children| => Cleared(n.children[i], ancestors + {n.id})))
  }

  /** set_owner on the node called `id`. */
  function SetOwner(n: Node, id: nat, owner: nat): Node {
    Node(n.id, if n.id == id then Some(owner) else n.owner,
         seq(|n.children|, i requires 0 <= i < |n.children| => SetOwner(n.children[i], id, owner)))
  }

  /** The calls an undo or a redo makes, in the order they were registered. */
  function SetOwners(n: Node, ids: seq<nat>, owner: nat): Node
    decreases |ids|
  {
    if ids == [] then n else SetOwners(SetOwner(n, ids[0], owner), ids[1..], owner)
  }

  // ----- All at once -----

  function Marked(n: Node, ids: set<nat>, owner: nat): Node {
    Node(n.id, if n.id in ids then Some(owner) else n.owner,
         seq(|n.children|, i requires 0 <= i < |n.children| => Marked(n.children[i], ids, owner)))
  }

  lemma {:induction false} MarkedNone(n: Node, owner: nat)
    ensures Marked(n, {}, owner) == n
  {
    forall i | 0 <= i < |n.children| ensures Marked(n.children[i], {}, owner) == n.children[i] {
      MarkedNone(n.children[i], owner);
    }
  }

  lemma {:induction false} MarkedMore(n: Node, id: nat, ids: set<nat>, owner: nat)
    ensures Marked(SetOwner(n, id, owner), ids, owner) == Marked(n, {id} + ids, owner)
  {
    forall i | 0 <= i < |n.children|
      ensures Marked(SetOwner(n.children[i], id, owner), ids, owner) == Marked(n.children[i], {id} + ids, owner)
    {
      MarkedMore(n.children[i], id, ids, owner);
    }
  }

  function Among(ids: seq<nat>): set<nat> {
    set x | x in ids
  }

  /** Owners set one call after another come to the same as all of them at once. */
  lemma {:induction false} SetOwnersMarks(n: Node, ids: seq<nat>, owner: nat)
    ensures SetOwners(n, ids, owner) == Marked(n, Among(ids), owner)
    decreases |ids|
  {
    if ids == [] {
      assert Among(ids) == {};
      MarkedNone(n, owner);
    } else {
      SetOwnersMarks(SetOwner(n, ids[0], owner), ids[1..], owner);
      assert Among(ids) == {ids[0]} + Among(ids[1..]);
      MarkedMore(n, ids[0], Among(ids[1..]), owner);
    }
  }

  lemma {:induction false} MarkedElsewhere(n: Node, ids: set<nat>, owner: nat)
    requires forall x <- ids :: x !in Ids(n)
    ensures Marked(n, ids, owner) == n
  {
    forall i | 0 <= i < |n.children| ensures Marked(n.children[i], ids, owner) == n.children[i] {
      IdsSplit(n.children, i);
      MarkedElsewhere(n.children[i], ids, owner);
    }
  }

  /** Marking nodes below `path` leaves everything else as it is. */
  lemma {:induction false} MarkedBelow(n: Node, path: seq<nat>, ids: set<nat>, owner: nat)
    requires IsPath(n, path) && Distinct(n) && forall x <- ids :: x in Ids(At(n, path))
    ensures Marked(n, ids, owner) == Put(n, path, Marked(At(n, path), ids, owner))
    decreases |path|
  {
    if path != [] {
      var k := path[0];
      var c := n.children[k];
      hide Ids, IdsOf, Distinct;
      IdsOfPut(c, path[1..], c);
      ChildIsDistinct(n, k);
      MarkedBelow(c, path[1..], ids, owner);
      forall i | 0 <= i < |n.children| && i != k ensures Marked(n.children[i], ids, owner) == n.children[i] {
        forall x <- ids ensures x !in Ids(n.children[i]) { OnlyBelow(n, i, k, x); }
        MarkedElsewhere(n.children[i], ids, owner);
      }
      forall x <- ids ensures x != n.id { NotAbove(n, k, x); }
      assert Marked(n, ids, owner).children == Put(n, path, Marked(At(n, path), ids, owner)).children;
    }
  }

  lemma ChildIsDistinct(n: Node, k: nat)
    requires Distinct(n) && k < |n.children|
    ensures Distinct(n.children[k])
  {
    IdsSplit(n.children, k);
    hide IdsOf;
    forall x ensures Ids(n.children[k])[x] <= 1 { assert Ids(n)[x] <= 1; }
  }

  lemma OnlyBelow(n: Node, i: nat, k: nat, x: nat)
    requires Distinct(n) && i < |n.children| && k < |n.children| && i != k && x in Ids(n.children[k])
    ensures x !in Ids(n.children[i])
  {
    hide IdsOf;
    assert Ids(n)[x] <= 1;
    Apart(n.children, i, k, x);
  }

  lemma NotAbove(n: Node, k: nat, x: nat)
    requires Distinct(n) && k < |n.children| && x in Ids(n.children[k])
    ensures x != n.id
  {
    hide IdsOf;
    IdsSplit(n.children, k);
    assert Ids(n)[x] <= 1;
  }

  lemma Apart(ns: seq<Node>, i: nat, k: nat, x: nat)
    requires i < |ns| && k < |ns| && i != k && IdsOf(ns)[x] <= 1 && x in Ids(ns[k])
    ensures x !in Ids(ns[i])
  {
    hide Ids, IdsOf;
    IdsSplit(ns, k);
    if i < k {
      IdsSplit(ns[..k], i);
      assert ns[..k][i] == ns[i];
    } else {
      IdsSplit(ns[k + 1..], i - k - 1);
      assert ns[k + 1..][i - k - 1] == ns[i];
    }
  }
}
