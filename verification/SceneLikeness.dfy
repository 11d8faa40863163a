/** Scenes that differ in nothing but the owners of their nodes. */
module SceneLikeness {
  // Every call keeps two such scenes alike, and whether ids are distinct, and which there are, does not depend on
  // owners. What an undo cannot give back is owners and nothing else, so this is how far a history can be trusted
  // without conditions.

  import opened Text
  import opened NodeTree
  import opened NodeEdits

  /** A branch without its owners. */
  function Bare(n: Node): Node {
    Node(n.id, None, seq(|n.children|, i requires 0 <= i < |n.children| => Bare(n.children[i])))
  }

  function BareAll(ns: seq<Node>): seq<Node> {
    seq(|ns|, i requires 0 <= i < |ns| => Bare(ns[i]))
  }

  function BareOut(out: map<nat, Node>): map<nat, Node> {
    map k | k in out :: Bare(out[k])
  }

  function BareScene(s: Scene): Scene {
    Scene(Bare(s.tree), BareOut(s.out))
  }

  /** The same scene, or one that differs in owners only. */
  predicate Same(exact: bool, s: Scene, t: Scene) {
    if exact then s == t else BareScene(s) == BareScene(t)
  }

  lemma {:induction false} BareTwice(n: Node)
    ensures Bare(Bare(n)) == Bare(n)
  {
    forall i | 0 <= i < |n.children| ensures Bare(Bare(n.children[i])) == Bare(n.children[i]) {
      BareTwice(n.children[i]);
    }
    assert Bare(Bare(n)).children == Bare(n).children;
  }

  lemma BareSceneTwice(s: Scene)
    ensures BareScene(BareScene(s)) == BareScene(s)
  {
    BareTwice(s.tree);
    forall k | k in s.out ensures Bare(Bare(s.out[k])) == Bare(s.out[k]) { BareTwice(s.out[k]); }
    assert BareOut(BareOut(s.out)) == BareOut(s.out);
  }

  lemma {:induction false} BareIds(n: Node)
    ensures Ids(Bare(n)) == Ids(n)
  {
    var b := Bare(n);
    forall i | 0 <= i < |n.children| ensures Ids(b.children[i]) == Ids(n.children[i]) {
      BareIds(n.children[i]);
    }
    SameIds(n.children, b.children);
  }

  // ----- What the calls are made of -----

  lemma {:induction false} BareIndexOf(ns: seq<Node>, id: nat)
    ensures IndexOf(BareAll(ns), id) == IndexOf(ns, id)
  {
    if ns != [] {
      assert BareAll(ns)[1..] == BareAll(ns[1..]);
      BareIndexOf(ns[1..], id);
    }
  }

  lemma BareJoin(a: seq<Node>, b: seq<Node>)
    ensures BareAll(a + b) == BareAll(a) + BareAll(b)
  {
  }

  lemma BareWithout(ns: seq<Node>, k: nat)
    requires k < |ns|
    ensures BareAll(Without(ns, k)) == Without(BareAll(ns), k)
  {
    BareJoin(ns[..k], ns[k + 1..]);
    assert BareAll(ns[..k]) == BareAll(ns)[..k] && BareAll(ns[k + 1..]) == BareAll(ns)[k + 1..];
  }

  lemma BareDropped(ns: seq<Node>, id: nat)
    ensures BareAll(Dropped(ns, id)) == Dropped(BareAll(ns), id)
  {
    hide BareAll, Without, IndexOf;
    BareIndexOf(ns, id);
    var k := IndexOf(ns, id);
    BareLength(ns);
    if k < |ns| { BareWithout(ns, k); }
  }

  lemma BareLength(ns: seq<Node>)
    ensures |BareAll(ns)| == |ns| && forall i :: 0 <= i < |ns| ==> BareAll(ns)[i] == Bare(ns[i])
  {
  }

  lemma BareMovedTo(ns: seq<Node>, id: nat, goal: nat)
    ensures BareAll(MovedTo(ns, id, goal)) == MovedTo(BareAll(ns), id, goal)
  {
    BareIndexOf(ns, id);
    var k := IndexOf(ns, id);
    if k < |ns| && goal < |ns| {
      BareWithout(ns, k);
      BarePutIn(Without(ns, k), ns[k], goal);
    }
  }

  lemma BarePutIn(ns: seq<Node>, n: Node, goal: nat)
    requires goal <= |ns|
    ensures BareAll(ns[..goal] + ([n] + ns[goal..])) == BareAll(ns)[..goal] + ([Bare(n)] + BareAll(ns)[goal..])
  {
  }

  lemma {:induction false} BareUpdate(n: Node, id: nat, f: seq<Node> -> seq<Node>, g: seq<Node> -> seq<Node>)
    requires forall ns :: BareAll(f(ns)) == g(BareAll(ns))
    ensures Bare(Update(n, id, f)) == Update(Bare(n), id, g)
  {
    assert Bare(n).children == BareAll(n.children);
    if n.id == id {
      assert Bare(Update(n, id, f)).children == BareAll(f(n.children));
    } else {
      forall i | 0 <= i < |n.children|
        ensures Bare(Update(n.children[i], id, f)) == Update(Bare(n.children[i]), id, g)
      {
        BareUpdate(n.children[i], id, f, g);
      }
      assert Bare(Update(n, id, f)).children == Update(Bare(n), id, g).children;
    }
  }

  lemma BareDrops(n: Node, parent: nat, child: nat)
    ensures Bare(Update(n, parent, Dropping(child))) == Update(Bare(n), parent, Dropping(child))
  {
    forall ns ensures BareAll(Dropping(child)(ns)) == Dropping(child)(BareAll(ns)) { BareDropped(ns, child); }
    BareUpdate(n, parent, Dropping(child), Dropping(child));
  }

  lemma BareAdds(n: Node, parent: nat, branch: Node)
    ensures Bare(Update(n, parent, Adding(branch))) == Update(Bare(n), parent, Adding(Bare(branch)))
  {
    BareUpdate(n, parent, Adding(branch), Adding(Bare(branch)));
  }

  lemma BareMoves(n: Node, parent: nat, child: nat, goal: nat)
    ensures Bare(Update(n, parent, Moving(child, goal))) == Update(Bare(n), parent, Moving(child, goal))
  {
    forall ns ensures BareAll(Moving(child, goal)(ns)) == Moving(child, goal)(BareAll(ns)) {
      BareMovedTo(ns, child, goal);
    }
    BareUpdate(n, parent, Moving(child, goal), Moving(child, goal));
  }

  function BareFound(found: Option<Node>): Option<Node> {
    if found.None? then None else Some(Bare(found.value))
  }

  lemma {:induction false} BareFind(n: Node, id: nat)
    ensures Find(Bare(n), id) == BareFound(Find(n, id))
  {
    assert Bare(n).children == BareAll(n.children);
    BareFindIn(n.children, id);
  }

  lemma {:induction false} BareFindIn(ns: seq<Node>, id: nat)
    ensures FindIn(BareAll(ns), id) == BareFound(FindIn(ns, id))
  {
    if ns != [] {
      assert BareAll(ns)[0] == Bare(ns[0]) && BareAll(ns)[1..] == BareAll(ns[1..]);
      BareFind(ns[0], id);
      BareFindIn(ns[1..], id);
    }
  }

  lemma {:induction false} BareCleared(n: Node, ancestors: set<nat>)
    ensures Bare(Cleared(n, ancestors)) == Bare(n)
  {
    forall i | 0 <= i < |n.children|
      ensures Bare(Cleared(n.children[i], ancestors + {n.id})) == Bare(n.children[i])
    {
      BareCleared(n.children[i], ancestors + {n.id});
    }
    assert Bare(Cleared(n, ancestors)).children == Bare(n).children;
  }

  lemma {:induction false} BareSetOwner(n: Node, id: nat, owner: nat)
    ensures Bare(NodeTree.SetOwner(n, id, owner)) == Bare(n)
  {
    forall i | 0 <= i < |n.children|
      ensures Bare(NodeTree.SetOwner(n.children[i], id, owner)) == Bare(n.children[i])
    {
      BareSetOwner(n.children[i], id, owner);
    }
    assert Bare(NodeTree.SetOwner(n, id, owner)).children == Bare(n).children;
  }

  // ----- One call, and any number -----

  lemma BarePerforms(s: Scene, c: Call)
    ensures BareScene(Perform(s, c)) == BareScene(Perform(BareScene(s), c))
  {
    hide Update, Bare, Find, Cleared;
    var b := BareScene(s);
    match c
    case RemoveChild(parent, child) =>
      BareFind(s.tree, child);
      BareDrops(s.tree, parent, child);
      BareDrops(b.tree, parent, child);
      if found: Node :| Find(s.tree, child) == Some(found) {
        BareCleared(found, {});
        BareCleared(Bare(found), {});
        BareTwice(found);
        BareSceneTwice(s);
        assert Perform(s, c).out == s.out[child := Cleared(found, {})];
        assert Perform(b, c).out == b.out[child := Cleared(Bare(found), {})];
        BareOutWith(s.out, child, Cleared(found, {}));
        BareOutWith(b.out, child, Cleared(Bare(found), {}));
      } else {
        BareSceneTwice(s);
      }
    case AddChild(parent, child) =>
      BareSceneTwice(s);
      if child in s.out {
        BareAdds(s.tree, parent, s.out[child]);
        BareAdds(b.tree, parent, b.out[child]);
        BareOutLess(s.out, child);
        BareOutLess(b.out, child);
      }
    case MoveChild(parent, child, index) =>
      BareSceneTwice(s);
      BareMoves(s.tree, parent, child, index);
      BareMoves(b.tree, parent, child, index);
    case SetOwner(node, owner) =>
      BareSceneTwice(s);
      BareSetOwner(s.tree, node, owner);
      BareSetOwner(b.tree, node, owner);
    case Reparent(child, parent, newParent) =>
      BareSceneTwice(s);
      BareFind(s.tree, child);
      if found: Node :| Find(s.tree, child) == Some(found) {
        BareTwice(found);
        BareDrops(s.tree, parent, child);
        BareDrops(b.tree, parent, child);
        BareAdds(Update(s.tree, parent, Dropping(child)), newParent, found);
        BareAdds(Update(b.tree, parent, Dropping(child)), newParent, Bare(found));
      }
  }

  lemma BareOutWith(out: map<nat, Node>, id: nat, branch: Node)
    ensures BareOut(out[id := branch]) == BareOut(out)[id := Bare(branch)]
  {
  }

  lemma BareOutLess(out: map<nat, Node>, id: nat)
    ensures BareOut(out - {id}) == BareOut(out) - {id}
  {
  }

  /** Calls on scenes that are the same leave them the same. */
  lemma {:induction false} PerformsSame(exact: bool, s: Scene, t: Scene, calls: seq<Call>)
    requires Same(exact, s, t)
    ensures Same(exact, PerformAll(s, calls), PerformAll(t, calls))
    decreases |calls|
  {
    hide Perform, BareScene;
    if calls != [] {
      BarePerforms(s, calls[0]);
      BarePerforms(t, calls[0]);
      PerformsSame(exact, Perform(s, calls[0]), Perform(t, calls[0]), calls[1..]);
    }
  }

  // ----- Scenes in order -----

  predicate Strangers(a: Node, b: Node) {
    Ids(a) !! Ids(b)
  }

  ghost predicate StandsOutside(tree: Node, id: nat, branch: Node) {
    branch.id == id && Distinct(branch) && Strangers(branch, tree)
  }

  /** The ids of the tree and of every branch outside it are distinct, and no two of these share one. */
  ghost predicate Tidy(s: Scene) {
    && Distinct(s.tree)
    && (forall k :: k in s.out ==> StandsOutside(s.tree, k, s.out[k]))
    && (forall k, l :: k in s.out && l in s.out && k != l ==> Strangers(s.out[k], s.out[l]))
  }

  predicate Holds(s: Scene, x: nat) {
    x in Ids(s.tree) || exists k :: k in s.out && x in Ids(s.out[k])
  }

  ghost predicate SameNodes(s: Scene, t: Scene) {
    forall x :: Holds(s, x) <==> Holds(t, x)
  }

  lemma KeysAreIds(s: Scene, id: nat)
    requires Tidy(s) && id in s.out
    ensures id in Ids(s.out[id]) && id !in Ids(s.tree) && Holds(s, id)
  {
    assert StandsOutside(s.tree, id, s.out[id]);
    assert s.out[id].id in Ids(s.out[id]);
  }

  lemma SameIdsInScenes(s: Scene, t: Scene)
    requires Same(false, s, t)
    ensures Ids(s.tree) == Ids(t.tree) && s.out.Keys == t.out.Keys
    ensures forall k :: k in s.out ==> s.out[k].id == t.out[k].id && Ids(s.out[k]) == Ids(t.out[k])
  {
    hide Ids, Bare;
    BareIds(s.tree);
    BareIds(t.tree);
    assert s.out.Keys == BareOut(s.out).Keys == BareOut(t.out).Keys == t.out.Keys;
    forall k | k in s.out ensures s.out[k].id == t.out[k].id && Ids(s.out[k]) == Ids(t.out[k]) {
      assert BareOut(s.out)[k] == Bare(s.out[k]) && BareOut(t.out)[k] == Bare(t.out[k]);
      BareIds(s.out[k]);
      BareIds(t.out[k]);
      BareKeepsId(s.out[k]);
      BareKeepsId(t.out[k]);
    }
  }

  lemma BareKeepsId(n: Node)
    ensures Bare(n).id == n.id
  {
  }

  lemma SameIsTidy(exact: bool, s: Scene, t: Scene)
    requires Same(exact, s, t) && Tidy(s)
    ensures Tidy(t) && SameNodes(s, t) && Same(false, s, t)
  {
    hide Ids, BareScene;
    SameIdsInScenes(s, t);
    SameIdsDistinct(s.tree, t.tree);
    forall k | k in t.out ensures StandsOutside(t.tree, k, t.out[k]) {
      assert StandsOutside(s.tree, k, s.out[k]);
      SameIdsDistinct(s.out[k], t.out[k]);
    }
    forall k, l | k in t.out && l in t.out && k != l ensures Strangers(t.out[k], t.out[l]) {
      assert Strangers(s.out[k], s.out[l]);
    }
  }
}
