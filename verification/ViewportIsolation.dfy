module ViewportIsolation {
  // Hiding everything but one branch of the edited scene for a capture, and putting it back.

  import opened NodeTree

  const MAX_NODES := 100000

  // ----- The order of the walk -----

  function Preorder(n: Node): seq<Node> {
    [n] + PreorderOf(n.children)
  }

  function PreorderOf(ns: seq<Node>): seq<Node> {
    if ns == [] then [] else Preorder(ns[0]) + PreorderOf(ns[1..])
  }

  /** What a stack still has to give, its top first. */
  function Upcoming(stack: seq<Node>): seq<Node> {
    if stack == [] then [] else Preorder(stack[|stack| - 1]) + Upcoming(stack[..|stack| - 1])
  }

  function IdsIn(ns: seq<Node>): multiset<nat> {
    if ns == [] then multiset{} else multiset{ns[0].id} + IdsIn(ns[1..])
  }

  lemma {:induction false} IdsInJoin(a: seq<Node>, b: seq<Node>)
    ensures IdsIn(a + b) == IdsIn(a) + IdsIn(b)
    decreases |a|
  {
    if a == [] {
      assert a + b == b;
    } else {
      assert (a + b)[1..] == a[1..] + b;
      IdsInJoin(a[1..], b);
    }
  }

  /** The walk meets every node of the tree, and each of them once. */
  lemma {:induction false} WalkMeetsEachOnce(n: Node)
    ensures IdsIn(Preorder(n)) == Ids(n)
  {
    WalkMeetsAll(n.children);
    assert Preorder(n)[1..] == PreorderOf(n.children);
  }

  lemma {:induction false} WalkMeetsAll(ns: seq<Node>)
    ensures IdsIn(PreorderOf(ns)) == IdsOf(ns)
  {
    if ns != [] {
      WalkMeetsEachOnce(ns[0]);
      WalkMeetsAll(ns[1..]);
      IdsInJoin(Preorder(ns[0]), PreorderOf(ns[1..]));
      FirstId(ns);
      hide IdsOf, Ids, IdsIn, Preorder;
    }
  }

  lemma FirstId(ns: seq<Node>)
    requires ns != []
    ensures IdsOf(ns) == Ids(ns[0]) + IdsOf(ns[1..])
  {
    hide *;
    IdsSplit(ns, 0);
    NoIds();
    assert ns[..0] == [];
  }

  lemma NoIds()
    ensures IdsOf([]) == multiset{}
  {
  }

  // ----- What is hidden -----

  /** The target, its ancestors and its descendants. */
  predicate Keeps(n: Node, target: Node) {
    n.id == target.id || target.id in IdsOf(n.children) || n.id in IdsOf(target.children)
  }

  predicate Hides(n: Node, target: Node, drawable: set<nat>, visible: set<nat>) {
    !Keeps(n, target) && n.id in drawable && n.id in visible
  }

  function ToHide(ns: seq<Node>, target: Node, drawable: set<nat>, visible: set<nat>): seq<nat> {
    if ns == [] then []
    else (if Hides(ns[0], target, drawable, visible) then [ns[0].id] else []) + ToHide(ns[1..], target, drawable, visible)
  }

  lemma {:induction false} ToHideJoin(a: seq<Node>, b: seq<Node>, target: Node, drawable: set<nat>, visible: set<nat>)
    ensures ToHide(a + b, target, drawable, visible) == ToHide(a, target, drawable, visible) + ToHide(b, target, drawable, visible)
    decreases |a|
  {
    hide Hides;
    if a == [] {
      assert a + b == b;
    } else {
      assert (a + b)[1..] == a[1..] + b;
      ToHideJoin(a[1..], b, target, drawable, visible);
    }
  }

  lemma {:induction false} HiddenOnes(ns: seq<Node>, target: Node, drawable: set<nat>, visible: set<nat>, id: nat)
    ensures id in ToHide(ns, target, drawable, visible)
       <==> exists i :: 0 <= i < |ns| && ns[i].id == id && Hides(ns[i], target, drawable, visible)
    decreases |ns|
  {
    hide Hides;
    if ns != [] {
      HiddenOnes(ns[1..], target, drawable, visible, id);
      if i :| 0 <= i < |ns[1..]| && ns[1..][i].id == id && Hides(ns[1..][i], target, drawable, visible) {
        assert ns[i + 1].id == id && Hides(ns[i + 1], target, drawable, visible);
      }
      if i :| 0 <= i < |ns| && ns[i].id == id && Hides(ns[i], target, drawable, visible) {
        if i > 0 { assert ns[1..][i - 1].id == id && Hides(ns[1..][i - 1], target, drawable, visible); }
      }
    }
  }

  /** What the editor has to put back. */
  datatype Isolation = Isolation(hidden: seq<nat>, original: bool, restoreBackground: bool)

  datatype Outcome = Isolated(isolation: Isolation) | TooLarge | Failed(rolledBack: bool)

  /** The walk over the edited scene: nothing is changed yet. */
  method CollectHidden(root: Node, target: Node, drawable: set<nat>, visible: set<nat>)
    returns (tooLarge: bool, hidden: seq<nat>)
    ensures tooLarge <==> |Preorder(root)| > MAX_NODES
    ensures !tooLarge ==> hidden == ToHide(Preorder(root), target, drawable, visible)
  {
    hidden := [];
    tooLarge := false;
    var stack := [root];
    var visited := 0;
    ghost var met: seq<Node> := [];
    Alone(root);
    while stack != []
      invariant met + Upcoming(stack) == Preorder(root) && |met| == visited <= MAX_NODES
      invariant hidden == ToHide(met, target, drawable, visible)
      decreases MAX_NODES - visited
    {
      hide ToHide, Hides, PreorderOf, Upcoming, Ids, IdsOf;
      ghost var before := stack;
      var current := stack[|stack| - 1];
      stack := stack[..|stack| - 1];
      visited := visited + 1;
      Next(met, before, Preorder(root));
      if visited > MAX_NODES { return true, []; }
      HidesNext(met, current, target, drawable, visible);
      if Hides(current, target, drawable, visible) { hidden := hidden + [current.id]; }
      met := met + [current];
      stack := PushChildren(stack, current.children);
    }
    assert met + [] == met;
  }

  method PushChildren(stack: seq<Node>, children: seq<Node>) returns (pushed: seq<Node>)
    ensures Upcoming(pushed) == PreorderOf(children) + Upcoming(stack)
  {
    pushed := stack;
    var i: nat := |children|;
    assert children[|children|..] == [];
    while i > 0
      invariant i <= |children| && Upcoming(pushed) == PreorderOf(children[i..]) + Upcoming(stack)
    {
      i := i - 1;
      var more := pushed + [children[i]];
      assert more[..|more| - 1] == pushed;
      assert children[i..][0] == children[i] && children[i..][1..] == children[i + 1..];
      assert Preorder(children[i]) + (PreorderOf(children[i + 1..]) + Upcoming(stack))
          == PreorderOf(children[i..]) + Upcoming(stack);
      pushed := more;
    }
    assert children[0..] == children;
  }

  lemma Alone(root: Node)
    ensures Upcoming([root]) == Preorder(root)
  {
    assert [root][..0] == [];
    assert Upcoming([root]) == Preorder(root) + [];
  }

  /** The top of the stack is the next node of the walk. */
  lemma Next(met: seq<Node>, stack: seq<Node>, all: seq<Node>)
    requires stack != [] && met + Upcoming(stack) == all
    ensures var current := stack[|stack| - 1];
      && |all| > |met|
      && (met + [current]) + (PreorderOf(current.children) + Upcoming(stack[..|stack| - 1])) == all
  {
    hide PreorderOf;
    var current := stack[|stack| - 1];
    var below := Upcoming(stack[..|stack| - 1]);
    assert Upcoming(stack) == ([current] + PreorderOf(current.children)) + below;
    hide Upcoming, Preorder;
    Regroups(met, [current], PreorderOf(current.children), below);
  }

  lemma Regroups(a: seq<Node>, b: seq<Node>, c: seq<Node>, d: seq<Node>)
    ensures a + ((b + c) + d) == (a + b) + (c + d)
  {
  }

  lemma HidesNext(met: seq<Node>, n: Node, target: Node, drawable: set<nat>, visible: set<nat>)
    ensures ToHide(met + [n], target, drawable, visible)
         == ToHide(met, target, drawable, visible) + (if Hides(n, target, drawable, visible) then [n.id] else [])
  {
    ToHideJoin(met, [n], target, drawable, visible);
    assert [n][1..] == [];
  }

  lemma {:induction false} OnlyOne(ns: seq<Node>, i: nat, j: nat)
    requires i < j < |ns| && ns[i].id == ns[j].id
    ensures IdsIn(ns)[ns[i].id] >= 2
    decreases i
  {
    if i == 0 {
      MetSomewhere(ns[1..], j - 1);
    } else {
      OnlyOne(ns[1..], i - 1, j - 1);
    }
  }

  lemma {:induction false} MetSomewhere(ns: seq<Node>, j: nat)
    requires j < |ns|
    ensures IdsIn(ns)[ns[j].id] >= 1
    decreases j
  {
    if j > 0 { MetSomewhere(ns[1..], j - 1); }
  }

  /** Afterwards a node is visible exactly when it was, and it is the target, above it, below it or
      nothing that is drawn. */
  lemma VisibleAfterwards(root: Node, target: Node, drawable: set<nat>, visible: set<nat>, i: nat)
    requires Distinct(root) && i < |Preorder(root)|
    ensures var n := Preorder(root)[i];
      n.id in visible - Among(ToHide(Preorder(root), target, drawable, visible))
      <==> n.id in visible && (Keeps(n, target) || n.id !in drawable)
  {
    hide Keeps, ToHide;
    var nodes := Preorder(root);
    var id := nodes[i].id;
    HiddenOnes(nodes, target, drawable, visible, id);
    WalkMeetsEachOnce(root);
    assert Ids(root)[id] <= 1;
    forall j | 0 <= j < |nodes| && nodes[j].id == id ensures j == i {
      if j < i { OnlyOne(nodes, j, i); } else if i < j { OnlyOne(nodes, i, j); }
    }
  }

  // ----- What stays visible, said of the tree -----

  lemma {:induction false} BranchesNest(root: Node, a: Node, m: Node)
    requires a in Preorder(root) && m in Preorder(a)
    ensures m in Preorder(root)
  {
    if a != root { BranchesNestIn(root.children, a, m); }
  }

  lemma {:induction false} BranchesNestIn(ns: seq<Node>, a: Node, m: Node)
    requires a in PreorderOf(ns) && m in Preorder(a)
    ensures m in PreorderOf(ns)
  {
    hide Preorder;
    if a in Preorder(ns[0]) { BranchesNest(ns[0], a, m); } else { BranchesNestIn(ns[1..], a, m); }
  }

  lemma {:induction false} MeetsId(ns: seq<Node>, id: nat)
    ensures id in IdsIn(ns) <==> exists m <- ns :: m.id == id
    decreases |ns|
  {
    if ns != [] { MeetsId(ns[1..], id); }
  }

  /** In a tree of distinct ids a node is met in a branch exactly when its id is among the branch's. */
  lemma MetInBranch(root: Node, a: Node, n: Node)
    requires Distinct(root) && a in Preorder(root) && n in Preorder(root)
    ensures n.id in Ids(a) <==> n in Preorder(a)
  {
    hide Preorder, Ids;
    WalkMeetsEachOnce(a);
    WalkMeetsEachOnce(root);
    MeetsId(Preorder(a), n.id);
    if n.id in Ids(a) {
      var m :| m in Preorder(a) && m.id == n.id;
      BranchesNest(root, a, m);
      SameNode(root, m, n);
    }
  }

  lemma SameNode(root: Node, m: Node, n: Node)
    requires Distinct(root) && m in Preorder(root) && n in Preorder(root) && m.id == n.id
    ensures m == n
  {
    hide Preorder, Ids;
    var nodes := Preorder(root);
    var i :| 0 <= i < |nodes| && nodes[i] == m;
    var j :| 0 <= j < |nodes| && nodes[j] == n;
    WalkMeetsEachOnce(root);
    assert Ids(root)[m.id] <= 1 by { DistinctIs(root, m.id); }
    if i < j { OnlyOne(nodes, i, j); } else if j < i { OnlyOne(nodes, j, i); }
  }

  lemma DistinctIs(root: Node, id: nat)
    requires Distinct(root)
    ensures Ids(root)[id] <= 1
  {
  }

  /** The nodes kept are those of the target's branch and those whose branch the target stands in. */
  lemma KeptAre(root: Node, target: Node, n: Node)
    requires Distinct(root) && target in Preorder(root) && n in Preorder(root)
    ensures Keeps(n, target) <==> n in Preorder(target) || target in Preorder(n)
  {
    MetInBranch(root, target, n);
    MetInBranch(root, n, target);
    BranchIds(target);
    BranchIds(n);
  }

  lemma BranchIds(n: Node)
    ensures Ids(n) == multiset{n.id} + IdsOf(n.children)
  {
  }

  // ----- The editor -----

  class Editor {
    var visible: set<nat>
    var transparent: bool

    constructor (visible: set<nat>, transparent: bool)
      ensures this.visible == visible && this.transparent == transparent
    {
      this.visible, this.transparent := visible, transparent;
    }

    /** Puts back what can be put back; objects in `broken` were freed or refuse the call. */
    method Restore(isolation: Isolation, broken: set<nat>, backgroundSets: bool) returns (failures: nat)
      modifies this
      ensures visible == old(visible) + (Among(isolation.hidden) - broken)
      ensures transparent == if isolation.restoreBackground && backgroundSets then isolation.original else old(transparent)
      ensures failures == 0 <==>
                Among(isolation.hidden) !! broken && (isolation.restoreBackground ==> backgroundSets)
    {
      failures := 0;
      if isolation.restoreBackground {
        if backgroundSets { transparent := isolation.original; } else { failures := 1; }
      }
      ghost var failed := failures;
      var i: nat := |isolation.hidden|;
      while i > 0
        invariant i <= |isolation.hidden|
        invariant visible == old(visible) + (Among(isolation.hidden[i..]) - broken)
        invariant failures == 0 <==> failed == 0 && Among(isolation.hidden[i..]) !! broken
        modifies `visible
      {
        i := i - 1;
        var id := isolation.hidden[i];
        assert Among(isolation.hidden[i..]) == {id} + Among(isolation.hidden[i + 1..]) by {
          assert isolation.hidden[i..] == [id] + isolation.hidden[i + 1..];
        }
        if id in broken { failures := failures + 1; } else { visible := visible + {id}; }
      }
      assert isolation.hidden[0..] == isolation.hidden;
    }

    /** Hides them one after another until one cannot be hidden. */
    method HideAll(hidden: seq<nat>, broken: set<nat>) returns (ok: bool)
      modifies `visible
      ensures ok <==> Among(hidden) !! broken
      ensures ok ==> visible == old(visible) - Among(hidden)
      ensures visible <= old(visible) <= visible + Among(hidden)
    {
      for i := 0 to |hidden|
        invariant Among(hidden[..i]) !! broken && visible == old(visible) - Among(hidden[..i])
      {
        assert Among(hidden[..i + 1]) == Among(hidden[..i]) + {hidden[i]} by {
          assert hidden[..i + 1] == hidden[..i] + [hidden[i]];
        }
        if hidden[i] in broken {
          assert hidden[i] in Among(hidden);
          return false;
        }
        visible := visible - {hidden[i]};
      }
      assert hidden[..|hidden|] == hidden;
      ok := true;
    }

    /** Begins the isolation of `target`, or leaves the editor as it was when everything it touched can be
        put back. `broken` and the two flags say which calls fail while it begins, `stuck` and
        `backgroundReturns` which fail while it is rolled back. */
    method Begin(root: Node, target: Node, drawable: set<nat>, wantTransparent: bool, broken: set<nat>,
                 viewportAnswers: bool, backgroundSets: bool, stuck: set<nat>, backgroundReturns: bool)
      returns (outcome: Outcome)
      modifies this
      ensures outcome.TooLarge? <==> |Preorder(root)| > MAX_NODES
      ensures var hidden := ToHide(Preorder(root), target, drawable, old(visible));
        && (outcome.Isolated? <==>
            && |Preorder(root)| <= MAX_NODES && Among(hidden) !! broken
            && (wantTransparent ==> viewportAnswers && (old(transparent) || backgroundSets)))
        && (outcome.Isolated? ==>
              && outcome.isolation.hidden == hidden && visible == old(visible) - Among(hidden)
              && transparent == (old(transparent) || wantTransparent)
              && outcome.isolation.original == old(transparent)
              && outcome.isolation.restoreBackground == (wantTransparent && !old(transparent)))
        && (outcome.Failed? ==> Among(hidden) !! stuck && backgroundReturns ==> outcome.rolledBack)
      ensures outcome.TooLarge? || (outcome.Failed? && outcome.rolledBack) ==>
                visible == old(visible) && transparent == old(transparent)
    {
      hide ToHide, Preorder;
      var tooLarge, hidden := CollectHidden(root, target, drawable, visible);
      if tooLarge { return TooLarge; }
      OnlyVisible(Preorder(root), target, drawable, visible);
      var isolation := Isolation(hidden, transparent, false);
      var allHidden := HideAll(hidden, broken);
      if !allHidden || (wantTransparent && !viewportAnswers) {
        var failures := Restore(isolation, stuck, backgroundReturns);
        return Failed(failures == 0);
      }
      if wantTransparent {
        isolation := isolation.(restoreBackground := !transparent);
        if isolation.restoreBackground {
          if !backgroundSets {
            var failures := Restore(isolation, stuck, backgroundReturns);
            return Failed(failures == 0);
          }
          transparent := true;
        }
      }
      outcome := Isolated(isolation);
    }
  }

  lemma {:induction false} OnlyVisible(ns: seq<Node>, target: Node, drawable: set<nat>, visible: set<nat>)
    ensures Among(ToHide(ns, target, drawable, visible)) <= visible
  {
    forall id <- ToHide(ns, target, drawable, visible) ensures id in visible {
      HiddenOnes(ns, target, drawable, visible, id);
    }
  }

  /** A capture between the two leaves no trace: what began is what restore puts back. */
  method IsolateAndRestore(editor: Editor, root: Node, target: Node, drawable: set<nat>, wantTransparent: bool)
    returns (captured: bool)
    modifies editor
    ensures captured <==> |Preorder(root)| <= MAX_NODES
    ensures editor.visible == old(editor.visible) && editor.transparent == old(editor.transparent)
  {
    hide ToHide, Preorder;
    OnlyVisible(Preorder(root), target, drawable, editor.visible);
    var outcome := editor.Begin(root, target, drawable, wantTransparent, {}, true, true, {}, true);
    if outcome.TooLarge? { return false; }
    var failures := editor.Restore(outcome.isolation, {}, true);
    captured := true;
  }
}
