/** Each edit leads from one tidy scene to another, and its undo back. For a remove the way back is exact only
    where the branch can be restored; without owners it always is. Between them the two scenes hold the same
    nodes, in the tree or outside it. */
module EditLinks {
  import opened NodeTree
  import opened NodeEdits
  import opened NodeCopies
  import opened SceneLikeness
  import opened SceneHistory

  lemma NotOutside(s: Scene, x: nat)
    requires Tidy(s) && x in Ids(s.tree)
    ensures x !in s.out && Holds(s, x)
  {
    if x in s.out { KeysAreIds(s, x); }
  }

  /** A tidy scene whose tree loses nodes stays tidy. */
  lemma SmallerIsTidy(s: Scene, rest: Node)
    requires Tidy(s) && Distinct(rest) && forall x :: x in Ids(rest) ==> x in Ids(s.tree)
    ensures Tidy(Scene(rest, s.out))
  {
    forall k | k in s.out ensures StandsOutside(rest, k, s.out[k]) {
      assert StandsOutside(s.tree, k, s.out[k]);
      forall x | x in Ids(rest) ensures x !in Ids(s.out[k]) { assert x in Ids(s.tree); }
    }
    hide Distinct, Ids, StandsOutside;
  }

  /** A branch of the tree that now stands outside it. */
  lemma TakenOutIsTidy(s: Scene, rest: Node, branch: Node)
    requires Tidy(s) && Distinct(rest) && Distinct(branch)
    requires Ids(s.tree) == Ids(rest) + Ids(branch) && Ids(rest) !! Ids(branch)
    ensures Tidy(With(Scene(rest, s.out), branch)) && SameNodes(s, With(Scene(rest, s.out), branch))
  {
    var less := Scene(rest, s.out);
    SmallerIsTidy(s, rest);
    IsNewOutside(s, rest, branch);
    hide New, Tidy, With;
    WithIsTidy(less, branch);
    forall x ensures Holds(s, x) <==> Holds(less, x) || x in Ids(branch) { HoldsApart(s, rest, branch, x); }
  }

  lemma IsNewOutside(s: Scene, rest: Node, branch: Node)
    requires Tidy(s) && Distinct(branch)
    requires Ids(s.tree) == Ids(rest) + Ids(branch) && Ids(rest) !! Ids(branch)
    ensures New(Scene(rest, s.out), branch)
  {
    forall x | x in Ids(branch) ensures !Holds(Scene(rest, s.out), x) {
      assert x in Ids(s.tree);
      forall k | k in s.out ensures x !in Ids(s.out[k]) { assert StandsOutside(s.tree, k, s.out[k]); }
    }
  }

  lemma HoldsApart(s: Scene, rest: Node, branch: Node, x: nat)
    requires Ids(s.tree) == Ids(rest) + Ids(branch)
    ensures Holds(s, x) <==> Holds(Scene(rest, s.out), x) || x in Ids(branch)
  {
    hide Ids;
  }

  lemma SameIdsAreTidy(s: Scene, moved: Node)
    requires Tidy(s) && Distinct(moved) && Ids(moved) == Ids(s.tree)
    ensures Tidy(Scene(moved, s.out)) && SameNodes(s, Scene(moved, s.out))
  {
    SmallerIsTidy(s, moved);
  }

  /** A branch outside the tree that now stands in it. */
  lemma PutInIsTidy(s: Scene, copy: Node, added: Node)
    requires Tidy(s) && New(s, copy) && Distinct(added) && Ids(added) == Ids(s.tree) + Ids(copy)
    ensures Tidy(Scene(added, s.out)) && SameNodes(With(s, copy), Scene(added, s.out))
  {
    NewIsNew(s, copy);
    GrownIsTidy(s, copy, added);
    hide Tidy, New, With;
    forall x ensures Holds(With(s, copy), x) <==> Holds(Scene(added, s.out), x) {
      WithHolds(s, copy, x);
      HoldsApart(Scene(added, s.out), s.tree, copy, x);
    }
  }

  lemma GrownIsTidy(s: Scene, copy: Node, added: Node)
    requires Tidy(s) && Distinct(added) && Ids(added) == Ids(s.tree) + Ids(copy)
    requires forall k :: k in s.out ==> Strangers(s.out[k], copy)
    ensures Tidy(Scene(added, s.out))
  {
    hide Distinct, Ids, StandsOutside, Strangers;
    forall k | k in s.out ensures StandsOutside(added, k, s.out[k]) {
      StandsOutsideBoth(s.tree, copy, added, k, s.out[k]);
    }
  }

  lemma StandsOutsideBoth(tree: Node, copy: Node, added: Node, id: nat, branch: Node)
    requires StandsOutside(tree, id, branch) && Strangers(branch, copy) && Ids(added) == Ids(tree) + Ids(copy)
    ensures StandsOutside(added, id, branch)
  {
    hide Ids, Distinct;
    forall x | x in Ids(branch) ensures x !in Ids(added) {}
  }

  // ----- Without owners the undo of a remove loses nothing -----

  lemma {:induction false} BarePut(n: Node, path: seq<nat>, sub: Node)
    requires IsPath(n, path) && Bare(sub) == Bare(At(n, path))
    ensures Bare(Put(n, path, sub)) == Bare(n)
    decreases |path|
  {
    if path != [] {
      BarePut(n.children[path[0]], path[1..], sub);
      assert Bare(Put(n, path, sub)).children == Bare(n).children;
    }
  }

  lemma {:induction false} BareSetOwners(n: Node, ids: seq<nat>, owner: nat)
    ensures Bare(SetOwners(n, ids, owner)) == Bare(n)
    decreases |ids|
  {
    if ids != [] {
      BareSetOwner(n, ids[0], owner);
      BareSetOwners(NodeTree.SetOwner(n, ids[0], owner), ids[1..], owner);
    }
  }

  lemma SetAllLeaves(ids: seq<nat>, owner: nat, id: nat)
    ensures Leaves(SetAll(ids, owner), id)
  {
  }

  lemma BothLeave(a: seq<Call>, b: seq<Call>, id: nat)
    requires Leaves(a, id) && Leaves(b, id)
    ensures Leaves(a + b, id)
  {
  }

  // ----- The three edits -----

  lemma UndoneButForOwners(s: Scene, path: seq<nat>, index: nat)
    requires Tidy(s) && IsPath(s.tree, path) && index < |At(s.tree, path).children|
    ensures var a := RemoveAction(s.tree.id, At(s.tree, path), index);
      var undone := PerformAll(PerformAll(s, a.doCalls), a.undoCalls);
      && Same(false, undone, s)
      && (undone == s <==> Restorable(At(s.tree, path).children[index], s.tree.id, {}))
  {
    hide RemoveAction, Bare, Restorable, Cleared, SetOwners, OwnedBy, PerformAll;
    var branch := At(s.tree, path).children[index];
    ChildPath(s.tree, path, index, branch);
    HasNodeAt(s.tree, path + [index]);
    NotOutside(s, branch.id);
    UndoneIs(s.tree, s.out, path, index);
    UndoOfRemoveRestores(s.tree, s.out, path, index);
    BareCleared(branch, {});
    BarePut(s.tree, path + [index], Cleared(branch, {}));
    BareSetOwners(Put(s.tree, path + [index], Cleared(branch, {})), OwnedBy(s.tree.id, branch), s.tree.id);
  }

  /** The tree without one of its branches. */
  function Less(tree: Node, path: seq<nat>, index: nat): Node
    requires IsPath(tree, path) && index < |At(tree, path).children|
  {
    var parent := At(tree, path);
    Put(tree, path, parent.(children := Without(parent.children, index)))
  }

  lemma DropIsLess(tree: Node, path: seq<nat>, index: nat)
    requires Distinct(tree) && IsPath(tree, path) && index < |At(tree, path).children|
    ensures var parent := At(tree, path);
      Update(tree, parent.id, Dropping(parent.children[index].id)) == Less(tree, path, index)
  {
    var parent := At(tree, path);
    DistinctAt(tree, path);
    SiblingsDiffer(parent, index);
    DropsAt(parent.children, index);
    UpdateIsPut(tree, path, Dropping(parent.children[index].id));
  }

  /** A remove takes the branch out and leaves the rest as it was. */
  lemma RemoveLeads(s: Scene, path: seq<nat>, index: nat)
    requires Tidy(s) && IsPath(s.tree, path) && index < |At(s.tree, path).children|
    ensures var parent := At(s.tree, path);
      var branch := parent.children[index];
      var less := Less(s.tree, path, index);
      && branch.id !in s.out
      && PerformAll(s, RemoveAction(s.tree.id, parent, index).doCalls)
         == Scene(less, s.out[branch.id := Cleared(branch, {})])
      && Distinct(less) && Distinct(branch) && Ids(s.tree) == Ids(less) + Ids(branch) && Ids(less) !! Ids(branch)
  {
    hide Ids, Cleared, PerformAll, Less;
    var parent := At(s.tree, path);
    var branch := parent.children[index];
    ChildPath(s.tree, path, index, branch);
    HasNodeAt(s.tree, path + [index]);
    NotOutside(s, branch.id);
    Removes(s.tree, s.out, path, index);
    TakenOut(s.tree, path, index);
    DropIsLess(s.tree, path, index);
  }

  /** A reparent takes the branch out and adds it last below its new parent. */
  lemma ReparentLeads(s: Scene, path: seq<nat>, index: nat, newParent: nat) returns (below: seq<nat>)
    requires Tidy(s) && IsPath(s.tree, path) && index < |At(s.tree, path).children|
    requires newParent in Ids(s.tree) && Accepted(At(s.tree, path).children[index], newParent)
    ensures var rest := Less(s.tree, path, index);
      && IsPath(rest, below) && At(rest, below).id == newParent
      && PerformAll(s, ReparentAction(At(s.tree, path), index, newParent).doCalls)
         == Scene(WithCopy(rest, below, At(s.tree, path).children[index]), s.out)
  {
    hide Ids, PerformAll, Less, Accepted, WithCopy;
    DropIsLess(s.tree, path, index);
    below := Reparents(s.tree, s.out, path, index, newParent);
  }

  lemma RemoveLinks(exact: bool, s: Scene, path: seq<nat>, index: nat)
    requires Tidy(s) && IsPath(s.tree, path) && index < |At(s.tree, path).children|
    requires exact ==> Restorable(At(s.tree, path).children[index], s.tree.id, {})
    ensures var a := RemoveAction(s.tree.id, At(s.tree, path), index);
      var t := PerformAll(s, a.doCalls);
      Links(exact, a, s, t) && Confined(a, s) && Tidy(t) && SameNodes(s, t)
  {
    hide Restorable, Cleared, PerformAll, Ids, OwnedBy, Distinct, Less;
    var parent := At(s.tree, path);
    var branch := parent.children[index];
    UndoneButForOwners(s, path, index);
    RemoveLeads(s, path, index);
    ClearedShape(branch, {});
    SameIdsDistinct(branch, Cleared(branch, {}));
    KeepsId(branch, {});
    TakenOutIsTidy(s, Less(s.tree, path, index), Cleared(branch, {}));
    hide Tidy, SameNodes, BareScene;
    ChildPath(s.tree, path, index, branch);
    HasNodeAt(s.tree, path + [index]);
    RemoveIsConfined(s, parent, index);
  }

  lemma RemoveIsConfined(s: Scene, parent: Node, index: nat)
    requires index < |parent.children| && parent.children[index].id in Ids(s.tree)
    ensures Confined(RemoveAction(s.tree.id, parent, index), s)
  {
    hide Ids, OwnedBy;
    var branch := parent.children[index];
    forall id | !Holds(s, id)
      ensures var a := RemoveAction(s.tree.id, parent, index); Leaves(a.doCalls, id) && Leaves(a.undoCalls, id)
    {
      SetAllLeaves(OwnedBy(s.tree.id, branch), s.tree.id, id);
      BothLeave([AddChild(parent.id, branch.id), MoveChild(parent.id, branch.id, index)],
                SetAll(OwnedBy(s.tree.id, branch), s.tree.id), id);
    }
  }

  lemma ReparentLinks(exact: bool, s: Scene, path: seq<nat>, index: nat, newParent: nat)
    requires Tidy(s) && IsPath(s.tree, path) && index < |At(s.tree, path).children|
    requires newParent in Ids(s.tree) && Accepted(At(s.tree, path).children[index], newParent)
    ensures var a := ReparentAction(At(s.tree, path), index, newParent);
      var t := PerformAll(s, a.doCalls);
      Links(exact, a, s, t) && Confined(a, s) && Tidy(t) && SameNodes(s, t)
  {
    hide PerformAll, Ids, Distinct, Put, Accepted, BareScene;
    var parent := At(s.tree, path);
    var branch := parent.children[index];
    RemoveLeads(s, path, index);
    UndoOfReparentRestores(s.tree, s.out, path, index, newParent);
    var below := Reparents(s.tree, s.out, path, index, newParent);
    TakenOut(s.tree, path, index);
    var rest := Update(s.tree, parent.id, Dropping(branch.id));
    IdsWithCopy(rest, below, branch);
    SameIdsAreTidy(s, WithCopy(rest, below, branch));
  }

  lemma DuplicateLinks(exact: bool, s: Scene, path: seq<nat>, source: Node, copy: Node)
    requires Tidy(s) && New(s, copy) && Loose(copy) && IsPath(s.tree, path)
    requires Visit(s.tree.id, source, copy, true).Some?
    ensures var a := DuplicateAction(s.tree.id, At(s.tree, path).id, copy.id, Visit(s.tree.id, source, copy, true).value);
      var t := PerformAll(With(s, copy), a.doCalls);
      && t == Scene(WithCopy(s.tree, path, Owned(source, copy, s.tree.id)), s.out)
      && Links(exact, a, With(s, copy), t) && Confined(a, With(s, copy)) && Tidy(t) && SameNodes(With(s, copy), t)
  {
    hide PerformAll, Ids, Distinct, Put, BareScene, Loose, Visit, Marked, WithCopy;
    NewIsNew(s, copy);
    WithIsTidy(s, copy);
    Duplicates(s.tree, s.out, path, source, copy);
    RedoOfDuplicateRepeats(s.tree, s.out, path, source, copy);
    var owned := Owned(source, copy, s.tree.id);
    OwnedKeeps(source, copy, s.tree.id);
    SameIdsDistinct(copy, owned);
    IdsWithCopy(s.tree, path, owned);
    PutInIsTidy(s, copy, WithCopy(s.tree, path, owned));
    DuplicateIsConfined(With(s, copy), At(s.tree, path).id, copy.id, Visit(s.tree.id, source, copy, true).value);
  }

  lemma DuplicateIsConfined(s: Scene, parent: nat, copy: nat, toOwn: seq<nat>)
    requires Holds(s, copy)
    ensures Confined(DuplicateAction(s.tree.id, parent, copy, toOwn), s)
  {
    hide Holds;
    forall id | !Holds(s, id)
      ensures var a := DuplicateAction(s.tree.id, parent, copy, toOwn); Leaves(a.doCalls, id) && Leaves(a.undoCalls, id)
    {
      SetAllLeaves([copy] + toOwn, s.tree.id, id);
      BothLeave([AddChild(parent, copy)], SetAll([copy] + toOwn, s.tree.id), id);
    }
  }
}
