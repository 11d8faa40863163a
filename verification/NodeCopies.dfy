module NodeCopies {
  // Redo of a remove, duplicate, and reparent.

  import opened Text
  import opened NodeTree
  import opened NodeEdits

  // ----- Remove, again -----

  lemma {:induction false} ClearsAlike(n: Node, ancestors: set<nat>, ids: set<nat>, root: nat)
    requires root !in ancestors && root !in Ids(n) && SameShape(n, n) && Picks(ids, n, n, root)
    ensures Cleared(Marked(Cleared(n, ancestors), ids, root), ancestors) == Cleared(n, ancestors)
  {
    var again := Cleared(Marked(Cleared(n, ancestors), ids, root), ancestors);
    forall i | 0 <= i < |n.children|
      ensures Cleared(Marked(Cleared(n.children[i], ancestors + {n.id}), ids, root), ancestors + {n.id})
           == Cleared(n.children[i], ancestors + {n.id})
    {
      IdsSplit(n.children, i);
      ClearsAlike(n.children[i], ancestors + {n.id}, ids, root);
    }
    assert again.children == Cleared(n, ancestors).children;
  }

  lemma {:induction false} MarkedIds(n: Node, ids: set<nat>, owner: nat)
    ensures Ids(Marked(n, ids, owner)) == Ids(n)
  {
    var m := Marked(n, ids, owner);
    forall i | 0 <= i < |n.children| ensures Ids(m.children[i]) == Ids(n.children[i]) {
      MarkedIds(n.children[i], ids, owner);
    }
    SameIds(n.children, m.children);
  }

  /** Taking a child out leaves the same tree whatever had become of the child. */
  lemma DropsAlike(tree: Node, path: seq<nat>, index: nat, other: Node)
    requires Distinct(tree) && IsPath(tree, path) && index < |At(tree, path).children|
    requires other.id == At(tree, path).children[index].id && Ids(other) == Ids(At(tree, path).children[index])
    ensures IsPath(tree, path + [index])
    ensures var put := Put(tree, path + [index], other);
      && Distinct(put) && put.id == tree.id && IsPath(put, path)
      && At(put, path) == At(tree, path).(children := At(tree, path).children[index := other])
      && Update(put, At(tree, path).id, Dropping(other.id)) == Update(tree, At(tree, path).id, Dropping(other.id))
  {
    var parent := At(tree, path);
    var parent' := parent.(children := parent.children[index := other]);
    ChildPath(tree, path, index, other);
    var put := Put(tree, path + [index], other);
    IdsOfPut(tree, path + [index], other);
    SameIdsDistinct(tree, put);
    PutThere(tree, path, parent');
    UpdateIsPut(tree, path, Dropping(other.id));
    UpdateIsPut(put, path, Dropping(other.id));
    DistinctAt(tree, path);
    DistinctAt(put, path);
    SiblingsDiffer(parent, index);
    SiblingsDiffer(parent', index);
    DropsAt(parent.children, index);
    DropsAt(parent'.children, index);
    assert Without(parent.children, index) == Without(parent'.children, index);
    PutThere(tree, path, parent'.(children := Without(parent.children, index)));
  }

  /** Redo after undo takes the branch out again, whatever the undo could not restore. */
  lemma RedoOfRemoveRemoves(tree: Node, out: map<nat, Node>, path: seq<nat>, index: nat)
    requires Distinct(tree) && IsPath(tree, path) && index < |At(tree, path).children|
    requires At(tree, path).children[index].id !in out
    ensures var action := RemoveAction(tree.id, At(tree, path), index);
      var removed := PerformAll(Scene(tree, out), action.doCalls);
      PerformAll(PerformAll(removed, action.undoCalls), action.doCalls) == removed
  {
    hide Distinct, Cleared, Update, OwnedBy, Marked, RemoveAction;
    var branch := At(tree, path).children[index];
    var ids := Among(OwnedBy(tree.id, branch));
    var again := Marked(Cleared(branch, {}), ids, tree.id);
    ChildPath(tree, path, index, branch);
    DistinctAt(tree, path + [index]);
    ShapeOfItself(branch);
    OwnedAreChosen(tree.id, branch);
    ChosenPicks(ids, branch, branch, tree.id);
    ClearsAlike(branch, {}, ids, tree.id);
    ClearedShape(branch, {});
    MarkedIds(Cleared(branch, {}), ids, tree.id);
    assert again.id == branch.id by { KeepsIds(branch, ids, tree.id); }
    DropsAlike(tree, path, index, again);
    Removes(tree, out, path, index);
    UndoneIs(tree, out, path, index);
    GivesBack(tree, path + [index], branch);
    var put := Put(tree, path + [index], again);
    Removes(put, out, path, index);
    SameDo(tree, At(tree, path), At(put, path), index);
  }

  lemma KeepsIds(n: Node, ids: set<nat>, root: nat)
    ensures Marked(Cleared(n, {}), ids, root).id == n.id
  {
  }

  lemma SameDo(tree: Node, a: Node, b: Node, index: nat)
    requires index < |a.children| && index < |b.children| && a.id == b.id && a.children[index].id == b.children[index].id
    ensures RemoveAction(tree.id, a, index).doCalls == RemoveAction(tree.id, b, index).doCalls
  {
  }

  // ----- Duplicate -----

  /** The walk over the source and its copy side by side. It stops where they do not match. */
  function Visit(root: nat, source: Node, copy: Node, isBranchRoot: bool): Option<seq<nat>> {
    if |source.children| != |copy.children| then None
    else
      var below := VisitAll(root, source.children, copy.children);
      if below.None? then None
      else Some((if !isBranchRoot && source.owner == Some(root) then [copy.id] else []) + below.value)
  }

  function VisitAll(root: nat, sources: seq<Node>, copies: seq<Node>): Option<seq<nat>>
    requires |sources| == |copies|
  {
    if sources == [] then Some([])
    else
      var first := Visit(root, sources[0], copies[0], false);
      var rest := VisitAll(root, sources[1..], copies[1..]);
      if first.None? || rest.None? then None else Some(first.value + rest.value)
  }

  lemma {:induction false} VisitsWhatMatches(root: nat, source: Node, copy: Node)
    ensures Visit(root, source, copy, false).Some? <==> SameShape(source, copy)
    ensures SameShape(source, copy) ==>
              Among(Visit(root, source, copy, false).value) == Chosen(source, copy, root)
  {
    if |source.children| == |copy.children| {
      VisitsAllThatMatch(root, source.children, copy.children);
      if SameShape(source, copy) {
        var all := Visit(root, source, copy, false).value;
        forall x ensures x in Among(all) <==> x in Chosen(source, copy, root) {}
      }
    }
  }

  lemma {:induction false} VisitsAllThatMatch(root: nat, sources: seq<Node>, copies: seq<Node>)
    requires |sources| == |copies|
    ensures VisitAll(root, sources, copies).Some?
       <==> forall i :: 0 <= i < |sources| ==> SameShape(sources[i], copies[i])
    ensures VisitAll(root, sources, copies).Some? ==>
      forall x :: x in VisitAll(root, sources, copies).value
             <==> exists i :: 0 <= i < |sources| && Picked(x, sources[i], copies[i], root)
  {
    if sources != [] {
      VisitsWhatMatches(root, sources[0], copies[0]);
      VisitsAllThatMatch(root, sources[1..], copies[1..]);
      hide SameShape, Picked;
      forall i | 1 <= i < |sources| ensures sources[i] == sources[1..][i - 1] && copies[i] == copies[1..][i - 1] {}
      if VisitAll(root, sources, copies).Some? {
        forall x ensures x in VisitAll(root, sources, copies).value
                    <==> exists i :: 0 <= i < |sources| && Picked(x, sources[i], copies[i], root) {
          VisitedByOne(root, sources, copies, x);
        }
      }
    }
  }

  predicate Picked(x: nat, source: Node, copy: Node, root: nat) {
    SameShape(source, copy) && x in Chosen(source, copy, root)
  }

  lemma VisitedByOne(root: nat, sources: seq<Node>, copies: seq<Node>, x: nat)
    requires |sources| == |copies| > 0 && VisitAll(root, sources, copies).Some?
    requires x in Visit(root, sources[0], copies[0], false).value <==> Picked(x, sources[0], copies[0], root)
    requires x in VisitAll(root, sources[1..], copies[1..]).value
      <==> exists i :: 0 <= i < |sources[1..]| && Picked(x, sources[1..][i], copies[1..][i], root)
    ensures x in VisitAll(root, sources, copies).value
      <==> exists i :: 0 <= i < |sources| && Picked(x, sources[i], copies[i], root)
  {
    hide Picked, Visit;
    if i :| 0 <= i < |sources[1..]| && Picked(x, sources[1..][i], copies[1..][i], root) {
      assert Picked(x, sources[i + 1], copies[i + 1], root);
    }
    if i :| 0 <= i < |sources| && Picked(x, sources[i], copies[i], root) {
      if i > 0 { assert Picked(x, sources[1..][i - 1], copies[1..][i - 1], root); }
    }
  }

  function DuplicateAction(root: nat, parent: nat, copy: nat, toOwn: seq<nat>): Action {
    Action([AddChild(parent, copy)] + SetAll([copy] + toOwn, root), [RemoveChild(parent, copy)])
  }

  /** No node of it is the root's yet. */
  predicate NotOwned(n: Node, root: nat) {
    n.owner != Some(root) && forall i :: 0 <= i < |n.children| ==> NotOwned(n.children[i], root)
  }

  /** In `copy` the root owns exactly the counterparts of what it owns in `source`. */
  predicate Mirrors(source: Node, copy: Node, root: nat) {
    && SameShape(source, copy) && (copy.owner == Some(root) <==> source.owner == Some(root))
    && forall i :: 0 <= i < |source.children| ==> Mirrors(source.children[i], copy.children[i], root)
  }

  /** A copy nobody owns any node of, with ids of its own. */
  predicate Loose(n: Node) {
    n.owner.None? && forall i :: 0 <= i < |n.children| ==> Loose(n.children[i])
  }

  lemma {:induction false} LooseIsNotOwned(n: Node, root: nat)
    requires Loose(n)
    ensures NotOwned(n, root)
  {
    forall i | 0 <= i < |n.children| ensures NotOwned(n.children[i], root) { LooseIsNotOwned(n.children[i], root); }
  }

  lemma {:induction false} MarkingMirrors(source: Node, copy: Node, ids: set<nat>, root: nat)
    requires SameShape(source, copy) && Picks(ids, source, copy, root) && NotOwned(copy, root)
    ensures Mirrors(source, Marked(copy, ids, root), root)
  {
    forall i | 0 <= i < |source.children|
      ensures Mirrors(source.children[i], Marked(copy.children[i], ids, root), root)
    {
      MarkingMirrors(source.children[i], copy.children[i], ids, root);
    }
  }

  /** The copy as the do calls leave it. */
  function Owned(source: Node, copy: Node, root: nat): Node
    requires Visit(root, source, copy, true).Some?
  {
    Marked(copy, Among([copy.id] + Visit(root, source, copy, true).value), root)
  }

  /** The ids given to the root are the copy's own and those its counterparts call for. */
  lemma CopiesToOwn(source: Node, copy: Node, root: nat)
    requires Visit(root, source, copy, true).Some?
    ensures var whole := source.(owner := Some(root));
      && SameShape(source, copy) && SameShape(whole, copy)
      && Among([copy.id] + Visit(root, source, copy, true).value) == Chosen(whole, copy, root)
  {
    var whole := source.(owner := Some(root));
    VisitsWhatMatches(root, source, copy);
    VisitsWhatMatches(root, whole, copy);
    var ids := Visit(root, source, copy, true).value;
    assert Visit(root, whole, copy, false).value == [copy.id] + ids;
  }

  /** The root owns the copy, and below it exactly the counterparts of what it owns below the source. */
  lemma CopyMirrorsSource(source: Node, copy: Node, root: nat)
    requires Visit(root, source, copy, true).Some? && Distinct(copy) && NotOwned(copy, root)
    ensures Mirrors(source.(owner := Some(root)), Owned(source, copy, root), root)
  {
    var whole := source.(owner := Some(root));
    var ids := Among([copy.id] + Visit(root, source, copy, true).value);
    CopiesToOwn(source, copy, root);
    ChosenPicks(ids, whole, copy, root);
    MarkingMirrors(whole, copy, ids, root);
  }

  /** The tree with the copy added below the node at `path`. */
  function WithCopy(tree: Node, path: seq<nat>, copy: Node): Node
    requires IsPath(tree, path)
  {
    Put(tree, path, AddedLast(At(tree, path), copy))
  }

  function AddedLast(parent: Node, copy: Node): Node {
    parent.(children := parent.children + [copy])
  }

  lemma IdsWithCopy(tree: Node, path: seq<nat>, copy: Node)
    requires Distinct(tree) && Distinct(copy) && IsPath(tree, path) && Ids(tree) !! Ids(copy)
    ensures Ids(WithCopy(tree, path, copy)) == Ids(tree) + Ids(copy) && Distinct(WithCopy(tree, path, copy))
  {
    hide Ids, IdsOf, Distinct;
    var parent := At(tree, path);
    var added := WithCopy(tree, path, copy);
    forall x ensures Ids(added)[x] == Ids(tree)[x] + Ids(copy)[x] {
      CountOfPut(tree, path, AddedLast(parent, copy), x);
      IdsOfAdded(parent, copy);
    }
    BothDistinct(tree, copy, added);
  }

  lemma IdsOfAdded(parent: Node, copy: Node)
    ensures Ids(AddedLast(parent, copy)) == Ids(parent) + Ids(copy)
  {
    IdsJoin(parent.children, [copy]);
    IdsOfOne(copy);
  }

  lemma BothDistinct(a: Node, b: Node, both: Node)
    requires Distinct(a) && Distinct(b) && Ids(a) !! Ids(b) && Ids(both) == Ids(a) + Ids(b)
    ensures Distinct(both)
  {
    hide Ids;
    forall x ensures Ids(both)[x] <= 1 {
      assert Ids(a)[x] <= 1 && Ids(b)[x] <= 1;
      assert x !in Ids(a) || x !in Ids(b);
    }
  }

  lemma CopyStands(tree: Node, path: seq<nat>, copy: Node, other: Node)
    requires IsPath(tree, path)
    ensures var added := WithCopy(tree, path, copy);
      var there := path + [|At(tree, path).children|];
      && IsPath(added, there) && At(added, there) == copy && Put(added, there, other) == WithCopy(tree, path, other)
  {
    var parent := At(tree, path);
    var k := |parent.children|;
    PutThere(tree, path, AddedLast(parent, copy));
    ChildPath(WithCopy(tree, path, copy), path, k, other);
    assert (parent.children + [copy])[k := other] == parent.children + [other];
  }

  /** Duplicate adds the copy last below the same parent, owned as its source is. */
  lemma Duplicates(tree: Node, out: map<nat, Node>, path: seq<nat>, source: Node, copy: Node)
    requires Distinct(tree) && Distinct(copy) && IsPath(tree, path) && Ids(tree) !! Ids(copy)
    requires Visit(tree.id, source, copy, true).Some?
    requires copy.id !in out
    ensures var ids := Visit(tree.id, source, copy, true).value;
      PerformAll(Scene(tree, out[copy.id := copy]), DuplicateAction(tree.id, At(tree, path).id, copy.id, ids).doCalls)
      == Scene(WithCopy(tree, path, Owned(source, copy, tree.id)), out)
  {
    hide Distinct, Update, Marked, Visit, Chosen, WithCopy;
    var ids := [copy.id] + Visit(tree.id, source, copy, true).value;
    var parent := At(tree, path);
    var s := Scene(tree, out[copy.id := copy]);
    var add := AddChild(parent.id, copy.id);
    UpdateIsPut(tree, path, Adding(copy));
    AddsTheCopy(tree, out, path, copy);
    PerformsBoth(s, [add], SetAll(ids, tree.id));
    PerformsSetAll(Scene(WithCopy(tree, path, copy), out), ids, tree.id);
    var added := WithCopy(tree, path, copy);
    SetOwnersMarks(added, ids, tree.id);
    CopyStands(tree, path, copy, Owned(source, copy, tree.id));
    IdsWithCopy(tree, path, copy);
    CopiesToOwn(source, copy, tree.id);
    ChosenInside(source.(owner := Some(tree.id)), copy, tree.id);
    MarkedBelow(added, path + [|parent.children|], Among(ids), tree.id);
  }

  lemma AddsTheCopy(tree: Node, out: map<nat, Node>, path: seq<nat>, copy: Node)
    requires Distinct(tree) && IsPath(tree, path)
    requires copy.id !in out
    ensures PerformAll(Scene(tree, out[copy.id := copy]), [AddChild(At(tree, path).id, copy.id)])
         == Scene(WithCopy(tree, path, copy), out)
  {
    hide Update;
    UpdateIsPut(tree, path, Adding(copy));
    var s := Scene(tree, out[copy.id := copy]);
    var add := AddChild(At(tree, path).id, copy.id);
    assert Perform(s, add) == Scene(WithCopy(tree, path, copy), out);
    assert [add][1..] == [];
  }

  lemma RemovesTheCopy(tree: Node, out: map<nat, Node>, path: seq<nat>, copy: Node)
    requires Distinct(tree) && Distinct(copy) && IsPath(tree, path) && Ids(tree) !! Ids(copy)
    ensures PerformAll(Scene(WithCopy(tree, path, copy), out), [RemoveChild(At(tree, path).id, copy.id)])
         == Scene(tree, out[copy.id := Cleared(copy, {})])
  {
    hide Update, Distinct, Dropped, Find;
    var parent := At(tree, path);
    var added := WithCopy(tree, path, copy);
    IdsWithCopy(tree, path, copy);
    CopyStands(tree, path, copy, copy);
    FindsAt(added, path + [|parent.children|]);
    PutThere(tree, path, AddedLast(parent, copy));
    UpdateIsPut(added, path, Dropping(copy.id));
    DropsLast(tree, path, copy);
    PutThere(tree, path, AddedLast(parent, copy));
    assert Put(added, path, parent) == tree;
    var call := RemoveChild(parent.id, copy.id);
    assert [call][1..] == [];
    assert Perform(Scene(added, out), call) == Scene(tree, out[copy.id := Cleared(copy, {})]);
  }

  lemma DropsLast(tree: Node, path: seq<nat>, copy: Node)
    requires IsPath(tree, path) && Ids(tree) !! Ids(copy)
    ensures var children := At(tree, path).children; Dropped(children + [copy], copy.id) == children
  {
    var children := At(tree, path).children;
    forall i | 0 <= i < |children| ensures children[i].id != copy.id {
      ChildPath(tree, path, i, copy);
      HasNodeAt(tree, path + [i]);
      assert copy.id in Ids(copy);
    }
    LastIndex(children, copy);
  }

  /** Undoing a duplicate gives back the tree as it was. */
  lemma UndoOfDuplicateRestores(tree: Node, out: map<nat, Node>, path: seq<nat>, source: Node, copy: Node)
    requires Distinct(tree) && Distinct(copy) && IsPath(tree, path) && Ids(tree) !! Ids(copy)
    requires Visit(tree.id, source, copy, true).Some?
    requires copy.id !in out
    ensures var action := DuplicateAction(tree.id, At(tree, path).id, copy.id, Visit(tree.id, source, copy, true).value);
      var done := PerformAll(Scene(tree, out[copy.id := copy]), action.doCalls);
      PerformAll(done, action.undoCalls) == Scene(tree, out[copy.id := Cleared(Owned(source, copy, tree.id), {})])
  {
    hide Distinct, Marked, Visit, WithCopy, Cleared, Ids;
    Duplicates(tree, out, path, source, copy);
    var ids := Among([copy.id] + Visit(tree.id, source, copy, true).value);
    OwnedKeeps(source, copy, tree.id);
    SameIdsDistinct(copy, Owned(source, copy, tree.id));
    RemovesTheCopy(tree, out, path, Owned(source, copy, tree.id));
  }

  lemma OwnedKeeps(source: Node, copy: Node, root: nat)
    requires Visit(root, source, copy, true).Some?
    ensures Owned(source, copy, root).id == copy.id && Ids(Owned(source, copy, root)) == Ids(copy)
  {
    MarkedIds(copy, Among([copy.id] + Visit(root, source, copy, true).value), root);
  }

  lemma {:induction false} LooseComesBack(copy: Node, ancestors: set<nat>, ids: set<nat>, root: nat)
    requires Loose(copy) && root !in ancestors && root !in Ids(copy)
    ensures Cleared(Marked(copy, ids, root), ancestors) == copy
  {
    var back := Cleared(Marked(copy, ids, root), ancestors);
    forall i | 0 <= i < |copy.children|
      ensures Cleared(Marked(copy.children[i], ids, root), ancestors + {copy.id}) == copy.children[i]
    {
      IdsSplit(copy.children, i);
      LooseComesBack(copy.children[i], ancestors + {copy.id}, ids, root);
    }
    assert back.children == copy.children;
  }

  /** A copy that nobody owned is back as it was made, so a redo comes to what the first do came to. */
  lemma RedoOfDuplicateRepeats(tree: Node, out: map<nat, Node>, path: seq<nat>, source: Node, copy: Node)
    requires Distinct(tree) && Distinct(copy) && IsPath(tree, path) && Ids(tree) !! Ids(copy) && Loose(copy)
    requires Visit(tree.id, source, copy, true).Some?
    requires copy.id !in out
    ensures var action := DuplicateAction(tree.id, At(tree, path).id, copy.id, Visit(tree.id, source, copy, true).value);
      var done := PerformAll(Scene(tree, out[copy.id := copy]), action.doCalls);
      var undone := PerformAll(done, action.undoCalls);
      undone == Scene(tree, out[copy.id := copy]) && PerformAll(undone, action.doCalls) == done
  {
    UndoOfDuplicateRestores(tree, out, path, source, copy);
    assert tree.id in Ids(tree);
    LooseComesBack(copy, {}, Among([copy.id] + Visit(tree.id, source, copy, true).value), tree.id);
  }

  // ----- Reparent -----

  function ReparentAction(parent: Node, index: nat, newParent: nat): Action
    requires index < |parent.children|
  {
    var child := parent.children[index].id;
    Action([Reparent(child, parent.id, newParent)],
           [Reparent(child, newParent, parent.id), MoveChild(parent.id, child, index)])
  }

  /** The checks before anything is registered: not to itself, and not beneath a descendant. */
  predicate Accepted(branch: Node, newParent: nat) {
    newParent != branch.id && newParent !in IdsOf(branch.children)
  }

  lemma TakenOut(tree: Node, path: seq<nat>, index: nat)
    requires Distinct(tree) && IsPath(tree, path) && index < |At(tree, path).children|
    ensures var parent := At(tree, path);
      var branch := parent.children[index];
      var rest := Update(tree, parent.id, Dropping(branch.id));
      && Find(tree, branch.id) == Some(branch)
      && Ids(tree) == Ids(rest) + Ids(branch) && Ids(rest) !! Ids(branch) && Distinct(rest) && Distinct(branch)
  {
    hide Ids, IdsOf;
    var parent := At(tree, path);
    var branch := parent.children[index];
    ChildPath(tree, path, index, branch);
    FindsAt(tree, path + [index]);
    DistinctAt(tree, path + [index]);
    DistinctAt(tree, path);
    SiblingsDiffer(parent, index);
    DropsAt(parent.children, index);
    UpdateIsPut(tree, path, Dropping(branch.id));
    var less := parent.(children := Without(parent.children, index));
    var rest := Update(tree, parent.id, Dropping(branch.id));
    forall x ensures Ids(tree)[x] == Ids(rest)[x] + Ids(branch)[x] && Ids(tree)[x] <= 1 {
      CountOfPut(tree, path, less, x);
      IdsOfLess(parent, index);
    }
    OneSideOnly(tree, rest, branch);
  }

  lemma IdsOfLess(parent: Node, index: nat)
    requires index < |parent.children|
    ensures Ids(parent) == Ids(parent.(children := Without(parent.children, index))) + Ids(parent.children[index])
  {
    IdsSplit(parent.children, index);
    IdsJoin(parent.children[..index], parent.children[index + 1..]);
  }

  lemma OneSideOnly(both: Node, a: Node, b: Node)
    requires forall x :: Ids(both)[x] == Ids(a)[x] + Ids(b)[x] && Ids(both)[x] <= 1
    ensures Ids(both) == Ids(a) + Ids(b) && Ids(a) !! Ids(b) && Distinct(a)
  {
    hide Ids;
    forall x ensures Ids(a)[x] <= 1 && (x !in Ids(a) || x !in Ids(b)) {
      assert Ids(both)[x] == Ids(a)[x] + Ids(b)[x] && Ids(both)[x] <= 1;
    }
  }

  lemma {:induction false} PathOf(n: Node, id: nat) returns (path: seq<nat>)
    requires id in Ids(n)
    ensures IsPath(n, path) && At(n, path).id == id
  {
    if n.id == id { return []; }
    var k := ChildWith(n.children, id);
    path := PathOf(n.children[k], id);
    path := [k] + path;
  }

  lemma {:induction false} ChildWith(ns: seq<Node>, id: nat) returns (k: nat)
    requires id in IdsOf(ns)
    ensures k < |ns| && id in Ids(ns[k])
  {
    hide Ids;
    var last := |ns| - 1;
    if id in Ids(ns[last]) { return last; }
    k := ChildWith(ns[..last], id);
  }

  /** Where a node goes when it is moved below `newParent`. */
  lemma Reparents(tree: Node, out: map<nat, Node>, path: seq<nat>, index: nat, newParent: nat) returns (below: seq<nat>)
    requires Distinct(tree) && IsPath(tree, path) && index < |At(tree, path).children|
    requires newParent in Ids(tree) && Accepted(At(tree, path).children[index], newParent)
    ensures var parent := At(tree, path);
      var branch := parent.children[index];
      var rest := Update(tree, parent.id, Dropping(branch.id));
      && IsPath(rest, below) && At(rest, below).id == newParent
      && PerformAll(Scene(tree, out), ReparentAction(parent, index, newParent).doCalls)
         == Scene(WithCopy(rest, below, branch), out)
  {
    hide Update, Distinct;
    var parent := At(tree, path);
    var branch := parent.children[index];
    TakenOut(tree, path, index);
    var rest := Update(tree, parent.id, Dropping(branch.id));
    below := PathOf(rest, newParent);
    UpdateIsPut(rest, below, Adding(branch));
    var call := Reparent(branch.id, parent.id, newParent);
    assert [call][1..] == [];
    assert Perform(Scene(tree, out), call).tree == WithCopy(rest, below, branch);
  }

  /** An accepted reparent keeps every node of the scene in the tree: no node ends up below itself. */
  lemma AcceptedReparentKeepsEveryNode(tree: Node, out: map<nat, Node>, path: seq<nat>, index: nat, newParent: nat)
    requires Distinct(tree) && IsPath(tree, path) && index < |At(tree, path).children| && newParent in Ids(tree)
    ensures var parent := At(tree, path);
      var moved := PerformAll(Scene(tree, out), ReparentAction(parent, index, newParent).doCalls).tree;
      Ids(moved) == Ids(tree) <==> Accepted(parent.children[index], newParent)
  {
    hide Update, Distinct, IdsOf, Find, Dropped;
    var parent := At(tree, path);
    var branch := parent.children[index];
    TakenOut(tree, path, index);
    var rest := Update(tree, parent.id, Dropping(branch.id));
    if Accepted(branch, newParent) {
      var below := Reparents(tree, out, path, index, newParent);
      IdsWithCopy(rest, below, branch);
    } else {
      assert newParent in Ids(branch);
      UpdateElsewhere(rest, newParent, Adding(branch));
      var call := Reparent(branch.id, parent.id, newParent);
      assert [call][1..] == [];
      assert Perform(Scene(tree, out), call).tree == rest;
      assert branch.id in Ids(branch);
    }
  }

  /** Undoing a reparent puts the branch back where it was, in its old place among its siblings. */
  lemma UndoOfReparentRestores(tree: Node, out: map<nat, Node>, path: seq<nat>, index: nat, newParent: nat)
    requires Distinct(tree) && IsPath(tree, path) && index < |At(tree, path).children|
    requires newParent in Ids(tree) && Accepted(At(tree, path).children[index], newParent)
    requires At(tree, path).children[index].id !in out
    ensures var action := ReparentAction(At(tree, path), index, newParent);
      PerformAll(PerformAll(Scene(tree, out), action.doCalls), action.undoCalls) == Scene(tree, out)
  {
    hide Update, Distinct, Accepted, Ids, Dropped, MovedTo, Find, WithCopy;
    var parent := At(tree, path);
    var branch := parent.children[index];
    TakenOut(tree, path, index);
    var rest := Update(tree, parent.id, Dropping(branch.id));
    var below := Reparents(tree, out, path, index, newParent);
    var moved := WithCopy(rest, below, branch);
    TakesBackOut(rest, below, branch);
    AddsAndMovesBack(tree, out, path, index, branch);
    ChildPath(tree, path, index, branch);
    PutThere(tree, path + [index], branch);
    AddThenMove(rest, out, parent.id, branch, index);
    BackAndMoved(moved, out, rest, branch, newParent, parent.id, index);
  }

  lemma TakesBackOut(rest: Node, below: seq<nat>, branch: Node)
    requires Distinct(rest) && Distinct(branch) && IsPath(rest, below) && Ids(rest) !! Ids(branch)
    ensures Find(WithCopy(rest, below, branch), branch.id) == Some(branch)
    ensures Update(WithCopy(rest, below, branch), At(rest, below).id, Dropping(branch.id)) == rest
  {
    hide Distinct, Update, Find, Dropped;
    var parent := At(rest, below);
    IdsWithCopy(rest, below, branch);
    CopyStands(rest, below, branch, branch);
    FindsAt(WithCopy(rest, below, branch), below + [|parent.children|]);
    PutThere(rest, below, AddedLast(parent, branch));
    UpdateIsPut(WithCopy(rest, below, branch), below, Dropping(branch.id));
    DropsLast(rest, below, branch);
    PutThere(rest, below, parent);
  }

  lemma BackAndMoved(moved: Node, out: map<nat, Node>, rest: Node, branch: Node, newParent: nat, parent: nat, index: nat)
    requires Find(moved, branch.id) == Some(branch) && Update(moved, newParent, Dropping(branch.id)) == rest
    ensures PerformAll(Scene(moved, out), [Reparent(branch.id, newParent, parent), MoveChild(parent, branch.id, index)])
         == Scene(Update(Update(rest, parent, Adding(branch)), parent, Moving(branch.id, index)), out)
  {
    hide Update, Find;
    var calls := [Reparent(branch.id, newParent, parent), MoveChild(parent, branch.id, index)];
    assert calls[1..] == [MoveChild(parent, branch.id, index)] && calls[1..][1..] == [];
    var s1 := Perform(Scene(moved, out), calls[0]);
    assert s1 == Scene(Update(rest, parent, Adding(branch)), out);
    var s2 := Perform(s1, calls[1]);
    assert PerformAll(s1, calls[1..]) == PerformAll(s2, []) == s2;
    assert PerformAll(Scene(moved, out), calls) == PerformAll(s1, calls[1..]);
  }
}
