/** The edited scene with its undo history: what each edit checks, registers and commits. */
module SceneEditor {
  import opened Text
  import opened NodeTree
  import opened NodeEdits
  import opened NodeCopies
  import opened NodeOwnership
  import opened SceneLikeness
  import opened SceneHistory
  import opened EditLinks
  import S = SceneSessions

  class EditedScene {
    var scene: Scene
    var actions: seq<Action>
    var done: nat
    ghost var past: seq<Scene>   // the scenes the actions lead through

    ghost function Now(): S.Session
      reads this
    {
      S.Session(scene, actions, done)
    }

    ghost predicate Valid()
      reads this
    {
      S.Backed(false, Now(), 0, past)
    }

    constructor (tree: Node)
      requires Distinct(tree)
      ensures Valid() && S.Opened(Now()) && scene.tree == tree
    {
      scene, actions, done := Scene(tree, map[]), [], 0;
      past := [Scene(tree, map[])];
      new;
      S.OpenedIsBacked(Now());
    }

    method Run(calls: seq<Call>)
      modifies this`scene
      ensures scene == PerformAll(old(scene), calls)
    {
      hide Perform;
      for i := 0 to |calls|
        invariant PerformAll(scene, calls[i..]) == PerformAll(old(scene), calls)
      {
        assert calls[i..][1..] == calls[i + 1..];
        scene := Perform(scene, calls[i]);
      }
      assert calls[|calls|..] == [];
    }

    /** The do calls run once when the action is committed, and what was undone can no longer be redone. */
    method Commit(action: Action)
      requires done <= |actions|
      modifies this`scene, this`actions, this`done
      ensures Now() == S.Session(PerformAll(old(scene), action.doCalls), old(actions)[..old(done)] + [action], old(done) + 1)
    {
      Run(action.doCalls);
      actions, done := actions[..done] + [action], done + 1;
    }

    method Undo() returns (ok: bool)
      requires Valid()
      modifies this
      ensures Valid() && Now() == S.Next(old(Now()), S.Undo)
      ensures ok <==> old(done) > 0
      ensures ok ==> done + 1 == old(done) && actions == old(actions) && Same(false, old(past)[done], scene)
      ensures |past| == |old(past)| && forall i :: 0 <= i < |past| ==> Same(false, old(past)[i], past[i])
    {
      hide S.Backed, Same;
      S.BackedParts(false, Now(), 0, past);
      ghost var before := Now();
      assert S.May(before, S.Undo);
      ghost var led := S.WalkKeeps(false, before, 0, past, S.Undo);
      ok := done > 0;
      if ok {
        Run(actions[done - 1].undoCalls);
        done := done - 1;
      }
      past := led;
      S.BackedParts(false, Now(), 0, past);
    }

    method Redo() returns (ok: bool)
      requires Valid()
      modifies this
      ensures Valid() && Now() == S.Next(old(Now()), S.Redo)
      ensures ok <==> old(done) < |old(actions)|
      ensures ok ==> done == old(done) + 1 && actions == old(actions) && Same(false, old(past)[done], scene)
      ensures |past| == |old(past)| && forall i :: 0 <= i < |past| ==> Same(false, old(past)[i], past[i])
    {
      hide S.Backed, Same;
      S.BackedParts(false, Now(), 0, past);
      ghost var before := Now();
      assert S.May(before, S.Redo);
      ghost var led := S.WalkKeeps(false, before, 0, past, S.Redo);
      ok := done < |actions|;
      if ok {
        Run(actions[done].doCalls);
        done := done + 1;
      }
      past := led;
      S.BackedParts(false, Now(), 0, past);
    }

    /** scene.removeNode for the child at `index` of the node at `path`: the branch leaves the tree with the
        owners it has inside itself. */
    method RemoveNode(path: seq<nat>, index: nat, settings: Settings) returns (ok: bool)
      requires Valid() && IsPath(scene.tree, path) && index < |At(scene.tree, path).children|
      modifies this
      ensures Valid() && Now() == S.Next(old(Now()), S.Remove(path, index, settings))
      ensures var branch := At(old(scene.tree), path).children[index];
        && (ok <==> MayRestructure(old(scene.tree), branch, settings))
        && scene == if ok then Scene(Less(old(scene.tree), path, index), old(scene.out)[branch.id := Cleared(branch, {})])
                    else old(scene)
    {
      hide S.Backed, Less, PerformAll, MayRestructure, Cleared;
      var parent := At(scene.tree, path);
      var child := parent.children[index];
      ghost var before, step := Now(), S.Remove(path, index, settings);
      S.BackedParts(false, before, 0, past);
      RemoveLeads(scene, path, index);
      ok := MayRestructure(scene.tree, child, settings);
      if !ok { return; }
      var owned := CollectNodesOwnedBy(scene.tree.id, child);
      var action := Action(
        [RemoveChild(parent.id, child.id)],
        [AddChild(parent.id, child.id), MoveChild(parent.id, child.id, index)] + SetAll(owned, scene.tree.id));
      ghost var led := S.EditKeeps(false, before, 0, past, step);
      Commit(action);
      past := led;
    }

    /** scene.reparentNode: refused where the new parent is not in the scene, is the node or below it, or is one
        a save would drop a child of. */
    method ReparentNode(path: seq<nat>, index: nat, newParent: nat, settings: Settings)
      returns (ok: bool, ghost below: seq<nat>)
      requires Valid() && IsPath(scene.tree, path) && index < |At(scene.tree, path).children|
      modifies this
      ensures Valid() && Now() == S.Next(old(Now()), S.Reparent(path, index, newParent, settings))
      ensures var branch, found := At(old(scene.tree), path).children[index], Find(old(scene.tree), newParent);
        ok <==> && MayRestructure(old(scene.tree), branch, settings)
                && found.Some? && !Foreign(old(scene.tree), found.value, settings.editable)
                && newParent !in Ids(branch)
      ensures ok ==>
                var rest := Less(old(scene.tree), path, index);
                && IsPath(rest, below) && At(rest, below).id == newParent
                && scene == Scene(WithCopy(rest, below, At(old(scene.tree), path).children[index]), old(scene.out))
      ensures !ok ==> scene == old(scene)
    {
      hide S.Backed, Less, PerformAll, MayRestructure, Foreign, WithCopy, Find;
      var parent := At(scene.tree, path);
      var child := parent.children[index];
      ghost var before, step := Now(), S.Reparent(path, index, newParent, settings);
      S.BackedParts(false, before, 0, past);
      ok, below := false, [];
      if !MayRestructure(scene.tree, child, settings) { return; }
      var found := Find(scene.tree, newParent);
      if found.None? || Foreign(scene.tree, found.value, settings.editable) || newParent == child.id { return; }
      var isDescendant := newParent in IdsOf(child.children);
      if isDescendant { return; }
      S.FindsNode(scene, newParent);
      below := ReparentLeads(scene, path, index, newParent);
      ghost var led := S.EditKeeps(false, before, 0, past, step);
      Commit(ReparentAction(parent, index, newParent));
      past := led;
      ok := true;
    }

    /** scene.duplicateNode, given the copy the engine made of the branch: it is added last below the same parent,
        owned as its source is. */
    method DuplicateNode(path: seq<nat>, index: nat, copy: Node, settings: Settings) returns (ok: bool)
      requires Valid() && IsPath(scene.tree, path) && index < |At(scene.tree, path).children|
      requires Loose(copy) && New(scene, copy)
      modifies this
      ensures Valid() && Now() == S.Next(old(Now()), S.Duplicate(path, index, copy, settings))
      ensures var source := At(old(scene.tree), path).children[index];
        ok <==> MayRestructure(old(scene.tree), source, settings) && SameShape(source, copy)
      ensures ok ==>
                var root, source := old(scene.tree).id, At(old(scene.tree), path).children[index];
                && Visit(root, source, copy, true).Some?
                && Mirrors(source.(owner := Some(root)), Owned(source, copy, root), root)
                && scene == Scene(WithCopy(old(scene.tree), path, Owned(source, copy, root)), old(scene.out))
      ensures !ok ==> scene == old(scene)
    {
      hide S.Backed, PerformAll, MayRestructure, WithCopy, Mirrors, Loose, Distinct, Ids;
      var parent := At(scene.tree, path);
      var source := parent.children[index];
      var root := scene.tree.id;
      ghost var before, step := Now(), S.Duplicate(path, index, copy, settings);
      S.BackedParts(false, before, 0, past);
      VisitsFromTheRoot(root, source, copy);
      ok := false;
      if !MayRestructure(scene.tree, source, settings) { return; }
      var toOwn := Visit(root, source, copy, true);
      if toOwn.None? { return; }
      DuplicateLinks(false, scene, path, source, copy);
      LooseIsNotOwned(copy, root);
      CopyMirrorsSource(source, copy, root);
      ghost var led := S.EditKeeps(false, before, 0, past, step);
      scene := scene.(out := scene.out[copy.id := copy]);
      Commit(DuplicateAction(root, parent.id, copy.id, toOwn.value));
      past := led;
      ok := true;
    }
  }

  lemma VisitsFromTheRoot(root: nat, source: Node, copy: Node)
    ensures Visit(root, source, copy, true).Some? <==> SameShape(source, copy)
  {
    VisitsWhatMatches(root, source, copy);
  }
}
