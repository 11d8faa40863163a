module NodeOwnership {
  // Which edits a scene refuses because a save would drop them.

  import opened Text
  import opened NodeTree
  import opened NodeEdits

  /** What the editor knows about the scene beside its nodes: the instances with Editable Children, and the
      nodes that come from a base scene. */
  datatype Settings = Settings(editable: set<nat>, inherited: set<nat>)

  /** Owned neither by the scene nor by an instance whose children may be edited. */
  predicate Foreign(tree: Node, node: Node, editable: set<nat>) {
    && node.id != tree.id && node.owner != Some(tree.id)
    && (node.owner.None? || node.owner.value !in IdsOf(tree.children) || node.owner.value !in editable)
  }

  /** May it be removed, moved or duplicated? */
  predicate MayRestructure(tree: Node, node: Node, settings: Settings) {
    !Foreign(tree, node, settings.editable) && (node.owner == Some(tree.id) ==> node.id !in settings.inherited)
  }

  /** A node let through because its instance has Editable Children is one whose owner an undo cannot give
      back. Of the nodes a remove accepts, the others are the scene's own. */
  lemma EditableIsNotRestorable(tree: Node, node: Node, settings: Settings)
    requires MayRestructure(tree, node, settings) && node.id != tree.id
    ensures Restorable(node, tree.id, {})
       <==> node.owner == Some(tree.id)
            && forall i :: 0 <= i < |node.children| ==> Restorable(node.children[i], tree.id, {node.id})
  {
    assert {} + {node.id} == {node.id};
  }

  /** What a refusal advises helps: turning on Editable Children for an instance of the scene lets in the nodes that
      instance owns and no others. Without any, only the scene's own nodes and its root are let in. */
  lemma AdviceHelps(tree: Node, node: Node, editable: set<nat>, instance: nat)
    ensures Foreign(tree, node, {}) <==> node.id != tree.id && node.owner != Some(tree.id)
    ensures Foreign(tree, node, editable + {instance})
       <==> Foreign(tree, node, editable) && !(instance in IdsOf(tree.children) && node.owner == Some(instance))
  {
  }

  /** A node an undo put back without its owner is refused from then on, whatever is made editable. */
  lemma UndoneIsRefused(tree: Node, out: map<nat, Node>, path: seq<nat>, index: nat, settings: Settings, later: Settings)
    requires Distinct(tree) && IsPath(tree, path) && index < |At(tree, path).children|
    requires At(tree, path).children[index].id !in out
    requires var branch := At(tree, path).children[index];
      MayRestructure(tree, branch, settings) && branch.owner != Some(tree.id)
    ensures var branch := At(tree, path).children[index];
      var action := RemoveAction(tree.id, At(tree, path), index);
      var undone := PerformAll(PerformAll(Scene(tree, out), action.doCalls), action.undoCalls).tree;
      && IsPath(undone, path + [index]) && At(undone, path + [index]).id == branch.id
      && At(undone, path + [index]).owner.None? && !MayRestructure(undone, At(undone, path + [index]), later)
  {
    hide Distinct, OwnedBy, RemoveAction, PerformAll, Restorable, Ids, MayRestructure, Foreign, At, Put;
    var branch := At(tree, path).children[index];
    var place := path + [index];
    UndoneIs(tree, out, path, index);
    ChildPath(tree, path, index, branch);
    GivesBack(tree, place, branch);
    RootIsNotOwned(tree, place, branch);
    var back := Marked(Cleared(branch, {}), Among(OwnedBy(tree.id, branch)), tree.id);
    PutThere(tree, place, back);
    assert back.id == branch.id && back.owner.None?;
    PutKeepsRoot(tree, place, back);
    UnownedIsRefused(Put(tree, place, back), back, later);
  }

  lemma UnownedIsRefused(tree: Node, node: Node, settings: Settings)
    requires node.id != tree.id && node.owner.None?
    ensures !MayRestructure(tree, node, settings)
  {
  }

  lemma PutKeepsRoot(tree: Node, path: seq<nat>, sub: Node)
    requires path != [] && IsPath(tree, path)
    ensures Put(tree, path, sub).id == tree.id
  {
  }

  /** A branch the root does not own is not among the nodes of it that the root owns. */
  lemma RootIsNotOwned(tree: Node, path: seq<nat>, branch: Node)
    requires Distinct(tree) && path != [] && IsPath(tree, path) && At(tree, path) == branch && branch.owner != Some(tree.id)
    ensures branch.id !in Among(OwnedBy(tree.id, branch)) && branch.id != tree.id
  {
    hide Distinct, OwnedBy, Ids;
    DistinctAt(tree, path);
    ShapeOfItself(branch);
    OwnedAreChosen(tree.id, branch);
    ChosenPicks(Among(OwnedBy(tree.id, branch)), branch, branch, tree.id);
    OwnIdIsIn(branch);
  }

  lemma OwnIdIsIn(n: Node)
    ensures n.id in Ids(n)
  {
  }

  /** Scene 0 with an instance 1 of its own, and in the instance a node 2 that is the instance's. */
  const INSTANCED := Node(0, None, [Node(1, Some(0), [Node(2, Some(1), [])])])

  /** Removing that node is accepted, and undoing it leaves the node without its owner. */
  lemma UndoLosesOwner(out: map<nat, Node>)
    requires 2 !in out
    ensures MayRestructure(INSTANCED, Node(2, Some(1), []), Settings({1}, {}))
    ensures var action := RemoveAction(0, INSTANCED.children[0], 0);
      var undone := PerformAll(PerformAll(Scene(INSTANCED, out), action.doCalls), action.undoCalls);
      undone == Scene(Node(0, None, [Node(1, Some(0), [Node(2, None, [])])]), out) && undone.tree != INSTANCED
  {
    var one, two := INSTANCED.children[0], Node(2, Some(1), []);
    assert IdsOf([two]) == multiset{2} by { IdsOfOne(two); }
    assert IdsOf([one]) == multiset{1, 2} by { IdsOfOne(one); }
    assert IsPath(INSTANCED, [0]) && At(INSTANCED, [0]) == one by { assert [0][1..] == []; }
    UndoneIs(INSTANCED, out, [0], 0);
    LosesOwner();
  }

  lemma LosesOwner()
    ensures IsPath(INSTANCED, [0, 0]) && [0] + [0] == [0, 0] && OwnedBy(0, Node(2, Some(1), [])) == []
    ensures Put(INSTANCED, [0, 0], Cleared(Node(2, Some(1), []), {}))
         == Node(0, None, [Node(1, Some(0), [Node(2, None, [])])])
  {
    var one, two := INSTANCED.children[0], Node(2, None, []);
    assert [0, 0][1..] == [0] && [0][1..] == [];
    assert Put(one, [0], two) == Node(1, Some(0), [two]);
    assert Put(INSTANCED, [0, 0], two) == Node(0, None, [Put(one, [0], two)]);
    assert Cleared(Node(2, Some(1), []), {}) == two;
  }
}
