/** Editing sessions: what any run of edits, undos and redos comes to. */
module SceneSessions {
  import opened Text
  import opened NodeTree
  import opened NodeEdits
  import opened NodeCopies
  import opened NodeOwnership
  import opened SceneLikeness
  import opened SceneHistory
  import opened EditLinks

  /** The scene, the actions of the history and how many of them are in effect. */
  datatype Session = Session(scene: Scene, actions: seq<Action>, done: nat)

  datatype Step =
    | Remove(path: seq<nat>, index: nat, settings: Settings)
    | Reparent(path: seq<nat>, index: nat, newParent: nat, settings: Settings)
    | Duplicate(path: seq<nat>, index: nat, copy: Node, settings: Settings)
    | Undo
    | Redo

  predicate IsEdit(step: Step) {
    !step.Undo? && !step.Redo?
  }

  predicate HasTarget(tree: Node, step: Step)
    requires IsEdit(step)
  {
    IsPath(tree, step.path) && step.index < |At(tree, step.path).children|
  }

  function Target(tree: Node, step: Step): Node
    requires IsEdit(step) && HasTarget(tree, step)
  {
    At(tree, step.path).children[step.index]
  }

  /** The edit is about a node of the scene that is not its root. The copy is one the engine has just made:
      its ids are its own and nobody owns any node of it. */
  ghost predicate May(s: Session, step: Step) {
    && s.done <= |s.actions|
    && (IsEdit(step) ==> HasTarget(s.scene.tree, step))
    && (step.Duplicate? ==> Loose(step.copy) && New(s.scene, step.copy))
  }

  /** What an edit registers, or nothing where it is refused. */
  function Registered(tree: Node, step: Step): Option<Action>
    requires IsEdit(step) && HasTarget(tree, step)
  {
    var parent := At(tree, step.path);
    var node := Target(tree, step);
    if !MayRestructure(tree, node, step.settings) then None
    else
      match step
      case Remove(_, index, _) => Some(RemoveAction(tree.id, parent, index))
      case Reparent(_, index, newParent, settings) =>
        var found := Find(tree, newParent);
        if found.None? || Foreign(tree, found.value, settings.editable) || !Accepted(node, newParent) then None
        else Some(ReparentAction(parent, index, newParent))
      case Duplicate(_, _, copy, _) =>
        var toOwn := Visit(tree.id, node, copy, true);
        if toOwn.None? then None else Some(DuplicateAction(tree.id, parent.id, copy.id, toOwn.value))
  }

  function Before(scene: Scene, step: Step): Scene {
    if step.Duplicate? then With(scene, step.copy) else scene
  }

  predicate Commits(s: Session, step: Step) {
    IsEdit(step) && HasTarget(s.scene.tree, step) && Registered(s.scene.tree, step).Some?
  }

  ghost function Next(s: Session, step: Step): Session
    requires May(s, step)
  {
    match step
    case Undo =>
      if s.done == 0 then s
      else Session(PerformAll(s.scene, s.actions[s.done - 1].undoCalls), s.actions, s.done - 1)
    case Redo =>
      if s.done == |s.actions| then s
      else Session(PerformAll(s.scene, s.actions[s.done].doCalls), s.actions, s.done + 1)
    case _ =>
      var action := Registered(s.scene.tree, step);
      if action.None? then s
      else Session(PerformAll(Before(s.scene, step), action.value.doCalls), s.actions[..s.done] + [action.value], s.done + 1)
  }

  /** An edit whose undo gives back every owner. */
  predicate Clean(tree: Node, step: Step) {
    step.Remove? && HasTarget(tree, step) ==> Restorable(Target(tree, step), tree.id, {})
  }

  /** The actions from `base` on lead through the scenes of `past`, and the session stands at its place among
      them. */
  ghost predicate Backed(exact: bool, s: Session, base: nat, past: seq<Scene>) {
    && base <= s.done <= |s.actions| && Chain(exact, s.actions[base..], past)
    && s.scene == past[s.done - base]
  }

  predicate SameTree(exact: bool, a: Node, b: Node) {
    if exact then a == b else Bare(a) == Bare(b)
  }

  // ----- One step -----

  lemma FindsNode(s: Scene, id: nat)
    requires Find(s.tree, id).Some?
    ensures id in Ids(s.tree)
  {
    if id !in Ids(s.tree) { FindsNothing(s.tree, id); }
  }

  lemma CommitLinks(exact: bool, s: Session, step: Step)
    requires Tidy(s.scene) && May(s, step) && Commits(s, step) && (exact ==> Clean(s.scene.tree, step))
    ensures var a := Registered(s.scene.tree, step).value;
      var from, to := Before(s.scene, step), Next(s, step).scene;
      Links(exact, a, from, to) && Confined(a, from) && Tidy(to) && SameNodes(from, to)
  {
    hide Tidy, Links, Confined, SameNodes, Accepted, Visit, Restorable, MayRestructure, Foreign, New, PerformAll, Find;
    match step
    case Remove(path, index, _) => RemoveLinks(exact, s.scene, path, index);
    case Reparent(path, index, newParent, _) =>
      FindsNode(s.scene, newParent);
      ReparentLinks(exact, s.scene, path, index, newParent);
    case Duplicate(path, index, copy, _) => DuplicateLinks(exact, s.scene, path, Target(s.scene.tree, step), copy);
  }

  /** The copy to be added stands outside the tree in every scene that leads up to it. */
  lemma Readied(exact: bool, actions: seq<Action>, past: seq<Scene>, step: Step) returns (past': seq<Scene>)
    requires Chain(exact, actions, past) && (step.Duplicate? ==> New(past[|actions|], step.copy))
    ensures Chain(exact, actions, past') && |past'| == |past| && past'[|actions|] == Before(past[|actions|], step)
    ensures forall i :: 0 <= i < |past| ==> past'[i].tree == past[i].tree
  {
    past' := past;
    if step.Duplicate? {
      assert SameNodes(past[0], past[|actions|]);
      ChainWith(exact, actions, past, step.copy);
      past' := AllWith(past, step.copy);
    }
  }

  lemma Appended(s: Session, base: nat, a: Action)
    requires base <= s.done <= |s.actions|
    ensures (s.actions[..s.done] + [a])[base..] == s.actions[base..][..s.done - base] + [a]
  {
  }

  lemma NextIs(s: Session, step: Step)
    requires May(s, step) && Commits(s, step)
    ensures var a := Registered(s.scene.tree, step).value;
      Next(s, step) == Session(PerformAll(Before(s.scene, step), a.doCalls), s.actions[..s.done] + [a], s.done + 1)
    ensures step.Duplicate? ==> New(s.scene, step.copy)
  {
    hide HasTarget, PerformAll, Registered, New, Loose;
  }

  lemma BackedParts(exact: bool, s: Session, base: nat, past: seq<Scene>)
    requires Backed(exact, s, base, past)
    ensures base <= s.done <= |s.actions| && |past| == |s.actions| - base + 1 && s.scene == past[s.done - base]
    ensures Chain(exact, s.actions[base..], past) && Tidy(s.scene)
  {
  }

  /** An edit keeps what leads up to it and adds one scene. */
  lemma EditKeeps(exact: bool, s: Session, base: nat, past: seq<Scene>, step: Step) returns (past': seq<Scene>)
    requires Backed(exact, s, base, past) && May(s, step) && Commits(s, step) && (exact ==> Clean(s.scene.tree, step))
    ensures Backed(exact, Next(s, step), base, past') && |past'| == s.done - base + 2
    ensures forall i :: 0 <= i <= s.done - base ==> past'[i].tree == past[i].tree
    ensures past'[s.done - base + 1] == Next(s, step).scene
  {
    hide *;
    BackedParts(exact, s, base, past);
    CommitLinks(exact, s, step);
    CommitsIs(s, step);
    NextIs(s, step);
    var a := Registered(s.scene.tree, step).value;
    past' := KeptAndAdded(exact, s, base, past, step, a, Next(s, step).scene);
  }

  lemma CommitsIs(s: Session, step: Step)
    requires Commits(s, step)
    ensures IsEdit(step) && HasTarget(s.scene.tree, step) && Registered(s.scene.tree, step).Some?
  {
  }

  lemma KeptAndAdded(exact: bool, s: Session, base: nat, past: seq<Scene>, step: Step, a: Action, to: Scene)
    returns (past': seq<Scene>)
    requires Backed(exact, s, base, past) && (step.Duplicate? ==> New(s.scene, step.copy))
    requires var from := Before(s.scene, step); Links(exact, a, from, to) && Confined(a, from) && Tidy(to) && SameNodes(from, to)
    ensures Backed(exact, Session(to, s.actions[..s.done] + [a], s.done + 1), base, past') && |past'| == s.done - base + 2
    ensures forall i :: 0 <= i <= s.done - base ==> past'[i].tree == past[i].tree
    ensures past'[s.done - base + 1] == to
  {
    hide *;
    var n := s.done - base;
    BackedParts(exact, s, base, past);
    ChainCut(exact, s.actions[base..], past, n);
    past' := Readied(exact, s.actions[base..][..n], past[..n + 1], step);
    past' := Extended(exact, s, base, past', a, Before(s.scene, step), to);
  }

  lemma Extended(exact: bool, s: Session, base: nat, past: seq<Scene>, a: Action, from: Scene, to: Scene)
    returns (past': seq<Scene>)
    requires base <= s.done <= |s.actions| && |past| == s.done - base + 1 && past[s.done - base] == from
    requires Chain(exact, s.actions[base..][..s.done - base], past)
    requires Links(exact, a, from, to) && Confined(a, from) && Tidy(to) && SameNodes(from, to)
    ensures Backed(exact, Session(to, s.actions[..s.done] + [a], s.done + 1), base, past')
    ensures past' == past + [to]
  {
    hide Chain, Links, Confined, Tidy, SameNodes;
    ChainGrows(exact, s.actions[base..][..s.done - base], past, a, to);
    past' := past + [to];
    Appended(s, base, a);
  }

  lemma ChainLength(exact: bool, actions: seq<Action>, past: seq<Scene>)
    requires Chain(exact, actions, past)
    ensures |past| == |actions| + 1
  {
  }

  /** An undo or a redo goes one place back or on. */
  lemma WalkKeeps(exact: bool, s: Session, base: nat, past: seq<Scene>, step: Step) returns (past': seq<Scene>)
    requires Backed(exact, s, base, past) && May(s, step) && !IsEdit(step) && (step.Undo? && s.done == base ==> base == 0)
    ensures Backed(exact, Next(s, step), base, past') && |past'| == |past|
    ensures forall i :: 0 <= i < |past| ==> Same(exact, past[i], past'[i])
  {
    var t := Next(s, step).scene;
    var p := Next(s, step).done - base;
    WalkReaches(exact, s, base, past, step);
    hide Same, Chain, PerformAll, HasTarget, Registered;
    ChainLength(exact, s.actions[base..], past);
    ChainSwaps(exact, s.actions[base..], past, p, t);
    past' := past[p := t];
    forall i | 0 <= i < |past| ensures Same(exact, past[i], past'[i]) { SameAsItself(exact, past[i]); }
  }

  lemma WalkReaches(exact: bool, s: Session, base: nat, past: seq<Scene>, step: Step)
    requires Backed(exact, s, base, past) && May(s, step) && !IsEdit(step) && (step.Undo? && s.done == base ==> base == 0)
    ensures base <= Next(s, step).done <= |s.actions| && Next(s, step).actions == s.actions
    ensures Same(exact, past[Next(s, step).done - base], Next(s, step).scene)
  {
    hide Same, Tidy, SameNodes, Confined, PerformAll, HasTarget, Registered;
    var n := s.done - base;
    SameAsItself(exact, s.scene);
    if step.Undo? && s.done > base {
      assert Links(exact, s.actions[base..][n - 1], past[n - 1], past[n]);
      SameBack(exact, PerformAll(past[n], s.actions[s.done - 1].undoCalls), past[n - 1]);
    } else if step.Redo? && s.done < |s.actions| {
      assert Links(exact, s.actions[base..][n], past[n], past[n + 1]);
      SameBack(exact, PerformAll(past[n], s.actions[s.done].doCalls), past[n + 1]);
    }
  }

  lemma SameAsItself(exact: bool, s: Scene)
    ensures Same(exact, s, s)
  {
  }

  lemma SameBack(exact: bool, s: Scene, t: Scene)
    requires Same(exact, s, t)
    ensures Same(exact, t, s)
  {
  }

  /** No step loses a node or brings one in twice. Only a duplicate brings any. */
  lemma StepKeepsNodes(s: Session, past: seq<Scene>, step: Step)
    requires Backed(false, s, 0, past) && May(s, step)
    ensures forall x :: Holds(Next(s, step).scene, x)
                   <==> Holds(s.scene, x) || (step.Duplicate? && Commits(s, step) && x in Ids(step.copy))
  {
    assert Tidy(s.scene);
    if Commits(s, step) {
      CommitLinks(false, s, step);
      if step.Duplicate? { WithIsTidy(s.scene, step.copy); }
    } else if !IsEdit(step) {
      WalkReaches(false, s, 0, past, step);
      WalkKeepsNodes(s, past, Next(s, step).done, Next(s, step).scene);
    }
  }

  lemma WalkKeepsNodes(s: Session, past: seq<Scene>, p: nat, t: Scene)
    requires Backed(false, s, 0, past) && p <= |s.actions| && Same(false, past[p], t)
    ensures SameNodes(s.scene, t)
  {
    assert Tidy(past[p]) && SameNodes(past[0], past[p]) && SameNodes(past[0], past[s.done]);
    SameIsTidy(false, past[p], t);
  }

  // ----- Runs -----

  /** A scene just opened. */
  ghost predicate Opened(s: Session) {
    s.scene.out == map[] && s.actions == [] && s.done == 0 && Distinct(s.scene.tree)
  }

  ghost predicate IsRun(states: seq<Session>, steps: seq<Step>) {
    && |states| == |steps| + 1 && Opened(states[0])
    && forall i {:trigger steps[i]} :: 0 <= i < |steps| ==>
         May(states[i], steps[i]) && states[i + 1] == Next(states[i], steps[i])
  }

  lemma StepKeepsBacked(s: Session, past: seq<Scene>, step: Step) returns (past': seq<Scene>)
    requires Backed(false, s, 0, past) && May(s, step)
    ensures Backed(false, Next(s, step), 0, past')
  {
    hide Backed, Registered, HasTarget;
    if Commits(s, step) {
      past' := EditKeeps(false, s, 0, past, step);
    } else if IsEdit(step) {
      past' := past;
    } else {
      past' := WalkKeeps(false, s, 0, past, step);
    }
  }

  lemma {:induction false} RunIsBacked(states: seq<Session>, steps: seq<Step>, k: nat) returns (past: seq<Scene>)
    requires IsRun(states, steps) && k < |states|
    ensures Backed(false, states[k], 0, past)
  {
    hide Backed, May, Next;
    if k == 0 {
      past := [states[0].scene];
      OpenedIsBacked(states[0]);
    } else {
      past := RunIsBacked(states, steps, k - 1);
      past := StepKeepsBacked(states[k - 1], past, steps[k - 1]);
    }
  }

  lemma OpenedIsBacked(s: Session)
    requires Opened(s)
    ensures Backed(false, s, 0, [s.scene])
  {
    ChainOfOne(false, s.scene);
  }

  /** In every state of every run the ids of the tree and of each branch outside it are distinct and no two
      of these share one. */
  lemma EveryRunIsTidy(states: seq<Session>, steps: seq<Step>, k: nat)
    requires IsRun(states, steps) && k < |states|
    ensures Tidy(states[k].scene)
  {
    var past := RunIsBacked(states, steps, k);
  }

  /** No node is ever lost, whatever is edited, undone and redone. */
  lemma {:induction false} NoNodeIsLost(states: seq<Session>, steps: seq<Step>, j: nat, k: nat, x: nat)
    requires IsRun(states, steps) && j <= k < |states| && Holds(states[j].scene, x)
    ensures Holds(states[k].scene, x)
    decreases k
  {
    hide Holds, May, Next, Backed;
    if j < k {
      NoNodeIsLost(states, steps, j, k - 1, x);
      var past := RunIsBacked(states, steps, k - 1);
      StepKeepsNodes(states[k - 1], past, steps[k - 1]);
    }
  }

  /** An undo right after a remove gives back every node in its place, and the scene as it was if and only if
      the branch had no owner the undo does not give back. */
  lemma UndoRightAfterRemove(states: seq<Session>, steps: seq<Step>, k: nat)
    requires IsRun(states, steps) && k + 2 < |states|
    requires steps[k].Remove? && Commits(states[k], steps[k]) && steps[k + 1].Undo?
    ensures states[k + 2].scene == states[k].scene
       <==> Restorable(Target(states[k].scene.tree, steps[k]), states[k].scene.tree.id, {})
    ensures Same(false, states[k + 2].scene, states[k].scene)
  {
    EveryRunIsTidy(states, steps, k);
    hide Tidy, Restorable, Same, Registered, PerformAll;
    var s, step := states[k], steps[k];
    UndoneButForOwners(s.scene, step.path, step.index);
    assert states[k + 1] == Next(s, step) && states[k + 2] == Next(states[k + 1], steps[k + 1]);
    RegistersRemove(s.scene.tree, step);
  }

  lemma RegistersRemove(tree: Node, step: Step)
    requires step.Remove? && HasTarget(tree, step) && Registered(tree, step).Some?
    ensures Registered(tree, step) == Some(RemoveAction(tree.id, At(tree, step.path), step.index))
  {
  }

  /** Steps `from` to `end` are accepted edits, clean ones where the result is to be exact. */
  ghost predicate Edits(exact: bool, states: seq<Session>, steps: seq<Step>, from: nat, end: nat)
    requires from <= end < |states| == |steps| + 1
  {
    forall i {:trigger steps[i]} :: from <= i < end ==>
      Commits(states[i], steps[i]) && (exact ==> Clean(states[i].scene.tree, steps[i]))
  }

  /** Steps `from` to `end` are undos and redos that never go back beyond the first `base` actions. */
  ghost predicate Walks(states: seq<Session>, steps: seq<Step>, from: nat, end: nat, base: nat)
    requires from <= end < |states| == |steps| + 1
  {
    && (forall i {:trigger steps[i]} :: from <= i < end ==> !IsEdit(steps[i]))
    && (forall i {:trigger states[i]} :: from <= i <= end ==> base <= states[i].done)
  }

  function Cut(s: Session): Session
    requires s.done <= |s.actions|
  {
    s.(actions := s.actions[..s.done])
  }

  lemma FirstEdit(exact: bool, s: Session, step: Step) returns (past: seq<Scene>)
    requires Tidy(s.scene) && May(s, step) && Commits(s, step) && (exact ==> Clean(s.scene.tree, step))
    ensures Backed(exact, Next(s, step), s.done, past) && |past| == 2
    ensures past[0].tree == s.scene.tree && past[1] == Next(s, step).scene
  {
    hide Tidy, Clean, Registered, HasTarget, PerformAll;
    var cut := Cut(s);
    ChainOfOne(exact, s.scene);
    assert cut.actions[s.done..] == [];
    assert May(cut, step);
    past := EditKeeps(exact, cut, s.done, [s.scene], step);
    assert cut.actions[..s.done] == s.actions[..s.done];
    assert Next(cut, step) == Next(s, step);
  }

  lemma LastEdit(exact: bool, states: seq<Session>, steps: seq<Step>, k: nat, end: nat)
    requires IsRun(states, steps) && k < end < |states| && Edits(exact, states, steps, k, end)
    ensures var s, step := states[end - 1], steps[end - 1];
      && May(s, step) && Commits(s, step) && (exact ==> Clean(s.scene.tree, step))
      && states[end] == Next(s, step) && states[end].done == s.done + 1
    ensures Edits(exact, states, steps, k, end - 1)
  {
    hide May, Clean, Commits;
    assert Commits(states[end - 1], steps[end - 1]) && May(states[end - 1], steps[end - 1]);
    NextCommits(states[end - 1], steps[end - 1]);
  }

  /** The scenes that n edits lead through, and the session at the last of them. */
  ghost predicate Built(exact: bool, states: seq<Session>, k: nat, n: nat, past: seq<Scene>)
    requires k + n < |states|
  {
    && Backed(exact, states[k + n], states[k].done, past) && |past| == n + 1
    && states[k + n].done == states[k].done + n && past[n] == states[k + n].scene
    && forall i :: 0 <= i <= n ==> past[i].tree == states[k + i].scene.tree
  }

  lemma BuildsOn(exact: bool, states: seq<Session>, k: nat, n: nat, before: seq<Scene>, step: Step)
    returns (past: seq<Scene>)
    requires 0 < n && k + n < |states| && Built(exact, states, k, n - 1, before)
    requires May(states[k + n - 1], step) && Commits(states[k + n - 1], step)
    requires exact ==> Clean(states[k + n - 1].scene.tree, step)
    requires states[k + n] == Next(states[k + n - 1], step) && states[k + n].done == states[k + n - 1].done + 1
    ensures Built(exact, states, k, n, past)
  {
    hide Backed, May, Clean, Commits, Next;
    past := EditKeeps(exact, states[k + n - 1], states[k].done, before, step);
  }

  lemma {:induction false} EditsBuild(exact: bool, states: seq<Session>, steps: seq<Step>, k: nat, n: nat)
    returns (past: seq<Scene>)
    requires IsRun(states, steps) && 0 < n && k + n < |states| && Edits(exact, states, steps, k, k + n)
    ensures Built(exact, states, k, n, past)
    decreases n
  {
    LastEdit(exact, states, steps, k, k + n);
    if n == 1 {
      EveryRunIsTidy(states, steps, k);
      hide *;
      past := BuildsFirst(exact, states, k, steps[k]);
    } else {
      hide *;
      var before := EditsBuild(exact, states, steps, k, n - 1);
      past := BuildsOn(exact, states, k, n, before, steps[k + n - 1]);
    }
  }

  lemma BuildsFirst(exact: bool, states: seq<Session>, k: nat, step: Step) returns (past: seq<Scene>)
    requires k + 1 < |states| && Tidy(states[k].scene)
    requires May(states[k], step) && Commits(states[k], step) && (exact ==> Clean(states[k].scene.tree, step))
    requires states[k + 1] == Next(states[k], step) && states[k + 1].done == states[k].done + 1
    ensures Built(exact, states, k, 1, past)
  {
    hide Backed, May, Clean, Commits, Next, Tidy;
    past := FirstEdit(exact, states[k], step);
  }

  lemma NextCommits(s: Session, step: Step)
    requires May(s, step) && Commits(s, step)
    ensures Next(s, step).done == s.done + 1
  {
  }

  lemma {:induction false} WalksOn(exact: bool, states: seq<Session>, steps: seq<Step>, from: nat, end: nat, base: nat,
                                   past: seq<Scene>) returns (past': seq<Scene>)
    requires IsRun(states, steps) && from <= end < |states| && Walks(states, steps, from, end, base)
    requires Backed(exact, states[from], base, past)
    ensures Backed(exact, states[end], base, past') && |past'| == |past|
    ensures forall i :: 0 <= i < |past| ==> Same(exact, past[i], past'[i])
    decreases end
  {
    hide Backed, May, Same;
    if from == end {
      past' := past;
      forall i | 0 <= i < |past| ensures Same(exact, past[i], past[i]) { SameAsItself(exact, past[i]); }
    } else {
      var on := WalksOn(exact, states, steps, from, end - 1, base, past);
      assert states[end] == Next(states[end - 1], steps[end - 1]) && May(states[end - 1], steps[end - 1]);
      assert base <= states[end].done && !IsEdit(steps[end - 1]);
      past' := WalkKeeps(exact, states[end - 1], base, on, steps[end - 1]);
      forall i | 0 <= i < |past| ensures Same(exact, past[i], past'[i]) { SameTwice(exact, past[i], on[i], past'[i]); }
    }
  }

  lemma SameTwice(exact: bool, s: Scene, t: Scene, u: Scene)
    requires Same(exact, s, t) && Same(exact, t, u)
    ensures Same(exact, s, u)
  {
  }

  /** After any edits, and then any undos and redos of them, the tree is the one there was when as many of
      the edits were in effect: but for owners in every run, and in every respect where each branch removed
      could be given back. */
  lemma HistoryDecides(exact: bool, states: seq<Session>, steps: seq<Step>, k: nat, n: nat, j: nat)
    requires IsRun(states, steps) && 0 < n && k + n <= j < |states|
    requires Edits(exact, states, steps, k, k + n) && Walks(states, steps, k + n, j, states[k].done)
    ensures var m := states[j].done - states[k].done;
      && 0 <= m <= n && SameTree(exact, states[j].scene.tree, states[k + m].scene.tree)
      && (m == n ==> Same(exact, states[j].scene, states[k + n].scene))
  {
    var base := states[k].done;
    var past := EditsBuild(exact, states, steps, k, n);
    var past' := WalksOn(exact, states, steps, k + n, j, base, past);
    assert base <= states[j].done;
    BackedLength(exact, states[j], base, past');
    var m := states[j].done - base;
    assert past'[m] == states[j].scene && Same(exact, past[m], past'[m]);
  }

  lemma BackedLength(exact: bool, s: Session, base: nat, past: seq<Scene>)
    requires Backed(exact, s, base, past)
    ensures s.done - base < |past| && s.scene == past[s.done - base]
  {
  }

  lemma {:induction false} CountsDown(states: seq<Session>, steps: seq<Step>, k: nat, n: nat)
    requires IsRun(states, steps) && k + n < |states| && n <= states[k].done
    requires forall i {:trigger steps[i]} :: k <= i < k + n ==> steps[i] == Undo
    ensures states[k + n].done == states[k].done - n && states[k + n].actions == states[k].actions
    ensures Walks(states, steps, k, k + n, states[k].done - n)
  {
    hide May;
    if n > 0 {
      CountsDown(states, steps, k, n - 1);
      assert steps[k + n - 1] == Undo;
      assert states[k + n] == Next(states[k + n - 1], Undo);
    }
  }

  lemma {:induction false} CountsUp(states: seq<Session>, steps: seq<Step>, k: nat, n: nat)
    requires IsRun(states, steps) && k + n < |states| && states[k].done + n <= |states[k].actions|
    requires forall i {:trigger steps[i]} :: k <= i < k + n ==> steps[i] == Redo
    ensures states[k + n].done == states[k].done + n && states[k + n].actions == states[k].actions
    ensures Walks(states, steps, k, k + n, states[k].done)
  {
    hide May;
    if n > 0 {
      CountsUp(states, steps, k, n - 1);
      assert steps[k + n - 1] == Redo;
      assert states[k + n] == Next(states[k + n - 1], Redo);
    }
  }

  lemma WalksBoth(states: seq<Session>, steps: seq<Step>, from: nat, mid: nat, end: nat, base: nat)
    requires from <= mid <= end < |states| == |steps| + 1
    requires Walks(states, steps, from, mid, base) && Walks(states, steps, mid, end, base)
    ensures Walks(states, steps, from, end, base)
  {
  }

  /** Undoing the last n edits gives back the scene they began with, and redoing them the one they ended in. */
  lemma UndosAndRedos(exact: bool, states: seq<Session>, steps: seq<Step>, k: nat, n: nat)
    requires IsRun(states, steps) && 0 < n && k + 3 * n < |states| && Edits(exact, states, steps, k, k + n)
    requires forall i {:trigger steps[i]} :: k + n <= i < k + 2 * n ==> steps[i] == Undo
    requires forall i {:trigger steps[i]} :: k + 2 * n <= i < k + 3 * n ==> steps[i] == Redo
    ensures SameTree(exact, states[k + 2 * n].scene.tree, states[k].scene.tree)
    ensures Same(exact, states[k + 3 * n].scene, states[k + n].scene)
  {
    hide *;
    RunHasSteps(states, steps);
    var past := EditsBuild(exact, states, steps, k, n);
    var base := states[k].done;
    BuiltIs(exact, states, k, n, past);
    ActionsAfter(exact, states[k + n], base, past);
    CountsDown(states, steps, k + n, n);
    HistoryDecides(exact, states, steps, k, n, k + 2 * n);
    CountsUp(states, steps, k + 2 * n, n);
    WalksBoth(states, steps, k + n, k + 2 * n, k + 3 * n, base);
    HistoryDecides(exact, states, steps, k, n, k + 3 * n);
  }

  lemma RunHasSteps(states: seq<Session>, steps: seq<Step>)
    requires IsRun(states, steps)
    ensures |states| == |steps| + 1
  {
  }

  lemma BuiltIs(exact: bool, states: seq<Session>, k: nat, n: nat, past: seq<Scene>)
    requires k + n < |states| && Built(exact, states, k, n, past)
    ensures Backed(exact, states[k + n], states[k].done, past) && |past| == n + 1 && states[k + n].done == states[k].done + n
  {
  }

  lemma ActionsAfter(exact: bool, s: Session, base: nat, past: seq<Scene>)
    requires Backed(exact, s, base, past)
    ensures |s.actions| == base + |past| - 1
  {
  }
}
