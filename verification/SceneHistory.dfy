/** The actions of a history and the scenes they lead through, forward by doing and back by undoing. */
module SceneHistory {
  // A scene of such a chain may be replaced by one that is the same but for owners, and a branch that is new to one
  // of the scenes may be added outside the tree to all of them.

  import opened NodeTree
  import opened NodeEdits
  import opened NodeCopies
  import opened NodeOwnership
  import opened SceneLikeness

  // ----- A history and the scenes it leads through -----

  /** No call takes a branch of this id out of the tree or puts one into it. */
  predicate Leaves(calls: seq<Call>, id: nat) {
    forall i :: 0 <= i < |calls| && (calls[i].RemoveChild? || calls[i].AddChild?) ==> calls[i].child != id
  }

  ghost predicate Confined(a: Action, s: Scene) {
    forall id :: !Holds(s, id) ==> Leaves(a.doCalls, id) && Leaves(a.undoCalls, id)
  }

  /** Doing leads from one scene to the other and undoing leads back. */
  predicate Links(exact: bool, a: Action, s: Scene, t: Scene) {
    Same(exact, PerformAll(s, a.doCalls), t) && Same(exact, PerformAll(t, a.undoCalls), s)
  }

  ghost predicate Chain(exact: bool, actions: seq<Action>, past: seq<Scene>) {
    && |past| == |actions| + 1
    && (forall i :: 0 <= i < |past| ==> Tidy(past[i]) && SameNodes(past[0], past[i]))
    && (forall i :: 0 <= i < |actions| ==>
          Links(exact, actions[i], past[i], past[i + 1]) && Confined(actions[i], past[0]))
  }

  lemma ChainOfOne(exact: bool, s: Scene)
    requires Tidy(s)
    ensures Chain(exact, [], [s])
  {
  }

  lemma ChainCut(exact: bool, actions: seq<Action>, past: seq<Scene>, n: nat)
    requires Chain(exact, actions, past) && n <= |actions|
    ensures Chain(exact, actions[..n], past[..n + 1])
  {
    hide Tidy, SameNodes, Links, Confined;
  }

  lemma ChainGrows(exact: bool, actions: seq<Action>, past: seq<Scene>, a: Action, t: Scene)
    requires Chain(exact, actions, past)
    requires var s := past[|actions|]; Links(exact, a, s, t) && Confined(a, s) && Tidy(t) && SameNodes(s, t)
    ensures Chain(exact, actions + [a], past + [t])
  {
    var actions', past' := actions + [a], past + [t];
    assert past'[|actions|] == past[|actions|] && past'[|actions| + 1] == t;
    assert Tidy(past[|actions|]) && SameNodes(past[0], past[|actions|]);
    assert Confined(a, past[0]);
    hide Tidy, Links, Confined, Holds;
    forall i | 0 <= i < |actions'|
      ensures Links(exact, actions'[i], past'[i], past'[i + 1]) && Confined(actions'[i], past'[0])
    {
      if i < |actions| { assert actions'[i] == actions[i]; }
    }
  }

  /** Any scene of a chain may be replaced by one that is the same. */
  lemma ChainSwaps(exact: bool, actions: seq<Action>, past: seq<Scene>, p: nat, t: Scene)
    requires Chain(exact, actions, past) && p < |past| && Same(exact, past[p], t)
    ensures Chain(exact, actions, past[p := t])
  {
    if exact {
      assert past[p := t] == past;
    } else {
      SwapKeepsTidy(actions, past, p, t);
      var past' := past[p := t];
      forall i | 0 <= i < |actions|
        ensures Links(false, actions[i], past'[i], past'[i + 1]) && Confined(actions[i], past'[0])
      {
        assert Links(false, actions[i], past[i], past[i + 1]) && Confined(actions[i], past[0]);
        if i == p { PerformsSame(false, past[p], t, actions[i].doCalls); }
        if i + 1 == p { PerformsSame(false, past[p], t, actions[i].undoCalls); }
      }
    }
  }

  lemma SwapKeepsTidy(actions: seq<Action>, past: seq<Scene>, p: nat, t: Scene)
    requires Chain(false, actions, past) && p < |past| && Same(false, past[p], t)
    ensures var past' := past[p := t];
      && (forall i :: 0 <= i < |past| ==> Tidy(past'[i]) && SameNodes(past'[0], past'[i]))
      && SameNodes(past[0], past'[0])
  {
    SameIsTidy(false, past[p], t);
    assert SameNodes(past[0], past[p]);
    hide Tidy, Holds, Same;
  }

  // ----- A new branch outside the tree -----

  function With(s: Scene, copy: Node): Scene {
    s.(out := s.out[copy.id := copy])
  }

  ghost predicate New(s: Scene, copy: Node) {
    Distinct(copy) && forall x :: x in Ids(copy) ==> !Holds(s, x)
  }

  lemma {:induction false} PerformsWith(s: Scene, calls: seq<Call>, copy: Node)
    requires Leaves(calls, copy.id)
    ensures PerformAll(With(s, copy), calls) == With(PerformAll(s, calls), copy)
    decreases |calls|
  {
    if calls != [] {
      PerformsOneWith(s, calls[0], copy);
      forall i | 0 <= i < |calls[1..]| ensures calls[1..][i] == calls[i + 1] {}
      PerformsWith(Perform(s, calls[0]), calls[1..], copy);
    }
  }

  lemma PerformsOneWith(s: Scene, c: Call, copy: Node)
    requires (c.RemoveChild? || c.AddChild?) ==> c.child != copy.id
    ensures Perform(With(s, copy), c) == With(Perform(s, c), copy)
  {
    hide Update, Find, Cleared;
    if c.RemoveChild? && Find(s.tree, c.child).Some? {
      var gone := Cleared(Find(s.tree, c.child).value, {});
      assert s.out[copy.id := copy][c.child := gone] == s.out[c.child := gone][copy.id := copy];
    }
    if c.AddChild? { assert s.out[copy.id := copy] - {c.child} == (s.out - {c.child})[copy.id := copy]; }
  }

  lemma SameWith(exact: bool, s: Scene, t: Scene, copy: Node)
    requires Same(exact, s, t)
    ensures Same(exact, With(s, copy), With(t, copy))
  {
    BareOutWith(s.out, copy.id, copy);
    BareOutWith(t.out, copy.id, copy);
  }

  lemma NewIsNew(s: Scene, copy: Node)
    requires New(s, copy) && Tidy(s)
    ensures copy.id in Ids(copy) && copy.id !in s.out && !Holds(s, copy.id) && Strangers(copy, s.tree)
    ensures forall k :: k in s.out ==> Strangers(copy, s.out[k]) && Strangers(s.out[k], copy)
  {
    if copy.id in s.out { KeysAreIds(s, copy.id); }
    forall k | k in s.out ensures Strangers(copy, s.out[k]) && Strangers(s.out[k], copy) {
      forall x | x in Ids(s.out[k]) ensures x !in Ids(copy) { assert Holds(s, x); }
    }
    forall x | x in Ids(s.tree) ensures x !in Ids(copy) { assert Holds(s, x); }
  }

  lemma WithIsTidy(s: Scene, copy: Node)
    requires New(s, copy) && Tidy(s)
    ensures Tidy(With(s, copy)) && forall x :: Holds(With(s, copy), x) <==> Holds(s, x) || x in Ids(copy)
  {
    NewIsNew(s, copy);
    StaysTidy(s, copy);
    hide Tidy, With, New;
    forall x ensures Holds(With(s, copy), x) <==> Holds(s, x) || x in Ids(copy) { WithHolds(s, copy, x); }
  }

  lemma StaysTidy(s: Scene, copy: Node)
    requires Tidy(s) && StandsOutside(s.tree, copy.id, copy)
    requires forall k :: k in s.out ==> Strangers(copy, s.out[k]) && Strangers(s.out[k], copy)
    ensures Tidy(With(s, copy))
  {
    hide StandsOutside, Strangers, Distinct;
  }

  lemma WithHolds(s: Scene, copy: Node, x: nat)
    requires copy.id !in s.out
    ensures Holds(With(s, copy), x) <==> Holds(s, x) || x in Ids(copy)
  {
    hide Ids;
    var t := With(s, copy);
    if x in Ids(copy) { assert copy.id in t.out && t.out[copy.id] == copy; }
    if k :| k in s.out && x in Ids(s.out[k]) { assert k in t.out && t.out[k] == s.out[k]; }
    if k :| k in t.out && x in Ids(t.out[k]) { if k != copy.id { assert k in s.out && t.out[k] == s.out[k]; } }
  }

  function AllWith(past: seq<Scene>, copy: Node): seq<Scene> {
    seq(|past|, i requires 0 <= i < |past| => With(past[i], copy))
  }

  /** A branch that is new to one scene of a chain may be added to all of them. */
  lemma ChainWith(exact: bool, actions: seq<Action>, past: seq<Scene>, copy: Node)
    requires Chain(exact, actions, past) && New(past[0], copy)
    ensures Chain(exact, actions, AllWith(past, copy))
  {
    var past' := AllWith(past, copy);
    hide With, Links, Confined, Tidy, Holds, Distinct, Ids;
    forall i | 0 <= i < |past| ensures Tidy(past'[i]) && SameNodes(past'[0], past'[i]) {
      assert SameNodes(past[0], past[i]) && Tidy(past[i]) && Tidy(past[0]);
      WithIsTidy(past[0], copy);
      WithIsTidy(past[i], copy);
    }
    forall i | 0 <= i < |actions|
      ensures Links(exact, actions[i], past'[i], past'[i + 1]) && Confined(actions[i], past'[0])
    {
      assert Tidy(past[0]) && Links(exact, actions[i], past[i], past[i + 1]) && Confined(actions[i], past[0]);
      LinksWith(exact, actions[i], past[0], past[i], past[i + 1], copy);
    }
  }

  lemma LinksWith(exact: bool, a: Action, first: Scene, s: Scene, t: Scene, copy: Node)
    requires Links(exact, a, s, t) && Confined(a, first) && New(first, copy) && Tidy(first)
    ensures Links(exact, a, With(s, copy), With(t, copy)) && Confined(a, With(first, copy))
  {
    hide Same, Leaves;
    NewIsNew(first, copy);
    WithIsTidy(first, copy);
    assert Leaves(a.doCalls, copy.id) && Leaves(a.undoCalls, copy.id);
    hide With, Holds, New, Tidy;
    PerformsWith(s, a.doCalls, copy);
    PerformsWith(t, a.undoCalls, copy);
    SameWith(exact, PerformAll(s, a.doCalls), t, copy);
    SameWith(exact, PerformAll(t, a.undoCalls), s, copy);
  }
}
