module SceneHierarchy {
  // The budgeted walk that reports the edited scene.

  import opened Text
  import opened NodeTree

  const MAX_NODES := 100000
  const TREE_BUDGET := 8 * 1024 * 1024 - 256 * 1024

  datatype Budget = Budget(nodes: nat, bytes: nat, truncated: bool)

  /** One reported node. `omitted` and `summary` say what a depth limit left out below it, by class;
      `childrenTruncated` that the budget ran out among its children. */
  datatype Report = Report(id: nat, omitted: nat, summary: multiset<string>, childrenTruncated: bool, children: seq<Report>)

  /** What the engine answers about a node: its class, and the size of its own entry as it is charged. */
  datatype Scene = Scene(kind: nat -> string, bytes: nat -> nat)

  // ----- What a depth limit leaves out -----

  function Kinds(scene: Scene, n: Node): multiset<string> {
    multiset{scene.kind(n.id)} + KindsOf(scene, n.children)
  }

  function KindsOf(scene: Scene, ns: seq<Node>): multiset<string> {
    if ns == [] then multiset{} else KindsOf(scene, ns[..|ns| - 1]) + Kinds(scene, ns[|ns| - 1])
  }

  function Size(scene: Scene, n: Node): nat {
    |Kinds(scene, n)|
  }

  lemma {:induction false} KindsJoin(scene: Scene, a: seq<Node>, b: seq<Node>)
    ensures KindsOf(scene, a + b) == KindsOf(scene, a) + KindsOf(scene, b)
    decreases |b|
  {
    hide Kinds;
    if b == [] {
      assert a + b == a;
    } else {
      assert (a + b)[..|a + b| - 1] == a + b[..|b| - 1];
      KindsJoin(scene, a, b[..|b| - 1]);
    }
  }

  /** How many nodes of each class there are below a node, found with a stack. */
  method CountDescendantsByType(scene: Scene, root: Node) returns (counts: multiset<string>, total: nat)
    ensures counts == KindsOf(scene, root.children) && total == |counts|
  {
    hide Kinds;
    counts, total := multiset{}, 0;
    var pending := PushAll([], root.children);
    assert [] + root.children == root.children;
    while pending != []
      invariant counts + KindsOf(scene, pending) == KindsOf(scene, root.children) && total == |counts|
      decreases |KindsOf(scene, pending)|
    {
      hide KindsOf;
      ghost var before := pending;
      var node := pending[|pending| - 1];
      pending := pending[..|pending| - 1];
      TopKinds(scene, before);
      total := total + 1;
      counts := counts + multiset{scene.kind(node.id)};
      KindsJoin(scene, pending, node.children);
      pending := PushAll(pending, node.children);
    }
    NoKinds(scene);
  }

  method PushAll(stack: seq<Node>, children: seq<Node>) returns (pushed: seq<Node>)
    ensures pushed == stack + children
  {
    pushed := stack;
    for i := 0 to |children|
      invariant pushed == stack + children[..i]
    {
      pushed := pushed + [children[i]];
    }
    assert children[..|children|] == children;
  }

  lemma TopKinds(scene: Scene, stack: seq<Node>)
    requires stack != []
    ensures var node := stack[|stack| - 1];
      KindsOf(scene, stack)
      == KindsOf(scene, stack[..|stack| - 1]) + (multiset{scene.kind(node.id)} + KindsOf(scene, node.children))
  {
  }

  lemma NoKinds(scene: Scene)
    ensures KindsOf(scene, []) == multiset{}
  {
  }

  // ----- The walk -----

  predicate Exhausted(scene: Scene, n: Node, b: Budget) {
    b.nodes >= MAX_NODES || b.bytes + scene.bytes(n.id) > TREE_BUDGET
  }

  function Charged(scene: Scene, n: Node, b: Budget): Budget {
    b.(nodes := b.nodes + 1, bytes := b.bytes + scene.bytes(n.id))
  }

  /** The report of a node, None when the budget stopped it, and the budget afterwards. */
  function Build(scene: Scene, n: Node, depth: nat, maxDepth: nat, b: Budget): (Option<Report>, Budget) {
    if Exhausted(scene, n, b) then (None, b.(truncated := true))
    else
      var charged := Charged(scene, n, b);
      if depth >= maxDepth then
        var below := KindsOf(scene, n.children);
        if |below| > 0 then (Some(Report(n.id, |below|, below, false, [])), charged.(truncated := true))
        else (Some(Report(n.id, 0, multiset{}, false, [])), charged)
      else
        var all := BuildAll(scene, n.children, depth + 1, maxDepth, charged);
        (Some(Report(n.id, 0, multiset{}, all.cut, all.reports)), all.budget)
  }

  datatype Built = Built(reports: seq<Report>, budget: Budget, cut: bool)

  /** Children in order, up to the first the budget stops. */
  function BuildAll(scene: Scene, ns: seq<Node>, depth: nat, maxDepth: nat, b: Budget): Built {
    if ns == [] then Built([], b, false)
    else
      var first := Build(scene, ns[0], depth, maxDepth, b);
      if first.0.None? then Built([], first.1, true)
      else
        var rest := BuildAll(scene, ns[1..], depth, maxDepth, first.1);
        Built([first.0.value] + rest.reports, rest.budget, rest.cut)
  }

  class SharedBudget {
    var budget: Budget

    constructor ()
      ensures budget == Budget(0, 0, false)
    {
      budget := Budget(0, 0, false);
    }

    method BuildHierarchy(scene: Scene, n: Node, depth: nat, maxDepth: nat) returns (report: Option<Report>)
      modifies this
      ensures (report, budget) == Build(scene, n, depth, maxDepth, old(budget))
      decreases n
    {
      hide KindsOf, BuildAll;
      if budget.nodes >= MAX_NODES || budget.bytes + scene.bytes(n.id) > TREE_BUDGET {
        budget := budget.(truncated := true);
        return None;
      }
      budget := budget.(bytes := budget.bytes + scene.bytes(n.id));
      budget := budget.(nodes := budget.nodes + 1);
      if depth >= maxDepth {
        var counts, total := CountDescendantsByType(scene, n);
        if total > 0 {
          budget := budget.(truncated := true);
          return Some(Report(n.id, total, counts, false, []));
        }
        return Some(Report(n.id, 0, multiset{}, false, []));
      }
      ghost var all := BuildAll(scene, n.children, depth + 1, maxDepth, budget);
      var children: seq<Report> := [];
      var i := 0;
      assert n.children[0..] == n.children && forall rest: seq<Report> :: children + rest == rest;
      while i < |n.children|
        invariant i <= |n.children|
        invariant var rest := BuildAll(scene, n.children[i..], depth + 1, maxDepth, budget);
          all == Built(children + rest.reports, rest.budget, rest.cut)
      {
        hide BuildAll, Build;
        assert n.children[i..][0] == n.children[i] && n.children[i..][1..] == n.children[i + 1..];
        BuildsFirst(scene, n.children[i..], depth + 1, maxDepth, budget);
        var child := BuildHierarchy(scene, n.children[i], depth + 1, maxDepth);
        if child.None? {
          assert children + [] == children;
          return Some(Report(n.id, 0, multiset{}, true, children));
        }
        children := children + [child.value];
        i := i + 1;
      }
      assert n.children[i..] == [];
      BuildsNone(scene, depth + 1, maxDepth, budget);
      assert children + [] == children;
      report := Some(Report(n.id, 0, multiset{}, false, children));
    }
  }

  lemma BuildsNone(scene: Scene, depth: nat, maxDepth: nat, b: Budget)
    ensures BuildAll(scene, [], depth, maxDepth, b) == Built([], b, false)
  {
  }

  lemma BuildsFirst(scene: Scene, ns: seq<Node>, depth: nat, maxDepth: nat, b: Budget)
    requires ns != []
    ensures var first := Build(scene, ns[0], depth, maxDepth, b);
      BuildAll(scene, ns, depth, maxDepth, b)
      == if first.0.None? then Built([], first.1, true)
         else
           var rest := BuildAll(scene, ns[1..], depth, maxDepth, first.1);
           Built([first.0.value] + rest.reports, rest.budget, rest.cut)
  {
  }

  // ----- What a report accounts for -----

  function Reported(r: Report): nat {
    1 + ReportedBy(r.children)
  }

  function ReportedBy(rs: seq<Report>): nat {
    if rs == [] then 0 else Reported(rs[0]) + ReportedBy(rs[1..])
  }

  function BytesIn(scene: Scene, r: Report): nat {
    scene.bytes(r.id) + BytesOf(scene, r.children)
  }

  function BytesOf(scene: Scene, rs: seq<Report>): nat {
    if rs == [] then 0 else BytesIn(scene, rs[0]) + BytesOf(scene, rs[1..])
  }

  function Omitted(r: Report): nat {
    r.omitted + OmittedBy(r.children)
  }

  function OmittedBy(rs: seq<Report>): nat {
    if rs == [] then 0 else Omitted(rs[0]) + OmittedBy(rs[1..])
  }

  /** The classes of every node reported or summarised. */
  function Told(scene: Scene, r: Report): multiset<string> {
    multiset{scene.kind(r.id)} + r.summary + ToldBy(scene, r.children)
  }

  function ToldBy(scene: Scene, rs: seq<Report>): multiset<string> {
    if rs == [] then multiset{} else Told(scene, rs[0]) + ToldBy(scene, rs[1..])
  }

  /** The budget ran out somewhere inside. */
  predicate Stopped(r: Report) {
    r.childrenTruncated || exists i :: 0 <= i < |r.children| && Stopped(r.children[i])
  }

  /** Every summary adds up to its own count. */
  predicate SumsUp(r: Report) {
    |r.summary| == r.omitted && forall i :: 0 <= i < |r.children| ==> SumsUp(r.children[i])
  }

  /** The report leaves nothing of the branch out. */
  predicate Whole(r: Report, n: Node) {
    && r.id == n.id && r.omitted == 0 && !r.childrenTruncated && |r.children| == |n.children|
    && forall i :: 0 <= i < |n.children| ==> Whole(r.children[i], n.children[i])
  }

  /** Nodes and bytes are charged for exactly what is reported, and never past the limits. */
  lemma {:induction false} ChargesWhatItReports(scene: Scene, n: Node, depth: nat, maxDepth: nat, b: Budget)
    requires b.nodes <= MAX_NODES && b.bytes <= TREE_BUDGET
    ensures var (report, after) := Build(scene, n, depth, maxDepth, b);
      && after.nodes == b.nodes + (if report.Some? then Reported(report.value) else 0) <= MAX_NODES
      && after.bytes == b.bytes + (if report.Some? then BytesIn(scene, report.value) else 0) <= TREE_BUDGET
      && (report.Some? ==> SumsUp(report.value) && report.value.id == n.id)
  {
    hide KindsOf;
    if !Exhausted(scene, n, b) && depth < maxDepth {
      ChargesWhatAllReport(scene, n.children, depth + 1, maxDepth, Charged(scene, n, b));
    }
  }

  lemma {:induction false} ChargesWhatAllReport(scene: Scene, ns: seq<Node>, depth: nat, maxDepth: nat, b: Budget)
    requires b.nodes <= MAX_NODES && b.bytes <= TREE_BUDGET
    ensures var all := BuildAll(scene, ns, depth, maxDepth, b);
      && all.budget.nodes == b.nodes + ReportedBy(all.reports) <= MAX_NODES
      && all.budget.bytes == b.bytes + BytesOf(scene, all.reports) <= TREE_BUDGET
      && forall i :: 0 <= i < |all.reports| ==> SumsUp(all.reports[i])
  {
    hide Build, SumsUp;
    if ns != [] {
      ChargesWhatItReports(scene, ns[0], depth, maxDepth, b);
      var first := Build(scene, ns[0], depth, maxDepth, b);
      if first.0.Some? {
        ChargesWhatAllReport(scene, ns[1..], depth, maxDepth, first.1);
        var rest := BuildAll(scene, ns[1..], depth, maxDepth, first.1);
        assert ([first.0.value] + rest.reports)[1..] == rest.reports;
      }
    }
  }

  /** `truncated` is false exactly when the whole branch was reported. */
  lemma {:induction false} TruncatedUnlessWhole(scene: Scene, n: Node, depth: nat, maxDepth: nat, b: Budget)
    ensures var (report, after) := Build(scene, n, depth, maxDepth, b);
      && (b.truncated ==> after.truncated)
      && (!b.truncated ==> (!after.truncated <==> report.Some? && Whole(report.value, n)))
  {
    if !Exhausted(scene, n, b) {
      if depth < maxDepth {
        TruncatedUnlessAllWhole(scene, n.children, depth + 1, maxDepth, Charged(scene, n, b));
      } else {
        HasKinds(scene, n.children);
      }
    }
    hide KindsOf, BuildAll;
  }

  lemma HasKinds(scene: Scene, ns: seq<Node>)
    ensures |KindsOf(scene, ns)| > 0 <==> ns != []
  {
  }

  lemma {:induction false} TruncatedUnlessAllWhole(scene: Scene, ns: seq<Node>, depth: nat, maxDepth: nat, b: Budget)
    ensures var all := BuildAll(scene, ns, depth, maxDepth, b);
      && (b.truncated ==> all.budget.truncated)
      && (!b.truncated ==>
            (!all.budget.truncated <==>
             !all.cut && |all.reports| == |ns| && forall i :: 0 <= i < |ns| ==> Whole(all.reports[i], ns[i])))
  {
    hide Build, Whole;
    if ns != [] {
      TruncatedUnlessWhole(scene, ns[0], depth, maxDepth, b);
      var first := Build(scene, ns[0], depth, maxDepth, b);
      if first.0.Some? {
        TruncatedUnlessAllWhole(scene, ns[1..], depth, maxDepth, first.1);
        var rest := BuildAll(scene, ns[1..], depth, maxDepth, first.1);
        WholeFirst([first.0.value] + rest.reports, ns, first.0.value, rest.reports);
      }
    }
  }

  lemma WholeFirst(reports: seq<Report>, ns: seq<Node>, first: Report, rest: seq<Report>)
    requires ns != [] && reports == [first] + rest
    ensures |reports| == |ns| ==>
      ((forall i :: 0 <= i < |ns| ==> Whole(reports[i], ns[i]))
       <==> Whole(first, ns[0]) && forall i :: 0 <= i < |ns[1..]| ==> Whole(rest[i], ns[1..][i]))
  {
    hide Whole;
    if |reports| == |ns| && Whole(first, ns[0]) && forall i :: 0 <= i < |ns[1..]| ==> Whole(rest[i], ns[1..][i]) {
      forall i | 0 <= i < |ns| ensures Whole(reports[i], ns[i]) {
        if i > 0 { assert reports[i] == rest[i - 1] && ns[i] == ns[1..][i - 1]; }
      }
    }
    if |reports| == |ns| && forall i :: 0 <= i < |ns| ==> Whole(reports[i], ns[i]) {
      forall i | 0 <= i < |ns[1..]| ensures Whole(rest[i], ns[1..][i]) {
        assert Whole(reports[i + 1], ns[i + 1]);
      }
    }
  }

  /** Unless the budget stopped it somewhere, a report tells of every node of the branch, class by class:
      those reported and those its summaries leave out are the branch. */
  lemma {:induction false} TellsOfEveryNode(scene: Scene, n: Node, depth: nat, maxDepth: nat, b: Budget)
    ensures var (report, _) := Build(scene, n, depth, maxDepth, b);
      report.Some? && !Stopped(report.value) ==> Told(scene, report.value) == Kinds(scene, n)
  {
    hide Exhausted, Charged, KindsOf;
    NoReports(scene);
    if !Exhausted(scene, n, b) && depth < maxDepth {
      TellsOfAll(scene, n.children, depth + 1, maxDepth, Charged(scene, n, b));
    }
  }

  lemma NoReports(scene: Scene)
    ensures ToldBy(scene, []) == multiset{}
  {
  }

  lemma {:induction false} TellsOfAll(scene: Scene, ns: seq<Node>, depth: nat, maxDepth: nat, b: Budget)
    ensures var all := BuildAll(scene, ns, depth, maxDepth, b);
      !all.cut && (forall i :: 0 <= i < |all.reports| ==> !Stopped(all.reports[i])) ==>
        ToldBy(scene, all.reports) == KindsOf(scene, ns)
  {
    hide Build, Stopped, Told;
    if ns != [] {
      TellsOfEveryNode(scene, ns[0], depth, maxDepth, b);
      var first := Build(scene, ns[0], depth, maxDepth, b);
      if first.0.Some? {
        TellsOfAll(scene, ns[1..], depth, maxDepth, first.1);
        var rest := BuildAll(scene, ns[1..], depth, maxDepth, first.1);
        var reports := [first.0.value] + rest.reports;
        assert reports[1..] == rest.reports;
        FirstKinds(scene, ns);
        hide KindsOf, Kinds;
        if forall i :: 0 <= i < |reports| ==> !Stopped(reports[i]) {
          forall i | 0 <= i < |rest.reports| ensures !Stopped(rest.reports[i]) { assert !Stopped(reports[i + 1]); }
          assert !Stopped(reports[0]);
        }
      }
    }
  }

  lemma FirstKinds(scene: Scene, ns: seq<Node>)
    requires ns != []
    ensures KindsOf(scene, ns) == Kinds(scene, ns[0]) + KindsOf(scene, ns[1..])
  {
    hide Kinds;
    assert ns == [ns[0]] + ns[1..];
    KindsJoin(scene, [ns[0]], ns[1..]);
    assert [ns[0]][..0] == [];
    NoKinds(scene);
  }

  /** In numbers: emitted nodes and all the counts of what was left out add up to the branch. */
  lemma {:induction false} ToldAddsUp(scene: Scene, r: Report)
    requires SumsUp(r)
    ensures |Told(scene, r)| == Reported(r) + Omitted(r)
  {
    ToldAllAddUp(scene, r.children);
  }

  lemma {:induction false} ToldAllAddUp(scene: Scene, rs: seq<Report>)
    requires forall i :: 0 <= i < |rs| ==> SumsUp(rs[i])
    ensures |ToldBy(scene, rs)| == ReportedBy(rs) + OmittedBy(rs)
  {
    hide SumsUp, Told, Reported, Omitted;
    if rs != [] {
      ToldAddsUp(scene, rs[0]);
      ToldAllAddUp(scene, rs[1..]);
    }
  }

  /** What `buildHierarchy` answers from a fresh budget. */
  lemma HierarchyAccountsForTheScene(scene: Scene, root: Node, maxDepth: nat)
    ensures var (report, after) := Build(scene, root, 0, maxDepth, Budget(0, 0, false));
      && after.nodes <= MAX_NODES && after.bytes <= TREE_BUDGET
      && (!after.truncated <==> report.Some? && Whole(report.value, root))
      && (report.Some? ==>
            && after.nodes == Reported(report.value)
            && (!Stopped(report.value) ==> Reported(report.value) + Omitted(report.value) == Size(scene, root)))
  {
    hide Build, Whole, Stopped, SumsUp, Kinds, Told, Reported, Omitted, BytesIn;
    var b := Budget(0, 0, false);
    ChargesWhatItReports(scene, root, 0, maxDepth, b);
    TruncatedUnlessWhole(scene, root, 0, maxDepth, b);
    TellsOfEveryNode(scene, root, 0, maxDepth, b);
    var report := Build(scene, root, 0, maxDepth, b).0;
    if report.Some? { ToldAddsUp(scene, report.value); }
  }

  // ----- What is reported -----

  /** The branch down to `levels` below its root, and below that only the classes. */
  function CutAt(scene: Scene, n: Node, levels: nat): Report {
    if levels == 0 then
      var below := KindsOf(scene, n.children);
      Report(n.id, |below|, below, false, [])
    else Report(n.id, 0, multiset{}, false, CutAll(scene, n.children, levels - 1))
  }

  function CutAll(scene: Scene, ns: seq<Node>, levels: nat): seq<Report> {
    if ns == [] then [] else [CutAt(scene, ns[0], levels)] + CutAll(scene, ns[1..], levels)
  }

  predicate Affords(b: Budget, nodes: nat, bytes: nat) {
    b.nodes + nodes <= MAX_NODES && b.bytes + bytes <= TREE_BUDGET
  }

  lemma {:induction false} ReportsWhatItAffords(scene: Scene, n: Node, depth: nat, maxDepth: nat, b: Budget)
    requires depth <= maxDepth
    requires var r := CutAt(scene, n, maxDepth - depth); Affords(b, Reported(r), BytesIn(scene, r))
    ensures Build(scene, n, depth, maxDepth, b).0 == Some(CutAt(scene, n, maxDepth - depth))
  {
    if depth == maxDepth {
      NoKindsNothing(scene, n.children);
    } else {
      ReportsAllItAffords(scene, n.children, depth + 1, maxDepth, Charged(scene, n, b));
    }
    hide KindsOf;
  }

  lemma NoKindsNothing(scene: Scene, ns: seq<Node>)
    ensures |KindsOf(scene, ns)| == 0 ==> KindsOf(scene, ns) == multiset{}
  {
    hide KindsOf;
  }

  lemma {:induction false} ReportsAllItAffords(scene: Scene, ns: seq<Node>, depth: nat, maxDepth: nat, b: Budget)
    requires depth <= maxDepth
    requires var rs := CutAll(scene, ns, maxDepth - depth); Affords(b, ReportedBy(rs), BytesOf(scene, rs))
    ensures var all := BuildAll(scene, ns, depth, maxDepth, b);
      !all.cut && all.reports == CutAll(scene, ns, maxDepth - depth)
  {
    hide Build, CutAt, Reported, BytesIn;
    if ns != [] {
      var first := CutAt(scene, ns[0], maxDepth - depth);
      var rest := CutAll(scene, ns[1..], maxDepth - depth);
      assert ([first] + rest)[1..] == rest;
      ReportsWhatItAffords(scene, ns[0], depth, maxDepth, b);
      ChargesWhatItReports(scene, ns[0], depth, maxDepth, b);
      ReportsAllItAffords(scene, ns[1..], depth, maxDepth, Build(scene, ns[0], depth, maxDepth, b).1);
    }
  }

  lemma {:induction false} UnlessStoppedItIsCut(scene: Scene, n: Node, depth: nat, maxDepth: nat, b: Budget)
    requires depth <= maxDepth
    ensures var report := Build(scene, n, depth, maxDepth, b).0;
      report.Some? && !Stopped(report.value) ==> report.value == CutAt(scene, n, maxDepth - depth)
  {
    if depth == maxDepth {
      NoKindsNothing(scene, n.children);
    } else {
      UnlessStoppedAllAreCut(scene, n.children, depth + 1, maxDepth, Charged(scene, n, b));
    }
    hide KindsOf;
  }

  lemma {:induction false} UnlessStoppedAllAreCut(scene: Scene, ns: seq<Node>, depth: nat, maxDepth: nat, b: Budget)
    requires depth <= maxDepth
    ensures var all := BuildAll(scene, ns, depth, maxDepth, b);
      !all.cut && (forall i :: 0 <= i < |all.reports| ==> !Stopped(all.reports[i])) ==>
        all.reports == CutAll(scene, ns, maxDepth - depth)
  {
    hide Build, CutAt, Stopped;
    if ns != [] {
      UnlessStoppedItIsCut(scene, ns[0], depth, maxDepth, b);
      var first := Build(scene, ns[0], depth, maxDepth, b);
      if first.0.Some? {
        UnlessStoppedAllAreCut(scene, ns[1..], depth, maxDepth, first.1);
        var rest := BuildAll(scene, ns[1..], depth, maxDepth, first.1);
        var reports := [first.0.value] + rest.reports;
        if forall i :: 0 <= i < |reports| ==> !Stopped(reports[i]) {
          forall i | 0 <= i < |rest.reports| ensures !Stopped(rest.reports[i]) { assert !Stopped(reports[i + 1]); }
          assert !Stopped(reports[0]);
        }
      }
    }
  }

  /** The report is the branch down to the depth limit, with the classes of what lies below it, exactly when the
      budget pays for all of it; and otherwise the budget stopped it somewhere. */
  lemma ReportsExactlyWhatFits(scene: Scene, root: Node, maxDepth: nat)
    ensures var report := Build(scene, root, 0, maxDepth, Budget(0, 0, false)).0;
      var cut := CutAt(scene, root, maxDepth);
      && (report == Some(cut) <==> Reported(cut) <= MAX_NODES && BytesIn(scene, cut) <= TREE_BUDGET)
      && (report != Some(cut) <==> report.None? || Stopped(report.value))
  {
    hide Build, CutAt, Stopped, Reported, BytesIn;
    var b := Budget(0, 0, false);
    var cut := CutAt(scene, root, maxDepth);
    if Reported(cut) <= MAX_NODES && BytesIn(scene, cut) <= TREE_BUDGET { ReportsWhatItAffords(scene, root, 0, maxDepth, b); }
    ChargesWhatItReports(scene, root, 0, maxDepth, b);
    UnlessStoppedItIsCut(scene, root, 0, maxDepth, b);
    CutIsNotStopped(scene, root, maxDepth);
  }

  lemma {:induction false} CutIsNotStopped(scene: Scene, n: Node, levels: nat)
    ensures !Stopped(CutAt(scene, n, levels))
  {
    hide KindsOf;
    if levels > 0 { CutsAreNotStopped(scene, n.children, levels - 1); }
  }

  lemma {:induction false} CutsAreNotStopped(scene: Scene, ns: seq<Node>, levels: nat)
    ensures forall i :: 0 <= i < |CutAll(scene, ns, levels)| ==> !Stopped(CutAll(scene, ns, levels)[i])
  {
    hide Stopped, CutAt;
    if ns != [] {
      CutIsNotStopped(scene, ns[0], levels);
      CutsAreNotStopped(scene, ns[1..], levels);
    }
  }
}
