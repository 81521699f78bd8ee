/** The plan validator: structural issues and dependency cycles. */
module PlanGraph {
  import opened Prelude

  type Id = string

  /** An acceptance criterion as the validator reads it: blank, a "must" or "must not" sentence
      with its normalised subject, or any other sentence. */
  datatype Criterion = Blank | Must(subject: string) | MustNot(subject: string) | Other

  datatype WorkUnit = WorkUnit(id: Id, criteria: seq<Criterion>, dependencies: seq<Id>, verifications: seq<Id>)

  datatype Plan = Plan(units: seq<WorkUnit>, finalVerifications: seq<Id>)

  datatype Issue =
    | DuplicateUnitId(unitId: Id)
    | EmptyAcceptanceCriteria(unitId: Id)
    | ContradictoryCriteria(unitId: Id, subject: string)
    | SelfDependency(unitId: Id)
    | UnknownDependency(unitId: Id, dependencyId: Id)
    | DuplicateVerificationId(verificationId: Id)
    | DependencyCycle(unitId: Id, dependencyId: Id, path: seq<Id>)

  type Graph = map<Id, WorkUnit>

  // ---- the dependency graph ----

  /** `from` depends on `to`, both being known and different units. */
  predicate Edge(g: Graph, from: Id, to: Id) {
    from in g && to in g && to != from && to in g[from].dependencies
  }

  predicate Walk(g: Graph, path: seq<Id>) {
    forall i :: 0 < i < |path| ==> Edge(g, path[i - 1], path[i])
  }

  /** A closed walk; it passes through at least two units, since no edge is a loop. */
  predicate ClosedWalk(g: Graph, path: seq<Id>) {
    |path| >= 2 && Walk(g, path) && path[0] == path[|path| - 1]
  }

  ghost predicate HasCycle(g: Graph) {
    exists path :: ClosedWalk(g, path)
  }

  /** A walk leads from one unit to the other. */
  ghost predicate Reaches(g: Graph, from: Id, to: Id) {
    exists path :: Leads(g, path, from, to)
  }

  predicate Leads(g: Graph, path: seq<Id>, from: Id, to: Id) {
    path != [] && Walk(g, path) && path[0] == from && path[|path| - 1] == to
  }

  lemma WalkSlice(g: Graph, path: seq<Id>, i: nat, j: nat)
    requires Walk(g, path) && i <= j < |path|
    ensures Leads(g, path[i..j + 1], path[i], path[j])
  {
    var slice := path[i..j + 1];
    forall k | 0 < k < |slice| ensures Edge(g, slice[k - 1], slice[k]) {
      assert Edge(g, path[i + k - 1], path[i + k]);
    }
  }

  lemma WalkJoin(g: Graph, p: seq<Id>, q: seq<Id>, from: Id, mid: Id, to: Id)
    requires Leads(g, p, from, mid) && Leads(g, q, mid, to)
    ensures Leads(g, p + q[1..], from, to)
  {
    var path := p + q[1..];
    forall k | 0 < k < |path| ensures Edge(g, path[k - 1], path[k]) {
      if k < |p| {
        assert Edge(g, p[k - 1], p[k]);
      } else {
        assert Edge(g, q[k - |p|], q[k - |p| + 1]);
      }
    }
  }

  lemma ReachesThrough(g: Graph, from: Id, mid: Id, to: Id)
    requires Reaches(g, from, mid) && Reaches(g, mid, to)
    ensures Reaches(g, from, to)
  {
    var p :| Leads(g, p, from, mid);
    var q :| Leads(g, q, mid, to);
    WalkJoin(g, p, q, from, mid, to);
  }

  /** On a closed walk every unit reaches every other. */
  lemma ClosedWalkReaches(g: Graph, path: seq<Id>, from: Id, to: Id)
    requires ClosedWalk(g, path) && from in path && to in path
    ensures Reaches(g, from, to)
  {
    var i :| 0 <= i < |path| && path[i] == from;
    var j :| 0 <= j < |path| && path[j] == to;
    WalkSlice(g, path, i, |path| - 1);
    WalkSlice(g, path, 0, j);
    ReachesThrough(g, from, path[0], to);
  }

  /** Two closed walks with a unit in common lie in one component: each unit of one reaches each
      unit of the other. */
  lemma SharedUnitConnects(g: Graph, p: seq<Id>, q: seq<Id>, shared: Id)
    requires ClosedWalk(g, p) && ClosedWalk(g, q) && shared in p && shared in q
    ensures Connected(g, p, q)
  {
    forall a, b | a in p && b in q ensures Reaches(g, a, b) && Reaches(g, b, a) {
      ClosedWalkReaches(g, p, a, shared);
      ClosedWalkReaches(g, q, shared, b);
      ClosedWalkReaches(g, q, b, shared);
      ClosedWalkReaches(g, p, shared, a);
      ReachesThrough(g, a, shared, b);
      ReachesThrough(g, b, shared, a);
    }
  }

  ghost predicate Connected(g: Graph, p: seq<Id>, q: seq<Id>) {
    forall a, b :: a in p && b in q ==> Reaches(g, a, b) && Reaches(g, b, a)
  }

  /** Every unit of the sequence comes after all the units it depends on. */
  ghost predicate Ordered(g: Graph, order: seq<Id>) {
    forall i, d :: 0 <= i < |order| && Edge(g, order[i], d) ==> d in order[..i]
  }

  // ---- what counts as a defect ----

  /** The known units: the first one of every id. */
  function GraphOf(units: seq<WorkUnit>): Graph {
    if units == [] then map[]
    else
      var n := |units| - 1;
      var g := GraphOf(units[..n]);
      if units[n].id in g then g else g[units[n].id := units[n]]
  }

  /** A known id is the id of some unit, and the map holds the first such unit. */
  lemma {:induction false} FirstUnit(units: seq<WorkUnit>, id: Id)
    ensures id in GraphOf(units) <==> exists i :: 0 <= i < |units| && units[i].id == id
    ensures id in GraphOf(units) ==>
              exists i :: 0 <= i < |units| && GraphOf(units)[id] == units[i] && units[i].id == id
                          && forall j :: 0 <= j < i ==> units[j].id != id
  {
    if units != [] {
      var n := |units| - 1;
      FirstUnit(units[..n], id);
      if id in GraphOf(units[..n]) {
        var i :| 0 <= i < n && GraphOf(units[..n])[id] == units[..n][i] && units[..n][i].id == id
                 && forall j :: 0 <= j < i ==> units[..n][j].id != id;
        assert units[i].id == id && forall j :: 0 <= j < i ==> units[j].id == units[..n][j].id;
      } else {
        assert forall j :: 0 <= j < n ==> units[j].id == units[..n][j].id;
      }
    }
  }

  /** All verification requirement ids of the plan, in declaration order. */
  function VerificationIds(units: seq<WorkUnit>): seq<Id> {
    if units == [] then [] else VerificationIds(units[..|units| - 1]) + units[|units| - 1].verifications
  }

  function Requirements(plan: Plan): seq<Id> {
    VerificationIds(plan.units) + plan.finalVerifications
  }

  ghost predicate Repeats(ids: seq<Id>, id: Id) {
    exists i, j :: 0 <= i < j < |ids| && ids[i] == id && ids[j] == id
  }

  predicate EmptyCriteria(u: WorkUnit) {
    u.criteria == [] || Blank in u.criteria
  }

  predicate Contradicts(u: WorkUnit, subject: string) {
    Must(subject) in u.criteria && MustNot(subject) in u.criteria
  }

  function Ids(units: seq<WorkUnit>): seq<Id> {
    seq(|units|, i requires 0 <= i < |units| => units[i].id)
  }

  /** The issue names a real defect of the plan. */
  ghost predicate Justified(plan: Plan, issue: Issue) {
    match issue
    case DuplicateUnitId(id) => Repeats(Ids(plan.units), id)
    case EmptyAcceptanceCriteria(id) => exists u :: u in plan.units && u.id == id && EmptyCriteria(u)
    case ContradictoryCriteria(id, subject) => exists u :: u in plan.units && u.id == id && Contradicts(u, subject)
    case SelfDependency(id) => exists u :: u in plan.units && u.id == id && id in u.dependencies
    case UnknownDependency(id, d) =>
      d != id && d !in GraphOf(plan.units) && exists u :: u in plan.units && u.id == id && d in u.dependencies
    case DuplicateVerificationId(id) => Repeats(Requirements(plan), id)
    case DependencyCycle(from, to, path) =>
      && ClosedWalk(GraphOf(plan.units), path) && Distinct(path[1..])
      && path[0] == to && path[|path| - 2] == from
  }

  function UnitsOf(path: seq<Id>): set<Id> {
    set id | id in path
  }

  /** The unit sets of the reported cycles. */
  ghost function CycleKeys(issues: seq<Issue>): set<set<Id>> {
    set i | 0 <= i < |issues| && issues[i].DependencyCycle? :: UnitsOf(issues[i].path)
  }

  /** No two reported cycles pass through the same units. */
  ghost predicate CyclesDiffer(issues: seq<Issue>) {
    forall i, j :: 0 <= i < j < |issues| && issues[i].DependencyCycle? && issues[j].DependencyCycle? ==>
      UnitsOf(issues[i].path) != UnitsOf(issues[j].path)
  }

  /** Some reported cycle passes through both units. */
  ghost predicate ReportedTogether(issues: seq<Issue>, a: Id, b: Id) {
    exists i :: 0 <= i < |issues| && issues[i].DependencyCycle? && a in issues[i].path && b in issues[i].path
  }

  /** Every unit of the sequence comes after all the units it depends on, but for dependencies that
      close a reported cycle. */
  ghost predicate Accounted(g: Graph, order: seq<Id>, issues: seq<Issue>) {
    forall i, d :: 0 <= i < |order| && Edge(g, order[i], d) ==>
      d in order[..i] || ReportedTogether(issues, order[i], d)
  }

  ghost predicate ReportsCycle(issues: seq<Issue>) {
    exists i :: 0 <= i < |issues| && issues[i].DependencyCycle?
  }

  ghost predicate AllJustified(plan: Plan, issues: seq<Issue>) {
    forall i :: 0 <= i < |issues| ==> Justified(plan, issues[i])
  }

  // ---- what an order of the units excludes ----

  lemma AccountedExtends(g: Graph, order: seq<Id>, issues: seq<Issue>, unitId: Id)
    requires Accounted(g, order, issues)
    requires forall d :: Edge(g, unitId, d) ==> d in order || ReportedTogether(issues, unitId, d)
    ensures Accounted(g, order + [unitId], issues)
  {
    var longer := order + [unitId];
    forall i, d | 0 <= i < |longer| && Edge(g, longer[i], d)
      ensures d in longer[..i] || ReportedTogether(issues, longer[i], d)
    {
      if i < |order| {
        assert order[..i] == longer[..i] && order[i] == longer[i];
      } else {
        assert longer[..i] == order;
      }
    }
  }

  lemma ComesBefore(g: Graph, order: seq<Id>, issues: seq<Issue>, from: Id, to: Id, j: nat)
    requires Accounted(g, order, issues) && j < |order| && order[j] == from && Edge(g, from, to)
    ensures ReportedTogether(issues, from, to) || exists i :: 0 <= i < j && order[i] == to
  {
    assert to in order[..j] || ReportedTogether(issues, order[j], to);
  }

  /** Along a walk the positions in such a listing decrease strictly, up to the first dependency
      that lies on a reported cycle. */
  lemma {:induction false} WalkDescends(g: Graph, order: seq<Id>, issues: seq<Issue>, path: seq<Id>, j: nat)
    returns (i: nat, k: nat)
    requires Accounted(g, order, issues) && Walk(g, path) && |path| >= 2
    requires j < |order| && order[j] == path[0]
    ensures k < |path| && (k > 0 ==> ReportedTogether(issues, path[k - 1], path[k]))
    ensures k == 0 ==> i < j && order[i] == path[|path| - 1]
    decreases |path|
  {
    assert Edge(g, path[0], path[1]);
    ComesBefore(g, order, issues, path[0], path[1], j);
    if ReportedTogether(issues, path[0], path[1]) {
      return 0, 1;
    }
    i :| 0 <= i < j && order[i] == path[1];
    k := 0;
    if |path| > 2 {
      WalkSlice(g, path, 1, |path| - 1);
      var rest := path[1..|path| - 1 + 1];
      i, k := WalkDescends(g, order, issues, rest, i);
      k := if k > 0 then k + 1 else 0;
    }
  }

  /** Some reported cycle lies in the component of the closed walk. */
  ghost predicate ComponentReported(g: Graph, issues: seq<Issue>, path: seq<Id>) {
    exists i :: 0 <= i < |issues| && issues[i].DependencyCycle? && Connected(g, path, issues[i].path)
  }

  /** In a complete listing every closed walk has a reported cycle in its component. */
  lemma EveryComponentReported(plan: Plan, order: seq<Id>, issues: seq<Issue>, path: seq<Id>)
    requires var g := GraphOf(plan.units);
      Accounted(g, order, issues) && Distinct(order) && (forall u :: u in g ==> u in order) && ClosedWalk(g, path)
    requires AllJustified(plan, issues)
    ensures ComponentReported(GraphOf(plan.units), issues, path)
  {
    var g := GraphOf(plan.units);
    assert Edge(g, path[0], path[1]);
    var j :| 0 <= j < |order| && order[j] == path[0];
    var i, k := WalkDescends(g, order, issues, path, j);
    assert k > 0;
    var r :| 0 <= r < |issues| && issues[r].DependencyCycle?
      && path[k - 1] in issues[r].path && path[k] in issues[r].path;
    assert Justified(plan, issues[r]);
    SharedUnitConnects(g, path, issues[r].path, path[k]);
  }

  lemma UnreportedOrder(g: Graph, order: seq<Id>, issues: seq<Issue>)
    requires Accounted(g, order, issues) && !ReportsCycle(issues)
    ensures Ordered(g, order)
  {}

  /** A complete listing in which every unit comes after its dependencies excludes cycles. */
  lemma OrderedMeansAcyclic(g: Graph, order: seq<Id>)
    requires Ordered(g, order) && Distinct(order) && (forall u :: u in g ==> u in order)
    ensures !HasCycle(g)
  {
    forall path | ClosedWalk(g, path) ensures false {
      assert Edge(g, path[0], path[1]);
      var j :| 0 <= j < |order| && order[j] == path[0];
      var i, k := WalkDescends(g, order, [], path, j);
    }
  }
}
