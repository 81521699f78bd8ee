/** `validateAcyclicPlan` with its mutable state: the issue list and the three sets and the stack
    of the depth-first search. */
module PlanValidator {
  import opened Prelude
  import opened PlanGraph
  import opened PlanIssues

  /** The stack is a path of distinct units, the visiting set holds exactly these, and visited
      units are no longer on it. */
  ghost predicate Shape(g: Graph, visited: seq<Id>, visiting: set<Id>, stack: seq<Id>) {
    && Walk(g, stack) && Distinct(stack) && (forall id :: id in visiting <==> id in stack)
    && (forall id :: id in stack ==> id in g)
    && Distinct(visited) && (forall id :: id in visited ==> id in g && id !in visiting)
  }

  class Validator {
    const plan: Plan
    var unitById: Graph
    var ids: seq<Id> // the keys of `unitById` in order of insertion
    var issues: seq<Issue>
    var visited: seq<Id> // in order of insertion
    var visiting: set<Id>
    var stack: seq<Id>
    var reportedCycles: set<set<Id>>

    constructor (plan: Plan)
      ensures this.plan == plan && issues == [] && unitById == map[] && ids == []
      ensures visited == [] && visiting == {} && stack == [] && reportedCycles == {}
    {
      this.plan := plan;
      unitById, ids, issues := map[], [], [];
      visited, visiting, stack, reportedCycles := [], {}, [], {};
    }

    /** No cycle has been looked for yet. */
    predicate Checking()
      reads this
    {
      visited == [] && visiting == {} && stack == [] && reportedCycles == {}
    }

    method Report(issue: Issue)
      modifies this`issues
      ensures issues == old(issues) + [issue]
    {
      issues := issues + [issue];
    }

    method CheckCriteria(unit: WorkUnit)
      modifies this`issues
      ensures issues == old(issues) + CriteriaIssues(unit)
    {
      if EmptyCriteria(unit) {
        Report(EmptyAcceptanceCriteria(unit.id));
      }
      ghost var before := issues;
      var required, forbidden := Subjects(unit.criteria);
      for i := 0 to |required|
        invariant issues == before + Contradictions(unit, required[..i])
      {
        assert required[..i + 1][..i] == required[..i];
        if required[i] in forbidden {
          Report(ContradictoryCriteria(unit.id, required[i]));
        }
      }
      assert required[..|required|] == required;
    }

    /** The map of known units keeps the first unit of every id. */
    method AddUnit(i: nat)
      requires i < |plan.units| && unitById == GraphOf(plan.units[..i])
      requires forall id :: id in ids <==> id in unitById
      modifies this`issues, this`unitById, this`ids
      ensures unitById == GraphOf(plan.units[..i + 1])
      ensures forall id :: id in ids <==> id in unitById
      ensures issues == old(issues)
        + (if plan.units[i].id in GraphOf(plan.units[..i]) then [DuplicateUnitId(plan.units[i].id)] else [])
    {
      var unit := plan.units[i];
      assert plan.units[..i + 1][..i] == plan.units[..i];
      if unit.id in unitById {
        Report(DuplicateUnitId(unit.id));
      } else {
        unitById := unitById[unit.id := unit];
        ids := ids + [unit.id];
      }
    }

    method CheckUnits()
      requires issues == [] && unitById == map[] && ids == []
      modifies this`issues, this`unitById, this`ids
      ensures unitById == GraphOf(plan.units)
      ensures forall id :: id in ids <==> id in unitById
      ensures issues == UnitIssues(plan.units)
    {
      for i := 0 to |plan.units|
        invariant unitById == GraphOf(plan.units[..i])
        invariant forall id :: id in ids <==> id in unitById
        invariant issues == UnitIssues(plan.units[..i])
      {
        assert plan.units[..i + 1][..i] == plan.units[..i];
        AddUnit(i);
        CheckCriteria(plan.units[i]);
      }
      assert plan.units[..|plan.units|] == plan.units;
    }

    method CheckDependencies()
      modifies this`issues
      ensures issues == old(issues) + AllDependencyIssues(unitById, plan.units)
    {
      for i := 0 to |plan.units|
        invariant issues == old(issues) + AllDependencyIssues(unitById, plan.units[..i])
      {
        assert plan.units[..i + 1][..i] == plan.units[..i];
        CheckUnitDependencies(plan.units[i]);
      }
      assert plan.units[..|plan.units|] == plan.units;
    }

    method CheckUnitDependencies(unit: WorkUnit)
      modifies this`issues
      ensures issues == old(issues) + DependencyIssues(unitById, unit, unit.dependencies)
    {
      for k := 0 to |unit.dependencies|
        invariant issues == old(issues) + DependencyIssues(unitById, unit, unit.dependencies[..k])
      {
        assert unit.dependencies[..k + 1][..k] == unit.dependencies[..k];
        var dependencyId := unit.dependencies[k];
        if dependencyId == unit.id {
          Report(SelfDependency(unit.id));
        } else if dependencyId !in unitById {
          Report(UnknownDependency(unit.id, dependencyId));
        }
      }
      assert unit.dependencies[..|unit.dependencies|] == unit.dependencies;
    }

    /** Visits every requirement id once, units first; `checked` is the set of ids seen so far. */
    method CheckVerifications()
      modifies this`issues
      ensures issues == old(issues) + VerificationIssues(Requirements(plan))
    {
      var checked: set<Id> := {};
      ghost var all: seq<Id> := [];
      for i := 0 to |plan.units|
        invariant issues == old(issues) + VerificationIssues(all)
        invariant all == VerificationIds(plan.units[..i]) && forall id :: id in checked <==> id in all
      {
        assert plan.units[..i + 1][..i] == plan.units[..i];
        checked, all := CheckIds(plan.units[i].verifications, checked, all, old(issues));
      }
      assert plan.units[..|plan.units|] == plan.units;
      checked, all := CheckIds(plan.finalVerifications, checked, all, old(issues));
    }

    method CheckIds(verifications: seq<Id>, seen: set<Id>, ghost before: seq<Id>, ghost first: seq<Issue>)
      returns (checked: set<Id>, ghost all: seq<Id>)
      requires (forall id :: id in seen <==> id in before) && issues == first + VerificationIssues(before)
      modifies this`issues
      ensures all == before + verifications && (forall id :: id in checked <==> id in all)
      ensures issues == first + VerificationIssues(all)
    {
      checked, all := seen, before;
      for k := 0 to |verifications|
        invariant all == before + verifications[..k] && forall id :: id in checked <==> id in all
        invariant issues == first + VerificationIssues(all)
      {
        var id := verifications[k];
        assert (all + [id])[..|all|] == all;
        if id in checked {
          Report(DuplicateVerificationId(id));
        } else {
          checked := checked + {id};
        }
        all := all + [id];
      }
    }

    /** The state between two steps of the search. */
    ghost predicate Searching()
      reads this
    {
      && unitById == GraphOf(plan.units)
      && AllJustified(plan, issues)
      && Shape(unitById, visited, visiting, stack)
      && reportedCycles == CycleKeys(issues) && CyclesDiffer(issues)
      && Accounted(unitById, visited, issues)
    }

    method AddCycle(cycleKey: set<Id>, issue: Issue)
      requires Searching() && Justified(plan, issue) && issue.DependencyCycle?
      requires cycleKey == UnitsOf(issue.path) && cycleKey !in reportedCycles
      modifies this`issues, this`reportedCycles
      ensures Searching() && issues == old(issues) + [issue] && cycleKey in reportedCycles
    {
      AddJustified(plan, issues, issue);
      OneMoreCycle(issues, issue);
      AccountedStays(unitById, visited, issues, issue);
      reportedCycles := reportedCycles + {cycleKey};
      issues := issues + [issue];
    }

    method ReportCycle(unitId: Id, dependencyId: Id)
      requires Searching() && stack != [] && stack[|stack| - 1] == unitId
      requires Edge(unitById, unitId, dependencyId) && dependencyId in visiting
      modifies this`issues, this`reportedCycles
      ensures Searching() && ThenCycles(old(issues), issues) && ReportedTogether(issues, unitId, dependencyId)
    {
      var cycleStart := IndexOf(stack, dependencyId);
      var cycle := stack[cycleStart..] + [dependencyId];
      var cycleKey := UnitsOf(cycle);
      if cycleKey !in reportedCycles {
        CycleIsJustified(unitById, stack, cycleStart, dependencyId);
        AddCycle(cycleKey, DependencyCycle(unitId, dependencyId, cycle));
      }
      EndsAreInCycle(stack, cycleStart, dependencyId);
      TogetherInCycle(issues, cycle, unitId, dependencyId);
    }

    /** The start of a visit: the unit goes onto the stack. */
    method Enter(unitId: Id)
      requires Searching() && unitId in unitById && unitId !in visiting && unitId !in visited
      requires stack == [] || Edge(unitById, stack[|stack| - 1], unitId)
      modifies this`visiting, this`stack
      ensures Searching() && stack == old(stack) + [unitId] && visiting == old(visiting) + {unitId}
    {
      PushWalk(unitById, stack, unitId);
      visiting := visiting + {unitId};
      stack := stack + [unitId];
    }

    /** The end of a visit: the unit leaves the stack and counts as visited. */
    method Leave(unitId: Id)
      requires Searching() && stack != [] && stack[|stack| - 1] == unitId
      requires forall d :: Edge(unitById, unitId, d) ==> d in visited || ReportedTogether(issues, unitId, d)
      modifies this`visiting, this`stack, this`visited
      ensures Searching() && stack == old(stack)[..|old(stack)| - 1] && visiting == old(visiting) - {unitId}
      ensures visited == old(visited) + [unitId]
    {
      assert unitId in visiting && unitId !in visited;
      AccountedExtends(unitById, visited, issues, unitId);
      PopWalk(unitById, stack);
      stack := stack[..|stack| - 1];
      visiting := visiting - {unitId};
      visited := visited + [unitId];
    }

    method Visit(unitId: Id)
      requires Searching() && unitId in unitById && unitId !in visiting
      requires stack == [] || Edge(unitById, stack[|stack| - 1], unitId)
      modifies this`issues, this`visited, this`visiting, this`stack, this`reportedCycles
      ensures Searching() && stack == old(stack) && visiting == old(visiting)
      ensures unitId in visited && old(visited) <= visited && ThenCycles(old(issues), issues)
      decreases GraphOf(plan.units).Keys - visiting, 0
    {
      if unitId in visited {
        return;
      }
      PopAfterPush(stack, unitId);
      Enter(unitId);
      FollowAll(unitId);
      Leave(unitId);
    }

    /** The loop over the dependencies of the unit on top of the stack. */
    method FollowAll(unitId: Id)
      requires Searching() && stack != [] && stack[|stack| - 1] == unitId && unitId in unitById
      modifies this`issues, this`visited, this`visiting, this`stack, this`reportedCycles
      ensures Searching() && stack == old(stack) && visiting == old(visiting)
      ensures old(visited) <= visited && ThenCycles(old(issues), issues)
      ensures forall d :: Edge(unitById, unitId, d) ==> d in visited || ReportedTogether(issues, unitId, d)
      decreases GraphOf(plan.units).Keys - visiting, 2
    {
      var dependencies := unitById[unitId].dependencies;
      var i := 0;
      while i < |dependencies|
        invariant 0 <= i <= |dependencies|
        invariant Searching() && stack == old(stack) && visiting == old(visiting)
        invariant old(visited) <= visited && ThenCycles(old(issues), issues)
        invariant forall j :: 0 <= j < i ==> Handled(unitById, visited, issues, unitId, dependencies[j])
      {
        ghost var before, reported := visited, issues;
        Follow(unitId, dependencies[i]);
        HandledStays(unitById, before, visited, reported, issues, unitId);
        i := i + 1;
      }
    }

    /** The body of that loop: one dependency of the unit on top of the stack. */
    method Follow(unitId: Id, dependencyId: Id)
      requires Searching() && stack != [] && stack[|stack| - 1] == unitId
      requires unitId in unitById && dependencyId in unitById[unitId].dependencies
      modifies this`issues, this`visited, this`visiting, this`stack, this`reportedCycles
      ensures Searching() && stack == old(stack) && visiting == old(visiting)
      ensures old(visited) <= visited && ThenCycles(old(issues), issues)
      ensures Handled(unitById, visited, issues, unitId, dependencyId)
      decreases GraphOf(plan.units).Keys - visiting, 1
    {
      if dependencyId != unitId && dependencyId in unitById {
        if dependencyId in visiting {
          ReportCycle(unitId, dependencyId);
        } else {
          Visit(dependencyId);
        }
      }
    }

    /** The whole of `validateAcyclicPlan`. */
    method Validate()
      requires Checking() && issues == [] && unitById == map[] && ids == []
      modifies this
      ensures Outcome(plan, issues, visited)
    {
      CheckUnits();
      CheckDependencies();
      CheckVerifications();
      StructuralComeFirst(plan);
      Search();
      OutcomeHolds(plan, issues, visited);
    }

    /** The search starts at every unit in turn. */
    method Search()
      requires Searching() && stack == [] && visiting == {} && forall id :: id in ids <==> id in unitById
      modifies this`issues, this`visited, this`visiting, this`stack, this`reportedCycles
      ensures Searching() && visiting == {} && ThenCycles(old(issues), issues)
      ensures forall id :: id in unitById ==> id in visited
    {
      ghost var reported := issues;
      var units := ids;
      for i := 0 to |units|
        invariant Searching() && stack == [] && visiting == {} && ThenCycles(reported, issues)
        invariant forall j :: 0 <= j < i ==> units[j] in visited
      {
        assert units[i] in units;
        ghost var before := visited;
        Visit(units[i]);
        assert forall id :: id in before ==> id in visited;
      }
    }
  }

  /** What is reported of a plan, and the order in which its units have been left. */
  ghost predicate Outcome(plan: Plan, issues: seq<Issue>, visited: seq<Id>) {
    var g := GraphOf(plan.units);
    && AllJustified(plan, issues)
    && (forall issue: Issue :: !issue.DependencyCycle? ==> (issue in issues <==> Justified(plan, issue)))
    && (ReportsCycle(issues) <==> HasCycle(g))
    && (forall path :: ClosedWalk(g, path) ==> ComponentReported(g, issues, path))
    && CyclesDiffer(issues) && StructuralThenCycles(plan, issues)
    && (!ReportsCycle(issues) ==> TopologicalOrder(plan, visited))
  }

  lemma OutcomeHolds(plan: Plan, issues: seq<Issue>, visited: seq<Id>)
    requires var g := GraphOf(plan.units);
      && Accounted(g, visited, issues) && Distinct(visited) && (forall id :: id in visited <==> id in g)
    requires AllJustified(plan, issues) && CyclesDiffer(issues) && StructuralThenCycles(plan, issues)
    ensures Outcome(plan, issues, visited)
  {
    var g := GraphOf(plan.units);
    forall issue: Issue | !issue.DependencyCycle? ensures issue in issues <==> Justified(plan, issue) {
      OthersAreStructural(plan, issues, issue);
    }
    forall path | ClosedWalk(g, path) ensures ComponentReported(g, issues, path) {
      EveryComponentReported(plan, visited, issues, path);
    }
    if ReportsCycle(issues) {
      ReportedCycleIsReal(plan, issues);
    } else {
      UnreportedOrder(g, visited, issues);
    }
  }

  /** The dependency has been visited, or closes a reported cycle, or is no edge of the graph. */
  ghost predicate Handled(g: Graph, visited: seq<Id>, issues: seq<Issue>, unitId: Id, d: Id) {
    Edge(g, unitId, d) ==> d in visited || ReportedTogether(issues, unitId, d)
  }

  lemma TogetherStays(issues: seq<Issue>, longer: seq<Issue>, a: Id, b: Id)
    requires issues <= longer && ReportedTogether(issues, a, b)
    ensures ReportedTogether(longer, a, b)
  {
    var i :| 0 <= i < |issues| && issues[i].DependencyCycle? && a in issues[i].path && b in issues[i].path;
    assert longer[i] == issues[i];
  }

  lemma HandledStays(g: Graph, before: seq<Id>, visited: seq<Id>, reported: seq<Issue>, issues: seq<Issue>, unitId: Id)
    requires before <= visited && reported <= issues
    ensures forall d :: Handled(g, before, reported, unitId, d) ==> Handled(g, visited, issues, unitId, d)
  {
    forall d | Handled(g, before, reported, unitId, d) ensures Handled(g, visited, issues, unitId, d) {
      if d in before {
        var i :| 0 <= i < |before| && before[i] == d;
        assert visited[i] == d;
      } else if Edge(g, unitId, d) {
        TogetherStays(reported, issues, unitId, d);
      }
    }
  }

  lemma AccountedStays(g: Graph, order: seq<Id>, issues: seq<Issue>, issue: Issue)
    requires Accounted(g, order, issues)
    ensures Accounted(g, order, issues + [issue])
  {
    forall i, d | 0 <= i < |order| && Edge(g, order[i], d)
      ensures d in order[..i] || ReportedTogether(issues + [issue], order[i], d)
    {
      if d !in order[..i] {
        TogetherStays(issues, issues + [issue], order[i], d);
      }
    }
  }

  lemma OneMoreCycle(issues: seq<Issue>, issue: Issue)
    requires CyclesDiffer(issues) && issue.DependencyCycle? && UnitsOf(issue.path) !in CycleKeys(issues)
    ensures CyclesDiffer(issues + [issue])
    ensures CycleKeys(issues + [issue]) == CycleKeys(issues) + {UnitsOf(issue.path)}
  {
    var longer := issues + [issue];
    forall i | 0 <= i < |issues| && issues[i].DependencyCycle?
      ensures longer[i] == issues[i] && UnitsOf(longer[i].path) in CycleKeys(issues)
    {}
    assert longer[|issues|] == issue;
  }

  lemma EndsAreInCycle(stack: seq<Id>, start: nat, dependencyId: Id)
    requires start < |stack|
    ensures var cycle := stack[start..] + [dependencyId]; stack[|stack| - 1] in cycle && dependencyId in cycle
  {
    var cycle := stack[start..] + [dependencyId];
    assert cycle[|cycle| - 2] == stack[|stack| - 1] && cycle[|cycle| - 1] == dependencyId;
  }

  /** A cycle whose units are those of a reported one passes through no other units. */
  lemma TogetherInCycle(issues: seq<Issue>, cycle: seq<Id>, a: Id, b: Id)
    requires UnitsOf(cycle) in CycleKeys(issues) && a in cycle && b in cycle
    ensures ReportedTogether(issues, a, b)
  {
    var i :| 0 <= i < |issues| && issues[i].DependencyCycle? && UnitsOf(issues[i].path) == UnitsOf(cycle);
    assert a in UnitsOf(issues[i].path) && b in UnitsOf(issues[i].path);
  }

  lemma PopAfterPush(stack: seq<Id>, id: Id)
    ensures (stack + [id])[|stack + [id]| - 1] == id && (stack + [id])[..|stack + [id]| - 1] == stack
  {}

  /** Every known unit once, after all its dependencies. */
  ghost predicate TopologicalOrder(plan: Plan, order: seq<Id>) {
    && Ordered(GraphOf(plan.units), order) && Distinct(order)
    && (forall id :: id in order <==> id in GraphOf(plan.units))
  }

  /** The issues of a plan, and the order in which the search has left its units. */
  method ValidateAcyclicPlan(plan: Plan) returns (issues: seq<Issue>, visited: seq<Id>)
    ensures AllJustified(plan, issues)
    ensures forall issue: Issue :: !issue.DependencyCycle? ==> (issue in issues <==> Justified(plan, issue))
    ensures ReportsCycle(issues) <==> HasCycle(GraphOf(plan.units))
    ensures issues == [] <==> forall issue: Issue :: !Justified(plan, issue)
    ensures forall path ::
      ClosedWalk(GraphOf(plan.units), path) ==> ComponentReported(GraphOf(plan.units), issues, path)
    ensures CyclesDiffer(issues) && StructuralThenCycles(plan, issues)
    ensures !ReportsCycle(issues) ==> TopologicalOrder(plan, visited)
  {
    var validator := new Validator(plan);
    validator.Validate();
    issues, visited := validator.issues, validator.visited;
    if issues != [] {
      assert Justified(plan, issues[0]);
    }
  }

  /** The subjects of the "must" criteria, in order, and those of the "must not" criteria. */
  method Subjects(criteria: seq<Criterion>) returns (required: seq<string>, forbidden: set<string>)
    ensures required == Musts(criteria) && forall s :: s in required <==> Must(s) in criteria
    ensures forall s :: s in forbidden <==> MustNot(s) in criteria
  {
    required, forbidden := [], {};
    for i := 0 to |criteria|
      invariant required == Musts(criteria[..i]) && forall s :: s in required <==> Must(s) in criteria[..i]
      invariant forall s :: s in forbidden <==> MustNot(s) in criteria[..i]
    {
      var criterion := criteria[i];
      assert criteria[..i + 1] == criteria[..i] + [criterion] && criteria[..i + 1][..i] == criteria[..i];
      if criterion.Must? && criterion.subject !in required {
        required := required + [criterion.subject];
      } else if criterion.MustNot? {
        forbidden := forbidden + {criterion.subject};
      }
    }
    assert criteria[..|criteria|] == criteria;
  }

  method IndexOf(s: seq<Id>, id: Id) returns (k: nat)
    requires id in s
    ensures k < |s| && s[k] == id && id !in s[..k]
  {
    k := 0;
    while s[k] != id
      invariant k < |s| && id !in s[..k] && id in s[k..]
      decreases |s| - k
    {
      k := k + 1;
    }
  }

  /** Only cycles have been added. */
  predicate ThenCycles(before: seq<Issue>, issues: seq<Issue>) {
    before <= issues && forall i :: |before| <= i < |issues| ==> issues[i].DependencyCycle?
  }

  /** The other issues come first, as often and in the order in which the plan gives rise to them. */
  predicate StructuralThenCycles(plan: Plan, issues: seq<Issue>) {
    ThenCycles(StructuralIssues(plan), issues)
  }

  /** Before the search there is no cycle among the issues, and each of them names a defect. */
  lemma StructuralComeFirst(plan: Plan)
    ensures AllJustified(plan, StructuralIssues(plan)) && !ReportsCycle(StructuralIssues(plan))
    ensures CycleKeys(StructuralIssues(plan)) == {} && CyclesDiffer(StructuralIssues(plan))
  {
    var issues := StructuralIssues(plan);
    forall i | 0 <= i < |issues| ensures Justified(plan, issues[i]) && !issues[i].DependencyCycle? {
      assert issues[i] in issues;
      EveryDefectReported(plan, issues[i]);
    }
  }

  /** The cycles behind the other issues change nothing about these. */
  lemma OthersAreStructural(plan: Plan, issues: seq<Issue>, issue: Issue)
    requires StructuralThenCycles(plan, issues) && !issue.DependencyCycle?
    ensures issue in issues <==> Justified(plan, issue)
  {
    EveryDefectReported(plan, issue);
    var first := StructuralIssues(plan);
    if issue in issues {
      var i :| 0 <= i < |issues| && issues[i] == issue;
      assert i < |first| && first[i] == issue;
    }
    if issue in first {
      var i :| 0 <= i < |first| && first[i] == issue;
      assert issues[i] == issue;
    }
  }

  lemma ReportedCycleIsReal(plan: Plan, issues: seq<Issue>)
    requires AllJustified(plan, issues) && ReportsCycle(issues)
    ensures HasCycle(GraphOf(plan.units))
  {
    var i :| 0 <= i < |issues| && issues[i].DependencyCycle?;
    assert Justified(plan, issues[i]);
  }

  lemma AddJustified(plan: Plan, issues: seq<Issue>, issue: Issue)
    requires AllJustified(plan, issues) && Justified(plan, issue)
    ensures AllJustified(plan, issues + [issue])
    ensures issue.DependencyCycle? || ReportsCycle(issues) ==> ReportsCycle(issues + [issue])
  {
    var longer := issues + [issue];
    if issue.DependencyCycle? {
      assert longer[|issues|].DependencyCycle?;
    } else if ReportsCycle(issues) {
      var i :| 0 <= i < |issues| && issues[i].DependencyCycle?;
      assert longer[i].DependencyCycle?;
    }
  }

  lemma PushWalk(g: Graph, path: seq<Id>, id: Id)
    requires Walk(g, path) && Distinct(path) && id !in path && (path == [] || Edge(g, path[|path| - 1], id))
    ensures Walk(g, path + [id]) && Distinct(path + [id])
  {
    var longer := path + [id];
    forall i | 0 < i < |longer| ensures Edge(g, longer[i - 1], longer[i]) {
      if i < |path| {
        assert Edge(g, path[i - 1], path[i]);
      }
    }
  }

  lemma PopWalk(g: Graph, path: seq<Id>)
    requires path != [] && Walk(g, path) && Distinct(path)
    ensures var shorter := path[..|path| - 1];
            Walk(g, shorter) && Distinct(shorter)
            && (forall id :: id in shorter <==> id in path && id != path[|path| - 1])
  {
    var shorter := path[..|path| - 1];
    forall i | 0 < i < |shorter| ensures Edge(g, shorter[i - 1], shorter[i]) {
      assert Edge(g, path[i - 1], path[i]);
    }
    forall id | id in path && id != path[|path| - 1] ensures id in shorter {
      var i :| 0 <= i < |path| && path[i] == id;
      assert shorter[i] == id;
    }
  }

  /** The part of the stack from the dependency on, closed by the dependency, is a simple cycle. */
  lemma CycleIsJustified(g: Graph, stack: seq<Id>, start: nat, dependencyId: Id)
    requires Walk(g, stack) && Distinct(stack) && start < |stack| && stack[start] == dependencyId
    requires Edge(g, stack[|stack| - 1], dependencyId)
    ensures var path := stack[start..] + [dependencyId];
            && ClosedWalk(g, path) && Distinct(path[1..])
            && path[0] == dependencyId && path[|path| - 2] == stack[|stack| - 1]
  {
    var path := stack[start..] + [dependencyId];
    forall i | 0 < i < |path| ensures Edge(g, path[i - 1], path[i]) {
      if i < |path| - 1 {
        assert Edge(g, stack[start + i - 1], stack[start + i]);
      }
    }
  }
}
