/** The issues of a plan other than cycles, in the order in which they are reported. */
module PlanIssues {
  import opened Prelude
  import opened PlanGraph

  /** The subjects of the "must" criteria, each where it first occurs. */
  function Musts(criteria: seq<Criterion>): seq<string> {
    if criteria == [] then []
    else
      var before, last := Musts(criteria[..|criteria| - 1]), criteria[|criteria| - 1];
      if last.Must? && last.subject !in before then before + [last.subject] else before
  }

  function Contradictions(u: WorkUnit, subjects: seq<string>): seq<Issue> {
    if subjects == [] then []
    else
      var last := subjects[|subjects| - 1];
      Contradictions(u, subjects[..|subjects| - 1])
      + (if MustNot(last) in u.criteria then [ContradictoryCriteria(u.id, last)] else [])
  }

  function CriteriaIssues(u: WorkUnit): seq<Issue> {
    (if EmptyCriteria(u) then [EmptyAcceptanceCriteria(u.id)] else []) + Contradictions(u, Musts(u.criteria))
  }

  /** Unit by unit: whether its id is taken, and what is wrong with its criteria. */
  function UnitIssues(units: seq<WorkUnit>): seq<Issue> {
    if units == [] then []
    else
      var before, last := units[..|units| - 1], units[|units| - 1];
      UnitIssues(before)
      + (if last.id in GraphOf(before) then [DuplicateUnitId(last.id)] else []) + CriteriaIssues(last)
  }

  /** Dependency by dependency, each time it is listed. */
  function DependencyIssues(g: Graph, u: WorkUnit, dependencies: seq<Id>): seq<Issue> {
    if dependencies == [] then []
    else
      var last := dependencies[|dependencies| - 1];
      DependencyIssues(g, u, dependencies[..|dependencies| - 1])
      + (if last == u.id then [SelfDependency(u.id)] else if last !in g then [UnknownDependency(u.id, last)] else [])
  }

  function AllDependencyIssues(g: Graph, units: seq<WorkUnit>): seq<Issue> {
    if units == [] then []
    else
      var last := units[|units| - 1];
      AllDependencyIssues(g, units[..|units| - 1]) + DependencyIssues(g, last, last.dependencies)
  }

  /** Once for every requirement whose id an earlier one has. */
  function VerificationIssues(ids: seq<Id>): seq<Issue> {
    if ids == [] then []
    else
      var before, last := ids[..|ids| - 1], ids[|ids| - 1];
      VerificationIssues(before) + (if last in before then [DuplicateVerificationId(last)] else [])
  }

  /** What is reported before any cycle is looked for. */
  function StructuralIssues(plan: Plan): seq<Issue> {
    UnitIssues(plan.units) + AllDependencyIssues(GraphOf(plan.units), plan.units)
    + VerificationIssues(Requirements(plan))
  }

  // ---- they are the defects of the plan ----

  lemma {:induction false} MustsExactly(criteria: seq<Criterion>, s: string)
    ensures s in Musts(criteria) <==> Must(s) in criteria
  {
    if criteria != [] {
      var n := |criteria| - 1;
      MustsExactly(criteria[..n], s);
      assert criteria == criteria[..n] + [criteria[n]];
    }
  }

  lemma {:induction false} ContradictionsExactly(u: WorkUnit, subjects: seq<string>, issue: Issue)
    ensures issue in Contradictions(u, subjects) <==>
      issue.ContradictoryCriteria? && issue.unitId == u.id
      && issue.subject in subjects && MustNot(issue.subject) in u.criteria
  {
    if subjects != [] {
      var n := |subjects| - 1;
      ContradictionsExactly(u, subjects[..n], issue);
      assert subjects == subjects[..n] + [subjects[n]];
    }
  }

  predicate IsCriteriaIssue(u: WorkUnit, issue: Issue) {
    || (issue.EmptyAcceptanceCriteria? && issue.unitId == u.id && EmptyCriteria(u))
    || (issue.ContradictoryCriteria? && issue.unitId == u.id && Contradicts(u, issue.subject))
  }

  lemma CriteriaIssuesExactly(u: WorkUnit, issue: Issue)
    ensures issue in CriteriaIssues(u) <==> IsCriteriaIssue(u, issue)
  {
    ContradictionsExactly(u, Musts(u.criteria), issue);
    if issue.ContradictoryCriteria? {
      MustsExactly(u.criteria, issue.subject);
    }
  }

  lemma RepeatsSnoc(ids: seq<Id>, last: Id)
    ensures forall id :: Repeats(ids + [last], id) <==> Repeats(ids, id) || (id == last && last in ids)
  {
    var longer := ids + [last];
    forall id ensures Repeats(longer, id) <==> Repeats(ids, id) || (id == last && last in ids) {
      if i, j :| 0 <= i < j < |longer| && longer[i] == id && longer[j] == id {
        assert ids[i] == id && (j < |ids| ==> ids[j] == id);
      }
      if i, j :| 0 <= i < j < |ids| && ids[i] == id && ids[j] == id {
        assert longer[i] == id && longer[j] == id;
      }
      if i :| 0 <= i < |ids| && ids[i] == id == last {
        assert longer[i] == id && longer[|ids|] == id;
      }
    }
  }

  lemma NextUnitRepeats(units: seq<WorkUnit>, last: WorkUnit, id: Id)
    ensures Repeats(Ids(units + [last]), id) <==> Repeats(Ids(units), id) || (id == last.id && id in GraphOf(units))
  {
    var ids := Ids(units);
    assert Ids(units + [last]) == ids + [last.id];
    RepeatsSnoc(ids, last.id);
    FirstUnit(units, last.id);
    if j :| 0 <= j < |units| && units[j].id == last.id {
      assert ids[j] == last.id;
    }
    if last.id in ids {
      var j :| 0 <= j < |ids| && ids[j] == last.id;
      assert units[j].id == last.id;
    }
  }

  predicate IsUnitIssue(units: seq<WorkUnit>, issue: Issue) {
    exists u :: u in units && IsCriteriaIssue(u, issue)
  }

  lemma {:induction false} UnitIssuesExactly(units: seq<WorkUnit>, issue: Issue)
    ensures issue in UnitIssues(units) <==>
      (issue.DuplicateUnitId? && Repeats(Ids(units), issue.unitId)) || IsUnitIssue(units, issue)
  {
    if units != [] {
      var before, last := units[..|units| - 1], units[|units| - 1];
      assert units == before + [last];
      UnitIssuesExactly(before, issue);
      CriteriaIssuesExactly(last, issue);
      if issue.DuplicateUnitId? {
        NextUnitRepeats(before, last, issue.unitId);
      }
    }
  }

  predicate IsDependencyIssue(g: Graph, u: WorkUnit, dependencies: seq<Id>, issue: Issue) {
    || (issue.SelfDependency? && issue.unitId == u.id && u.id in dependencies)
    || (issue.UnknownDependency? && issue.unitId == u.id && issue.dependencyId in dependencies
        && issue.dependencyId != u.id && issue.dependencyId !in g)
  }

  lemma {:induction false} DependencyIssuesExactly(g: Graph, u: WorkUnit, dependencies: seq<Id>, issue: Issue)
    ensures issue in DependencyIssues(g, u, dependencies) <==> IsDependencyIssue(g, u, dependencies, issue)
  {
    if dependencies != [] {
      var n := |dependencies| - 1;
      DependencyIssuesExactly(g, u, dependencies[..n], issue);
      assert dependencies == dependencies[..n] + [dependencies[n]];
    }
  }

  lemma {:induction false} AllDependencyIssuesExactly(g: Graph, units: seq<WorkUnit>, issue: Issue)
    ensures issue in AllDependencyIssues(g, units) <==>
      exists u :: u in units && IsDependencyIssue(g, u, u.dependencies, issue)
  {
    if units != [] {
      var before, last := units[..|units| - 1], units[|units| - 1];
      assert units == before + [last];
      AllDependencyIssuesExactly(g, before, issue);
      DependencyIssuesExactly(g, last, last.dependencies, issue);
    }
  }

  lemma {:induction false} VerificationIssuesExactly(ids: seq<Id>, issue: Issue)
    ensures issue in VerificationIssues(ids) <==>
      issue.DuplicateVerificationId? && Repeats(ids, issue.verificationId)
  {
    if ids != [] {
      var before, last := ids[..|ids| - 1], ids[|ids| - 1];
      assert ids == before + [last];
      VerificationIssuesExactly(before, issue);
      RepeatsSnoc(before, last);
    }
  }

  /** An issue other than a cycle is reported exactly when the plan has that very defect. */
  lemma EveryDefectReported(plan: Plan, issue: Issue)
    ensures issue in StructuralIssues(plan) <==> !issue.DependencyCycle? && Justified(plan, issue)
  {
    UnitIssuesExactly(plan.units, issue);
    AllDependencyIssuesExactly(GraphOf(plan.units), plan.units, issue);
    VerificationIssuesExactly(Requirements(plan), issue);
  }
}
