/**
 * Plan: a study plan with a name (its identity), a description, a start and an end
 * date and a set of tasks. Plans are immutable values: "same plan" compares names
 * only, equals compares all five fields, and createUpdatedPlan swaps the task set.
 */
module Plans {
  import opened Wrappers

  type PlanName = string
  type PlanDescription = string

  /** A LocalDateTime, kept as an opaque comparable value (seconds since some epoch). */
  type DateTime = int

  /** Task is not part of this model beyond its value equality and its done flag. */
  datatype Task = Task(name: string, isDone: bool)

  /**
   * Java's constructor copies the caller's task set into a fresh HashSet, so later
   * changes to the caller's set cannot reach the plan; a Dafny set is a value, which
   * gives the same isolation, and getTasks' read-only view is the set itself.
   */
  datatype Plan = Plan(
    planName: PlanName,
    planDescription: PlanDescription,
    startDate: DateTime,
    endDate: DateTime,
    tasks: set<Task>)

  /** isSamePlan: the weak identity. A missing other plan (Java null) is never the same. */
  function IsSamePlan(p: Plan, other: Option<Plan>): (r: bool)
    ensures r <==> other.Some? && other.value.planName == p.planName
  {
    match other
    case None => false
    case Some(o) => o == p || o.planName == p.planName
  }

  /** equals: the strong identity, all five fields. */
  function Equals(p: Plan, other: Option<Plan>): (r: bool)
    ensures r <==> other == Some(p)
  {
    match other
    case None => false
    case Some(o) =>
      o.planName == p.planName && o.planDescription == p.planDescription
      && o.startDate == p.startDate && o.endDate == p.endDate && o.tasks == p.tasks
  }

  /** createUpdatedPlan: the same plan (name, description and dates kept) with the given tasks. */
  function CreateUpdatedPlan(planToUpdate: Plan, taskSet: set<Task>): (r: Plan)
    ensures IsSamePlan(r, Some(planToUpdate))
    ensures r.tasks == taskSet
    ensures r.planDescription == planToUpdate.planDescription
    ensures r.startDate == planToUpdate.startDate && r.endDate == planToUpdate.endDate
    ensures Equals(r, Some(planToUpdate)) <==> taskSet == planToUpdate.tasks
  {
    Plan(planToUpdate.planName, planToUpdate.planDescription,
         planToUpdate.startDate, planToUpdate.endDate, taskSet)
  }

  /** isSamePlan is reflexive. */
  lemma SamePlanReflexive(p: Plan)
    ensures IsSamePlan(p, Some(p))
  {
  }

  /** isSamePlan is symmetric on present plans. */
  lemma SamePlanSymmetric(p: Plan, q: Plan)
    ensures IsSamePlan(p, Some(q)) <==> IsSamePlan(q, Some(p))
  {
  }

  /** isSamePlan is transitive on present plans. */
  lemma SamePlanTransitive(p: Plan, q: Plan, s: Plan)
    requires IsSamePlan(p, Some(q)) && IsSamePlan(q, Some(s))
    ensures IsSamePlan(p, Some(s))
  {
  }

  /** Strong equality implies weak identity, but not the other way round. */
  lemma EqualsImpliesSamePlan(p: Plan, other: Option<Plan>)
    ensures Equals(p, other) ==> IsSamePlan(p, other)
  {
  }

  lemma SamePlanIsWeakerThanEquals(p: Plan, t: Task)
    requires t !in p.tasks
    ensures IsSamePlan(p, Some(CreateUpdatedPlan(p, p.tasks + {t})))
    ensures !Equals(p, Some(CreateUpdatedPlan(p, p.tasks + {t})))
  {
    assert t in CreateUpdatedPlan(p, p.tasks + {t}).tasks;
  }

  /** Updating twice keeps only the last task set; updating with the current set changes nothing. */
  lemma CreateUpdatedPlanLastWins(p: Plan, first: set<Task>, second: set<Task>)
    ensures CreateUpdatedPlan(CreateUpdatedPlan(p, first), second) == CreateUpdatedPlan(p, second)
    ensures CreateUpdatedPlan(p, p.tasks) == p
  {
  }
}
