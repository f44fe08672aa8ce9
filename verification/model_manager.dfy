/**
 * ModelManager: the single gateway between the commands and the data. It holds the
 * store (problems, tags, plans and find rules, each without duplicates), one filter
 * predicate per list, the comparator of the sorted problem view, and the user prefs.
 *
 * The store class AlgoBase is not part of this model: its lists become sequence
 * fields here, with the usual unique-list behaviour (adding an entry that is the same
 * as an existing one, or removing or replacing an entry that is absent, fails with a
 * StoreError and changes nothing). A JavaFX FilteredList becomes Filter over the list
 * and its predicate; the SortedList becomes SortBy.
 */
module Model {
  import opened Wrappers
  import opened Entities
  import opened Plans
  import opened Prefs
  import opened TagCascade

  datatype StoreError =
    | DuplicateProblem | ProblemNotFound
    | DuplicateTag | TagNotFound
    | DuplicatePlan | PlanNotFound
    | FindRuleNotFound
    | NullArgument

  /** The contents of a store, as a ReadOnlyAlgoBase hands them over. */
  datatype AlgoBaseData = AlgoBaseData(
    problems: seq<Problem>,
    tags: seq<Tag>,
    plans: seq<Plan>,
    findRules: seq<FindRule>)

  predicate UniquePlanNames(ps: seq<Plan>) {
    forall i, j :: 0 <= i < j < |ps| ==> ps[i].planName != ps[j].planName
  }

  /** Appending a plan whose name is new keeps the plan names unique. */
  lemma AppendKeepsPlanNamesUnique(ps: seq<Plan>, plan: Plan)
    requires UniquePlanNames(ps)
    requires forall i :: 0 <= i < |ps| ==> ps[i].planName != plan.planName
    ensures UniquePlanNames(ps + [plan])
  {
    var qs := ps + [plan];
    forall i, j | 0 <= i < j < |qs|
      ensures qs[i].planName != qs[j].planName
    {
      assert qs[i] == ps[i];
    }
  }

  /** No two problems, tags or plans are the same, and no find rule appears twice. */
  predicate WellFormed(d: AlgoBaseData) {
    UniqueProblemNames(d.problems) && UniqueTagNames(d.tags) && UniquePlanNames(d.plans)
    && Distinct(d.findRules)
  }

  /** The predicates that show every entry (Model.PREDICATE_SHOW_ALL_*). */
  const PREDICATE_SHOW_ALL_PROBLEMS: Problem -> bool := _ => true
  const PREDICATE_SHOW_ALL_TAGS: Tag -> bool := _ => true
  const PREDICATE_SHOW_ALL_PLANS: Plan -> bool := _ => true
  const PREDICATE_SHOW_ALL_FIND_RULES: FindRule -> bool := _ => true

  /** What the views currently show: one predicate per list and the problem comparator. */
  datatype Views = Views(
    problemFilter: Problem -> bool,
    tagFilter: Tag -> bool,
    planFilter: Plan -> bool,
    findRuleFilter: FindRule -> bool,
    problemOrder: Option<(Problem, Problem) -> int>)

  const SHOW_ALL: Views := Views(
    PREDICATE_SHOW_ALL_PROBLEMS, PREDICATE_SHOW_ALL_TAGS, PREDICATE_SHOW_ALL_PLANS,
    PREDICATE_SHOW_ALL_FIND_RULES, None)

  /** The tags a list holds, as a set. */
  function TagSet(ts: seq<Tag>): set<Tag> {
    set t | t in ts
  }

  /** A tag is stored (some stored tag has its name) exactly when it is in the list, since a tag is its name. */
  lemma StoredTagIsMember(ts: seq<Tag>, tag: Tag)
    ensures (exists i :: 0 <= i < |ts| && ts[i].name == tag.name) <==> tag in TagSet(ts)
  {
    if i :| 0 <= i < |ts| && ts[i].name == tag.name {
      assert ts[i] == tag;
    }
  }

  lemma TagSetAppend(before: seq<Tag>, added: seq<Tag>)
    ensures TagSet(before + added) == TagSet(before) + TagSet(added)
  {
  }

  class ModelManager {
    var problems: seq<Problem>
    var tags: seq<Tag>
    var plans: seq<Plan>
    var findRules: seq<FindRule>
    var problemFilter: Problem -> bool
    var tagFilter: Tag -> bool
    var planFilter: Plan -> bool
    var findRuleFilter: FindRule -> bool
    var problemOrder: Option<(Problem, Problem) -> int>
    const userPrefs: UserPrefs

    ghost predicate Valid()
      reads this
    {
      WellFormed(Store())
    }

    function Store(): AlgoBaseData
      reads this
    {
      AlgoBaseData(problems, tags, plans, findRules)
    }

    ghost function View(): Views
      reads this
    {
      Views(problemFilter, tagFilter, planFilter, findRuleFilter, problemOrder)
    }

    /** new ModelManager(algoBase, userPrefs): copies of both, every list shown in store order. */
    constructor (algoBase: AlgoBaseData, prefs: UserPrefs)
      requires WellFormed(algoBase)
      ensures Valid() && Store() == algoBase && View() == SHOW_ALL
      ensures fresh(userPrefs) && userPrefs.Equals(prefs)
    {
      problems, tags, plans, findRules := algoBase.problems, algoBase.tags, algoBase.plans, algoBase.findRules;
      problemFilter, tagFilter := PREDICATE_SHOW_ALL_PROBLEMS, PREDICATE_SHOW_ALL_TAGS;
      planFilter, findRuleFilter := PREDICATE_SHOW_ALL_PLANS, PREDICATE_SHOW_ALL_FIND_RULES;
      problemOrder := None;
      userPrefs := new UserPrefs.Copy(prefs);
    }

    //========== UserPrefs ==========

    /** setUserPrefs: resets the held prefs from the given ones; null is refused. */
    method SetUserPrefs(prefs: UserPrefs?) returns (r: Result<(), NullPointer>)
      modifies userPrefs
      ensures r.Success? <==> prefs != null
      ensures prefs != null ==> userPrefs.Equals(prefs)
      ensures prefs == null ==> unchanged(userPrefs)
    {
      r := userPrefs.ResetData(prefs);
    }

    method SetGuiSettings(settings: Option<GuiSettings>) returns (r: Result<(), NullPointer>)
      modifies userPrefs
      ensures r.Success? <==> settings.Some?
      ensures settings.Some? ==> userPrefs.guiSettings == settings.value
      ensures settings.None? ==> userPrefs.guiSettings == old(userPrefs.guiSettings)
      ensures userPrefs.algoBaseFilePath == old(userPrefs.algoBaseFilePath)
    {
      r := userPrefs.SetGuiSettings(settings);
    }

    method SetAlgoBaseFilePath(path: Option<Path>) returns (r: Result<(), NullPointer>)
      modifies userPrefs
      ensures r.Success? <==> path.Some?
      ensures path.Some? ==> userPrefs.algoBaseFilePath == path.value
      ensures path.None? ==> userPrefs.algoBaseFilePath == old(userPrefs.algoBaseFilePath)
      ensures userPrefs.guiSettings == old(userPrefs.guiSettings)
    {
      r := userPrefs.SetAlgoBaseFilePath(path);
    }

    //========== AlgoBase ==========

    /** setAlgoBase: the store's contents are replaced; the views keep their predicates. */
    method SetAlgoBase(algoBase: AlgoBaseData)
      requires WellFormed(algoBase)
      modifies this
      ensures Valid() && Store() == algoBase && View() == old(View())
    {
      problems, tags, plans, findRules := algoBase.problems, algoBase.tags, algoBase.plans, algoBase.findRules;
    }

    //========== Problem ==========

    /** hasProblem: some stored problem is the same (same name). */
    predicate HasProblem(problem: Problem)
      reads this
    {
      exists i :: 0 <= i < |problems| && problems[i].name == problem.name
    }

    method DeleteProblem(target: Problem) returns (r: Result<(), StoreError>)
      requires Valid()
      modifies this
      ensures Valid() && View() == old(View())
      ensures r.Success? <==> target in old(problems)
      ensures r.Success? ==> problems == RemoveAt(old(problems), IndexOf(old(problems), target))
      ensures r.Success? ==> target !in problems
      ensures r.Failure? ==> r.error == ProblemNotFound && problems == old(problems)
      ensures tags == old(tags) && plans == old(plans) && findRules == old(findRules)
    {
      if target !in problems {
        return Failure(ProblemNotFound);
      }
      var i := IndexOf(problems, target);
      problems := RemoveAt(problems, i);
      r := Success(());
      forall j | 0 <= j < |problems| ensures problems[j] != target {
        if j >= i {
          assert problems[j] == old(problems)[j + 1];
        }
      }
    }

    /** addProblem: append unless a same problem is stored, then show all problems. */
    method AddProblem(problem: Problem) returns (r: Result<(), StoreError>)
      requires Valid()
      modifies this
      ensures Valid()
      ensures r.Success? <==> !old(HasProblem(problem))
      ensures r.Success? ==> problems == old(problems) + [problem]
      ensures r.Success? ==> View() == old(View()).(problemFilter := PREDICATE_SHOW_ALL_PROBLEMS)
      ensures r.Success? ==> FilteredProblems() == problems && problem in FilteredProblems()
      ensures r.Failure? ==> r.error == DuplicateProblem && unchanged(this)
      ensures tags == old(tags) && plans == old(plans) && findRules == old(findRules)
    {
      if HasProblem(problem) {
        return Failure(DuplicateProblem);
      }
      problems := problems + [problem];
      UpdateFilteredProblemList(PREDICATE_SHOW_ALL_PROBLEMS);
      FilterShowAll(problems, problemFilter);
      r := Success(());
    }

    /** setProblem: replace target in place, unless it is absent or edited collides with another problem. */
    method SetProblem(target: Problem, editedProblem: Problem) returns (r: Result<(), StoreError>)
      requires Valid()
      modifies this
      ensures Valid() && View() == old(View())
      ensures r.Success? <==>
        target in old(problems) && (target.name == editedProblem.name || !old(HasProblem(editedProblem)))
      ensures r.Success? ==> problems == old(problems)[IndexOf(old(problems), target) := editedProblem]
      ensures target !in old(problems) ==> r == Failure(ProblemNotFound)
      ensures r.Failure? ==> problems == old(problems)
      ensures tags == old(tags) && plans == old(plans) && findRules == old(findRules)
    {
      var i := IndexOf(problems, target);
      if i == |problems| {
        return Failure(ProblemNotFound);
      }
      if target.name != editedProblem.name && HasProblem(editedProblem) {
        return Failure(DuplicateProblem);
      }
      problems := problems[i := editedProblem];
      r := Success(());
    }

    /** The filtered problem list, in store order. */
    function FilteredProblems(): seq<Problem>
      reads this
    {
      Filter(problems, problemFilter)
    }

    /**
     * getFilteredProblemList: the sorted view over the filtered view. Its elements are
     * exactly the stored problems the predicate accepts, each as often as in the store,
     * in store order until a comparator is set and in comparator order after.
     */
    function FilteredProblemList(): (r: seq<Problem>)
      reads this
      ensures multiset(r) == multiset(FilteredProblems())
      ensures forall i :: 0 <= i < |r| ==> r[i] in problems && problemFilter(r[i])
      ensures forall i :: 0 <= i < |problems| && problemFilter(problems[i]) ==> problems[i] in r
      ensures problemOrder.None? ==> r == FilteredProblems()
      ensures problemOrder.Some? && Total(problemOrder.value) ==> SortedBy(r, problemOrder.value)
    {
      var shown := FilteredProblems();
      var r := match problemOrder
        case None => shown
        case Some(cmp) => SortBy(shown, cmp);
      assert problemOrder.Some? && Total(problemOrder.value) ==> SortedBy(r, problemOrder.value) by {
        if problemOrder.Some? && Total(problemOrder.value) {
          SortBySorted(shown, problemOrder.value);
        }
      }
      forall i | 0 <= i < |r| ensures r[i] in problems && problemFilter(r[i]) {
        assert multiset(r)[r[i]] > 0;
        var k :| 0 <= k < |shown| && shown[k] == r[i];
      }
      forall i | 0 <= i < |problems| && problemFilter(problems[i]) ensures problems[i] in r {
        assert multiset(shown)[problems[i]] > 0;
      }
      r
    }

    method UpdateFilteredProblemList(pred: Problem -> bool)
      modifies this
      ensures Store() == old(Store()) && View() == old(View()).(problemFilter := pred)
    {
      problemFilter := pred;
    }

    method UpdateSortedProblemList(problemComparator: (Problem, Problem) -> int)
      modifies this
      ensures Store() == old(Store()) && View() == old(View()).(problemOrder := Some(problemComparator))
    {
      problemOrder := Some(problemComparator);
    }

    //========== Tag ==========

    /** hasTag: some stored tag is the same (same name). */
    predicate HasTag(tag: Tag)
      reads this
    {
      exists i :: 0 <= i < |tags| && tags[i].name == tag.name
    }

    method DeleteTag(target: Tag) returns (r: Result<(), StoreError>)
      requires Valid()
      modifies this
      ensures Valid() && View() == old(View())
      ensures r.Success? <==> target in old(tags)
      ensures r.Success? ==> tags == RemoveAt(old(tags), IndexOf(old(tags), target)) && target !in tags
      ensures r.Failure? ==> r.error == TagNotFound && tags == old(tags)
      ensures problems == old(problems) && plans == old(plans) && findRules == old(findRules)
    {
      if target !in tags {
        return Failure(TagNotFound);
      }
      var i := IndexOf(tags, target);
      tags := RemoveAt(tags, i);
      r := Success(());
      forall j | 0 <= j < |tags| ensures tags[j] != target {
        if j >= i {
          assert tags[j] == old(tags)[j + 1];
        }
      }
    }

    /**
     * deleteTags: every problem in the filtered view loses its tag named like target;
     * problems filtered out keep their tags. The inner step runs over a snapshot.
     */
    method DeleteTags(target: Tag)
      requires Valid()
      modifies this
      ensures Valid() && View() == old(View())
      ensures problems == DeleteTagsFromShown(old(problems), problemFilter, target.name)
      ensures tags == old(tags) && plans == old(plans) && findRules == old(findRules)
    {
      ghost var expected := DeleteTagsFromShown(problems, problemFilter, target.name);
      var i := 0;
      while i < |problems|
        invariant 0 <= i <= |problems| == |old(problems)|
        invariant forall j :: 0 <= j < i ==> problems[j] == expected[j]
        invariant forall j :: i <= j < |problems| ==> problems[j] == old(problems)[j]
        invariant tags == old(tags) && plans == old(plans) && findRules == old(findRules)
        invariant View() == old(View())
      {
        var problem := problems[i];
        if problemFilter(problem) {
          var remaining := DeleteTagNamed(problem.tags, target.name);
          problems := problems[i := problem.(tags := remaining)];
        }
        i := i + 1;
      }
      CascadesKeepNamesAndHidden(old(problems), problemFilter, target.name, target);
    }

    /** addTag: append unless a same tag is stored, then show all tags. */
    method AddTag(tag: Tag) returns (r: Result<(), StoreError>)
      requires Valid()
      modifies this
      ensures Valid()
      ensures r.Success? <==> !old(HasTag(tag))
      ensures r.Success? ==> tags == old(tags) + [tag]
      ensures r.Success? ==> View() == old(View()).(tagFilter := PREDICATE_SHOW_ALL_TAGS)
      ensures r.Failure? ==> r.error == DuplicateTag && unchanged(this)
      ensures problems == old(problems) && plans == old(plans) && findRules == old(findRules)
    {
      if HasTag(tag) {
        return Failure(DuplicateTag);
      }
      tags := tags + [tag];
      UpdateFilteredTagList(PREDICATE_SHOW_ALL_TAGS);
      r := Success(());
    }

    /**
     * addTags: addTag for each tag of the set, in the set's iteration order. It stops
     * at the first tag already stored, keeping the tags added before it.
     */
    method AddTags(newTags: set<Tag>) returns (r: Result<(), StoreError>)
      requires Valid()
      modifies this
      ensures Valid()
      ensures r.Success? <==> newTags !! TagSet(old(tags))
      ensures r.Failure? ==> r.error == DuplicateTag
      ensures old(tags) <= tags
      ensures TagSet(tags) <= TagSet(old(tags)) + newTags
      ensures r.Success? ==> TagSet(tags) == TagSet(old(tags)) + newTags
      ensures r.Success? && newTags != {} ==> View() == old(View()).(tagFilter := PREDICATE_SHOW_ALL_TAGS)
      ensures newTags == {} ==> unchanged(this)
      ensures View() == old(View()) || View() == old(View()).(tagFilter := PREDICATE_SHOW_ALL_TAGS)
      ensures problems == old(problems) && plans == old(plans) && findRules == old(findRules)
    {
      var pending := newTags;
      ghost var done: set<Tag> := {};
      ghost var added: seq<Tag> := [];
      while pending != {}
        invariant pending <= newTags && done == newTags - pending
        invariant Valid()
        invariant tags == old(tags) + added
        invariant TagSet(added) == done
        invariant done !! TagSet(old(tags))
        invariant done == {} ==> unchanged(this)
        invariant done != {} ==> View() == old(View()).(tagFilter := PREDICATE_SHOW_ALL_TAGS)
        invariant problems == old(problems) && plans == old(plans) && findRules == old(findRules)
        decreases pending
      {
        var tag :| tag in pending;
        TagSetAppend(old(tags), added);
        StoredTagIsMember(tags, tag);
        r := AddTag(tag);
        if r.Failure? {
          return;
        }
        TagSetAppend(added, [tag]);
        added := added + [tag];
        done := done + {tag};
        pending := pending - {tag};
      }
      r := Success(());
      TagSetAppend(old(tags), added);
    }

    /** setTag: replace target in place, unless it is absent or edited collides with another tag. */
    method SetTag(target: Tag, editedTag: Tag) returns (r: Result<(), StoreError>)
      requires Valid()
      modifies this
      ensures Valid() && View() == old(View())
      ensures r.Success? <==> target in old(tags) && (IsSameTag(target, editedTag) || !old(HasTag(editedTag)))
      ensures r.Success? ==> tags == old(tags)[IndexOf(old(tags), target) := editedTag]
      ensures target !in old(tags) ==> r == Failure(TagNotFound)
      ensures r.Failure? ==> tags == old(tags)
      ensures problems == old(problems) && plans == old(plans) && findRules == old(findRules)
    {
      var i := IndexOf(tags, target);
      if i == |tags| {
        return Failure(TagNotFound);
      }
      if !IsSameTag(target, editedTag) && HasTag(editedTag) {
        return Failure(DuplicateTag);
      }
      tags := tags[i := editedTag];
      r := Success(());
    }

    /**
     * setTags: every problem in the filtered view that holds a tag named like target
     * holds editedTag instead; the others keep their tags. The inner step deletes the
     * old tag before adding the new one and runs over a snapshot.
     */
    method SetTags(target: Tag, editedTag: Tag)
      requires Valid()
      modifies this
      ensures Valid() && View() == old(View())
      ensures problems == RenameTagInShown(old(problems), problemFilter, target.name, editedTag)
      ensures tags == old(tags) && plans == old(plans) && findRules == old(findRules)
    {
      ghost var expected := RenameTagInShown(problems, problemFilter, target.name, editedTag);
      var i := 0;
      while i < |problems|
        invariant 0 <= i <= |problems| == |old(problems)|
        invariant forall j :: 0 <= j < i ==> problems[j] == expected[j]
        invariant forall j :: i <= j < |problems| ==> problems[j] == old(problems)[j]
        invariant tags == old(tags) && plans == old(plans) && findRules == old(findRules)
        invariant View() == old(View())
      {
        var problem := problems[i];
        if problemFilter(problem) {
          var renamed := RenameTagNamed(problem.tags, target.name, editedTag);
          problems := problems[i := problem.(tags := renamed)];
        }
        i := i + 1;
      }
      CascadesKeepNamesAndHidden(old(problems), problemFilter, target.name, editedTag);
    }

    /** getFilteredTagList. */
    function FilteredTags(): seq<Tag>
      reads this
    {
      Filter(tags, tagFilter)
    }

    method UpdateFilteredTagList(pred: Tag -> bool)
      modifies this
      ensures Store() == old(Store()) && View() == old(View()).(tagFilter := pred)
    {
      tagFilter := pred;
    }

    //========== Plan ==========

    /** hasPlan: some stored plan is the same (same name). */
    predicate HasPlan(plan: Plan)
      reads this
    {
      exists i :: 0 <= i < |plans| && IsSamePlan(plans[i], Some(plan))
    }

    method DeletePlan(target: Plan) returns (r: Result<(), StoreError>)
      requires Valid()
      modifies this
      ensures Valid() && View() == old(View())
      ensures r.Success? <==> target in old(plans)
      ensures r.Success? ==> plans == RemoveAt(old(plans), IndexOf(old(plans), target))
      ensures r.Failure? ==> r.error == PlanNotFound && plans == old(plans)
      ensures problems == old(problems) && tags == old(tags) && findRules == old(findRules)
    {
      if target !in plans {
        return Failure(PlanNotFound);
      }
      plans := RemoveAt(plans, IndexOf(plans, target));
      r := Success(());
    }

    /** addPlan: append unless a same plan is stored, then show all plans. */
    method AddPlan(plan: Plan) returns (r: Result<(), StoreError>)
      requires Valid()
      modifies this
      ensures Valid()
      ensures r.Success? <==> !old(HasPlan(plan))
      ensures r.Success? ==> plans == old(plans) + [plan]
      ensures r.Success? ==> View() == old(View()).(planFilter := PREDICATE_SHOW_ALL_PLANS)
      ensures r.Success? ==> FilteredPlans() == plans
      ensures r.Failure? ==> r.error == DuplicatePlan && unchanged(this)
      ensures problems == old(problems) && tags == old(tags) && findRules == old(findRules)
    {
      if HasPlan(plan) {
        return Failure(DuplicatePlan);
      }
      AppendKeepsPlanNamesUnique(plans, plan);
      plans := plans + [plan];
      UpdateFilteredPlanList(PREDICATE_SHOW_ALL_PLANS);
      FilterShowAll(plans, planFilter);
      r := Success(());
    }

    /** setPlan: replace target in place, unless it is absent or edited collides with another plan. */
    method SetPlan(target: Plan, editedPlan: Plan) returns (r: Result<(), StoreError>)
      requires Valid()
      modifies this
      ensures Valid() && View() == old(View())
      ensures r.Success? <==>
        target in old(plans) && (IsSamePlan(target, Some(editedPlan)) || !old(HasPlan(editedPlan)))
      ensures r.Success? ==> plans == old(plans)[IndexOf(old(plans), target) := editedPlan]
      ensures target !in old(plans) ==> r == Failure(PlanNotFound)
      ensures r.Failure? ==> plans == old(plans)
      ensures problems == old(problems) && tags == old(tags) && findRules == old(findRules)
    {
      var i := IndexOf(plans, target);
      if i == |plans| {
        return Failure(PlanNotFound);
      }
      if !IsSamePlan(target, Some(editedPlan)) && HasPlan(editedPlan) {
        return Failure(DuplicatePlan);
      }
      plans := plans[i := editedPlan];
      r := Success(());
    }

    /** getFilteredPlanList. */
    function FilteredPlans(): seq<Plan>
      reads this
    {
      Filter(plans, planFilter)
    }

    method UpdateFilteredPlanList(pred: Plan -> bool)
      modifies this
      ensures Store() == old(Store()) && View() == old(View()).(planFilter := pred)
    {
      planFilter := pred;
    }

    //========== Find rules ==========

    /** getFilteredFindRuleList. */
    function FilteredFindRules(): seq<FindRule>
      reads this
    {
      Filter(findRules, findRuleFilter)
    }

    /** deleteFindRule: remove the rule, which must be stored. */
    method DeleteFindRule(target: FindRule) returns (r: Result<(), StoreError>)
      requires Valid()
      modifies this
      ensures Valid() && View() == old(View())
      ensures r.Success? <==> target in old(findRules)
      ensures r.Success? ==> findRules == RemoveAt(old(findRules), IndexOf(old(findRules), target))
      ensures r.Success? ==> target !in findRules
      ensures r.Failure? ==> r.error == FindRuleNotFound && findRules == old(findRules)
      ensures problems == old(problems) && tags == old(tags) && plans == old(plans)
    {
      if target !in findRules {
        return Failure(FindRuleNotFound);
      }
      var i := IndexOf(findRules, target);
      findRules := RemoveAt(findRules, i);
      r := Success(());
      forall j | 0 <= j < |findRules| ensures findRules[j] != target {
        if j >= i {
          assert findRules[j] == old(findRules)[j + 1];
        }
      }
    }
  }
}
