/**
 * An activity: a unit of work that owns one result and an ordered list of
 * sub-activities. Running the sub-activities performs each one in list order
 * and turns an exception into an UNEXPECTED_SYSTEM_ERROR status plus two
 * messages on that child, without stopping its siblings. The roll-up reports
 * the most severe status among the direct children, or SUCCESS when there
 * are none.
 */
module Activities {
  import opened Options
  import opened ActivityStatuses
  import opened MessageCategories
  import opened ResultMessages
  import opened Results
  import opened RuntimeClasses
  import opened Contexts

  /**
   * How a concrete `performActivity` ended: it returned, or it threw with a
   * message. Either way it may have changed the shared context and its own
   * result before that.
   */
  datatype PerformOutcome =
    | Returned(context: ContextMap, result: ResultValue)
    | Threw(context: ContextMap, result: ResultValue, message: string)

  /** The behaviour of a concrete subclass's `performActivity`. */
  type Performance = (ContextMap, ResultValue) -> PerformOutcome

  const FailurePrefix: string := "An unexpected exception occurred while performing sub-activity "

  /**
   * The result of a child whose `performActivity` threw, once its parent has
   * caught the exception: UNEXPECTED_SYSTEM_ERROR, the earlier messages kept,
   * then a DEFAULT message naming the parent's class and a DEFAULT message
   * carrying the exception's text.
   */
  function Contained(rv: ResultValue, parent: ClassTag, error: string): (r: ResultValue)
    ensures r.status == UnexpectedSystemError
    ensures |r.messages| == |rv.messages| + 2 && r.messages[..|rv.messages|] == rv.messages
    ensures r.messages[|rv.messages|] == ResultMessage(Default, FailurePrefix + parent.SimpleName())
    ensures r.messages[|rv.messages| + 1] == ResultMessage(Default, error)
  {
    ResultValue(UnexpectedSystemError,
      rv.messages + [ResultMessage(Default, FailurePrefix + parent.SimpleName()), ResultMessage(Default, error)])
  }

  /** The shared context and the state of every result involved, keyed by result object. */
  datatype World = World(context: ContextMap, results: map<ActivityResult, ResultValue>)

  function ResultsOf(activities: seq<Activity>): set<ActivityResult>
  {
    set a | a in activities :: a.activityResult
  }

  /** The results of a prefix of a list are among the results of the list. */
  lemma ResultsOfPrefix(activities: seq<Activity>, n: nat)
    requires n <= |activities|
    ensures ResultsOf(activities[..n]) <= ResultsOf(activities)
  {
  }

  /** The results of a concatenation are the results of both parts. */
  lemma ResultsOfAppend(a: seq<Activity>, b: seq<Activity>)
    ensures ResultsOf(a + b) == ResultsOf(a) + ResultsOf(b)
  {
  }

  /** One iteration of `performSubActivities`: perform the child, containing a throw. */
  function StepChild(w: World, parent: ClassTag, child: Activity): (w': World)
    requires child.activityResult in w.results
    ensures w'.results.Keys == w.results.Keys
    ensures forall r :: r in w.results && r != child.activityResult ==> w'.results[r] == w.results[r]
  {
    match child.perform(w.context, w.results[child.activityResult])
    case Returned(context, rv) => World(context, w.results[child.activityResult := rv])
    case Threw(context, rv, error) => World(context, w.results[child.activityResult := Contained(rv, parent, error)])
  }

  /** Snapshot of the shared context and of the given results. */
  ghost function Observe(context: ActivityContext, results: set<ActivityResult>): (w: World)
    reads context, results
    ensures w.results.Keys == results
  {
    World(context.context, map r | r in results :: r.State())
  }

  /** Every child performed once, in list order, each on the state the previous ones left. */
  function RunChildren(w: World, parent: ClassTag, children: seq<Activity>): (w': World)
    requires ResultsOf(children) <= w.results.Keys
    ensures w'.results.Keys == w.results.Keys
  {
    if children == [] then w
    else
      var init := children[..|children| - 1];
      assert ResultsOf(init) <= ResultsOf(children);
      StepChild(RunChildren(w, parent, init), parent, children[|children| - 1])
  }

  /** Running one more child of the list is one more step. */
  lemma RunChildrenSnoc(w: World, parent: ClassTag, children: seq<Activity>, i: nat)
    requires ResultsOf(children) <= w.results.Keys
    requires i < |children|
    ensures ResultsOf(children[..i]) <= w.results.Keys
    ensures ResultsOf(children[..i + 1]) <= w.results.Keys
    ensures children[i].activityResult in w.results
    ensures RunChildren(w, parent, children[..i + 1]) == StepChild(RunChildren(w, parent, children[..i]), parent, children[i])
  {
    ResultsOfPrefix(children, i);
    ResultsOfPrefix(children, i + 1);
    assert children[i].activityResult in ResultsOf(children);
    assert children[..i + 1][..i] == children[..i];
  }

  /** Running a list of children is running its first part and then, from there, the rest. */
  lemma {:induction false} RunChildrenSplits(w: World, parent: ClassTag, a: seq<Activity>, b: seq<Activity>)
    requires ResultsOf(a + b) <= w.results.Keys
    ensures ResultsOf(a) <= w.results.Keys
    ensures RunChildren(w, parent, a + b) == RunChildren(RunChildren(w, parent, a), parent, b)
  {
    assert (a + b)[..|a|] == a;
    ResultsOfPrefix(a + b, |a|);
    if b == [] {
      assert a + b == a;
    } else {
      var b' := b[..|b| - 1];
      assert (a + b)[..|a + b| - 1] == a + b';
      ResultsOfPrefix(a + b, |a + b| - 1);
      RunChildrenSplits(w, parent, a, b');
    }
  }

  /** A result that belongs to none of the children is left as it was. */
  lemma {:induction false} RunChildrenLeavesOthers(w: World, parent: ClassTag, children: seq<Activity>, r: ActivityResult)
    requires ResultsOf(children) <= w.results.Keys
    requires r in w.results && r !in ResultsOf(children)
    ensures RunChildren(w, parent, children).results[r] == w.results[r]
  {
    if children != [] {
      var init := children[..|children| - 1];
      ResultsOfPrefix(children, |children| - 1);
      RunChildrenLeavesOthers(w, parent, init, r);
    }
  }

  /**
   * When the children own distinct results, child i ends with exactly what its
   * own `performActivity` left; if that threw, its status is
   * UNEXPECTED_SYSTEM_ERROR and it gained two DEFAULT messages, the one naming
   * the parent's class and then the exception message.
   */
  lemma ChildFinalResult(w: World, parent: ClassTag, children: seq<Activity>, i: nat)
    requires ResultsOf(children) <= w.results.Keys
    requires i < |children|
    requires forall j, k :: 0 <= j < k < |children| ==> children[j].activityResult != children[k].activityResult
    ensures ResultsOf(children[..i]) <= w.results.Keys
    ensures
      var before := RunChildren(w, parent, children[..i]);
      var child := children[i];
      var o := child.perform(before.context, before.results[child.activityResult]);
      var final := RunChildren(w, parent, children).results[child.activityResult];
      && (o.Returned? ==> final == o.result)
      && (o.Threw? ==>
            && final.status == UnexpectedSystemError
            && final.messages == o.result.messages
                 + [ResultMessage(Default, FailurePrefix + parent.SimpleName()), ResultMessage(Default, o.message)])
  {
    var child := children[i];
    var head, rest := children[..i + 1], children[i + 1..];
    assert children == head + rest;
    RunChildrenSnoc(w, parent, children, i);
    ResultsOfAppend(head, rest);
    RunChildrenSplits(w, parent, head, rest);
    LaterChildrenDiffer(children, i);
    RunChildrenLeavesOthers(RunChildren(w, parent, head), parent, rest, child.activityResult);
  }

  /** With distinct results, no child after position `i` shares the result of child `i`. */
  lemma LaterChildrenDiffer(children: seq<Activity>, i: nat)
    requires i < |children|
    requires forall j, k :: 0 <= j < k < |children| ==> children[j].activityResult != children[k].activityResult
    ensures children[i].activityResult !in ResultsOf(children[i + 1..])
  {
  }

  /** The rank fold of `getOverallSubActivityStatus`, starting from NOT_RUN. */
  function MostSevere(statuses: seq<ActivityStatus>): (r: ActivityStatus)
    ensures statuses == [] ==> r == NotRun
    ensures forall i :: 0 <= i < |statuses| ==> statuses[i].Rank() <= r.Rank()
  {
    if statuses == [] then NotRun
    else MoreSevere(MostSevere(statuses[..|statuses| - 1]), statuses[|statuses| - 1])
  }

  /** SUCCESS without children, otherwise the most severe child status. */
  function RollUp(statuses: seq<ActivityStatus>): (r: ActivityStatus)
    ensures statuses == [] ==> r == Success
    ensures forall i :: 0 <= i < |statuses| ==> statuses[i].Rank() <= r.Rank()
  {
    if |statuses| == 0 then Success else MostSevere(statuses)
  }

  /** The fold picks one of the statuses, and none outranks it. */
  lemma {:induction false} MostSevereIsMaximum(statuses: seq<ActivityStatus>)
    requires statuses != []
    ensures MostSevere(statuses) in statuses
    ensures forall s :: s in statuses ==> s.Rank() <= MostSevere(statuses).Rank()
  {
    var init := statuses[..|statuses| - 1];
    var last := statuses[|statuses| - 1];
    assert statuses == init + [last];
    if init == [] {
      Extremes(last);
    } else {
      MostSevereIsMaximum(init);
    }
  }

  /** The roll-up is SUCCESS for no children, else a child status no other child outranks. */
  lemma RollUpSpec(statuses: seq<ActivityStatus>)
    ensures statuses == [] ==> RollUp(statuses) == Success
    ensures statuses != [] ==> RollUp(statuses) in statuses
    ensures forall s :: s in statuses ==> s.Rank() <= RollUp(statuses).Rank()
  {
    if statuses != [] {
      MostSevereIsMaximum(statuses);
    }
  }

  /** The statuses of the children's results, in list order. */
  function ChildStatuses(children: seq<Activity>): (statuses: seq<ActivityStatus>)
    reads ResultsOf(children)
    ensures |statuses| == |children|
    ensures forall i :: 0 <= i < |children| ==> statuses[i] == children[i].activityResult.status
  {
    if children == [] then []
    else
      var init := children[..|children| - 1];
      assert ResultsOf(init) <= ResultsOf(children);
      ChildStatuses(init) + [children[|children| - 1].activityResult.status]
  }

  /** The roll-up of the children's statuses read back in terms of the children. */
  lemma ChildrenRollUp(children: seq<Activity>)
    ensures children == [] ==> RollUp(ChildStatuses(children)) == Success
    ensures children != [] ==> exists c :: c in children && c.activityResult.status == RollUp(ChildStatuses(children))
    ensures forall c :: c in children ==> c.activityResult.status.Rank() <= RollUp(ChildStatuses(children)).Rank()
  {
    var statuses := ChildStatuses(children);
    RollUpSpec(statuses);
    if children != [] {
      var k :| 0 <= k < |statuses| && statuses[k] == RollUp(statuses);
      assert children[k].activityResult.status == RollUp(statuses);
    }
  }

  class Activity {
    /** The concrete subclass (Java `getClass()`). */
    const kind: ClassTag
    /** The subclass's `performActivity`. */
    const perform: Performance
    const activityResult: ActivityResult
    var subActivities: seq<Activity>

    ghost predicate OwnsResult()
      reads activityResult`owner
    {
      activityResult.owner == this
    }

    /** The activity owns its result, and each child is of another class and owns its own result. */
    ghost predicate Valid()
      reads this, activityResult`owner, ResultsOf(subActivities)`owner
    {
      && OwnsResult()
      && forall c :: c in subActivities ==> c.kind != kind && c.OwnsResult()
    }

    /** A fresh activity has no sub-activities and a fresh NOT_RUN result. */
    constructor (kind: ClassTag, perform: Performance)
      ensures Valid() && fresh(activityResult)
      ensures this.kind == kind && this.perform == perform
      ensures subActivities == [] && activityResult.State() == ResultValue(NotRun, [])
    {
      this.kind := kind;
      this.perform := perform;
      activityResult := new ActivityResult();
      subActivities := [];
      new;
      activityResult.owner := this;
    }

    /**
     * `addSubActivity`: refuses a child of this activity's own class and leaves
     * the list unchanged; otherwise appends it.
     */
    method AddSubActivity(subActivity: Activity) returns (added: bool)
      requires Valid() && subActivity.OwnsResult()
      modifies this`subActivities
      ensures Valid()
      ensures added == (subActivity.kind != kind)
      ensures subActivities == if added then old(subActivities) + [subActivity] else old(subActivities)
    {
      if subActivity.kind == kind {
        return false;
      }
      subActivities := subActivities + [subActivity];
      return true;
    }

    /** This activity's `performActivity` on the shared context. */
    method PerformActivity(context: ActivityContext) returns (thrown: Option<string>)
      modifies context, activityResult`status, activityResult`messages
      ensures var o := perform(old(context.context), old(activityResult.State()));
        && context.context == o.context
        && activityResult.State() == o.result
        && thrown == if o.Threw? then Some(o.message) else None
    {
      var o := perform(context.context, activityResult.State());
      context.context := o.context;
      activityResult.status := o.result.status;
      activityResult.messages := o.result.messages;
      thrown := if o.Threw? then Some(o.message) else None;
    }

    /** No child shares this activity's result, since each child owns its own and differs in class. */
    lemma OwnResultNotShared()
      requires Valid()
      ensures activityResult !in ResultsOf(subActivities)
    {
    }

    /**
     * `performSubActivities`: every child performed once, in list order, any
     * exception contained on that child. The child list and this activity's
     * own result are unchanged.
     */
    method PerformSubActivities(context: ActivityContext)
      requires Valid()
      modifies context, ResultsOf(subActivities)`status, ResultsOf(subActivities)`messages
      ensures Valid()
      ensures Observe(context, ResultsOf(subActivities))
           == RunChildren(old(Observe(context, ResultsOf(subActivities))), kind, subActivities)
      ensures activityResult.State() == old(activityResult.State())
    {
      var children := subActivities;
      ghost var results := ResultsOf(children);
      ghost var start := Observe(context, results);
      OwnResultNotShared();
      var i := 0;
      while i < |children|
        invariant 0 <= i <= |children|
        invariant ResultsOf(children[..i]) <= results
        invariant Observe(context, results) == RunChildren(start, kind, children[..i])
      {
        RunChildrenSnoc(start, kind, children, i);
        PerformSubActivity(children[i], context, results);
        i := i + 1;
      }
      assert children[..i] == children;
    }

    /**
     * One iteration of `performSubActivities`: perform `child`; if it throws,
     * set its status to UNEXPECTED_SYSTEM_ERROR and add the two messages.
     */
    method PerformSubActivity(child: Activity, context: ActivityContext, ghost results: set<ActivityResult>)
      requires child.activityResult in results
      modifies context, child.activityResult`status, child.activityResult`messages
      ensures var o := child.perform(old(context.context), old(child.activityResult.State()));
        && context.context == o.context
        && child.activityResult.State() == if o.Threw? then Contained(o.result, kind, o.message) else o.result
      ensures Observe(context, results) == StepChild(old(Observe(context, results)), kind, child)
    {
      var thrown := child.PerformActivity(context);
      if thrown.Some? {
        child.SetActivityResultStatus(UnexpectedSystemError);
        child.AddActivityResultMessage(FailurePrefix + kind.SimpleName());
        child.AddActivityResultMessage(thrown.value);
      }
      ghost var before := old(Observe(context, results));
      ghost var after := Observe(context, results);
      ghost var expected := StepChild(before, kind, child);
      forall r | r in results ensures after.results[r] == expected.results[r] {
        if r != child.activityResult {
          assert r.State() == old(r.State());
        }
      }
    }

    /**
     * `getOverallSubActivityStatus`: SUCCESS without children; otherwise one of
     * the children's statuses, ranked at least as high as every child's.
     */
    method GetOverallSubActivityStatus() returns (overall: ActivityStatus)
      ensures overall == RollUp(ChildStatuses(subActivities))
      ensures subActivities == [] ==> overall == Success
      ensures subActivities != [] ==> exists c :: c in subActivities && c.activityResult.status == overall
      ensures forall c :: c in subActivities ==> c.activityResult.status.Rank() <= overall.Rank()
    {
      ChildrenRollUp(subActivities);
      if |subActivities| == 0 {
        return Success;
      }
      ghost var statuses := ChildStatuses(subActivities);
      overall := NotRun;
      for i := 0 to |subActivities|
        invariant overall == MostSevere(statuses[..i])
      {
        assert statuses[..i + 1][..i] == statuses[..i];
        var status := subActivities[i].activityResult.status;
        assert status == statuses[i];
        if status.Rank() > overall.Rank() {
          overall := status;
        }
      }
      assert statuses[..|subActivities|] == statuses;
    }

    /** Forwards `addMessage(message)` to the owned result. */
    method AddActivityResultMessage(message: string)
      modifies activityResult`messages
      ensures activityResult.State() == old(activityResult.State()).(messages := old(activityResult.messages) + [ResultMessage(Default, message)])
    {
      activityResult.AddMessage(message);
    }

    /** Forwards `addMessage(category, message)` to the owned result. */
    method AddActivityResultMessageOf(category: Category, message: string)
      modifies activityResult`messages
      ensures activityResult.State() == old(activityResult.State()).(messages := old(activityResult.messages) + [ResultMessage(category, message)])
    {
      activityResult.AddMessageOf(category, message);
    }

    /** Forwards `addMessage(message, atIndex)` to the owned result. */
    method AddActivityResultMessageAt(message: string, atIndex: int) returns (outcome: InsertOutcome)
      modifies activityResult`messages
      ensures outcome == if 0 <= atIndex <= |old(activityResult.messages)| then Inserted else IndexOutOfBounds(atIndex, |old(activityResult.messages)|)
      ensures outcome.Inserted? ==> activityResult.State() == old(activityResult.State()).(messages :=
        old(activityResult.messages)[..atIndex] + [ResultMessage(Default, message)] + old(activityResult.messages)[atIndex..])
      ensures outcome.IndexOutOfBounds? ==> activityResult.State() == old(activityResult.State())
    {
      outcome := activityResult.AddMessageAt(message, atIndex);
    }

    /** Forwards `addMessage(category, message, atIndex)` to the owned result. */
    method AddActivityResultMessageOfAt(category: Category, message: string, atIndex: int) returns (outcome: InsertOutcome)
      modifies activityResult`messages
      ensures outcome == if 0 <= atIndex <= |old(activityResult.messages)| then Inserted else IndexOutOfBounds(atIndex, |old(activityResult.messages)|)
      ensures outcome.Inserted? ==> activityResult.State() == old(activityResult.State()).(messages :=
        old(activityResult.messages)[..atIndex] + [ResultMessage(category, message)] + old(activityResult.messages)[atIndex..])
      ensures outcome.IndexOutOfBounds? ==> activityResult.State() == old(activityResult.State())
    {
      outcome := activityResult.AddMessageOfAt(category, message, atIndex);
    }

    /** Forwards `setStatus(status)` to the owned result. */
    method SetActivityResultStatus(status: ActivityStatus)
      modifies activityResult`status
      ensures activityResult.State() == old(activityResult.State()).(status := status)
    {
      activityResult.SetStatus(status);
    }

    /** Forwards `addMessages(messages)` to the owned result. */
    method AddActivityResultMessages(messages: seq<string>)
      modifies activityResult`messages
      ensures activityResult.State() == old(activityResult.State()).(messages := old(activityResult.messages) + Tagged(Default, messages))
    {
      activityResult.AddMessages(messages);
    }

    /** Forwards `addMessages(category, messages)` to the owned result. */
    method AddActivityResultMessagesOf(category: Category, messages: seq<string>)
      modifies activityResult`messages
      ensures activityResult.State() == old(activityResult.State()).(messages := old(activityResult.messages) + Tagged(category, messages))
    {
      activityResult.AddMessagesOf(category, messages);
    }
  }
}
