/** The placement search: candidates are planned to in order until one plans,
    the resulting plan is executed once, and the held object is released. */
module PlaceSearch {
  import opened Messages
  import opened Gripper

  /** Index of the first planning attempt that did not simply fail (it planned
      or it raised), or the number of attempts when every one failed. */
  function PlanStop(outcomes: seq<CallOutcome>): (k: nat)
    ensures k <= |outcomes|
    ensures forall j :: 0 <= j < k ==> outcomes[j] == Returned(false)
    ensures k < |outcomes| ==> outcomes[k] != Returned(false)
  {
    if |outcomes| == 0 || outcomes[0] != Returned(false) then 0
    else 1 + PlanStop(outcomes[1..])
  }

  /** How many candidates the search sets as planning target. */
  function Tried(outcomes: seq<CallOutcome>): nat
  {
    var k := PlanStop(outcomes);
    if k < |outcomes| then k + 1 else k
  }

  /** The search ended because planning raised an exception. */
  predicate PlanningRaised(outcomes: seq<CallOutcome>)
  {
    PlanStop(outcomes) < |outcomes| && outcomes[PlanStop(outcomes)] == Raised
  }

  /** The candidate whose plan is executed, or None when no candidate planned
      and the plan buffer holds no successful plan. */
  function PlannedTarget(poses: seq<PoseStamped>, outcomes: seq<CallOutcome>): Option<PoseStamped>
    requires |poses| == |outcomes|
  {
    var k := PlanStop(outcomes);
    if k < |outcomes| then Some(poses[k]) else None
  }

  /** One planning request per candidate, for the first `n` candidates. */
  function PlanAttempts(poses: seq<PoseStamped>, n: nat): seq<Event>
    requires n <= |poses|
  {
    if n == 0 then [] else PlanAttempts(poses, n - 1) + [PlanTo(poses[n - 1])]
  }

  /** What the placement returns: the executor's outcome, unless planning
      raised first. */
  function PlaceOutcome(outcomes: seq<CallOutcome>, executeOutcome: CallOutcome): CallOutcome
  {
    if PlanningRaised(outcomes) then Raised else executeOutcome
  }

  /** What follows the planning requests: the execution of whatever the plan
      buffer holds, then detaching the object, opening the gripper and
      releasing the frozen scene objects. An exception ends the sequence
      where it is raised. */
  function AfterSearch(objectName: string, poses: seq<PoseStamped>, outcomes: seq<CallOutcome>, executeOutcome: CallOutcome): seq<Event>
    requires |poses| == |outcomes|
  {
    if PlanningRaised(outcomes) then []
    else
      [Execute(PlannedTarget(poses, outcomes))]
      + if executeOutcome == Raised then []
        else [Detach(objectName)] + GripperCommands(OPEN_POSITION) + [ClearFrozenObjects]
  }

  /** The side effects of one placement attempt, in order: the specification
      the controller's place step is proved to meet. */
  function PlaceLog(objectName: string, poses: seq<PoseStamped>, outcomes: seq<CallOutcome>, executeOutcome: CallOutcome): seq<Event>
    requires |poses| == |outcomes|
  {
    PlanAttempts(poses, Tried(outcomes)) + AfterSearch(objectName, poses, outcomes, executeOutcome)
  }

  /** The planning targets of a log, in order. */
  function PlanTargets(log: seq<Event>): seq<PoseStamped>
  {
    if |log| == 0 then []
    else PlanTargets(log[..|log| - 1]) + (if log[|log| - 1].PlanTo? then [log[|log| - 1].goal] else [])
  }

  /** How many executions a log holds. */
  function ExecuteCount(log: seq<Event>): nat
  {
    if |log| == 0 then 0
    else ExecuteCount(log[..|log| - 1]) + (if log[|log| - 1].Execute? then 1 else 0)
  }

  lemma {:induction false} LogSplit(a: seq<Event>, b: seq<Event>)
    ensures PlanTargets(a + b) == PlanTargets(a) + PlanTargets(b)
    ensures ExecuteCount(a + b) == ExecuteCount(a) + ExecuteCount(b)
    decreases |b|
  {
    if |b| > 0 {
      var n := |b| - 1;
      assert (a + b)[..|a + b| - 1] == a + b[..n];
      LogSplit(a, b[..n]);
    } else {
      assert a + b == a;
    }
  }

  lemma {:induction false} PlanAttemptsTargets(poses: seq<PoseStamped>, n: nat)
    requires n <= |poses|
    ensures PlanTargets(PlanAttempts(poses, n)) == poses[..n]
    ensures ExecuteCount(PlanAttempts(poses, n)) == 0
  {
    if n > 0 {
      PlanAttemptsTargets(poses, n - 1);
      LogSplit(PlanAttempts(poses, n - 1), [PlanTo(poses[n - 1])]);
      assert poses[..n] == poses[..n - 1] + [poses[n - 1]];
    }
  }

  lemma {:induction false} NoPlanTargets(log: seq<Event>)
    requires forall i :: 0 <= i < |log| ==> !log[i].PlanTo?
    ensures PlanTargets(log) == []
  {
    if |log| > 0 {
      NoPlanTargets(log[..|log| - 1]);
    }
  }

  lemma {:induction false} NoExecutes(log: seq<Event>)
    requires forall i :: 0 <= i < |log| ==> !log[i].Execute?
    ensures ExecuteCount(log) == 0
  {
    if |log| > 0 {
      NoExecutes(log[..|log| - 1]);
    }
  }

  /** What follows the search sets no planning target, and executes the plan
      buffer once unless planning raised. */
  lemma AfterSearchShape(objectName: string, poses: seq<PoseStamped>, outcomes: seq<CallOutcome>, executeOutcome: CallOutcome)
    requires |poses| == |outcomes|
    ensures PlanTargets(AfterSearch(objectName, poses, outcomes, executeOutcome)) == []
    ensures ExecuteCount(AfterSearch(objectName, poses, outcomes, executeOutcome)) == if PlanningRaised(outcomes) then 0 else 1
  {
    var tail := AfterSearch(objectName, poses, outcomes, executeOutcome);
    NoPlanTargets(tail);
    if !PlanningRaised(outcomes) {
      var exec := [Execute(PlannedTarget(poses, outcomes))];
      var rest := tail[1..];
      assert tail == exec + rest;
      NoExecutes(rest);
      LogSplit(exec, rest);
    }
  }

  /** The last candidate the search tries is the first that did not simply
      fail to plan, unless every candidate failed. */
  lemma LastTriedDidNotFail(outcomes: seq<CallOutcome>)
    ensures Tried(outcomes) == |outcomes| || outcomes[Tried(outcomes) - 1] != Returned(false)
  {
    var k := PlanStop(outcomes);
    if k < |outcomes| {
      assert Tried(outcomes) - 1 == k;
    }
  }

  /** The search plans to the candidates strictly in index order and stops at
      the first one that plans (or raises): exactly the first `Tried`
      candidates are set as target, and no later one. */
  lemma PlaceTriesInOrder(objectName: string, poses: seq<PoseStamped>, outcomes: seq<CallOutcome>, executeOutcome: CallOutcome)
    requires |poses| == |outcomes|
    ensures PlanTargets(PlaceLog(objectName, poses, outcomes, executeOutcome)) == poses[..Tried(outcomes)]
    ensures Tried(outcomes) == |outcomes| || outcomes[Tried(outcomes) - 1] != Returned(false)
  {
    var attempts := PlanAttempts(poses, Tried(outcomes));
    var tail := AfterSearch(objectName, poses, outcomes, executeOutcome);
    PlanAttemptsTargets(poses, Tried(outcomes));
    AfterSearchShape(objectName, poses, outcomes, executeOutcome);
    LogSplit(attempts, tail);
    assert PlanTargets(attempts + tail) == poses[..Tried(outcomes)] + [];
    LastTriedDidNotFail(outcomes);
  }

  /** The plan buffer is executed exactly once after the search, whether or
      not a candidate planned, unless planning raised; when no candidate
      planned, what is executed is not a plan to any candidate. */
  lemma PlaceExecutesOnce(objectName: string, poses: seq<PoseStamped>, outcomes: seq<CallOutcome>, executeOutcome: CallOutcome)
    requires |poses| == |outcomes|
    ensures ExecuteCount(PlaceLog(objectName, poses, outcomes, executeOutcome)) == if PlanningRaised(outcomes) then 0 else 1
    ensures !PlanningRaised(outcomes) ==> Execute(PlannedTarget(poses, outcomes)) in PlaceLog(objectName, poses, outcomes, executeOutcome)
    ensures PlanStop(outcomes) == |outcomes| ==> PlannedTarget(poses, outcomes) == None
  {
    var attempts := PlanAttempts(poses, Tried(outcomes));
    var tail := AfterSearch(objectName, poses, outcomes, executeOutcome);
    PlanAttemptsTargets(poses, Tried(outcomes));
    AfterSearchShape(objectName, poses, outcomes, executeOutcome);
    LogSplit(attempts, tail);
    if !PlanningRaised(outcomes) {
      assert (attempts + tail)[|attempts|] == Execute(PlannedTarget(poses, outcomes));
    }
  }

  /** Whatever the planning and execution results, a placement that raised
      nothing ends by detaching the object, opening the gripper and releasing
      the frozen scene objects. */
  lemma PlaceCleansUpWhateverTheResult(objectName: string, poses: seq<PoseStamped>, outcomes: seq<CallOutcome>, executeOutcome: CallOutcome)
    requires |poses| == |outcomes|
    requires PlaceOutcome(outcomes, executeOutcome) != Raised
    ensures var log := PlaceLog(objectName, poses, outcomes, executeOutcome);
      |log| >= GRIPPER_MSG_RESEND + 2 &&
      log[|log| - GRIPPER_MSG_RESEND - 2..] == [Detach(objectName)] + GripperCommands(OPEN_POSITION) + [ClearFrozenObjects]
  {
  }

  /** When candidates before `k` fail to plan and candidate `k` plans, exactly
      candidates 0..k are tried and candidate `k`'s plan is the one executed. */
  lemma FirstPlannedCandidateIsExecuted(objectName: string, poses: seq<PoseStamped>, outcomes: seq<CallOutcome>, executeOutcome: CallOutcome, k: nat)
    requires |poses| == |outcomes|
    requires k < |outcomes| && outcomes[k] == Returned(true)
    requires forall j :: 0 <= j < k ==> outcomes[j] == Returned(false)
    ensures PlanTargets(PlaceLog(objectName, poses, outcomes, executeOutcome)) == poses[..k + 1]
    ensures Execute(Some(poses[k])) in PlaceLog(objectName, poses, outcomes, executeOutcome)
    ensures ExecuteCount(PlaceLog(objectName, poses, outcomes, executeOutcome)) == 1
  {
    assert PlanStop(outcomes) == k;
    PlaceTriesInOrder(objectName, poses, outcomes, executeOutcome);
    PlaceExecutesOnce(objectName, poses, outcomes, executeOutcome);
  }
}
