/** The pick-and-place controller of the left Baxter arm: it tracks perceived
    objects, joint angles and gripper openness from feedback callbacks, runs
    one pick-and-place cycle at a time, and returns the arm to its neutral
    configuration between cycles. */
module PickPlace {
  import opened Messages
  import opened MapUpdates
  import opened Regions
  import opened Neutral
  import opened Candidates
  import opened Gripper
  import opened PlaceSearch

  /** A move to neutral is abandoned once strictly more than 60 s (in
      nanoseconds) have passed since it was started. */
  const WAIT_FOR_NEUTRAL_TIMEOUT: int := 60_000_000_000

  /** The named planning target of the neutral configuration. */
  const NEUTRAL_TARGET: string := "left_neutral"

  /** The region every picked object is placed in. */
  const PLACE_REGION: string := "sink"

  /** What a poll of a pending move to neutral finds. */
  datatype PollOutcome = NotMoving | TimedOut | ReachedNeutral | StillMoving

  function Poll(moving: bool, start: int, lookup: map<string, real>, now: int): PollOutcome
  {
    if !moving then NotMoving
    else if now - start > WAIT_FOR_NEUTRAL_TIMEOUT then TimedOut
    else if InNeutral(lookup) then ReachedNeutral
    else StillMoving
  }

  /** The commands that start a move to neutral: the named target, an opened
      gripper, every attached object detached, and an asynchronous move. */
  function NeutralEvents(): seq<Event>
  {
    [SetNamedTarget(NEUTRAL_TARGET)] + GripperCommands(OPEN_POSITION) + [DetachAll, AsyncMove]
  }

  function ObjectKeys(batch: seq<RecognizedObject>): seq<string>
  {
    seq(|batch|, i requires 0 <= i < |batch| => batch[i].key)
  }

  function ObjectPosesOf(batch: seq<RecognizedObject>): seq<PoseStamped>
  {
    seq(|batch|, i requires 0 <= i < |batch| => PoseStampedFromCovariance(batch[i].pose))
  }

  /** A batch entry that no later entry shares its key with is the last
      occurrence of that key among the batch's keys. */
  lemma LastInBatch(batch: seq<RecognizedObject>, i: int)
    requires 0 <= i < |batch|
    requires forall j :: i < j < |batch| ==> batch[j].key != batch[i].key
    ensures LastOccurrence(ObjectKeys(batch), i)
  {
    var keys := ObjectKeys(batch);
    forall j | i < j < |keys|
      ensures keys[j] != keys[i]
    {
      assert keys[j] == batch[j].key;
    }
  }

  /** The object snapshot a perception batch leaves behind: exactly the names
      in the batch, each with the pose of its last occurrence. Nothing from an
      earlier batch survives. */
  function Snapshot(batch: seq<RecognizedObject>): (snapshot: map<string, PoseStamped>)
    ensures forall i :: 0 <= i < |batch| ==> batch[i].key in snapshot
    ensures forall name :: name in snapshot ==> exists i :: 0 <= i < |batch| && batch[i].key == name
    ensures forall i :: 0 <= i < |batch| && (forall j :: i < j < |batch| ==> batch[j].key != batch[i].key) ==>
      snapshot[batch[i].key] == PoseStampedFromCovariance(batch[i].pose)
  {
    var keys := ObjectKeys(batch);
    var poses := ObjectPosesOf(batch);
    var r := Overwrite(map[], keys, poses);
    assert forall i :: 0 <= i < |batch| ==> batch[i].key in r by {
      forall i | 0 <= i < |batch|
        ensures batch[i].key in r
      {
        assert keys[i] == batch[i].key;
      }
    }
    assert forall name :: name in r ==> exists i :: 0 <= i < |batch| && batch[i].key == name by {
      forall name | name in r
        ensures exists i :: 0 <= i < |batch| && batch[i].key == name
      {
        assert name in keys;
        var i :| 0 <= i < |keys| && keys[i] == name;
        assert batch[i].key == name;
      }
    }
    assert forall i :: 0 <= i < |batch| && (forall j :: i < j < |batch| ==> batch[j].key != batch[i].key) ==>
      r[batch[i].key] == PoseStampedFromCovariance(batch[i].pose) by {
      forall i | 0 <= i < |batch| && (forall j :: i < j < |batch| ==> batch[j].key != batch[i].key)
        ensures r[batch[i].key] == PoseStampedFromCovariance(batch[i].pose)
      {
        LastInBatch(batch, i);
        assert keys[i] == batch[i].key && poses[i] == PoseStampedFromCovariance(batch[i].pose);
      }
    }
    r
  }

  /** The side effects of the pick step: detach everything, query the grasp
      service, and, when it answered, hand the world-frame grasps to the
      planner's pick. */
  function PickLog(objectName: string, objectPose: PoseStamped, graspReply: Option<seq<Grasp>>, commonTime: int, frames: Frames): seq<Event>
  {
    [DetachAll, QueryGrasps(objectName)]
    + match graspReply
      case None => []
      case Some(grasps) => [PickObject(objectName, GraspsAtPose(objectPose, grasps, commonTime, frames))]
  }

  /** In a flag trace that, from position `n` on, holds picking with placing
      `wasPlacing`, then picking with placing `picked`, then only states that
      are not picking, both flags are set together somewhere exactly when
      `wasPlacing` or `picked` holds. */
  lemma {:induction false} OverlapExactlyWhenHeld(h: seq<(bool, bool)>, n: nat, wasPlacing: bool, picked: bool)
    requires |h| >= n + 2
    requires h[n] == (true, wasPlacing) && h[n + 1] == (true, picked)
    requires forall k :: n + 2 <= k < |h| ==> !h[k].0
    ensures (exists k :: n <= k < |h| && h[k] == (true, true)) <==> wasPlacing || picked
  {
    if wasPlacing {
      assert h[n] == (true, true);
    } else if picked {
      assert h[n + 1] == (true, true);
    } else {
      forall k | n <= k < |h|
        ensures h[k] != (true, true)
      {
        if k >= n + 2 {
          assert !h[k].0;
        }
      }
    }
  }

  class MarkerPickPlace {
    var objectPoses: map<string, PoseStamped>
    var jointLookup: map<string, real>
    var currentPickObject: string
    var isPicking: bool
    var isPlacing: bool
    var isGripperOpen: bool
    var moveToNeutralStart: int
    var isMovingToNeutral: bool
    /** Every command issued to the robot, the planner and the scene, in order. */
    var events: seq<Event>
    /** The pair (isPicking, isPlacing) after every single assignment to one
        of the two flags: the states another thread can observe. */
    ghost var flagHistory: seq<(bool, bool)>

    /** A cycle holds the arm: the controller is idle only when both flags
        are clear. */
    predicate IsPickingOrPlacing(): (busy: bool)
      reads this
      ensures !busy <==> !isPicking && !isPlacing
    {
      isPicking || isPlacing
    }

    /** Starts idle, and requests neutral; with no joint feedback yet the arm
        counts as neutral, so that request never issues a move. */
    constructor (now: int)
      ensures objectPoses == map[] && jointLookup == map[] && currentPickObject == ""
      ensures !isPicking && !isPlacing && !isGripperOpen && !isMovingToNeutral
      ensures events == [] && flagHistory == []
    {
      objectPoses := map[];
      jointLookup := map[];
      currentPickObject := "";
      isPicking := false;
      isPlacing := false;
      isGripperOpen := false;
      isMovingToNeutral := false;
      moveToNeutralStart := 0;
      events := [];
      flagHistory := [];
      new;
      EmptyLookupCountsAsNeutral();
      MoveToNeutral(now);
    }

    method SetPicking(picking: bool)
      modifies this`isPicking, this`flagHistory
      ensures isPicking == picking
      ensures flagHistory == old(flagHistory) + [(picking, isPlacing)]
    {
      isPicking := picking;
      flagHistory := flagHistory + [(isPicking, isPlacing)];
    }

    method SetPlacing(placing: bool)
      modifies this`isPlacing, this`flagHistory
      ensures isPlacing == placing
      ensures flagHistory == old(flagHistory) + [(isPicking, placing)]
    {
      isPlacing := placing;
      flagHistory := flagHistory + [(isPicking, isPlacing)];
    }

    /** Sends the open command, GRIPPER_MSG_RESEND times. */
    method OpenGripper()
      modifies this`events
      ensures events == old(events) + GripperCommands(OPEN_POSITION)
    {
      for i := 0 to GRIPPER_MSG_RESEND
        invariant events == old(events) + seq(i, _ => GripperCommand(GRIPPER_COMMAND_ID, OPEN_POSITION))
      {
        events := events + [GripperCommand(GRIPPER_COMMAND_ID, OPEN_POSITION)];
      }
    }

    /** Sends the close command, GRIPPER_MSG_RESEND times. */
    method CloseGripper()
      modifies this`events
      ensures events == old(events) + GripperCommands(CLOSED_POSITION)
    {
      for i := 0 to GRIPPER_MSG_RESEND
        invariant events == old(events) + seq(i, _ => GripperCommand(GRIPPER_COMMAND_ID, CLOSED_POSITION))
      {
        events := events + [GripperCommand(GRIPPER_COMMAND_ID, CLOSED_POSITION)];
      }
    }

    /** Walks the reference table and answers false at the first reported
        joint that is out of tolerance. */
    method IsInNeutral() returns (neutral: bool)
      ensures neutral == InNeutral(jointLookup)
      ensures !neutral <==> exists k :: 0 <= k < |NEUTRAL_JOINTS| && OffReference(jointLookup, NEUTRAL_JOINTS[k])
    {
      // Whether every reference joint has been reported; computed, never consulted.
      var allKnown := true;
      var k := 0;
      while k < |NEUTRAL_JOINTS|
        invariant 0 <= k <= |NEUTRAL_JOINTS|
        invariant forall j :: 0 <= j < k ==> !OffReference(jointLookup, NEUTRAL_JOINTS[j])
      {
        var (name, reference) := NEUTRAL_JOINTS[k];
        allKnown := allKnown && name in jointLookup;
        if name in jointLookup {
          if Abs(jointLookup[name] - reference) > JOINT_POSITION_TOLERANCE {
            return false;
          }
        }
        k := k + 1;
      }
      return true;
    }

    /** Starts a move to neutral unless a pick or place is running or the arm
        already counts as neutral, in which case nothing changes. */
    method MoveToNeutral(now: int)
      modifies this`isMovingToNeutral, this`moveToNeutralStart, this`events
      ensures var start := !old(IsPickingOrPlacing()) && !InNeutral(jointLookup);
        && isMovingToNeutral == (old(isMovingToNeutral) || start)
        && moveToNeutralStart == (if start then now else old(moveToNeutralStart))
        && events == old(events) + (if start then NeutralEvents() else [])
    {
      if IsPickingOrPlacing() {
        return;
      }
      var neutral := IsInNeutral();
      if neutral {
        return;
      }
      isMovingToNeutral := true;
      moveToNeutralStart := now;
      events := events + [SetNamedTarget(NEUTRAL_TARGET)];
      OpenGripper();
      events := events + [DetachAll, AsyncMove];
    }

    /** Polls a pending move to neutral: done when none is pending, when it
        timed out (the motion is then stopped) or when the arm counts as
        neutral; otherwise still pending. */
    method CheckMoveToNeutral(now: int) returns (done: bool)
      modifies this`isMovingToNeutral, this`events
      ensures !old(isMovingToNeutral) ==> done && !isMovingToNeutral && events == old(events)
      ensures old(isMovingToNeutral) && now - moveToNeutralStart > WAIT_FOR_NEUTRAL_TIMEOUT ==>
        done && !isMovingToNeutral && events == old(events) + [Stop]
      ensures old(isMovingToNeutral) && now - moveToNeutralStart <= WAIT_FOR_NEUTRAL_TIMEOUT && InNeutral(jointLookup) ==>
        done && !isMovingToNeutral && events == old(events)
      ensures old(isMovingToNeutral) && now - moveToNeutralStart <= WAIT_FOR_NEUTRAL_TIMEOUT && !InNeutral(jointLookup) ==>
        !done && isMovingToNeutral && events == old(events)
    {
      if !isMovingToNeutral {
        return true;
      }
      if now - moveToNeutralStart > WAIT_FOR_NEUTRAL_TIMEOUT {
        events := events + [Stop];
        isMovingToNeutral := false;
        return true;
      } else {
        var neutral := IsInNeutral();
        if neutral {
          isMovingToNeutral := false;
          return true;
        }
      }
      return false;
    }

    /** Gripper feedback: open exactly when the position exceeds the threshold. */
    method GripperCB(position: real)
      modifies this`isGripperOpen
      ensures isGripperOpen == (position > GRIPPER_OPEN_THRESHOLD)
    {
      isGripperOpen := position > GRIPPER_OPEN_THRESHOLD;
    }

    /** Joint feedback: merges the reported angles into the persistent lookup
        (a name reported twice keeps its last angle, an unreported joint keeps
        its previous one), then polls the pending move to neutral. */
    method JointsCB(names: seq<string>, positions: seq<real>, now: int)
      requires |names| <= |positions|
      modifies this`jointLookup, this`isMovingToNeutral, this`events
      ensures jointLookup == Overwrite(old(jointLookup), names, positions[..|names|])
      ensures var polled := Poll(old(isMovingToNeutral), moveToNeutralStart, jointLookup, now);
        && isMovingToNeutral == (polled == StillMoving)
        && events == old(events) + (if polled == TimedOut then [Stop] else [])
    {
      var i := 0;
      while i < |names|
        invariant 0 <= i <= |names|
        invariant jointLookup == Overwrite(old(jointLookup), names[..i], positions[..i])
        modifies this`jointLookup
      {
        assert names[..i + 1][..i] == names[..i];
        assert positions[..i + 1][..i] == positions[..i];
        jointLookup := jointLookup[names[i] := positions[i]];
        i := i + 1;
      }
      assert names[..|names|] == names;
      var done := CheckMoveToNeutral(now);
    }

    /** Hands the current pick object to a new worker. The pose is read with
        the map's inserting lookup, so a name missing from the snapshot gets a
        default pose entry. */
    method ExecuteAction() returns (task: PickTask)
      modifies this`objectPoses, this`events
      ensures objectPoses == if currentPickObject in old(objectPoses) then old(objectPoses)
                             else old(objectPoses)[currentPickObject := DEFAULT_POSE_STAMPED]
      ensures task == PickTask(currentPickObject, objectPoses[currentPickObject], GetRegion(PLACE_REGION), GetRegionOrientation(PLACE_REGION))
      ensures events == old(events) + [StartWorker(task)]
    {
      var objectName := currentPickObject;
      var point := GetRegion(PLACE_REGION);
      var orientation := GetRegionOrientation(PLACE_REGION);
      if objectName !in objectPoses {
        objectPoses := objectPoses[objectName := DEFAULT_POSE_STAMPED];
      }
      var pose := objectPoses[objectName];
      task := PickTask(objectName, pose, point, orientation);
      events := events + [StartWorker(task)];
    }

    /** Clears the object snapshot and refills it from the batch, in order. */
    method ReplaceObjectPoses(batch: seq<RecognizedObject>)
      modifies this`objectPoses
      ensures objectPoses == Snapshot(batch)
    {
      objectPoses := map[];
      var i := 0;
      while i < |batch|
        invariant 0 <= i <= |batch|
        invariant objectPoses == Overwrite(map[], ObjectKeys(batch[..i]), ObjectPosesOf(batch[..i]))
        modifies this`objectPoses
      {
        assert ObjectKeys(batch[..i + 1])[..i] == ObjectKeys(batch[..i]);
        assert ObjectPosesOf(batch[..i + 1])[..i] == ObjectPosesOf(batch[..i]);
        objectPoses := objectPoses[batch[i].key := PoseStampedFromCovariance(batch[i].pose)];
        i := i + 1;
      }
      assert batch[..|batch|] == batch;
    }

    /** What perception feedback does once the snapshot holds every object of
        the batch: nothing while a move to neutral is pending; otherwise
        request neutral for an empty batch, or start a worker on the randomly
        indexed object when no worker is running. */
    method ReactToBatch(batch: seq<RecognizedObject>, now: int, workerBusy: bool, randValue: nat) returns (task: Option<PickTask>)
      requires forall i :: 0 <= i < |batch| ==> batch[i].key in objectPoses
      modifies this`objectPoses, this`currentPickObject, this`isMovingToNeutral, this`moveToNeutralStart, this`events
      ensures objectPoses == old(objectPoses)
      ensures var requestNeutral := !old(isMovingToNeutral) && |batch| == 0 && !IsPickingOrPlacing() && !InNeutral(jointLookup);
              var start := !old(isMovingToNeutral) && |batch| > 0 && !workerBusy;
        && (task.Some? <==> start)
        && isMovingToNeutral == (old(isMovingToNeutral) || requestNeutral)
        && moveToNeutralStart == (if requestNeutral then now else old(moveToNeutralStart))
        && currentPickObject == (if start then batch[randValue % |batch|].key else old(currentPickObject))
        && events == old(events)
                     + (if requestNeutral then NeutralEvents() else [])
                     + (if start then [StartWorker(task.value)] else [])
      ensures task.Some? ==>
        && currentPickObject in objectPoses
        && task.value == PickTask(currentPickObject, objectPoses[currentPickObject], GetRegion(PLACE_REGION), GetRegionOrientation(PLACE_REGION))
    {
      if isMovingToNeutral {
        return None;
      }
      if |batch| == 0 {
        MoveToNeutral(now);
        return None;
      }
      if !workerBusy {
        var randIndex := randValue % |batch|;
        var objectName := batch[randIndex].key;
        currentPickObject := objectName;
        var started := ExecuteAction();
        return Some(started);
      }
      return None;
    }

    /** Perception feedback: replaces the object snapshot with the batch and
        forwards the batch to the scene, then reacts to it. `workerBusy` is the
        outcome of probing the previous worker; `randValue` stands for the C
        library's random number. */
    method MarkersCB(batch: seq<RecognizedObject>, now: int, workerBusy: bool, randValue: nat) returns (task: Option<PickTask>)
      modifies this`objectPoses, this`currentPickObject, this`isMovingToNeutral, this`moveToNeutralStart, this`events
      ensures objectPoses == Snapshot(batch)
      ensures var requestNeutral := !old(isMovingToNeutral) && |batch| == 0 && !IsPickingOrPlacing() && !InNeutral(jointLookup);
              var start := !old(isMovingToNeutral) && |batch| > 0 && !workerBusy;
        && (task.Some? <==> start)
        && isMovingToNeutral == (old(isMovingToNeutral) || requestNeutral)
        && moveToNeutralStart == (if requestNeutral then now else old(moveToNeutralStart))
        && currentPickObject == (if start then batch[randValue % |batch|].key else old(currentPickObject))
        && events == old(events) + [UpdateObjects(batch)]
                     + (if requestNeutral then NeutralEvents() else [])
                     + (if start then [StartWorker(task.value)] else [])
      ensures task.Some? ==>
        && currentPickObject in objectPoses
        && task.value == PickTask(currentPickObject, objectPoses[currentPickObject], GetRegion(PLACE_REGION), GetRegionOrientation(PLACE_REGION))
    {
      ReplaceObjectPoses(batch);
      events := events + [UpdateObjects(batch)];
      task := ReactToBatch(batch, now, workerBusy, randValue);
    }

    /** The pick step, run while `isPicking` is set: detach everything, ask
        the grasp service, and pick with the world-frame grasps. The neutral
        request on a failed grasp query never moves the arm, since a pick is
        running. */
    method Pick(objectName: string, objectPose: PoseStamped, graspReply: Option<seq<Grasp>>, commonTime: int, frames: Frames, pickOutcome: bool, now: int)
      returns (success: bool)
      requires isPicking
      modifies this`isMovingToNeutral, this`moveToNeutralStart, this`events
      ensures success == (graspReply.Some? && pickOutcome)
      ensures isMovingToNeutral == old(isMovingToNeutral) && moveToNeutralStart == old(moveToNeutralStart)
      ensures events == old(events) + PickLog(objectName, objectPose, graspReply, commonTime, frames)
    {
      events := events + [DetachAll, QueryGrasps(objectName)];
      if graspReply.None? {
        MoveToNeutral(now);
        return false;
      }
      var grasps := SetGraspsAtPose(objectPose, graspReply.value, commonTime, frames);
      events := events + [PickObject(objectName, grasps)];
      success := pickOutcome;
    }

    /** The candidate search of the place step: sets each candidate as
        planning target in order and stops at the first that plans, or at an
        exception from the planner. Answers whether planning raised and which
        candidate's plan the buffer holds. */
    method SearchCandidates(placePoses: seq<PoseStamped>, planOutcomes: seq<CallOutcome>)
      returns (raised: bool, plannedTarget: Option<PoseStamped>)
      requires |planOutcomes| == |placePoses|
      modifies this`events
      ensures raised == PlanningRaised(planOutcomes)
      ensures !raised ==> plannedTarget == PlannedTarget(placePoses, planOutcomes)
      ensures events == old(events) + PlanAttempts(placePoses, Tried(planOutcomes))
    {
      plannedTarget := None;
      var i := 0;
      while i < |placePoses|
        invariant 0 <= i <= |placePoses|
        invariant forall j :: 0 <= j < i ==> planOutcomes[j] == Returned(false)
        invariant events == old(events) + PlanAttempts(placePoses, i)
      {
        events := events + [PlanTo(placePoses[i])];
        if planOutcomes[i] == Raised {
          assert PlanStop(planOutcomes) == i;
          return true, None;
        }
        if planOutcomes[i].ok {
          assert PlanStop(planOutcomes) == i;
          return false, Some(placePoses[i]);
        }
        i := i + 1;
      }
      assert PlanStop(planOutcomes) == |planOutcomes|;
      raised := false;
    }

    /** The place step: plan to the candidates in order until one plans,
        execute the plan buffer once, then clear `isPlacing`, detach the
        object, open the gripper and release the frozen scene objects. An
        exception from the planner or the executor skips everything after it,
        and `isPlacing` stays set. */
    method Place(objectName: string, placePoses: seq<PoseStamped>, planOutcomes: seq<CallOutcome>, executeOutcome: CallOutcome)
      returns (outcome: CallOutcome)
      requires |planOutcomes| == |placePoses|
      modifies this`isPlacing, this`events, this`flagHistory
      ensures outcome == PlaceOutcome(planOutcomes, executeOutcome)
      ensures events == old(events) + PlaceLog(objectName, placePoses, planOutcomes, executeOutcome)
      ensures isPlacing == (old(isPlacing) && outcome == Raised)
      ensures flagHistory == old(flagHistory) + (if outcome == Raised then [] else [(isPicking, false)])
    {
      var raised, plannedTarget := SearchCandidates(placePoses, planOutcomes);
      if raised {
        return Raised;
      }
      events := events + [Execute(plannedTarget)];
      if executeOutcome == Raised {
        return Raised;
      }
      SetPlacing(false);
      events := events + [Detach(objectName)];
      OpenGripper();
      events := events + [ClearFrozenObjects];
      outcome := executeOutcome;
    }

    /** The first half of a cycle, entered with `isPicking` set: pick, take
        in the gripper feedback that arrived meanwhile, hand over from picking
        to placing, and treat the pick as failed when the gripper does not
        read open. */
    method PickAndCheckGrip(objectName: string, objectPose: PoseStamped, graspReply: Option<seq<Grasp>>, commonTime: int, frames: Frames,
                            pickOutcome: bool, gripperReading: Option<real>, now: int)
      returns (proceed: bool)
      requires isPicking
      modifies this`isPicking, this`isPlacing, this`isGripperOpen, this`isMovingToNeutral, this`moveToNeutralStart, this`events, this`flagHistory
      ensures isGripperOpen == if gripperReading.Some? then gripperReading.value > GRIPPER_OPEN_THRESHOLD else old(isGripperOpen)
      ensures proceed == (graspReply.Some? && pickOutcome && isGripperOpen)
      ensures !isPicking && isPlacing == (graspReply.Some? && pickOutcome)
      ensures isMovingToNeutral == old(isMovingToNeutral) && moveToNeutralStart == old(moveToNeutralStart)
      ensures events == old(events) + PickLog(objectName, objectPose, graspReply, commonTime, frames)
      ensures flagHistory == old(flagHistory) + [(true, graspReply.Some? && pickOutcome), (false, graspReply.Some? && pickOutcome)]
    {
      proceed := Pick(objectName, objectPose, graspReply, commonTime, frames, pickOutcome, now);
      if gripperReading.Some? {
        GripperCB(gripperReading.value);
      }
      SetPlacing(proceed);
      SetPicking(false);
      if !isGripperOpen {
        proceed := false;
      }
    }

    /** The second half of a cycle, entered with `isPicking` cleared and
        `isPlacing` set exactly when the pick succeeded: place the object when
        `proceed` holds, otherwise clear `isPlacing` and open the gripper; then
        request neutral. Every flag assignment made here leaves `isPicking`
        cleared. */
    method PlaceOrRecover(objectName: string, placePoses: seq<PoseStamped>, planOutcomes: seq<CallOutcome>,
                          executeOutcome: CallOutcome, proceed: bool, now: int)
      requires !isPicking
      requires proceed ==> isPlacing
      requires |planOutcomes| == |placePoses|
      modifies this`isPicking, this`isPlacing, this`isMovingToNeutral, this`moveToNeutralStart, this`events, this`flagHistory
      ensures var stuck := proceed && PlaceOutcome(planOutcomes, executeOutcome) == Raised;
              var neutral := !stuck && !InNeutral(jointLookup);
        && !isPicking
        && isPlacing == stuck
        && isMovingToNeutral == (old(isMovingToNeutral) || neutral)
        && moveToNeutralStart == (if neutral then now else old(moveToNeutralStart))
        && events == old(events)
                     + (if proceed then PlaceLog(objectName, placePoses, planOutcomes, executeOutcome)
                        else GripperCommands(OPEN_POSITION))
                     + (if neutral then NeutralEvents() else [])
      ensures |flagHistory| >= |old(flagHistory)| && flagHistory[..|old(flagHistory)|] == old(flagHistory)
      ensures forall k :: |old(flagHistory)| <= k < |flagHistory| ==> !flagHistory[k].0
    {
      if !proceed {
        SetPicking(false);
        SetPlacing(false);
        OpenGripper();
        MoveToNeutral(now);
        return;
      }
      // An exception escaping the placement is caught and ignored here.
      var placeResult := Place(objectName, placePoses, planOutcomes, executeOutcome);
      SetPicking(false);
      MoveToNeutral(now);
    }

    /** One pick-and-place cycle, run by the worker. `graspReply` is the grasp
        service's answer (None when the call or the service failed),
        `pickOutcome` the planner's pick result, `gripperReading` the last
        gripper feedback that arrived while the pick ran, `planOutcomes` and
        `executeOutcome` the planner's answers during placement, and `now` the
        clock when neutral is requested. A pick that failed, or after which
        the gripper does not read open (it closed on nothing), opens the
        gripper and requests neutral; otherwise the object is placed and
        neutral is requested, which a placement that raised turns into a
        no-op by leaving `isPlacing` set. */
    method PickAndPlace(task: PickTask, graspReply: Option<seq<Grasp>>, commonTime: int, frames: Frames, pickOutcome: bool,
                        gripperReading: Option<real>, planOutcomes: seq<CallOutcome>, executeOutcome: CallOutcome, now: int)
      requires |planOutcomes| == PLACE_CANDIDATES
      modifies this`isPicking, this`isPlacing, this`isGripperOpen, this`isMovingToNeutral, this`moveToNeutralStart, this`events, this`flagHistory
      ensures var picked := graspReply.Some? && pickOutcome;
              var gripperOpen := if gripperReading.Some? then gripperReading.value > GRIPPER_OPEN_THRESHOLD else old(isGripperOpen);
              var proceed := picked && gripperOpen;
              var stuck := proceed && PlaceOutcome(planOutcomes, executeOutcome) == Raised;
              var neutral := !stuck && !InNeutral(jointLookup);
        && !isPicking
        && isPlacing == stuck
        && isGripperOpen == gripperOpen
        && isMovingToNeutral == (old(isMovingToNeutral) || neutral)
        && moveToNeutralStart == (if neutral then now else old(moveToNeutralStart))
        && events == old(events) + [FreezeAllObjects]
                     + PickLog(task.objectName, task.objectPose, graspReply, commonTime, frames)
                     + (if proceed then PlaceLog(task.objectName, PlaceCandidates(task.placePoint, task.placeOrientation), planOutcomes, executeOutcome)
                        else GripperCommands(OPEN_POSITION))
                     + (if neutral then NeutralEvents() else [])
      ensures var n := |old(flagHistory)|;
        && |flagHistory| >= n + 3
        && flagHistory[..n] == old(flagHistory)
        && flagHistory[n] == (true, old(isPlacing))
        && flagHistory[n + 1] == (true, graspReply.Some? && pickOutcome)
        && forall k :: n + 2 <= k < |flagHistory| ==> !flagHistory[k].0
      ensures (exists k :: |old(flagHistory)| <= k < |flagHistory| && flagHistory[k] == (true, true))
              <==> old(isPlacing) || (graspReply.Some? && pickOutcome)
    {
      SetPicking(true);
      events := events + [FreezeAllObjects];
      var placePoses := GetValidPlacePoses(task.placePoint, task.placeOrientation);
      var pickSuccess := PickAndCheckGrip(task.objectName, task.objectPose, graspReply, commonTime, frames, pickOutcome, gripperReading, now);
      ghost var handedOver := flagHistory;
      assert handedOver == old(flagHistory) + [(true, old(isPlacing)), (true, graspReply.Some? && pickOutcome), (false, graspReply.Some? && pickOutcome)];
      PlaceOrRecover(task.objectName, placePoses, planOutcomes, executeOutcome, pickSuccess, now);
      assert flagHistory[..|handedOver|] == handedOver;
      OverlapExactlyWhenHeld(flagHistory, |old(flagHistory)|, old(isPlacing), graspReply.Some? && pickOutcome);
    }
  }
}
