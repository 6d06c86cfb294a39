# Baxter marker pick-and-place controller, modelled in Dafny

This project models `MarkerPickPlace`, the controller that drives Baxter's left
arm. The controller reads three feedback streams:

- AR-marker object detections;
- joint states;
- gripper state.

From these it picks a randomly chosen detected object, places it in the "sink"
region, and sends the arm back to its neutral configuration between cycles.

The model is one Dafny class, `PickPlace.MarkerPickPlace`, whose fields mirror
the C++ class:

- the object snapshot;
- the joint lookup;
- the current pick object;
- the picking, placing and gripper-open flags;
- the move-to-neutral flag and its start time.

Every command the controller sends to the planner, the scene or the gripper is
appended to an event log, `events`. A ghost log, `flagHistory`, records the
pair (isPicking, isPlacing) after every single assignment to either flag. These
are the states a concurrently running callback can observe.

Collaborators the controller calls into are represented as parameters:

- **Motion planner.** Its results are `CallOutcome` values: a returned flag, or
  an exception.
- **Grasp service.** Its reply is optional.
- **Transform library.** It is `Frames`, a record of uninterpreted functions.
- **Clock.** It is an integer time in nanoseconds.
- **`rand()`.** It is a natural number.
- **Previous worker thread.** Whether it is still busy is a boolean.

The modules are:

- `Messages`: message and event types.
- `MapUpdates`: sequential map writes.
- `Regions`: the region tables.
- `Neutral`: the neutral-pose test.
- `Candidates`: placement poses and world-frame grasps.
- `Gripper`: gripper command constants.
- `PlaceSearch`: the placement search and its log.
- `PickPlace`: the controller class.

Three operations appear twice: `PlaceCandidates` and `GetValidPlacePoses`,
`GraspsAtPose` and `SetGraspsAtPose`, `PlaceLog` and `Place`. In each pair the
function is the specification and the method is the code's loop, proved equal
to it. They describe one behaviour, not two.

## Behaviour worth knowing (the model follows the code)

The first item is where the code departs from its evident intent; the others
are consequences of the code as written that a reader might not expect.

- **Missing joints count as neutral (departs from evident intent).** The neutral test ignores any reference
  joint that has never been reported (`marker_pick_place.cpp:203` accumulates
  a flag that is never returned). With no joint feedback, the arm therefore
  counts as neutral. This is why the constructor's move to neutral never moves
  the arm.
- **A pick counts as missed when the gripper closed fully.** The check at
  `:499-503` treats the pick as failed when the gripper does not read open
  (position at most 4.0). A gripper that closed on an object stops with its
  jaws apart and reads open; one that closed fully holds nothing.
- **An empty grasp list does not abort the pick.** The pick gives up only when
  the service call fails or reports no success. An empty list is handed to the
  planner's pick.
- **The object pose is restamped.** Resolving the object pose into the world
  frame first overwrites its stamp with the latest common time of the "world"
  and "camera_link" frames.
- **The frame test always resolves.** The test at `:363` is always true, so the
  pose is always resolved through the transform library.
- **The plan buffer is executed even when nothing planned.** After the
  placement search, the plan buffer is executed whether or not a candidate
  planned (`:446`).
- **An exception during placement leaves `isPlacing` set.** When the planner or
  the executor raises during placement, `isPlacing` stays set. The move to
  neutral at the end of the cycle then does nothing.
- **Both flags can be set at once for a moment.** `isPicking` and `isPlacing`
  are both set right after a successful pick (`:495`). They are also both set
  at the start of a cycle (`:483`) when an earlier placement raised.

## Model

| member | source | states |
|---|---|---|
| Messages.PoseStampedFromCovariance | baxter_pick_and_place/src/marker_pick_place.cpp:308-314 | the stamped pose takes over the header, the position and the orientation of the pose with covariance |
| Messages.PoseStampedFromCovarianceRoundTrip | baxter_pick_and_place/src/marker_pick_place.cpp:308-314 | converting a pose with covariance to a stamped pose keeps header, position and orientation and drops only the covariance |
| MapUpdates.Overwrite | baxter_pick_and_place/src/marker_pick_place.cpp:619-622 | after writing key/value pairs in order, the keys are the old keys plus the written ones, a written key holds the value of its last occurrence, and every other key keeps its value |
| Regions.GetRegion | baxter_pick_and_place/src/marker_pick_place.cpp:256-279 | a name is one of sink, counter or robot_counter exactly when its point is not the origin; known regions lie at x = 0.6; sink is (0.6, 0.7, 0.3) |
| Regions.GetRegionOrientation | baxter_pick_and_place/src/marker_pick_place.cpp:281-306 | a name is a known region exactly when its quaternion has unit norm; unknown names give the all-zero quaternion; sink is (0, 1, 0, 0) |
| Neutral.ReferenceJointsDistinct | baxter_pick_and_place/src/marker_pick_place.cpp:188-195 | the seven reference joint names are pairwise distinct, so the table is a map |
| Neutral.NeutralLookup | baxter_pick_and_place/src/marker_pick_place.cpp:188-195 | the lookup built from the reference table holds exactly the seven reference joints, each at its reference angle |
| Neutral.EmptyLookupCountsAsNeutral | baxter_pick_and_place/src/marker_pick_place.cpp:197-213 | with no joint reported, the coded test answers neutral while the intended test (every reference joint reported and within 0.1) does not |
| Neutral.CodedAndIntendedNeutralAgreeWhenKnown | baxter_pick_and_place/src/marker_pick_place.cpp:197-213 | the intended test (every reference joint reported and within 0.1) implies the coded one (no reported reference joint off by more than 0.1), and the two agree whenever every reference joint has been reported |
| Neutral.ReferenceAnglesAreNeutral | baxter_pick_and_place/src/marker_pick_place.cpp:186-214 | an arm exactly at the reference angles is neutral under both the coded and the intended test |
| Neutral.UnrelatedJointsKeepVerdict | baxter_pick_and_place/src/marker_pick_place.cpp:199-212 | joint updates that name no reference joint leave the neutral verdict unchanged |
| Candidates.GetValidPlacePoses | baxter_pick_and_place/src/marker_pick_place.cpp:459-476 | exactly 36 pairwise distinct poses, each in frame "world" at the place point, pose i being the start orientation turned by i yaw steps, whose yaw offset is 10·i degrees (step 0 has yaw offset 0) |
| Candidates.GraspIdsDistinctBelow256 | baxter_pick_and_place/src/marker_pick_place.cpp:389 | assigning the index to the string id gives distinct ids for indices below 256 and repeats every 256 |
| Candidates.GraspPoseRelativeTo | baxter_pick_and_place/src/marker_pick_place.cpp:357-378 | the grasp pose comes out in frame "world", stamped with the latest common time |
| Candidates.GraspPoseIgnoresObjectStamp | baxter_pick_and_place/src/marker_pick_place.cpp:360-375 | the object pose is always resolved through the transform library (the frame test never skips it) after its stamp is overwritten by the common time, so its own stamp plays no part |
| Candidates.DirectionFromPose | baxter_pick_and_place/src/marker_pick_place.cpp:316-336 | the turned direction carries the grasp pose's header |
| Candidates.DirectionIgnoresTranslation | baxter_pick_and_place/src/marker_pick_place.cpp:319-327 | only the rotation of the grasp pose turns the direction; moving the pose without turning it leaves the direction unchanged |
| Candidates.SetGraspsAtPose | baxter_pick_and_place/src/marker_pick_place.cpp:380-399 | one grasp per input, in order: id from the index, quality 1.0, both postures stamped with the common time, the pose composed onto the object pose resolved in "world", the approach direction turned by the new grasp pose and sharing its header, and the approach distances passed through |
| PlaceSearch.PlanStop | baxter_pick_and_place/src/marker_pick_place.cpp:436-445 | the search stops at the first candidate whose planning did not simply fail; every earlier one failed |
| PlaceSearch.PlaceTriesInOrder | baxter_pick_and_place/src/marker_pick_place.cpp:436-445 | the planning targets are exactly the first Tried candidates in index order, and no candidate after the first success is tried |
| PlaceSearch.PlaceExecutesOnce | baxter_pick_and_place/src/marker_pick_place.cpp:436-446 | unless planning raised, the plan buffer is executed exactly once, also when no candidate planned (then it holds no candidate's plan) |
| PlaceSearch.PlaceCleansUpWhateverTheResult | baxter_pick_and_place/src/marker_pick_place.cpp:446-456 | whatever planning and execution returned, a placement that raised nothing ends by detaching the object, opening the gripper and releasing the frozen objects |
| PlaceSearch.FirstPlannedCandidateIsExecuted | baxter_pick_and_place/src/marker_pick_place.cpp:436-446 | when candidate k is the first to plan, exactly candidates 0..k are tried and candidate k's plan is the one executed, once |
| PickPlace.Snapshot | baxter_pick_and_place/src/marker_pick_place.cpp:574-579 | the snapshot's keys are exactly the batch's keys (no stale entries) and each key holds the pose of its last occurrence |
| PickPlace.OverlapExactlyWhenHeld | baxter_pick_and_place/src/marker_pick_place.cpp:483-496 | in a cycle's flag trace (picking with the inherited placing flag, then picking with placing set to the pick result, then never picking), both flags are set together somewhere exactly when placing was inherited set or the pick succeeded |
| PickPlace.MarkerPickPlace.IsPickingOrPlacing | baxter_pick_and_place/src/marker_pick_place.cpp:159-162 | the controller is idle exactly when both the picking and the placing flag are clear |
| PickPlace.MarkerPickPlace.constructor | baxter_pick_and_place/src/marker_pick_place.cpp:89-117 | starts idle with all flags cleared, and its request for neutral issues no command |
| PickPlace.MarkerPickPlace.OpenGripper | baxter_pick_and_place/src/marker_pick_place.cpp:119-137 | appends five open commands (id 65538, position 100.0) |
| PickPlace.MarkerPickPlace.CloseGripper | baxter_pick_and_place/src/marker_pick_place.cpp:139-157 | appends five close commands (id 65538, position 0.0) |
| PickPlace.MarkerPickPlace.IsInNeutral | baxter_pick_and_place/src/marker_pick_place.cpp:186-214 | answers false exactly when some reported reference joint is more than 0.1 from its reference angle; unreported joints are ignored |
| PickPlace.MarkerPickPlace.MoveToNeutral | baxter_pick_and_place/src/marker_pick_place.cpp:164-184 | changes nothing while picking or placing or when already neutral; otherwise records the move and its start time and issues target, gripper open, detach and async move |
| PickPlace.MarkerPickPlace.CheckMoveToNeutral | baxter_pick_and_place/src/marker_pick_place.cpp:216-243 | done with no change when not moving; after strictly more than 60 s stops the arm and clears the move; otherwise clears it when neutral, and reports still moving when not |
| PickPlace.MarkerPickPlace.GripperCB | baxter_pick_and_place/src/marker_pick_place.cpp:611-615 | the gripper counts as open exactly when its position exceeds 4.0 |
| PickPlace.MarkerPickPlace.JointsCB | baxter_pick_and_place/src/marker_pick_place.cpp:617-624 | merges the reported angles into the lookup (last occurrence wins, unreported joints keep theirs) and then polls the pending move to neutral |
| PickPlace.MarkerPickPlace.ExecuteAction | baxter_pick_and_place/src/marker_pick_place.cpp:535-544 | hands the current object, its pose and the sink region to a new worker; a name missing from the snapshot gets a default pose inserted |
| PickPlace.MarkerPickPlace.ReplaceObjectPoses | baxter_pick_and_place/src/marker_pick_place.cpp:574-579 | the object snapshot becomes exactly the batch's snapshot |
| PickPlace.MarkerPickPlace.ReactToBatch | baxter_pick_and_place/src/marker_pick_place.cpp:585-608 | with every batch object in the snapshot: nothing while a move to neutral is pending; an empty batch requests neutral; otherwise a worker starts exactly when none is busy, on the object at the random index, and the snapshot is left as it is |
| PickPlace.MarkerPickPlace.MarkersCB | baxter_pick_and_place/src/marker_pick_place.cpp:571-609 | replaces the snapshot; while a move to neutral is pending does nothing else; an empty batch requests neutral; otherwise a worker starts exactly when none is busy, on the randomly indexed object, which is then a key of the new snapshot |
| PickPlace.MarkerPickPlace.Pick | baxter_pick_and_place/src/marker_pick_place.cpp:401-427 | succeeds exactly when the grasp service answered and the planner's pick succeeded; detaches, queries, and picks with the world-frame grasps; a failed query requests neutral, which cannot move the arm mid-pick |
| PickPlace.MarkerPickPlace.SearchCandidates | baxter_pick_and_place/src/marker_pick_place.cpp:436-445 | sets exactly the first Tried candidates as planning target, in order; reports whether planning raised and otherwise which candidate's plan the buffer holds |
| PickPlace.MarkerPickPlace.Place | baxter_pick_and_place/src/marker_pick_place.cpp:429-457 | issues exactly the placement log (in-order search, one execution, cleanup), returns the executor's result unless something raised, and clears isPlacing only when nothing raised |
| PickPlace.MarkerPickPlace.PickAndCheckGrip | baxter_pick_and_place/src/marker_pick_place.cpp:493-503 | picks, takes in the gripper feedback, sets placing to the pick result and then clears picking (two recorded flag states), and proceeds exactly when the pick succeeded and the gripper reads open |
| PickPlace.MarkerPickPlace.PlaceOrRecover | baxter_pick_and_place/src/marker_pick_place.cpp:506-532 | a failed pick clears both flags and opens the gripper; otherwise the object is placed; then neutral is requested, which a raised placement turns into a no-op since isPlacing stays set |
| PickPlace.MarkerPickPlace.PickAndPlace | baxter_pick_and_place/src/marker_pick_place.cpp:479-533 | ends with isPicking cleared and isPlacing set only after a raised placement; proceeds to place only when the pick succeeded and the gripper reads open; gives the full command log; and both flags are set at once at some point of the cycle exactly when the pick succeeded or isPlacing was already set on entry |

## Left out

- ROS plumbing: node setup, publishers, subscribers, the service client, `main`, status messages, logging (`:89-117`, `:659-664`). The constructor keeps only the flag initialisation and its move to neutral.
- The `moveGroup` setters (planner id, planning time, workspace, support surface, replanning, start state) are not events in the model; they configure the foreign planner and are invisible to the controller's own state.
- The worker thread and the busy probe (`:542-543`, `:598`): a cycle runs synchronously, and whether the previous worker is still running is a parameter. Interleavings of callbacks with a running cycle are not modelled; `flagHistory` records the states such an interleaving could observe.
- `waitForMovingToNeutralToFinish` (`:245-253`): a blocking sleep-and-poll loop over `CheckMoveToNeutral`; sleeps and the pulse delays between gripper commands are left out.
- `checkScene` (`:546-569`) and the `clearingScene`/`clearSceneStart` fields: never called, and one path ends without a return value.
- `createGraspMarker` and `publishMarkers` (`:626-655`): visualisation only.
- The scene interface (freeze, clear, update): its source is not part of this model; its calls are recorded as events.
- Quaternion and transform arithmetic (`:316-378`, `:461-472`): the transform library is the uninterpreted `Frames`, and placement orientations are kept symbolic as a start quaternion and a yaw step.
- Floating point: angles, positions and quaternion components are `real`.
- PickPlace.MarkerPickPlace.Pick: exceptions are not modelled: neither one raised by the planner's pick nor one raised by the transform library when `setGraspsAtPose` resolves the object pose into the world frame (`:366`, reached from `:421` outside the only try block at `:518-525`). Either would escape the worker with `isPicking` still set; the model's `Frames.toWorld` is total and the pick returns a flag.
- PickPlace.MarkerPickPlace.JointsCB: requires at least as many positions as names. A joint message with fewer positions (an empty position array is a valid message) makes `:621` read past the end of the position array, which is undefined behaviour and is not modelled.
- PickPlace.MarkerPickPlace.PickAndPlace: `gripperReading` is the last gripper feedback that arrived while the pick ran; feedback arriving at other moments of the cycle is not modelled.
- Candidates.SetGraspsAtPose: the latest common time is one parameter shared by the grasp stamps and the restamped object pose, assuming the transform buffer does not change within one call; the uninitialised error pointer passed to the transform library is not modelled.
- PlaceSearch.PlaceExecutesOnce: when no candidate planned, the executed buffer is modelled as holding no candidate's plan; what a failed planning call leaves in the buffer is not modelled.
