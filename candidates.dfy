/** The candidate generators: placement poses around a target, and grasps
    re-expressed in the world frame around an object's pose. */
module Candidates {
  import opened Messages

  /** Number of placement candidates, evenly spaced by yaw over a full turn. */
  const PLACE_CANDIDATES: nat := 36

  /** The yaw offset of an orientation from its start, in degrees. A received
      quaternion carries no offset. */
  function YawOffsetDegrees(o: Orientation): int
  {
    match o
    case Quat(_) => 0
    case YawStep(_, step) => step * 360 / PLACE_CANDIDATES
  }

  /** The ordered placement candidates for a target point and orientation:
      the specification `GetValidPlacePoses` is proved to meet. */
  function PlaceCandidates(placePoint: Point, orientation: Quaternion): seq<PoseStamped>
  {
    seq(PLACE_CANDIDATES, i => PoseStamped(Header("world", 0), Pose(placePoint, YawStep(orientation, i))))
  }

  /** Fills a 36-slot buffer of default poses: slot `i` gets the "world"
      frame, the target point and the start orientation turned by `i` yaw
      steps. */
  method GetValidPlacePoses(placePoint: Point, orientation: Quaternion) returns (poses: seq<PoseStamped>)
    ensures |poses| == PLACE_CANDIDATES
    ensures forall i :: 0 <= i < |poses| ==>
      && poses[i].header == Header("world", 0)
      && poses[i].pose.position == placePoint
      && poses[i].pose.orientation == YawStep(orientation, i)
      && YawOffsetDegrees(poses[i].pose.orientation) == 10 * i
    ensures forall i, j :: 0 <= i < j < |poses| ==> poses[i] != poses[j]
    ensures poses == PlaceCandidates(placePoint, orientation)
  {
    var buffer := new PoseStamped[PLACE_CANDIDATES](_ => DEFAULT_POSE_STAMPED);
    for i := 0 to PLACE_CANDIDATES
      invariant forall k :: 0 <= k < i ==> buffer[k] == PoseStamped(Header("world", 0), Pose(placePoint, YawStep(orientation, k)))
      invariant forall k :: i <= k < PLACE_CANDIDATES ==> buffer[k] == DEFAULT_POSE_STAMPED
    {
      buffer[i] := buffer[i].(header := buffer[i].header.(frameId := "world"));
      buffer[i] := buffer[i].(pose := buffer[i].pose.(position := placePoint));
      buffer[i] := buffer[i].(pose := buffer[i].pose.(orientation := YawStep(orientation, i)));
    }
    poses := buffer[..];
  }

  /** The id a grasp gets when its index `i` is assigned to MoveIt's string id
      field: a one-character string whose character code is `i` taken
      modulo 256. */
  function GraspId(i: nat): string
  {
    [(i % 256) as char]
  }

  /** Indices below 256 get pairwise distinct ids; from 256 on they repeat. */
  lemma GraspIdsDistinctBelow256(i: nat, j: nat)
    requires i < 256 && j < 256
    ensures GraspId(i) == GraspId(j) <==> i == j
    ensures GraspId(i + 256) == GraspId(i)
  {
    if GraspId(i) == GraspId(j) {
      assert GraspId(i)[0] == GraspId(j)[0];
      assert (i as char) as int == i;
    }
  }

  /** The grasp pose re-expressed in the world frame: the object pose, with its
      stamp replaced by the latest common time of the world and camera frames,
      is resolved into "world" (which keeps that stamp), and the grasp's local
      pose is composed onto it. */
  function GraspPoseRelativeTo(graspPose: PoseStamped, objectPose: PoseStamped, commonTime: int, frames: Frames): (r: PoseStamped)
    ensures r.header == Header("world", commonTime)
  {
    var restamped := objectPose.(header := objectPose.header.(stamp := commonTime));
    PoseStamped(Header("world", commonTime), frames.compose(frames.toWorld(restamped), graspPose.pose))
  }

  /** A direction turned by the rotation of a pose (its translation plays no
      part), stamped with that pose's header. */
  function DirectionFromPose(pose: PoseStamped, direction: Vector3Stamped, frames: Frames): (r: Vector3Stamped)
    ensures r.header == pose.header
  {
    Vector3Stamped(pose.header, frames.rotate(pose.pose.orientation, direction.vector))
  }

  /** The object pose is always resolved through the transform library, even
      when it is already in the world frame, and its own stamp plays no part:
      two object poses that differ only in their stamp give the same grasp
      pose. */
  lemma GraspPoseIgnoresObjectStamp(graspPose: PoseStamped, objectPose: PoseStamped, stamp: int, commonTime: int, frames: Frames)
    ensures var r := GraspPoseRelativeTo(graspPose, objectPose, commonTime, frames);
      && r == GraspPoseRelativeTo(graspPose, objectPose.(header := objectPose.header.(stamp := stamp)), commonTime, frames)
      && r.pose == frames.compose(frames.toWorld(objectPose.(header := objectPose.header.(stamp := commonTime))), graspPose.pose)
  {
  }

  /** Only the rotation of the pose turns the direction: moving the pose
      without turning it leaves the direction unchanged. */
  lemma DirectionIgnoresTranslation(pose: PoseStamped, position: Point, direction: Vector3Stamped, frames: Frames)
    ensures DirectionFromPose(pose.(pose := pose.pose.(position := position)), direction, frames)
         == DirectionFromPose(pose, direction, frames)
  {
  }

  /** One grasp of the service's reply, placed at the object: re-numbered,
      re-stamped, its pose moved into the world frame, its approach direction
      turned by the NEW grasp pose, and its quality forced to 1.0. */
  function WorldGrasp(g: Grasp, i: nat, objectPose: PoseStamped, commonTime: int, frames: Frames): Grasp
  {
    var graspPose := GraspPoseRelativeTo(g.graspPose, objectPose, commonTime, frames);
    g.(id := GraspId(i),
       preGraspPostureStamp := commonTime,
       graspPostureStamp := commonTime,
       graspPose := graspPose,
       approachDirection := DirectionFromPose(graspPose, g.approachDirection, frames),
       quality := 1.0)
  }

  /** The world-frame grasps for a reply: the specification
      `SetGraspsAtPose` is proved to meet. */
  function GraspsAtPose(objectPose: PoseStamped, grasps: seq<Grasp>, commonTime: int, frames: Frames): seq<Grasp>
  {
    seq(|grasps|, i requires 0 <= i < |grasps| => WorldGrasp(grasps[i], i, objectPose, commonTime, frames))
  }

  /** Builds the world-frame grasps one by one, in reply order. */
  method SetGraspsAtPose(objectPose: PoseStamped, grasps: seq<Grasp>, commonTime: int, frames: Frames) returns (placed: seq<Grasp>)
    ensures |placed| == |grasps|
    ensures forall i :: 0 <= i < |placed| ==>
      && placed[i].id == GraspId(i)
      && placed[i].quality == 1.0
      && placed[i].preGraspPostureStamp == commonTime
      && placed[i].graspPostureStamp == commonTime
      && placed[i].graspPose.header == Header("world", commonTime)
      && placed[i].graspPose.pose == frames.compose(frames.toWorld(objectPose.(header := objectPose.header.(stamp := commonTime))), grasps[i].graspPose.pose)
      && placed[i].approachDirection.header == placed[i].graspPose.header
      && placed[i].approachDirection.vector == frames.rotate(placed[i].graspPose.pose.orientation, grasps[i].approachDirection.vector)
      && placed[i].approachDesiredDistance == grasps[i].approachDesiredDistance
      && placed[i].approachMinDistance == grasps[i].approachMinDistance
    ensures placed == GraspsAtPose(objectPose, grasps, commonTime, frames)
  {
    placed := [];
    for i := 0 to |grasps|
      invariant |placed| == i
      invariant forall k :: 0 <= k < i ==> placed[k] == WorldGrasp(grasps[k], k, objectPose, commonTime, frames)
    {
      var grasp := grasps[i];
      grasp := grasp.(id := GraspId(i));
      grasp := grasp.(preGraspPostureStamp := commonTime, graspPostureStamp := commonTime);
      grasp := grasp.(graspPose := GraspPoseRelativeTo(grasp.graspPose, objectPose, commonTime, frames));
      grasp := grasp.(approachDirection := DirectionFromPose(grasp.graspPose, grasp.approachDirection, frames));
      grasp := grasp.(quality := 1.0);
      placed := placed + [grasp];
    }
  }
}
