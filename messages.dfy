/** Message and value types shared by the pick-and-place controller: the ROS
    geometry messages it handles, the grasp and perception messages it
    receives, the outcome of a call into the motion-planning backend, and
    the log of side effects the controller issues. */
module Messages {

  datatype Option<T> = None | Some(value: T)

  /** What a call into the planning backend did: it returned a flag, or it
      raised an exception. */
  datatype CallOutcome = Returned(ok: bool) | Raised

  datatype Point = Point(x: real, y: real, z: real)

  datatype Quaternion = Quaternion(x: real, y: real, z: real, w: real)

  datatype Vector3 = Vector3(x: real, y: real, z: real)

  /** An orientation is either a quaternion as received, or a placement
      orientation: `start` composed with a pure yaw of
      `step` * 2 * pi / 36 radians about its local Z axis. The quaternion
      product itself is not modelled. */
  datatype Orientation = Quat(q: Quaternion) | YawStep(start: Quaternion, step: int)

  /** `stamp` is a ROS time in nanoseconds. */
  datatype Header = Header(frameId: string, stamp: int)

  datatype Pose = Pose(position: Point, orientation: Orientation)

  datatype PoseStamped = PoseStamped(header: Header, pose: Pose)

  datatype PoseWithCovariance = PoseWithCovariance(pose: Pose, covariance: seq<real>)

  datatype PoseWithCovarianceStamped = PoseWithCovarianceStamped(header: Header, pose: PoseWithCovariance)

  datatype Vector3Stamped = Vector3Stamped(header: Header, vector: Vector3)

  /** The fields of a MoveIt grasp that the controller reads or writes; the
      approach distances stand for the fields it passes through untouched. */
  datatype Grasp = Grasp(
    id: string,
    preGraspPostureStamp: int,
    graspPostureStamp: int,
    graspPose: PoseStamped,
    approachDirection: Vector3Stamped,
    approachDesiredDistance: real,
    approachMinDistance: real,
    quality: real)

  /** One object of a perception batch: its type key and its pose. */
  datatype RecognizedObject = RecognizedObject(key: string, pose: PoseWithCovarianceStamped)

  /** The arguments the controller hands to its pick-and-place worker. */
  datatype PickTask = PickTask(objectName: string, objectPose: PoseStamped, placePoint: Point, placeOrientation: Quaternion)

  /** The transform library, as an oracle: `toWorld` resolves a stamped pose
      into the "world" frame, `compose` multiplies two rigid transforms and
      `rotate` applies the rotation of an orientation to a vector. */
  datatype Frames = Frames(
    toWorld: PoseStamped -> Pose,
    compose: (Pose, Pose) -> Pose,
    rotate: (Orientation, Vector3) -> Vector3)

  /** The side effects the controller issues to its collaborators, in order. */
  datatype Event =
    | GripperCommand(id: int, position: real)
    | SetNamedTarget(name: string)
    | DetachAll
    | Detach(objectName: string)
    | AsyncMove
    | Stop
    | FreezeAllObjects
    | ClearFrozenObjects
    | UpdateObjects(objects: seq<RecognizedObject>)
    | QueryGrasps(objectName: string)
    | PickObject(objectName: string, grasps: seq<Grasp>)
    | PlanTo(goal: PoseStamped)
    | Execute(planned: Option<PoseStamped>)
    | StartWorker(task: PickTask)

  /** A default-constructed stamped pose: empty frame, time zero, every
      coordinate and quaternion component zero. */
  const DEFAULT_POSE_STAMPED: PoseStamped :=
    PoseStamped(Header("", 0), Pose(Point(0.0, 0.0, 0.0), Quat(Quaternion(0.0, 0.0, 0.0, 0.0))))

  /** Copies a pose-with-covariance message into a stamped pose, dropping the
      covariance. */
  function PoseStampedFromCovariance(p: PoseWithCovarianceStamped): (ps: PoseStamped)
    ensures ps.header == p.header
    ensures ps.pose.position == p.pose.pose.position && ps.pose.orientation == p.pose.pose.orientation
  {
    PoseStamped(p.header, p.pose.pose)
  }

  /** Wrapping a stamped pose with any covariance and converting it back gives
      the stamped pose again: the conversion keeps header, position and
      orientation and ignores the covariance. */
  lemma PoseStampedFromCovarianceRoundTrip(ps: PoseStamped, covariance: seq<real>)
    ensures PoseStampedFromCovariance(
              PoseWithCovarianceStamped(ps.header, PoseWithCovariance(ps.pose, covariance))) == ps
  {
  }
}
