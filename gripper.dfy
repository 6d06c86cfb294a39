/** Commands to, and feedback from, the left gripper. */
module Gripper {
  import opened Messages

  /** Identifier of the left gripper in every end-effector command. */
  const GRIPPER_COMMAND_ID: int := 65538

  /** Each command is sent this many times, to tolerate lossy delivery. */
  const GRIPPER_MSG_RESEND: nat := 5

  const OPEN_POSITION: real := 100.0

  const CLOSED_POSITION: real := 0.0

  /** A feedback position above this counts as open. */
  const GRIPPER_OPEN_THRESHOLD: real := 4.0

  /** The burst of identical commands that moves the gripper to `position`. */
  function GripperCommands(position: real): seq<Event>
  {
    seq(GRIPPER_MSG_RESEND, _ => GripperCommand(GRIPPER_COMMAND_ID, position))
  }
}
