/** The hard-coded table of named placement regions: a world-frame point and
    an orientation per region name. */
module Regions {
  import opened Messages

  const KNOWN_REGIONS: set<string> := {"sink", "counter", "robot_counter"}

  const ORIGIN: Point := Point(0.0, 0.0, 0.0)

  const ZERO_QUATERNION: Quaternion := Quaternion(0.0, 0.0, 0.0, 0.0)

  function SquaredNorm(q: Quaternion): real
  {
    q.x * q.x + q.y * q.y + q.z * q.z + q.w * q.w
  }

  /** The placement point of a region. A known region lies 0.6 m in front of
      the robot and away from the origin; any other name yields the
      default-constructed point, the origin. */
  function GetRegion(name: string): (p: Point)
    ensures name in KNOWN_REGIONS <==> p != ORIGIN
    ensures name in KNOWN_REGIONS ==> p.x == 0.6
    ensures name == "sink" ==> p == Point(0.6, 0.7, 0.3)
  {
    if name == "sink" then Point(0.6, 0.7, 0.3)
    else if name == "counter" then Point(0.6, -0.25, 0.3)
    else if name == "robot_counter" then Point(0.6, 0.0, 0.0)
    else ORIGIN
  }

  /** The placement orientation of a region. A known region yields a unit
      quaternion, that is a rotation; any other name yields the
      default-constructed all-zero quaternion, which is not a rotation. */
  function GetRegionOrientation(name: string): (q: Quaternion)
    ensures name in KNOWN_REGIONS <==> SquaredNorm(q) == 1.0
    ensures name !in KNOWN_REGIONS ==> q == ZERO_QUATERNION
    ensures name == "sink" ==> q == Quaternion(0.0, 1.0, 0.0, 0.0)
  {
    if name == "sink" then Quaternion(0.0, 1.0, 0.0, 0.0)
    else if name == "counter" then Quaternion(0.5, 0.5, -0.5, 0.5)
    else if name == "robot_counter" then Quaternion(0.0, 1.0, 0.0, 0.0)
    else ZERO_QUATERNION
  }
}
