/** The neutral reference configuration of the left arm and the tolerance
    test of joint feedback against it. */
module Neutral {
  import opened MapUpdates

  /** Largest accepted distance, in radians, between a joint and its
      reference angle. */
  const JOINT_POSITION_TOLERANCE: real := 0.1

  /** The seven reference joints and their neutral angles, in the order a
      name-keyed ordered map visits them. */
  const NEUTRAL_JOINTS: seq<(string, real)> := [
    ("left_e0", 0.0),
    ("left_e1", 0.75),
    ("left_s0", 0.0),
    ("left_s1", -0.55),
    ("left_w0", 0.0),
    ("left_w1", 1.26),
    ("left_w2", 0.0)
  ]

  function Abs(x: real): real
  {
    if x < 0.0 then -x else x
  }

  /** A reference joint is off when it has been reported and its last reported
      angle is further than the tolerance from the reference. */
  predicate OffReference(lookup: map<string, real>, reference: (string, real))
  {
    reference.0 in lookup && Abs(lookup[reference.0] - reference.1) > JOINT_POSITION_TOLERANCE
  }

  /** The neutral test as the controller computes it: no reference joint is
      off. A reference joint that has never been reported is ignored. */
  predicate InNeutral(lookup: map<string, real>)
  {
    forall k :: 0 <= k < |NEUTRAL_JOINTS| ==> !OffReference(lookup, NEUTRAL_JOINTS[k])
  }

  /** Every reference joint has been reported. */
  predicate AllReferenceJointsKnown(lookup: map<string, real>)
  {
    forall k :: 0 <= k < |NEUTRAL_JOINTS| ==> NEUTRAL_JOINTS[k].0 in lookup
  }

  /** The neutral test as evidently intended: every reference joint has
      been reported and lies within tolerance of its reference angle; an
      unknown joint is not confirmed neutral. */
  predicate AtNeutralAsIntended(lookup: map<string, real>)
  {
    forall k :: 0 <= k < |NEUTRAL_JOINTS| ==>
      NEUTRAL_JOINTS[k].0 in lookup && Abs(lookup[NEUTRAL_JOINTS[k].0] - NEUTRAL_JOINTS[k].1) <= JOINT_POSITION_TOLERANCE
  }

  /** No joint appears twice in the reference table. */
  lemma ReferenceJointsDistinct()
    ensures forall i, j :: 0 <= i < j < |NEUTRAL_JOINTS| ==> NEUTRAL_JOINTS[i].0 != NEUTRAL_JOINTS[j].0
  {
  }

  /** The reference table read as a joint lookup: exactly the seven
      reference joints, each at its reference angle. */
  function NeutralLookup(): (lookup: map<string, real>)
    ensures forall k :: 0 <= k < |NEUTRAL_JOINTS| ==> NEUTRAL_JOINTS[k].0 in lookup && lookup[NEUTRAL_JOINTS[k].0] == NEUTRAL_JOINTS[k].1
    ensures forall name :: name in lookup ==> exists k :: 0 <= k < |NEUTRAL_JOINTS| && NEUTRAL_JOINTS[k].0 == name
  {
    ReferenceJointsDistinct();
    map k | 0 <= k < |NEUTRAL_JOINTS| :: NEUTRAL_JOINTS[k].0 := NEUTRAL_JOINTS[k].1
  }

  /** With no joint feedback at all the coded test reports neutral, while the
      intended test does not: the two disagree exactly on lookups that lack a
      reference joint. */
  lemma EmptyLookupCountsAsNeutral()
    ensures InNeutral(map[])
    ensures !AtNeutralAsIntended(map[])
  {
    var empty: map<string, real> := map[];
    assert NEUTRAL_JOINTS[0].0 !in empty;
  }

  /** The two tests agree on every lookup that knows all reference joints, and
      the intended test is never more permissive than the coded one. */
  lemma CodedAndIntendedNeutralAgreeWhenKnown(lookup: map<string, real>)
    ensures AtNeutralAsIntended(lookup) ==> InNeutral(lookup)
    ensures AllReferenceJointsKnown(lookup) ==> (InNeutral(lookup) <==> AtNeutralAsIntended(lookup))
  {
  }

  /** An arm resting exactly at the reference angles is neutral under both
      tests. */
  lemma ReferenceAnglesAreNeutral()
    ensures AtNeutralAsIntended(NeutralLookup())
    ensures InNeutral(NeutralLookup())
  {
    var lookup := NeutralLookup();
    forall k | 0 <= k < |NEUTRAL_JOINTS|
      ensures NEUTRAL_JOINTS[k].0 in lookup && Abs(lookup[NEUTRAL_JOINTS[k].0] - NEUTRAL_JOINTS[k].1) <= JOINT_POSITION_TOLERANCE
    {
      assert lookup[NEUTRAL_JOINTS[k].0] - NEUTRAL_JOINTS[k].1 == 0.0;
    }
  }

  /** Feedback that reports only joints outside the reference set leaves the
      verdict of the neutral test unchanged. */
  lemma UnrelatedJointsKeepVerdict(lookup: map<string, real>, names: seq<string>, positions: seq<real>)
    requires |names| == |positions|
    requires forall i :: 0 <= i < |names| ==> forall k :: 0 <= k < |NEUTRAL_JOINTS| ==> names[i] != NEUTRAL_JOINTS[k].0
    ensures InNeutral(Overwrite(lookup, names, positions)) == InNeutral(lookup)
  {
    var updated := Overwrite(lookup, names, positions);
    forall k | 0 <= k < |NEUTRAL_JOINTS|
      ensures OffReference(updated, NEUTRAL_JOINTS[k]) == OffReference(lookup, NEUTRAL_JOINTS[k])
    {
      assert NEUTRAL_JOINTS[k].0 !in names;
    }
  }
}
