/** The data a joint-space trajectory is made of (HuboPath/hubo_path_c.h). */
module PathTypes {

  /** Number of joint slots in every element, limit table and bitmap. */
  const JOINT_MAX: nat := 64

  /** Slack the limit checker allows on every comparison. */
  const EPS: real := 0.000001

  /** Frequency used when a trajectory carries none. */
  const DEFAULT_FREQUENCY: real := 200.0

  datatype Interp = Spline | Optimal | Densify | Saturate | Raw

  datatype JointLimits = JointLimits(
    minPosition: real, maxPosition: real,
    nominalSpeed: real, maxSpeed: real,
    nominalAccel: real, maxAccel: real)

  function Repeated<T>(x: T, n: nat): (s: seq<T>)
    ensures |s| == n && forall i :: 0 <= i < n ==> s[i] == x
  {
    seq(n, _ => x)
  }

  type References = s: seq<real> | |s| == JOINT_MAX witness Repeated(0.0, JOINT_MAX)

  /** A 64-bit word, one flag per joint. */
  type Bitmap = s: seq<bool> | |s| == JOINT_MAX witness Repeated(false, JOINT_MAX)

  type LimitTable = s: seq<JointLimits> | |s| == JOINT_MAX witness Repeated(NoLimits(), JOINT_MAX)

  function NoLimits(): JointLimits {
    JointLimits(0.0, 0.0, 0.0, 0.0, 0.0, 0.0)
  }

  datatype Element = Element(references: References, phaseIndex: nat)

  datatype Params = Params(
    frequency: real, interp: Interp, tolerance: real, bitmap: Bitmap,
    useCustomLimits: bool, limits: LimitTable)

  /** What `resize` fills a vector of elements with. */
  function ZeroElement(): Element {
    Element(Repeated(0.0, JOINT_MAX), 0)
  }

  /** What `memset(&params, 0, ...)` leaves behind. */
  function ZeroParams(): Params {
    Params(0.0, Spline, 0.0, Repeated(false, JOINT_MAX), false, Repeated(NoLimits(), JOINT_MAX))
  }

  datatype JointInfo = JointInfo(name: string, limits: JointLimits)

  /** The part of a robot description that trajectories consult. */
  datatype Description = Description(okay: bool, frequency: real, joints: seq<JointInfo>)

  function EffectiveFrequency(desc: Description, params: Params): real {
    var f := if desc.okay then desc.frequency else params.frequency;
    if f == 0.0 then DEFAULT_FREQUENCY else f
  }

  /** A loaded description's frequency wins over the trajectory's, and 200 stands for a frequency of 0. */
  lemma FrequencyMeans(desc: Description, params: Params)
    ensures desc.okay && desc.frequency != 0.0 ==> EffectiveFrequency(desc, params) == desc.frequency
    ensures !desc.okay && params.frequency != 0.0 ==> EffectiveFrequency(desc, params) == params.frequency
    ensures (if desc.okay then desc.frequency else params.frequency) == 0.0 ==>
      EffectiveFrequency(desc, params) == 200.0
  {}

  predicate KnowsLimits(desc: Description, params: Params) {
    desc.okay || params.useCustomLimits
  }

  /** Joints that the limit check goes through. */
  function JointCount(desc: Description, params: Params): nat {
    if params.useCustomLimits then JOINT_MAX else |desc.joints|
  }

  /** Interpolating looks up entry j of the description's joint table, for the limits of a claimed joint; fewer than two
      elements, and raw trajectories, are left as they are without a look. */
  predicate MappingLooksUp(desc: Description, params: Params, size: nat, j: nat) {
    && 2 <= size && params.interp != Raw && KnowsLimits(desc, params)
    && !params.useCustomLimits && j < JOINT_MAX && params.bitmap[j]
  }

  /** The limit check looks up entry j of the description's joint table, at least for the name of a joint that it goes
      through, claimed or not. */
  predicate CheckLooksUp(desc: Description, params: Params, size: nat, j: nat) {
    0 < size && desc.okay && j < JointCount(desc, params)
  }

  /** Every claimed joint has limits. */
  predicate Mappable(desc: Description, params: Params) {
    params.useCustomLimits || forall j :: 0 <= j < JOINT_MAX && params.bitmap[j] ==> j < |desc.joints|
  }

  /** Every joint that the check goes through has a bit, and a name where names are known. */
  predicate Checkable(desc: Description, params: Params) {
    if params.useCustomLimits then desc.okay ==> JOINT_MAX <= |desc.joints| else |desc.joints| <= JOINT_MAX
  }

  /** The program looks its tables up without a bounds check. This is what interpolating needs. */
  predicate MapsInBounds(desc: Description, params: Params, size: nat) {
    2 <= size && params.interp != Raw && KnowsLimits(desc, params) ==> Mappable(desc, params)
  }

  /** What checking needs. */
  predicate ChecksInBounds(desc: Description, params: Params, size: nat) {
    0 < size && KnowsLimits(desc, params) ==> Checkable(desc, params)
  }

  predicate Indexable(desc: Description, params: Params) {
    Mappable(desc, params) && Checkable(desc, params)
  }

  /** Exactly then every entry that interpolating looks up exists. */
  lemma {:induction false} MapsInBoundsIff(desc: Description, params: Params, size: nat)
    ensures MapsInBounds(desc, params, size)
      <==> forall j: nat :: MappingLooksUp(desc, params, size, j) ==> j < |desc.joints|
  {
    if 2 <= size && params.interp != Raw && KnowsLimits(desc, params) && !params.useCustomLimits {
      assert forall j: nat :: j < JOINT_MAX && params.bitmap[j] ==> MappingLooksUp(desc, params, size, j);
    }
  }

  /** Exactly then every entry that checking looks up exists, and no joint that it goes through is beyond the bitmap. */
  lemma {:induction false} ChecksInBoundsIff(desc: Description, params: Params, size: nat)
    ensures ChecksInBounds(desc, params, size) <==>
      && (forall j: nat :: CheckLooksUp(desc, params, size, j) ==> j < |desc.joints|)
      && (0 < size && KnowsLimits(desc, params) ==> JointCount(desc, params) <= JOINT_MAX)
  {
    if 0 < size && desc.okay && params.useCustomLimits && |desc.joints| < JOINT_MAX {
      assert CheckLooksUp(desc, params, size, |desc.joints|);
    }
  }

  /** With custom limits and a loaded description of fewer than 64 joints the check reads past the joint table: on a
      robot of 38 joints it looks up a name for joint 38. */
  lemma CustomLimitsOverrun(desc: Description, params: Params, size: nat)
    requires desc.okay && |desc.joints| == 38 && params.useCustomLimits && 0 < size
    ensures CheckLooksUp(desc, params, size, 38) && !ChecksInBounds(desc, params, size)
  {}

  /** A raw trajectory may claim a joint that the robot does not have: nothing is looked up for it. */
  lemma RawMayClaimMore(desc: Description, params: Params, size: nat)
    requires desc.okay && |desc.joints| == 38 && !params.useCustomLimits && params.interp == Raw && params.bitmap[40]
    ensures MapsInBounds(desc, params, size) && ChecksInBounds(desc, params, size) && !Mappable(desc, params)
  {
    assert params.bitmap[40] && |desc.joints| <= 40;
  }

  function LimitsOf(desc: Description, params: Params, j: nat): JointLimits
    requires j < JOINT_MAX && (params.useCustomLimits || j < |desc.joints|)
  {
    if params.useCustomLimits then params.limits[j] else desc.joints[j].limits
  }

  /** The set bits below `k`, in increasing order. */
  function ActiveBelow(bitmap: Bitmap, k: nat): (mapping: seq<nat>)
    requires k <= JOINT_MAX
    ensures forall i :: 0 <= i < |mapping| ==> mapping[i] < k && bitmap[mapping[i]]
    ensures forall i, i' :: 0 <= i < i' < |mapping| ==> mapping[i] < mapping[i']
    ensures forall j: nat :: j < k && bitmap[j] ==> j in mapping
  {
    if k == 0 then []
    else if bitmap[k - 1] then ActiveBelow(bitmap, k - 1) + [k - 1]
    else ActiveBelow(bitmap, k - 1)
  }

  function ActiveIndices(bitmap: Bitmap): (mapping: seq<nat>)
    ensures forall i :: 0 <= i < |mapping| ==> mapping[i] < JOINT_MAX && bitmap[mapping[i]]
    ensures forall i, i' :: 0 <= i < i' < |mapping| ==> mapping[i] < mapping[i']
    ensures forall j: nat :: j < JOINT_MAX && bitmap[j] ==> j in mapping
  {
    ActiveBelow(bitmap, JOINT_MAX)
  }

  predicate DistinctJoints(mapping: seq<nat>) {
    && (forall i :: 0 <= i < |mapping| ==> mapping[i] < JOINT_MAX)
    && (forall i, i' :: 0 <= i < i' < |mapping| ==> mapping[i] != mapping[i'])
  }

  /** Writes the first k values into the joint slots the mapping names. */
  function Patch(refs: References, mapping: seq<nat>, values: seq<real>, k: nat): References
    requires DistinctJoints(mapping) && |values| == |mapping| && k <= |mapping|
  {
    if k == 0 then refs else Patch(refs, mapping, values, k - 1)[mapping[k - 1] := values[k - 1]]
  }

  lemma {:induction false} PatchAt(refs: References, mapping: seq<nat>, values: seq<real>, k: nat, i: nat)
    requires DistinctJoints(mapping) && |values| == |mapping| && k <= |mapping| && i < |mapping|
    ensures Patch(refs, mapping, values, k)[mapping[i]] == if i < k then values[i] else refs[mapping[i]]
  {
    if 0 < k {
      PatchAt(refs, mapping, values, k - 1, i);
    }
  }

  lemma {:induction false} PatchElsewhere(refs: References, mapping: seq<nat>, values: seq<real>, k: nat, j: nat)
    requires DistinctJoints(mapping) && |values| == |mapping| && k <= |mapping| && j < JOINT_MAX && j !in mapping
    ensures Patch(refs, mapping, values, k)[j] == refs[j]
  {
    if 0 < k {
      PatchElsewhere(refs, mapping, values, k - 1, j);
    }
  }

  /** The values in the joint slots the mapping names. */
  function Pick(refs: References, mapping: seq<nat>): (values: seq<real>)
    requires DistinctJoints(mapping)
    ensures |values| == |mapping|
    ensures forall i :: 0 <= i < |mapping| ==> values[i] == refs[mapping[i]]
  {
    seq(|mapping|, i requires 0 <= i < |mapping| => refs[mapping[i]])
  }
}
