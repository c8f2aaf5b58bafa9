# The motion pipeline of the Hubo robot: model and proofs

This project models the path a motion takes through the Hubo software, from waypoints to frames on the CAN buses, and
proves that it keeps its promises. `dafny verify dfyconfig.toml` checks everything.

| module | file | models |
|---|---|---|
| `NatArith`, `RealArith`, `PathTypes` | NatArith.dfy, RealArith.dfy, PathTypes.dfy | exact arithmetic; trajectory elements, parameters and limits |
| `SplineMath`, `SplineInterpolation` | SplineMath.dfy, Spline.dfy | the cubic-eased spline between waypoints |
| `Saturation`, `SaturationEnd`, `SaturationRange`, `SaturationVisits`, `SaturationLoop` | Saturate.dfy, SaturateEnd.dfy, SaturateRange.dfy, SaturateVisits.dfy, SaturateLoop.dfy | upsampling a trajectory under speed and acceleration limits; where the result ends, whether it stays among the waypoints, how it visits them, and the rules that determine it |
| `PathTrajectory` | Trajectory.dfy | the trajectory object, its interpolation modes and its limit checker |
| `PathVelocity`, `SegmentLookup` | PathVelocity.dfy, SegmentLookup.dfy | the feasibility test of the time-optimal planner; its cached lookup by time |
| `TrajectoryTransfer`, `TransferLoops`, `TransferEndings` | Transfer.dfy, TransferLoops.dfy, TransferEndings.dfy | sending a trajectory in chunks between two processes over lossy channels; the two loops inside a run, and how they end |
| `TrajectoryPlayer`, `PlayerSteps`, `Playback` | Player.dfy, PlayerSteps.dfy, Playback.dfy | loading, checking and playing trajectories; what each step does; the player at the end of transfers |
| `CommandBuffer` | CommandBuffer.dfy | the packed command buffer and its bitmap compression |
| `JointCommanding`, `CommandAggregation` | Commander.dfy, Aggregator.dfy | many commanders and the aggregator that gives each joint one owner |
| `Clocks`, `CanBusPump`, `CanCycles` | Clock.dfy, CanPump.dfy, CanCycle.dfy | the CAN cycle: queues drained before a deadline; a cycle's whole effect on a channel |
| `TextComponents`, `ConfigManagement` | TextComponents.dfy, ConfigManager.dfy | the process manager's rosters and saved configurations |

Objects that change in place are classes; each method is proved against a function or a relation on the object's value,
and the main results are lemmas about those. Events from outside (reads that fail, frames that are lost, clocks,
instructions, directory orders) are arguments over which every result is quantified.

## Main results

- **Spline.** With sound limits, the checker, acceleration included, accepts an interpolated spline if and only if the
  waypoints are within the position limits. Every segment has the least number of samples with which all joints keep
  their limits.
- **Saturation.** The loop ends exactly when every element that asks a joint with a zero speed limit to move also asks a
  joint with a zero acceleration limit to move, and so is passed over; with positive speed limits it always ends. The
  output starts where the input does and keeps every speed limit. It keeps the acceleration limits of any number of
  joints when the input lies on a straight line; it keeps them on every input if and only if at most one joint is mapped,
  and a concrete family of two-joint inputs breaks them. It ends at the last waypoint if and only if that is one allowed
  step from what the loop makes of the other waypoints. It changes nothing if and only if the input starts from rest and
  keeps every limit. It stays within any bounds of its waypoints when the joints may accelerate enough to turn, and then
  the checker accepts it; it then visits every waypoint in turn, each step going straight towards the waypoint aimed at
  as far as the speed limits allow. For one joint the limits under which every input stays inside are stated exactly. For
  any limits the output is the only one that obeys a few rules about its steps, its turns and its end. Going forward
  only, it never leaves the bounds of its waypoints.
- **Time-optimal planner.** A path velocity is on or below the computed curve if and only if some path acceleration
  respects every joint; then the computed minimum and maximum enclose exactly the accelerations that do.
- **Transfer.** Under any loss, timeout, failure or cancel the receiver holds a whole-chunk prefix, and all of the
  trajectory when either side reports success. Without loss both sides succeed after exactly the chunks needed, and the
  run cannot get stuck or go on for longer. In every run each side's part is what its own loop does with the answers its
  reads got, so the claims are about the two loops. Each of their results, success and every failure, is characterised
  exactly by what the reads bring.
- **Player.** In every run, consecutive commands of a claimed joint are one speed-limited tick apart, and so is the
  first command from the joint's starting reference. As long as it is told the same, what it has commanded after n steps
  is given in closed form. Fed by transfers, whatever is lost on them, the player only ever
  plays what interpolating one of the sent trajectories gives.
- **Commands.** Compression is invisible to the aggregator; ownership over any history is a fold per joint; messages
  about different joints commute; nobody but the owner changes an owned joint without claiming it. What a message does
  to a joint, its record byte by byte and its owner, is stated in full.
- **CAN cycle.** A cycle with its deadline ahead sends every queued frame exactly once, in order, and ends empty; no
  frame and no reply goes missing in any run. A cycle's whole effect on a channel, failing cycles included, is given by
  the rounds there is time for, the first one that fails and the frames that arrive.
- **Configurations.** Saving, then any run that neither saves nor deletes that configuration, then loading, restores
  both rosters if and only if every saved entry was portable. Loading `last_config` keeps the rosters if and only if it
  does not exist or they are portable.

## Where the code differs from what it says or seems to promise

- The sender prints that it will not send the trajectory when no readiness arrives, and then sends it
  (HuboPath/src/hubo_path.cpp:71-82). `SendsUnreadyIff` states exactly when that happens, and `SilenceStillSends` is an
  input.
- With custom limits and a loaded description the limit check goes through 64 joints and looks up the name of each,
  claimed or not, in the description's joint table, which both robots under devices/ have fewer entries in
  (HuboPath/src/Trajectory.cpp:129-161). `ChecksInBoundsIff` and `MapsInBoundsIff` state exactly which inputs keep every
  lookup of the check and of the interpolation inside the table, `CustomLimitsOverrun` is an input that does not, and
  every result about checking or interpolating asks for what it needs of the two and no more.
- A release for a joint nobody owns makes the sender its owner (HuboCmd/src/Aggregator.cpp:309-313). `CommandTakesEffectIff`
  states it, and `ReleasedStaysFree` shows that the commander is saved from it because it sends each release once.
- Saturating several joints can break an acceleration limit (`ConflictBreaksAcceleration`).
- Saturating need not reach the last waypoint, with a single joint too: `EndsAtLastWaypointIff` states exactly when it
  does, and `SlowStartFallsShort` is an input on which it does not.
- Saturating can overshoot every waypoint (`SuddenStopOvershoots` is an input). `OneJointStaysInsideIff` states exactly
  which limits of a single joint rule that out for every input, and `RoomyStaysInside` limits of any number of joints
  that do.
- Saturating need not end (`TerminatesExactlyWhenComplete`; `NoSpeedNeverEnds` is an input).
- The two size functions of a command buffer disagree on a compression flag that is neither 0 nor 1 (`SizesAgree` states
  exactly when, `FlagTwoSplitsSizes` is an input).
- Loading `last_config` first saves the current rosters over it, and so loads those instead of the rosters it held
  (`LoadingLastConfigKeepsIff`). The rosters it held come back exactly when the current ones, with each file cut down to
  the components of its first line, are the same (`LastConfigComesBackIff`): for portable rosters, exactly when nothing
  has changed. `OlderRostersStayAway` is a run in which they do not, and `TrimmedRostersComeBack` a load in which they do.
- A roster entry whose text does not end with a colon does not survive saving and loading (`LoadRestoresExactlyPortable`
  states exactly which do, `UnterminatedFileIsLost` is an input).
- The CAN send loop never ends when less than a nanosecond is left for each frame and nothing fails (`LoopEndsIff`;
  `OneNanosecondForTwoFrames` is an input).
- A negative increment can leave a clock's nanoseconds negative (`IncrementIsExact` states exactly when,
  `GoingBackIsNotNormal` is an input).

## Model

| member | source | states |
|---|---|---|
| SplineInterpolation.JointTicksLeast | HuboPath/interpolation/Spline.cpp:110-152 | the ticks computed for a joint are the least number that respects both its speed and its acceleration limit |
| SplineMath.SegmentSpeed | HuboPath/interpolation/Spline.cpp:58-75 | a segment with enough ticks keeps the speed limit at every sample |
| SplineMath.SegmentAcceleration | HuboPath/interpolation/Spline.cpp:58-75 | inside a segment second differences keep the acceleration limit |
| SplineMath.SegmentEnds | HuboPath/interpolation/Spline.cpp:58-75 | the first and last step of a segment use at most half of the acceleration limit, which is what makes waypoints safe |
| SplineInterpolation.PlanKeepsSpeed | HuboPath/interpolation/Spline.cpp:33-75 | the speed limit holds between any two consecutive outputs of a whole spline |
| SplineInterpolation.PlanKeepsAcceleration | HuboPath/interpolation/Spline.cpp:33-75 | the acceleration limit holds at every interior output, second differences across waypoints included |
| SplineInterpolation.PlanKeepsPosition | HuboPath/interpolation/Spline.cpp:58-75 | bounds on the waypoints bound every output |
| SplineInterpolation.SegmentMapLocatesWaypoints | HuboPath/interpolation/Spline.cpp:33-42 | output 0 is waypoint 0, output map[i]-1 is waypoint i, and the map strictly increases |
| SplineInterpolation.SegmentHoldsSample | HuboPath/interpolation/Spline.cpp:154-163 | the segment returned for a sample is the one that holds it, and the sample lies on the line between that segment's waypoints |
| SplineInterpolation.PlanIsLeast | HuboPath/interpolation/Spline.cpp:77-108 | with non-zero limits a number of samples is at least a segment's own if and only if it is enough for every joint: segments are never too short and never longer than needed |
| SplineMath.EnoughTicksMeans | HuboPath/interpolation/Spline.cpp:110-152 | what enough means, spelled out: n ticks at frequency f are enough for a displacement d when 3df is at most 2nv and 6dff at most nna |
| SplineInterpolation.PlanForIsAmple | HuboPath/interpolation/Spline.cpp:77-108 | the slowest joint's ticks are enough for every joint in every segment |
| SplineInterpolation.Spline.constructor | HuboPath/interpolation/Spline.cpp:8-56 | the error exactly for limits or waypoints of the wrong size or a zero limit; and in every case the output and segment map, built up to the first waypoint of the wrong size |
| SplineInterpolation.Spline.InterpolateNextStep | HuboPath/interpolation/Spline.cpp:58-75 | appends exactly one segment's eased samples; a single one once an error has been met |
| SplineInterpolation.Spline.GetMinimumTicks | HuboPath/interpolation/Spline.cpp:77-108 | the maximum of the ticks of the joints before the first zero limit, and 0 once an error has been met |
| SplineInterpolation.Spline.GetPathSegmentIndex | HuboPath/interpolation/Spline.cpp:154-163 | the segment index whose map entries enclose the time step |
| Saturation.TerminatesExactlyWhenComplete | HuboPath/src/Trajectory.cpp:433-546 | for any limits that are not negative the loop ends if and only if every element that asks a joint with a zero speed limit to move is passed over, because it asks a joint with a zero acceleration limit to move too |
| Saturation.CompletesMeansStill | HuboPath/src/Trajectory.cpp:433-546 | with positive acceleration limits that means that no joint with a zero speed limit is asked to move |
| Saturation.SaturatedKeepsSpeed | HuboPath/src/Trajectory.cpp:427-465 | the first element is kept and every consecutive pair respects every joint's speed limit |
| Saturation.StraightKeepsAcceleration | HuboPath/src/Trajectory.cpp:435-542 | when all elements lie on one straight line, every joint's acceleration limit is kept at every interior point, for any number of joints |
| Saturation.SaturatedKeepsAcceleration | HuboPath/src/Trajectory.cpp:435-542 | with at most one joint, every interior point respects its acceleration limit |
| Saturation.ConflictBreaksAcceleration | HuboPath/src/Trajectory.cpp:453-542 | a concrete input with two or more joints whose output breaks an acceleration limit |
| Saturation.AccelerationKeptIffOneJoint | HuboPath/src/Trajectory.cpp:385-549 | the acceleration guarantee holds for every input if and only if at most one joint is mapped |
| Saturation.SaturatedIsIdentity | HuboPath/src/Trajectory.cpp:385-549 | the output equals the input if and only if the input starts from rest and keeps every limit |
| SaturationEnd.EndsAtLastWaypointIff | HuboPath/src/Trajectory.cpp:433-548 | for any number of joints the output ends at the last waypoint if and only if that is one allowed step, in speed and acceleration, from the output for the waypoints before it, and then that step is all it adds |
| SaturationEnd.CompliantEndsAtLastWaypoint | HuboPath/src/Trajectory.cpp:433-548 | an input from rest that keeps every limit ends at its last waypoint |
| SaturationEnd.SlowStartFallsShort | HuboPath/src/Trajectory.cpp:497-546 | a one-joint input whose output ends short of the last waypoint |
| SaturationEnd.NoSpeedNeverEnds | HuboPath/src/Trajectory.cpp:433-495 | a one-joint input with a zero speed limit on which the loop never ends |
| SaturationRange.RoomyStaysInside | HuboPath/src/Trajectory.cpp:433-548 | with enough acceleration to turn from any allowed move to any move within bounds that hold the waypoints, the output stays within those bounds |
| SaturationRange.OneJointStaysInsideIff | HuboPath/src/Trajectory.cpp:433-548 | for one joint every output stays within the bounds of its waypoints if and only if it has no acceleration, or a speed limit that it can lose in one step, or bounds no wider than such a step |
| SaturationRange.SuddenStopOvershoots | HuboPath/src/Trajectory.cpp:497-546 | a one-joint input whose output goes beyond every waypoint |
| SaturationVisits.RoomySaturatedTours | HuboPath/src/Trajectory.cpp:433-548 | with room to turn every step goes straight towards the waypoint aimed at, all the way or until some joint is at its speed limit; the aim turns to the next waypoint as soon as this one is a step away, and not before |
| SaturationVisits.RoomyVisitsEveryWaypoint | HuboPath/src/Trajectory.cpp:473-495 | with room to turn there are strictly increasing indices of the output, one for each waypoint, of elements at most one speed-limited step away from it |
| SaturationLoop.SaturatedInRounds | HuboPath/src/Trajectory.cpp:433-546 | for any limits under which the loop ends: each round steps straight towards its goal as far as the speed limits allow, aims at the next waypoint exactly when it is near its goal, and bends the way on by the largest fraction of the change of speed that the acceleration limits allow; it ends near its goal with the waypoints used up |
| SaturationLoop.RoundsDetermineOutput | HuboPath/src/Trajectory.cpp:433-546 | those rules leave no freedom: an output that follows them to their end is the saturated one |
| SaturationLoop.ForwardStaysInside | HuboPath/src/Trajectory.cpp:512-541 | going forward only, the output stays within any bounds of its waypoints, whatever the limits |
| Saturation.LimitScaleFits | HuboPath/src/Trajectory.cpp:435-451 | the common scale brings every joint within its limit |
| Saturation.LimitScaleIsForced | HuboPath/src/Trajectory.cpp:435-451 | a scale below 1 is no smaller than some joint's limit demands |
| Saturation.Saturate | HuboPath/src/Trajectory.cpp:385-549 | the in-place loop computes the saturated trajectory, and ends |
| PathTypes.FrequencyMeans | HuboPath/src/Trajectory.cpp:138-144 | a loaded description's frequency wins over the trajectory's, and 200 stands for 0 |
| PathTypes.MapsInBoundsIff | HuboPath/src/Trajectory.cpp:46-64 | exactly when every entry of the joint table that interpolating looks up exists; with fewer than two elements or a raw trajectory it looks nothing up |
| PathTypes.ChecksInBoundsIff | HuboPath/src/Trajectory.cpp:120-166 | exactly when every entry of the joint table that checking looks up exists and no joint gone through is beyond the bitmap |
| PathTypes.RawMayClaimMore | HuboPath/src/Trajectory.cpp:48-54 | a raw trajectory that claims a joint the robot does not have keeps every lookup in bounds |
| PathTypes.CustomLimitsOverrun | HuboPath/src/Trajectory.cpp:129-161 | with custom limits and a loaded description of 38 joints the check looks up entry 38 |
| PathTrajectory.CheckMeans | HuboPath/src/Trajectory.cpp:118-227 | the checker accepts if and only if limits are known and every claimed joint keeps its position, speed and, if asked for, acceleration limit at every element where they apply, within a millionth |
| PathTrajectory.SplinedIsLeast | HuboPath/src/Trajectory.cpp:334-377 | a splined trajectory eases every claimed joint from waypoint to waypoint, and between two of them has the fewest samples, and at least one, with which every claimed joint keeps its nominal limits |
| PathTrajectory.SplineFailsIff | HuboPath/src/Trajectory.cpp:352-357 | a spline between at least two waypoints fails if and only if a claimed joint has a nominal limit of zero |
| PathTrajectory.SplinedElsewhere | HuboPath/src/Trajectory.cpp:334-377 | a spline clears every unclaimed joint and leaves a raw trajectory with the same parameters |
| PathTrajectory.ModesMean | HuboPath/src/Trajectory.cpp:46-104 | which trajectories interpolation leaves alone, splines, saturates, refuses, or hands to the time-optimal planner |
| PathTrajectory.SaturatesToMaximum | HuboPath/src/Trajectory.cpp:562-588 | saturating goes by the maximum, not the nominal, limits of every claimed joint, and may go backwards |
| PathTrajectory.SplinePassesChecker | HuboPath/src/Trajectory.cpp:118-227 | after spline interpolation the checker with accelerations accepts if and only if the waypoints respect the position limits |
| PathTrajectory.SaturatePassesChecker | HuboPath/src/Trajectory.cpp:562-588 | after saturating, the checker without accelerations can reject nothing but a position |
| PathTrajectory.RoomySaturatePasses | HuboPath/src/Trajectory.cpp:562-588 | when every claimed joint may accelerate enough to turn, the checker accepts the saturated trajectory whenever its waypoints are within the position limits |
| PathTrajectory.Trajectory.CheckLimits | HuboPath/src/Trajectory.cpp:118-227 | true exactly when limits are known and every claimed joint of every element is within them |
| PathTrajectory.Trajectory.Interpolate | HuboPath/src/Trajectory.cpp:46-104 | replaces elements and parameters as the mode says, or fails and reports it |
| PathTrajectory.Trajectory.GetActiveIndices | HuboPath/src/Trajectory.cpp:229-239 | the set bits of the bitmap, in increasing order |
| PathVelocity.MinMaxIsExact | HuboPath/interpolation/Trajectory.cpp:442-454 | a path acceleration respects every moving joint if and only if it is between the two computed bounds |
| PathVelocity.CurveIsExact | HuboPath/interpolation/Trajectory.cpp:460-482 | a path velocity is at or below the curve if and only if some path acceleration respects every joint's limit |
| PathVelocity.SpanBelowCurve | HuboPath/interpolation/Trajectory.cpp:442-482 | below the curve the minimum is at most the maximum and what is between them is feasible |
| PathVelocity.GetMinMaxPathAcceleration | HuboPath/interpolation/Trajectory.cpp:442-454 | the loop computes the tightest of the joints' bounds |
| PathVelocity.GetAccelerationMaxPathVelocity | HuboPath/interpolation/Trajectory.cpp:460-482 | the nested loop computes the square of the curve |
| PathVelocity.GetVelocityMaxPathVelocity | HuboPath/interpolation/Trajectory.cpp:485-492 | a path velocity is at or below the result if and only if every joint keeps its speed limit |
| SegmentLookup.PlannedTrajectory.GetTrajectorySegment | HuboPath/interpolation/Trajectory.cpp:521-537 | with the cache in any state a query leaves it in, the first step later than the query |
| SegmentLookup.FirstAfterIsUnique | HuboPath/interpolation/Trajectory.cpp:521-537 | that step is the only one whose time is later while its predecessor's is not |
| TrajectoryTransfer.ChunksAreFull | HuboPath/src/hubo_path.cpp:78-95 | every chunk but the last holds a hundred elements, and the last at least one |
| TrajectoryTransfer.JoinedIsPrefix | HuboPath/src/hubo_path.cpp:78-95 | the first k chunks put together are a prefix, and all of them the whole trajectory |
| TrajectoryTransfer.TransferIsSafe | HuboPath/src/hubo_path.cpp:40-239 | in every run the receiver holds a whole-chunk prefix; success on either side means all elements and the parameters arrived |
| TrajectoryTransfer.NextInv | HuboPath/src/hubo_path.cpp:40-239 | every step of either side, or of a canceling user, keeps the joint invariant |
| TrajectoryTransfer.LosslessTransferSucceeds | HuboPath/src/hubo_path.cpp:78-139 | without loss no run gets stuck or is longer than 3T+2 steps, and a run of that length succeeds on both sides after exactly T chunks |
| TransferLoops.SenderFollowsLoop | HuboPath/src/hubo_path.cpp:40-142 | in every run the sender and the chunks it put are what its loop makes of the answers its reads got |
| TransferLoops.ReceiverFollowsLoop | HuboPath/src/hubo_path.cpp:144-239 | in every run the receiver and its reports are what its loop makes of the answers its reads got |
| TransferLoops.LoopsAreSafe | HuboPath/src/hubo_path.cpp:40-239 | in every run, when the send loop reports success the receive loop has returned success with all elements and the parameters, and it always holds a whole-chunk prefix |
| TransferLoops.SendsUnreadyIff | HuboPath/src/hubo_path.cpp:55-97 | the sender puts a chunk without readiness if and only if there is something to send and it read as often as its patience allows, without readiness and without a failed read |
| TransferLoops.SilenceStillSends | HuboPath/src/hubo_path.cpp:55-97 | an input: one element, no waiting time and nobody there |
| TransferEndings.ReceiverResultIff | HuboPath/src/hubo_path.cpp:144-239 | from the reads alone: the receive loop goes on while each read brings the next chunk in order; it ends with a timeout, a failure, a cancel, a missing chunk or success exactly when the first read that stops it is no frame, a failed or frame-skipping one, a cancel, another chunk or the last one, and reports accordingly |
| TransferEndings.SenderResultIff | HuboPath/src/hubo_path.cpp:40-142 | from the reads alone: each result of the send loop, from the first failing read while it waits for readiness and the first chunk that is not acknowledged; and the chunks it has put by then |
| TrajectoryTransfer.PackChunk | HuboPath/src/hubo_path.cpp:84-95 | the packing loop fills the chunk with the next elements |
| TrajectoryTransfer.SendTrajectory | HuboPath/src/hubo_path.cpp:40-142 | whatever its reads yield, the loop ends and puts as the sender's steps do |
| TrajectoryTransfer.ReceiveTrajectory | HuboPath/src/hubo_path.cpp:144-239 | whatever its reads yield, the loop ends and reports as the receiver's steps do |
| TrajectoryPlayer.AcceptedIsSound | HuboPath/src/Player.cpp:170-241 | a loaded trajectory passed the checker and starts where the joints are |
| TrajectoryPlayer.StepInv | HuboPath/src/Player.cpp:243-370 | every step keeps the player's invariant |
| TrajectoryPlayer.EveryRunIsSafe | HuboPath/src/Player.cpp:184-386 | in every run consecutive commands, and the first one from the start, are within one speed-limited tick; what is loaded has passed the check and the index stays in range; quit means no trajectory |
| Playback.DeliveredIsSent | HuboPath/src/hubo_path.cpp:144-239 | whatever a transfer delivers is the whole trajectory sent, with its parameters |
| Playback.PlayedWasSent | HuboPath/src/Player.cpp:170-241 | in every run fed by transfers what is loaded is what interpolating one of the sent trajectories gives, and every element commanded is one of its elements |
| TrajectoryPlayer.ReverseRetraces | HuboPath/src/Player.cpp:345-360 | reversing as many steps as were run commands the same elements backwards |
| PlayerSteps.PlaysInClosedForm | HuboPath/src/Player.cpp:330-370 | told the same for n acting steps, the player is n elements further on, n further back or where it was, but never beyond either end, and has commanded every element on its way; steps that do not act change nothing |
| PlayerSteps.LoadedThenPlayed | HuboPath/src/Player.cpp:268-370 | from a load to be run on, the commands are the elements from the second to the last, which is repeated; from a load alone, the first element again and again |
| PlayerSteps.LoadStep | HuboPath/src/Player.cpp:268-298 | a load that is accepted replaces the trajectory and runs or pauses as told; one that is not leaves none and quits |
| PlayerSteps.IdleStep | HuboPath/src/Player.cpp:243-297 | without an updated state or time passed, and for a load that is not a new instruction, a step changes nothing |
| PlayerSteps.QuitStep | HuboPath/src/Player.cpp:299-307 | quitting drops the trajectory |
| PlayerSteps.BeginStep | HuboPath/src/Player.cpp:309-328 | once it has quit the player loads before it follows an instruction, and keeps the instruction until it can |
| PlayerSteps.AcceptedIff | HuboPath/src/Player.cpp:170-241 | a trajectory is accepted if and only if it was received, every commanded joint starts exactly where it is, and the interpolated trajectory passes the check; that is what is accepted |
| TrajectoryPlayer.Player.Step | HuboPath/src/Player.cpp:243-370 | the object's state after a step is the step function's, and it reports whether it could update |
| TrajectoryPlayer.Player.ReceiveIncomingTrajectory | HuboPath/src/Player.cpp:170-241 | loads the trajectory if and only if every test passes |
| CommandBuffer.PackedAt | HuboCmd/src/hubo_cmd_c.c:165-185 | a set joint's record sits at the joint's rank in the compressed buffer |
| CommandBuffer.CompressionRoundTrip | HuboCmd/src/hubo_cmd_c.c:136-192 | reading a compressed buffer gives each set joint its record and refuses the others; the count is the number of set joints; no byte beyond the reported size changes |
| CommandBuffer.SizesAgree | HuboCmd/src/hubo_cmd_c.c:109-134 | exactly when the two size functions agree |
| CommandBuffer.FlagTwoSplitsSizes | HuboCmd/src/hubo_cmd_c.c:359-381 | a buffer with a compression flag of 2 whose two sizes differ |
| CommandBuffer.UnregisteredIsUnique | HuboCmd/src/hubo_cmd_c.c:254-278 | unregistering released joints has only one possible outcome |
| CommandBuffer.WrittenRecord | HuboCmd/src/hubo_cmd_c.c:194-223 | setting one joint's command changes no other joint's record |
| CommandBuffer.ReadsWhatWasSet | HuboCmd/src/hubo_cmd_c.c:194-223 | setting is refused exactly for a joint that does not exist or a compressed buffer; otherwise reading any joint gives what was set, or what was there |
| CommandBuffer.OtherwiseCopiesOrRefuses | HuboCmd/src/hubo_cmd_c.c:136-192 | data compressed already is copied, reads the same and returns its size in bytes; a wrong header or too many joints are refused and change nothing |
| CommandBuffer.CommandData.GetJointCmd | HuboCmd/src/hubo_cmd_c.c:306-357 | the record found by rank or by position, or the error for a bad header, index or unset joint |
| CommandBuffer.CommandData.GetSize | HuboCmd/src/hubo_cmd_c.c:359-381 | the byte size by the count of set joints, or of all |
| CommandBuffer.Compress | HuboCmd/src/hubo_cmd_c.c:136-192 | the in-place compressor has the effect and returns the count of the specification |
| CommandAggregation.CollateMeans | HuboCmd/src/Aggregator.cpp:270-352 | a message changes each joint by the order it holds for that joint and by nothing else |
| CommandAggregation.CollatedJoint | HuboCmd/src/Aggregator.cpp:270-352 | what a message does to a joint in full: nothing unless the joint is free, the sender's or claimed; otherwise the output is the message's record byte for byte, with the mode zeroed for a claim or a release, and the sender owns the joint unless it released its own |
| CommandAggregation.CompressionIsInvisible | HuboCmd/src/Aggregator.cpp:270-352 | collating the compressed message gives the same owners and output |
| CommandAggregation.OwnershipIsPerJoint | HuboCmd/src/Aggregator.cpp:299-340 | over any history a joint's owner and output are the fold of the orders for that joint |
| CommandAggregation.OthersCannotInterfere | HuboCmd/src/Aggregator.cpp:299-340 | histories of other processes that never claim leave an owned joint as it is |
| CommandAggregation.CommandTakesEffectIff | HuboCmd/src/Aggregator.cpp:299-352 | exactly when a command takes effect, and who owns the joint afterwards |
| CommandAggregation.OutputNeverClaims | HuboCmd/src/Aggregator.cpp:342-352 | output modes are never claim or release |
| CommandAggregation.DisjointMessagesCommute | HuboCmd/src/Aggregator.cpp:270-352 | messages about different joints give the same result in either order |
| CommandAggregation.Aggregator.CollateInput | HuboCmd/src/Aggregator.cpp:270-283 | the loop's new table is the collation of the message |
| JointCommanding.CutOffIsFrame | HuboCmd/src/Commander.cpp:447-464 | the bytes sent are exactly the compressed form of the buffer |
| JointCommanding.FrameGivesTheOrders | HuboCmd/src/Commander.cpp:447-464 | the receiver of a frame reads the orders the commander had set |
| JointCommanding.ReleasesAreSentOnce | HuboCmd/src/Commander.cpp:447-464 | after a send the buffer holds the same orders less the releases |
| JointCommanding.ReleasedStaysFree | HuboCmd/src/Commander.cpp:130-166 | a joint released by its owner is free after the send and after the next one; repeating the release would take it back |
| JointCommanding.Commander.SendCommands | HuboCmd/src/Commander.cpp:447-464 | appends the frame to what was sent, one the aggregator can collate, and unregisters the released joints |
| Clocks.IncrementIsExact | HuboCan/src/CanPump.cpp:116-121 | an increment adds exactly its whole nanoseconds, and the clock stays normal exactly when they do not go below zero or land on a second |
| Clocks.NanosecondsMean | HuboCan/src/CanPump.cpp:116-121 | seconds become whole nanoseconds by dropping the fraction, towards zero for negative ones too |
| Clocks.GoingBackIsNotNormal | HuboCan/src/CanPump.cpp:116-121 | a negative increment that leaves a normal clock with negative nanoseconds |
| Clocks.DifferenceIsTotal | HuboCan/src/CanPump.cpp:128-133 | a difference has the sign and the size of the difference in nanoseconds |
| Clocks.ShareIsQuotient | HuboCan/src/CanPump.cpp:196-205 | the n-th part of a span advances a clock by the integer quotient |
| CanBusPump.IncrementsAddUp | HuboCan/src/CanPump.cpp:116-121 | k increments of a clock add k times the whole nanoseconds of one, so deadlines do not depend on when the cycles were run |
| CanBusPump.RepliesAreConserved | HuboCan/src/CanPump.cpp:94-114 | in every run lost plus awaited replies equal replies asked for less frames decoded |
| CanBusPump.FramesAreConserved | HuboCan/src/CanPump.cpp:225-241 | in every run the frames queued and sent are the frames there were and those added |
| CanBusPump.RoundsSendInOrder | HuboCan/src/CanPump.cpp:225-241 | k rounds send the first k frames of the order, requests first and the latest first, whatever arrives meanwhile |
| CanBusPump.RoundsAreRight | HuboCan/src/CanPump.cpp:195-211 | with a nanosecond for each frame the loop has at least as many rounds as frames, and ends when the time is up |
| CanBusPump.LoopEndsIff | HuboCan/src/CanPump.cpp:195-211 | the clock, incremented round by round, reaches the deadline or a round fails, if and only if no time is left, or there is a nanosecond for each frame, or some round would fail |
| CanBusPump.OneNanosecondForTwoFrames | HuboCan/src/CanPump.cpp:195-211 | with one nanosecond for two frames the clock is short of the deadline after any number of rounds |
| CanBusPump.CycleDrains | HuboCan/src/CanPump.cpp:138-223 | a cycle with time ahead sends each channel's frames exactly once in order, ends empty and awaits nothing |
| CanBusPump.EmptyExactlyWhenTimeAhead | HuboCan/src/CanPump.cpp:178-220 | a cycle that is neither skipped nor failed empties every queue if and only if there was nothing to send or time ahead |
| CanCycles.CycleInFull | HuboCan/src/CanPump.cpp:190-223 | a cycle with frames to send: each round sends the next frame of every channel until the time is up or a round fails; arriving frames are no longer awaited, what is still awaited at the end is lost, and after a failure nothing is reset |
| CanCycles.QuietCycleInFull | HuboCan/src/CanPump.cpp:212-223 | a cycle with nothing to send waits once, and succeeds even when the wait fails |
| CanCycles.SkippedIff | HuboCan/src/CanPump.cpp:165-188 | a cycle does nothing exactly when its deadline has passed and what some channel expects to transfer, at 108 bits a frame, exceeds the bits of the time left |
| CanCycles.UpdatesAreQueued | HuboCan/src/CanPump.cpp:94-114 | the devices' frames are queued in their order, as requests with the replies awaited or as commands |
| CanCycles.ReversedAt | HuboCan/src/CanPump.cpp:225-241 | the last frame queued is the first one sent |
| CanBusPump.CanPump.SendNextFrames | HuboCan/src/CanPump.cpp:225-241 | every channel sends the last of its requests, or else of its commands |
| CanBusPump.CanPump.Pump | HuboCan/src/CanPump.cpp:142-223 | a cycle's effect on channels, deadline, error and result, refusals, skipping and failures included |
| TextComponents.SplitComponents | HuboRT/src/utils.cpp:42-54 | the loop finds exactly the components that a delimiter ends |
| TextComponents.ComponentsOfTerminated | HuboRT/src/utils.cpp:42-54 | components written with delimiters are read back |
| TextComponents.TerminatedOfComponents | HuboRT/src/utils.cpp:42-54 | text is written back the same if and only if nothing follows its last delimiter |
| ConfigManagement.LoadRestoresExactlyPortable | HuboRT/src/Manager.cpp:651-785 | save, any run sparing the configuration, load: both rosters restored if and only if every saved entry was portable; last_config holds the rosters from before the load |
| ConfigManagement.UnterminatedFileIsLost | HuboRT/src/Manager.cpp:651-785 | a run that saves and loads a roster entry without a final colon and does not restore it |
| ConfigManagement.LoadsReadablyWhen | HuboRT/src/Manager.cpp:726-785 | when a load reads no label that stands alone: for last_config when no name breaks a line or a component |
| ConfigManagement.HeldRostersLoad | HuboRT/src/Manager.cpp:726-767 | from a configuration, in whatever order it lists them, rosters with plain names come back with each file cut down to the components of its first line, and portable ones unchanged |
| ConfigManagement.LoadWritesPortable | HuboRT/src/Manager.cpp:735-763 | a load of any text leaves only portable entries |
| ConfigManagement.LoadingLastConfigKeepsIff | HuboRT/src/Manager.cpp:726-785 | loading last_config leaves the rosters as they are if and only if it does not exist or every file in them is portable; with plain names every file is left with the components of its first line |
| ConfigManagement.LastConfigComesBackIff | HuboRT/src/Manager.cpp:726-785 | the rosters last_config held come back if and only if the current ones, so cut down, equal them; for portable ones, if and only if nothing has changed |
| ConfigManagement.OlderRostersStayAway | HuboRT/src/Manager.cpp:770-785 | a run that saves last_config, unregisters a process and loads last_config without getting it back |
| ConfigManagement.TrimmedRostersComeBack | HuboRT/src/Manager.cpp:770-785 | a load of last_config that ends with the rosters it held before |
| ConfigManagement.TrimmedIsSameIff | HuboRT/src/Manager.cpp:671-686 | a file survives saving and loading unchanged if and only if it is one line that is empty or ends with a colon |
| ConfigManagement.RunKeepsPortable | HuboRT/src/Manager.cpp:566-592 | rosters filled by one-line registrations are portable after every run |
| ConfigManagement.RegistersExactly | HuboRT/src/Manager.cpp:566-592 | for any description: too few components or a name no file can have change nothing; otherwise the file named by the first component holds the others, each with its colon, and nothing else changes |
| ConfigManagement.UnregisterUndoes | HuboRT/src/Manager.cpp:600-612 | unregistering undoes a registration under a new name, and nothing else |
| ConfigManagement.DeleteUndoes | HuboRT/src/Manager.cpp:720-724 | deleting undoes a save under a new name, and nothing else |
| ConfigManagement.SavedText | HuboRT/src/Manager.cpp:651-686 | the saved text: the label, the name and the first line of each file |
| ConfigManagement.Manager.Register | HuboRT/src/Manager.cpp:566-592 | writes the components after the name, or refuses too few |
| ConfigManagement.Manager.SaveConfig | HuboRT/src/Manager.cpp:651-669 | writes both rosters in some order and nothing else |
| ConfigManagement.Manager.LoadConfig | HuboRT/src/Manager.cpp:688-767 | clears and reloads both rosters from a configuration that exists, and otherwise changes nothing |

## Left out

- Floating point: doubles are exact reals, without rounding, infinities or NaN; the checker's slack is kept where the code has it.
- Square roots: the spline's tick count is the least number whose square is large enough, and the planner's curve is computed as its square.
- Machine integers: counts and identifiers do not wrap.
- The time-optimal integrators, switching points and blended paths: the planner's answer is an arbitrary input, and tangent and curvature are arbitrary vectors.
- PathTrajectory.Trajectory.Interpolate: in the time-optimal mode it takes the planner's answer as an argument.
- TrajectoryPlayer.EveryRunIsSafe: in the time-optimal mode it covers consecutive commands but not the first one, because the planner's first element is arbitrary.
- TrajectoryPlayer.Player.Step: asks that a received trajectory hold an element when a joint is commanded, because the program reads its references unguarded, that the lookups of a trajectory that gets as far as being interpolated and checked stay inside the tables, and that its saturation end.
- TrajectoryPlayer.Player.ReceiveIncomingTrajectory: asks the same as the step.
- `_densify`, which the program does not implement, fails as it does there; `original_vels` and `original_accels`, which it never uses, are absent.
- Saturation.Saturate: asks for limits that are not negative, because with a negative one the program divides by a speed that may be zero, and for the condition under which the loop ends (`TerminatesExactlyWhenComplete`). The forward-only variant, which the program never calls, is modelled, but its condition is sufficient only.
- SplineInterpolation.Spline.constructor: asks that the first waypoint have the second one's size when that is the limits' size, because the vector library aborts on their difference otherwise.
- CommandBuffer.CommandData.SetJointCmd: asks for a joint below 31, because the bit is set by shifting a 32-bit int; registering, unregistering and the commander ask the same of the joints they write. The robot may have up to 64 joints.
- CommandAggregation.CollateMeans: like every result about collating, it is about messages that set only joints below 31, whose bits the aggregator sets by such a shift; a commander sends no others (`SendCommands`).
- CanBusPump.CanPump.Pump: asks that its send loop end, by the clock or by a failure (`LoopEndsIff`); real time during waits is not modelled beyond the frames that arrive.
- ConfigManagement.Manager.LoadConfig: asks that no line of the text it reads be a roster's label alone, beyond which the program reads; names with a slash write no file, and failures of the file system are absent.
- The Player's quit marks joints released without sending; what commanding a joint does to the buffer is in `JointCommanding`.
- A chunk's header code, on which the receiver only prints.
- The Ach library, sockets, processes, sensors, the CAN devices' encodings, the description parser, the user interface, and printed text.
