# libfranka, verified

libfranka is the C++ client of the Franka Control Interface: once a millisecond it receives the state of a robot arm over
UDP and sends the next command, while motions are started and stopped by requests over TCP. This project models the parts of
it that decide what is sent to the robot, and proves what they promise.

* **Rate limiters** (`RateLimiting`, `JointLimits`, `VectorRateLimiting`, `PoseRateLimiting`, `ElbowLimiting`). An inductive
  invariant shows that the scalar limiter keeps velocity, acceleration and jerk bounded over every infinite run of commands;
  the position, array, three-dimensional, twist and pose overloads build on it or have their own step and run theorems. Where
  a bound fails, there is a counterexample and the exact condition under which it holds.
* **Point-to-point generator** (`Ramp`, `Trajectory`, `Synchronisation`, `MotionGenerators`, `GeneratorRuns`). The quadratic
  that synchronises the joints always has the root the code selects, the common time is the least possible, the three
  polynomial phases fit together, and a generator driven by the control loop plans once and ends at its goal.
* **Load combination** (`Linear3`, `LoadCalculations`). Combining bodies is addition of moments, from which commutativity,
  associativity, shift invariance and positive semidefiniteness follow.
* **TCP framing** (`Framing`, `Network`). The incremental reassembler agrees with a reference reading of the whole stream,
  however the bytes are split, and under every command id the response that can be taken is the first one since the last
  that was taken.
* **Log ring** (`Logger`). The ring refines "the last n records since the last flush".
* **Motion protocol** (`RobotTypes`, `RobotLink`, `RobotImpl`, `ControlLoops`, `Robots`). The client state machine, the
  real-time loop and the objects that own the control lock, over every behaviour of the network. `LinkRefinement` connects
  the statuses the protocol works with to the messages of `Network` and its two receiving methods.

Objects whose methods change fields in the source are classes here; their methods are proved against functions on values, and
the properties are proved about those functions or as invariants. Doubles are `real`. `sqrt`, `sin` and `cos` are parameters
(`MathLib`) with the laws they are used by; infinite and NaN inputs are a separate constructor (`Double`), and a NaN that the
code computes itself is an option value. Message ids and times are unsigned 64-bit numbers with their wrap-around written out.
What the network does is given by finite scripts of events (`RobotLink.Link`), over which every theorem is quantified, and
the outcome of every operation of the protocol is a function of them; a script that has run out is a network that stays silent, and ends in a network failure. C++ exceptions are result values; the
three guards of `sendRobotCommand` are distinct failures, so that "no guard ever fires" can be stated. A user callback is a
function of everything it has been called with.

## Findings

* Far below the lower velocity limit the scalar limiter exceeds its acceleration limit, because the lower braking bound is
  applied last and not capped (src/rate_limiting.cpp:99-106): `AccelerationBoundIff`, `AccelerationBoundFailsFarBelow`.
* The three-dimensional limiter does not limit jerk when the distance to the maximal speed (or the acceleration limit) cuts
  the acceleration too far (src/rate_limiting.cpp:42-51). It keeps the limit exactly when the cut does not go below the
  shortest acceleration in that direction that is within one jerk step of the last one: `VectorJerkBoundIff`,
  `VectorJerkBoundInside`. At maximal speed the jerk has no bound at all: `VectorJerkIsUnboundedAtMaximalSpeed`.
* If the last velocity is outside the sphere of maximal speed and the line of the acceleration misses the sphere, the root at
  src/rate_limiting.cpp:38 is NaN and `std::min` then leaves the acceleration unlimited; if the sphere is too far behind, the
  braking bound is not capped: `VectorAccelerationBoundIff`, with the inputs in `AccelerationIsUnlimitedBesideTheSphere` and
  `AccelerationFailsFarOutside`.
* `startMotion` may return before the robot shows the requested modes, namely when the second response to its request, which
  ends the motion, comes in before a state that shows the modes (src/robot_impl.cpp:256-264). `StartMotion` gives its outcome
  as a function of what arrives; `ShownIff` is the condition on the scripts, before the call: for some n, the n-th accepted
  state is the first to show the modes, and the n reads before it bring no response to the request. `StartsTooEarly` is a run
  in which the modes are not shown, `OrderlyStart` and `OvertakenStart` are the two orders of arrival.
* The size check of `tcpReceiveResponse` compares with the size of an address (src/network.h:220) and never fires, since every
  stored message holds at least its header: `ShortResponseIsHandedOver`. The blocking receive compares with the size that is
  expected: `ShortResponseIsRefused`.
* src/control_loop.cpp:226 and :265 call the limiter with seven arguments, which selects the overload for velocities instead of
  positions; the limits and the elbow itself land in the wrong parameters. What is sent does not depend on the position of
  the elbow (`ElbowPositionIsIgnored`), and an elbow held still is sent to almost zero (`HeldElbowIsSentToZero`, `ElbowJumps`);
  it is kept where it is exactly at zero (`HeldElbowIff`).

## Model

| member | source | states |
|---|---|---|
| RateLimiting.MakeLimitsValid | src/rate_limiting.cpp:96-101 | Limits are usable by the run theorems exactly when lower <= upper, the jerk limit is positive and the jerk limit times one sample is at most the acceleration limit |
| RateLimiting.StepStaysWithin | src/rate_limiting.cpp:76-107 | From inside the velocity limits, for every command and every last acceleration, the next velocity is inside, the acceleration is bounded and respects both braking bounds |
| RateLimiting.InvariantEstablished | src/rate_limiting.cpp:76-107 | One step from inside the velocity limits establishes the inductive invariant |
| RateLimiting.StepIsAdmissible | src/rate_limiting.cpp:86-106 | Under the invariant the next acceleration meets the jerk, acceleration and braking bounds together |
| RateLimiting.JerkBoundIff | src/rate_limiting.cpp:86-106 | Inside the velocity limits the jerk bound holds for every command if and only if the last acceleration is within one jerk step of the braking interval |
| RateLimiting.AccelerationBoundIff | src/rate_limiting.cpp:95-106 | The acceleration bound holds exactly when the velocity is not further than max_acceleration squared over max_jerk below the lower limit |
| RateLimiting.AccelerationBoundFailsFarBelow | src/rate_limiting.cpp:99-106 | A concrete state and command for which the output exceeds the acceleration limit |
| RateLimiting.OutputIsNearest | src/rate_limiting.cpp:86-106 | Under the invariant the output is nearer to the command than every other velocity that meets all bounds |
| RateLimiting.AdmissibleCommandUnchanged | src/rate_limiting.cpp:86-106 | A command that meets all bounds is returned unchanged |
| RateLimiting.LimitIsIdempotent | src/rate_limiting.cpp:76-107 | Limiting a limited command changes nothing |
| RateLimiting.LimitIsMonotone | src/rate_limiting.cpp:76-107 | A larger command never gives a smaller output, in any state |
| RateLimiting.VelocityRunIsBounded | src/rate_limiting.cpp:76-107 | For every infinite sequence of commands fed back from a state of the invariant, velocity, acceleration and jerk limits hold at every step |
| RateLimiting.RestMeetsInvariant | src/rate_limiting.cpp:76-107 | A robot at rest is in the invariant whenever zero is an allowed velocity |
| RateLimiting.PositionRunRefinesVelocityRun | src/rate_limiting.cpp:109-125 | A run of the position overload is a run of the velocity overload on the finite differences of its commands |
| RateLimiting.PositionRunIsBounded | src/rate_limiting.cpp:109-125 | In every run the first three finite differences of the positions sent are within the velocity, acceleration and jerk limits |
| RateLimiting.RecoveryFromAbove | src/rate_limiting.cpp:95-106 | Above the upper limit every step brakes: the excess shrinks by the smaller of the braking slope and the acceleration limit, the acceleration stays bounded and the lower limit is not crossed |
| RateLimiting.RecoveryFromBelow | src/rate_limiting.cpp:95-106 | Below the lower limit the deficit shrinks at least by the factor 1 - k dt and the upper limit is not crossed |
| RateLimiting.DeficitDecays | src/rate_limiting.cpp:95-106 | From any start below the lower limit the deficit decays geometrically over every run |
| RateLimiting.ExcessDecays | src/rate_limiting.cpp:95-106 | From every start above the upper limit, in every run, the excess falls at least as fast as braking allows, the acceleration stays within its limit, and neither the start nor the lower limit is passed |
| RateLimiting.ExcessIsLinearFirst | src/rate_limiting.cpp:95-106 | That fall is linear, maxAcceleration times one sample in each step, until the braking slope takes over |
| RateLimiting.ExcessIsGeometricThen | src/rate_limiting.cpp:95-106 | Once the slope has taken over it stays so, and the excess decays geometrically |
| RateLimiting.ExcessPhases | src/rate_limiting.cpp:95-106 | After as many steps as the acceleration limit needs to use up the excess, every further step is in the geometric phase |
| JointLimits.PandaLimitsAreValid | include/franka/rate_limiting.h:50-70 | The constants of all seven joints satisfy the premises of the run theorems and leave room for three lost packets below the nominal limit |
| JointLimits.OnePacketMore | include/franka/rate_limiting.h:30-36 | Bridging packets at constant acceleration adds one acceleration step for each |
| JointLimits.PacketLossStaysWithinNominal | include/franka/rate_limiting.h:30-36 | From every state of the invariant, bridging up to three lost packets at constant acceleration stays within the nominal velocity less the tolerance |
| JointLimits.PacketLossInRuns | include/franka/rate_limiting.h:30-36 | The same at every step of every run from rest |
| JointLimits.LimitRateVelocities | src/rate_limiting.cpp:127-146 | Rejected exactly for a non-finite entry; otherwise each entry is the scalar limiter's output for its joint |
| JointLimits.LimitRatePositions | src/rate_limiting.cpp:148-168 | The same for positions |
| JointLimits.LimitRateTorques | src/rate_limiting.cpp:59-74 | Rejected exactly for a non-finite entry; otherwise each torque is the reachable one nearest to the command |
| JointLimits.NearestReachableIsUnique | src/rate_limiting.cpp:67-72 | The nearest reachable torque is unique, so the contract above determines the output |
| VectorRateLimiting.MakeVectorLimitsValid | src/rate_limiting.cpp:42-43 | Which limits the vector theorems apply to, in terms of the three numbers passed |
| VectorRateLimiting.DistanceFromInside | src/rate_limiting.cpp:34-39 | From inside the sphere of maximal speed the root exists, the distance is non-negative and leads onto the sphere |
| VectorRateLimiting.DistanceIsLastCrossing | src/rate_limiting.cpp:34-39 | From any velocity, the distance leads to the last point of the sphere on the line, and is NaN exactly if the line misses the sphere |
| VectorRateLimiting.ChordStaysInside | src/rate_limiting.cpp:41-52 | Going at most that distance along the unit acceleration stays inside the sphere |
| VectorRateLimiting.VectorStepIsBounded | src/rate_limiting.cpp:13-55 | From inside the maximal speed, for every command, the next speed and the norm of the acceleration are within their limits |
| VectorRateLimiting.VectorRunIsBounded | src/rate_limiting.cpp:13-55 | The same for every infinite sequence of commands |
| VectorRateLimiting.VectorAccelerationBoundIff | src/rate_limiting.cpp:37-52 | From any velocity, the acceleration limit holds exactly when the line meets the sphere not too far behind, or misses it and the acceleration was within its limit anyway |
| VectorRateLimiting.AccelerationIsUnlimitedBesideTheSphere | src/rate_limiting.cpp:34-52 | Moving too fast along one axis, with an acceleration along another that the command keeps, the limiter returns that acceleration, of any size |
| VectorRateLimiting.AccelerationFailsFarOutside | src/rate_limiting.cpp:34-52 | Far outside the sphere and accelerating outward, the output has the norm of the braking bound, above the acceleration limit |
| VectorRateLimiting.CommandedVectorAccelerationIsNear | src/rate_limiting.cpp:19-30 | The jerk-limited acceleration is within one jerk step of the last one |
| VectorRateLimiting.CommandedVectorAccelerationIsNearest | src/rate_limiting.cpp:19-30 | For a jerk that is not negligible, the jerk-limited acceleration is the one nearest to what the command asks for, of all that are within one jerk step of the last, and the only one |
| VectorRateLimiting.VectorStepGoesAlong | src/rate_limiting.cpp:32-52 | The step goes along that acceleration, as far as its own length, the acceleration limit and the braking bound allow and no less; all the way if the distance is NaN |
| VectorRateLimiting.TinyAccelerationIsDropped | src/rate_limiting.cpp:45-52 | An acceleration too small to have a direction leaves the velocity as it is |
| VectorRateLimiting.ShorteningIsNonexpansive | src/rate_limiting.cpp:45-52 | Cutting a vector to a ball brings it no further from any point of the ball |
| VectorRateLimiting.VectorJerkBoundIff | src/rate_limiting.cpp:13-55 | From every state and for every command, the jerk limit holds exactly when the bounds do not cut the acceleration below the shortest one in its direction that is within a jerk step of the last, or, for an acceleration too small to have a direction, when the last one is within a jerk step of zero |
| VectorRateLimiting.VectorJerkBoundInside | src/rate_limiting.cpp:13-55 | From within the speed and acceleration limits only the distance to the maximal speed can break the jerk limit: it holds exactly when the braking bound does not cut that far |
| VectorRateLimiting.VectorJerkIsBounded | src/rate_limiting.cpp:13-55 | In particular the jerk limit holds if the acceleration is only cut to its own limit |
| VectorRateLimiting.VectorJerkIsUnboundedAtMaximalSpeed | src/rate_limiting.cpp:42-51 | At maximal speed, keeping any acceleration that points outward is cut to zero at once, a jerk of any size |
| VectorRateLimiting.VectorCommandUnchanged | src/rate_limiting.cpp:13-55 | A command is returned unchanged whose jerk is zero or within the limit and whose acceleration is zero or not cut |
| PoseRateLimiting.RotationKeepsDot | src/rate_limiting.cpp:242-250 | Rotating two vectors by Rodrigues' formula about a unit axis keeps their scalar product |
| PoseRateLimiting.RodriguesIsRotation | src/rate_limiting.cpp:242-250 | The matrix built from a unit axis with sin^2 + cos^2 = 1 is orthogonal with determinant 1, fixes the axis and has trace 1 + 2 cos |
| PoseRateLimiting.RodriguesOwnCofactor | src/rate_limiting.cpp:242-250 | That matrix is its own matrix of cofactors |
| Linear3.ProperProduct | src/rate_limiting.cpp:239-251 | Turning a proper rotation by a proper rotation gives a proper rotation |
| PoseRateLimiting.LimitRateTwist | src/rate_limiting.cpp:170-195 | Rejected exactly for a non-finite entry; otherwise both halves are limited independently, each with its own limits |
| PoseRateLimiting.TwistRoundTrip | src/rate_limiting.cpp:183-194 | The two halves of a twist hold its six entries, the linear ones first |
| PoseRateLimiting.LimitedTwistIsBounded | src/rate_limiting.cpp:183-194 | From a twist within the speed limits, the limited twist is within the speed and acceleration limits |
| PoseRateLimiting.OrthogonalIsHomogeneous | include/franka/control_tools.h:36-57 | Every transform with an orthogonal matrix passes isHomogeneousTransformation |
| PoseRateLimiting.HomogeneousIff | include/franka/control_tools.h:36-57 | Exactly those transforms pass whose last row is that of the identity and whose matrix has columns and rows of squared length between 0.99999^2 and 1.00001^2 |
| PoseRateLimiting.IntegratedIsRigid | src/rate_limiting.cpp:239-255 | Following any twist from any pose gives a proper rotation part and a transform the library itself accepts |
| PoseRateLimiting.CommandIsReached | src/rate_limiting.cpp:219-252 | Following the commanded twist for one sample reaches the commanded pose, in translation and in rotation, but for a turn too small to have a direction |
| PoseRateLimiting.PoseCommandUnchanged | src/rate_limiting.cpp:197-256 | A commanded pose whose twist needs no limiting is what comes out |
| PoseRateLimiting.LimitRatePose | src/rate_limiting.cpp:197-256 | Rejected exactly for non-finite or non-homogeneous input; otherwise the output is the last pose moved by the limited twist, with rotational limits scaled by 0.99; a pose that needs no limiting is returned entry by entry |
| PoseRateLimiting.PoseStepIsBounded | src/rate_limiting.cpp:197-256 | From a twist within the limits, for every commanded pose, the output is rigid, its translation moves at most the maximal velocity times one sample, and it turns at most the maximal rotational velocity times one sample |
| PoseRateLimiting.PoseRunIsBounded | src/rate_limiting.cpp:197-256 | For every infinite sequence of commanded poses, with pose, twist and acceleration fed back from a twist within the speed limits: each pose sent is a proper rotation and a translation, moves and turns from the one before within the speed limits, and its twist is the difference of the translations and changes within the acceleration limits |
| PoseRateLimiting.TransformRoundTrip | src/rate_limiting.cpp:215-255 | A pose that is sent as a column-major transform and fed back is the same pose |
| PoseRateLimiting.PandaPoseLimitsAreValid | include/franka/rate_limiting.h:74-96 | The Cartesian constants satisfy the premises of the pose theorems and leave room for three lost packets below the nominal limits less the tolerance |
| ElbowLimiting.PositiveElbow | src/control_loop.cpp:225-227 | What the seven-argument call sends for a commanded elbow that is not negative: the last velocity, moved by a multiple of the commanded elbow |
| ElbowLimiting.NegativeElbow | src/control_loop.cpp:225-227 | What it sends for a negative one, where the jerk clamp is turned inside out |
| ElbowLimiting.ElbowPositionIsIgnored | src/control_loop.cpp:225-227 | The last position of the elbow has no influence on what is sent |
| ElbowLimiting.HeldElbowIsSentToZero | src/control_loop.cpp:225-227 | An elbow held still at any position is sent to at most 0.000003 of it, where the position overload would hold it |
| ElbowLimiting.HeldElbowIff | src/control_loop.cpp:225-227 | An elbow held still is sent to where it is exactly at zero |
| ElbowLimiting.ElbowJumps | src/control_loop.cpp:225-227 | An elbow held at half a radian is sent to below a thousandth of a radian |
| Trajectory.DesiredValueIsProgress | examples/examples_common.cpp:36-69 | The branches of calculateDesiredValues equal the sign of the distance times one progress function; a joint is reported finished exactly from t_f on, with its whole distance |
| Trajectory.PhasesMeet | examples/examples_common.cpp:48-64 | The three phases agree in value and velocity at t_1 and t_2, and the last ends at the goal at rest |
| Trajectory.SpeedUpStep | examples/examples_common.cpp:48-50 | Between any two times of the first phase the velocity rises at most at the start acceleration limit, and the distance lies between those at the lower and the higher velocity |
| Trajectory.SlowDownStep | examples/examples_common.cpp:53-60 | The same for the third phase, falling at most at the goal acceleration limit |
| Trajectory.ConstantStep | examples/examples_common.cpp:51-52 | Between the ramps the velocity is constant |
| Trajectory.MotionIsSmooth | examples/examples_common.cpp:36-69 | Between any two times the joint moves toward its goal by between nothing and the synchronised speed times the time, its velocity changes at most at the larger acceleration limit, and velocity is the derivative of the distance up to a quadratic error |
| Trajectory.MotionEndsAtGoal | examples/examples_common.cpp:61-64 | The motion starts and ends at rest, ends at the goal, and stays between start and goal with a velocity between zero and the synchronised speed |
| Synchronisation.ReachableSpeedFits | examples/examples_common.cpp:81-91 | dq_max_reach is positive, at most dq_max, and leaves room for both ramps |
| Synchronisation.SmallerRoot | examples/examples_common.cpp:96-103 | A quadratic that is not positive at a positive point has the smaller root that the code computes, positive and not beyond that point |
| Synchronisation.TimeAndQuadratic | examples/examples_common.cpp:96-107 | The quadratic is, up to a positive factor, the time a joint needs at a speed less the common time |
| Synchronisation.SynchronisedSpeedFits | examples/examples_common.cpp:94-111 | Given at least its own time, the discriminant is never negative, 0 < dq_max_sync <= dq_max_reach, and at that speed the joint takes exactly the common time |
| Synchronisation.SlowestKeepsSpeed | examples/examples_common.cpp:93-103 | The joint that determines the common time keeps its reachable speed |
| Synchronisation.RoomMeansReachable | examples/examples_common.cpp:81-91 | dq_max_reach is the largest speed within the limit that leaves room for both ramps |
| Synchronisation.OwnTimeIsOptimal | examples/examples_common.cpp:80-93 | No three-phase plan of a joint within its limits on speed and ramps takes less time than the joint's own time |
| Synchronisation.PlanIsConsistent | examples/examples_common.cpp:104-109 | The stored times and positions are those of a three-phase motion with 0 < t_1 <= t_2 < t_f |
| MotionGenerators.PlanIsSynchronised | examples/examples_common.cpp:94-111 | All of the above for one joint at once, as calculateSynchronizedValues stores it |
| MotionGenerators.MotionGenerator.CommonTime | examples/examples_common.cpp:80-93 | The first loop finds the largest of the joints' own times |
| MotionGenerators.CommonTimeIsOptimal | examples/examples_common.cpp:80-93 | No plans by which all joints that move finish together, each within its limits, take less than the common time |
| MotionGenerators.MotionGenerator.CalculateSynchronizedValues | examples/examples_common.cpp:71-112 | Every joint that moves gets a plan that takes the common time; the others keep what they had |
| MotionGenerators.StillJoint | examples/examples_common.cpp:43-46 | A joint that does not move is finished and gets the offset zero, or its whole distance if that is exactly the threshold |
| MotionGenerators.JointsFinishTogether | examples/examples_common.cpp:36-69 | The motion is reported finished exactly from the common time on (or at once if no joint moves), then every moving joint has covered its distance, and before then none has finished; moving joints start with the offset zero; the others stay within the threshold of their goal; no joint goes further than its goal |
| MotionGenerators.MotionGenerator.Call | examples/examples_common.cpp:114-132 | One call: plans exactly at time zero, and returns start plus desired offset of every joint |
| GeneratorRuns.Drive | examples/examples_common.cpp:114-122 | Fed with the calls of a control loop, the generator plans in the first call only, from the position it sees there, and every reply follows that plan at the time elapsed since the first state |
| GeneratorRuns.FinishedAtGoal | examples/examples_common.cpp:43-69 | Whenever a reply reports the end, every joint that had to move is at its goal; in the first reply none of these has moved; every other joint is within 0.000001 of its goal in every reply, and no joint ever goes further than its goal |
| LoadCalculations.CombineCenterOfMass | src/load_calculations.cpp:7-21 | Computes the mass-weighted mean, or zero without positive mass |
| LoadCalculations.CombineInertiaTensor | src/load_calculations.cpp:29-79 | The combined inertia moved to the flange is the sum of the two inertias moved to the flange |
| LoadCalculations.CombineAddsMoments | src/robot_impl.cpp:430-435 | Mapping a body to mass, first moment and inertia about the flange turns combining into addition, for non-negative masses |
| LoadCalculations.MomentsDetermineBody | src/load_calculations.cpp:7-79 | A body with mass is determined by its moments |
| LoadCalculations.CombineCommutes | src/robot_impl.cpp:430-435 | Which body is the end effector does not matter |
| LoadCalculations.CombineAssociates | src/robot_impl.cpp:430-435 | Three bodies may be combined in either grouping |
| LoadCalculations.MasslessIsNeutral | src/load_calculations.cpp:54-60 | A tool without mass changes nothing, whatever its centre and inertia entries hold |
| LoadCalculations.CombineAllIsOrderFree | src/robot_impl.cpp:430-435 | Combining any list of bodies gives the same result in every order |
| LoadCalculations.CombinedInertiaIsReduced | src/load_calculations.cpp:62-76 | The combined inertia is the sum of both inertias less the reduced mass times the squared skew matrix of the distance of the centres |
| LoadCalculations.InertiaIsShiftInvariant | src/load_calculations.cpp:62-76 | Shifting both centres by the same offset leaves the combined inertia as it is |
| LoadCalculations.CombinedInertiaIsPhysical | src/load_calculations.cpp:29-79 | If both inertias are symmetric and positive semidefinite, so is the combined one |
| Framing.HeaderRoundTrip | common/include/research_interface/robot/service_types.h:37-45 | Decoding an encoded header gives the header back, whatever follows it |
| Framing.HeaderIsDetermined | common/include/research_interface/robot/service_types.h:37-45 | Encoding a decoded header gives the bytes back |
| Framing.HeaderBytes | common/include/research_interface/robot/service_types.h:37-45 | Byte k of an encoded header is a quotient of its fields: the command first, then the id, then the size, each with its lowest byte first |
| Framing.DecodedFields | common/include/research_interface/robot/service_types.h:37-45 | The fields of a decoded header are weighted sums of its bytes |
| Framing.FramesPartitionStream | src/network.h:149-187 | The messages read from any stream, followed by the unfinished rest, are the stream |
| Framing.FramesExtend | src/network.h:149-187 | Reading a stream in two parts gives the same messages and rest as reading it at once |
| Framing.FramesRecovered | src/network.h:149-187 | Any sequence of well-formed messages is recovered from its concatenated bytes |
| Network.Network.TcpReadFromBuffer | src/network.h:149-187 | For every arrival of bytes: what was taken is read as the reference reading of the stream says, the buffer holds exactly the unfinished rest, at most one message is completed and stored under its id, a too small size is reported exactly when met, the read makes progress exactly when it can, and completes a message unless none is complete in what had come in |
| Network.QuietMeansAllRead | src/network.h:149-187 | When no further read can proceed, every message that has come in has been read |
| Network.FragmentationDoesNotMatter | src/network.h:149-187 | Two networks that got the same bytes, however split, have read the same messages, and hold the same responses if responses were handed over at the same points of the stream; ids may be used again |
| Network.SentMessagesAreRead | src/network.h:149-187 | If the peer sent whole messages, exactly these have been read, in order, and nothing is left over |
| Network.SentMessagesCanBeTaken | src/network.h:149-228 | For whole messages and every id, however often it is used: a response can be taken under it if and only if a message was sent under it since the last one that was taken, and then it is the first of these |
| Network.AwaitedIsTakenAtOnce | src/network.h:230-259 | A response that a blocking receive waits for is what its last read completed; no other one under its id has come in meanwhile, to be dropped |
| Network.FirstResponseWins | src/network.h:178 | Under each id the first response that comes in while none is unclaimed is the one kept |
| Network.Network.TcpReceiveResponse | src/network.h:206-228 | The response under the id is handed over and forgotten; it stays when the handler throws; otherwise nothing is claimed; the one read completes a message unless none is complete |
| Network.Network.TcpBlockingReceiveResponse | src/network.h:230-259 | Ends as the reference wait over its reads does, splits the response at the expected size, and reports one that is too short without claiming it; when it gives up after n reads, n messages more have been completed or all that had come in |
| Network.ShortResponseIsHandedOver | src/network.h:218-226 | A run in which tcpReceiveResponse hands over a response that is a header only |
| Network.ShortResponseIsRefused | src/network.h:246-248 | The same response is refused by the blocking receive if more than a header is expected |
| Network.Network.TcpSendRequest | src/network.h:189-204 | Sends the framed request under the next command id, which wraps at 32 bits and is used up even on failure |
| Network.RequestIsOneMessage | src/network.h:193-198 | A request is one message for a peer that frames in the same way, with the command, id and payload sent; its first twelve bytes are those of command, id and total size, lowest byte first |
| Logger.PushUnrolled | src/logger.cpp:12-22 | Writing at the front of the ring drops the oldest record of a full ring and keeps all others in order |
| Logger.Logger.Log | src/logger.cpp:12-22 | The contents become the last log_size of the old contents and the new record |
| Logger.Logger.Flush | src/logger.cpp:24-46 | Returns the last log_size records logged since the previous flush, in order, and empties the ring |
| LinkRefinement.StatusIsFirst | common/include/research_interface/robot/service_types.h:50-74 | The status that is read is the first byte of the payload |
| LinkRefinement.ReadIsSimulated | src/network.h:149-187 | Storing the status of a message in the protocol model is storing the message and looking at its status |
| LinkRefinement.ReceiveIsSimulated | src/network.h:206-228 | tcpReceiveResponse on statuses has the same outcome as on messages and leaves the statuses of what messages leave |
| LinkRefinement.WaitIsSimulated | src/network.h:230-259 | A blocking receive ends with the status of the message it ends with, or the failure it ends with, over any list of reads that can happen |
| LinkRefinement.RestIsSimulated | src/network.h:230-259 | When it ends with its last read, the statuses left over are those of the messages left over |
| LinkRefinement.PollStatus | src/network.h:206-228 | tcpReceiveResponse of any network is the poll of the protocol model on the event its read is, in result and in responses left over |
| LinkRefinement.AwaitStatus | src/network.h:230-259 | tcpBlockingReceiveResponse of any network is the wait of the protocol model on the events its reads are: in what it ends with and, when a response is handed over, in the responses left over |
| RobotLink.NewestIsNewest | src/robot_impl.cpp:165-171 | Draining picks a state with the highest id of the batch, or none if no id is above the last accepted one |
| RobotLink.BatchIsFront | src/robot_impl.cpp:165-171 | What is drained is the longest run of datagrams at the front |
| RobotLink.WaitingFails | src/robot_impl.cpp:172-180 | Waiting for a newer state fails exactly with the event that follows older states only: a timeout, a short datagram, or nothing |
| RobotLink.AcceptedIsNewer | src/robot_impl.cpp:161-180 | The accepted state is newer than the last; it is the newest of the batch if one there is newer, else the first newer one to arrive |
| RobotLink.Link.TcpBlockingReceiveResponse | src/network.h:230-259 | The response a blocking receive ends with, as a function of what arrives |
| RobotTypes.StatusIsRead | common/include/research_interface/robot/service_types.h:146-159 | Every byte of a Move response is read as the status with that number, and as unknown from 12 on |
| RobotImpl.HandleMove | src/robot_impl.h:200-274 | A Move response is accepted exactly with byte 0, or with 1 while no generator runs; 2 to 11 are refusals with their status; 1 while a generator runs and all others are protocol errors |
| RobotImpl.HandleStopMove | src/robot_impl.h:276-316 | A StopMove response is accepted exactly with byte 0; 1 to 5 are refusals; all others are protocol errors |
| RobotImpl.GuardsAreExact | src/robot_impl.cpp:124-153 | The three guards together let through exactly the commands with a motion part, a running generator, and torques if and only if an external controller runs |
| RobotImpl.LostPacketsAreCounted | src/robot_impl.cpp:15-41 | For a log with increasing times the two unsigned subtractions give the number of ids between the last two records |
| RobotImpl.ReportIsExact | src/robot_impl.cpp:15-41 | A report is made exactly for status byte 6 and two records; its success rate is that of the last but one, less one percent of it for each state lost |
| RobotImpl.RobotImpl.SendRobotCommand | src/robot_impl.cpp:124-159 | Succeeds exactly if no guard applies and sending does not fail, or if there is nothing to send; then sends the command stamped with the last accepted id; otherwise fails with the guard that applies, or the network, and sends nothing |
| RobotImpl.RobotImpl.ReceiveRobotState | src/robot_impl.cpp:161-190 | The accepted state is that of the reference function; accepted ids strictly increase |
| RobotImpl.RobotImpl.Update | src/robot_impl.cpp:56-68 | The result is a function of the scripts: a broken connection, a refused command, or what receiving a state comes to; one cycle sends at most one datagram, accepts exactly one state and logs it with the command; a failure accepts and logs nothing |
| RobotImpl.RobotImpl.WriteOnce | src/robot_impl.cpp:97-122 | Sends one command without receiving, exactly if the connection is not broken and the command is not refused |
| RobotImpl.RobotImpl.ThrowOnMotionError | src/robot_impl.cpp:70-86 | Passes exactly a moving robot in the requested modes; otherwise the failure is determined by the Move response: bytes 2 to 11 give their status with the flushed log, all others a protocol error |
| RobotImpl.RobotImpl.ReadOnce | src/robot_impl.cpp:88-95 | The states that are there are dropped and the next newer one accepted; the log is untouched |
| RobotImpl.RobotImpl.AwaitMotion | src/robot_impl.cpp:254-270 | The loop that waits for the modes returns what the scripts determine, and returns without the modes exactly if it consumed another response to the request (given that none was stored before) |
| RobotImpl.RobotImpl.StartMotion | src/robot_impl.cpp:208-275 | The result is a function of the state and the scripts (StartResult): refused while anything runs; sends no datagram; success needs a first response of 0 or 1, the requested modes are then current, the request was sent, the log is empty, and the robot shows the modes if and only if no second response to the request was consumed (given that none was stored under its id before); external control never goes without a generator, also on every failing path |
| RobotImpl.ShownIff | src/robot_impl.cpp:254-270 | Over all scripts: the waiting ends with the modes shown if and only if, for some n, the n-th accepted state is the first to show them, and the n reads before it bring neither a response to the request nor a failure |
| RobotImpl.OrderlyStart | src/robot_impl.cpp:254-270 | If the next state shows the modes, the start ends with them, whatever responses come later, the final one included |
| RobotImpl.OvertakenStart | src/robot_impl.cpp:254-270 | If the final response comes before that state, the start ends without them |
| RobotImpl.StartsTooEarly | src/robot_impl.cpp:254-270 | A run from any idle first state in which startMotion returns normally and the robot does not show the modes |
| RobotImpl.RobotImpl.FinishMotion | src/robot_impl.cpp:277-314 | Sends only finished copies of the given command with strictly increasing stamps, and fails while repeating them exactly as the scripts determine; once the robot has stopped, the Move response decides: bytes 0 and 1 are success and reset the modes, 2 to 11 give their status with the log of exactly these cycles, others a protocol error |
| RobotImpl.RobotImpl.CancelMotion | src/robot_impl.cpp:393-410 | The result is a function of the scripts: sending the request, its response (0 is success, 1 to 5 are refusals), waiting for the stop, and a last read; makes one stop request, unless sending it fails, and sends no command; success means nothing runs, the modes are reset and no response to the motion is left; a failure leaves the modes |
| RobotImpl.RobotImpl.constructor | src/robot_impl.cpp:45-54 | A client that has accepted its first state is valid; the controller mode, which has no initial value (src/robot_impl.h:196), is assumed not to be the external one |
| ControlLoops.ControlLoop.WithControl | src/control_loop.cpp:47-68 | Refuses missing callbacks; otherwise starts an external-controller motion, and is refused exactly if that fails, with its failure |
| ControlLoops.ControlLoop.WithMode | src/control_loop.cpp:70-93 | Refuses a missing callback and any mode but the two internal controllers; otherwise refused exactly if starting the motion fails, with its failure |
| ControlLoops.ControlLoop.Spin | src/control_loop.cpp:105-118 | One cycle of callbacks decides as the reference does: the motion callback is asked first, the torque callback only if the motion goes on, and the torques in force are those of its last answer, or zero before its first call |
| ControlLoops.ControlLoop.RunLoop | src/control_loop.cpp:96-119 | The result is a function of the callbacks and the scripts, up to the records in the log; every datagram answers a call as converted; the finishing ones repeat the last answer, flagged, with the torques of the last torque call, or zero torques if there was none; the loop ends normally only after a callback asked for it; a failing callback or a rejected answer is the failure of the loop; no guard fires |
| ControlLoops.ControlLoop.Run | src/control_loop.cpp:95-126 | The result is that of the loop; callbacks see only moving states in the requested modes, with steps that follow the state times; the datagrams have flags false* true*, each unfinished one stamped with the id its callback saw, stamps strictly increasing; on any failure at most one request is added, a stop, under the next id, and the failure reported is that of the loop, never that of the stop; a normal end adds no request |
| ControlLoops.TraceOfRun | src/control_loop.cpp:96-119 | The order of flags and stamps of a run follows from the datagrams answering their calls |
| ControlLoops.StepsSumToTime | src/control_loop.cpp:100-112 | The steps of a run sum to the time from the first to the last state, however many states were lost |
| ControlLoops.TimeIsZeroOnce | examples/examples_common.cpp:116-118 | Adding up the steps, time is zero in the first call and in no other |
| Robots.SingleOwner | src/robot.cpp:254-282 | At most one user-driven motion is live |
| Robots.Robot.Control | src/robot.cpp:53-174 | While the lock is held, fails and leaves the whole client as it is; otherwise the lock is free again afterwards; a motion that cannot be started fails with its reason and sends nothing; else the datagrams are those of a loop over the given callbacks in the modes asked for; success means one Move request for these modes, nothing running and the modes reset; a failure means at most that request and then one to stop |
| Robots.Robot.Read | src/robot.cpp:176-186 | While the lock is held, fails and leaves the whole client as it is; otherwise calls back with every accepted state until the callback declines one, or fails, exactly as the scripts determine, and sends nothing |
| Robots.Robot.ReadOnce | src/robot.cpp:188-193 | While the lock is held, fails and leaves the whole client as it is; otherwise the next newer state after those already there |
| Robots.Robot.StartControl | src/robot.cpp:253-282 | While the lock is held, fails and leaves the robot, the lock and the whole client as they are; otherwise succeeds exactly if the motion can be started; a new motion takes the lock over, a failed start gives it back |
| Robots.ActiveControl.ReadOnce | src/active_control.cpp:27-39 | Succeeds exactly if the next newer state shows the motion in its modes; the step is zero in the first call and else the difference to the last state, at least 1 and without wrap-around; a call that fails changes neither |
| Robots.ReadStepsSumToTime | src/active_control.cpp:27-39 | Over all calls of a motion, failed ones in between included, the steps returned sum to the time from the first state returned to the last |
| Robots.ActiveControl.WriteOnce | src/active_motion_generator.cpp:22-62 | Refused, with nothing changed, exactly for a finished motion, torques that do not match the controller, or invalid values, in this order; otherwise sends one unfinished command, which fails exactly on a broken connection or a failing send, or sends finished copies until the motion has ended, releasing the lock with nothing running; no guard of the client fires |
| Robots.ActiveControl.WriteTorquesOnce | src/active_torque_control.cpp:12-33 | The same for torque control, with a motion part that stands still |
| Robots.ActiveControl.Destroy | src/active_control.cpp:21-25 | A motion ends by exactly one normal finish or one cancellation; a finished one is not cancelled; the result is that of the cancellation |

The invariants that hold between calls are the `Valid` predicates of the classes: in `RobotImpl.RobotImpl.Valid`, accepted ids
and logged times strictly increase, an external controller implies a motion generator, and every datagram ever sent carries a
motion part, and torques exactly when an external controller was current; in `Robots.Robot.Valid`, the lock is held exactly by
the one live motion, whose modes are the client's.

## Left out

- Floating-point rounding, and overflow of doubles to infinity inside a computation.
- `Eigen::AngleAxisd`, Eigen's `rotation()` and slerp: `rotation()` gives some proper rotation, and that of a proper rotation is itself; that the commanded pose is reached assumes that the rotation vector of a proper rotation is one by Rodrigues' formula, all bounds hold for any vector.
- Low-pass filters, `checkFinite`, `checkMatrix` and `checkElbow` inside the loop: one conversion function per callback stands for filtering, limiting and checking, with None for `invalid_argument`.
- A speed factor that is not positive, for which the generator divides by zero.
- Sockets, Poco exceptions during a receive, timeouts as durations, realtime scheduling and the connection handshake.
- Thread races inside `Network`, and the case that its lock is held by another thread for long; the model is sequential.
- Liveness of the robot: a robot that never stops or never answers ends in a network failure here, when its script ends; a TCP connection that stays silent forever, or that the other side has closed, blocks a blocking receive of the original forever instead.
- The payload layout of requests and responses beyond the header; the robot protocol works with statuses by command id.
- Automatic error recovery, setters, the two grippers, the vacuum gripper, model library download, printing and the error name table.
- Texts of exceptions, except for the numbers in the reflex report.
- Network.Network.TcpReadFromBuffer: the narrowing of the remaining size to a 32-bit int is not modelled; a header that announces 2^31 bytes or more is read as with an unbounded int.
- Robots.ActiveControl.Destroy: a cancellation that fails in a destructor terminates the original program; the contract then promises nothing.
- RobotImpl.RobotImpl.constructor: requires that the controller mode, which the original leaves uninitialised (src/robot_impl.h:196), does not happen to be the external one; then a controller would be current without a generator.
- JointLimits.LimitRateVelocities: requires acceleration limits other than zero; the original divides by zero there and goes on with an infinity or NaN.
- JointLimits.LimitRatePositions: requires the same.
- PoseRateLimiting.LimitRatePose: requires the same.
- LinkRefinement.WaitIsSimulated: a message without payload has status 0; that the protocol refuses messages shorter than expected is modelled in Network only.
- ControlLoops.ControlLoop.RunLoop: the two loops of the original, with and without torques, are one loop here with an optional torque command.
