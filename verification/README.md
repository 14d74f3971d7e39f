# Verified model of the mechanical-body control service

The service controls Bluetooth gimbals and wheel bases. This project models the parts of it that hold state
or do arithmetic with a guarantee to keep, and proves the guarantees over every input and every run. Where
the code falls short of what it is for, the condition under which it does meet it is proved, with a concrete
input that shows the failure.

| module | models |
|---|---|
| `FrameLayout`, `DataBuffer`, `Protocol` | the frame format, the byte buffer it is written into, and the converter that prints and parses frames |
| `OnceTable` | a table of requests that wait for one result each, shared by both request layers |
| `SendAdapter` | the request/response transport: three threads, named tasks, 16-bit sequence numbers, as a step machine and as the class whose critical sections are its steps |
| `SendAdapterSafety`, `SendAdapterTiming`, `SendAdapterAnswers`, `SendAdapterSupply` | what holds of the transport without timing, with timing, which request an acknowledgement settles, and exactly when the numbers suffice |
| `RotateCallbacks`, `RotateCallbackResults` | the second request layer: callbacks under 8-bit ids, a device response racing a timeout |
| `PromiseTable` | the client's table of waiting promises, composed with the layer above |
| `YawLimits` | normalisation of angles, the limit test on wrapped limits, the clamp of relative rotations |
| `MoveSegments` | move requests converted to timed segments |
| `AppForeground` | foreground-time accounting and its report |
| `TargetSelection`, `CameraTracking` | overlap of rectangles, choice of the tracked object, the filter of frames |
| `OffsetSlew` | the stick, the target offset and the slewing of the offset in use |
| `TargetSearch` | the bounded search for a target |
| `MechRegistry` | the registry of connected devices |

## How the model reads the code

* A class whose methods update fields is a class here, with the source's fields. Each method is proved to be
  one step of a function on values (`View() == Apply(old(View()), step)`), and what is proved of every run of
  that function therefore holds of the object.
* Threads are steps. A step is what the code does under one lock or in one call of the event handler. Any due
  task may be taken next, which allows more orders than the real handler does; the lateness at which numbers
  collide (`LateCollision`) is that of the model, and a handler that keeps to the order of due times may
  tolerate a little more.
* Theorems about time take the lateness allowed to due tasks as a parameter and say how large it may be
  (`Slack`, `AnswerSlack`); theorems about 8-bit ids take the length of the window in which a command is
  outstanding. Whether the device answers within it is left open: the transport delivers one response or
  gives the command up in silence.
* Fields and tags under "history" (`id`, `issued`, `inserted`, `born`, `asked`, ...) exist to state the
  theorems and never decide a step.
* Angles, offsets, rectangles and overlap ratios are exact reals with the source's constants. Integer widths
  are explicit: 8- and 16-bit counters wrap, durations saturate or wrap as written, 64-bit size sums are
  taken modulo 2^64. Durations of motion commands are exact reals, because a request by speed brings a
  floating-point one.
* The checked copy of the C library (`memcpy_s`) is not part of the repository. It is modelled by its
  documented rule: it fails when the destination has no room or the source is null.
* Calls that may fail for reasons outside (sending over Bluetooth, posting a task) take the outcome as a parameter or as part of the step.

## What turned out different from what one would expect

* Two sequence numbers can meet. They cannot if every command fits a frame and due tasks are late by less than
  177680 ms. A command that does not fit takes a number without taking any time, and enough of those bring a
  number round while its entry is still parked; so does more lateness (`NumbersAreSafeExactlyWhen`).
* An acknowledgement that arrives with nothing parked under its number settles the request that is parked
  there when it is looked at (`StaleAnswerSettles`).
* The limit test on wrapped yaw limits is too strict for angles in the small overlap just past half a turn,
  because the normal range is wider than one turn (`LimitTestIsExact`, `OverlapExample`).
* The roll and pitch checks normalise to the interval below the lower bound, so with the usual limits they
  call every request limited (`EveryRollIsLimitedExactlyWhen`, `RollTestIsExact`).
* The record of the last accepted camera frame is the object handed on for motor control, and its type is
  overwritten there. In the standard build the filter's conversions between body, face and head
  therefore apply only after a body whose region was lost, and those between face and head never
  (`ConversionNeedsALostBody`). With `MECHBODY_CONTROLLER_EXTENDED` the overwriting is left to a delayed task,
  and this is not claimed.
* A target that appears between the check of a search request and its first turn leaves the client without a
  notice (`NoticeExactlyUnlessMissed`, `MissedExample`), and a stop that falls into a turn is undone
  by the end of that turn, exactly if no target is in sight and turns are left
  (`StopDuringATurnIsUndoneExactlyWhen`).
* A motion command by speed whose duration is -300000 ms or less posts no timeout. If the device is silent, its
  callback stays parked and its promise waits, until 256 commands later another command gets the same id and
  reports its own result to it (`CoveredExactlyWhen`, `SettledExactlyWhen`, `AbandonedGetsAnothersResult`).
* A foreground time is the signed sum of the clock's steps while the application was held, modulo 2^64: it wraps
  exactly when the clock was set back so far that this sum is negative (`DurationIsSignedSum`, `ClockSetBack`).

## Model

| member | source | states |
|---|---|---|
| `FrameLayout.RoundTrip` | services/src/transport/mc_protocol_convertor.cpp:42-151 | parsing a printed frame with the same service name gives back the payload and the sequence number, not as an acknowledgement, for every payload whose frame fits |
| `FrameLayout.FrameHasLayout` | services/src/transport/mc_protocol_convertor.cpp:42-100 | every byte of a frame, by its place and value |
| `FrameLayout.LowByteFirst` | services/src/transport/mc_data_buffer.cpp:92-102 | a 16-bit number is written and read with its remainder by 256 first |
| `FrameLayout.FrameIsInjective` | services/src/transport/mc_protocol_convertor.cpp:42-107 | two different commands never print to the same frame |
| `FrameLayout.AcceptedSlice` | services/src/transport/mc_protocol_convertor.cpp:109-151 | a frame is accepted exactly when its stated body, low byte of the length first, has at least 3 bytes and lies inside it; the payload is exactly the slice after the number, and it is an acknowledgement exactly if the low four bits of its first byte are 1 |
| `DataBuffer.LittleEndianRoundTrip` | services/src/transport/mc_data_buffer.cpp:80-217 | integers of any width are written and read back little-endian without loss |
| `DataBuffer.LeastSignificantFirst` | services/src/transport/mc_data_buffer.cpp:80-126 | byte i of a number of any width is its i-th digit to the base 256 |
| `DataBuffer.BytesRoundTrip` | services/src/transport/mc_data_buffer.cpp:164-217 | bytes that are read and written again are the same bytes, whatever their number |
| `DataBuffer.RangeCheckIsExact` | services/src/transport/mc_data_buffer.cpp:69-78 | the range check admits exactly the ranges inside the storage, unless the 64-bit sum wraps |
| `DataBuffer.MechDataBuffer.constructor` | services/src/transport/mc_data_buffer.cpp:27-36 | a new buffer is empty and has the capacity asked for, or none if that is too large |
| `DataBuffer.MechDataBuffer.SetRange` | services/src/transport/mc_data_buffer.cpp:69-78 | a rejected range changes nothing; an accepted one keeps offset plus length inside the storage unless the sum wraps |
| `DataBuffer.MechDataBuffer.AppendUint8` | services/src/transport/mc_data_buffer.cpp:80-90 | appends exactly one byte, or fails and changes nothing when there is no room |
| `DataBuffer.MechDataBuffer.AppendUint16` | services/src/transport/mc_data_buffer.cpp:92-102 | appends the remainder and the quotient by 256, in this order, or changes nothing |
| `DataBuffer.MechDataBuffer.AppendUint32` | services/src/transport/mc_data_buffer.cpp:104-114 | appends four little-endian bytes or changes nothing |
| `DataBuffer.MechDataBuffer.AppendUint64` | services/src/transport/mc_data_buffer.cpp:116-126 | appends eight little-endian bytes or changes nothing |
| `DataBuffer.MechDataBuffer.AppendInt16` | services/src/transport/mc_data_buffer.cpp:128-138 | appends a negative value plus 65536 low byte first, others as they are, or changes nothing |
| `DataBuffer.MechDataBuffer.AppendDataBuffer` | services/src/transport/mc_data_buffer.cpp:152-162 | appends the other buffer's range or changes nothing; a full buffer takes not even an empty one |
| `DataBuffer.MechDataBuffer.ReadUint8` | services/src/transport/mc_data_buffer.cpp:164-173 | refused exactly as the check says; a read let through sees a byte of the live range, unless the 64-bit sum wraps, when it is undefined |
| `DataBuffer.MechDataBuffer.ReadUint16` | services/src/transport/mc_data_buffer.cpp:175-184 | the same for a little-endian 16-bit value |
| `DataBuffer.MechDataBuffer.ReadUint` | services/src/transport/mc_data_buffer.cpp:186-206 | the same for a little-endian 32- or 64-bit value |
| `Protocol.ProtocolConverter.Convert` | services/src/transport/mc_protocol_convertor.cpp:42-100 | yields a buffer exactly when there is a nonempty payload that fits 237 bytes together with the name, and then every byte is fixed: 0, 0, 1, 0, 0, 0, 0, 0, then 0x20, 0x21 or 0x22 for PUT, GET or REPORT, the name behind its length, the body's length, the number low byte first, and the payload |
| `Protocol.ProtocolConverter.ConvertFor` | services/src/transport/mc_protocol_convertor.cpp:102-107 | the overload with a service name changes the converter's name for good, and the frame has the same layout under that name |
| `Protocol.ProtocolConverter.GetData` | services/src/transport/mc_protocol_convertor.cpp:109-151 | the buffer, number and flag returned are those the frame format defines, and null exactly when the frame does not parse |
| `Protocol.OnReceive` | services/src/transport/mc_send_adapter.cpp:238-260 | a received byte string of 1 to 251 bytes is decoded by the frame format, any other is dropped |
| `Protocol.SendThenReceive` | services/src/transport/mc_protocol_convertor.cpp:42-151 | round trip on the objects: what one converter prints it reads back, payload and number, for every nonempty payload that fits |
| `SendAdapter.TransportSendAdapter.CreateResponseSeqNo` | services/src/transport/mc_send_adapter.cpp:335-347 | is the step that hands out the next number, 0 after 65535 |
| `SendAdapter.TransportSendAdapter.InsertPending` | services/src/transport/mc_send_adapter.cpp:304-312 | is the step that parks a request and leaves an entry already under its number alone |
| `SendAdapter.TransportSendAdapter.PostResetTask` | services/src/transport/mc_send_adapter.cpp:313-333 | is the step that posts the reset timer, due in 2000 ms |
| `SendAdapter.TransportSendAdapter.PostTimeoutTask` | services/src/transport/mc_send_adapter.cpp:313-333 | is the step that posts the timeout, due in 300000 ms, and lets the send begin |
| `SendAdapter.TransportSendAdapter.PostResponseTask` | services/src/transport/mc_send_adapter.cpp:282-291 | is the step of the callback that queues the answer, due at once |
| `SendAdapter.TransportSendAdapter.RemoveTimeoutTask` | services/src/transport/mc_send_adapter.cpp:292-295 | is the step that drops every queued timeout of that number |
| `SendAdapter.TransportSendAdapter.RemoveResetTask` | services/src/transport/mc_send_adapter.cpp:292-297 | is the step that drops every queued reset of that number and ends the callback |
| `SendAdapter.TransportSendAdapter.ExecuteRunningTask` | services/src/transport/mc_send_adapter.cpp:360-403 | an answer or a timeout takes the entry out and fires the callback of that very command; a reset never settles anything |
| `SendAdapter.TransportSendAdapter.Transmit` | services/src/transport/mc_send_adapter.cpp:188-200 | sends until the first success or until the retries are used up, and takes 10 ms for each attempt |
| `SendAdapter.AttemptsAreSteps` | services/src/transport/mc_send_adapter.cpp:188-200 | that loop is a run of the machine, whatever the sends return |
| `SendAdapterSafety.EveryRunIsGood` | services/src/transport/mc_send_adapter.cpp:262-403 | the invariant behind the next two rows holds after every interleaving |
| `SendAdapterSafety.OneCallbackPerRequest` | services/src/transport/mc_send_adapter.cpp:304-389 | in every interleaving a parked request has had no callback while it is parked and exactly one afterwards, on its own command |
| `SendAdapterSafety.NothingIsOrphaned` | services/src/transport/mc_send_adapter.cpp:262-333 | every parked request has a timeout scheduled, an answer queued, or its own push in progress |
| `SendAdapterTiming.EveryTimedRunIsDated` | services/src/transport/mc_send_adapter.cpp:304-403 | with framable commands and prompt tasks, every entry and timer is dated within the time 65536 sends take |
| `SendAdapterTiming.FreshNumberIsFree` | services/src/transport/mc_send_adapter.cpp:304-347 | a number just handed out has no entry and no surviving timer, so parking never meets an older entry |
| `SendAdapterTiming.NumberHasOneOwner` | services/src/transport/mc_send_adapter.cpp:335-403 | an entry and every timer under a number belong to the last command that number was given to |
| `SendAdapterTiming.TimeoutsHitTheirOwn` | services/src/transport/mc_send_adapter.cpp:376-389 | every timeout callback of a run was fired by the command's own timer |
| `SendAdapterTiming.SettledInTime` | services/src/transport/mc_send_adapter.cpp:304-389 | a request is settled within 300000 ms of its posting plus twice the lateness allowed to tasks |
| `SendAdapterAnswers.AnswerFindsItsOwn` | services/src/transport/mc_send_adapter.cpp:282-297 | an acknowledgement that arrived while a request was parked under its number finds that request when it is looked at, or nothing |
| `SendAdapterAnswers.AnswersHitTheirOwn` | services/src/transport/mc_send_adapter.cpp:360-374 | over a whole run an answer settled the request it was given for, if and only if something was parked under its number when it arrived |
| `SendAdapterAnswers.StaleAnswerSettles` | services/src/transport/mc_send_adapter.cpp:360-374 | a run in which an acknowledgement that came before its number was handed out settles the first request that gets it |
| `SendAdapterSupply.Collision` | services/src/transport/mc_send_adapter.cpp:171-186 | one command that does not fit a frame and one that awaits an answer suffice to bring a number round onto a parked entry |
| `SendAdapterSupply.LateCollision` | services/src/transport/mc_send_adapter.cpp:304-347 | beyond the slack, commands that all fit bring a number round onto a parked entry |
| `SendAdapterSupply.NumbersAreSafeExactlyWhen` | services/src/transport/mc_send_adapter.cpp:171-200 | no run ever hands out a number still parked if and only if no command that fits awaits an answer, or every command of the supply fits a frame and 300000 ms plus twice the lateness is less than 655360 ms |
| `RotateCallbacks.MotionManager.CreateResponseTaskId` | services/src/motion/mc_motion_manager.cpp:799-811 | is the step that takes the next 8-bit id, 0 after 255 |
| `RotateCallbacks.MotionManager.InsertCallback` | services/src/motion/mc_motion_manager.cpp:1920-1961 | is the step that parks a callback and leaves one already under its id alone |
| `RotateCallbacks.MotionManager.PostTimeoutTask` | services/src/motion/mc_motion_manager.cpp:2431-2443 | is the step that posts the timeout for the duration plus 300000 ms, cut to a whole number, or nothing if that is not positive |
| `RotateCallbacks.MotionManager.OnResponse` | services/src/motion/mc_motion_manager.cpp:1963-2004 | a response takes out whatever callback is parked under its id and tells it COMPLETED if and only if the device's code is 0, LIMITED for 3, TIMEOUT for 4, INTERRUPTED for 5, TERMINATE_CLIFF for 6, TERMINATE_OBSTACLE for 7, and SYSTEM_ERROR for every other code; that it is the command's own is the theorem `OneOwnResult` |
| `RotateCallbacks.MotionManager.OnTimeout` | services/src/motion/mc_motion_manager.cpp:1943-1955 | a timeout takes out whatever is parked under its id and reports TIMEOUT to it, or finds nothing and reports nothing |
| `RotateCallbacks.EveryRunIsGood` | services/src/motion/mc_motion_manager.cpp:1587-1674 | over every run each parked callback is still parked or has had exactly one result, and it is covered by its own call or timeout if and only if its duration plus 300000 is positive or its call is still under way |
| `RotateCallbacks.NoEarlyTimeout` | services/src/motion/mc_motion_manager.cpp:2431-2443 | in every run a timeout that may fire belongs to a command whose duration and 300000 ms have passed, less the fraction cut off |
| `RotateCallbackResults.CoveredExactlyWhen` | services/src/motion/mc_motion_manager.cpp:2416-2446 | no run over a supply of requests ever leaves a parked callback without cover if and only if every duration plus 300000 is positive |
| `RotateCallbackResults.OneOwnResult` | services/src/motion/mc_motion_manager.cpp:2416-2488 | with at most 256 ids in any window and durations that pass the guard, a command has exactly one result once its response or timeout has come, at the latest when its window has passed, whether or not the device answers; it carries its own token and command id, is the report of whichever came first, and is COMPLETED if and only if that was the device's answer 0 |
| `RotateCallbackResults.FirstReportIsFirst` | services/src/motion/mc_motion_manager.cpp:1963-2004 | that report is the mapped code of the device's answer or TIMEOUT, of the first step of the run that is either for this command |
| `RotateCallbackResults.FirstReportTells` | services/src/motion/mc_motion_manager.cpp:133-146 | the report tells of the first step of the run that settles the command, code by code, and is COMPLETED if and only if that step is the device answering 0 |
| `RotateCallbackResults.SilenceEndsInTimeout` | services/src/motion/mc_motion_manager.cpp:2431-2443 | a rated run with a silent device in which the result is TIMEOUT, for every request that passes the guard |
| `RotateCallbackResults.SettledExactlyWhen` | services/src/motion/mc_motion_manager.cpp:2416-2446 | every rated run over a supply settles each command by the end of its window if and only if every request of the supply passes the guard |
| `RotateCallbackResults.AbandonedGetsAnothersResult` | services/src/motion/mc_motion_manager.cpp:2416-2446 | a rated run in which a callback without timeout is given the result of the command 256 later |
| `PromiseTable.JsMechManagerService.RegisterPromise` | interface/napi/mech_manager/js_mech_manager.cpp:894-900 | puts the promise under its command id and resolves nothing |
| `PromiseTable.JsMechManagerService.WithdrawPromise` | interface/napi/mech_manager/js_mech_manager.cpp:906-911 | takes the promise out when the call fails at once and resolves nothing |
| `PromiseTable.JsMechManagerService.RotatePromiseFulfillment` | interface/napi/mech_manager/js_mech_manager_service.cpp:198-233 | takes the promise out and resolves it with the result, or drops a result nobody waits for |
| `PromiseTable.NeverMoreThanRegistered` | interface/napi/mech_manager/js_mech_manager_service.cpp:198-233 | over every log a command id is resolved at most as often as it was registered |
| `PromiseTable.ResolvedAtMostOnce` | interface/napi/mech_manager/js_mech_manager_service.cpp:198-212 | with distinct command ids a promise is resolved at most once, however often results repeat |
| `PromiseTable.FirstResultWins` | interface/napi/mech_manager/js_mech_manager_service.cpp:198-233 | the first result that arrives for a waiting promise is the one it gets, whatever follows |
| `PromiseTable.WithdrawnIsNeverResolved` | interface/napi/mech_manager/js_mech_manager.cpp:906-911 | a promise withdrawn and not registered anew is never resolved, whatever results come in |
| `PromiseTable.PromiseGetsItsResult` | services/src/motion/mc_motion_manager.cpp:1920-2004 | end to end: in every log of the client, among registrations and withdrawals of other promises, the promise of a command whose window has passed is resolved exactly once, with the mapped device result or TIMEOUT of that command, whichever came first |
| `YawLimits.FormatAngle` | services/src/motion/mc_motion_manager.cpp:1341-1363 | the two loops end, in range, after the least number of whole turns |
| `YawLimits.FormatLimit` | services/src/motion/mc_motion_manager.cpp:1341-1363 | wraps both limits in place, so that the sign test on them decides reachability between the raw ones outside the overlap |
| `YawLimits.NormaliseResult` | services/src/motion/mc_motion_manager.cpp:1726-1735 | the loops of the yaw and speed checks end with the same normal form, though in the other order |
| `YawLimits.NormalFormIsIdempotent` | services/src/motion/mc_motion_manager.cpp:1341-1363 | the normal form is in range, differs by whole turns, and is stable |
| `YawLimits.SameSideSameForm` | services/src/motion/mc_motion_manager.cpp:1341-1363 | angles that differ by whole turns and lie beyond the same end have one normal form |
| `YawLimits.LimitTestIsExact` | services/src/motion/mc_motion_manager.cpp:841-858 | the three-case sign test on wrapped limits agrees with the unwrapped interval exactly outside the overlap, and never lets an unreachable angle through |
| `YawLimits.LimitTestNearAhead` | services/src/motion/mc_motion_manager.cpp:841-858 | for angles closer to straight ahead than 6.28 - 3.1415927, limited means that no whole-turn shift is between the raw limits |
| `YawLimits.OverlapExample` | services/src/motion/mc_motion_manager.cpp:841-858 | an angle the device can reach that is called limited |
| `YawLimits.ClampEndsAcceptably` | services/src/motion/mc_motion_manager.cpp:1718-1747 | after the clamp the request plus its margin points at the formatted limit of its side if it was limited, else at its unchanged target, and the test accepts that angle |
| `YawLimits.ClampedYawAnswers` | services/src/motion/mc_motion_manager.cpp:1718-1747 | for all limits, the clamp leaves a request that is not limited unchanged and puts a limited one at the limit of its side without adding a turn |
| `YawLimits.ClampedRequestIsReachable` | services/src/motion/mc_motion_manager.cpp:1676-1747 | for every current yaw and request, the clamped request keeps its margin from leaving the raw limits |
| `YawLimits.MotionManager.CheckYawDegree` | services/src/motion/mc_motion_manager.cpp:1718-1747 | leaves a request that is not limited exactly as it is; a limited one is changed so that, with its margin and in the same turn, it ends exactly at the limit of its side, and the side is recorded |
| `YawLimits.MotionManager.CheckYawSpeed` | services/src/motion/mc_motion_manager.cpp:2540-2572 | records a limit exactly when the landing point is limited, and keeps a side already recorded |
| `YawLimits.MotionManager.CheckRollDegree` | services/src/motion/mc_motion_manager.cpp:1749-1777 | leaves a request that is not limited as it is; a limited one ends, in the turn the loops as written produce, at the limit of its side |
| `YawLimits.MotionManager.CheckPitchDegree` | services/src/motion/mc_motion_manager.cpp:1779-1807 | the same for the pitch |
| `YawLimits.MotionManager.HandelRotateParam` | services/src/motion/mc_motion_manager.cpp:1676-1716 | answers as the three checks do on every axis, each by its own limits, records the side of each, and reports a change exactly when a recorded side changed |
| `YawLimits.MotionManager.NormaliseBelow` | services/src/motion/mc_motion_manager.cpp:1756-1765 | the loops as written end in the turn below the lower bound |
| `YawLimits.EveryRollIsLimitedExactlyWhen` | services/src/motion/mc_motion_manager.cpp:1749-1777 | every roll request is called limited if and only if the negative limit lies above the lower bound |
| `YawLimits.RollTestIsExact` | services/src/motion/mc_motion_manager.cpp:1749-1777 | a roll is called limited if and only if its turn below the lower bound falls short of the negative limit; no unreachable one is let through |
| `YawLimits.LimitedRollGoesToLimit` | services/src/motion/mc_motion_manager.cpp:1749-1777 | a limited roll request ends at the limit on its own side |
| `YawLimits.ClampedRollAnswers` | services/src/motion/mc_motion_manager.cpp:1749-1777 | the same of a roll or pitch, in the turn its loops produce |
| `MoveSegments.ConvertMoveParamsToRotateParams` | services/src/motion/mc_motion_manager.cpp:1834-1880 | builds the segments the next two rows are about |
| `MoveSegments.MoveIsRealised` | services/src/motion/mc_motion_manager.cpp:1834-1880 | at most two segments, turn before move; travel never exceeds the distance and falls short by less than a millisecond of motion, or, where the time is capped, lasts exactly 65535 ms; likewise a pure turn; a turn made while moving comes to exactly the angle |
| `MoveSegments.MoveKeepsToSpeeds` | services/src/motion/mc_motion_manager.cpp:1855-1869 | a segment that moves does so at 20, 50 or 80 for a low, middle or high gear, with the sign of the distance, and a pure turn at 50 |
| `MoveSegments.OtherGearDoesNotMove` | services/src/motion/mc_motion_manager.cpp:1855-1869 | a gear outside the table moves nothing, and its turning speed is infinite exactly when a turn was to be made while moving |
| `MoveSegments.ConvertSpeedParamsToRotateParams` | services/src/motion/mc_motion_manager.cpp:1881-1918 | builds the segments of a request by speed and duration |
| `MoveSegments.SpeedIsRealised` | services/src/motion/mc_motion_manager.cpp:1881-1918 | the ground covered is exactly speed times duration, at the speed asked for and for the whole duration; the turn is exact or within a millisecond, capped at exactly 65535 ms, and finite unless the duration is zero |
| `MoveSegments.MoveTime` | services/src/motion/mc_motion_manager.cpp:166-177 | the time for a distance is the largest that does not overshoot, and exactly 65535 beyond that |
| `AppForeground.MotionManager.UpdateAppForegroundInfo` | services/src/motion/mc_motion_manager.cpp:3171-3221 | touches only the record of its application: 2 opens an interval that is not open, 4 and 5 close one that is and add its length modulo 2^64, and nothing but 2 makes a record |
| `AppForeground.DurationIsForegroundTime` | services/src/motion/mc_motion_manager.cpp:3171-3241 | for every log with non-decreasing times an application's duration is the number of seconds for which its last state 2, 4 or 5 was 2, an open interval included, and 0 without a record |
| `AppForeground.DurationIsSignedSum` | services/src/motion/mc_motion_manager.cpp:3171-3241 | for every log, in order or not, a duration is the signed sum of the clock's steps while the application was held, modulo 2^64, and equals it if and only if the sum lies in [0, 2^64) |
| `AppForeground.RecordedExactlyWhenSeen` | services/src/motion/mc_motion_manager.cpp:3171-3221 | after every log an application has a record if and only if some event put it in state 2 |
| `AppForeground.ClockSetBack` | services/src/motion/mc_motion_manager.cpp:3206-3210 | an interval that ends before it starts has a negative sum and is counted as 2^64 seconds more |
| `AppForeground.MotionManager.UpdateEndtimeAndCompute` | services/src/motion/mc_motion_manager.cpp:3223-3258 | reports the first five entries of a descending permutation of all records, and clears them |
| `AppForeground.ReportIsTheLongest` | services/src/motion/mc_motion_manager.cpp:3223-3258 | the report names min(5, n) different applications with their seconds in the foreground, none shorter than one omitted |
| `TargetSelection.OverlapIsSymmetric` | services/src/controller/mc_camera_tracking_controller.cpp:914-946 | the ratio does not depend on the order |
| `TargetSelection.OverlapIsAShare` | services/src/controller/mc_camera_tracking_controller.cpp:914-946 | the ratio lies in [0, 1] for any two rectangles |
| `TargetSelection.FullOverlapIsContainment` | services/src/controller/mc_camera_tracking_controller.cpp:914-946 | for proper rectangles the ratio is 1 exactly when one contains the other |
| `TargetSelection.SomeOverlapIsACommonPoint` | services/src/controller/mc_camera_tracking_controller.cpp:914-946 | the ratio is positive exactly for two rectangles of more than 0.0001 in area, with positive right and bottom edges, that share an inner point |
| `TargetSelection.OverlapIsTheSharedArea` | services/src/controller/mc_camera_tracking_controller.cpp:914-946 | the ratio times the smaller area is the area of the region whose inner points are exactly the common ones |
| `TargetSelection.CountedOnce` | services/src/controller/mc_camera_tracking_controller.cpp:845-869 | a count of one means that one object overlaps and no other does, and conversely |
| `TargetSelection.SelectBestObjectByRegion` | services/src/controller/mc_camera_tracking_controller.cpp:711-734 | the first face or head of largest overlap above 0.1, or none exactly if every one is at most 0.1 |
| `TargetSelection.FindFaceForHead` | services/src/controller/mc_camera_tracking_controller.cpp:790-814 | the first face of largest overlap above 0.1, or none exactly if every one is at most 0.1 |
| `TargetSelection.FindBestFaceOrHeadForBody` | services/src/controller/mc_camera_tracking_controller.cpp:816-843 | the only overlapping face, else the only overlapping head, else none |
| `TargetSelection.FindBestMatchForBody` | services/src/controller/mc_camera_tracking_controller.cpp:845-869 | the overlapping object if there is exactly one, else none |
| `TargetSelection.ProcessTargetByType` | services/src/controller/mc_camera_tracking_controller.cpp:736-788 | a head gives way to the face that overlaps it most, a body or locked salient object to the only overlapping face, else to the only overlapping head; everything else is its own target, and a target that is not the object overlaps it by more than 0.1 |
| `TargetSelection.TargetIsDetermined` | services/src/controller/mc_camera_tracking_controller.cpp:736-788 | that specification leaves no choice |
| `CameraTracking.TargetFollowsTheTrackedObject` | services/src/controller/mc_camera_tracking_controller.cpp:677-912 | on a nonempty list the target is a member; if the tracked id is present it is that object or a face or head overlapping it by more than 0.1, and for a body the unique face, else the unique head, else the body |
| `CameraTracking.SelectionInOrder` | services/src/controller/mc_camera_tracking_controller.cpp:677-912 | the selected object is the first of the tracked id; else, in cinematic mode, a face or head over the region by more than 0.1; else the first locked salient one; else the first of the last id; else the first whose corner is within 0.0001; else the first of all |
| `CameraTracking.McCameraTrackingController.GetTrackingTarget` | services/src/controller/mc_camera_tracking_controller.cpp:677-709 | succeeds exactly on a nonempty list, follows the order of criteria, and decides the lock anew only in the fallback |
| `CameraTracking.McCameraTrackingController.GetTrackingTargetFallback` | services/src/controller/mc_camera_tracking_controller.cpp:871-912 | locked salient object, last target, same region, first object, in this order; the lock is on exactly if there is a locked salient object |
| `CameraTracking.McCameraTrackingController.CinematicVideoModeTrackingTargetFilter` | services/src/controller/mc_camera_tracking_controller.cpp:948-997 | without a lock everything passes; with one, a region without extent is rejected, and a change of target is held back until ten were, unless it is the same person in an overlapping place; a frame that passes clears the count |
| `CameraTracking.McCameraTrackingController.BuildTrackingParams` | services/src/controller/mc_camera_tracking_controller.cpp:624-675 | a frame is accepted or rejected as a step of the machine; it has the target's 16-bit id and rectangle and the type FACE exactly for a face or no target, BODY exactly for a body; an accepted one is remembered as the very object returned |
| `CameraTracking.McCameraTrackingController.OnFocusTracking` | services/src/controller/mc_camera_tracking_controller.cpp:560-601 | one frame is one step of the machine, with the type of the remembered frame overwritten unless its region is lost |
| `CameraTracking.PauseCountStaysBounded` | services/src/controller/mc_camera_tracking_controller.cpp:971-996 | the count stays in 0..10 over every run |
| `CameraTracking.RejectionsOnlyCount` | services/src/controller/mc_camera_tracking_controller.cpp:662-675 | until a frame is accepted, the last accepted frame and rectangle stay, and the count is the number of frames held back |
| `CameraTracking.LastAcceptedIsRemembered` | services/src/controller/mc_camera_tracking_controller.cpp:624-675 | after every run the id and rectangle on record are those of the last frame accepted, and so is the type if its region was lost |
| `CameraTracking.AtMostTenPaused` | services/src/controller/mc_camera_tracking_controller.cpp:948-997 | at most ten frames are held back without one being accepted, whatever is dropped for a zero region in between |
| `CameraTracking.OneOfElevenIsAccepted` | services/src/controller/mc_camera_tracking_controller.cpp:948-997 | of any eleven frames in a row without a zero region one is accepted |
| `CameraTracking.NewTargetWaitsItsTurn` | services/src/controller/mc_camera_tracking_controller.cpp:971-996 | a new target that stays is held back until the count is full and accepted then, not earlier |
| `CameraTracking.ConversionNeedsALostBody` | services/src/controller/mc_camera_tracking_controller.cpp:971-994 | over every run of the standard build a change of target passes early if and only if the last frame was a body with a lost region and the new target is a face that overlaps it |
| `CameraTracking.ConversionExample` | services/src/controller/mc_camera_tracking_controller.cpp:971-994 | a run on which it does pass |
| `OffsetSlew.EveryRunStaysOnGrid` | services/src/controller/mc_camera_tracking_controller.cpp:1245-1268 | after every run the offsets are on the 0.01 grid and the targets on the 0.02 grid, all within 0.3 |
| `OffsetSlew.SlewInClosedForm` | services/src/controller/mc_camera_tracking_controller.cpp:1688-1702 | after k frames an offset has moved towards its target by 0.01 a frame and never past it |
| `OffsetSlew.TargetIsReached` | services/src/controller/mc_camera_tracking_controller.cpp:1688-1702 | the target is reached exactly from the frame numbered 100 times the distance on, at most the sixtieth |
| `OffsetSlew.SixtyFramesSettle` | services/src/controller/mc_camera_tracking_controller.cpp:1688-1702 | in every run sixty undisturbed frames bring both offsets to their targets |
| `OffsetSlew.PushesMoveTheOffset` | services/src/controller/mc_camera_tracking_controller.cpp:1245-1268 | after every run, n pushes of the stick and then sixty frames or more leave each offset 0.02 n up or down from its target, at most at 0.3, or at the target if the stick stays within 300 |
| `OffsetSlew.OffTheGridItNeverSettles` | services/src/controller/mc_camera_tracking_controller.cpp:1688-1702 | off the grid an offset swings about its target for ever |
| `OffsetSlew.LayoutStays` | services/src/controller/mc_camera_tracking_controller.cpp:1304-1330 | a layout that was set is the layout read back, however many frames follow |
| `OffsetSlew.McCameraTrackingController.SetStickOffset` | services/src/controller/mc_camera_tracking_controller.cpp:1245-1268 | a stick above 300 moves the target of its axis up by 0.02 but not past 0.3, one below -300 down by 0.02 but not past -0.3, any other leaves a target in range alone; the offsets in use stay |
| `OffsetSlew.McCameraTrackingController.AdjustOffset` | services/src/controller/mc_camera_tracking_controller.cpp:1688-1702 | moves both offsets by 0.01 towards their targets, or not at all within 0.0001 |
| `OffsetSlew.McCameraTrackingController.SetTrackingLayout` | services/src/controller/mc_camera_tracking_controller.cpp:1304-1321 | sets 0.2, -0.2 or 0 as target and current at once, for right, left and any other layout |
| `OffsetSlew.McCameraTrackingController.GetTrackingLayout` | services/src/controller/mc_camera_tracking_controller.cpp:1323-1331 | reads right above 0.05, left below -0.05, and middle between |
| `OffsetSlew.McCameraTrackingController.ResetOffsets` | services/src/controller/mc_camera_tracking_controller.cpp:293-296 | a change of camera or rotation centres everything |
| `OffsetSlew.McCameraTrackingController.UnInitOffsets` | services/src/controller/mc_camera_tracking_controller.cpp:248-249 | the end of a session centres the offsets but keeps the targets |
| `TargetSearch.AtMostOneTurnIsSwept` | services/src/controller/mc_camera_tracking_controller.cpp:1926-1967 | over every run, whatever stops fall where, at most 40 commands are sent and at most 6.28 rad swept |
| `TargetSearch.StepTells` | services/src/controller/mc_camera_tracking_controller.cpp:1364-1442 | in every run each step tells the client nothing or the number of the most recent frame, and exactly when; a turn is made exactly with nothing in sight and fewer than forty made |
| `TargetSearch.OneNotice` | services/src/controller/mc_camera_tracking_controller.cpp:1419-1442 | while a search is on a turn is pending and no notice was sent; when it has ended exactly one was, and nothing is left queued |
| `TargetSearch.NoticeExactlyUnlessMissed` | services/src/controller/mc_camera_tracking_controller.cpp:1364-1369 | a finished search has sent one notice if and only if no target appeared between its check and its first turn |
| `TargetSearch.MissedExample` | services/src/controller/mc_camera_tracking_controller.cpp:1419-1426 | a run on which the client is never told |
| `TargetSearch.StopDuringATurnIsUndoneExactlyWhen` | services/src/controller/mc_camera_tracking_controller.cpp:1926-1967 | a stop that falls between the start of a turn and the posting of the next lets the search go on if and only if no target is in sight and turns are left |
| `TargetSearch.UndoneStopIsToldTwice` | services/src/controller/mc_camera_tracking_controller.cpp:1419-1442 | and the client is then told twice that the search has ended |
| `TargetSearch.McCameraTrackingController.ExecSearchTask` | services/src/controller/mc_camera_tracking_controller.cpp:1926-1967 | with nothing in sight and fewer than forty turns made, one more turn and a task for the next; otherwise the end of the search |
| `TargetSearch.McCameraTrackingController.SearchTargetStop` | services/src/controller/mc_camera_tracking_controller.cpp:1419-1442 | ends a search that is on, drops its tasks and sends the number in sight; otherwise changes nothing |
| `TargetSearch.McCameraTrackingController.SearchTarget` | services/src/controller/mc_camera_tracking_controller.cpp:1364-1369 | answers at once with the number in sight, or takes the first turn |
| `TargetSearch.McCameraTrackingController.UpdateTrackingTargetNum` | services/src/controller/mc_camera_tracking_controller.cpp:652-661 | takes the number over, and queues a stop exactly if it is positive and a search is on |
| `MechRegistry.MechConnectManager.AddMechInfo` | services/src/connect/mc_connect_manager.cpp:264-275 | ends whenever there are fewer than INT32_MAX records; a free id is kept, a taken one is replaced by the nearest free one above it or else, after INT32_MAX - 1, from 0 on; the others stay, and with a new mac it is an insertion in the map by mac |
| `MechRegistry.FailuresNeedRecords` | services/src/connect/mc_connect_manager.cpp:269-271 | k failed rounds of the id search need k records |
| `MechRegistry.FirstFreeIsNearest` | services/src/connect/mc_connect_manager.cpp:264-275 | the first free candidate has every id before it in use, up from the wanted one, or to the end and from 0 on |
| `MechRegistry.CandidatesDiffer` | services/src/connect/mc_connect_manager.cpp:269-271 | the ids tried within INT32_MAX rounds are all different, from a negative start too |
| `MechRegistry.MechConnectManager.NotifyMechState` | services/src/connect/mc_connect_manager.cpp:176-214 | changes one record where it stands; a wheel base on its first connection is spared the disconnect once |
| `MechRegistry.MechConnectManager.SetRealMechName` | services/src/connect/mc_connect_manager.cpp:321-336 | changes the name of the record with that id and nothing else |
| `MechRegistry.MechConnectManager.SetMechType` | services/src/connect/mc_connect_manager.cpp:338-350 | changes the type of the record with that id and nothing else |
| `MechRegistry.MechConnectManager.SetMechanicGattState` | services/src/connect/mc_connect_manager.cpp:352-363 | changes one field of the record of least id with that mac and nothing else; with unique macs, a map update at that mac |
| `MechRegistry.MechConnectManager.SetMechanicPairState` | services/src/connect/mc_connect_manager.cpp:378-389 | the same for the pair state |
| `MechRegistry.MechConnectManager.SetMechanicHidState` | services/src/connect/mc_connect_manager.cpp:404-415 | the same for the HID state |
| `MechRegistry.MechConnectManager.GetMechInfo` | services/src/connect/mc_connect_manager.cpp:308-319 | finds the record of least id with that mac, or nothing exactly if there is none; with unique macs, a lookup in the map |
| `MechRegistry.MechConnectManager.RemoveMechInfoByMac` | services/src/connect/mc_connect_manager.cpp:277-291 | removes every record with that mac, keeps the others in order, and with unique macs is a removal from the map |
| `MechRegistry.WithoutMacKeepsTheOthers` | services/src/connect/mc_connect_manager.cpp:277-291 | exactly the records with another mac stay |
| `MechRegistry.UpdateIsByMac` | services/src/connect/mc_connect_manager.cpp:352-415 | writing a field of one record is an update of the map at its mac |
| `MechRegistry.InsertIsByMac` | services/src/connect/mc_connect_manager.cpp:264-275 | adding a record with a new mac is an insertion in the map |
| `MechRegistry.RemovalIsByMac` | services/src/connect/mc_connect_manager.cpp:277-291 | removing by mac is a removal from the map |

## Left out

- Bluetooth, GATT, HID, pairing waits and connection threads: a foreign stack; sending is an outcome of a step.
- IPC stubs, parcels, N-API and ANI glue, permissions: field copying. Command ids are distinct by assumption where a theorem needs it.
- The command classes and their factory: a command is whether it fits a frame, whether it awaits an answer and how often it is retried; a motion command is its callback and its duration. The factory makes every command (services/src/transport/command/mc_command_factory.cpp:159-198), so the branches for a missing one are not modelled.
- The table of search callbacks on the client: an entry is taken out and called in the same way as a promise.
- Null event handlers, destructors, and the sends dropped before a number is taken (expired data, Bluetooth off, a command that does not marshal): they take no step.
- Received data that is not an acknowledgement: it goes to subscribers and does not touch the parked requests.
- Results of protocol 1 and its rotation by speed: they are notified without being taken out, so there is no exactly-once guarantee to prove.
- Restoring tracking after an action: the id it depends on is never assigned in the code.
- Rounding of floating-point numbers, overflow of the 32-bit sum of a rotation's duration and its timeout, infinities other than the one in `MoveSegments`, and casts outside the range of their type, which the language leaves undefined.
- Reading and writing floats and strings in the data buffer, which copy bytes as the integers do.
- The roll and pitch speed checks: the same loops as the yaw speed check over other fields.
- The further clamp of a relative rotation to absolute limits, and the range check on its arguments.
- Requests answered before they take an id: no segments to run (COMPLETED) and arguments out of range (SYSTEM_ERROR).
- The region-of-interest arithmetic, fields of view, gravity and the prediction of the extended build.
- TargetSearch.McCameraTrackingController.SearchTarget: the start of a search on a device with limited yaw, which first turns to the limit, and the error returns when limits or position cannot be read are not part of it.
- The limits on wheel speed: one comparison per bound.
- `std::sort` is any sorted permutation; the report does not depend on the order of equal durations.
- The ordered set of records is a sequence in id order; that an iterator stays valid across an erase is not modelled.
- CameraTracking.McCameraTrackingController.OnFocusTracking: the extended build, which hands frames on in a delayed task, is not part of it.
- CameraTracking.McCameraTrackingController.BuildTrackingParams: the time stamps, the switch of action control and the search are not part of it; the last is in `TargetSearch`.
