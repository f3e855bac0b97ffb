# A verified model of BatteryOS

BatteryOS virtualises batteries: physical ones are aggregated into larger logical batteries and split into smaller
ones, and clients schedule charging and discharging currents on them for intervals of time. This project models
the parts of it whose correctness is not obvious and proves what they guarantee.

| file | what it models |
|---|---|
| `EventQueue.dfy`, `Battery.dfy` | the V2 scheduler: an ordered set of events, `schedule_set_current`, the background thread |
| `Splitter.dfy`, `SplitterRuns.dfy`, `SplitterSystem.dfy`, `BALSplitter.dfy`, `ChargeEstimate.dfy` | the V2 splitter policy: many children on one queue, forwarding to the source, charge estimates |
| `Waterfall.dfy`, `Refresh.dfy` | the V2 tranche and reservation refresh: in-place distribution loops |
| `Topology.dfy`, `RemovalOrder.dfy`, `DirectoryManager.dfy`, `StoppedRemoval.dfy`, `PartitionRuns.dfy` | the V3 directory: two adjacency maps, recursive removal and what it leaves when it stops, the manager's create operations over runs |
| `Aggregator.dfy` | the V2 and V3 aggregate batteries: C-rate limits and dispatch |
| `ProportionalPolicy.dfy` | the V1 proportional splitter with metering |
| `Wire.dfy`, `Rpc.dfy`, `Jbd.dfy` | byte formats: integers, V2 requests, JBD frames and checksums |
| `Sums.dfy`, `Reals.dfy`, `Options.dfy` | shared definitions |

How the pieces fit together. A queue of events is read as a timeline: for every time, the current in force. The
specification of a scheduler is the plain overlay of requests in call order, and the scheduler's edits of the queue are
proved to refine it over every run of requests, wake-ups and refreshes. Each stateful component has its operations as
functions on a state value, its methods (in-place loops, classes) are proved equal to those functions, and the
theorems are about the functions and their runs.

Where the code does not meet the plain specification, the project says exactly when it does:

- Nothing checks that an interval ends after it starts. `BatteryScheduler.OverlayExactly` and `Splitter.OverlayExactly` give
  the exact conditions under which a request is an overlay, `MisorderedRequestSticks` says what happens otherwise, and
  `MisorderedRequestExample` and `DelaysTurnAround` are inputs, the second with an interval that is ordered until the
  delays turn it around.
- The scan that picks the first delay does not skip refresh events. `BeforeSetIsProfile` and `DelayedStartExactly` say exactly
  when a request starts as early as it should; `RefreshPicksDelay` is a run in which it does not.
- A splitter forwards one total for the whole interval. `SplitAgreesExactly` says that source and children then agree if
  and only if the siblings' total is constant over it; `StaggeredRequestsDisagree` is an input. `DelayedSplitAgreesAt` is the
  condition for a source with delays.
- The proportional policy overwrites the charge estimates when they cancel out. `ReestimatedExactly` and
  `WakeIntegratesCharge` say when that matters, and `EstimateIsReset` is an input.
- A splitter edits its own queue before the source answers. `RefusedSplitAgrees` says what a refusal leaves,
  and `RefusedSplitDisagrees` is an input.
- When a driver refuses, the due events are lost. `RefusedWakeKeepsTimeline` says when that matters, and
  `RefusedWakeExample` is an input.
- The backward loops of the refresh functions count an unsigned index down with a condition that is always true.
  `BreaksExactly` and the lemmas about each pass say exactly when they stay inside the array; `EmptySourceLeavesArray` is a
  status on which one does not.
- Naming a source twice in one aggregate can make a removal stop half way. On every state that callers can bring about,
  `RemoveBattery` succeeds if and only if everything below its target is listed once by the parent through which removal
  first reaches it (`RemovableExactly`); that parent is found by going down from the target, each time to the first child
  above the battery in question. A removal that stops has deleted exactly what lies to the left of the way down to where it
  stops (`StopsAtRepeat`), which is never nothing, so it can be asked for again (`GoneExactly`; `RepeatedSource` is an input). Whether a partition can be removed depends on how often its first listed sibling is
  named, not on how often it is named itself (`NamedOnceIsNotIt`).
- Partition managers get made-up names. A run ends in an exit exactly when a caller has chosen the name that comes next
  (`ExitsExactly`; `TakenNameExits` is an input); `PoliteRunsGoOn` and `PartitionCreated` say that otherwise none does.
- Adding a part to a V1 splitter sets two meters by the scales. `AddingAccounts` says exactly when the meters account for the
  source's charge afterwards, `RunReportsOwnCharge` what that means for the reports, and `ChildAddedExactly` when adding fails.
- V3's charging branch shares out nothing as asked (`ChargingNeverAddsUp`), and one empty source stops the discharging of
  V3's whole aggregate but not of V2's (`FormulasAgree`).
- A JBD reply's register address is not covered by its checksum (`OneByteChanged`), V1 does not look at the checksum's high
  byte (`V1MissesHighByte`), and after three failures `query_info` returns unchecked data (`QueryIsChecked`).
- The server drops the client's `is_greater_than_target` (`ScheduleArrives`).

Conventions. Clock readings, driver answers, arriving bytes and batteries' idleness are parameters; clock readings do not
decrease. A locked region is one atomic step. `double` is `real`, `int64_t` is `int`, casts truncate towards zero. `get_delay`
is an arbitrary function to the non-negative numbers.

## Model

| member | source | states |
|---|---|---|
| EventQueue.EmplaceKeepsOrder | BatteryOS-V2/BatteryInterface.cpp:348-357 | inserting by the four-level event order keeps the set strictly increasing, loses nothing, and adds the event if no equivalent one is there |
| EventQueue.InForceIsLatest | BatteryOS-V2/BatteryInterface.cpp:247-268 | what a scan over the queue ends with is the greatest due set-current event of the child, or nothing is due |
| EventQueue.RescheduledContents | BatteryOS-V2/BatteryInterface.cpp:276-316 | the queue after a request holds exactly the two new events and the old ones that are not the child's inside the closed interval |
| EventQueue.RescheduledInForce | BatteryOS-V2/BatteryInterface.cpp:276-316 | for an ordered interval: which event is in force at every time after the edit |
| EventQueue.MisorderedInForce | BatteryOS-V2/BatteryInterface.cpp:276-316 | the same for an interval that ends before it starts |
| EventQueue.RescheduledOthers | BatteryOS-V2/BALSplitter.hpp:321-400 | the edit for one child is invisible in every other child's timeline |
| EventQueue.DrainSplits | BatteryOS-V2/BatteryInterface.cpp:114-149 | draining what is due splits a timeline: the drained part up to the reading, the remaining events over it afterwards |
| EventQueue.RefreshIsInvisible | BatteryOS-V2/BatteryInterface.cpp:261-280 | refresh events never affect what the queue asks for at any time |
| EventQueue.RescheduledRefreshes | BatteryOS-V2/BatteryInterface.cpp:276-316 | an edit of the queue neither adds nor removes a refresh event |
| BatteryScheduler.OrderedRequestOverlays | BatteryOS-V2/BatteryInterface.cpp:227-316 | an accepted request whose delay-shifted interval is ordered turns the timeline into target on [start, end), old value elsewhere, at every time |
| BatteryScheduler.MisorderedRequestSticks | BatteryOS-V2/BatteryInterface.cpp:227-316 | the timeline after a request that ends before it starts, at every time |
| BatteryScheduler.OverlayExactly | BatteryOS-V2/BatteryInterface.cpp:227-316 | a request is the overlay at all times if and only if its shifted interval is ordered or the timeline held the target at the start |
| BatteryScheduler.MisorderedRequestExample | BatteryOS-V2/BatteryInterface.cpp:227-316 | an accepted request for [5, 3) on an idle battery stays in force for ever |
| BatteryScheduler.DelaysTurnAround | BatteryOS-V2/BatteryInterface.cpp:271-316 | an accepted request for [5, 6) that the delays turn around stays in force for ever |
| BatteryScheduler.BeforeSetIsLast | BatteryOS-V2/BatteryInterface.cpp:250-268 | the scan that picks the first delay ends with the current of the last event it sees, refresh events included, for ordered and misordered intervals |
| BatteryScheduler.BeforeSetIsProfile | BatteryOS-V2/BatteryInterface.cpp:250-274 | that current is the timeline's at the start if and only if the last event up to the start is not a refresh event or the timeline holds 0 there |
| BatteryScheduler.DelayedStartExactly | BatteryOS-V2/BatteryInterface.cpp:274 | under exactly that condition a request starts, whatever the delays, as early as the delay from the timeline's own current asks for |
| BatteryScheduler.RefreshPicksDelay | BatteryOS-V2/BatteryInterface.cpp:250-274 | a run in which a queued refresh event makes a request take effect 100 ticks early |
| BatteryScheduler.WakeKeepsTimeline | BatteryOS-V2/BatteryInterface.cpp:83-189 | a wake-up sets the timeline's value at its last clock reading, and the timeline from there on does not change |
| BatteryScheduler.RefusedWakeKeepsTimeline | BatteryOS-V2/BatteryInterface.cpp:163-175 | if the driver refuses, the timeline survives if and only if nothing had to change |
| BatteryScheduler.RefusedWakeExample | BatteryOS-V2/BatteryInterface.cpp:163-175 | a driver that refuses once leaves the battery idle in the middle of a requested interval |
| BatteryScheduler.RunInvariant | BatteryOS-V2/BatteryInterface.cpp:83-345 | over every run the queue is ordered, its events are admissible and older than the clock |
| BatteryScheduler.RunFollowsRequests | BatteryOS-V2/BatteryInterface.cpp:83-345 | over every run of requests, wake-ups and refresh starts and stops, from the last wake-up on the queue stands for the call-order overlay of all accepted requests |
| BatteryScheduler.WakeAppliesRequests | BatteryOS-V2/BatteryInterface.cpp:83-345 | after every wake-up the battery's current is the call-order overlay at the loop's final clock reading |
| BatteryScheduler.StartQueuesRefresh | BatteryOS-V2/BatteryInterface.cpp:191-212 | starting background refresh turns it on and queues one refresh event, one staleness after the clock reading |
| BatteryScheduler.WakeQueuesRefresh | BatteryOS-V2/BatteryInterface.cpp:177-188 | a wake-up takes out exactly the due refresh events, and queues one more, one staleness after its reading, if there were any and refresh is on |
| BatteryScheduler.RunKeepsRefreshing | BatteryOS-V2/BatteryInterface.cpp:83-225 | over every run, as long as refresh is on, a refresh event is queued at the latest one staleness after the last clock reading |
| BatteryScheduler.DelayedEndFollowsRequests | BatteryOS-V2/BatteryInterface.cpp:247-275 | after every run the end of a request is moved by the delay from its target to the current that the calls, in call order, ask for at its end |
| BatteryScheduler.DelayedStartFollowsRequests | BatteryOS-V2/BatteryInterface.cpp:247-275 | its start is moved by the delay from the current that they ask for at its start to its target, for all delays, if and only if no refresh event is in the way or that current is 0 |
| BatteryScheduler.RequestAfterRun | BatteryOS-V2/BatteryInterface.cpp:227-316 | the timeline after one more request, with both delays in terms of the calls alone |
| BatteryScheduler.RunMeetsReference | BatteryOS-V2/BatteryInterface.cpp:227-345 | over every run without background refresh the accepted intervals are those of a reference computed from the calls, without a queue or a battery |
| BatteryScheduler.WakeMeetsReference | BatteryOS-V2/BatteryInterface.cpp:83-345 | so after every wake-up of such a run the battery has the current that the calls alone ask for |
| BatteryScheduler.Drain | BatteryOS-V2/BatteryInterface.cpp:108-149 | the drain loop takes exactly the events due at its last reading, and collects the set-current ones in order |
| BatteryScheduler.EraseEach | BatteryOS-V2/BatteryInterface.cpp:296-298 | erasing through the saved iterators removes exactly the saved events |
| BatteryScheduler.Battery.Preview | BatteryOS-V2/BatteryInterface.cpp:247-269 | the first scan finds the timeline's current at the end of the interval |
| BatteryScheduler.Battery.ScanInterval | BatteryOS-V2/BatteryInterface.cpp:276-289 | the second scan finds exactly the overlapped events and the setpoint to resume |
| BatteryScheduler.Battery.ReplaceInterval | BatteryOS-V2/BatteryInterface.cpp:271-316 | the whole edit under the lock is the specified one |
| BatteryScheduler.Battery.ScheduleSetCurrent | BatteryOS-V2/BatteryInterface.cpp:227-345 | accepted exactly if the start is not past; the new state is the specified one and valid |
| BatteryScheduler.Battery.WakeUp | BatteryOS-V2/BatteryInterface.cpp:83-189 | one pass of the background thread, with its repeated clock readings, is the specified step |
| BatteryScheduler.Battery.StartBackgroundRefresh | BatteryOS-V2/BatteryInterface.cpp:191-212 | starts only with a large enough staleness, and queues one refresh event |
| BatteryScheduler.Battery.StopBackgroundRefresh | BatteryOS-V2/BatteryInterface.cpp:214-225 | turns refresh off and says whether it was on; nothing else changes |
| ChargeEstimate.EstimateIsIntegral | BatteryOS-V2/BALSplitter.hpp:212-223 | for any number and placement of refreshes that do not reset it the estimate at any time is the initial charge less the integral of the applied currents |
| ChargeEstimate.EstimateSinceReset | BatteryOS-V2/BALSplitter.cpp:227-231 | from a reset on the same holds with the charge that it was reset to |
| ChargeEstimate.RefreshKeepsCharge | BatteryOS-V2/BALSplitter.cpp:277-281 | a refresh does not change the estimate read at any time |
| Splitter.RequestOverlaysOneChild | BatteryOS-V2/BALSplitter.hpp:277-412 | an ordered request overlays [start, end) on the named child and leaves every sibling alone, at every time |
| Splitter.MisorderedRequest | BatteryOS-V2/BALSplitter.hpp:277-412 | the child's timeline after a request that ends before it starts |
| Splitter.OverlayExactly | BatteryOS-V2/BALSplitter.hpp:277-412 | a request is the overlay on its child if and only if it is ordered or the child held the target at both ends |
| Splitter.RequestTotal | BatteryOS-V2/BALSplitter.hpp:277-412 | how the sum over all children moves, at every time |
| Splitter.PerformedIsInForce | BatteryOS-V2/BatteryInterface.cpp:151-160 | performing all drained events in order leaves each child with the last of its own |
| Splitter.WakeKeepsTimelines | BatteryOS-V2/BatteryInterface.cpp:83-189 | after a drain every child has its own timeline's value, and no timeline changes from there on |
| Splitter.PerformedIsRun | BatteryOS-V2/BALSplitter.hpp:212-223 | the shared event list acts on each child's charge estimate as that child's own steps alone |
| Splitter.ReestimatedExactly | BatteryOS-V2/BALSplitter.cpp:190-231 | a refresh under any policy leaves a child's estimate alone if and only if the estimates do not cancel out or the child is reset to what it had |
| Splitter.EstimateIsReset | BatteryOS-V2/BALSplitter.cpp:227-231 | estimates of -5 and 5 under the proportional policy: the first child has 5 again |
| Splitter.WakeIntegratesCharge | BatteryOS-V2/BALSplitter.hpp:212-223 | over a wake-up each child's estimate loses the integral of the currents applied to it if and only if the estimates are not given up or the child is reset to just that |
| Splitter.WakeKeepsTotal | BatteryOS-V2/BatteryInterface.cpp:151-160 | a wake-up does not change the children's total from its last reading on |
| Splitter.StartQueuesRefresh | BatteryOS-V2/BatteryInterface.cpp:191-212 | starting background refresh on a splitter queues one refresh event, one staleness after the clock reading |
| Splitter.WakeQueuesRefresh | BatteryOS-V2/BatteryInterface.cpp:177-188 | a splitter's wake-up takes out exactly the due refresh events and queues one more if there were any and refresh is on |
| Splitter.ScheduledKeepsRefreshes | BatteryOS-V2/BALSplitter.hpp:314-400 | a request for a child neither adds nor removes a refresh event |
| SplitterRuns.RunFollowsRequests | BatteryOS-V2/BALSplitter.hpp:277-412 | over every run of requests for any children, wake-ups, started, stopped and lazy refreshes, each child's timeline is the call-order overlay of its own accepted requests |
| SplitterRuns.WakeAppliesRequests | BatteryOS-V2/BatteryInterface.cpp:151-160 | after every wake-up each child's current is that overlay at the drain's last clock reading |
| SplitterRuns.RunIntegratesCharge | BatteryOS-V2/BALSplitter.hpp:212-223 | over every run from any state in which the estimates are not given up, lazy refreshes included, each child's estimate is the one it started with less the integral of the currents applied to it |
| SplitterRuns.OthersNeverReset | BatteryOS-V2/BALSplitter.cpp:269-281 | under the tranche and reservation policies that is every run |
| SplitterSystem.SplitAgreesAt | BatteryOS-V2/BALSplitter.hpp:314-408 | at any one time, a forwarded request keeps source and children in agreement if and only if the siblings' total there is that at the start |
| SplitterSystem.SourceIsAsked | BatteryOS-V2/BALSplitter.hpp:349-408 | after an accepted request a source without delays is asked, over the whole interval, for the siblings' total at its start plus the target, in the sense of the request, and outside for what it was before |
| SplitterSystem.DelayedSplitAgreesAt | BatteryOS-V2/BALSplitter.hpp:314-408 | the same for a source with any delays that keep the forwarded interval ordered |
| SplitterSystem.SplitAgreesExactly | BatteryOS-V2/BALSplitter.hpp:314-408 | agreement at all times survives a request if and only if the siblings' total is constant over its interval |
| SplitterSystem.RefusedSplitAgrees | BatteryOS-V2/BALSplitter.hpp:379-408 | what is left of the agreement when the source refuses |
| SplitterSystem.RefusedSplitDisagrees | BatteryOS-V2/BALSplitter.hpp:379-408 | a source whose clock is ahead refuses, and the child asks for 3 that the source does not know of |
| SplitterSystem.StaggeredRequestsDisagree | BatteryOS-V2/BALSplitter.hpp:349-355 | two staggered requests after which the source is 5 short |
| SplitterSystem.RunAgrees | BatteryOS-V2/BALSplitter.hpp:277-412 | over every interleaving of steady requests, wake-ups and refreshes on both sides, the source's timeline is the sum of the children's |
| SplitterSystem.SourceCarriesTheSum | BatteryOS-V2/BALSplitter.hpp:277-412 | the current that the source is set to is the sum of what the children ask for at that moment |
| SplitterPolicy.TotalForwarded | BatteryOS-V2/BALSplitter.hpp:349-357 | summing the preview with the target in place gives siblings plus target |
| SplitterPolicy.Scan | BatteryOS-V2/BALSplitter.hpp:325-348 | one preview loop follows every child's current and collects exactly the named child's overlapped events |
| SplitterPolicy.Preview | BatteryOS-V2/BALSplitter.hpp:314-373 | both loops find all children's currents at the start and at the later end |
| SplitterPolicy.BALSplitter.constructor | BatteryOS-V2/BALSplitter.hpp:120-197 | every child starts idle with its charge, the state is valid |
| SplitterPolicy.BALSplitter.ScheduleSetCurrentOf | BatteryOS-V2/BALSplitter.hpp:277-412 | refused requests change nothing; others edit splitter and source as specified, and the result is the source's answer |
| SplitterPolicy.BALSplitter.Reschedule | BatteryOS-V2/BALSplitter.hpp:314-400 | the queue edit and the total are the specified ones |
| SplitterPolicy.BALSplitter.SetCurrent | BatteryOS-V2/BALSplitter.hpp:212-223 | brings the one child's estimate to the present and sets its current |
| SplitterPolicy.BALSplitter.EstimateCharges | BatteryOS-V2/BALSplitter.cpp:277-281 | the loop brings every child's estimate to the present |
| SplitterPolicy.BALSplitter.Reestimate | BatteryOS-V2/BALSplitter.cpp:186-231 | what the refresh functions do to the estimates, with the reset of the proportional policy |
| SplitterPolicy.BALSplitter.GetStatusOf | BatteryOS-V2/BALSplitter.hpp:252-271 | in lazy mode a stale status of a known child refreshes the estimates, otherwise nothing changes |
| SplitterPolicy.BALSplitter.WakeUp | BatteryOS-V2/BatteryInterface.cpp:83-189 | one pass of the background thread of a splitter is the specified step |
| SplitterPolicy.BALSplitter.StartBackgroundRefresh | BatteryOS-V2/BatteryInterface.cpp:191-212 | starts only with a large enough staleness, and queues one refresh event |
| Waterfall.VisitedPoured | BatteryOS-V2/BALSplitter.cpp:312-399 | after each step of a pass the visited children have gained exactly their room, and all of the residual from the pivot on |
| Waterfall.PourConserves | BatteryOS-V2/BALSplitter.cpp:312-399 | children plus residual add up to what they did before, whether the pass breaks or not |
| Waterfall.BreaksExactly | BatteryOS-V2/BALSplitter.cpp:312-399 | a pass breaks if and only if some prefix of the visited children has room |
| Waterfall.BreaksIfRoom | BatteryOS-V2/BALSplitter.cpp:312-399 | it breaks if all children together have room, and only then if none is beyond its limit |
| Waterfall.PourIsGreedy | BatteryOS-V2/BALSplitter.cpp:372-399 | priority: no other distribution within the limits gives any prefix of the visited children more |
| Waterfall.PourStaysBetween | BatteryOS-V2/BALSplitter.cpp:320-370 | every child ends between where it was and its limit |
| SplitterRefresh.TakeDeficit | BatteryOS-V2/BALSplitter.cpp:254-265 | the in-place deficit loop, for the max fields and the capacity, is the downward pass from the last child |
| SplitterRefresh.FillCapacity | BatteryOS-V2/BALSplitter.cpp:373-383 | the in-place surplus loop is the upward pass, from either end |
| SplitterRefresh.AddCurrent | BatteryOS-V2/BALSplitter.cpp:321-345 | the current loop for a surplus is the upward pass within the branches' limits |
| SplitterRefresh.RemoveCurrent | BatteryOS-V2/BALSplitter.cpp:346-370 | the current loop for a deficit is the downward pass, forward in tranche and backward in reservation |
| SplitterRefresh.DeficitBreaksExactly | BatteryOS-V2/BALSplitter.cpp:249-267 | a deficit loop breaks if the source value is at least n - 1 (max fields) or n (capacity), and only then if every child had at least 1 |
| SplitterRefresh.SurplusBreaksExactly | BatteryOS-V2/BALSplitter.cpp:507-517 | a capacity surplus is placed if the source's capacity is at most the maxima together, and only then from legal capacities |
| SplitterRefresh.CurrentIsSafe | BatteryOS-V2/BALSplitter.cpp:454-504 | from legal currents every child stays in its range and keeps its direction |
| SplitterRefresh.CurrentBreaksExactly | BatteryOS-V2/BALSplitter.cpp:454-504 | the current pass ends with residual 0 if and only if the residual is within the headroom the branches use |
| SplitterRefresh.MaxPassAddsUp | BatteryOS-V2/BALSplitter.cpp:249-267 | a max field adds up to the source's value when the loop breaks, and it does if that value leaves a surplus or is at least n - 1; only then if every child had at least 1 |
| SplitterRefresh.MaxPassStaysNonNegative | BatteryOS-V2/BALSplitter.cpp:249-267 | no child is left with a negative maximum |
| SplitterRefresh.CurrentPassAddsUp | BatteryOS-V2/BALSplitter.cpp:320-370 | the current pass conserves the total and leaves nothing if the source's current is within the limit in the direction of the residual; only then from legal currents |
| SplitterRefresh.CapacityPassAddsUp | BatteryOS-V2/BALSplitter.cpp:372-399 | the capacity pass conserves the total and leaves nothing if a surplus is within the maxima together or a deficit leaves 1 per child; only then from charges between 1 and the maximum |
| SplitterRefresh.RefreshAddsUp | BatteryOS-V2/BALSplitter.cpp:269-402 | a whole refresh under either policy: if the source fits, every loop breaks and every field adds up to the source's |
| SplitterRefresh.RefreshBreaksExactly | BatteryOS-V2/BALSplitter.cpp:404-530 | from legal children the loops all break if and only if the source fits |
| SplitterRefresh.RefreshPlacesSurplus | BatteryOS-V2/BALSplitter.cpp:506-517 | a surplus of charge is placed whole whatever becomes of the other fields |
| SplitterRefresh.SurplusOfChargeGoesTo | BatteryOS-V2/BALSplitter.cpp:373-383 | whole refresh: a surplus of charge goes to the first children of a tranche and the last of a reservation, against every other split within the new maxima |
| SplitterRefresh.DeficitOfChargeHits | BatteryOS-V2/BALSplitter.cpp:518-530 | whole refresh: a deficit of charge is taken from the last children under both policies, against every other split that leaves 1 each |
| SplitterRefresh.SurplusOfCurrentGoesTo | BatteryOS-V2/BALSplitter.cpp:321-345 | whole refresh: a surplus of current goes to the last children under both policies, against every other legal split that turns nobody around |
| SplitterRefresh.DeficitOfCurrentHits | BatteryOS-V2/BALSplitter.cpp:346-370 | whole refresh: a deficit of current is taken from the first children of a tranche and the last of a reservation |
| SplitterRefresh.MaxGoesTo | BatteryOS-V2/BALSplitter.cpp:249-267 | a surplus in a max field goes to one child, the first of a tranche or the last of a reservation; a deficit is taken from the last children |
| SplitterRefresh.SurplusOfMaximaGoesTo | BatteryOS-V2/BALSplitter.cpp:312-318 | whole refresh: in each max field with a surplus everybody but that child keeps the own maximum |
| SplitterRefresh.RefreshPivots | BatteryOS-V2/BALSplitter.cpp:320-399 | whole refresh: for charge and current there is a pivot, counted from the policy's end, with every child before it at its limit and every child behind it unchanged |
| SplitterRefresh.RefreshedCurrents | BatteryOS-V2/BALSplitter.cpp:269-402 | a whole refresh leaves currents that are legal for the new maxima legal and in their direction |
| SplitterRefresh.RefreshedCharges | BatteryOS-V2/BALSplitter.cpp:269-402 | a whole refresh leaves no child above its new maximum capacity, if none was above it before and the maxima are at least 1 |
| SplitterRefresh.EmptySourceLeavesArray | BatteryOS-V2/BALSplitter.cpp:249-267 | two children with maxima of 5 under a source with 0: the backward loop does not break |
| SplitterRefresh.DistributeMax | BatteryOS-V2/BALSplitter.cpp:249-267 | `DISTRIBUTE_MAX_STATUS` in place |
| SplitterRefresh.DistributeCurrent | BatteryOS-V2/BALSplitter.cpp:320-370 | the current block in place, direction by sign and policy |
| SplitterRefresh.DistributeCapacity | BatteryOS-V2/BALSplitter.cpp:372-399 | the capacity block in place, direction by sign and policy |
| SplitterRefresh.Children.Refresh | BatteryOS-V2/BALSplitter.cpp:269-530 | the refresh functions stay inside the arrays exactly if the backward passes break, and then compute the specified shares |
| Topology.ConeIsClosed | BatteryOS-V3/src/BatteryDirectory.cpp:81-107 | what lies at or below a battery is closed under children |
| Topology.InducedConsistent | BatteryOS-V3/src/BatteryDirectory.cpp:81-107 | removing any set and pruning leaves two inverse, non-empty, acyclic maps over existing names |
| Topology.InducedReaches | BatteryOS-V3/src/BatteryDirectory.cpp:81-107 | removing a closed set keeps every path between the others |
| Topology.InducedCone | BatteryOS-V3/src/BatteryDirectory.cpp:81-107 | what lies below a battery afterwards is what lay below it less what was removed |
| DirectoryRemoval.ConeSplit | BatteryOS-V3/src/BatteryDirectory.cpp:85-92 | a battery and all below it are the battery and its children's cones |
| DirectoryRemoval.NextConeGone | BatteryOS-V3/src/BatteryDirectory.cpp:86-90 | one more child removed, including diamonds between siblings' descendants |
| DirectoryRemoval.NextIsReady | BatteryOS-V3/src/BatteryDirectory.cpp:86-90 | siblings that are apart are still there when their turn comes |
| DirectoryRemoval.BatteryDirectory.AddBattery | BatteryOS-V3/src/BatteryDirectory.cpp:25-34 | adds a new name, refuses a taken one |
| DirectoryRemoval.BatteryDirectory.AddEdge | BatteryOS-V3/src/BatteryDirectory.cpp:49-61 | extends both maps when both names exist, else nothing |
| DirectoryRemoval.BatteryDirectory.RemoveLeaf | BatteryOS-V3/src/BatteryDirectory.cpp:92-106 | detaching a childless battery leaves the induced graph |
| DirectoryRemoval.BatteryDirectory.RemoveBattery | BatteryOS-V3/src/BatteryDirectory.cpp:81-107 | on any acyclic directory it terminates; it succeeds if and only if the battery is there and every child is there and removable in its turn; success removes exactly the cone and leaves the induced graph; failure removes exactly the cones before the child at which it stops and what that one's removal took out |
| RemovalOrder.FirstParentStays | BatteryOS-V3/src/BatteryDirectory.cpp:81-107 | the parent through which removal first reaches a battery does not change while batteries elsewhere go |
| RemovalOrder.Descend | BatteryOS-V3/src/BatteryDirectory.cpp:85-92 | what one child is the first to lead to is reached from it in the same way when its turn comes |
| RemovalOrder.FirstParentVia | BatteryOS-V3/src/BatteryDirectory.cpp:85-92 | a grandchild is first reached through the first listed child that has it |
| RemovalOrder.RemovableExactly | BatteryOS-V3/src/BatteryDirectory.cpp:81-107 | where no battery is below a sibling, removal succeeds if and only if everything below is listed once by the parent through which removal first reaches it |
| RemovalOrder.RemovedIs | BatteryOS-V3/src/BatteryDirectory.cpp:81-107 | what a removal takes out is closed and below the battery; if it stops the battery stays and something goes |
| RemovalOrder.InducedBalanced | BatteryOS-V3/src/BatteryDirectory.cpp:92-104 | removing any set keeps both maps listing every edge equally often |
| RemovalOrder.WithEdgeBalanced | BatteryOS-V3/src/BatteryDirectory.cpp:58-59 | so does adding an edge |
| StoppedRemoval.StoppedExactly | BatteryOS-V3/src/BatteryDirectory.cpp:81-107 | a removal that stops has taken out exactly what is at or below earlier children along a way down from its target, which ends where a child is at or below an earlier one; nothing on the way goes |
| StoppedRemoval.StopsAtRepeat | BatteryOS-V3/src/BatteryDirectoryManager.cpp:34-46 | in every state that callers can bring about that way ends where a child is listed once more |
| DirectoryManager.OnlyManagersSplit | BatteryOS-V3/src/BatteryDirectoryManager.cpp:79-185 | every battery that is not a partition manager feeds at most one consumer |
| DirectoryManager.InvariantAntichains | BatteryOS-V3/src/BatteryDirectoryManager.cpp:79-185 | in a topology of the allowed shape, repeats or not, no battery is below a sibling |
| DirectoryManager.InvariantApart | BatteryOS-V3/src/BatteryDirectoryManager.cpp:79-185 | without repeats no child stands in the way of a later one |
| DirectoryManager.GrownInvariant | BatteryOS-V3/src/BatteryDirectoryManager.cpp:79-185 | adding a battery below free sources, or a partition below its manager, keeps the topology invariant |
| DirectoryManager.GrownUndone | BatteryOS-V3/src/BatteryDirectoryManager.cpp:107-116 | taking a new battery out again gives the directory back |
| DirectoryManager.RepeatedSourceBlocks | BatteryOS-V3/src/BatteryDirectoryManager.cpp:79-117 | after a new aggregate, removing any older battery succeeds if and only if it did before and the source through which removal first reaches the aggregate is named once |
| DirectoryManager.SourceNamedOnce | BatteryOS-V3/src/BatteryDirectoryManager.cpp:79-117 | the directory can remove one of the sources if and only if that source is named once |
| DirectoryManager.FirstListedSource | BatteryOS-V3/src/BatteryDirectoryManager.cpp:34-46 | through the manager it is the first listed partition leading to the aggregate that has to be named once |
| DirectoryManager.InducedInvariant | BatteryOS-V3/src/BatteryDirectoryManager.cpp:34-46 | removing a closed set keeps the topology invariant |
| DirectoryManager.PartitionedInvariant | BatteryOS-V3/src/BatteryDirectoryManager.cpp:177-182 | adding partitions one by one keeps it, also when it stops half way |
| DirectoryManager.StepGood | BatteryOS-V3/src/BatteryDirectoryManager.cpp:34-185 | every manager operation keeps the invariant |
| DirectoryManager.ReachableIsGood | BatteryOS-V3/src/BatteryDirectoryManager.cpp:34-185 | in every state reached with distinct sources per aggregate both maps list the same edges equally often, mention only batteries that exist, are without empty lists and repeats, acyclic; non-managers feed at most one consumer; every partition has its manager as its only parent |
| DirectoryManager.NoRepeatedParents | BatteryOS-V3/src/BatteryDirectory.cpp:58-59 | without repeated children there are no repeated parents either |
| DirectoryManager.RunInvariant | BatteryOS-V3/src/BatteryDirectoryManager.cpp:34-185 | in every state whatever callers do, repeated sources and stopped removals included, all of that but the absence of repeats |
| DirectoryManager.GoneExactly | BatteryOS-V3/src/BatteryDirectoryManager.cpp:34-46 | a removal takes out exactly the target and everything below it if everything below is listed once on the way down; otherwise the target stays and something below it goes |
| DirectoryManager.GoodIsRemovable | BatteryOS-V3/src/BatteryDirectoryManager.cpp:34-46 | without repeats everything can be removed |
| DirectoryManager.RepeatedSource | BatteryOS-V3/src/BatteryDirectoryManager.cpp:79-117 | sources [s, s]: removing s takes out the aggregate and nothing else, and succeeds when asked for again |
| DirectoryManager.RepeatedHalves | BatteryOS-V3/src/BatteryDirectoryManager.cpp:34-46 | an aggregate of two partitions with any repeats: removing either one stops if and only if the first of them that is a source is named more than once |
| DirectoryManager.NamedOnceIsNotIt | BatteryOS-V3/src/BatteryDirectoryManager.cpp:34-46 | with sources [p1, p1, p2] removing p2 stops, with [p1, p2, p2] it succeeds |
| DirectoryManager.ReachableIsRemovable | BatteryOS-V3/src/BatteryDirectoryManager.cpp:34-46 | in every state reached with distinct sources every battery is removable |
| DirectoryManager.PartitionsGoTogether | BatteryOS-V3/src/BatteryDirectoryManager.cpp:34-46 | removing a partition takes its manager and all its siblings |
| PartitionRuns.DecimalReads | BatteryOS-V3/src/BatteryDirectoryManager.cpp:18-20 | the numeral in a manager's name reads as the counter and has no leading zero |
| PartitionRuns.ManagerNameInjective | BatteryOS-V3/src/BatteryDirectoryManager.cpp:18-20 | no two counters make the same name |
| PartitionRuns.PoliteRunsGoOn | BatteryOS-V3/src/BatteryDirectoryManager.cpp:119-185 | if callers choose no name that the manager could make up, no run exits and the next manager's name is always free |
| PartitionRuns.ExitsExactly | BatteryOS-V3/src/BatteryDirectoryManager.cpp:163-173 | after any run a step exits if and only if it asks for a partition that the checks let through and a caller has chosen the next manager's name |
| PartitionRuns.TakenNameExits | BatteryOS-V3/src/BatteryDirectoryManager.cpp:163-173 | a battery named pManager1 and a first partition: the process ends |
| PartitionRuns.PartitionCreated | BatteryOS-V3/src/BatteryDirectoryManager.cpp:119-185 | after every such run every accepted request with new, different names makes a new manager below the source and exactly these partitions below it, in order, and nothing else |
| PartitionRuns.PartitionsStop | BatteryOS-V3/src/BatteryDirectoryManager.cpp:177-182 | if a name is taken the manager and the partitions before it stay and nothing after it is made |
| DirectoryManager.BatteryDirectoryManager.CreatePlainBattery | BatteryOS-V3/src/BatteryDirectoryManager.cpp:48-57 | the specified step, valid afterwards |
| DirectoryManager.BatteryDirectoryManager.CreateAggregateBattery | BatteryOS-V3/src/BatteryDirectoryManager.cpp:79-117 | succeeds exactly for existing, free, idle sources and a new name; the specified step |
| DirectoryManager.BatteryDirectoryManager.CreatePartitionBattery | BatteryOS-V3/src/BatteryDirectoryManager.cpp:119-185 | the specified step, with the manager's counter, the exit on a taken manager name and partitions left by a failure |
| DirectoryManager.BatteryDirectoryManager.RemoveBattery | BatteryOS-V3/src/BatteryDirectoryManager.cpp:34-46 | in every state: true if and only if the name exists and its target lists everything below it once on the way down; then exactly the target and everything below it goes; otherwise the specified part of it; without repeats it is true for every existing name |
| Aggregation.AcceptedTime | BatteryOS-V2/AggregatorBattery.cpp:90-158 | an accepted target leaves every source at least its longest time, or is one milliampere |
| Aggregation.PartWithinLimit | BatteryOS-V2/AggregatorBattery.cpp:122-187 | no share is negative or above its source's limit |
| Aggregation.PartsNearTarget | BatteryOS-V2/AggregatorBattery.cpp:122-187 | rounding loses less than one milliampere per source |
| Aggregation.LimitExactly | BatteryOS-V2/AggregatorBattery.cpp:90-101 | a target is within the reported limit if and only if no source's proportional share of it is above that source's own limit |
| Aggregation.PartsInProportion | BatteryOS-V2/AggregatorBattery.cpp:156-174 | every part is its amount's share of the target, cut to a whole number |
| Aggregation.RatedWithinLimits | BatteryOS-V3/src/AggregateBattery.cpp:107-148 | V3 discharge: shares within the limits that add up exactly |
| Aggregation.RatedExactly | BatteryOS-V3/src/AggregateBattery.cpp:65-97 | without empty sources a current is within V3's limit if and only if no source's proportional share of it is above that source's own limit |
| Aggregation.ChargingNeverAddsUp | BatteryOS-V3/src/AggregateBattery.cpp:130-148 | V3 charge: no share is negative, so the shares never add up to the request |
| Aggregation.RateIsInverseTime | BatteryOS-V3/src/AggregateBattery.cpp:30-63 | the smallest C-rate is the inverse of the largest inverse rate |
| Aggregation.FormulasAgree | BatteryOS-V3/src/AggregateBattery.cpp:65-97 | V2's and V3's limits agree before rounding if and only if no amount is zero |
| AggregatorV2.AnyIsLast | BatteryOS-V2/AggregatorBattery.cpp:58-89 | any worker might as well have been the last |
| AggregatorV2.OrderDoesNotMatter | BatteryOS-V2/AggregatorBattery.cpp:58-89 | whatever order the workers take the mutex in, the result is the sequential fold |
| AggregatorV2.Collect | BatteryOS-V2/AggregatorBattery.cpp:58-89 | the arbitrarily scheduled workers compute the fold |
| AggregatorV2.FoldIs | BatteryOS-V2/AggregatorBattery.cpp:47-108 | the fold's fields are the totals, the current included, and the longest times |
| AggregatorV2.DischargeIsSafe | BatteryOS-V2/AggregatorBattery.cpp:122-187 | every accepted positive target: shares in [0, limit], sum in (target - n, target] |
| AggregatorV2.ChargeIsSafe | BatteryOS-V2/AggregatorBattery.cpp:122-187 | the same for charging, with the headroom |
| AggregatorV2.AcceptsDischargeExactly | BatteryOS-V2/AggregatorBattery.cpp:122-149 | a positive target is accepted if and only if there is charge and no source's share is above its limit, unless the longest time is negligible |
| AggregatorV2.AcceptsChargeExactly | BatteryOS-V2/AggregatorBattery.cpp:122-149 | the same for charging, with the headrooms |
| AggregatorV2.AcceptsOtherwise | BatteryOS-V2/AggregatorBattery.cpp:90-149 | a target of 0 is accepted if and only if there is charge; with a negligible longest time nothing beyond one milliampere is |
| AggregatorV2.DischargeIsShared | BatteryOS-V2/AggregatorBattery.cpp:156-166 | an accepted discharge asks of each source its charge's share of the target, cut to a whole number |
| AggregatorV2.ChargeIsShared | BatteryOS-V2/AggregatorBattery.cpp:167-178 | an accepted charge asks of each source its headroom's share |
| AggregatorV2.AggregatorBattery.Refresh | BatteryOS-V2/AggregatorBattery.cpp:47-108 | the reported status is that of the fold |
| AggregatorV2.AggregatorBattery.ScheduleSetCurrent | BatteryOS-V2/AggregatorBattery.cpp:122-187 | acceptance, signs, per-source limits, each source's share and the sum of what is forwarded |
| AggregateV3.EffectiveCRate | BatteryOS-V3/src/AggregateBattery.cpp:36-63 | the loops compute the smallest rate |
| AggregateV3.Discharge | BatteryOS-V3/src/AggregateBattery.cpp:107-151 | accepted exactly up to the reported limit; shares are legal, in proportion to the charges, and add up exactly |
| ProportionalPolicy.QueryKeepsReading | BatteryOS-V1/BatteryInterface.py:215-235 | updating a meter at the current it runs at does not change its reading at any time |
| ProportionalPolicy.NetCurrentInRange | BatteryOS-V1/Policy.py:118-134 | legal parts whose scales add up to 1 have a sum within the source's range |
| ProportionalPolicy.AllowedExactly | BatteryOS-V1/Policy.py:118-127 | a part is allowed exactly the currents up to its scale's portion of the source's limits |
| ProportionalPolicy.SourceUsedUp | BatteryOS-V1/Policy.py:118-127 | the parts' discharging limits add up to the source's: nothing is lost by splitting |
| ProportionalPolicy.SourceFilledUp | BatteryOS-V1/Policy.py:118-127 | so do the charging limits |
| ProportionalPolicy.ForwardedEffect | BatteryOS-V1/Policy.py:118-134 | in a good state the source accepts the sum of every accepted target |
| ProportionalPolicy.CurrentSetEffect | BatteryOS-V1/SplitterBattery.py:38-42 | setting a current succeeds exactly within the part's bounds and moves only that part and the source |
| ProportionalPolicy.CurrentSetRaisesExactly | BatteryOS-V1/SplitterBattery.py:38-42 | setting a current raises if and only if the meters add up to zero before it or, with the part's brought to the present, after it |
| ProportionalPolicy.ReportsInProportion | BatteryOS-V1/Policy.py:104-108 | the charges that the parts are told are in the proportion of their meters |
| ProportionalPolicy.ReportsAddUp | BatteryOS-V1/Policy.py:104-108 | and add up to the source's charge |
| ProportionalPolicy.ReportIsMeterExactly | BatteryOS-V1/Policy.py:104-108 | a part is told what its meter shows if and only if the meters add up to the source's charge or its meter shows nothing |
| ProportionalPolicy.BecameGood | BatteryOS-V1/SplitterBattery.py:33-42 | every query and set keeps scales, bounds, meters and the source's sum |
| ProportionalPolicy.BecameKeepsAccount | BatteryOS-V1/SplitterBattery.py:33-42 | no query or set changes the balance between the parts' meters and the source's |
| ProportionalPolicy.ChildAddedSplits | BatteryOS-V1/Policy.py:137-185 | adding a child splits one part's scale in two that add up to it |
| ProportionalPolicy.ChildAddedGood | BatteryOS-V1/Policy.py:137-185 | adding a child keeps every invariant |
| ProportionalPolicy.ChildScaleGets | BatteryOS-V1/Policy.py:155-173 | a new part's scale stands, for each resource, for the wish or all that the other part has, whichever is less |
| ProportionalPolicy.ChildGets | BatteryOS-V1/Policy.py:137-185 | a new part is idle with that scale of the source as it stands, and both meters show what the scales say |
| ProportionalPolicy.ChildAddedExactly | BatteryOS-V1/Policy.py:137-185 | with a source that is not empty, sane wishes, a new name and an idle other part, adding fails if and only if the other part's scale does not cover the charge that the new one would get |
| ProportionalPolicy.AddingAccounts | BatteryOS-V1/Policy.py:206-216 | if the meters accounted for the source's charge, they do after an addition if and only if the other part's meter showed just its scale's portion |
| ProportionalPolicy.InitialGood | BatteryOS-V1/Policy.py:71-78 | a new policy over an idle source is good |
| ProportionalPolicy.InitialAccounts | BatteryOS-V1/BOS.py:526-547 | the meter of a new policy's only part accounts for the source's charge |
| ProportionalPolicy.Splitter.constructor | BatteryOS-V1/BOS.py:526-547 | the source is queried and the first part's meter is reset to what it reports |
| ProportionalPolicy.RunIsGood | BatteryOS-V1/Policy.py:71-185 | over every run each scale component sums to 1, parts are within bounds, the source carries exactly their sum |
| ProportionalPolicy.SourceNeverRefuses | BatteryOS-V1/BOS.py:82-90 | after any run, a target that the policy accepts never makes the source's own range check raise |
| ProportionalPolicy.RunKeepsAccount | BatteryOS-V1/SplitterBattery.py:33-42 | over every run without additions the parts' readings and the source's change by the same amount |
| ProportionalPolicy.RunMetersOwnCurrent | BatteryOS-V1/BatteryInterface.py:215-235 | over every run without additions a part's meter has lost just what its own currents draw, and the source's charge moves with the source's meter |
| ProportionalPolicy.AllQueriedPresent | BatteryOS-V1/SplitterBattery.py:33-36 | after a round of queries at one instant every meter is up to date |
| ProportionalPolicy.PresentQueries | BatteryOS-V1/SplitterBattery.py:33-36 | then another query at that instant changes nothing |
| ProportionalPolicy.RunReportsOwnCharge | BatteryOS-V1/Policy.py:99-115 | at such an instant a part is told what it started with less what its own currents drew, if and only if the meters accounted for the source's charge to begin with or nothing is left of it |
| ProportionalPolicy.RunReportsShareCharge | BatteryOS-V1/Policy.py:99-115 | in every state of every run the reports add up to the source's charge and are in the proportion of the meters |
| ProportionalPolicy.PseudoBattery.UpdateMeter | BatteryOS-V1/BatteryInterface.py:215-235 | the trapezoid update |
| ProportionalPolicy.PseudoBattery.SetCurrent | BatteryOS-V1/BOS.py:82-90 | raises exactly out of range; otherwise the specified new state |
| ProportionalPolicy.Splitter.GetStatus | BatteryOS-V1/SplitterBattery.py:33-36 | raises exactly if the meters add up to zero; otherwise source and part are brought to the present |
| ProportionalPolicy.Splitter.SetCurrent | BatteryOS-V1/SplitterBattery.py:38-42 | query, policy check, forwarding, query and meter update as specified |
| ProportionalPolicy.Splitter.AddChild | BatteryOS-V1/Policy.py:137-185 | raises exactly when specified; otherwise the specified new state |
| Wire.BytesAt | BatteryOS-V2/util.hpp:87-95 | the shifted and masked number is the byte of the two's complement at each position, also for negative ones |
| Wire.PatternOfBytes | BatteryOS-V2/util.hpp:70-95 | the bits read back are the number modulo the size of the type |
| Wire.ReadBack | BatteryOS-V2/util.hpp:70-95 | deserialising inverts serialising at every width, signed or not, if and only if the number fits the type |
| Wire.WriteBack | BatteryOS-V2/util.hpp:70-95 | every byte string is what is written for the number it reads as |
| Wire.OrAbove | BatteryOS-V2/util.hpp:74 | or-ing in shifted bits above those already there adds them |
| Wire.DeserializeInt | BatteryOS-V2/util.hpp:70-77 | the loop reads the number of the type |
| Wire.SerializeInt | BatteryOS-V2/util.hpp:86-95 | the loop writes exactly the bytes in place, or nothing if there is no room |
| Wire.WordsReadBack | BatteryOS-V2/util.hpp:256-306 | a struct of 64-bit words is read back whatever follows it |
| Wire.WordsWriteBack | BatteryOS-V2/util.hpp:256-306 | writing the words that were read gives the bytes back |
| Wire.SerializeWords | BatteryOS-V2/util.hpp:256-282 | the loop over the words, in place |
| Wire.DeserializeWords | BatteryOS-V2/util.hpp:291-306 | the loop over the buffer; nothing from a short one |
| Rpc.FrameRoundTrip | BatteryOS-V2/BOS.cpp:465-494 | the server recovers header, name and the rest of the stream from the client's frame if and only if its length fits 32 bits |
| Rpc.AcceptedIsFrame | BatteryOS-V2/BOS.cpp:465-494 | an accepted stream is the client's frame for what was understood if and only if it is whole and ends in NUL |
| Rpc.StreamRoundTrip | BatteryOS-V2/BOS.cpp:400-425 | requests sent one after another are taken apart at the right places |
| Rpc.FrameLayout | BatteryOS-V2/RPC.hpp:7-15 | which bytes of a frame hold the length, each header field, the name and the NUL |
| Rpc.RequestIsHandled | BatteryOS-V2/BOS.cpp:489-530 | for every header: unknown battery, status for codes 1 and 2, current for code 3, unknown function |
| Rpc.RefusedFrames | BatteryOS-V2/BOS.cpp:465-485 | exactly which streams are refused before the lookup, with which code |
| Rpc.TimeArrives | BatteryOS-V2/util.cpp:24-41 | a time point arrives rounded towards the epoch to a millisecond |
| Rpc.ScheduleArrives | BatteryOS-V2/NetworkBattery.hpp:96-119 | a remote schedule call is performed with the same target and interval in milliseconds, without the sense |
| Rpc.StatusArrives | BatteryOS-V2/NetworkBattery.hpp:60-83 | a remote refresh is answered with the named battery's status |
| Rpc.BuildRequest | BatteryOS-V2/NetworkBattery.hpp:99-114 | the buffer filled in place is the frame |
| Rpc.ReadRequest | BatteryOS-V2/BOS.cpp:465-494 | the decoding half of the handler, with its error codes |
| Rpc.ScheduleReply | BatteryOS-V2/BOS.cpp:519-521 | the reply is a 32-bit length and the result although the length is written with 64 bits |
| Jbd.PayloadNeverWraps | BatteryOS-V2/JBDBMS.cpp:34-41 | with at most 255 data bytes the 16-bit sum never wraps |
| Jbd.SameWriteCommand | BatteryOS-V1/JBDBMS.py:124-142 | V1 builds V2's write command for up to 255 bytes and raises beyond |
| Jbd.OtherData | BatteryOS-V2/JBDBMS.cpp:73-110 | an accepted reply with other data of the same length is accepted if and only if the data have the same sum |
| Jbd.OneByteChanged | BatteryOS-V2/JBDBMS.cpp:73-110 | changing one byte of an accepted reply makes it rejected, unless it is the register address |
| Jbd.AcceptedPassesV1 | BatteryOS-V1/JBDBMS.py:158-171 | what V2 accepts passes V1's 8-bit check |
| Jbd.V1MissesHighByte | BatteryOS-V1/JBDBMS.py:158-171 | a wrong high checksum byte passes V1 and is rejected by V2 |
| Jbd.ComputeChecksum | BatteryOS-V2/JBDBMS.cpp:34-41 | the loop computes what completes the payload to a multiple of 2^16 |
| Jbd.WriteRegisterCommand | BatteryOS-V2/JBDBMS.cpp:57-71 | the command vector built step by step |
| Jbd.ReadRegisterCommand | BatteryOS-V2/JBDBMS.cpp:43-55 | the command vector built step by step |
| Jbd.VerifyRecvChecksum | BatteryOS-V2/JBDBMS.cpp:73-110 | accepts exactly replies with the right starter, ending and length whose bytes add up to a multiple of 2^16 |
| Jbd.QueryIsChecked | BatteryOS-V2/JBDBMS.cpp:113-164 | the returned data are checked if and only if one try succeeds |
| Jbd.QueryReturnsUnchecked | BatteryOS-V2/JBDBMS.cpp:113-164 | three replies with a wrong checksum to a read command come back as data |
| Jbd.QueryInfo | BatteryOS-V2/JBDBMS.cpp:113-164 | three tries: the data of the first success, else what the last try left |

## Left out

- Sequence numbers are unbounded; in the code they are 64-bit and wrap.
- BatteryScheduler.RunFollowsRequests: runs whose shifted intervals are ordered and whose driver calls succeed; single steps without these assumptions are covered by `OverlayExactly` and `RefusedWakeKeepsTimeline`.
- BatteryScheduler.RunMeetsReference: runs without background refresh whose requests end after they start; with refresh events a start may be moved by another delay, exactly as `DelayedStartFollowsRequests` says, and the ends are always those of `DelayedEndFollowsRequests`.
- SplitterSystem.RunAgrees: sources without delay and requests with steady siblings, which `SplitAgreesExactly` shows to be necessary; for single requests to a delayed source there is `DelayedSplitAgreesAt`.
- Cancel events: the code declares them and never queues one.
- SplitterRefresh.Children.Refresh: says nothing about the arrays once a backward loop has left them, which is undefined in C++; the children's ids are taken to be the indices, and estimated charges enter already cut to whole numbers.
- `refresh_proportional` but for what it does to the charge estimates: how it shares out currents (its zero-net-current branch does not conserve them), charges and maxima.
- SplitterRuns.RunIntegratesCharge: runs in which the proportional policy does not give the estimates up; a reset changes them exactly as `ReestimatedExactly` says, and the theorem applies again from the state it leaves. Whether a status is stale is an input.
- The consistency checks of the splitter's factory.
- RemovalOrder.RemovableExactly: on graphs in which a battery is below a sibling, which no operation builds, success is characterised turn by turn (`Removable`) and not in terms of the graph alone.
- V3's partition manager and partition batteries; a partition's source name is taken to be its manager's.
- The V3 directory after `destroyDirectory`, which clears the batteries and not the graphs.
- V2's directory removal, which is not implemented.
- AggregatorV2.AggregatorBattery.ScheduleSetCurrent: works on one snapshot of the sources with positive limits; the code refreshes and then reads each source again.
- AggregateV3.Discharge: the request is one made on this battery by name; a request forwarded by an outer aggregate skips the limit check. Start times and the parents' answers are not modelled.
- ProportionalPolicy.RunReportsOwnCharge: runs between additions; what an addition does to its premise is `AddingAccounts`.
- ProportionalPolicy.Splitter.AddChild: the state left behind when it raises half way is not described, nor is that of `GetStatus` and `SetCurrent`.
- V1's `remove_child`, `TranchePolicy` and aggregator.
- Rounding errors of floating-point arithmetic.
- Rpc.ReadRequest: connections deliver what is asked for unless the stream ends; the reply to a status request is not modelled.
- Sockets, pipes, TLS, protobuf messages, serial lines, HTTP, plug-ins, the Rust aggregation, and the transformer-protection experiments.
