# QoT timing stack: verified models

The stack keeps the clocks of many machines together: PTP finds a master and measures its time, servos steer the local
clock, nodes elect a master for each timeline, and applications live on the projected time. This project models the
algorithms behind that, one module per source file or component, and proves what they are for.

| module | models |
|---|---|
| `Bmc`, `Fsm`, `Clock` | data set comparison, port state machines, and decision rounds of a clock with any number of ports (sections 9.3.4, 9.2.5 and 9.3.3 of IEEE 1588-2008) |
| `Coordinator`, `Election`, `Failover`, `Convergence` | the heartbeat protocol that elects the master of a timeline, as one node and as a network of nodes that start, beat, receive and crash |
| `Selection`, `ClockFilter` | interval selection and clock filter (sections 10 and 11.2.1 of RFC 5905) |
| `Window`, `MovingMedian`, `MovingAverage`, `PathDelay` | delay filters over ring buffers, and the two-way exchange they serve (section 11.3 of IEEE 1588-2008) |
| `LeastSquares`, `DriftBounds`, `Linreg`, `LinregNew` | straight lines through points, and the two regression servos |
| `Pi`, `ClockCheck` | the proportional integral servo, and the sanity check of the clock |
| `Suffix` | the type, length, value fields behind a message, converted in place (section 14.1 of IEEE 1588-2008) |
| `Time`, `Projection`, `Wakeup` | seconds and attoseconds, the projection between core and timeline time, and periodic wake-up |
| `Prelude`, `Products` | C integer arithmetic, and products of reals under a name of their own |

State that the source updates in place is a class whose methods state their whole effect; what holds over runs is
proved about the functions that the methods are specified by. `double` is `real`, and dividing by zero gives an
arbitrary value. Integers are unbounded where the source does not rely on their width; the places where it does
(`Linreg.WrappedDifference`, `Time.Int32`) are explicit.

## What turned out not to hold

Each of these comes with a lemma that shows it and with the exact condition under which the code does what is promised.

- The data set comparison is an order only for candidates that agree on their grandmaster and without error-1
  (`Bmc.InconsistentAnnouncementsCycle`, `Bmc.DscmpIsKeyOrder`). The loop over the candidates finds a best one in
  whatever order if and only if no candidate meets a best one in error-1 (`Bmc.BestIsBestExactly`,
  `Bmc.ErrorOneHidesTheBest`). Because the receiver of every candidate is set to the parent of the clock, that means:
  the current parent does not announce the winning grandmaster one step further away
  (`Clock.RoundChoosesBestExactly`).
- An election does not reset the last count. A node without a master drops every master it elects at its very next
  heartbeat, exactly if it hears nobody of that name in between (`Failover.NewMasterMustSpeak`,
  `Convergence.ElectedThenDropped`, `Convergence.ElectionInVain`).
- The last count is refreshed by the name of the master alone, so a namesake on another timeline keeps a dead master for
  ever (`Failover.NamesakeKeepsMaster`, `Convergence.DeadMasterIsKept`, `Failover.DroppedExactly`); without namesakes
  of the dead, a timeline settles within seven heartbeats (`Convergence.TimelineSettles`), and there are nodes that
  take all seven (`Convergence.SevenAreNeeded`).
- `Coordinator::Start` takes the smaller of the two accuracy bounds where its comment says the larger; it takes the
  larger if and only if they are equal (`Coordinator.AccuracyIsTheLarger`).
- Once its table of six rows has wrapped around, the drift bounds of linregnew.c compare the newest row with the oldest
  one instead of its neighbour. They enclose the fitted frequency for all offsets exactly when the step they miss has
  the least weight (`LinregNew.WrappedDriftIsExact`); at regular intervals that is so in two of five cases
  (`DriftBounds.RegularIntervals`).
- The comment of `get_best_size` promises the smallest prediction error; the code takes errors within 5 percent of each
  other for equal, and the factors add up (`Linreg.EqualErrorsAddUp`, `Linreg.BestHasLeastError`).
- Sending a received suffix restores headers and offsets, as long as no path trace is shortened, but not always values:
  a field that is not the last is sent without the data kept aside for it (`Suffix.SentRestoresReceived`). A clock description is then not converted
  back (`Suffix.DescriptionInFrontIsChanged`, `Suffix.DescriptionLosesWords`). The last field is sent with data that
  receiving fills in only if no bytes are behind it. Received in turn, a last field without a value is not counted
  (`Suffix.ReceivedRestoresSent`).
- `timepoint_diff` subtracts seconds and fractions apart, and truncates to nanoseconds, so a wake-up can be late
  (`Wakeup.LateWakeup`, `Wakeup.WakesEarliest`) or a fraction of a nanosecond early (`Wakeup.EarlyWakeup`); it is not
  early if and only if the start is in the future, its fraction of a second is after that of now or a whole number of
  nanoseconds from it, or a period is not just over (`Wakeup.WakesOnTheGrid`).

## Model

| member | source | states |
|---|---|---|
| `Bmc.DscmpAntisymmetric` | src/gps-service/linuxptp/bmc.c:29-121 | Comparing two data sets in the other order gives exactly the negative result, for all data sets and for missing ones. |
| `Bmc.MemCmp` | src/gps-service/linuxptp/bmc.c:43-61 | The byte comparison is zero exactly for equal bytes. |
| `Bmc.PathOrder` | src/gps-service/linuxptp/bmc.c:29-75 | For data sets of one grandmaster the comparison is the lexicographic order of steps, sender and receiver port if and only if the error-1 branch is not taken. |
| `Bmc.PortOrder` | src/gps-service/linuxptp/bmc.c:43-61 | Ports of one clock are in the order of the low bytes of their numbers first, as they lie in memory. |
| `Bmc.RankOrder` | src/gps-service/linuxptp/bmc.c:77-121 | For data sets of different grandmasters the comparison is the lexicographic order of priority1, class, accuracy, variance, priority2 and identity. |
| `Bmc.DscmpIsKeyOrder` | src/gps-service/linuxptp/bmc.c:29-121 | For data sets that agree on the grandmaster they share, the sign of the comparison is one lexicographic order on all nine fields if and only if the error-1 branch is not taken. |
| `Bmc.InconsistentAnnouncementsCycle` | src/gps-service/linuxptp/bmc.c:77-121 | Without that agreement three data sets can beat each other in a circle. |
| `Bmc.ChooseBest` | src/gps-service/linuxptp/port.c:2003-2021 | The loop over the foreign masters ends with the choice that all later theorems speak of. |
| `Bmc.BestIsBest` | src/gps-service/linuxptp/clock.c:1971-1978 | A loop that meets a best one of all candidates ends with a best one, as long as no candidate meets a best one in error-1; other error-1 pairs do no harm. |
| `Bmc.BestIsBestExactly` | src/gps-service/linuxptp/clock.c:1971-1978 | Whatever the order of the candidates, the loop ends with a best one, if and only if no candidate meets a best one in error-1. |
| `Bmc.BestAgainst` | src/gps-service/linuxptp/bmc.c:29-121 | A candidate never beats a best one; it is beaten by it, except in error-1, where it is one step longer and neither beats the other. |
| `Bmc.MissingOrder` | src/gps-service/linuxptp/bmc.c:42-59 | For every set of candidates with such a pair there is an order in which the loop misses the best ones. |
| `Bmc.BestIgnoresOrder` | src/gps-service/linuxptp/clock.c:1971-1978 | The key of the winner does not depend on the order of the candidates if and only if no candidate meets a best one in error-1. |
| `Bmc.ErrorOneHidesTheBest` | src/gps-service/linuxptp/bmc.c:42-59 | With error-1 the loop can end with a candidate that another one beats. |
| `Fsm.ArcsAreExact` | src/gps-service/linuxptp/fsm.c:21-211 | The state machine changes state along the arcs of an independent table of IEEE 1588-2008 transitions, and along no others. |
| `Fsm.DispatchCommutes` | src/gps-service/linuxptp/port.c:2107-2168 | Taking a master or passive state for LISTENING commutes with every dispatched event, with re-initialization and a failing clock switch included. |
| `Fsm.SlaveRunIsImage` | src/gps-service/linuxptp/fsm.c:213-319 | For every input sequence the run of the slave-only machine is the image of the run of the full machine. |
| `Fsm.SlaveOnlyNeverMaster` | src/gps-service/linuxptp/fsm.c:213-319 | A slave-only port never reaches a master, pre-master or passive state. |
| `Fsm.TrackingSteps` | src/gps-service/linuxptp/fsm.c:146-207 | Which events start tracking a master, end it, and confirm it. |
| `Fsm.SlaveHistory` | src/gps-service/linuxptp/fsm.c:146-207 | Every port in SLAVE got there through a recommendation and, later, a selected master, and has tracked ever since. |
| `Clock.Clock.constructor` | src/gps-service/linuxptp/clock.c:1224-1232 | A clock starts as its own grandmaster with all ports initializing. |
| `Clock.Clock.ComputeBest` | src/gps-service/linuxptp/clock.c:1971-1978 | The nested loops over ports and foreign masters compute the best data set of each port and of the clock. |
| `Clock.Clock.HandleStateDecisionEvent` | src/gps-service/linuxptp/clock.c:1964-2030 | The whole new state after a decision round; the path delay is forgotten exactly when the best clock has changed. |
| `Clock.Clock.RecommendTo` | src/gps-service/linuxptp/clock.c:1999-2029 | One port takes its recommended state, and the parent follows it. |
| `Clock.Clock.Recommend` | src/gps-service/linuxptp/clock.c:1999-2029 | All ports take the states that are decided for them from the state at the beginning of the loop. |
| `Clock.Clock.HandlePortEvent` | src/gps-service/linuxptp/port.c:2107-2168 | An event that is no recommendation changes one port only. |
| `Clock.NoOtherPortTracks` | src/gps-service/linuxptp/bmc.c:123-157 | No port but the best one is recommended SLAVE or tracks a master after a round. |
| `Clock.StepFollowsBest` | src/gps-service/linuxptp/clock.c:1964-2030 | Every step keeps that a tracking port is the best port of the clock. |
| `Clock.AtMostOneTracks` | src/gps-service/linuxptp/clock.c:1964-2030 | Over every run of rounds and port events, with any number of ports, at most one port is in UNCALIBRATED or SLAVE, and it is the best port. |
| `Clock.RoundChoosesBest` | src/gps-service/linuxptp/clock.c:1971-1978 | The nested loops over ports and foreign masters choose the best of all announcements heard on all ports, as long as no announcement meets a best one in error-1. |
| `Clock.RoundChoosesBestExactly` | src/gps-service/linuxptp/clock.c:1964-1978 | However a set of announcements is spread over ports and messages, a round chooses a best one, if and only if the current parent does not announce the winning grandmaster one step further away. |
| `Clock.UndisputedByParent` | src/gps-service/linuxptp/port.c:139-150 | Error-1 with a best announcement means exactly that. |
| `Clock.ErrorOneMeansParent` | src/gps-service/linuxptp/port.c:139-150 | Between announcements error-1 happens exactly if the longer path is the one through the current parent. |
| `Clock.RoundRole` | src/gps-service/linuxptp/bmc.c:123-157 | A round never recommends both SLAVE and GRAND_MASTER; when it recommends SLAVE, to which port, and what becomes of the parent. |
| `Clock.RecommendedRole` | src/gps-service/linuxptp/bmc.c:123-157 | The same for the recommendations alone. |
| `Clock.PassiveHearsSameGrandmaster` | src/gps-service/linuxptp/bmc.c:133-156 | What a port is told, in fields, unless it listens in silence: class 127 or less makes it grandmaster where the clock beats what it hears, else passive; otherwise grandmaster, slave on the best port, passive exactly where it hears the same grandmaster by a path that is worse for topology alone, and master elsewhere. |
| `Clock.TopologyExactly` | src/gps-service/linuxptp/bmc.c:29-75 | The comparison says better by topology exactly for the same grandmaster, as many steps and a smaller sender, then receiving port, or one step less and a sender before its receiver. |
| `Clock.RoundIsObeyed` | src/gps-service/linuxptp/fsm.c:21-319 | What becomes of a port in operation in a round, for both machines, fresh masters and hardware clocks that cannot be switched. |
| `Clock.OwnAnnouncement` | src/gps-service/linuxptp/bmc.c:29-75 | An announcement of the clock itself over a path never beats it, and is beaten if and only if it is not error-1. |
| `Clock.OwnPort` | src/gps-service/linuxptp/clock.c:1281-1300 | One without a path is compared as port 0 of the clock, and loses. |
| `Clock.BestIsRemembered` | src/gps-service/linuxptp/clock.c:1979-2000 | In every state of every run the identity remembered is that of the best announcement. |
| `Clock.NewMasterIsCalibrated` | src/gps-service/linuxptp/clock.c:1988-2000 | Over every run, a port that is a slave before and after a step has the same grandmaster before and after it. |
| `Clock.ParentsMeaning` | src/gps-service/linuxptp/clock.c:934-955 | The parent after a round depends on the recommendations only through the one role in them. |
| `Window.ReplayIsNewest` | src/gps-service/linuxptp/mmedian.c:44-76 | Feeding a history through a window of fixed length leaves its newest samples. |
| `Window.SortedIsUnique` | src/gps-service/linuxptp/mmedian.c:71-75 | There is only one sorted arrangement of the samples, so the median is well defined. |
| `Window.SortPermutes` | src/gps-service/linuxptp/mmedian.c:44-67 | Sorting keeps the samples. |
| `Window.RingStep` | src/gps-service/linuxptp/mmedian.c:49-69 | Storing a sample at the index of the ring and moving on pushes it into the window. |
| `Window.SumUnroll` | src/gps-service/linuxptp/mave.c:41-53 | The running sum over the ring is the sum of the window. |
| `Window.FilterBounds` | src/gps-service/linuxptp/mave.c:41-53 | Median and truncated mean of samples between two bounds lie between the bounds. |
| `Window.MedianIsMiddle` | src/gps-service/linuxptp/mmedian.c:71-75 | The median is the middle sample in any sorted arrangement, and for an even number halfway between the middle two, rounded toward zero. |
| `Window.MedianIgnoresOutliers` | src/gps-service/linuxptp/mmedian.c:44-76 | The median keeps the bounds as long as fewer than half of the samples are outside them. |
| `MovingMedian.Filter.constructor` | src/gps-service/linuxptp/mmedian.c:85-110 | A new filter has an empty window. |
| `MovingMedian.Filter.Reset` | src/gps-service/linuxptp/mmedian.c:78-83 | Forgets all samples. |
| `MovingMedian.Filter.Remove` | src/gps-service/linuxptp/mmedian.c:53-59 | Shifting drops the index of the oldest sample from the order, wherever it is. |
| `MovingMedian.Filter.Insert` | src/gps-service/linuxptp/mmedian.c:62-67 | Insertion puts the new index between a sample that is not greater and one that is not less. |
| `MovingMedian.Filter.Place` | src/gps-service/linuxptp/mmedian.c:62-67 | The order is a permutation of the live ring indices, sorted by value, again. |
| `MovingMedian.Filter.Store` | src/gps-service/linuxptp/mmedian.c:49-67 | The same for a sample that is appended or replaces the oldest one. |
| `MovingMedian.Filter.Sample` | src/gps-service/linuxptp/mmedian.c:44-76 | After any samples and resets the result is the median of the newest samples, with the truncated mean of the middle two for an even number. |
| `MovingMedian.Filter.OrderedIsSorted` | src/gps-service/linuxptp/mmedian.c:71-75 | The values in the order of the index array are the sorted window. |
| `MovingAverage.Filter.constructor` | src/gps-service/linuxptp/mave.c:65-82 | A new filter has an empty window. |
| `MovingAverage.Filter.Reset` | src/gps-service/linuxptp/mave.c:55-63 | Forgets all samples, and clears the ring that the running sum relies on. |
| `MovingAverage.Filter.Sample` | src/gps-service/linuxptp/mave.c:41-53 | The result is the truncated mean of the newest samples, from a sum that is only updated. |
| `PathDelay.Timekeeper.Synchronize` | src/gps-service/linuxptp/clock.c:1792-1810 | The whole new timing state after a sync message, and whether its offset is used. |
| `PathDelay.Timekeeper.PathDelay` | src/gps-service/linuxptp/clock.c:1626-1677 | The whole new timing state after a delay response, through whichever filter is in use; nothing happens before the first sync. |
| `PathDelay.Timekeeper.Restart` | src/gps-service/linuxptp/clock.c:1985-1993 | Path delay, time stamps and filter start afresh. |
| `PathDelay.StepSound` | src/gps-service/linuxptp/clock.c:1651-1669 | If both delays of an exchange, with offset and corrections as they are on the wire in units of 2^-16 ns, lie between two bounds, so does the raw path delay, whatever the offset was, and the filtered one, once enough of its window was measured so; fractions in the corrections add at most a nanosecond. |
| `PathDelay.OffsetErrorBound` | src/gps-service/linuxptp/clock.c:1803-1804 | From any state, a run within the bounds computes an offset that is off by no more than their difference, plus one nanosecond down and two up if corrections have fractions, once its delays fill the window of an average, or more than half of that of a median; what happened before does not matter. |
| `PathDelay.RestartIsEnough` | src/gps-service/linuxptp/clock.c:1985-1993 | After a restart, or from a new clock, every window is filled with delays of the run, however few. |
| `PathDelay.CorrectionToTmv` | src/gps-service/linuxptp/tmv.h:74-77 | The correction in whole nanoseconds, rounded down from units of 2^-16 ns. |
| `PathDelay.UnusedAfterRestart` | src/gps-service/linuxptp/clock.c:1988-1994 | After a new master, until a delay is measured, every offset is off by the whole way from the master, and none is used. |
| `PathDelay.HalfTheAsymmetry` | src/gps-service/linuxptp/clock.c:1651-1658 | Without filtering, twice the error is the asymmetry of the path to within a nanosecond, plus one down and two up if corrections have fractions, and there is no error on a symmetric path of whole nanoseconds. |
| `Coordinator.Coordinator.Start` | src/service/Coordinator.cpp:84-134 | A node starts without a master and with empty counters, at the smaller of its two accuracy bounds. |
| `Coordinator.AccuracyIsTheLarger` | src/service/Coordinator.cpp:118-124 | It has the larger bound, as the comment asks, if and only if they are equal. |
| `Coordinator.Coordinator.OnDataAvailable` | src/service/Coordinator.cpp:56-66 | Samples enter the cache, and those that bear the name of the master refresh its last count. |
| `Coordinator.Coordinator.Elect` | src/service/Coordinator.cpp:211-258 | The loop over the cached samples finds the lexicographically least accuracy and name, whatever the order of the samples. |
| `Coordinator.Coordinator.Heartbeat` | src/service/Coordinator.cpp:182-284 | The whole new state after a heartbeat, and what it publishes. |
| `Coordinator.LessTotal` | src/service/Coordinator.cpp:244-255 | Accuracy, then name, is a total order. |
| `Coordinator.LeastIsUnique` | src/service/Coordinator.cpp:244-255 | A set of nodes has only one least member, so the outcome of an election is well defined. |
| `Election.ElectionIsFair` | src/service/Coordinator.cpp:204-258 | Although the loop starts from its own accuracy and the name of its master, it finds the least of the node itself and its cached peers. |
| `Election.BeatenOk` | src/service/Coordinator.cpp:182-284 | A heartbeat keeps that the master of a slave is in its cache, and an electing one picks the least of its view. |
| `Election.StepOk` | src/service/Coordinator.cpp:182-284 | Heartbeats, deliveries, crashes and starts keep the invariant of the whole network. |
| `Election.ReachableOk` | src/service/Coordinator.cpp:182-284 | It holds in every reachable state of any network of distinctly named nodes. |
| `Election.ReachableElection` | src/service/Coordinator.cpp:204-268 | In every reachable state an electing heartbeat picks the least accuracy and name in the view of the node. |
| `Election.Agreement` | src/service/Coordinator.cpp:204-268 | Nodes with the same view elect the same master. |
| `Election.FixedPoint` | src/service/Coordinator.cpp:204-268 | Electing again changes nothing. |
| `Election.OneLeader` | src/service/Coordinator.cpp:204-268 | Nodes that see exactly each other elect one of themselves, the least, and only that one takes itself for the master. |
| `Failover.StaysSettled` | src/service/Coordinator.cpp:182-284 | Over every run in which the master is heard in time and nobody better appears, all nodes keep it. |
| `Failover.CalmStepKeepsSettled` | src/service/Coordinator.cpp:182-284 | One step of that. |
| `Failover.SilentMasterIsKept` | src/service/Coordinator.cpp:192-206 | A master that falls silent is kept for three heartbeats. |
| `Failover.SilentMasterIsDropped` | src/service/Coordinator.cpp:192-206 | It is dropped at exactly the fourth, together with the cache. |
| `Failover.MasterlessWaits` | src/service/Coordinator.cpp:217-218 | A node without a master does not elect one before the waiting time is over. |
| `Failover.SilentMasterIsReplaced` | src/service/Coordinator.cpp:190-268 | Kept for three heartbeats, gone at the fourth, none at the fifth and sixth, and at the seventh the least of what is left, never the silent one. |
| `Failover.NewMasterMustSpeak` | src/service/Coordinator.cpp:192-268 | A master just elected has what was left of the time of the old one; a node that had none drops every master it elects at the next heartbeat, exactly if it hears nobody of that name before. |
| `Failover.DroppedExactly` | src/service/Coordinator.cpp:192-206 | A slave gives up its master exactly if nobody of that name, on whatever timeline, was heard for too long. |
| `Failover.NamesakeKeepsMaster` | src/service/Coordinator.cpp:56-66 | A master that is gone is kept for as many heartbeats as a namesake on another timeline is heard. |
| `Convergence.ElectedThenDropped` | src/service/Coordinator.cpp:182-284 | The same between any two successive heartbeats of a node in any run. |
| `Convergence.ElectionInVain` | src/service/Coordinator.cpp:182-284 | For any two nodes of a timeline there is a run in which one elects the other and gives it up at the next heartbeat, while both are alive. |
| `Convergence.DeadMasterIsKept` | src/service/Coordinator.cpp:56-66 | For every number of heartbeats there is a run in which a node still follows a master that is gone, because it hears a namesake of it on another timeline. |
| `Convergence.LocalView` | src/service/Coordinator.cpp:56-66 | A node depends on a run only through what it hears between its heartbeats. |
| `Convergence.PhaseStep` | src/service/Coordinator.cpp:182-284 | Every heartbeat after hearing from everybody brings a node a step closer to the leader, in whichever of its phases it is. |
| `Convergence.NodeConverges` | src/service/Coordinator.cpp:182-284 | Seven such heartbeats bring a node from any state to the leader, whatever is in its cache. |
| `Convergence.SevenAreNeeded` | src/service/Coordinator.cpp:182-284 | Seven is exact: a node that follows a live master and knows of a better one that is gone does not follow the leader after six such heartbeats or fewer, and does after the seventh. |
| `Convergence.SomeAreMisled` | src/service/Coordinator.cpp:182-284 | For any three nodes of a timeline there is a run that leads to such a node. |
| `Convergence.TimelineSettles` | src/service/Coordinator.cpp:182-284 | From every reachable state, a timeline without starts and crashes whose nodes hear each other is settled on its least member after seven heartbeats of each. |
| `Selection.SelectionSort` | src/gps-service/linuxptp/clock.c:355-373 | Sorted, and the same elements. |
| `Selection.ScanUp` | src/gps-service/linuxptp/clock.c:385-398 | The first loop stops at the first point that enough intervals have begun at and not ended before, counting midpoints on the way. |
| `Selection.ScanDown` | src/gps-service/linuxptp/clock.c:400-413 | The same from the other end. |
| `Selection.StaleBoundsFail` | src/gps-service/linuxptp/clock.c:384-421 | Bounds left over from an earlier number of falsetickers never pass the test at the end of the loop. |
| `Selection.Attempt` | src/gps-service/linuxptp/clock.c:385-420 | One round of the outer loop accepts exactly when both scans have found their bounds, in order and with few enough midpoints outside. |
| `Selection.SelectClock` | src/gps-service/linuxptp/clock.c:341-426 | The result is the one for the least number of falsetickers that is accepted, or a failure if none is; the loop ends. |
| `Selection.SearchIsFirst` | src/gps-service/linuxptp/clock.c:384-421 | All smaller numbers of falsetickers were refused, and a failure means that all were. |
| `Selection.AcceptedIsTrustworthy` | src/gps-service/linuxptp/clock.c:341-426 | Both bounds lie in at least m - f intervals, at least m - f midpoints lie between them, and every offset strictly inside m - f intervals, and one more for each with its ends reversed around it, lies strictly between them. |
| `Selection.SelectionIsSound` | src/gps-service/linuxptp/clock.c:341-426 | The same for what is returned. |
| `Selection.SurroundedIsInside` | src/gps-service/linuxptp/clock.c:385-413 | An offset strictly inside m - f intervals, and one more for each with its ends reversed around it, is enclosed by the points at which the scans stop. |
| `Selection.ProperHasNoneReversed` | src/gps-service/linuxptp/clock.c:335-336 | Where the lower ends are not above the upper ones, as the filter makes them, none is reversed. |
| `Selection.FailureIsJustified` | src/gps-service/linuxptp/clock.c:384-421 | When the selection fails although m - f intervals surround a point, fewer than m - f midpoints lie strictly between the points where the scans stop. |
| `Selection.RefusalIsJustified` | src/gps-service/linuxptp/clock.c:384-416 | The same for every single number of falsetickers that is refused. |
| `Selection.SelectionSucceeds` | src/gps-service/linuxptp/clock.c:384-425 | If m - f midpoints lie deep inside m - f intervals, the selection succeeds with f falsetickers or fewer. |
| `Selection.UnanimousIsAccepted` | src/gps-service/linuxptp/clock.c:384-425 | Intervals that all have all midpoints inside are accepted without falsetickers. |
| `Selection.UnanimousIntersection` | src/gps-service/linuxptp/clock.c:341-426 | Without falsetickers the bounds are exactly the intersection of all intervals. |
| `ClockFilter.Filter` | src/gps-service/linuxptp/clock.c:286-339 | The samples end up sorted by delay, and the intervals are those of the sorted samples. |
| `ClockFilter.Widening` | src/gps-service/linuxptp/clock.c:309-320 | The loop computes dispersion and jitter of all samples. |
| `ClockFilter.DispersionBound` | src/gps-service/linuxptp/clock.c:314-315 | The weighted dispersions add up to no more than the largest one, less its last share. |
| `ClockFilter.JitterBound` | src/gps-service/linuxptp/clock.c:316-320 | Offsets within d of the first one have a jitter of at most d. |
| `ClockFilter.DispersionAtLeast` | src/gps-service/linuxptp/clock.c:314-315 | They add up to no less than the least one, but for its last share and rounding. |
| `ClockFilter.JitterAtLeast` | src/gps-service/linuxptp/clock.c:316-320 | The mean square of the offsets that are at least d from the first one is below the square of the next greater jitter. |
| `ClockFilter.SpreadBounds` | src/gps-service/linuxptp/clock.c:309-328 | What widens the intervals is bounded from both sides by dispersions and offsets. |
| `ClockFilter.IntervalsAreNested` | src/gps-service/linuxptp/clock.c:329-339 | The intervals are proper, lie around their offsets, and are wider for more delay. |
| `ClockFilter.SelectionEnclosesTruth` | src/gps-service/linuxptp/clock.c:286-426 | Filter and selection together: if the search over the end points of the intervals succeeds with f falsetickers, the bounds it yields enclose the truth whenever no more than f samples are off it by their distance or more. |
| `ClockFilter.CloseSamplesAreSelected` | src/gps-service/linuxptp/clock.c:286-426 | Samples that differ by less than the distance of each yield a selection without falsetickers. |
| `LeastSquares.FitIsNormal` | src/gps-service/linuxptp/linreg.c:179-182 | Slope and intercept from the sums solve the normal equations. |
| `LeastSquares.NormalIsBest` | src/gps-service/linuxptp/linreg.c:179-182 | A line that solves the normal equations has the least squared error of all lines. |
| `LeastSquares.ShiftedNormal` | src/gps-service/linuxptp/linreg.c:89-102 | It stays the best line when the origin moves and the intercept moves along. |
| `LeastSquares.PairwiseIdentity` | src/gps-service/linuxptp/linregnew.c:104-105 | n Sxy - Sx Sy is the sum over all pairs of the products of their differences. |
| `LeastSquares.DetPositive` | src/gps-service/linuxptp/linregnew.c:104-108 | The denominator is positive exactly if the times are not all the same. |
| `LeastSquares.SlopeWithin` | src/gps-service/linuxptp/linregnew.c:78-108 | For times in order the fitted slope lies between the least and the greatest slope of neighbouring rows. |
| `Linreg.Servo.constructor` | src/gps-service/linuxptp/linreg.c:324-343 | A new servo has no points. |
| `Linreg.Servo.MoveReference` | src/gps-service/linuxptp/linreg.c:89-102 | Moving the reference leaves every line unchanged in absolute coordinates, and every best line the best one. |
| `Linreg.Servo.UpdateReference` | src/gps-service/linuxptp/linreg.c:104-121 | The reference moves by the time stamps without the frequency correction, and the lines stay as they are. |
| `Linreg.ReferenceFollowsTime` | src/gps-service/linuxptp/linreg.c:104-121 | Over every run reference and remainder advance by exactly the sum of the uncorrected intervals, and the remainder stays below one. |
| `Linreg.ReferenceIsUncorrected` | src/gps-service/linuxptp/linreg.c:104-121 | Whatever frequencies were set, the reference keeps its distance to the time that an uncorrected clock shows. |
| `Linreg.FirstTickMovesNothing` | src/gps-service/linuxptp/linreg.c:104-121 | The first time stamp after a restart moves nothing. |
| `Linreg.ReferenceFollowsClock` | src/gps-service/linuxptp/linreg.c:104-121 | Over every run without restart the reference keeps its distance to the local clock through updates and jumps, up to the leap seconds. |
| `Linreg.WrappedDifference` | src/gps-service/linuxptp/linreg.c:141-171 | Differences of 64-bit words that fit are exact, however the words have wrapped around. |
| `Linreg.Servo.AddSample` | src/gps-service/linuxptp/linreg.c:123-132 | The ring holds the newest 64 points, the newest first. |
| `Linreg.Servo.Accumulate` | src/gps-service/linuxptp/linreg.c:166-177 | Going on with the sums of a smaller size gives the sums over exactly the newest points of the larger one. |
| `Linreg.Solve` | src/gps-service/linuxptp/linreg.c:179-182 | The residuals of the new line add up to zero, and it solves the normal equations whenever they have one solution. |
| `Linreg.Servo.Regress` | src/gps-service/linuxptp/linreg.c:134-184 | Every size with enough points at different times has its best line, and the others are left alone. |
| `Linreg.FitsMeansLeastSquares` | src/gps-service/linuxptp/linreg.c:134-184 | No line has a smaller squared error than the one of such a size. |
| `Linreg.SpreadIsRegular` | src/gps-service/linuxptp/linreg.c:179-181 | The divisor of the slope is zero exactly if all points of a size are at the same time. |
| `Linreg.Smoothed` | src/gps-service/linuxptp/linreg.c:153-164 | The average error always lies between the old average and the new error. |
| `Linreg.JudgedByPrediction` | src/gps-service/linuxptp/linreg.c:141-164 | The error that a line is judged by is that of its prediction for the newest point. |
| `Linreg.Servo.BestSize` | src/gps-service/linuxptp/linreg.c:187-207 | There is a size exactly if some size has a slope; no larger one with enough updates is within 5 percent of its error, and none has an error smaller by more than the factors of 1.05 passed on the way. |
| `Linreg.BestHasLeastError` | src/gps-service/linuxptp/linreg.c:186-207 | The size that is returned has the smallest prediction error, as the comment promises, if and only if no candidate after the last one that has it is within 5 percent. |
| `Linreg.LastLeastExists` | src/gps-service/linuxptp/linreg.c:186-207 | There is such a last one whenever a size has a slope. |
| `Linreg.EqualErrorsAddUp` | src/gps-service/linuxptp/linreg.c:186-207 | Errors that grow by 4 percent from size to size, for which the third is returned. |
| `Linreg.Servo.StepIfFar` | src/gps-service/linuxptp/linreg.c:243-254 | The clock is stepped exactly beyond the thresholds, and the lines stay the best ones. |
| `Linreg.Servo.Steer` | src/gps-service/linuxptp/linreg.c:256-276 | The clock gets the frequency within its limits that is nearest to the one at which it meets the line of the chosen size after the correction interval. |
| `Linreg.SteersToTheLine` | src/gps-service/linuxptp/linreg.c:256-274 | That frequency is the one that meets the line, or the limit on its side, and no frequency within the limits comes closer to the line. |
| `Linreg.PointsOfSize` | src/gps-service/linuxptp/linreg.c:27-32 | The sizes are 4, 8, 16, 32 and 64 points. |
| `Linreg.CorrectionBySize` | src/gps-service/linuxptp/linreg.c:267-268 | An offset is corrected over one interval for up to 16 points, two for 32 and three for 64. |
| `Linreg.Servo.Sample` | src/gps-service/linuxptp/linreg.c:209-279 | All of that for a whole sample: lines, points, reference, errors, outcome, and the frequency within the limits nearest to the one that meets the line. |
| `Linreg.Servo.Reset` | src/gps-service/linuxptp/linreg.c:288-301 | No points, no slopes, no time stamp. |
| `Linreg.Servo.LeapSecond` | src/gps-service/linuxptp/linreg.c:310-322 | Moves the reference when an announced leap second is over, and leaves the lines unchanged. |
| `LinregNew.Servo.constructor` | src/gps-service/linuxptp/linregnew.c:145-162 | A new servo has an empty table. |
| `LinregNew.Servo.Reset` | src/gps-service/linuxptp/linregnew.c:136-143 | Empties the table and clears the slope only. |
| `LinregNew.Servo.Regress` | src/gps-service/linuxptp/linregnew.c:66-112 | The loop fits the best line to the rows in the table, and finds their least and greatest drift. |
| `LinregNew.Servo.Sample` | src/gps-service/linuxptp/linregnew.c:45-129 | The row takes its place; samples in order stay in order; and the drift bounds enclose the frequency as long as the table has not wrapped or its missing step has the least weight. |
| `LinregNew.DriftEnclosesFit` | src/gps-service/linuxptp/linregnew.c:77-125 | For rows in order of time the slope is well defined and min_drift <= ppb <= max_drift. |
| `LinregNew.WrappedDriftIsExact` | src/gps-service/linuxptp/linregnew.c:91-98 | Once the table has wrapped, the bounds hold for all offsets if and only if the step between its last and first row has the least weight. |
| `LinregNew.RegularTable` | src/gps-service/linuxptp/linregnew.c:45-129 | For samples at regular intervals a wrapped table of six encloses the slope for all offsets if and only if one row or five are new. |
| `DriftBounds.WrappedBoundsAreExact` | src/gps-service/linuxptp/linregnew.c:91-98 | The same on the level of steps of time. |
| `DriftBounds.PairsAreSteps` | src/gps-service/linuxptp/linregnew.c:104-105 | The numerator of the slope is a sum over the steps between neighbours, each with a weight that depends on the times only. |
| `DriftBounds.RegularIntervals` | src/gps-service/linuxptp/linregnew.c:91-114 | For samples at regular intervals that is the case exactly if the table wraps next to one of its ends. |
| `Pi.Servo.constructor` | src/gps-service/linuxptp/pi.c:181-219 | Starts at the frequency it is given. |
| `Pi.Servo.TakeSample` | src/gps-service/linuxptp/pi.c:64-156 | The whole new state of the three-stage machine. |
| `Pi.Servo.SecondSample` | src/gps-service/linuxptp/pi.c:83-122 | The stage that estimates the frequency. |
| `Pi.Servo.EstimateDrift` | src/gps-service/linuxptp/pi.c:104-111 | The estimate, within the limits. |
| `Pi.Servo.Correct` | src/gps-service/linuxptp/pi.c:141-150 | The output is limited, and the integral moves exactly if it was not. |
| `Pi.EstimateIsExact` | src/gps-service/linuxptp/pi.c:104-106 | A clock of constant rate would have shown the interval of the master at the estimated frequency. |
| `Pi.SampleKeepsBounds` | src/gps-service/linuxptp/pi.c:64-156 | Not integrating at the limits is enough to keep the drift within them. |
| `Pi.RunKeepsBounds` | src/gps-service/linuxptp/pi.c:64-179 | Over every run of samples, new gains and resets the drift and every output stay within the limits. |
| `Pi.RunEntersBounds` | src/gps-service/linuxptp/pi.c:64-179 | From any starting frequency they are within the limits from the first estimate on. |
| `Pi.JumpFollowsUnlocked` | src/gps-service/linuxptp/pi.c:64-179 | Over every run each jump comes right after an output that left the clock alone, so no two jumps follow each other. |
| `Pi.WaitIsExact` | src/gps-service/linuxptp/pi.c:90-101 | The exact time stamps and gains for which the wait for an estimate is over. |
| `Pi.EstimateFollows` | src/gps-service/linuxptp/pi.c:74-122 | Two samples far enough apart bring the estimate, and a jump exactly if the second offset is over a threshold. |
| `Pi.FarOffIsStepped` | src/gps-service/linuxptp/pi.c:74-140 | A locked servo that meets an offset over the threshold steps the clock two samples later, if they are far enough apart and it is still over it. |
| `Pi.IntegratesUnlessLimited` | src/gps-service/linuxptp/pi.c:123-151 | A locked servo gives out the sum of its terms as far as the limits allow, integrates exactly if they do, and gives up exactly over the threshold. |
| `Pi.FirstThresholdOnce` | src/gps-service/linuxptp/servo.c:68-104 | Over every run the first step threshold counts until the first update alone. |
| `Pi.DriftIsIntegral` | src/gps-service/linuxptp/pi.c:141-172 | Over every locked run within the limits the drift is the sum of the offsets times the gains in force. |
| `ClockCheck.Checker.constructor` | src/gps-service/linuxptp/clockcheck.c:43-53 | A new check knows no frequency and encloses none. |
| `ClockCheck.Checker.Sample` | src/gps-service/linuxptp/clockcheck.c:55-107 | The alarm is raised exactly if the interval is too far off, in products instead of quotients, for every reported frequency but the one that divides by zero; and the whole new state. |
| `ClockCheck.Checker.IsTooFar` | src/gps-service/linuxptp/clockcheck.c:83-100 | The two comparisons of frequency offsets mean that the interval leaves the range of the enclosed frequencies and the limit, also for frequencies at which the clock runs backwards. |
| `ClockCheck.Checker.SetFreq` | src/gps-service/linuxptp/clockcheck.c:109-117 | A reported frequency widens the enclosure. |
| `ClockCheck.Checker.Step` | src/gps-service/linuxptp/clockcheck.c:119-123 | A reported step moves the last time stamp, if there is one. |
| `ClockCheck.StepSound` | src/gps-service/linuxptp/clockcheck.c:55-123 | Every event keeps that the time since the last sample is explained by the enclosed frequencies. |
| `ClockCheck.NoFalseAlarm` | src/gps-service/linuxptp/clockcheck.c:43-123 | Over every run of a clock within its limit, with all corrections and steps reported, no sample raises the alarm. |
| `ClockCheck.EnclosureIsExact` | src/gps-service/linuxptp/clockcheck.c:104-117 | The least and the greatest frequency are exactly those of the corrections since the last accepted sample. |
| `ClockCheck.TooFarIsUnexplained` | src/gps-service/linuxptp/clockcheck.c:83-100 | An interval raises the alarm if and only if no rate within the limit and no enclosed correction can explain it, for every limit; backwards the clock runs at the least correction. |
| `ClockCheck.AlarmIsExact` | src/gps-service/linuxptp/clockcheck.c:55-107 | The alarm is raised if and only if a frequency is known and within its limit, there was a sample, a tenth of a second has passed on the monotonic clock, the clock went back or advanced by as much, and nothing explains it. |
| `ClockCheck.JumpIsCaught` | src/gps-service/linuxptp/clockcheck.c:55-123 | Over every run, unreported jumps between two accepted reads that exceed what the limit and the corrections in force allow raise the alarm, as long as no reported step takes the last time stamp to zero, which the source takes for none. |
| `Suffix.PostRecv` | src/gps-service/linuxptp/msg.c:121-148 | The loop converts the suffix in place, returns the number of fields or the error, and touches nothing outside. |
| `Suffix.ConvertField` | src/gps-service/linuxptp/msg.c:129-146 | One turn of it: header, length checks, value. |
| `Suffix.PreSend` | src/gps-service/linuxptp/msg.c:150-165 | The loop converts the given number of fields back in place. |
| `Suffix.PrepareField` | src/gps-service/linuxptp/msg.c:158-164 | One turn of it. |
| `Suffix.ReceivedKeepsLength` | src/gps-service/linuxptp/msg.c:121-148 | Receiving stays within the suffix, whether it succeeds or not. |
| `Suffix.ReceivedIsShaped` | src/gps-service/linuxptp/msg.c:121-165 | At most four bytes are left over; the counted fields are found again at the same offsets by sending; extra data is kept exactly if nothing is left over. |
| `Suffix.ParsedIsFields` | src/gps-service/linuxptp/msg.c:121-148 | A suffix that is parsed consists of fields of even length that the codec accepts, and at most four more bytes. |
| `Suffix.FieldsAreParsed` | src/gps-service/linuxptp/msg.c:121-148 | Every such suffix is parsed with all its fields, except that a last field without a value needs bytes behind it. |
| `Suffix.SentOfReceived` | src/gps-service/linuxptp/msg.c:121-165 | Whatever the codec does, receiving and sending gives back every header, at its offset, and the bytes behind the fields; each value is what the codec makes of it on its own. |
| `Suffix.SentRestoresReceived` | src/gps-service/linuxptp/msg.c:121-165 | Sending a received suffix restores every byte if and only if the codec undoes every field but the last without extra data, and the last with what it is sent with. |
| `Suffix.DescriptionNeedsItsPlaces` | src/gps-service/linuxptp/tlv.c:71-170 | A clock description is undone with its extra data, and without it if and only if its four words read the same in both byte orders. |
| `Suffix.DescriptionIsRead` | src/gps-service/linuxptp/tlv.c:71-170 | Everything laid out as a clock description is taken for one, with its four words where they are. |
| `Suffix.DescriptionIsLaidOut` | src/gps-service/linuxptp/tlv.c:71-170 | Nothing else is. |
| `Suffix.DescriptionIsRefused` | src/gps-service/linuxptp/tlv.c:71-170 | A clock description is refused if and only if it is more than its identity and not laid out as one. |
| `Suffix.DescriptionInFrontIsChanged` | src/gps-service/linuxptp/tlv.c:295-304 | Any suffix with a clock description that is not the last field comes out changed, unless its words read the same both ways. |
| `Suffix.DescriptionLosesWords` | src/gps-service/linuxptp/tlv.c:414-480 | The shortest clock description in front of any other field with a value, with nothing left over, is parsed and not restored. |
| `Suffix.ReceivedRestoresSent` | src/gps-service/linuxptp/msg.c:121-165 | Receiving a sent suffix gives the same bytes and count, but for a last field without a value, if and only if every field has an even length, is accepted by the codec, and is converted back. |
| `Time.TimePoint.FromScalar` | src/qot_types.h:190-237 | The point is the scalar in attoseconds, normalized, for negative times too. |
| `Time.TimeLength.FromScalar` | src/qot_types.h:93-108 | The length is the scalar in attoseconds, normalized. |
| `Time.TimeLength.Cmp` | src/qot_types.h:122-135 | -1 exactly if the first length is greater, 1 exactly if it is less, 0 exactly if they are equal. |
| `Time.TimeLength.SetToMin` | src/qot_types.h:150-159 | The smaller length is copied. |
| `Time.TimePoint.Add` | src/qot_types.h:240-248 | The sum in attoseconds, normalized. |
| `Time.TimePoint.Sub` | src/qot_types.h:251-260 | The difference in attoseconds, normalized. |
| `Time.TimePoint.Cmp` | src/qot_types.h:263-276 | -1 exactly if the first point is later, 1 exactly if it is earlier, 0 exactly if they are equal. |
| `Time.Diff` | src/qot_types.h:279-289 | Seconds, cut to 32 bits, and fractions are subtracted apart. |
| `Time.ToScalarRoundsDown` | src/qot_types.h:308-316 | Casting to any unit rounds down, before and after the reference. |
| `Time.ScalarRoundTrip` | src/qot_types.h:190-316 | Reading back a point made from a scalar gives the scalar, for every unit and sign. |
| `Time.LengthRoundTrip` | src/qot_types.h:93-178 | The same for lengths. |
| `Time.PointRoundTrip` | src/qot_types.h:298-316 | A point is restored from its scalar if and only if it is a whole number of units. |
| `Projection.Loc2Rem` | src/api/c/qot.c:429-447 | The estimate is overwritten by its projection, in whole nanoseconds, or left alone without a timeline. |
| `Projection.Rem2Loc` | src/api/c/qot.c:449-470 | The same the other way, with the floating point quotient as the exact one rounded down. |
| `Projection.ProjectionIsLinear` | src/api/c/qot.c:429-447 | The projection is the straight line through the reference point, to less than a nanosecond. |
| `Projection.InverseIsLinear` | src/api/c/qot.c:449-470 | The way back is the same line rounded down, for mult > -10^9. |
| `Projection.OrderIsKept` | src/api/c/qot.c:429-447 | Projection to the timeline keeps the order of all times if and only if mult >= -10^9. |
| `Projection.ShrunkUndoesStretched` | src/api/c/qot.c:429-470 | The way there and back is off by less than one nanosecond of the timeline and one of core time, for every mult > -10^9. |
| `Projection.CoreTimeIsRecovered` | src/api/c/qot.c:429-470 | For |mult| <= 5*10^8 core time is recovered to two nanoseconds below and one above. |
| `Projection.RecoveryIsTight` | src/api/c/qot.c:429-470 | Both ends of that bound are reached. |
| `Wakeup.NextWake` | src/api/c/qot.c:745-764 | The steps of the computation give the wake-up time that the theorems speak of. |
| `Wakeup.WakesOnTheGrid` | src/api/c/qot.c:745-764 | The wake-up time is the start offset if that is in the future, otherwise the start of a period, never a nanosecond or more before now, and less than a period and two seconds after it; and the exact condition for not being before now. |
| `Wakeup.EarlyWakeup` | src/qot_types.h:279-289 | A concrete wake-up that comes an attosecond before now because the difference is truncated. |
| `Wakeup.WakesEarliest` | src/api/c/qot.c:745-764 | It is the earliest start that is not in the past if and only if the start is in the future, or the truncated difference of the times, which is too large or too small by an amount given by their fractions, still leads there; for times of any resolution. |
| `Wakeup.LateWakeup` | src/qot_types.h:279-289 | A concrete wake-up that comes sixteen periods late because seconds and fractions are subtracted apart. |

## Left out

- Floating point: rounding, infinities and not-a-number; `pow` in `pi_sync_interval`, so the gains of the PI servo are any non-negative numbers.
- Overflow of 64-bit arithmetic in offsets, time stamps and `mult * val`, other than the differences in `Linreg.WrappedDifference`.
- Domains in the coordinator: their random choice, their collisions and `sync->Start`; `Update` is never called, so the accuracy of a node does not change while it runs.
- Delivery of samples: the reader cache keeps the latest sample of each name and timeline until it is emptied; listeners run between heartbeats, not during them.
- Announce receipt, qualification and fault timers, the pruning of foreign masters by age, and everything else in `port.c` that only decides which events happen: events and announcements are inputs.
- Grandmaster properties other than parent and steps, time properties, path trace, management, subscriptions and leap seconds in `clock.c`.
- `update_clock_uncertainty`, which nothing calls, and `clock_rate_ratio`, which the source replaces by one.
- `Interval.dist` and the debug output of `filter` and `select_clock`.
- The bodies of `tlv_post_recv` and `tlv_pre_send` in `tlv.c` other than for clock descriptions: they are a parameter of the suffix, taken to convert values in place and to keep the header. The shortening of an over-long path trace in that file changes the header.
- A last field that needs extra data, with bytes behind it: the source then sends it with the pointers of a zeroed message; the model only says that the data is not that of the field.
- Hosts whose byte order is that of the network, message headers and time stamps in `msg.c`: plain swaps.
- The wall clock and the monotonic clock: readings are parameters, and exact.
- The unpacking of errors and `ioctl` calls around the projection and the wake-up in `qot.c`, and the uncertainty interval that the projection leaves alone.
- Wakeup.NextWake: a period of less than a nanosecond, for which the source divides by zero, is excluded.
- Wakeup.WakesOnTheGrid: times that are more seconds apart than fit an `int` are excluded, because the difference that is left of them says nothing about the order; `Wakeup.WakesEarliest` alike.
- ClockCheck.Checker.Sample: a reported frequency of exactly -10^9, which stops the clock and for which the source divides by zero, leaves the alarm open; `ClockCheck.Checker.IsTooFar` alike.
- Suffix.PreSend: the number of fields must be that of the buffer, as the source does not check it either.
- The NTP shared memory servo, `phc2sys`, `pmc`, configuration, printing and the kernel modules.
