# Heater trackers of a 3D-printer monitor

This project models how a printer-monitoring web application keeps track of
each printer's heaters (hotend, bed, ...) and decides when to tell the owner
that a heater has reached its target temperature or has cooled down.

Every telemetry poll delivers a snapshot `heater name -> (actual, target or
none, offset)`. The reconciliation `update_heater_trackers(printer, snapshot)`
keeps one tracker per heater that has a target, holding that target and a
latch `reached`:

- a tracker whose heater is missing from the snapshot, or reported without a
  target, is deleted, silently;
- a heater reported with a target and no tracker gets one;
- a tracker whose stored target differs from the reported one takes the new
  target and starts a new cycle (`reached` is cleared before the reading is
  checked);
- a tracker not yet reached becomes reached when the reading enters the
  reached condition, and exactly then one notification is sent: `cooled down`
  when the target is 0.0, `target reached` otherwise. A reached tracker stays
  reached, and silent, until its target changes.

The reached condition is a band of plus or minus 2.0 around a non-zero target
(both edges included) and, for target 0.0, a cut-off: a reading at or below
35.0 has cooled down.

The implementation file of the reconciliation is not part of this model; the
behaviour modelled is the one the test case `web/app/tests.py` fixes,
scenario by scenario. Where that test case leaves a choice open, the model
takes the one stated below and under "Left out".

Files:

- `heater_trackers.dfy`, module `HeaterTrackers`: the data (`Reading`,
  `Tracker`, `Event`), the reached condition, the one-heater step `Next`, one
  poll `Reconcile`/`EventFor`, series of polls `Run`/`HeaterEvents`, and the
  lemmas about them.
- `printer.dfy`, module `Printers`: class `Printer`, the printer's persisted
  trackers (a `map`) and the log of notifications sent for it (a `seq`),
  updated in place by `UpdateHeaterTrackers`, which deletes the obsolete
  trackers in one pass and processes the reported heaters in a second, and is
  proved to leave exactly the state and log that `Reconcile` and `EventFor`
  describe. Its invariant `Valid` ties the printer to the series of polls it
  has received: the table is `Run` of them and, heater by heater, the log
  holds `HeaterEvents` of them, so the lemmas about series of polls
  (`NoEventsWhileLatched`, `AtMostOneEventPerTarget`) hold of the log.
- `tests.dfy`, module `HeaterTrackerTests`: each scenario of the test case as
  a method that drives a fresh `Printer` and states the test's assertions as
  its postcondition.

## Model

| member | source | states |
|---|---|---|
| HeaterTrackers.IsTargetReached | web/app/tests.py:69-110 | for target 0.0, reached iff the reading is at most 35.0; otherwise reached iff the reading is within 2.0 of the target, both edges included |
| HeaterTrackers.ReachBandSymmetric | web/app/tests.py:126-136 | for a non-zero target, a reading `d` above the target is reached exactly when the reading `d` below is, and exactly when `d` is within plus or minus 2.0 |
| HeaterTrackers.CooldownIsDownwardClosed | web/app/tests.py:69-81 | for target 0.0 the reached condition is a cut-off: any reading below a cooled-down reading has cooled down too |
| HeaterTrackers.KindFor | web/app/tests.py:84 | the notification kind is `cooled down` exactly when the target is 0.0, `target reached` otherwise |
| HeaterTrackers.Next | web/app/tests.py:87-112 | one heater: the tracker holds the reported target; it is reached iff it had already latched for this same target or the reading is in the reached condition; a notification is sent iff it is reached now and had not latched for this target, and its kind follows the target |
| HeaterTrackers.Reconcile | web/app/tests.py:15-55 | after a poll there is a tracker for a heater iff the snapshot reports it with a target; that tracker holds the reported target, and it is reached iff it had already latched for that target or the reading is in the reached condition |
| HeaterTrackers.EventFor | web/app/tests.py:57-112 | a heater notifies during a poll iff it has a target, its new tracker is reached, and it had not already latched for that target; deleted trackers never notify; the kind follows the target |
| HeaterTrackers.LatchedTrackerIsQuiet | web/app/tests.py:115-151 | a tracker already reached keeps its state and sends nothing while the target is unchanged, whatever the reading |
| HeaterTrackers.NewTargetStartsCycle | web/app/tests.py:154-189 | a heater seen for the first time, or with a changed target, is reached, and notifies, exactly when the reading is in the reached condition for the new target, even if the old tracker was reached |
| HeaterTrackers.HeatersAreIndependent | web/app/tests.py:43-55 | whether a heater keeps a tracker, what it holds and whether it notifies depend only on that heater's own tracker and reading |
| HeaterTrackers.RepeatedSnapshotIsQuiet | web/app/tests.py:115-151 | generalises the repeated polls of that scenario: delivering the same snapshot twice leaves the table unchanged the second time and sends no notification, whatever the state before |
| HeaterTrackers.RunFollowsLatestSnapshot | web/app/tests.py:43-55 | after any series of polls the trackers are exactly the heaters the latest snapshot reports with a target |
| HeaterTrackers.RunThenPoll | web/app/tests.py:98-110 | a further poll after a series of polls reconciles the table that the series left |
| HeaterTrackers.HeaterEventsThenPoll | web/app/tests.py:98-112 | a further poll after a series of polls adds to a heater's notifications exactly what that poll sends for it |
| HeaterTrackers.NoEventsWhileLatched | web/app/tests.py:115-151 | over any series of polls that keep the target, a reached tracker stays reached with that target and sends no notification |
| HeaterTrackers.AtMostOneEventPerTarget | web/app/tests.py:57-112 | over any series of polls that keep a heater's target, at most one notification is sent for that heater |
| Printers.Printer.constructor | web/app/tests.py:32-33 | a printer starts with the given stored trackers, nothing sent and no poll yet, so its invariant `Valid` holds |
| Printers.Printer.DeleteObsolete | web/app/tests.py:43-55 | removes exactly the trackers whose heater is missing or has no target, keeps the others unchanged, sends nothing |
| Printers.Printer.ProcessTargeted | web/app/tests.py:23-41 | for every heater with a target, stores the tracker `Next` gives and appends one notification per rising edge, each heater at most once |
| Printers.Printer.UpdateHeaterTrackers | web/app/tests.py:16-19 | the new table is `Reconcile` of the old one; the log grows by the notifications sent, which are exactly the heaters for which `EventFor` gives a kind, one each, so as many as `Notifying` counts; it keeps `Valid`: after any series of polls the table is `Run` of them and each heater's notifications in the log are `HeaterEvents` of them |
| HeaterTrackerTests.NotCreatedWithoutTarget | web/app/tests.py:15-21 | a heater reported without a target leaves the table empty |
| HeaterTrackerTests.CreatedWhenHasTarget | web/app/tests.py:23-29 | a heater reported with target 0.0 gets a tracker storing 0.0 |
| HeaterTrackerTests.UpdatedWhenTargetChanges | web/app/tests.py:31-41 | a tracker with target 0.0 reported at 100.0 stores 100.0 |
| HeaterTrackerTests.DeletedWhenObsolete | web/app/tests.py:43-55 | with `h0` reported without a target and `h1` not reported, no tracker is left |
| HeaterTrackerTests.CooledDownThreshold | web/app/tests.py:58-84 | target 0.0: at 36.0 not reached; at 35.0 reached, with exactly one notification, of kind `cooled down` |
| HeaterTrackerTests.TargetReachedDelta | web/app/tests.py:87-112 | target 60.0: at 57.0 not reached; at 58.0 reached, with exactly one notification, of kind `target reached` |
| HeaterTrackerTests.NoEventsAfterReached | web/app/tests.py:115-151 | a reached tracker at 60.0 read at 58, 62, 70 and 50 stays reached and sends nothing |
| HeaterTrackerTests.FirstSeenReachedEvent | web/app/tests.py:154-169 | a heater first seen at 60.0 with target 60.0 is created reached with exactly one notification |
| HeaterTrackerTests.TargetChangesAndReachedEvent | web/app/tests.py:172-189 | a reached tracker moved from 60.0 to 70.0 and read at 70.0 is reached with exactly one notification |

## Left out

- The implementation file `web/app/heater_trackers.py` is not part of this model; the reconciliation is modelled from the behaviour the test case asserts.
- Persistence through the object-relational mapper, the user and printer records created by the test fixture, and reloading rows: the printer's trackers are a `map` field of `Printer`.
- The notification transport and the arguments of a notification other than the heater and the kind: a notification is the pair `(heater, kind)` appended to `Printer.events`.
- The order of notifications for different heaters within one poll: a snapshot is a `map`, so `UpdateHeaterTrackers` visits heaters in an unspecified order and its contract fixes which notifications are sent, each once, not their order. Each heater's notifications in the log, in order, are fixed by `HeaterEvents` (through `Printer.Valid`).
- The `offset` of a reading: it is carried in `Reading` and plays no part, as in every scenario of the test case (always 0).
- Atomicity of one reconciliation, serialisation of polls of one printer, and concurrency: each call is one sequential step on one `Printer`.
- Rejection of malformed snapshot entries (a missing `actual`): nothing in the test case exercises it; `Reading.actual` is always present.
- Floating point: temperatures are `real`; only comparisons and the subtraction of the band edges are involved.
- The exact boundaries the test case leaves open are fixed as: band edges included (58.0 against 60.0 is reached), cut-off 35.0 included (36.0 is not reached). The kind sent after a target change follows the same target-is-0.0 rule; the test case asserts only the count there.
