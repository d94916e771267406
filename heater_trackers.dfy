/**
 The heater-tracker reconciliation of a printer, as pure functions.

 A printer keeps one tracker per heater that currently has a target: the
 target last seen and a latch `reached` that turns on the first time the
 reading enters the reached condition for that target. Each telemetry poll
 delivers a snapshot `name -> Reading`; `Reconcile` gives the tracker table
 after the poll and `EventFor` the notification (if any) sent for a heater.
 */
module HeaterTrackers {

  datatype Option<T> = None | Some(value: T)

  /** Half-width of the band around a non-zero target that counts as reached. */
  const Delta: real := 2.0

  /** With target 0.0 (heater switched off) a reading at or below this has cooled down. */
  const CooldownCutoff: real := 35.0

  /** One heater's entry in a telemetry snapshot; `target == None` means no target is set.
      `offset` is carried as received and plays no part in the reconciliation. */
  datatype Reading = Reading(actual: real, target: Option<real>, offset: real)

  /** The persisted state of one heater of one printer. */
  datatype Tracker = Tracker(target: real, reached: bool)

  datatype EventKind = TargetReached | CooledDown

  /** One notification sent to the printer's owner. */
  datatype Event = Event(heater: string, kind: EventKind)

  /** The result of processing one heater's reading against its prior tracker. */
  datatype Step = Step(tracker: Tracker, event: Option<EventKind>)

  function Distance(x: real, y: real): real
  {
    if x <= y then y - x else x - y
  }

  function Lookup<K, V>(m: map<K, V>, k: K): Option<V>
  {
    if k in m then Some(m[k]) else None
  }

  /** The reached condition of a reading against a target: within `Delta` of a
      non-zero target, edges included; at or below the cut-off for target 0.0. */
  function IsTargetReached(actual: real, target: real): (r: bool)
    ensures target != 0.0 ==> (r <==> Distance(actual, target) <= Delta)
    ensures target == 0.0 ==> (r <==> actual <= CooldownCutoff)
  {
    if target == 0.0 then actual <= CooldownCutoff
    else target - Delta <= actual <= target + Delta
  }

  /** The notification kind for a target: cooling down to 0.0, or heating to a set point. */
  function KindFor(target: real): (k: EventKind)
    ensures k == CooledDown <==> target == 0.0
  {
    if target == 0.0 then CooledDown else TargetReached
  }

  /** The prior tracker has already latched `reached` for this very target. */
  predicate Latched(prior: Option<Tracker>, target: real)
  {
    prior.Some? && prior.value.target == target && prior.value.reached
  }

  /** One heater with a target: create the tracker if there is none, restart the
      reached cycle if the target changed, then latch `reached` on entering the
      reached condition, emitting one event on that rising edge only. */
  function Next(prior: Option<Tracker>, actual: real, target: real): (r: Step)
    ensures r.tracker.target == target
    ensures r.tracker.reached <==> Latched(prior, target) || IsTargetReached(actual, target)
    ensures r.event.Some? <==> r.tracker.reached && !Latched(prior, target)
    ensures r.event.Some? ==> r.event.value == KindFor(target)
  {
    var current := if prior.Some? && prior.value.target == target then prior.value else Tracker(target, false);
    if !current.reached && IsTargetReached(actual, target) then
      Step(Tracker(target, true), Some(KindFor(target)))
    else
      Step(current, None)
  }

  predicate Targeted(snapshot: map<string, Reading>, name: string)
  {
    name in snapshot && snapshot[name].target.Some?
  }

  /** The tracker table after one poll: a tracker exactly for the heaters the
      snapshot reports with a target, each holding that target. */
  function Reconcile(table: map<string, Tracker>, snapshot: map<string, Reading>): (r: map<string, Tracker>)
    ensures forall n :: n in r <==> Targeted(snapshot, n)
    ensures forall n :: n in r ==> Targeted(snapshot, n) && r[n].target == snapshot[n].target.value
    ensures forall n :: n in r ==>
      && Targeted(snapshot, n)
      && (r[n].reached <==> Latched(Lookup(table, n), r[n].target) || IsTargetReached(snapshot[n].actual, r[n].target))
  {
    map n | n in snapshot && snapshot[n].target.Some? ::
      Next(Lookup(table, n), snapshot[n].actual, snapshot[n].target.value).tracker
  }

  /** The notification sent for heater `name` during one poll. Deleting a tracker sends nothing. */
  function EventFor(table: map<string, Tracker>, snapshot: map<string, Reading>, name: string): (e: Option<EventKind>)
    ensures e.Some? ==> Targeted(snapshot, name)
    ensures e.Some? <==>
      Targeted(snapshot, name) && Reconcile(table, snapshot)[name].reached
      && !Latched(Lookup(table, name), snapshot[name].target.value)
    ensures e.Some? ==> e.value == KindFor(snapshot[name].target.value)
  {
    if Targeted(snapshot, name) then
      Next(Lookup(table, name), snapshot[name].actual, snapshot[name].target.value).event
    else
      None
  }

  /** The heaters for which one poll sends a notification. */
  function Notifying(table: map<string, Tracker>, snapshot: map<string, Reading>): set<string>
  {
    set n | n in snapshot && EventFor(table, snapshot, n).Some?
  }

  /** A snapshot of a single heater notifies at most that heater. */
  lemma NotifyingOne(table: map<string, Tracker>, snapshot: map<string, Reading>, name: string)
    requires snapshot.Keys == {name}
    ensures Notifying(table, snapshot) == if EventFor(table, snapshot, name).Some? then {name} else {}
  {
  }

  /** The tracker table after a series of polls. */
  function Run(table: map<string, Tracker>, snapshots: seq<map<string, Reading>>): map<string, Tracker>
    decreases |snapshots|
  {
    if snapshots == [] then table else Run(Reconcile(table, snapshots[0]), snapshots[1..])
  }

  function Emitted(e: Option<EventKind>): seq<EventKind>
  {
    if e.Some? then [e.value] else []
  }

  /** The notifications sent for heater `name` over a series of polls, in order. */
  function HeaterEvents(table: map<string, Tracker>, snapshots: seq<map<string, Reading>>, name: string): seq<EventKind>
    decreases |snapshots|
  {
    if snapshots == [] then []
    else Emitted(EventFor(table, snapshots[0], name)) + HeaterEvents(Reconcile(table, snapshots[0]), snapshots[1..], name)
  }

  /** Every snapshot of the series reports heater `name` with the same target. */
  ghost predicate SteadyTarget(snapshots: seq<map<string, Reading>>, name: string, target: real)
  {
    forall i :: 0 <= i < |snapshots| ==> name in snapshots[i] && snapshots[i][name].target == Some(target)
  }

  // ---------------------------------------------------------------------------
  // The reached condition

  /** For a non-zero target the band is symmetric: a reading `d` above the
      target is reached exactly when the reading `d` below it is. */
  lemma ReachBandSymmetric(target: real, d: real)
    requires target != 0.0
    ensures IsTargetReached(target + d, target) <==> IsTargetReached(target - d, target)
    ensures IsTargetReached(target + d, target) <==> -Delta <= d <= Delta
  {
  }

  /** For target 0.0 the condition is a cut-off: any reading at or below a
      reached reading is reached as well. */
  lemma CooldownIsDownwardClosed(actual: real, lower: real)
    requires IsTargetReached(actual, 0.0) && lower <= actual
    ensures IsTargetReached(lower, 0.0)
  {
  }

  // ---------------------------------------------------------------------------
  // One poll

  /** A heater whose tracker has latched for an unchanged target keeps its
      tracker as it is and sends nothing, whatever the reading. */
  lemma LatchedTrackerIsQuiet(table: map<string, Tracker>, snapshot: map<string, Reading>, name: string)
    requires name in table && table[name].reached
    requires name in snapshot && snapshot[name].target == Some(table[name].target)
    ensures name in Reconcile(table, snapshot) && Reconcile(table, snapshot)[name] == table[name]
    ensures EventFor(table, snapshot, name) == None
  {
  }

  /** A heater seen for the first time, or whose target changed, starts a new
      cycle: it is reached, and notifies, exactly when the reading is in the
      reached condition for the new target, whatever the old tracker held. */
  lemma NewTargetStartsCycle(table: map<string, Tracker>, snapshot: map<string, Reading>, name: string)
    requires name in snapshot && snapshot[name].target.Some?
    requires name !in table || table[name].target != snapshot[name].target.value
    ensures name in Reconcile(table, snapshot)
    ensures Reconcile(table, snapshot)[name].reached
        <==> IsTargetReached(snapshot[name].actual, snapshot[name].target.value)
    ensures EventFor(table, snapshot, name).Some?
        <==> IsTargetReached(snapshot[name].actual, snapshot[name].target.value)
  {
  }

  /** Which trackers exist after a poll, and what each holds, depends only on
      that heater's own prior tracker and reading: heaters are independent. */
  lemma HeatersAreIndependent(t1: map<string, Tracker>, s1: map<string, Reading>,
                              t2: map<string, Tracker>, s2: map<string, Reading>, name: string)
    requires Lookup(t1, name) == Lookup(t2, name) && Lookup(s1, name) == Lookup(s2, name)
    ensures Lookup(Reconcile(t1, s1), name) == Lookup(Reconcile(t2, s2), name)
    ensures EventFor(t1, s1, name) == EventFor(t2, s2, name)
  {
  }

  /** Delivering the same snapshot twice changes nothing the second time and
      sends no notification: events are not duplicated. */
  lemma RepeatedSnapshotIsQuiet(table: map<string, Tracker>, snapshot: map<string, Reading>, name: string)
    ensures Reconcile(Reconcile(table, snapshot), snapshot) == Reconcile(table, snapshot)
    ensures EventFor(Reconcile(table, snapshot), snapshot, name) == None
  {
  }

  // ---------------------------------------------------------------------------
  // A series of polls

  /** One more poll at the end of a series reconciles the table the series left. */
  lemma {:induction false} RunThenPoll(table: map<string, Tracker>, snapshots: seq<map<string, Reading>>,
                                       snapshot: map<string, Reading>)
    ensures Run(table, snapshots + [snapshot]) == Reconcile(Run(table, snapshots), snapshot)
    decreases |snapshots|
  {
    if snapshots != [] {
      assert (snapshots + [snapshot])[1..] == snapshots[1..] + [snapshot];
      RunThenPoll(Reconcile(table, snapshots[0]), snapshots[1..], snapshot);
    }
  }

  /** One more poll at the end of a series adds to a heater's notifications
      exactly what that poll sends for it, from the table the series left. */
  lemma {:induction false} HeaterEventsThenPoll(table: map<string, Tracker>, snapshots: seq<map<string, Reading>>,
                                                snapshot: map<string, Reading>, name: string)
    ensures HeaterEvents(table, snapshots + [snapshot], name)
         == HeaterEvents(table, snapshots, name) + Emitted(EventFor(Run(table, snapshots), snapshot, name))
    decreases |snapshots|
  {
    if snapshots == [] {
      assert [snapshot][1..] == [];
    } else {
      assert (snapshots + [snapshot])[1..] == snapshots[1..] + [snapshot];
      HeaterEventsThenPoll(Reconcile(table, snapshots[0]), snapshots[1..], snapshot, name);
    }
  }

  /** After a series of polls the trackers are exactly the heaters that the
      latest snapshot reports with a target. */
  lemma {:induction false} RunFollowsLatestSnapshot(table: map<string, Tracker>, snapshots: seq<map<string, Reading>>)
    requires snapshots != []
    ensures forall n :: n in Run(table, snapshots) <==> Targeted(snapshots[|snapshots| - 1], n)
    decreases |snapshots|
  {
    if |snapshots| > 1 {
      RunFollowsLatestSnapshot(Reconcile(table, snapshots[0]), snapshots[1..]);
      assert snapshots[1..][|snapshots[1..]| - 1] == snapshots[|snapshots| - 1];
    }
  }

  /** Once latched, a tracker stays latched and silent for as long as its
      target does not change, whatever the readings. */
  lemma {:induction false} NoEventsWhileLatched(table: map<string, Tracker>, snapshots: seq<map<string, Reading>>,
                                               name: string, target: real)
    requires name in table && table[name] == Tracker(target, true)
    requires SteadyTarget(snapshots, name, target)
    ensures name in Run(table, snapshots) && Run(table, snapshots)[name] == Tracker(target, true)
    ensures HeaterEvents(table, snapshots, name) == []
    decreases |snapshots|
  {
    if snapshots != [] {
      LatchedTrackerIsQuiet(table, snapshots[0], name);
      assert SteadyTarget(snapshots[1..], name, target) by {
        forall i | 0 <= i < |snapshots| - 1
          ensures name in snapshots[1..][i] && snapshots[1..][i][name].target == Some(target)
        {
          assert snapshots[1..][i] == snapshots[i + 1];
        }
      }
      NoEventsWhileLatched(Reconcile(table, snapshots[0]), snapshots[1..], name, target);
    }
  }

  /** While a heater keeps the same target, at most one notification is sent
      for it in total, whatever the prior tracker and the readings. */
  lemma {:induction false} AtMostOneEventPerTarget(table: map<string, Tracker>, snapshots: seq<map<string, Reading>>,
                                                  name: string, target: real)
    requires SteadyTarget(snapshots, name, target)
    ensures |HeaterEvents(table, snapshots, name)| <= 1
    decreases |snapshots|
  {
    if snapshots != [] {
      var next := Reconcile(table, snapshots[0]);
      assert SteadyTarget(snapshots[1..], name, target) by {
        forall i | 0 <= i < |snapshots| - 1
          ensures name in snapshots[1..][i] && snapshots[1..][i][name].target == Some(target)
        {
          assert snapshots[1..][i] == snapshots[i + 1];
        }
      }
      if EventFor(table, snapshots[0], name).Some? {
        NoEventsWhileLatched(next, snapshots[1..], name, target);
      } else {
        AtMostOneEventPerTarget(next, snapshots[1..], name, target);
      }
    }
  }
}
