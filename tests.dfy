/**
 The scenarios of the heater-tracker test case; each drives a fresh printer.
 Each method returns what its scenario observes and states, as its
 postcondition, what the scenario expects to see.
 */
module HeaterTrackerTests {
  import opened HeaterTrackers
  import opened Printers

  /** A heater reported without a target gets no tracker. */
  method NotCreatedWithoutTarget() returns (table: map<string, Tracker>)
    ensures table == map[]
  {
    var printer := new Printer(map[]);
    var _ := printer.UpdateHeaterTrackers(map["h0" := Reading(50.0, None, 0.0)]);
    table := printer.trackers;
  }

  /** A heater reported with a target, even 0.0, gets a tracker holding that target. */
  method CreatedWhenHasTarget() returns (table: map<string, Tracker>)
    ensures table.Keys == {"h0"} && table["h0"].target == 0.0
  {
    var printer := new Printer(map[]);
    var _ := printer.UpdateHeaterTrackers(map["h0" := Reading(50.0, Some(0.0), 0.0)]);
    table := printer.trackers;
  }

  /** A new target replaces the stored one. */
  method UpdatedWhenTargetChanges() returns (tracker: Tracker)
    ensures tracker.target == 100.0
  {
    var printer := new Printer(map["h0" := Tracker(0.0, false)]);
    var _ := printer.UpdateHeaterTrackers(map["h0" := Reading(50.0, Some(100.0), 0.0)]);
    tracker := printer.trackers["h0"];
  }

  /** Trackers of a heater without a target and of a heater no longer reported are both deleted. */
  method DeletedWhenObsolete() returns (count: nat)
    ensures count == 0
  {
    var printer := new Printer(map["h0" := Tracker(0.0, false), "h1" := Tracker(200.0, false)]);
    var _ := printer.UpdateHeaterTrackers(map["h0" := Reading(50.0, None, 0.0)]);
    count := |printer.trackers|;
  }

  /** Target 0.0: 36.0 has not cooled down; 35.0 has, and sends one 'cooled down'. */
  method CooledDownThreshold() returns (first: bool, second: bool, log: seq<Event>)
    ensures !first && second
    ensures |log| == 1 && log[0].kind == CooledDown
  {
    var printer := new Printer(map["h0" := Tracker(0.0, false)]);
    var sent := printer.UpdateHeaterTrackers(map["h0" := Reading(36.0, Some(0.0), 0.0)]);
    first := printer.trackers["h0"].reached;
    ghost var before := printer.trackers;
    var snapshot := map["h0" := Reading(35.0, Some(0.0), 0.0)];
    sent := printer.UpdateHeaterTrackers(snapshot);
    NotifyingOne(before, snapshot, "h0");
    assert Event("h0", CooledDown) in sent;
    second := printer.trackers["h0"].reached;
    log := printer.events;
  }

  /** Target 60.0: 57.0 is outside the band; 58.0 is on its edge, and sends one 'target reached'. */
  method TargetReachedDelta() returns (first: bool, second: bool, log: seq<Event>)
    ensures !first && second
    ensures |log| == 1 && log[0].kind == TargetReached
  {
    var printer := new Printer(map["h0" := Tracker(60.0, false)]);
    var sent := printer.UpdateHeaterTrackers(map["h0" := Reading(57.0, Some(60.0), 0.0)]);
    first := printer.trackers["h0"].reached;
    ghost var before := printer.trackers;
    var snapshot := map["h0" := Reading(58.0, Some(60.0), 0.0)];
    sent := printer.UpdateHeaterTrackers(snapshot);
    NotifyingOne(before, snapshot, "h0");
    assert Event("h0", TargetReached) in sent;
    second := printer.trackers["h0"].reached;
    log := printer.events;
  }

  /** A tracker already reached sends nothing more while its target stays 60.0,
      for readings at either edge of the band and far outside it. */
  method NoEventsAfterReached() returns (reached: bool, log: seq<Event>)
    ensures reached && log == []
  {
    var printer := new Printer(map["h0" := Tracker(60.0, true)]);
    var _ := printer.UpdateHeaterTrackers(map["h0" := Reading(58.0, Some(60.0), 0.0)]);
    var _ := printer.UpdateHeaterTrackers(map["h0" := Reading(62.0, Some(60.0), 0.0)]);
    var _ := printer.UpdateHeaterTrackers(map["h0" := Reading(70.0, Some(60.0), 0.0)]);
    var _ := printer.UpdateHeaterTrackers(map["h0" := Reading(50.0, Some(60.0), 0.0)]);
    reached := printer.trackers["h0"].reached;
    log := printer.events;
  }

  /** A heater seen for the first time already at its target is created reached, with one notification. */
  method FirstSeenReachedEvent() returns (reached: bool, log: seq<Event>)
    ensures reached && |log| == 1
  {
    var printer := new Printer(map[]);
    var snapshot := map["h0" := Reading(60.0, Some(60.0), 0.0)];
    var _ := printer.UpdateHeaterTrackers(snapshot);
    NotifyingOne(map[], snapshot, "h0");
    reached := printer.trackers["h0"].reached;
    log := printer.events;
  }

  /** A reached tracker whose target moves from 60.0 to 70.0, with the reading
      already at 70.0, is reached again and sends one notification. */
  method TargetChangesAndReachedEvent() returns (reached: bool, log: seq<Event>)
    ensures reached && |log| == 1
  {
    var printer := new Printer(map["h0" := Tracker(60.0, true)]);
    var snapshot := map["h0" := Reading(70.0, Some(70.0), 0.0)];
    var _ := printer.UpdateHeaterTrackers(snapshot);
    NotifyingOne(map["h0" := Tracker(60.0, true)], snapshot, "h0");
    reached := printer.trackers["h0"].reached;
    log := printer.events;
  }
}
