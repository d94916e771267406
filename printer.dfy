/**
 A printer's persisted heater trackers and the notifications sent for it,
 updated in place by one reconciliation per telemetry poll.
 */
module Printers {
  import opened HeaterTrackers

  /** Every heater named in the log appears there once. */
  predicate DistinctHeaters(log: seq<Event>)
  {
    forall i, j :: 0 <= i < j < |log| ==> log[i].heater != log[j].heater
  }

  /** The trackers of `table` that survive removal of the obsolete ones, with
      the heaters in `pending` not yet examined (and so still kept). */
  ghost function Pruned(table: map<string, Tracker>, snapshot: map<string, Reading>, pending: set<string>): map<string, Tracker>
  {
    map n | n in table && (n in pending || Targeted(snapshot, n)) :: table[n]
  }

  /** The tracker table once the heaters in `done` have been processed. */
  ghost function Processed(table: map<string, Tracker>, snapshot: map<string, Reading>, done: set<string>): map<string, Tracker>
  {
    map n | n in snapshot && Targeted(snapshot, n) && (n in done || n in table) ::
      if n in done then Reconcile(table, snapshot)[n] else table[n]
  }

  /** The notification, if any, sent for heater `name` given its event kind. */
  function Notice(name: string, kind: Option<EventKind>): (log: seq<Event>)
    ensures |log| <= 1
    ensures forall e :: e in log <==> e.heater == name && kind == Some(e.kind)
  {
    if kind.Some? then [Event(name, kind.value)] else []
  }

  /** The heaters among `done` for which the poll sends a notification. */
  ghost function NotifyingIn(prior: map<string, Tracker>, snapshot: map<string, Reading>, done: set<string>): set<string>
  {
    set n | n in done && EventFor(prior, snapshot, n).Some?
  }

  lemma NotifyingInStep(prior: map<string, Tracker>, snapshot: map<string, Reading>, done: set<string>, name: string)
    requires name !in done
    ensures NotifyingIn(prior, snapshot, done + {name}) ==
      NotifyingIn(prior, snapshot, done) + (if EventFor(prior, snapshot, name).Some? then {name} else {})
    ensures |NotifyingIn(prior, snapshot, done + {name})| ==
      |NotifyingIn(prior, snapshot, done)| + |Notice(name, EventFor(prior, snapshot, name))|
  {
    if EventFor(prior, snapshot, name).Some? {
      assert name !in NotifyingIn(prior, snapshot, done);
    }
  }

  /** `sent` holds exactly one notification per heater in `done` whose poll sends one. */
  ghost predicate SentFor(prior: map<string, Tracker>, snapshot: map<string, Reading>, done: set<string>, sent: seq<Event>)
  {
    && (forall e :: e in sent ==> e.heater in done && EventFor(prior, snapshot, e.heater) == Some(e.kind))
    && (forall n :: n in done && EventFor(prior, snapshot, n).Some? ==> Event(n, EventFor(prior, snapshot, n).value) in sent)
    && DistinctHeaters(sent)
  }

  lemma SentForStep(prior: map<string, Tracker>, snapshot: map<string, Reading>, done: set<string>, sent: seq<Event>, name: string)
    requires SentFor(prior, snapshot, done, sent) && name !in done
    ensures SentFor(prior, snapshot, done + {name}, sent + Notice(name, EventFor(prior, snapshot, name)))
  {
    var sent' := sent + Notice(name, EventFor(prior, snapshot, name));
    forall i, j | 0 <= i < j < |sent'|
      ensures sent'[i].heater != sent'[j].heater
    {
      if j >= |sent| {
        assert sent'[j].heater == name;
        assert sent'[i] in sent;
      }
    }
  }

  lemma ProcessedStep(prior: map<string, Tracker>, snapshot: map<string, Reading>, done: set<string>, name: string)
    requires name in snapshot && name !in done
    ensures Targeted(snapshot, name) ==> Lookup(Processed(prior, snapshot, done), name) == Lookup(prior, name)
    ensures Processed(prior, snapshot, done + {name}) ==
      if Targeted(snapshot, name)
      then Processed(prior, snapshot, done)[name := Reconcile(prior, snapshot)[name]]
      else Processed(prior, snapshot, done)
  {
  }

  lemma ProcessedAll(prior: map<string, Tracker>, snapshot: map<string, Reading>, sent: seq<Event>)
    requires SentFor(prior, snapshot, snapshot.Keys, sent)
    requires |sent| == |NotifyingIn(prior, snapshot, snapshot.Keys)|
    ensures Processed(prior, snapshot, snapshot.Keys) == Reconcile(prior, snapshot)
    ensures forall e :: e in sent <==> EventFor(prior, snapshot, e.heater) == Some(e.kind)
    ensures DistinctHeaters(sent)
    ensures |sent| == |Notifying(prior, snapshot)|
  {
    assert NotifyingIn(prior, snapshot, snapshot.Keys) == Notifying(prior, snapshot);
  }

  /** The kinds of the notifications in `log` that concern heater `name`, in order. */
  function KindsOf(log: seq<Event>, name: string): seq<EventKind>
  {
    if log == [] then []
    else (if log[0].heater == name then [log[0].kind] else []) + KindsOf(log[1..], name)
  }

  lemma {:induction false} KindsOfAppend(a: seq<Event>, b: seq<Event>, name: string)
    ensures KindsOf(a + b, name) == KindsOf(a, name) + KindsOf(b, name)
  {
    if a == [] {
      assert a + b == b;
    } else {
      var head := if a[0].heater == name then [a[0].kind] else [];
      assert (a + b)[0] == a[0];
      assert (a + b)[1..] == a[1..] + b;
      assert KindsOf(a + b, name) == head + KindsOf(a[1..] + b, name);
      KindsOfAppend(a[1..], b, name);
      AppendAssociative(head, KindsOf(a[1..], name), KindsOf(b, name));
    }
  }

  lemma {:induction false} KindsOfAbsent(log: seq<Event>, name: string)
    requires forall i :: 0 <= i < |log| ==> log[i].heater != name
    ensures KindsOf(log, name) == []
  {
    if log != [] {
      KindsOfAbsent(log[1..], name);
    }
  }

  /** In a log with distinct heaters, a heater's notifications are its one entry. */
  lemma {:induction false} KindsOfDistinct(log: seq<Event>, i: nat, name: string)
    requires DistinctHeaters(log) && i < |log| && log[i].heater == name
    ensures KindsOf(log, name) == [log[i].kind]
  {
    if i == 0 {
      KindsOfAbsent(log[1..], name);
    } else {
      KindsOfDistinct(log[1..], i - 1, name);
    }
  }

  /** What one poll sends, read per heater, is that heater's `EventFor`. */
  lemma KindsOfSent(prior: map<string, Tracker>, snapshot: map<string, Reading>, sent: seq<Event>, name: string)
    requires forall e :: e in sent <==> EventFor(prior, snapshot, e.heater) == Some(e.kind)
    requires DistinctHeaters(sent)
    ensures KindsOf(sent, name) == Emitted(EventFor(prior, snapshot, name))
  {
    var e := EventFor(prior, snapshot, name);
    if e.None? {
      forall i | 0 <= i < |sent| ensures sent[i].heater != name {
        assert sent[i] in sent;
      }
      KindsOfAbsent(sent, name);
    } else {
      assert Event(name, e.value) in sent;
      var i :| 0 <= i < |sent| && sent[i] == Event(name, e.value);
      KindsOfDistinct(sent, i, name);
    }
  }

  /** The log after one more poll still holds, per heater, what the polls so far send. */
  lemma LogAfterPoll(initial: map<string, Tracker>, polls: seq<map<string, Reading>>, snapshot: map<string, Reading>,
                     log: seq<Event>, sent: seq<Event>, name: string)
    requires KindsOf(log, name) == HeaterEvents(initial, polls, name)
    requires forall e :: e in sent <==> EventFor(Run(initial, polls), snapshot, e.heater) == Some(e.kind)
    requires DistinctHeaters(sent)
    ensures KindsOf(log + sent, name) == HeaterEvents(initial, polls + [snapshot], name)
  {
    KindsOfAppend(log, sent, name);
    KindsOfSent(Run(initial, polls), snapshot, sent, name);
    HeaterEventsThenPoll(initial, polls, snapshot, name);
  }

  lemma AppendAssociative<T>(a: seq<T>, b: seq<T>, c: seq<T>)
    ensures (a + b) + c == a + (b + c)
  {
  }

  class Printer {
    /** The printer's trackers, one per heater name. */
    var trackers: map<string, Tracker>
    /** Every notification sent for this printer, oldest first. */
    var events: seq<Event>

    /** The trackers stored before the first poll, and the snapshots of every poll since. */
    ghost var initial: map<string, Tracker>
    ghost var polls: seq<map<string, Reading>>

    /** The trackers are those the polls so far leave, and for every heater
        the log holds exactly the notifications those polls send for it. */
    ghost predicate Valid()
      reads this
    {
      && trackers == Run(initial, polls)
      && forall n :: KindsOf(events, n) == HeaterEvents(initial, polls, n)
    }

    /** A printer with the given trackers already stored and nothing sent yet. */
    constructor (stored: map<string, Tracker>)
      ensures Valid()
      ensures trackers == stored && events == []
      ensures initial == stored && polls == []
    {
      trackers := stored;
      events := [];
      initial := stored;
      polls := [];
    }

    /** Delete the trackers whose heater is missing from the snapshot or has no target. */
    method DeleteObsolete(snapshot: map<string, Reading>)
      modifies this`trackers
      ensures trackers == Pruned(old(trackers), snapshot, {})
      ensures events == old(events)
    {
      ghost var prior := trackers;
      var stale := trackers.Keys;
      while stale != {}
        invariant stale <= prior.Keys
        invariant trackers == Pruned(prior, snapshot, stale)
        invariant events == old(events)
        decreases stale
      {
        var name :| name in stale;
        if !Targeted(snapshot, name) {
          trackers := trackers - {name};
        }
        stale := stale - {name};
      }
    }

    /** Create, retarget and latch the tracker of every heater that reports a
        target, starting from the table left by `DeleteObsolete` for `prior`. */
    method ProcessTargeted(snapshot: map<string, Reading>, ghost prior: map<string, Tracker>) returns (sent: seq<Event>)
      requires trackers == Processed(prior, snapshot, {})
      modifies this`trackers, this`events
      ensures trackers == Processed(prior, snapshot, snapshot.Keys)
      ensures events == old(events) + sent
      ensures SentFor(prior, snapshot, snapshot.Keys, sent)
      ensures |sent| == |NotifyingIn(prior, snapshot, snapshot.Keys)|
    {
      sent := [];
      ghost var log := events;
      var pending := snapshot.Keys;
      ghost var done: set<string> := {};
      while pending != {}
        invariant pending !! done && pending + done == snapshot.Keys
        invariant trackers == Processed(prior, snapshot, done)
        invariant events == log + sent
        invariant SentFor(prior, snapshot, done, sent)
        invariant |sent| == |NotifyingIn(prior, snapshot, done)|
        decreases pending
      {
        var name :| name in pending;
        ProcessedStep(prior, snapshot, done, name);
        SentForStep(prior, snapshot, done, sent, name);
        NotifyingInStep(prior, snapshot, done, name);
        ghost var expected := Notice(name, EventFor(prior, snapshot, name));
        var reading := snapshot[name];
        var notice: seq<Event> := [];
        if reading.target.Some? {
          var step := Next(Lookup(trackers, name), reading.actual, reading.target.value);
          trackers := trackers[name := step.tracker];
          notice := Notice(name, step.event);
        }
        assert notice == expected;
        assert events + notice == log + (sent + notice) by {
          AppendAssociative(log, sent, notice);
        }
        sent := sent + notice;
        events := events + notice;
        pending := pending - {name};
        done := done + {name};
      }
    }

    /** Reconcile the trackers with one telemetry snapshot: delete the obsolete
        trackers, then create, retarget and latch the rest, sending one
        notification per rising edge of `reached`. Returns what was sent. */
    method UpdateHeaterTrackers(snapshot: map<string, Reading>) returns (sent: seq<Event>)
      requires Valid()
      modifies this
      ensures Valid() && initial == old(initial) && polls == old(polls) + [snapshot]
      ensures trackers == Reconcile(old(trackers), snapshot)
      ensures events == old(events) + sent
      ensures forall e :: e in sent <==> EventFor(old(trackers), snapshot, e.heater) == Some(e.kind)
      ensures DistinctHeaters(sent)
      ensures |sent| == |Notifying(old(trackers), snapshot)|
    {
      ghost var prior := trackers;
      DeleteObsolete(snapshot);
      assert trackers == Processed(prior, snapshot, {});
      sent := ProcessTargeted(snapshot, prior);
      ProcessedAll(prior, snapshot, sent);
      RunThenPoll(initial, polls, snapshot);
      forall n
        ensures KindsOf(old(events) + sent, n) == HeaterEvents(initial, polls + [snapshot], n)
      {
        LogAfterPoll(initial, polls, snapshot, old(events), sent, n);
      }
      polls := polls + [snapshot];
    }
  }
}
