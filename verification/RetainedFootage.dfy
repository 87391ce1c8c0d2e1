/** What a reclaim (frigate/storage.py) means by footage that overlaps a retained event: footage that shows some
    instant of it; and so which footage its first pass deletes. */
module RetainedFootage {
  import opened Common
  import opened Storage

  predicate Within(t: real, r: Recording) { r.start <= t <= r.end }

  /** The event is under way at time `t`; one without an end still is. */
  predicate UnderWay(t: real, e: Event) { e.start <= t && (e.end.Some? ==> t <= e.end.value) }

  /** Some instant lies both in the segment and in one of the events. */
  ghost predicate SharesInstant(r: Recording, evs: seq<Event>) {
    exists i, t: real :: 0 <= i < |evs| && UnderWay(t, evs[i]) && Within(t, r)
  }

  /** Times are in order: no event and no segment ends before it begins. */
  ghost predicate Forward(r: Recording, evs: seq<Event>) {
    r.start <= r.end && forall e :: e in evs && e.end.Some? ==> e.start <= e.end.value
  }

  /** A segment is spared if and only if it shows some instant of a retained event. */
  lemma {:induction false} KeptIffSharesInstant(r: Recording, retained: seq<Event>)
    requires Forward(r, retained)
    ensures Kept(r, retained) <==> SharesInstant(r, retained)
  {
    if i :| 0 <= i < |retained| && Overlaps(retained[i], r) {
      var t := if retained[i].start <= r.start then r.start else retained[i].start;
      assert retained[i] in retained;
      assert UnderWay(t, retained[i]) && Within(t, r);
    }
    if i, t: real :| 0 <= i < |retained| && UnderWay(t, retained[i]) && Within(t, r) {
      assert Overlaps(retained[i], r);
    }
  }

  /** The segment shows some instant of an event of the table that has a clip and is to be retained. */
  ghost predicate ShowsRetained(r: Recording, events: map<string, Event>) {
    exists id, t: real ::
      id in events && events[id].retain && events[id].hasClip && UnderWay(t, events[id]) && Within(t, r)
  }

  lemma {:induction false} ShowsRetainedIff(r: Recording, retained: seq<Event>, events: map<string, Event>)
    requires IsRetainedListing(retained, events)
    ensures SharesInstant(r, retained) <==> ShowsRetained(r, events)
  {
    if i, t: real :| 0 <= i < |retained| && UnderWay(t, retained[i]) && Within(t, r) {
      assert retained[i] in retained;
      var id :| id in events && events[id] == retained[i];
      assert UnderWay(t, events[id]) && Within(t, r);
    }
    if id, t: real :| id in events && events[id].retain && events[id].hasClip && UnderWay(t, events[id])
                      && Within(t, r) {
      assert events[id] in events.Values && events[id] in retained;
      var i :| 0 <= i < |retained| && retained[i] == events[id];
      assert UnderWay(t, retained[i]) && Within(t, r);
    }
  }

  /** In terms of the event table, when no time span is reversed: a deleted segment that shows some instant of
      an event to be retained goes in the second pass, when every recording that shows none has gone; and the
      first pass deletes only segments that show none. */
  lemma NoRetainedInstantInFirstPass(run: Run, events: map<string, Event>, taken: Recording)
    requires run.Possible() && IsRetainedListing(run.retained, events)
    requires taken in run.Deleted() && forall r :: r in run.table ==> Forward(r, run.retained)
    ensures taken in run.d1 <==> !ShowsRetained(taken, events)
    ensures taken in run.d2 <==> ShowsRetained(taken, events)
    ensures ShowsRetained(taken, events) ==>
              forall r :: r in run.table && r.path in run.disk && !ShowsRetained(r, events) ==> r in run.d1
  {
    NothingDeletedTwice(run);
    RetainedOnlyAsLastResort(run, taken);
    forall r | r in run.table ensures Kept(r, run.retained) <==> ShowsRetained(r, events) {
      assert Forward(r, run.retained);
      KeptIffSharesInstant(r, run.retained);
      ShowsRetainedIff(r, run.retained, events);
    }
  }
}
