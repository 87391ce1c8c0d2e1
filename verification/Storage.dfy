/** Storage reclaim (frigate/storage.py).

    Recordings are deleted oldest first until an hour of footage has been reclaimed.  The first pass
    spares footage that overlaps a retained event; a second pass, run only when the first fell short,
    spares nothing.  Afterwards the event and recording tables are brought up to date in batches.

    The disk is the set of existing paths; a query result is a sequence handed to the method together
    with what the query promises about it. */
module Storage {
  import opened Common

  datatype Recording = Recording(id: string, camera: string, path: string, start: real, end: real, size: real)

  datatype Event = Event(id: string, camera: string, start: real, end: Option<real>, hasClip: bool, retain: bool)

  /** A camera's span of deleted footage. */
  datatype Hull = Hull(minStart: real, maxEnd: real)

  const MAX_DELETES := 100000

  // ---------------------------------------------------------------- tables and query results

  /** Ids are the primary key and paths carry a unique index. */
  ghost predicate UniqueRows(table: set<Recording>) {
    && (forall a, b :: a in table && b in table && a.id == b.id ==> a == b)
    && (forall a, b :: a in table && b in table && a.path == b.path ==> a == b)
  }

  /** Event rows are stored under their primary key. */
  ghost predicate KeyedById(events: map<string, Event>) {
    forall id :: id in events ==> events[id].id == id
  }

  ghost predicate SortedRows(rows: seq<Recording>) {
    forall i, j :: 0 <= i < j < |rows| ==> rows[i].start <= rows[j].start
  }

  /** The whole table, each row once, ordered by start time; ties come in any order. */
  ghost predicate IsListing(rows: seq<Recording>, table: set<Recording>) {
    && SortedRows(rows)
    && Distinct(rows)
    && (forall r :: r in rows <==> r in table)
  }

  ghost predicate SortedEvents(evs: seq<Event>) {
    forall i, j :: 0 <= i < j < |evs| ==> evs[i].start <= evs[j].start
  }

  /** The events with `retain_indefinitely` and `has_clip`, ordered by start time. */
  ghost predicate IsRetainedListing(evs: seq<Event>, events: map<string, Event>) {
    && SortedEvents(evs)
    && (forall e :: e in evs <==> e in events.Values && e.retain && e.hasClip)
  }

  function Paths(rows: seq<Recording>): (paths: set<string>)
    ensures forall r :: r in rows ==> r.path in paths
  {
    if rows == [] then {} else Paths(rows[..|rows| - 1]) + {rows[|rows| - 1].path}
  }

  lemma {:induction false} PathOwner(rows: seq<Recording>, path: string) returns (r: Recording)
    requires path in Paths(rows)
    ensures r in rows && r.path == path
  {
    r := rows[|rows| - 1];
    if r.path != path {
      r := PathOwner(rows[..|rows| - 1], path);
    }
  }

  lemma {:induction false} PathsConcat(a: seq<Recording>, b: seq<Recording>)
    ensures Paths(a + b) == Paths(a) + Paths(b)
  {
    if b == [] {
      assert a + b == a;
    } else {
      PathsConcat(a, b[..|b| - 1]);
      assert (a + b)[..|a + b| - 1] == a + b[..|b| - 1];
    }
  }

  function Ids(rows: seq<Recording>): seq<string> {
    seq(|rows|, i requires 0 <= i < |rows| => rows[i].id)
  }

  function Size(rows: seq<Recording>): real {
    if rows == [] then 0.0 else Size(rows[..|rows| - 1]) + rows[|rows| - 1].size
  }

  // ---------------------------------------------------------------- which footage is retained

  /** The event has started by the end of the segment and had not ended before it began. */
  predicate Overlaps(e: Event, r: Recording) {
    e.start <= r.end && (e.end.Some? ==> r.start <= e.end.value)
  }

  /** Some retained event, of whichever camera, overlaps the segment. */
  ghost predicate Kept(r: Recording, retained: seq<Event>) {
    exists i :: 0 <= i < |retained| && Overlaps(retained[i], r)
  }

  /** The first `n` of the retained events ended before time `t`. */
  ghost predicate AllEnded(retained: seq<Event>, n: nat, t: real)
    requires n <= |retained|
  {
    forall i :: 0 <= i < n ==> retained[i].end.Some? && retained[i].end.value < t
  }

  /** The moving-pointer scan.  Every event below `pointer` ended before this segment begins; the scan
      decides exactly `Kept`, moves the pointer forward only over events that ended too early, and
      looks at no more than two events beyond the distance the pointer moved. */
  method ScanRetained(retained: seq<Event>, r: Recording, pointer: nat)
    returns (keep: bool, next: nat, examined: nat)
    requires SortedEvents(retained)
    requires pointer <= |retained| && AllEnded(retained, pointer, r.start)
    ensures keep <==> Kept(r, retained)
    ensures pointer <= next <= |retained| && AllEnded(retained, next, r.start)
    ensures examined <= next - pointer + 2
  {
    keep, next, examined := false, pointer, 0;
    var idx := pointer;
    while idx < |retained|
      invariant pointer <= next <= idx <= |retained|
      invariant AllEnded(retained, idx, r.start)
      invariant next == if idx == pointer then pointer else idx - 1
      invariant examined == idx - pointer
      invariant !keep
    {
      var event := retained[idx];
      examined := examined + 1;
      if event.start > r.end {
        return false, next, examined;
      }
      if event.end.None? || event.end.value >= r.start {
        assert Overlaps(retained[idx], r);
        return true, next, examined;
      }
      if event.end.value < r.start {
        next := idx;
      }
      idx := idx + 1;
    }
  }

  // ---------------------------------------------------------------- what one pass deletes

  /** The rows a pass over the first `k` of `rows` removes: those not kept whose file exists. */
  ghost function Reclaimable(rows: seq<Recording>, k: nat, retained: seq<Event>, disk: set<string>)
    : (out: seq<Recording>)
    requires k <= |rows|
  {
    if k == 0 then []
    else
      var before := Reclaimable(rows, k - 1, retained, disk);
      if !Kept(rows[k - 1], retained) && rows[k - 1].path in disk then before + [rows[k - 1]] else before
  }

  lemma {:induction false} ReclaimableMembers(rows: seq<Recording>, k: nat, retained: seq<Event>, disk: set<string>)
    requires k <= |rows|
    ensures forall r :: r in Reclaimable(rows, k, retained, disk) <==>
                          r in rows[..k] && !Kept(r, retained) && r.path in disk
  {
    if k > 0 {
      ReclaimableMembers(rows, k - 1, retained, disk);
      assert rows[..k] == rows[..k - 1] + [rows[k - 1]];
    }
  }

  /** A pass stops after the first `k` rows: the target was not exceeded at any earlier row, and it is
      exceeded now unless the rows ran out. */
  ghost predicate StopsAt(rows: seq<Recording>, retained: seq<Event>, disk: set<string>,
                          target: real, total: real, k: nat)
  {
    && k <= |rows|
    && (forall j :: 0 <= j < k ==> total + Size(Reclaimable(rows, j, retained, disk)) <= target)
    && (k == |rows| || total + Size(Reclaimable(rows, k, retained, disk)) > target)
  }

  lemma SizeSnoc(rows: seq<Recording>, r: Recording)
    ensures Size(rows + [r]) == Size(rows) + r.size
    ensures Paths(rows + [r]) == Paths(rows) + {r.path}
  {
    assert (rows + [r])[..|rows|] == rows;
  }

  lemma {:induction false} SizeConcat(a: seq<Recording>, b: seq<Recording>)
    ensures Size(a + b) == Size(a) + Size(b)
  {
    if b == [] {
      assert a + b == a;
    } else {
      SizeConcat(a, b[..|b| - 1]);
      assert (a + b)[..|a + b| - 1] == a + b[..|b| - 1];
    }
  }

  /** What a pass that stopped after `k` rows has achieved: it stood at or below the target just before its
      last deletion, and unless it exceeded the target it took everything it was allowed to take. */
  lemma {:induction false} PassOutcome(rows: seq<Recording>, retained: seq<Event>, disk: set<string>,
                                       target: real, total: real, k: nat, d: seq<Recording>)
    requires StopsAt(rows, retained, disk, target, total, k)
    requires d == Reclaimable(rows, k, retained, disk)
    ensures d != [] ==> total + Size(d[..|d| - 1]) <= target
    ensures total + Size(d) <= target ==>
              forall r :: r in rows && !Kept(r, retained) && r.path in disk ==> r in d
  {
    if d != [] {
      BelowTargetBeforeLast(rows, retained, disk, target, total, k);
    }
    if k == |rows| {
      ReclaimableMembers(rows, k, retained, disk);
      assert rows[..k] == rows;
    }
  }

  lemma {:induction false} BelowTargetBeforeLast(rows: seq<Recording>, retained: seq<Event>, disk: set<string>,
                                                 target: real, total: real, k: nat)
    requires k <= |rows|
    requires forall j :: 0 <= j < k ==> total + Size(Reclaimable(rows, j, retained, disk)) <= target
    requires Reclaimable(rows, k, retained, disk) != []
    ensures var d := Reclaimable(rows, k, retained, disk);
            total + Size(d[..|d| - 1]) <= target
  {
    var before := Reclaimable(rows, k - 1, retained, disk);
    if !Kept(rows[k - 1], retained) && rows[k - 1].path in disk {
      assert (before + [rows[k - 1]])[..|before|] == before;
    } else {
      BelowTargetBeforeLast(rows, retained, disk, target, total, k - 1);
    }
  }

  /** Paths being unique, a pass meets each file at most once. */
  lemma NotYetDeleted(rows: seq<Recording>, k: nat, retained: seq<Event>, disk: set<string>)
    requires k < |rows| && Distinct(rows)
    requires forall a, b :: a in rows && b in rows && a.path == b.path ==> a == b
    ensures rows[k].path !in Paths(Reclaimable(rows, k, retained, disk))
  {
    var deleted := Reclaimable(rows, k, retained, disk);
    if rows[k].path in Paths(deleted) {
      var twin := PathOwner(deleted, rows[k].path);
      ReclaimableMembers(rows, k, retained, disk);
    }
  }

  lemma {:induction false} ReclaimableDistinct(rows: seq<Recording>, k: nat, retained: seq<Event>, disk: set<string>)
    requires k <= |rows| && Distinct(rows)
    ensures Distinct(Reclaimable(rows, k, retained, disk))
  {
    if k > 0 {
      ReclaimableDistinct(rows, k - 1, retained, disk);
      ReclaimableMembers(rows, k - 1, retained, disk);
      assert rows[k - 1] !in rows[..k - 1];
    }
  }

  lemma OlderIsScanned(rows: seq<Recording>, k: nat, older: Recording, taken: Recording)
    requires k <= |rows| && SortedRows(rows)
    requires older in rows && taken in rows[..k] && older.start < taken.start
    ensures older in rows[..k]
  {
    var i :| 0 <= i < |rows| && rows[i] == older;
    var j :| 0 <= j < k && rows[j] == taken;
    assert i < j;
    assert rows[..k][i] == older;
  }

  /** What the queries promise a pass: rows sorted and each once, paths unique, events sorted. */
  ghost predicate IsScan(rows: seq<Recording>, retained: seq<Event>) {
    && SortedRows(rows) && Distinct(rows) && SortedEvents(retained)
    && (forall a, b :: a in rows && b in rows && a.path == b.path ==> a == b)
  }

  /** The state of a pass after its first `k` rows: what it has deleted, the total, the disk, and the pointer,
      below which every retained event ended before the next row. */
  ghost predicate Progress(rows: seq<Recording>, k: nat, retained: seq<Event>, eventStart: nat, disk0: set<string>,
                           disk: set<string>, total: real, deleted: seq<Recording>, sum: real)
    requires k <= |rows|
  {
    && deleted == Reclaimable(rows, k, retained, disk0)
    && sum == total + Size(deleted)
    && disk == disk0 - Paths(deleted)
    && eventStart <= |retained| && (k < |rows| ==> AllEnded(retained, eventStart, rows[k].start))
  }

  // ---------------------------------------------------------------- the whole reclaim, over every run

  /** A complete run: the two listings of `table` it worked from, where each pass stopped and what it
      removed.  The second pass happens only when the first fell short of the target. */
  datatype Run = Run(table: set<Recording>, disk: set<string>, retained: seq<Event>, target: real,
                     rows1: seq<Recording>, k1: nat, d1: seq<Recording>,
                     rows2: seq<Recording>, k2: nat, d2: seq<Recording>)
  {
    ghost predicate Possible() {
      && UniqueRows(table) && IsListing(rows1, table) && IsListing(rows2, table)
      && StopsAt(rows1, retained, disk, target, 0.0, k1)
      && d1 == Reclaimable(rows1, k1, retained, disk)
      && (Size(d1) >= target ==> d2 == [])
      && (Size(d1) < target ==>
            && StopsAt(rows2, [], disk - Paths(d1), target, Size(d1), k2)
            && d2 == Reclaimable(rows2, k2, [], disk - Paths(d1)))
    }

    function Deleted(): seq<Recording> { d1 + d2 }
  }

  /** What either pass removes is a row of the table whose file existed. */
  lemma DeletedWereOnDisk(run: Run, r: Recording)
    requires run.Possible()
    ensures r in run.d1 ==> r in run.table && r.path in run.disk && !Kept(r, run.retained)
    ensures r in run.d2 ==> r in run.table && r.path in run.disk && r.path !in Paths(run.d1)
  {
    ReclaimableMembers(run.rows1, run.k1, run.retained, run.disk);
    if run.d2 != [] {
      ReclaimableMembers(run.rows2, run.k2, [], run.disk - Paths(run.d1));
    }
  }

  /** No recording is deleted, and so none counted, twice; only files that were there are deleted; the
      reclaimed size is the sum over both passes. */
  lemma NothingDeletedTwice(run: Run)
    requires run.Possible()
    ensures Distinct(run.Deleted())
    ensures forall r :: r in run.Deleted() ==> r in run.table && r.path in run.disk
    ensures Size(run.Deleted()) == Size(run.d1) + Size(run.d2)
  {
    ReclaimableDistinct(run.rows1, run.k1, run.retained, run.disk);
    if run.d2 != [] {
      ReclaimableDistinct(run.rows2, run.k2, [], run.disk - Paths(run.d1));
    }
    SizeConcat(run.d1, run.d2);
    forall r | r in run.Deleted() ensures r in run.table && r.path in run.disk {
      DeletedWereOnDisk(run, r);
    }
    forall r | r in run.d2 ensures r !in run.d1 {
      DeletedWereOnDisk(run, r);
    }
    DistinctConcat(run.d1, run.d2);
  }

  /** Retained footage is sacrificed only after every unretained recording with a file on disk has been
      deleted; the first pass takes only unretained footage and the second only retained footage. */
  lemma RetainedOnlyAsLastResort(run: Run, taken: Recording)
    requires run.Possible()
    requires taken in run.Deleted()
    ensures taken in run.d1 <==> !Kept(taken, run.retained)
    ensures taken in run.d2 <==> Kept(taken, run.retained)
    ensures Kept(taken, run.retained) ==>
              forall r :: r in run.table && r.path in run.disk && !Kept(r, run.retained) ==> r in run.d1
  {
    DeletedWereOnDisk(run, taken);
    if taken in run.d2 {
      PassOutcome(run.rows1, run.retained, run.disk, run.target, 0.0, run.k1, run.d1);
    }
  }

  /** Each pass works from the oldest footage on: whatever is older than a segment the pass deletes, has a
      file and may be taken by that pass, is deleted too. */
  lemma OldestFirst(run: Run, older: Recording, taken: Recording)
    requires run.Possible()
    requires older in run.table && older.path in run.disk && older.start < taken.start
    ensures taken in run.d1 && !Kept(older, run.retained) ==> older in run.d1
    ensures taken in run.d2 ==> older in run.Deleted()
  {
    if taken in run.d1 {
      ReclaimableMembers(run.rows1, run.k1, run.retained, run.disk);
      OlderIsScanned(run.rows1, run.k1, older, taken);
    }
    if taken in run.d2 {
      ReclaimableMembers(run.rows2, run.k2, [], run.disk - Paths(run.d1));
      OlderIsScanned(run.rows2, run.k2, older, taken);
      if older.path in Paths(run.d1) {
        var r := PathOwner(run.d1, older.path);
        DeletedWereOnDisk(run, r);
      }
    }
  }

  /** The total overshoots the target by at most the last deleted segment. */
  lemma OvershootAtMostLastSegment(run: Run)
    requires run.Possible()
    requires run.Deleted() != []
    ensures var d := run.Deleted(); Size(d) - d[|d| - 1].size <= run.target
  {
    var d := run.Deleted();
    SizeConcat(run.d1, run.d2);
    if run.d2 == [] {
      assert d == run.d1;
      PassOutcome(run.rows1, run.retained, run.disk, run.target, 0.0, run.k1, run.d1);
    } else {
      PassOutcome(run.rows2, [], run.disk - Paths(run.d1), run.target, Size(run.d1), run.k2, run.d2);
    }
  }

  /** At return either the target has been reached or no row of the table has a file left.  Reaching the
      target exactly counts: it neither stops the first pass early nor starts the second. */
  lemma TargetReachedOrNothingLeft(run: Run)
    requires run.Possible()
    ensures || Size(run.Deleted()) >= run.target
            || forall r :: r in run.table ==> r.path !in run.disk - Paths(run.Deleted())
    ensures Size(run.d1) == run.target ==>
              && run.d2 == []
              && forall r :: r in run.table && r.path in run.disk && !Kept(r, run.retained) ==> r in run.d1
  {
    SizeConcat(run.d1, run.d2);
    PathsConcat(run.d1, run.d2);
    if Size(run.d1) <= run.target {
      PassOutcome(run.rows1, run.retained, run.disk, run.target, 0.0, run.k1, run.d1);
    }
    if Size(run.Deleted()) < run.target && Size(run.d1) < run.target {
      PassOutcome(run.rows2, [], run.disk - Paths(run.d1), run.target, Size(run.d1), run.k2, run.d2);
    }
  }

  // ---------------------------------------------------------------- events that lose their clip

  /** An ended event with a clip that overlaps its camera's hull of deleted footage: it starts before some
      deleted segment ends and ends after some deleted segment starts. */
  ghost predicate Doomed(e: Event, deleted: seq<Recording>) {
    && e.hasClip && e.end.Some?
    && (exists i :: 0 <= i < |deleted| && deleted[i].camera == e.camera && e.start < deleted[i].end)
    && (exists i :: 0 <= i < |deleted| && deleted[i].camera == e.camera && deleted[i].start < e.end.value)
  }

  ghost function Cleared(events: map<string, Event>, deleted: seq<Recording>): map<string, Event> {
    map id | id in events :: if Doomed(events[id], deleted) then events[id].(hasClip := false) else events[id]
  }

  /** The event strictly overlaps one particular segment. */
  predicate Touches(e: Event, r: Recording) {
    e.camera == r.camera && e.end.Some? && e.start < r.end && r.start < e.end.value
  }

  /** Every ended event that overlaps a deleted segment of its camera loses its clip flag; an event is
      changed only if its camera lost footage and it lies within that camera's hull; and an event still in
      progress is never changed. */
  lemma ClipFlagsFollowDeletedFootage(events: map<string, Event>, deleted: seq<Recording>, id: string)
    requires id in events
    ensures Cleared(events, deleted).Keys == events.Keys
    ensures (exists i :: 0 <= i < |deleted| && Touches(events[id], deleted[i])) ==>
              !Cleared(events, deleted)[id].hasClip
    ensures events[id].end.None? ==> Cleared(events, deleted)[id] == events[id]
    ensures Cleared(events, deleted)[id] != events[id] ==>
              && Cleared(events, deleted)[id] == events[id].(hasClip := false)
              && exists i, j :: 0 <= i < |deleted| && 0 <= j < |deleted|
                                && deleted[i].camera == deleted[j].camera == events[id].camera
                                && deleted[i].start < events[id].end.value && events[id].start < deleted[j].end
  {
  }

  /** Whether the deleted footage of a camera has no hole: every segment but the earliest is reached by one
      that began before it. */
  ghost predicate Gapless(deleted: seq<Recording>, camera: string) {
    forall i :: 0 <= i < |deleted| && deleted[i].camera == camera && !IsEarliest(deleted, i) ==>
                  exists j :: 0 <= j < |deleted| && deleted[j].camera == camera
                              && deleted[j].start < deleted[i].start <= deleted[j].end
  }

  ghost predicate IsEarliest(deleted: seq<Recording>, i: nat)
    requires i < |deleted|
  {
    forall j :: 0 <= j < |deleted| && deleted[j].camera == deleted[i].camera ==> deleted[i].start <= deleted[j].start
  }

  /** The flag update is exact for a camera, as far as events go that last a while: it clears one only when a
      deleted segment really overlaps it. */
  ghost predicate ExactForLasting(deleted: seq<Recording>, camera: string) {
    forall e: Event :: e.camera == camera && e.end.Some? && e.start < e.end.value && Doomed(e, deleted) ==>
                         exists i :: 0 <= i < |deleted| && Touches(e, deleted[i])
  }

  /** It is exact for all ended events of the camera, also those that begin and end at once. */
  ghost predicate ExactFor(deleted: seq<Recording>, camera: string) {
    forall e: Event :: e.camera == camera && e.end.Some? && e.start <= e.end.value && Doomed(e, deleted) ==>
                         exists i :: 0 <= i < |deleted| && Touches(e, deleted[i])
  }

  /** No seam either: every segment but the earliest begins within one that began before it, or, if no
      segment ends later, where that one ends. */
  ghost predicate Seamless(deleted: seq<Recording>, camera: string) {
    forall i :: 0 <= i < |deleted| && deleted[i].camera == camera && !IsEarliest(deleted, i) ==>
                  exists j :: 0 <= j < |deleted| && deleted[j].camera == camera && JoinsOn(deleted, j, deleted[i].start)
  }

  /** Segment `j` began before time `t` and goes on beyond it, or up to it when no segment goes on longer. */
  ghost predicate JoinsOn(deleted: seq<Recording>, j: nat, t: real)
    requires j < |deleted|
  {
    && deleted[j].start < t <= deleted[j].end
    && (deleted[j].end == t ==>
          forall k :: 0 <= k < |deleted| && deleted[k].camera == deleted[j].camera ==> deleted[k].end <= t)
  }

  /** The index, among the segments of `camera` that start at or after `t`, of one that starts first. */
  lemma {:induction false} FirstFrom(deleted: seq<Recording>, camera: string, t: real, w: nat) returns (b: nat)
    requires w < |deleted| && deleted[w].camera == camera && t <= deleted[w].start
    ensures b < |deleted| && deleted[b].camera == camera && t <= deleted[b].start
    ensures forall i :: 0 <= i < |deleted| && deleted[i].camera == camera && t <= deleted[i].start ==>
                          deleted[b].start <= deleted[i].start
  {
    b := w;
    var i := 0;
    while i < |deleted|
      invariant 0 <= i <= |deleted|
      invariant b < |deleted| && deleted[b].camera == camera && t <= deleted[b].start
      invariant forall j :: 0 <= j < i && deleted[j].camera == camera && t <= deleted[j].start ==>
                              deleted[b].start <= deleted[j].start
    {
      if deleted[i].camera == camera && t <= deleted[i].start < deleted[b].start { b := i; }
      i := i + 1;
    }
  }

  /** The latest end among the segments of `camera` that begin before `t`. */
  lemma {:induction false} LastEndBefore(deleted: seq<Recording>, camera: string, t: real, w: nat) returns (b: nat)
    requires w < |deleted| && deleted[w].camera == camera && deleted[w].start < t
    ensures b < |deleted| && deleted[b].camera == camera && deleted[b].start < t
    ensures forall i :: 0 <= i < |deleted| && deleted[i].camera == camera && deleted[i].start < t ==>
                          deleted[i].end <= deleted[b].end
  {
    b := w;
    var i := 0;
    while i < |deleted|
      invariant 0 <= i <= |deleted|
      invariant b < |deleted| && deleted[b].camera == camera && deleted[b].start < t
      invariant forall j :: 0 <= j < i && deleted[j].camera == camera && deleted[j].start < t ==>
                              deleted[j].end <= deleted[b].end
    {
      if deleted[i].camera == camera && deleted[i].start < t && deleted[b].end < deleted[i].end { b := i; }
      i := i + 1;
    }
  }

  /** The comment on the update speaks of events that overlap deleted recordings, but the update compares
      with the hull.  The two agree for every event of a camera that lasts a while if and only if the camera's
      deleted footage is gapless. */
  lemma HullUpdateExactIffGapless(deleted: seq<Recording>, camera: string)
    requires forall i :: 0 <= i < |deleted| ==> deleted[i].start <= deleted[i].end
    ensures ExactForLasting(deleted, camera) <==> Gapless(deleted, camera)
  {
    if Gapless(deleted, camera) {
      forall e: Event | e.camera == camera && e.end.Some? && e.start < e.end.value && Doomed(e, deleted)
        ensures exists i :: 0 <= i < |deleted| && Touches(e, deleted[i])
      {
        GaplessIsExact(deleted, camera, e);
      }
    }
    if !Gapless(deleted, camera) {
      var i :| 0 <= i < |deleted| && deleted[i].camera == camera && !IsEarliest(deleted, i)
               && forall j :: 0 <= j < |deleted| && deleted[j].camera == camera ==>
                                !(deleted[j].start < deleted[i].start <= deleted[j].end);
      var w :| 0 <= w < |deleted| && deleted[w].camera == camera && deleted[w].start < deleted[i].start;
      var b := LastEndBefore(deleted, camera, deleted[i].start, w);
      var inGap := Event("", camera, deleted[b].end, Some(deleted[i].start), true, false);
      assert Doomed(inGap, deleted);
    }
  }

  lemma {:induction false} GaplessIsExact(deleted: seq<Recording>, camera: string, e: Event)
    requires Gapless(deleted, camera)
    requires e.camera == camera && e.end.Some? && e.start < e.end.value && Doomed(e, deleted)
    ensures exists i :: 0 <= i < |deleted| && Touches(e, deleted[i])
  {
    var w :| 0 <= w < |deleted| && deleted[w].camera == camera && e.start < deleted[w].end;
    if deleted[w].start < e.end.value {
      assert Touches(e, deleted[w]);
    } else {
      var b := FirstFrom(deleted, camera, e.end.value, w);
      var a :| 0 <= a < |deleted| && deleted[a].camera == camera && deleted[a].start < e.end.value;
      assert !IsEarliest(deleted, b);
      var c :| 0 <= c < |deleted| && deleted[c].camera == camera
               && deleted[c].start < deleted[b].start <= deleted[c].end;
      assert Touches(e, deleted[c]);
    }
  }

  /** The two agree for every ended event of a camera, however short, if and only if the camera's deleted
      footage has neither gap nor seam. */
  lemma HullUpdateExactIffSeamless(deleted: seq<Recording>, camera: string)
    requires forall i :: 0 <= i < |deleted| ==> deleted[i].start <= deleted[i].end
    ensures ExactFor(deleted, camera) <==> Seamless(deleted, camera)
  {
    if Seamless(deleted, camera) {
      forall e: Event | e.camera == camera && e.end.Some? && e.start <= e.end.value && Doomed(e, deleted)
        ensures exists i :: 0 <= i < |deleted| && Touches(e, deleted[i])
      {
        SeamlessIsExact(deleted, camera, e);
      }
    } else {
      var i :| 0 <= i < |deleted| && deleted[i].camera == camera && !IsEarliest(deleted, i)
               && forall j :: 0 <= j < |deleted| && deleted[j].camera == camera ==>
                                !JoinsOn(deleted, j, deleted[i].start);
      var e := BetweenSegments(deleted, camera, i);
    }
  }

  lemma {:induction false} SeamlessIsExact(deleted: seq<Recording>, camera: string, e: Event)
    requires Seamless(deleted, camera)
    requires forall i :: 0 <= i < |deleted| ==> deleted[i].start <= deleted[i].end
    requires e.camera == camera && e.end.Some? && e.start <= e.end.value && Doomed(e, deleted)
    ensures exists i :: 0 <= i < |deleted| && Touches(e, deleted[i])
  {
    var w :| 0 <= w < |deleted| && deleted[w].camera == camera && e.start < deleted[w].end;
    if deleted[w].start < e.end.value {
      assert Touches(e, deleted[w]);
    } else {
      var b := FirstFrom(deleted, camera, e.end.value, w);
      var a :| 0 <= a < |deleted| && deleted[a].camera == camera && deleted[a].start < e.end.value;
      assert !IsEarliest(deleted, b);
      var c :| 0 <= c < |deleted| && deleted[c].camera == camera && JoinsOn(deleted, c, deleted[b].start);
      assert Touches(e, deleted[c]);
    }
  }

  /** Where a segment joins on to none that began before it, there is an event that loses its clip although no
      segment overlaps it: one in the gap, or one at the instant of the seam. */
  lemma {:induction false} BetweenSegments(deleted: seq<Recording>, camera: string, i: nat) returns (e: Event)
    requires forall i :: 0 <= i < |deleted| ==> deleted[i].start <= deleted[i].end
    requires i < |deleted| && deleted[i].camera == camera && !IsEarliest(deleted, i)
    requires forall j :: 0 <= j < |deleted| && deleted[j].camera == camera ==> !JoinsOn(deleted, j, deleted[i].start)
    ensures e.camera == camera && e.end.Some? && e.start <= e.end.value && Doomed(e, deleted)
    ensures forall j :: 0 <= j < |deleted| ==> !Touches(e, deleted[j])
  {
    var t := deleted[i].start;
    var w :| 0 <= w < |deleted| && deleted[w].camera == camera && deleted[w].start < t;
    var b := LastEndBefore(deleted, camera, t, w);
    e := Event("", camera, if deleted[b].end < t then deleted[b].end else t, Some(t), true, false);
    assert !JoinsOn(deleted, b, t);
    if deleted[b].end >= t {
      var k :| 0 <= k < |deleted| && deleted[k].camera == camera && deleted[k].end > t;
    }
    forall j | 0 <= j < |deleted| ensures !Touches(e, deleted[j]) {
      if deleted[j].camera == camera && deleted[j].start < t {
        assert !JoinsOn(deleted, j, t);
      }
    }
  }

  /** A complete run whose deleted footage has a gap, and an event in the gap that loses its clip. */
  lemma EventInGapLosesClip()
    ensures exists run: Run, e: Event ::
              && run.Possible() && !Gapless(run.Deleted(), e.camera)
              && e.end.Some? && e.start < e.end.value && e.hasClip
              && (forall r :: r in run.Deleted() ==> !Touches(e, r))
              && Doomed(e, run.Deleted())
  {
    var early, late := Recording("1", "c", "a.mp4", 0.0, 10.0, 1.0), Recording("2", "c", "b.mp4", 20.0, 30.0, 1.0);
    var e := Event("e", "c", 12.0, Some(18.0), true, false);
    var run := BothDeleted(early, late);
    var rows := run.Deleted();
    assert rows[0] == early && rows[1] == late;
    assert !IsEarliest(rows, 1) by { assert rows[0].start < rows[1].start; }
    assert Doomed(e, rows) by { assert rows[0].start < 18.0 && 12.0 < rows[1].end; }
  }

  /** A run that needs just these two recordings deletes both in its first pass. */
  lemma {:induction false} BothDeleted(early: Recording, late: Recording) returns (run: Run)
    requires early.start < late.start && early.id != late.id && early.path != late.path
    requires early.size > 0.0 && late.size > 0.0
    ensures run.Possible() && run.Deleted() == [early, late]
  {
    var rows := [early, late];
    var disk := {early.path, late.path};
    run := Run({early, late}, disk, [], early.size + late.size, rows, 2, rows, rows, 0, []);
    DeletesBoth(early, late, disk);
    ListsBoth(early, late);
    StopsAfterBoth(early, late, disk);
  }

  lemma {:induction false} ListsBoth(a: Recording, b: Recording)
    requires a.start < b.start
    ensures IsListing([a, b], {a, b})
  {
    assert [a, b][0] in [a, b] && [a, b][1] in [a, b];
  }

  lemma {:induction false} StopsAfterBoth(a: Recording, b: Recording, disk: set<string>)
    requires a.path in disk && b.path in disk && a.size > 0.0 && b.size > 0.0
    ensures StopsAt([a, b], [], disk, a.size + b.size, 0.0, 2)
  {
    DeletesBoth(a, b, disk);
  }

  lemma {:induction false} DeletesBoth(a: Recording, b: Recording, disk: set<string>)
    requires a.path in disk && b.path in disk
    ensures Reclaimable([a, b], 0, [], disk) == [] && Reclaimable([a, b], 1, [], disk) == [a]
    ensures Reclaimable([a, b], 2, [], disk) == [a, b]
    ensures Size([]) == 0.0 && Size([a]) == a.size && Size([a, b]) == a.size + b.size
  {
    var none: seq<Recording> := [];
    assert [a][..0] == none && [a, b][..1] == [a];
    assert Reclaimable([a, b], 1, [], disk) == none + [a];
  }

  // ---------------------------------------------------------------- the maintainer

  class StorageMaintainer {
    var disk: set<string>
    var recordings: set<Recording>
    var events: map<string, Event>

    ghost predicate Valid()
      reads this
    {
      UniqueRows(recordings) && KeyedById(events)
    }

    /** Unlinks a file; false stands for the missing-file error, which leaves the disk as it was. */
    method ClearAndUnlink(path: string) returns (found: bool)
      modifies this`disk
      ensures found <==> path in old(disk)
      ensures disk == old(disk) - {path}
    {
      found := path in disk;
      disk := disk - {path};
    }

    /** Row `k` of a pass: keep it, or unlink its file and count it when the file was there. */
    method Visit(rows: seq<Recording>, k: nat, retained: seq<Event>, eventStart: nat, ghost disk0: set<string>,
                 ghost total: real, deleted: seq<Recording>, sum: real)
      returns (deleted': seq<Recording>, sum': real, next: nat, looked: nat)
      requires IsScan(rows, retained) && k < |rows|
      requires Progress(rows, k, retained, eventStart, disk0, disk, total, deleted, sum)
      modifies this`disk
      ensures Progress(rows, k + 1, retained, next, disk0, disk, total, deleted', sum')
      ensures eventStart <= next && looked <= next - eventStart + 2
    {
      deleted', sum' := deleted, sum;
      var recording := rows[k];
      var keep;
      keep, next, looked := ScanRetained(retained, recording, eventStart);
      NotYetDeleted(rows, k, retained, disk0);
      if !keep {
        var found := ClearAndUnlink(recording.path);
        if found {
          SizeSnoc(deleted, recording);
          deleted', sum' := deleted + [recording], sum + recording.size;
        }
      }
    }

    /** One pass over the table, stopping after `k` rows.  The second pass spares nothing: for it `retained`
        is empty.  Returns the rows removed, the new total and how many events were looked at. */
    method Pass(rows: seq<Recording>, retained: seq<Event>, target: real, total: real)
      returns (deleted: seq<Recording>, sum: real, k: nat, examined: nat)
      requires IsScan(rows, retained)
      modifies this`disk
      ensures StopsAt(rows, retained, old(disk), target, total, k)
      ensures deleted == Reclaimable(rows, k, retained, old(disk))
      ensures sum == total + Size(deleted)
      ensures disk == old(disk) - Paths(deleted)
      ensures examined <= |retained| + 2 * |rows|
    {
      deleted, sum, k, examined := [], total, 0, 0;
      var eventStart := 0;
      while k < |rows|
        invariant k <= |rows|
        invariant Progress(rows, k, retained, eventStart, old(disk), disk, total, deleted, sum)
        invariant forall j :: 0 <= j < k ==> total + Size(Reclaimable(rows, j, retained, old(disk))) <= target
        invariant examined <= eventStart + 2 * k
      {
        if sum > target {
          break;
        }
        var looked;
        deleted, sum, eventStart, looked := Visit(rows, k, retained, eventStart, old(disk), total, deleted, sum);
        examined, k := examined + looked, k + 1;
      }
    }

    /** The per-camera minimum start and maximum end of the deleted footage. */
    method FoldHulls(deleted: seq<Recording>) returns (hulls: map<string, Hull>)
      ensures IsHullMap(hulls, deleted, |deleted|)
    {
      hulls := map[];
      for i := 0 to |deleted|
        invariant IsHullMap(hulls, deleted, i)
      {
        var r := deleted[i];
        ghost var was := hulls;
        if r.camera !in hulls {
          hulls := hulls[r.camera := Hull(r.start, r.end)];
        } else {
          var h := hulls[r.camera];
          hulls := hulls[r.camera := Hull(if r.start < h.minStart then r.start else h.minStart,
                                          if r.end > h.maxEnd then r.end else h.maxEnd)];
        }
        HullSnoc(was, hulls, deleted, i);
      }
    }

    /** The ids the event query yields for one camera, in whatever order. */
    method EventsToUpdate(camera: string, hulls: map<string, Hull>) returns (ids: seq<string>)
      ensures forall id :: id in ids <==> id in events && events[id].camera == camera && Hit(events[id], hulls)
    {
      ids := [];
      var matching := set id | id in events && events[id].camera == camera && Hit(events[id], hulls);
      var rest := matching;
      while rest != {}
        invariant rest <= matching
        invariant forall id :: id in ids <==> id in matching - rest
        decreases |rest|
      {
        var id :| id in rest;
        ids := ids + [id];
        rest := rest - {id};
      }
    }

    /** Collects, camera by camera, the ids of the events that overlap the camera's hull. */
    method CollectHits(hulls: map<string, Hull>) returns (ids: seq<string>)
      ensures forall id :: id in ids <==> id in events && Hit(events[id], hulls)
    {
      ids := [];
      var cameras := hulls.Keys;
      while cameras != {}
        invariant cameras <= hulls.Keys
        invariant forall id :: id in ids <==>
                    id in events && Hit(events[id], hulls) && events[id].camera !in cameras
        decreases |cameras|
      {
        var camera :| camera in cameras;
        var found := EventsToUpdate(camera, hulls);
        ids := ids + found;
        cameras := cameras - {camera};
      }
    }

    /** Clears the clip flag of the events in each camera's hull of deleted footage. */
    method UpdateEvents(deleted: seq<Recording>)
      modifies this`events
      ensures events == Cleared(old(events), deleted)
    {
      if deleted != [] {
        var hulls := FoldHulls(deleted);
        var ids := CollectHits(hulls);
        forall id | id in events ensures Hit(events[id], hulls) <==> Doomed(events[id], deleted) {
          HitIsDoomed(events[id], hulls, deleted);
        }
        if ids != [] {
          ClearInBatches(ids);
        }
      }
    }

    /** Clears `has_clip` on the given events, at most 100,000 ids to a statement. */
    method ClearInBatches(ids: seq<string>)
      modifies this`events
      ensures events == map id | id in old(events) ::
                          if id in ids then old(events)[id].(hasClip := false) else old(events)[id]
    {
      var i := 0;
      while i < |ids|
        invariant 0 <= i
        invariant events == map id | id in old(events) ::
                    if id in ids[..Min(i, |ids|)] then old(events)[id].(hasClip := false) else old(events)[id]
      {
        var upto := Min(i + MAX_DELETES, |ids|);
        var batch := ids[i..upto];
        assert ids[..upto] == ids[..i] + batch;
        events := map id | id in events :: if id in batch then events[id].(hasClip := false) else events[id];
        i := i + MAX_DELETES;
      }
      assert ids[..|ids|] == ids;
    }

    /** Deletes the rows with the given ids, at most 100,000 to a statement. */
    method DeleteInBatches(ids: seq<string>)
      modifies this`recordings
      ensures recordings == set r | r in old(recordings) && r.id !in ids
    {
      var i := 0;
      while i < |ids|
        invariant 0 <= i
        invariant recordings == set r | r in old(recordings) && r.id !in ids[..Min(i, |ids|)]
      {
        var upto := Min(i + MAX_DELETES, |ids|);
        var batch := ids[i..upto];
        assert ids[..upto] == ids[..i] + batch;
        recordings := set r | r in recordings && r.id !in batch;
        i := i + MAX_DELETES;
      }
      assert ids[..|ids|] == ids;
    }

    /** Both passes: the second runs only when the first reclaimed less than the target. */
    method DeleteFiles(hourly: real, rows1: seq<Recording>, retained: seq<Event>, rows2: seq<Recording>)
      returns (reclaimed: real, k1: nat, k2: nat, d1: seq<Recording>, d2: seq<Recording>)
      requires UniqueRows(recordings) && IsListing(rows1, recordings) && IsListing(rows2, recordings)
      requires SortedEvents(retained)
      modifies this`disk
      ensures Run(recordings, old(disk), retained, hourly, rows1, k1, d1, rows2, k2, d2).Possible()
      ensures reclaimed == Size(d1) + Size(d2)
      ensures disk == old(disk) - Paths(d1) - Paths(d2)
    {
      var examined;
      d1, reclaimed, k1, examined := Pass(rows1, retained, hourly, 0.0);
      d2, k2 := [], 0;
      if reclaimed < hourly {
        d2, reclaimed, k2, examined := Pass(rows2, [], hourly, reclaimed);
      }
    }

    /** The whole operation.  `rows1` and `rows2` are the two listings of the recordings table and
        `retained` that of the retained events; `hourly` is the sum of the cameras' bandwidths. */
    method ReduceStorageConsumption(hourly: real, rows1: seq<Recording>, retained: seq<Event>, rows2: seq<Recording>)
      returns (ghost run: Run, reclaimed: real, deleted: seq<Recording>)
      requires Valid()
      requires IsListing(rows1, recordings) && IsListing(rows2, recordings)
      requires IsRetainedListing(retained, events)
      modifies this
      ensures Valid()
      ensures run.Possible() && run.table == old(recordings) && run.disk == old(disk)
      ensures run.retained == retained && run.target == hourly && run.Deleted() == deleted
      ensures reclaimed == Size(deleted)
      ensures disk == old(disk) - Paths(deleted)
      ensures recordings == old(recordings) - (set r | r in deleted)
      ensures events == Cleared(old(events), deleted)
    {
      var d1, d2, k1, k2;
      reclaimed, k1, k2, d1, d2 := DeleteFiles(hourly, rows1, retained, rows2);
      run := Run(recordings, old(disk), retained, hourly, rows1, k1, d1, rows2, k2, d2);
      deleted := d1 + d2;
      NothingDeletedTwice(run);
      PathsConcat(d1, d2);
      UpdateEvents(deleted);
      DeletedById(recordings, deleted);
      DeleteInBatches(Ids(deleted));
    }
  }

  // ---------------------------------------------------------------- helpers of the maintainer

  lemma DeletedById(table: set<Recording>, deleted: seq<Recording>)
    requires UniqueRows(table) && forall r :: r in deleted ==> r in table
    ensures (set r | r in table && r.id !in Ids(deleted)) == table - (set r | r in deleted)
  {
    forall r | r in table ensures r.id in Ids(deleted) <==> r in deleted {
      if r in deleted {
        var i :| 0 <= i < |deleted| && deleted[i] == r;
        assert Ids(deleted)[i] == r.id;
      }
      if r.id in Ids(deleted) {
        var i :| 0 <= i < |deleted| && Ids(deleted)[i] == r.id;
        assert deleted[i] in deleted;
      }
    }
  }

  /** Each camera with footage among the first `n` deleted rows, and no other, has a hull, whose bounds are
      attained. */
  ghost predicate IsHullMap(hulls: map<string, Hull>, deleted: seq<Recording>, n: nat)
    requires n <= |deleted|
  {
    && (forall i :: 0 <= i < n ==>
          && deleted[i].camera in hulls
          && hulls[deleted[i].camera].minStart <= deleted[i].start
          && deleted[i].end <= hulls[deleted[i].camera].maxEnd)
    && (forall c :: c in hulls ==> StartAttained(hulls[c], c, deleted, n) && EndAttained(hulls[c], c, deleted, n))
  }

  ghost predicate StartAttained(h: Hull, camera: string, deleted: seq<Recording>, n: nat)
    requires n <= |deleted|
  {
    exists i :: 0 <= i < n && deleted[i].camera == camera && deleted[i].start == h.minStart
  }

  ghost predicate EndAttained(h: Hull, camera: string, deleted: seq<Recording>, n: nat)
    requires n <= |deleted|
  {
    exists i :: 0 <= i < n && deleted[i].camera == camera && deleted[i].end == h.maxEnd
  }

  lemma HullSnoc(was: map<string, Hull>, now: map<string, Hull>, deleted: seq<Recording>, n: nat)
    requires n < |deleted| && IsHullMap(was, deleted, n)
    requires var r := deleted[n];
             if r.camera !in was then now == was[r.camera := Hull(r.start, r.end)]
             else
               var h := was[r.camera];
               now == was[r.camera := Hull(if r.start < h.minStart then r.start else h.minStart,
                                           if r.end > h.maxEnd then r.end else h.maxEnd)]
    ensures IsHullMap(now, deleted, n + 1)
  {
    var r := deleted[n];
    forall c | c in now
      ensures StartAttained(now[c], c, deleted, n + 1) && EndAttained(now[c], c, deleted, n + 1)
    {
      if c in was {
        var i :| 0 <= i < n && deleted[i].camera == c && deleted[i].start == was[c].minStart;
        var j :| 0 <= j < n && deleted[j].camera == c && deleted[j].end == was[c].maxEnd;
        if c == r.camera {
          assert deleted[n].camera == c;
        }
      } else {
        assert deleted[n].camera == c;
      }
    }
  }

  /** The condition of the event query, for the event's own camera. */
  predicate Hit(e: Event, hulls: map<string, Hull>) {
    && e.camera in hulls && e.hasClip
    && e.start < hulls[e.camera].maxEnd
    && e.end.Some? && e.end.value > hulls[e.camera].minStart
  }

  lemma HitIsDoomed(e: Event, hulls: map<string, Hull>, deleted: seq<Recording>)
    requires IsHullMap(hulls, deleted, |deleted|)
    ensures Hit(e, hulls) <==> Doomed(e, deleted)
  {
    if Hit(e, hulls) {
      var i :| 0 <= i < |deleted| && deleted[i].camera == e.camera && deleted[i].start == hulls[e.camera].minStart;
      var j :| 0 <= j < |deleted| && deleted[j].camera == e.camera && deleted[j].end == hulls[e.camera].maxEnd;
    }
  }
}
