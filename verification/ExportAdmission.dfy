/** Admission of exports (frigate/api/export.py).

    A single export asks the database whether any recording matches its range.  A batch issues one query
    per camera, over the union of the ranges asked of that camera, and filters the rows in memory. */
module ExportAdmission {
  import opened Common

  /** A row of the recordings or of the previews table. */
  datatype Row = Row(camera: string, start: real, end: real)

  datatype Item = Item(camera: string, start: real, end: real)

  datatype PlaybackSource = Recordings | Previews

  const NO_RECORDINGS := "No recordings found for time range"
  const NO_PREVIEWS := "No previews found for time range"

  function InvalidCamera(camera: string): string { camera + " is not a valid camera." }

  /** The range condition, as written in the queries and again in memory. */
  predicate Matches(r: Row, start: real, end: real) {
    || start <= r.start <= end
    || start <= r.end <= end
    || (start > r.start && end < r.end)
  }

  /** The rows of a camera that a query over [start, end] counts. */
  function Query(table: seq<Row>, camera: string, start: real, end: real): (rows: seq<Row>)
    ensures forall r :: r in rows <==> r in table && r.camera == camera && Matches(r, start, end)
  {
    if table == [] then []
    else
      var last := table[|table| - 1];
      Query(table[..|table| - 1], camera, start, end)
      + if last.camera == camera && Matches(last, start, end) then [last] else []
  }

  /** Whether a timestamp lies before the start of the next hour. */
  predicate IsCurrentHour(timestamp: real, startOfNextHour: real) { timestamp < startOfNextHour }

  /** The check made for a single export: an error message, or nothing. */
  function ValidateExportSource(recordings: seq<Row>, previews: seq<Row>, camera: string, start: real, end: real,
                                source: PlaybackSource, startOfNextHour: real): Option<string>
  {
    if source.Recordings? then
      if |Query(recordings, camera, start, end)| <= 0 then Some(NO_RECORDINGS) else None
    else if !IsCurrentHour(start, startOfNextHour) && |Query(previews, camera, start, end)| <= 0 then Some(NO_PREVIEWS)
    else None
  }

  // ---------------------------------------------------------------- the batch

  datatype Range = Range(index: nat, start: real, end: real)

  /** The ranges asked of a camera by the first `n` items, in order. */
  function RangesOf(items: seq<Item>, n: nat, camera: string): (ranges: seq<Range>)
    requires n <= |items|
    ensures forall r :: r in ranges <==> 0 <= r.index < n && items[r.index].camera == camera
                                         && r == Range(r.index, items[r.index].start, items[r.index].end)
  {
    if n == 0 then []
    else
      RangesOf(items, n - 1, camera)
      + if items[n - 1].camera == camera then [Range(n - 1, items[n - 1].start, items[n - 1].end)] else []
  }

  function MinStart(ranges: seq<Range>): (m: real)
    requires ranges != []
    ensures (exists r :: r in ranges && r.start == m) && forall r :: r in ranges ==> m <= r.start
  {
    var last := ranges[|ranges| - 1];
    if |ranges| == 1 then last.start
    else
      var before := MinStart(ranges[..|ranges| - 1]);
      if before <= last.start then before else last.start
  }

  function MaxEnd(ranges: seq<Range>): (m: real)
    requires ranges != []
    ensures (exists r :: r in ranges && r.end == m) && forall r :: r in ranges ==> r.end <= m
  {
    var last := ranges[|ranges| - 1];
    if |ranges| == 1 then last.end
    else
      var before := MaxEnd(ranges[..|ranges| - 1]);
      if before >= last.end then before else last.end
  }

  predicate AnyMatches(rows: seq<Row>, start: real, end: real) {
    exists r :: r in rows && Matches(r, start, end)
  }

  /** The rows fetched for a camera: one query over the union of the ranges asked of it. */
  function Fetched(items: seq<Item>, recordings: seq<Row>, camera: string): seq<Row> {
    var ranges := RangesOf(items, |items|, camera);
    if ranges == [] then [] else Query(recordings, camera, MinStart(ranges), MaxEnd(ranges))
  }

  /** What the batch reports for item `i`. */
  function BatchError(configured: set<string>, items: seq<Item>, recordings: seq<Row>, i: nat): Option<string>
    requires i < |items|
  {
    if items[i].camera !in configured then Some(InvalidCamera(items[i].camera))
    else if !AnyMatches(Fetched(items, recordings, items[i].camera), items[i].start, items[i].end)
    then Some(NO_RECORDINGS)
    else None
  }

  /** Sorts the items into the invalid ones and, camera by camera, the ranges asked of it. */
  method GroupByCamera(configured: set<string>, items: seq<Item>)
    returns (errors: map<nat, string>, byCamera: map<string, seq<Range>>)
    ensures forall i: nat :: i in errors <==> i < |items| && items[i].camera !in configured
    ensures forall i: nat :: i in errors ==> errors[i] == InvalidCamera(items[i].camera)
    ensures forall c :: c in byCamera <==> c in configured && RangesOf(items, |items|, c) != []
    ensures forall c :: c in byCamera ==> byCamera[c] == RangesOf(items, |items|, c)
  {
    errors, byCamera := map[], map[];
    for index := 0 to |items|
      invariant forall i: nat :: i in errors <==> i < index && items[i].camera !in configured
      invariant forall i: nat :: i in errors ==> errors[i] == InvalidCamera(items[i].camera)
      invariant forall c :: c in byCamera <==> c in configured && RangesOf(items, index, c) != []
      invariant forall c :: c in byCamera ==> byCamera[c] == RangesOf(items, index, c)
    {
      var item := items[index];
      if item.camera !in configured {
        errors := errors[index := InvalidCamera(item.camera)];
      } else {
        var sofar := if item.camera in byCamera then byCamera[item.camera] else [];
        byCamera := byCamera[item.camera := sofar + [Range(index, item.start, item.end)]];
      }
    }
  }

  /** The indices of the ranges that no row matches. */
  function Missing(rows: seq<Row>, ranges: seq<Range>): set<nat> {
    if ranges == [] then {}
    else
      var last := ranges[|ranges| - 1];
      Missing(rows, ranges[..|ranges| - 1]) + if AnyMatches(rows, last.start, last.end) then {} else {last.index}
  }

  lemma {:induction false} MissingIs(rows: seq<Row>, ranges: seq<Range>)
    ensures forall i: nat :: i in Missing(rows, ranges) <==>
              exists r :: r in ranges && r.index == i && !AnyMatches(rows, r.start, r.end)
  {
    if ranges != [] {
      MissingIs(rows, ranges[..|ranges| - 1]);
      assert ranges == ranges[..|ranges| - 1] + [ranges[|ranges| - 1]];
    }
  }

  /** Checks the ranges of one camera against the rows fetched for it. */
  method CheckRanges(rows: seq<Row>, ranges: seq<Range>, errors: map<nat, string>) returns (out: map<nat, string>)
    ensures out.Keys == errors.Keys + Missing(rows, ranges)
    ensures forall i :: i in out ==> out[i] == if i in Missing(rows, ranges) then NO_RECORDINGS else errors[i]
  {
    out := errors;
    for k := 0 to |ranges|
      invariant out.Keys == errors.Keys + Missing(rows, ranges[..k])
      invariant forall i :: i in out ==> out[i] == if i in Missing(rows, ranges[..k]) then NO_RECORDINGS else errors[i]
    {
      var range := ranges[k];
      assert ranges[..k + 1][..k] == ranges[..k];
      if !AnyMatches(rows, range.start, range.end) {
        out := out[range.index := NO_RECORDINGS];
      }
    }
    assert ranges[..|ranges|] == ranges;
  }

  /** The items of a camera that no fetched row matches. */
  lemma MissingItems(items: seq<Item>, recordings: seq<Row>, camera: string)
    ensures forall i: nat :: i in Missing(Fetched(items, recordings, camera), RangesOf(items, |items|, camera)) <==>
              NotFound(items, recordings, camera, i)
  {
    var rows, ranges := Fetched(items, recordings, camera), RangesOf(items, |items|, camera);
    MissingIs(rows, ranges);
    forall i: nat | i < |items| && items[i].camera == camera ensures Range(i, items[i].start, items[i].end) in ranges {
    }
  }

  /** The one query for a camera and the check of every range asked of it. */
  method CheckCamera(items: seq<Item>, recordings: seq<Row>, camera: string, ranges: seq<Range>,
                     errors: map<nat, string>)
    returns (out: map<nat, string>)
    requires ranges == RangesOf(items, |items|, camera) && ranges != []
    ensures forall i: nat :: i in out <==> i in errors || NotFound(items, recordings, camera, i)
    ensures forall i: nat :: i in out ==>
              out[i] == if NotFound(items, recordings, camera, i) then NO_RECORDINGS else errors[i]
  {
    var rows := Query(recordings, camera, MinStart(ranges), MaxEnd(ranges));
    MissingItems(items, recordings, camera);
    out := CheckRanges(rows, ranges, errors);
  }

  /** Item `i` is the camera's and no fetched row matches it. */
  predicate NotFound(items: seq<Item>, recordings: seq<Row>, camera: string, i: nat) {
    i < |items| && items[i].camera == camera
    && !AnyMatches(Fetched(items, recordings, camera), items[i].start, items[i].end)
  }

  /** The errors are those of the items whose camera is not pending. */
  ghost predicate ReportedExcept(configured: set<string>, items: seq<Item>, recordings: seq<Row>, pending: set<string>,
                                 errors: map<nat, string>)
  {
    && (forall i: nat :: i in errors <==> (&& i < |items| && items[i].camera !in pending
                                           && BatchError(configured, items, recordings, i).Some?))
    && (forall i: nat :: i in errors ==> Some(errors[i]) == BatchError(configured, items, recordings, i))
  }

  lemma {:induction false} OneMoreCamera(configured: set<string>, items: seq<Item>, recordings: seq<Row>,
                                         pending: set<string>, camera: string,
                                         errors: map<nat, string>, out: map<nat, string>)
    requires ReportedExcept(configured, items, recordings, pending, errors)
    requires camera in pending && camera in configured
    requires forall i: nat :: i in out <==> i in errors || NotFound(items, recordings, camera, i)
    requires forall i: nat :: i in out ==>
               out[i] == if NotFound(items, recordings, camera, i) then NO_RECORDINGS else errors[i]
    ensures ReportedExcept(configured, items, recordings, pending - {camera}, out)
  {
  }

  method GetItemRecordingExportErrors(configured: set<string>, items: seq<Item>, recordings: seq<Row>)
    returns (errors: map<nat, string>)
    ensures forall i: nat :: i in errors <==> i < |items| && BatchError(configured, items, recordings, i).Some?
    ensures forall i: nat :: i in errors ==> Some(errors[i]) == BatchError(configured, items, recordings, i)
  {
    var byCamera;
    errors, byCamera := GroupByCamera(configured, items);
    forall i: nat | i < |items| && items[i].camera in configured ensures items[i].camera in byCamera {
      assert Range(i, items[i].start, items[i].end) in RangesOf(items, |items|, items[i].camera);
    }
    if byCamera == map[] {
      return;
    }
    var pending := byCamera.Keys;
    while pending != {}
      invariant pending <= byCamera.Keys
      invariant ReportedExcept(configured, items, recordings, pending, errors)
      decreases |pending|
    {
      var camera :| camera in pending;
      var out := CheckCamera(items, recordings, camera, byCamera[camera], errors);
      OneMoreCamera(configured, items, recordings, pending, camera, errors, out);
      errors, pending := out, pending - {camera};
    }
  }

  // ---------------------------------------------------------------- the batch against the single check

  /** The single check of an item's range, against the recordings. */
  function SingleError(items: seq<Item>, recordings: seq<Row>, i: nat): Option<string>
    requires i < |items|
  {
    ValidateExportSource(recordings, [], items[i].camera, items[i].start, items[i].end, Recordings, 0.0)
  }

  function UnionStart(items: seq<Item>, i: nat): real
    requires i < |items|
  {
    assert Range(i, items[i].start, items[i].end) in RangesOf(items, |items|, items[i].camera);
    MinStart(RangesOf(items, |items|, items[i].camera))
  }

  function UnionEnd(items: seq<Item>, i: nat): real
    requires i < |items|
  {
    assert Range(i, items[i].start, items[i].end) in RangesOf(items, |items|, items[i].camera);
    MaxEnd(RangesOf(items, |items|, items[i].camera))
  }

  /** The union range does not miss what a reversed range asks for: it reaches down to the item's end or up
      to its start, unless the item itself supplies the bound. */
  predicate Covered(items: seq<Item>, i: nat)
    requires i < |items|
  {
    var a, b := UnionStart(items, i), UnionEnd(items, i);
    !(items[i].end < a && items[i].end < b) && !(b < items[i].start && a < items[i].start)
  }

  lemma UnionContains(items: seq<Item>, i: nat)
    requires i < |items|
    ensures UnionStart(items, i) <= items[i].start && items[i].end <= UnionEnd(items, i)
    ensures items[i].start <= items[i].end ==> Covered(items, i)
  {
    assert Range(i, items[i].start, items[i].end) in RangesOf(items, |items|, items[i].camera);
  }

  /** For a configured camera and any item whose range is not reversed, one query over the union of all
      ranges plus filtering in memory reports exactly what the item's own query would. */
  lemma BatchRefinesSingle(configured: set<string>, items: seq<Item>, recordings: seq<Row>, i: nat)
    requires i < |items| && items[i].camera in configured
    requires Covered(items, i)
    ensures BatchError(configured, items, recordings, i) == SingleError(items, recordings, i)
  {
    var item, a, b := items[i], UnionStart(items, i), UnionEnd(items, i);
    UnionContains(items, i);
    var own := Query(recordings, item.camera, item.start, item.end);
    var fetched := Fetched(items, recordings, item.camera);
    if own != [] {
      assert own[0] in own;
      assert Matches(own[0], a, b);
      assert own[0] in fetched;
    }
    if r :| r in fetched && Matches(r, item.start, item.end) {
      assert r in own;
    }
  }

  /** Batch and single check agree on an item whatever is recorded if and only if the item is covered; every
      range with start at or before end is, and a reversed one need not be. */
  lemma BatchAgreesIffCovered(configured: set<string>, items: seq<Item>, i: nat)
    requires i < |items| && items[i].camera in configured
    ensures (forall recordings :: BatchError(configured, items, recordings, i) == SingleError(items, recordings, i))
            <==> Covered(items, i)
    ensures items[i].start <= items[i].end ==> Covered(items, i)
  {
    UnionContains(items, i);
    if Covered(items, i) {
      forall recordings ensures BatchError(configured, items, recordings, i) == SingleError(items, recordings, i) {
        BatchRefinesSingle(configured, items, recordings, i);
      }
    } else {
      var item, a, b := items[i], UnionStart(items, i), UnionEnd(items, i);
      var missed := if item.end < a && item.end < b
                    then var re := if b < a then b else (item.end + a) / 2.0;
                         Row(item.camera, (if re < item.start then re else item.start) - 1.0, re)
                    else var rs := if b < a then a else (b + item.start) / 2.0;
                         Row(item.camera, rs, (if rs < item.end then item.end else rs) + 1.0);
      assert Matches(missed, item.start, item.end) && !Matches(missed, a, b);
      assert missed in [missed];
      assert missed in Query([missed], item.camera, item.start, item.end);
      assert forall r :: r in [missed] ==> r == missed;
      assert SingleError(items, [missed], i) != BatchError(configured, items, [missed], i);
    }
  }

  /** Two items of one camera, the first with its range reversed, and a recording that only the first item's
      own query finds: the batch refuses what the single check admits. */
  lemma ReversedRangeIsRefused()
    ensures var items := [Item("c", 10.0, 5.0), Item("c", 20.0, 25.0)];
            var recordings := [Row("c", 4.0, 7.0)];
            && !Covered(items, 0)
            && SingleError(items, recordings, 0) == None
            && BatchError({"c"}, items, recordings, 0) == Some(NO_RECORDINGS)
  {
    var items := [Item("c", 10.0, 5.0), Item("c", 20.0, 25.0)];
    var recordings := [Row("c", 4.0, 7.0)];
    assert RangesOf(items, 1, "c") == [Range(0, 10.0, 5.0)];
    assert RangesOf(items, 2, "c") == [Range(0, 10.0, 5.0), Range(1, 20.0, 25.0)];
    var ranges := RangesOf(items, 2, "c");
    assert ranges[..1] == [Range(0, 10.0, 5.0)];
    assert MinStart(ranges) == 10.0 && MaxEnd(ranges) == 25.0;
    assert recordings[..0] == [];
  }

  /** With well-formed rows, and a range that is not reversed, the three-way condition is closed-interval
      overlap. */
  lemma {:induction false} MatchesIsOverlap(r: Row, start: real, end: real)
    requires r.start <= r.end && start <= end
    ensures Matches(r, start, end) <==> r.start <= end && start <= r.end
  {
  }

  /** An item of a well-formed request is refused exactly when no recording of its camera overlaps it. */
  lemma RefusedIffNothingOverlaps(configured: set<string>, items: seq<Item>, recordings: seq<Row>, i: nat)
    requires i < |items| && items[i].camera in configured && items[i].start <= items[i].end
    requires forall r :: r in recordings ==> r.start <= r.end
    ensures BatchError(configured, items, recordings, i) ==
              if exists r :: r in recordings && r.camera == items[i].camera
                             && r.start <= items[i].end && items[i].start <= r.end
              then None else Some(NO_RECORDINGS)
  {
    UnionContains(items, i);
    BatchRefinesSingle(configured, items, recordings, i);
    var own := Query(recordings, items[i].camera, items[i].start, items[i].end);
    forall r | r in recordings
      ensures Matches(r, items[i].start, items[i].end) <==> r.start <= items[i].end && items[i].start <= r.end
    {
      MatchesIsOverlap(r, items[i].start, items[i].end);
    }
    if own != [] {
      assert own[0] in own;
    }
  }

  // ---------------------------------------------------------------- previews of the current hour

  const HOUR_S := 3600.0

  /** What the name of `IsCurrentHour` says: the timestamp lies in the hour that begins at `startOfHour`. */
  predicate InHour(timestamp: real, startOfHour: real) {
    startOfHour <= timestamp < startOfHour + HOUR_S
  }

  /** The verdict meant for an export of previews: those of the current hour need not be there yet. */
  function IntendedPreviewError(previews: seq<Row>, camera: string, start: real, end: real, startOfHour: real)
    : Option<string>
  {
    if !InHour(start, startOfHour) && Query(previews, camera, start, end) == [] then Some(NO_PREVIEWS) else None
  }

  /** The test made instead, for a timestamp before the start of the next hour, is true of the past as well.  So
      the verdict is the one meant if and only if the range begins in the current hour or later, or some
      preview of the camera matches: a past range without previews is let through. */
  lemma PreviewVerdictAsMeantIff(recordings: seq<Row>, previews: seq<Row>, camera: string, start: real, end: real,
                                 startOfHour: real)
    ensures ValidateExportSource(recordings, previews, camera, start, end, Previews, startOfHour + HOUR_S)
            == IntendedPreviewError(previews, camera, start, end, startOfHour)
            <==> || startOfHour <= start
                 || exists r :: r in previews && r.camera == camera && Matches(r, start, end)
  {
    var found := Query(previews, camera, start, end);
    if found != [] {
      assert found[0] in found;
    }
  }

  /** A range in the hour before, without any preview, is let through. */
  lemma PastRangeWithoutPreviewsPasses(camera: string, startOfHour: real)
    ensures var start, end := startOfHour - HOUR_S, startOfHour - 1.0;
            && ValidateExportSource([], [], camera, start, end, Previews, startOfHour + HOUR_S) == None
            && IntendedPreviewError([], camera, start, end, startOfHour) == Some(NO_PREVIEWS)
  {
  }
}
