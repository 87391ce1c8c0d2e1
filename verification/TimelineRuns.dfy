/** What the timeline processor keeps over every run of messages. */
module TimelineRuns {
  import opened Common
  import opened Timeline

  /** The tracked-object rows of one event, in order. */
  function RowsOf(rows: seq<Row>, id: string): seq<Row> {
    if rows == [] then []
    else
      var last := rows[|rows| - 1];
      RowsOf(rows[..|rows| - 1], id) + if last.source.TrackedObject? && last.sourceId == id then [last] else []
  }

  /** The entries a message generates for one event. */
  function Added(config: Config, m: Message, id: string): seq<Row> {
    if Handled(config, m) && m.cur.id == id then Entries(config, m) else []
  }

  function AddedByApi(m: Message): seq<Row> {
    if m.ApiEntry? && m.kind.Start? then [ApiRow(m)] else []
  }

  /** Every entry the messages have generated for one event, in order. */
  function Generated(config: Config, ms: seq<Message>, id: string): seq<Row> {
    if ms == [] then [] else Generated(config, ms[..|ms| - 1], id) + Added(config, ms[|ms| - 1], id)
  }

  /** Rows that came from other sources than object tracking. */
  function Foreign(rows: seq<Row>): seq<Row> {
    if rows == [] then []
    else Foreign(rows[..|rows| - 1]) + if rows[|rows| - 1].source.TrackedObject? then [] else [rows[|rows| - 1]]
  }

  function ApiRows(ms: seq<Message>): seq<Row> {
    if ms == [] then [] else ApiRows(ms[..|ms| - 1]) + AddedByApi(ms[|ms| - 1])
  }

  /** Rows up to their sub labels. */
  function Unlabelled(rows: seq<Row>): seq<Row> { RelabelAll(rows, None) }

  /** What has been inserted for the event, followed by what is cached for it. */
  function History(st: State, id: string): seq<Row> { RowsOf(st.table, id) + Cached(st, id) }

  /** Cached rows are tracked-object rows filed under their event, and no event has an empty list. */
  ghost predicate Filed(st: State) {
    forall id :: id in st.cache ==>
                   st.cache[id] != [] && forall r :: r in st.cache[id] ==> r.source.TrackedObject? && r.sourceId == id
  }

  // ---------------------------------------------------------------- nothing lost, nothing twice

  lemma {:induction false} RowsOfConcat(a: seq<Row>, b: seq<Row>, id: string)
    ensures RowsOf(a + b, id) == RowsOf(a, id) + RowsOf(b, id)
    ensures Foreign(a + b) == Foreign(a) + Foreign(b)
  {
    if b == [] {
      assert a + b == a;
    } else {
      RowsOfConcat(a, b[..|b| - 1], id);
      assert (a + b)[..|a + b| - 1] == a + b[..|b| - 1];
    }
  }

  lemma {:induction false} RowsOfOneEvent(rows: seq<Row>, owner: string, id: string)
    requires forall r :: r in rows ==> r.source.TrackedObject? && r.sourceId == owner
    ensures RowsOf(rows, id) == if id == owner then rows else []
    ensures Foreign(rows) == []
  {
    if rows != [] {
      RowsOfOneEvent(rows[..|rows| - 1], owner, id);
      assert rows == rows[..|rows| - 1] + [rows[|rows| - 1]];
    }
  }

  lemma {:induction false} RowsOfSnoc(rows: seq<Row>, row: Row, id: string)
    ensures RowsOf(rows + [row], id) ==
              RowsOf(rows, id) + if row.source.TrackedObject? && row.sourceId == id then [row] else []
    ensures Foreign(rows + [row]) == Foreign(rows) + if row.source.TrackedObject? then [] else [row]
  {
    assert (rows + [row])[..|rows|] == rows;
  }

  /** Saving a row, whether into the table or the cache, appends it to its event's history and leaves every
      other history alone. */
  lemma SaveRowAppends(st: State, row: Row, saved: bool, id: string)
    requires Filed(st) && row.source.TrackedObject?
    ensures Filed(SaveRow(st, row, saved))
    ensures History(SaveRow(st, row, saved), id) == History(st, id) + if row.sourceId == id then [row] else []
    ensures Foreign(SaveRow(st, row, saved).table) == Foreign(st.table)
  {
    if saved {
      InsertAppends(st, row, id);
    }
  }

  lemma {:induction false} InsertAppends(st: State, row: Row, id: string)
    requires Filed(st) && row.source.TrackedObject?
    ensures var table := st.table + Cached(st, row.sourceId) + [row];
            && Foreign(table) == Foreign(st.table)
            && RowsOf(table, id) == if row.sourceId == id then History(st, id) + [row] else RowsOf(st.table, id)
  {
    var waiting := Cached(st, row.sourceId);
    RowsOfOneEvent(waiting, row.sourceId, id);
    RowsOfConcat(st.table, waiting, id);
    RowsOfSnoc(st.table + waiting, row, id);
  }

  lemma {:induction false} SaveRowsAppends(st: State, rows: seq<Row>, saved: bool, owner: string, id: string)
    requires Filed(st) && forall r :: r in rows ==> r.source.TrackedObject? && r.sourceId == owner
    ensures Filed(SaveRows(st, rows, saved))
    ensures History(SaveRows(st, rows, saved), id) == History(st, id) + if owner == id then rows else []
    ensures Foreign(SaveRows(st, rows, saved).table) == Foreign(st.table)
  {
    if rows == [] {
      assert SaveRows(st, rows, saved) == st;
    } else {
      var init, last := rows[..|rows| - 1], rows[|rows| - 1];
      SaveRowsAppends(st, init, saved, owner, id);
      SaveRowAppends(SaveRows(st, init, saved), last, saved, id);
      assert last in rows;
      assert rows == init + [last];
      Regroup(History(st, id), init, [last]);
    }
  }

  /** Rewriting sub labels changes a history in nothing but sub labels. */
  lemma {:induction false} RewritingKeepsHistory(st: State, m: Message, id: string)
    requires Filed(st)
    ensures Filed(Rewritten(st, m)) && Rewritten(st, m).table == st.table
    ensures Unlabelled(History(Rewritten(st, m), id)) == Unlabelled(History(st, id))
  {
    UnlabelledConcat(RowsOf(st.table, id), Cached(st, id));
    UnlabelledConcat(RowsOf(st.table, id), Cached(Rewritten(st, m), id));
    assert Unlabelled(Cached(Rewritten(st, m), id)) == Unlabelled(Cached(st, id));
  }

  /** What one message adds to the history of an event. */
  lemma StepAppends(config: Config, st: State, m: Message, id: string)
    requires Filed(st)
    ensures Filed(Step(config, st, m))
    ensures Unlabelled(History(Step(config, st, m), id)) == Unlabelled(History(st, id) + Added(config, m, id))
    ensures Foreign(Step(config, st, m).table) == Foreign(st.table) + AddedByApi(m)
  {
    if Handled(config, m) {
      HandledStepAppends(config, st, m, id);
    } else {
      assert History(st, id) + Added(config, m, id) == History(st, id);
      if m.ApiEntry? && m.kind.Start? {
        RowsOfSnoc(st.table, ApiRow(m), id);
      }
    }
  }

  lemma HandledStepAppends(config: Config, st: State, m: Message, id: string)
    requires Filed(st) && Handled(config, m)
    ensures var after := SaveRows(Rewritten(st, m), Entries(config, m), m.cur.Saved());
            && Filed(after) && Foreign(after.table) == Foreign(st.table)
            && Unlabelled(History(after, id)) == Unlabelled(History(st, id) + Added(config, m, id))
  {
    var rewritten := Rewritten(st, m);
    RewritingKeepsHistory(st, m, id);
    SaveRowsAppends(rewritten, Entries(config, m), m.cur.Saved(), m.cur.id, id);
    UnlabelledConcat(History(rewritten, id), Added(config, m, id));
    UnlabelledConcat(History(st, id), Added(config, m, id));
  }

  /** Over every run, for every event: the rows inserted for it followed by those cached for it are exactly
      the entries generated for it, in order, up to sub-label rewrites; and entries made through the API
      are all inserted, in order, and never mixed up with those of tracked objects. */
  lemma {:induction false} NoEntryLostOrDuplicated(config: Config, ms: seq<Message>, id: string)
    ensures Filed(Run(config, ms))
    ensures Unlabelled(History(Run(config, ms), id)) == Unlabelled(Generated(config, ms, id))
    ensures Foreign(Run(config, ms).table) == ApiRows(ms)
  {
    if ms != [] {
      var init, m := ms[..|ms| - 1], ms[|ms| - 1];
      NoEntryLostOrDuplicated(config, init, id);
      StepAppends(config, Run(config, init), m, id);
      UnlabelledConcat(History(Run(config, init), id), Added(config, m, id));
      UnlabelledConcat(Generated(config, init, id), Added(config, m, id));
    }
  }

  lemma {:induction false} UnlabelledConcat(a: seq<Row>, b: seq<Row>)
    ensures Unlabelled(a + b) == Unlabelled(a) + Unlabelled(b)
  {
  }

  lemma {:induction false} GeneratedHolds(config: Config, ms: seq<Message>, i: nat, r: Row)
    requires i < |ms| && Handled(config, ms[i]) && r in Entries(config, ms[i])
    ensures r in Generated(config, ms, ms[i].cur.id)
  {
    var init := ms[..|ms| - 1];
    if i < |init| {
      assert init[i] == ms[i];
      GeneratedHolds(config, init, i, r);
    }
  }

  lemma {:induction false} GeneratedBy(config: Config, ms: seq<Message>, id: string, r: Row) returns (i: nat)
    requires r in Generated(config, ms, id)
    ensures i < |ms| && Handled(config, ms[i]) && ms[i].cur.id == id && r in Entries(config, ms[i])
  {
    i := |ms| - 1;
    if r !in Added(config, ms[i], id) {
      i := GeneratedBy(config, ms[..i], id, r);
    }
  }

  /** Rows that are the same up to their sub labels. */
  predicate SameBut(a: Row, b: Row) { Relabel(a, None) == Relabel(b, None) }

  lemma {:induction false} SameElements(a: seq<Row>, b: seq<Row>, r: Row) returns (h: Row)
    requires Unlabelled(a) == Unlabelled(b) && r in b
    ensures h in a && SameBut(h, r)
  {
    assert |Unlabelled(a)| == |Unlabelled(b)|;
    var k :| 0 <= k < |b| && b[k] == r;
    h := a[k];
    assert Unlabelled(a)[k] == Unlabelled(b)[k];
  }

  lemma {:induction false} LabelRestored(a: Row, b: Row)
    requires SameBut(a, b)
    ensures Relabel(a, b.data.subLabel) == b && a.classType == b.classType
  {
    assert Relabel(Relabel(a, None), b.data.subLabel) == Relabel(a, b.data.subLabel);
    assert Relabel(Relabel(b, None), b.data.subLabel) == b;
  }

  /** The row is the message's: of a class that the message calls for, and showing the object as the message
      reported it, but perhaps with a later sub label. */
  ghost predicate Records(config: Config, m: Message, h: Row) {
    m.Tracked? && Usable(config, m.camera) && CallsFor(m, h.classType)
    && Handled(config, m) && Describes(config, m, Relabel(h, m.cur.subLabel))
  }

  /** Over every run: what a message on a usable camera calls for is recorded for its event at the end, inserted
      or cached, whatever messages have followed. */
  lemma {:induction false} CalledForIsRecorded(config: Config, ms: seq<Message>, i: nat, classType: ClassType)
    requires i < |ms| && CallsFor(ms[i], classType) && Usable(config, ms[i].camera)
    ensures exists h :: h in History(Run(config, ms), ms[i].cur.id) && h.classType == classType
                        && Records(config, ms[i], h)
  {
    var m := ms[i];
    EntriesMade(config, m);
    var r :| r in Entries(config, m) && r.classType == classType;
    EntriesDescribe(config, m, r);
    NoEntryLostOrDuplicated(config, ms, m.cur.id);
    GeneratedHolds(config, ms, i, r);
    var h := SameElements(History(Run(config, ms), m.cur.id), Generated(config, ms, m.cur.id), r);
    LabelRestored(h, r);
    assert Records(config, m, h);
  }

  /** And nothing else is. */
  lemma {:induction false} RecordedWasCalledFor(config: Config, ms: seq<Message>, id: string, h: Row)
    requires h in History(Run(config, ms), id)
    ensures exists i :: 0 <= i < |ms| && Records(config, ms[i], h) && ms[i].cur.id == id
  {
    NoEntryLostOrDuplicated(config, ms, id);
    var r := SameElements(Generated(config, ms, id), History(Run(config, ms), id), h);
    var i := GeneratedBy(config, ms, id, r);
    EntriesMade(config, ms[i]);
    EntriesDescribe(config, ms[i], r);
    LabelRestored(h, r);
    assert Records(config, ms[i], h);
  }

  /** Rows of other sources come from the messages of the API that start an event, and say so. */
  lemma {:induction false} ApiStartsAreInserted(config: Config, ms: seq<Message>, i: nat)
    requires i < |ms| && ms[i].ApiEntry? && ms[i].kind.Start?
    ensures exists r :: r in Run(config, ms).table && FromApi(r, ms[i])
  {
    NoEntryLostOrDuplicated(config, ms, "");
    ApiRowsHold(ms, i);
    ForeignWithin(Run(config, ms).table, ApiRow(ms[i]));
    assert FromApi(ApiRow(ms[i]), ms[i]);
  }

  predicate FromApi(r: Row, m: Message)
    requires m.ApiEntry?
  {
    && r.timestamp == m.startTime && r.camera == m.camera && r.sourceId == m.id
    && r.data == ApiData(m.objectLabel, m.subLabel)
    && (r.source, r.classType) == if m.audio then (Audio, Heard) else (Api, External)
  }

  lemma {:induction false} ApiRowsHold(ms: seq<Message>, i: nat)
    requires i < |ms| && ms[i].ApiEntry? && ms[i].kind.Start?
    ensures ApiRow(ms[i]) in ApiRows(ms)
  {
    var init := ms[..|ms| - 1];
    if i < |init| {
      assert init[i] == ms[i];
      ApiRowsHold(init, i);
    }
  }

  lemma {:induction false} ForeignWithin(rows: seq<Row>, r: Row)
    requires r in Foreign(rows)
    ensures r in rows
  {
    var init := rows[..|rows| - 1];
    if r in Foreign(init) {
      ForeignWithin(init, r);
    }
  }

  // ---------------------------------------------------------------- when the cache is emptied

  /** A message that makes the event's entries leave the cache. */
  predicate Flushes(config: Config, m: Message, id: string) {
    && Handled(config, m) && m.cur.id == id && (m.cur.hasClip || m.cur.hasSnapshot)
    && Entries(config, m) != []
  }

  lemma {:induction false} SaveRowsCache(st: State, rows: seq<Row>, saved: bool, owner: string)
    requires forall r :: r in rows ==> r.sourceId == owner
    ensures forall id :: id != owner ==> Cached(SaveRows(st, rows, saved), id) == Cached(st, id)
                                         && (id in SaveRows(st, rows, saved).cache <==> id in st.cache)
    ensures saved && rows != [] ==> owner !in SaveRows(st, rows, saved).cache
    ensures !saved ==> Cached(SaveRows(st, rows, saved), owner) == Cached(st, owner) + rows
  {
    if rows != [] {
      SaveRowsCache(st, rows[..|rows| - 1], saved, owner);
      assert rows == rows[..|rows| - 1] + [rows[|rows| - 1]];
    }
  }

  /** Entries leave the cache exactly with a flushing message of their own event: after it nothing is cached
      for the event, and any other message leaves at least as much cached as before. */
  lemma CacheEmptiedExactlyByFlush(config: Config, st: State, m: Message, id: string)
    ensures Flushes(config, m, id) ==> Cached(Step(config, st, m), id) == []
    ensures !Flushes(config, m, id) ==>
              Unlabelled(Cached(st, id)) <= Unlabelled(Cached(Step(config, st, m), id))
    ensures m.Tracked? && m.cur.id != id ==> Cached(Step(config, st, m), id) == Cached(st, id)
  {
    if Handled(config, m) {
      SaveRowsCache(Rewritten(st, m), Entries(config, m), m.cur.Saved(), m.cur.id);
      UnlabelledConcat(Cached(Rewritten(st, m), id), Entries(config, m));
    }
  }

  /** An event that ends without clip or snapshot leaves its entries in the cache for good: whatever
      messages of other events follow, they are still cached. */
  lemma {:induction false} UnsavedEventStaysCached(config: Config, ms: seq<Message>, last: Message, more: seq<Message>)
    requires Handled(config, last) && last.kind.End? && !last.cur.hasClip && !last.cur.hasSnapshot
    requires forall m :: m in more && m.Tracked? ==> m.cur.id != last.cur.id
    ensures var st := Run(config, ms + [last] + more);
            && last.cur.id in st.cache
            && Cached(st, last.cur.id) == Cached(Run(config, ms + [last]), last.cur.id)
            && Cached(st, last.cur.id)[|Cached(st, last.cur.id)| - 1] == BaseRow(config, last, Gone)
  {
    if more == [] {
      assert ms + [last] + more == ms + [last];
      assert (ms + [last])[..|ms|] == ms;
      SaveRowsCache(Rewritten(Run(config, ms), last), Entries(config, last), false, last.cur.id);
    } else {
      var init := more[..|more| - 1];
      UnsavedEventStaysCached(config, ms, last, init);
      assert (ms + [last] + more)[..|ms + [last] + more| - 1] == ms + [last] + init;
      CacheEmptiedExactlyByFlush(config, Run(config, ms + [last] + init), more[|more| - 1], last.cur.id);
    }
  }

  // ---------------------------------------------------------------- sub labels

  /** The latest tracked-object message of an event. */
  function LastFor(ms: seq<Message>, id: string): Option<Message> {
    if ms == [] then None
    else if ms[|ms| - 1].Tracked? && ms[|ms| - 1].cur.id == id then Some(ms[|ms| - 1])
    else LastFor(ms[..|ms| - 1], id)
  }

  /** Each message after an event's first carries previous data with the sub label of the message before it,
      and an event stays on one camera. */
  ghost predicate Chained(ms: seq<Message>) {
    ms == []
    || (&& Chained(ms[..|ms| - 1])
        && var m := ms[|ms| - 1];
           m.Tracked? && LastFor(ms[..|ms| - 1], m.cur.id).Some? ==>
             var before := LastFor(ms[..|ms| - 1], m.cur.id).value;
             m.prev.Some? && before.Tracked? && m.camera == before.camera
             && m.prev.value.subLabel == before.cur.subLabel)
  }

  /** The event's latest message was on a usable camera and all that is cached carries its sub label. */
  ghost predicate Labelled(config: Config, ms: seq<Message>, st: State, id: string) {
    id in st.cache ==>
      && LastFor(ms, id).Some? && LastFor(ms, id).value.Tracked?
      && Usable(config, LastFor(ms, id).value.camera)
      && forall r :: r in st.cache[id] ==> r.data.subLabel == LastFor(ms, id).value.cur.subLabel
  }

  predicate Usable(config: Config, camera: string) {
    camera in config && config[camera].width.Some? && config[camera].height.Some?
  }

  /** On a chained run every cached entry of an event carries the event's latest sub label. */
  lemma {:induction false} CachedEntriesCarryLatestLabel(config: Config, ms: seq<Message>, id: string)
    requires Chained(ms)
    ensures Labelled(config, ms, Run(config, ms), id)
  {
    if ms != [] {
      var init, m := ms[..|ms| - 1], ms[|ms| - 1];
      var before := Run(config, init);
      CachedEntriesCarryLatestLabel(config, init, id);
      if Handled(config, m) {
        var rewritten := Rewritten(before, m);
        SaveRowsCache(rewritten, Entries(config, m), m.cur.Saved(), m.cur.id);
        if m.cur.id == id {
          RewritingCatchesUp(config, init, m);
          assert Run(config, ms) == SaveRows(rewritten, Entries(config, m), m.cur.Saved());
          if Entries(config, m) == [] {
            assert Run(config, ms) == rewritten;
          }
        }
      }
    }
  }

  /** Before a handled message's own entries are saved, the rewriting has brought all that is cached for its
      event to the message's sub label. */
  lemma {:induction false} RewritingCatchesUp(config: Config, init: seq<Message>, m: Message)
    requires Chained(init + [m]) && Handled(config, m)
    requires Labelled(config, init, Run(config, init), m.cur.id)
    ensures forall r :: r in Cached(Rewritten(Run(config, init), m), m.cur.id) ==> r.data.subLabel == m.cur.subLabel
  {
    assert (init + [m])[..|init|] == init;
  }

  /** So every tracked-object row is inserted with the sub label its event had at that moment, even if the
      entry was generated under another one. */
  lemma InsertedRowsAreUpToDate(config: Config, ms: seq<Message>, m: Message)
    requires Chained(ms + [m]) && m.Tracked?
    ensures var before, after := Run(config, ms).table, Run(config, ms + [m]).table;
            && before <= after
            && forall r :: r in after[|before|..] ==> r.sourceId == m.cur.id && r.data.subLabel == m.cur.subLabel
  {
    assert (ms + [m])[..|ms|] == ms;
    if Handled(config, m) {
      CachedEntriesCarryLatestLabel(config, ms, m.cur.id);
      RewritingCatchesUp(config, ms, m);
      NoEntryLostOrDuplicated(config, ms, m.cur.id);
      InsertedBySaveRows(Rewritten(Run(config, ms), m), Entries(config, m), m.cur.Saved(), m.cur.id, m.cur.subLabel);
    }
  }

  lemma {:induction false} InsertedBySaveRows(st: State, rows: seq<Row>, saved: bool, owner: string,
                                              subLabel: Option<string>)
    requires forall r :: r in rows || r in Cached(st, owner) ==> r.sourceId == owner && r.data.subLabel == subLabel
    ensures var out := SaveRows(st, rows, saved);
            && st.table <= out.table
            && (forall r :: r in out.table[|st.table|..] ==> r.sourceId == owner && r.data.subLabel == subLabel)
            && (forall r :: r in Cached(out, owner) ==> r.sourceId == owner && r.data.subLabel == subLabel)
  {
    if rows != [] {
      InsertedBySaveRows(st, rows[..|rows| - 1], saved, owner, subLabel);
      var mid, last := SaveRows(st, rows[..|rows| - 1], saved), rows[|rows| - 1];
      if saved {
        var added := Cached(mid, owner) + [last];
        assert SaveRows(st, rows, saved).table == mid.table + added;
        assert (mid.table + added)[|st.table|..] == mid.table[|st.table|..] + added;
      }
    }
  }
}
