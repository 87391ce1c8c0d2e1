/** The timeline processor (frigate/timeline.py): a write-behind cache in front of an append-only table.

    Entries of an event that has not been saved yet wait in a cache, where later messages may rewrite
    their sub label in place; the first entry produced once the event is saved flushes them.  The cached
    entries hold references to data dictionaries, so that the rewriting is modelled with its aliasing. */
module Timeline {
  import opened Common

  // ---------------------------------------------------------------- messages and rows

  type Pixels = n: int | n > 0 witness 1

  datatype PixelBox = PixelBox(x1: int, y1: int, x2: int, y2: int)

  datatype Box = Box(x: real, y: real, w: real, h: real)

  /** Detect resolution of a camera; the code skips cameras where either dimension is missing. */
  datatype Detect = Detect(width: Option<Pixels>, height: Option<Pixels>)

  datatype Source = TrackedObject | Audio | Api

  datatype ClassType = Visible | EnteredZone | Stationary | Active | Attribute | Gone | Heard | External

  /** The contents of an entry's data dictionary. */
  datatype Data = Data(box: Box, objectLabel: string, subLabel: Option<string>, region: Box, attribute: string,
                       score: real, computedScore: Option<real>, topScore: Option<real>,
                       zones: Option<seq<string>>, attributeBox: Option<Box>)
                | ApiData(objectLabel: string, subLabel: Option<string>)

  /** A row of the timeline table. */
  datatype Row = Row(timestamp: real, camera: string, source: Source, sourceId: string,
                     classType: ClassType, data: Data)

  datatype Kind = Start | Update | End

  datatype ObjectData = ObjectData(id: string, frameTime: real, box: PixelBox, region: PixelBox, objectLabel: string,
                                   subLabel: Option<string>, score: real, computedScore: Option<real>,
                                   topScore: Option<real>, currentZones: seq<string>, stationary: bool,
                                   attributes: seq<string>, currentAttributes: seq<PixelBox>,
                                   hasClip: bool, hasSnapshot: bool)
  {
    predicate Saved() { hasClip || hasSnapshot }
  }

  datatype Message =
    | Tracked(camera: string, kind: Kind, prev: Option<ObjectData>, cur: ObjectData)
    | ApiEntry(camera: string, kind: Kind, audio: bool, startTime: real, id: string,
               objectLabel: string, subLabel: Option<string>)

  type Config = map<string, Detect>

  function ToRelativeBox(width: Pixels, height: Pixels, b: PixelBox): Box {
    var w, h := width as real, height as real;
    Box(b.x1 as real / w, b.y1 as real / h, (b.x2 - b.x1) as real / w, (b.y2 - b.y1) as real / h)
  }

  function ZoneSet(zones: seq<string>): set<string> { set z | z in zones }

  // ---------------------------------------------------------------- what one message generates

  /** The message reaches the entry-building code: it carries previous data unless it starts the event, and
      its camera has a detect resolution. */
  predicate Handled(config: Config, m: Message) {
    && m.Tracked?
    && (m.kind.Start? || m.prev.Some?)
    && m.camera in config && config[m.camera].width.Some? && config[m.camera].height.Some?
  }

  function BaseRow(config: Config, m: Message, classType: ClassType): Row
    requires Handled(config, m)
  {
    var w, h, d := config[m.camera].width.value, config[m.camera].height.value, m.cur;
    Row(d.frameTime, m.camera, TrackedObject, d.id, classType,
        Data(ToRelativeBox(w, h, d.box), d.objectLabel, d.subLabel, ToRelativeBox(w, h, d.region), "",
             d.score, d.computedScore, d.topScore, None, None))
  }

  predicate ZoneEntry(m: Message)
    requires m.Tracked? && m.prev.Some?
  {
    && ZoneSet(m.prev.value.currentZones) != ZoneSet(m.cur.currentZones)
    && !m.cur.stationary && ZoneSet(m.cur.currentZones) != {}
  }

  predicate AttributeEntry(m: Message)
    requires m.Tracked? && m.prev.Some?
  {
    m.prev.value.attributes == [] && m.cur.attributes != []
  }

  function AttributeBox(config: Config, m: Message): Option<Box>
    requires Handled(config, m)
  {
    if m.cur.currentAttributes == [] then None
    else Some(ToRelativeBox(config[m.camera].width.value, config[m.camera].height.value, m.cur.currentAttributes[0]))
  }

  function ZoneRows(config: Config, m: Message): seq<Row>
    requires Handled(config, m) && m.kind.Update?
  {
    var row := BaseRow(config, m, EnteredZone);
    if ZoneEntry(m) then [row.(data := row.data.(zones := Some(m.cur.currentZones)))] else []
  }

  function RestRows(config: Config, m: Message): seq<Row>
    requires Handled(config, m) && m.kind.Update?
  {
    if m.prev.value.stationary == m.cur.stationary then []
    else [BaseRow(config, m, if m.cur.stationary then Stationary else Active)]
  }

  function AttributeRows(config: Config, m: Message): seq<Row>
    requires Handled(config, m) && m.kind.Update?
  {
    var row := BaseRow(config, m, Attribute);
    if AttributeEntry(m)
    then [row.(data := row.data.(attribute := m.cur.attributes[0], attributeBox := AttributeBox(config, m)))]
    else []
  }

  /** The entries a handled message produces, in order. */
  function Entries(config: Config, m: Message): (rows: seq<Row>)
    requires Handled(config, m)
    ensures forall r :: r in rows ==>
              r.source.TrackedObject? && r.sourceId == m.cur.id && r.data.Data? && r.data.subLabel == m.cur.subLabel
    ensures !m.kind.Update? ==> |rows| == 1
    ensures |rows| <= 3
  {
    match m.kind
    case Start => [BaseRow(config, m, Visible)]
    case End => [BaseRow(config, m, Gone)]
    case Update => ZoneRows(config, m) + RestRows(config, m) + AttributeRows(config, m)
  }

  function ApiRow(m: Message): Row
    requires m.ApiEntry?
  {
    Row(m.startTime, m.camera, if m.audio then Audio else Api, m.id, if m.audio then Heard else External,
        ApiData(m.objectLabel, m.subLabel))
  }

  // ---------------------------------------------------------------- what the entries say

  /** Scaled up to the frame, the box has the corners of the pixel box. */
  predicate Depicts(b: Box, width: Pixels, height: Pixels, p: PixelBox) {
    var w, h := width as real, height as real;
    && b.x * w == p.x1 as real && (b.x + b.w) * w == p.x2 as real
    && b.y * h == p.y1 as real && (b.y + b.h) * h == p.y2 as real
  }

  lemma {:induction false} ScaledBack(a: int, b: int, size: Pixels)
    ensures var s := size as real;
            a as real / s * s == a as real && (a as real / s + (b - a) as real / s) * s == b as real
  {
    var s := size as real;
    assert (b - a) as real / s * s == (b - a) as real;
  }

  lemma {:induction false} RelativeBoxDepicts(width: Pixels, height: Pixels, p: PixelBox)
    ensures Depicts(ToRelativeBox(width, height, p), width, height, p)
  {
    ScaledBack(p.x1, p.x2, width);
    ScaledBack(p.y1, p.y2, height);
  }

  /** The row shows the tracked object as the message reports it. */
  predicate Describes(config: Config, m: Message, r: Row)
    requires Handled(config, m)
  {
    var w, h, now := config[m.camera].width.value, config[m.camera].height.value, m.cur;
    && r.timestamp == now.frameTime && r.camera == m.camera && r.source.TrackedObject? && r.sourceId == now.id
    && r.data.Data? && Depicts(r.data.box, w, h, now.box) && Depicts(r.data.region, w, h, now.region)
    && r.data.objectLabel == now.objectLabel && r.data.subLabel == now.subLabel && r.data.score == now.score
    && r.data.computedScore == now.computedScore && r.data.topScore == now.topScore
    && r.data.zones == (if r.classType.EnteredZone? then Some(now.currentZones) else None)
    && DescribesAttribute(m, r, w, h)
  }

  predicate DescribesAttribute(m: Message, r: Row, width: Pixels, height: Pixels)
    requires m.Tracked? && r.data.Data?
  {
    if r.classType.Attribute? then
      && [r.data.attribute] <= m.cur.attributes
      && (r.data.attributeBox.Some? <==> m.cur.currentAttributes != [])
      && (r.data.attributeBox.Some? ==> Depicts(r.data.attributeBox.value, width, height, m.cur.currentAttributes[0]))
    else r.data.attribute == "" && r.data.attributeBox.None?
  }

  /** Every entry of a message shows the object as the message reports it. */
  lemma {:induction false} EntriesDescribe(config: Config, m: Message, r: Row)
    requires Handled(config, m) && r in Entries(config, m)
    ensures Describes(config, m, r)
  {
    var w, h := config[m.camera].width.value, config[m.camera].height.value;
    RelativeBoxDepicts(w, h, m.cur.box);
    RelativeBoxDepicts(w, h, m.cur.region);
    if m.cur.currentAttributes != [] { RelativeBoxDepicts(w, h, m.cur.currentAttributes[0]); }
  }

  predicate Makes(rows: seq<Row>, classType: ClassType) { exists r :: r in rows && r.classType == classType }

  /** Zones come first, then whether the object has come to rest or moves again, then its attribute. */
  function Rank(classType: ClassType): nat {
    match classType
    case EnteredZone => 0
    case Stationary => 1
    case Active => 1
    case Attribute => 2
    case _ => 3
  }

  /** In this order, and so no class twice. */
  ghost predicate InOrder(rows: seq<Row>) {
    forall i, j :: 0 <= i < j < |rows| ==> Rank(rows[i].classType) < Rank(rows[j].classType)
  }

  /** The message calls for an entry of this class: one that the object is there or gone when its event starts or
      ends; one for its zones when it has entered or left some, is in some and does not rest; one when it has
      come to rest or moves again; and one when it has its first attributes. */
  ghost predicate CallsFor(m: Message, classType: ClassType) {
    && m.Tracked?
    && match classType
       case Visible => m.kind.Start?
       case Gone => m.kind.End? && m.prev.Some?
       case _ => m.kind.Update? && m.prev.Some? && ChangeCallsFor(m.prev.value, m.cur, classType)
  }

  ghost predicate ChangeCallsFor(before: ObjectData, now: ObjectData, classType: ClassType) {
    match classType
    case EnteredZone =>
      && now.currentZones != [] && !now.stationary
      && exists z :: z in before.currentZones + now.currentZones
                     && (z in before.currentZones) != (z in now.currentZones)
    case Stationary => !before.stationary && now.stationary
    case Active => before.stationary && !now.stationary
    case Attribute => before.attributes == [] && now.attributes != []
    case _ => false
  }

  /** A message makes exactly the entries it calls for, one each, in the order of their ranks. */
  lemma {:induction false} EntriesMade(config: Config, m: Message)
    requires Handled(config, m)
    ensures forall k :: Makes(Entries(config, m), k) <==> CallsFor(m, k)
    ensures InOrder(Entries(config, m))
  {
    if m.kind.Update? {
      UpdateEntriesMade(config, m);
    } else {
      var only := Entries(config, m)[0];
      assert Entries(config, m) == [only];
      assert only in Entries(config, m);
    }
  }

  lemma {:induction false} UpdateEntriesMade(config: Config, m: Message)
    requires Handled(config, m) && m.kind.Update?
    ensures forall k :: Makes(Entries(config, m), k) <==> ChangeCallsFor(m.prev.value, m.cur, k)
    ensures InOrder(Entries(config, m))
  {
    var zones, rest, attributes := ZoneRows(config, m), RestRows(config, m), AttributeRows(config, m);
    ZoneEntryIff(m);
    ThreeParts(zones, rest, attributes);
    ThreePartsInOrder(zones, rest, attributes);
    forall k ensures Makes(zones + rest + attributes, k) <==> ChangeCallsFor(m.prev.value, m.cur, k) {
    }
  }

  lemma {:induction false} ZoneEntryIff(m: Message)
    requires m.Tracked? && m.prev.Some?
    ensures ZoneEntry(m) <==> ChangeCallsFor(m.prev.value, m.cur, EnteredZone)
  {
    ZonesDiffer(m.prev.value.currentZones, m.cur.currentZones);
    assert m.cur.currentZones != [] ==> m.cur.currentZones[0] in ZoneSet(m.cur.currentZones);
  }

  lemma {:induction false} ThreeParts(a: seq<Row>, b: seq<Row>, c: seq<Row>)
    requires |a| <= 1 && |b| <= 1 && |c| <= 1
    requires (a != [] ==> a[0].classType == EnteredZone) && (c != [] ==> c[0].classType == Attribute)
    requires b != [] ==> Rank(b[0].classType) == 1
    ensures forall k :: Makes(a + b + c, k) <==> || (a != [] && k == EnteredZone) || (c != [] && k == Attribute)
                                                 || (b != [] && k == b[0].classType)
  {
    forall k ensures Makes(a + b + c, k) <==> Makes(a, k) || Makes(b, k) || Makes(c, k) {
      MakesConcat(a, b, k);
      MakesConcat(a + b, c, k);
    }
  }

  lemma {:induction false} ThreePartsInOrder(a: seq<Row>, b: seq<Row>, c: seq<Row>)
    requires |a| <= 1 && |b| <= 1 && |c| <= 1
    requires (a != [] ==> a[0].classType == EnteredZone) && (c != [] ==> c[0].classType == Attribute)
    requires b != [] ==> Rank(b[0].classType) == 1
    ensures InOrder(a + b + c)
  {
  }

  lemma {:induction false} MakesConcat(a: seq<Row>, b: seq<Row>, k: ClassType)
    ensures Makes(a + b, k) <==> Makes(a, k) || Makes(b, k)
  {
    assert forall r :: r in a + b <==> r in a || r in b;
  }

  lemma {:induction false} ZonesDiffer(a: seq<string>, b: seq<string>)
    ensures ZoneSet(a) != ZoneSet(b) <==> exists z :: z in a + b && (z in a) != (z in b)
  {
    if forall z :: z in a + b ==> (z in a) == (z in b) {
      forall z ensures z in ZoneSet(a) <==> z in ZoneSet(b) {
        assert z in a || z in b ==> z in a + b;
      }
      assert ZoneSet(a) == ZoneSet(b);
    } else {
      var z :| z in a + b && (z in a) != (z in b);
      assert (z in ZoneSet(a)) != (z in ZoneSet(b));
    }
  }

  // ---------------------------------------------------------------- one step, on values

  /** The table and the cache, with the cached dictionaries read out. */
  datatype State = State(table: seq<Row>, cache: map<string, seq<Row>>)

  function Cached(st: State, id: string): seq<Row> {
    if id in st.cache then st.cache[id] else []
  }

  function SaveRow(st: State, row: Row, saved: bool): State {
    if saved then State(st.table + Cached(st, row.sourceId) + [row], st.cache - {row.sourceId})
    else st.(cache := st.cache[row.sourceId := Cached(st, row.sourceId) + [row]])
  }

  function SaveRows(st: State, rows: seq<Row>, saved: bool): State {
    if rows == [] then st else SaveRow(SaveRows(st, rows[..|rows| - 1], saved), rows[|rows| - 1], saved)
  }

  lemma {:induction false} OneMoreRow(st: State, rows: seq<Row>, i: nat, saved: bool)
    requires i < |rows|
    ensures SaveRows(st, rows[..i + 1], saved) == SaveRow(SaveRows(st, rows[..i], saved), rows[i], saved)
  {
    assert rows[..i + 1][..i] == rows[..i];
  }

  function Relabel(r: Row, subLabel: Option<string>): Row {
    r.(data := r.data.(subLabel := subLabel))
  }

  function RelabelAll(rows: seq<Row>, subLabel: Option<string>): (out: seq<Row>)
    ensures |out| == |rows|
    ensures forall i :: 0 <= i < |rows| ==> out[i] == Relabel(rows[i], subLabel)
  {
    seq(|rows|, i requires 0 <= i < |rows| => Relabel(rows[i], subLabel))
  }

  predicate Rewrites(st: State, m: Message) {
    m.Tracked? && m.prev.Some? && m.prev.value.subLabel != m.cur.subLabel && m.cur.id in st.cache
  }

  function Rewritten(st: State, m: Message): State {
    if Rewrites(st, m)
    then st.(cache := st.cache[m.cur.id := RelabelAll(st.cache[m.cur.id], m.cur.subLabel)])
    else st
  }

  function Step(config: Config, st: State, m: Message): State {
    if m.ApiEntry? then if m.kind.Start? then st.(table := st.table + [ApiRow(m)]) else st
    else if !Handled(config, m) then st
    else SaveRows(Rewritten(st, m), Entries(config, m), m.cur.Saved())
  }

  function Run(config: Config, ms: seq<Message>): State {
    if ms == [] then State([], map[]) else Step(config, Run(config, ms[..|ms| - 1]), ms[|ms| - 1])
  }

  // ---------------------------------------------------------------- the processor

  /** A data dictionary: entries refer to it, and rewriting it is seen through every reference. */
  class DataDict {
    var value: Data
    constructor (value: Data)
      ensures this.value == value
    {
      this.value := value;
    }
  }

  datatype Entry = Entry(timestamp: real, camera: string, sourceId: string, classType: ClassType, data: DataDict) {
    function AsRow(): Row
      reads data
    {
      Row(timestamp, camera, TrackedObject, sourceId, classType, data.value)
    }
  }

  function AsRows(entries: seq<Entry>): seq<Row>
    reads DictsOf(entries)
  {
    seq(|entries|, i requires 0 <= i < |entries| reads DictsOf(entries) => entries[i].AsRow())
  }

  function DictsOf(entries: seq<Entry>): set<DataDict> {
    set i | 0 <= i < |entries| :: entries[i].data
  }

  /** No two of the entries share a data dictionary. */
  ghost predicate Separate(entries: seq<Entry>) {
    forall i, j :: 0 <= i < j < |entries| ==> entries[i].data != entries[j].data
  }

  lemma OneMoreEntry(entries: seq<Entry>, entry: Entry)
    requires Separate(entries) && entry.data !in DictsOf(entries)
    ensures Separate(entries + [entry]) && DictsOf(entries + [entry]) == DictsOf(entries) + {entry.data}
    ensures AsRows(entries + [entry]) == AsRows(entries) + [entry.AsRow()]
  {
    var all := entries + [entry];
    assert all[|entries|] == entry;
    assert forall i :: 0 <= i < |entries| ==> all[i] == entries[i] && entries[i].data in DictsOf(entries);
  }

  lemma {:induction false} OneMoreDict(entries: seq<Entry>, i: nat)
    requires Separate(entries) && i < |entries|
    ensures entries[i].data !in DictsOf(entries[..i])
    ensures DictsOf(entries[..i + 1]) == DictsOf(entries[..i]) + {entries[i].data}
  {
    assert entries[..i + 1] == entries[..i] + [entries[i]];
  }

  class TimelineProcessor {
    const config: Config
    var table: seq<Row>
    var preEventCache: map<string, seq<Entry>>
    ghost var view: State  // the table, and the cache with every dictionary read out

    function Dicts(): set<DataDict>
      reads this
    {
      set id, i | id in preEventCache && 0 <= i < |preEventCache[id]| :: preEventCache[id][i].data
    }

    /** No two cached entries share a data dictionary. */
    ghost predicate Unshared()
      reads this
    {
      forall id, i, id', i' ::
        (&& id in preEventCache && 0 <= i < |preEventCache[id]|
         && id' in preEventCache && 0 <= i' < |preEventCache[id']|
         && preEventCache[id][i].data == preEventCache[id'][i'].data) ==> id == id' && i == i'
    }

    ghost predicate Valid()
      reads this, Dicts()
    {
      && Unshared()
      && view.table == table
      && ViewShowsCache()
    }

    ghost predicate ViewShowsCache()
      reads this, Dicts()
    {
      && view.cache.Keys == preEventCache.Keys
      && (forall id :: id in preEventCache ==> |view.cache[id]| == |preEventCache[id]|)
      && (forall id, i :: id in preEventCache && 0 <= i < |preEventCache[id]| ==>
                            view.cache[id][i] == preEventCache[id][i].AsRow())
    }

    constructor (config: Config)
      ensures Valid() && this.config == config && view == State([], map[])
    {
      this.config := config;
      table, preEventCache, view := [], map[], State([], map[]);
    }

    method AddToCache(entry: Entry)
      requires Valid() && entry.data !in Dicts()
      modifies this
      ensures Valid() && Dicts() <= old(Dicts()) + {entry.data}
      ensures view == SaveRow(old(view), old(entry.AsRow()), false)
    {
      var id := entry.sourceId;
      ghost var before := preEventCache;
      if id in preEventCache {
        preEventCache := preEventCache[id := preEventCache[id] + [entry]];
      } else {
        preEventCache := preEventCache[id := [entry]];
      }
      view := SaveRow(view, entry.AsRow(), false);
      assert forall id', i :: id' in preEventCache && 0 <= i < |preEventCache[id']| ==>
                                (id' in before && i < |before[id']| && preEventCache[id'][i] == before[id'][i])
                                || (id' == id && i == |preEventCache[id]| - 1 && preEventCache[id'][i] == entry);
      assert Unshared();
      assert ViewShowsCache();
    }

    /** Inserts what is cached for the event and forgets it. */
    method Flush(id: string)
      requires Valid()
      modifies this
      ensures Valid() && Dicts() <= old(Dicts())
      ensures view == State(old(view).table + Cached(old(view), id), old(view).cache - {id})
    {
      if id in preEventCache {
        var es := preEventCache[id];
        for i := 0 to |es|
          invariant preEventCache == old(preEventCache) && view == old(view)
          invariant table == old(table) + view.cache[id][..i]
        {
          table := table + [es[i].AsRow()];
        }
        preEventCache := preEventCache - {id};
      }
      view := State(table, view.cache - {id});
    }

    method InsertOrSave(entry: Entry, saved: bool)
      requires Valid() && entry.data !in Dicts()
      modifies this
      ensures Valid() && Dicts() <= old(Dicts()) + {entry.data}
      ensures view == SaveRow(old(view), old(entry.AsRow()), saved)
    {
      if !saved {
        AddToCache(entry);
      } else {
        Flush(entry.sourceId);
        table := table + [entry.AsRow()];
        view := view.(table := table);
      }
    }

    /** Writes the sub label through every cached entry of the event. */
    method RewriteSubLabels(id: string, subLabel: Option<string>)
      requires Valid() && id in preEventCache
      modifies this`view, Dicts()
      ensures Valid() && Dicts() == old(Dicts())
      ensures view == old(view).(cache := old(view).cache[id := RelabelAll(old(view).cache[id], subLabel)])
    {
      var es := preEventCache[id];
      for i := 0 to |es|
        invariant view == old(view)
        invariant forall id', j :: id' in preEventCache && 0 <= j < |preEventCache[id']| ==>
                    preEventCache[id'][j].AsRow() ==
                      if id' == id && j < i then Relabel(view.cache[id'][j], subLabel) else view.cache[id'][j]
      {
        es[i].data.value := es[i].data.value.(subLabel := subLabel);
      }
      view := view.(cache := view.cache[id := RelabelAll(view.cache[id], subLabel)]);
      assert ViewShowsCache();
    }

    /** The rewrite happens when the message has a sub label other than the one before, and only for what is
        cached of its event. */
    method RewriteIfRenamed(m: Message)
      requires Valid() && m.Tracked?
      modifies this`view, Dicts()
      ensures Valid() && Dicts() == old(Dicts())
      ensures view == Rewritten(old(view), m)
    {
      if m.prev.Some? && m.prev.value.subLabel != m.cur.subLabel && m.cur.id in preEventCache {
        RewriteSubLabels(m.cur.id, m.cur.subLabel);
      }
    }

    /** Builds the entries of a message.  They start from one base dictionary: the single entry of a start or
        an end takes it as it is, the entries of an update each take a copy of their own. */
    method BuildEntries(m: Message) returns (entries: seq<Entry>)
      requires Handled(config, m)
      ensures AsRows(entries) == Entries(config, m)
      ensures Separate(entries) && fresh(DictsOf(entries))
    {
      var base := new DataDict(BaseRow(config, m, Visible).data);
      if m.kind.Start? {
        entries := [Entry(m.cur.frameTime, m.camera, m.cur.id, Visible, base)];
      } else if m.kind.End? {
        entries := [Entry(m.cur.frameTime, m.camera, m.cur.id, Gone, base)];
      } else {
        entries := BuildUpdateEntries(m, base);
      }
    }

    method BuildUpdateEntries(m: Message, base: DataDict) returns (entries: seq<Entry>)
      requires Handled(config, m) && m.kind.Update? && base.value == BaseRow(config, m, Visible).data
      ensures AsRows(entries) == Entries(config, m)
      ensures Separate(entries) && fresh(DictsOf(entries))
    {
      entries := [];
      if ZoneEntry(m) {
        entries := AppendEntry(entries, m, EnteredZone, base.value.(zones := Some(m.cur.currentZones)));
      }
      if m.prev.value.stationary != m.cur.stationary {
        entries := AppendEntry(entries, m, if m.cur.stationary then Stationary else Active, base.value);
      }
      if AttributeEntry(m) {
        var value := base.value.(attribute := m.cur.attributes[0]);
        if m.cur.currentAttributes != [] {
          value := value.(attributeBox := AttributeBox(config, m));
        }
        entries := AppendEntry(entries, m, Attribute, value);
      }
    }

    /** Appends an entry with a data dictionary of its own. */
    method AppendEntry(entries: seq<Entry>, m: Message, classType: ClassType, value: Data) returns (more: seq<Entry>)
      requires m.Tracked? && Separate(entries)
      ensures AsRows(more) ==
                AsRows(entries) + [Row(m.cur.frameTime, m.camera, TrackedObject, m.cur.id, classType, value)]
      ensures Separate(more) && fresh(DictsOf(more) - DictsOf(entries))
    {
      var dict := new DataDict(value);
      var entry := Entry(m.cur.frameTime, m.camera, m.cur.id, classType, dict);
      OneMoreEntry(entries, entry);
      more := entries + [entry];
    }

    /** Hands the entries over one by one. */
    method SaveAll(entries: seq<Entry>, saved: bool)
      requires Valid() && Separate(entries)
      requires DictsOf(entries) !! Dicts()
      modifies this
      ensures Valid() && Dicts() <= old(Dicts()) + DictsOf(entries)
      ensures view == SaveRows(old(view), old(AsRows(entries)), saved)
    {
      ghost var rows := AsRows(entries);
      assert forall i :: 0 <= i < |entries| ==> entries[i].data in DictsOf(entries);
      for i := 0 to |entries|
        invariant Valid() && Dicts() <= old(Dicts()) + DictsOf(entries[..i])
        invariant view == SaveRows(old(view), rows[..i], saved)
      {
        OneMoreDict(entries, i);
        OneMoreRow(old(view), rows, i, saved);
        InsertOrSave(entries[i], saved);
      }
      assert rows[..|rows|] == rows;
      assert entries[..|entries|] == entries;
    }

    method HandleObjectDetection(m: Message)
      requires Valid() && m.Tracked? && (m.kind.Start? || m.prev.Some?)
      modifies this, Dicts()
      ensures Valid() && fresh(Dicts() - old(Dicts()))
      ensures view == Step(config, old(view), m)
    {
      if !Handled(config, m) {
        return;
      }
      RewriteIfRenamed(m);
      var entries := BuildEntries(m);
      SaveAll(entries, m.cur.Saved());
    }

    method HandleApiEntry(m: Message) returns (inserted: bool)
      requires Valid() && m.ApiEntry?
      modifies this
      ensures Valid() && Dicts() == old(Dicts())
      ensures view == Step(config, old(view), m) && (inserted <==> m.kind.Start?)
    {
      if !m.kind.Start? {
        return false;
      }
      table := table + [ApiRow(m)];
      view := view.(table := table);
      return true;
    }

    /** The processor's loop over the messages it is sent. */
    method ProcessAll(ms: seq<Message>)
      requires Valid() && view == State([], map[])
      modifies this, Dicts()
      ensures Valid() && view == Run(config, ms)
    {
      for i := 0 to |ms|
        invariant Valid() && fresh(Dicts() - old(Dicts()))
        invariant view == Run(config, ms[..i])
      {
        assert ms[..i + 1][..i] == ms[..i];
        if ms[i].Tracked? {
          // previous data may be missing only at the start of an event
          if !ms[i].kind.Start? && ms[i].prev.None? {
            continue;
          }
          HandleObjectDetection(ms[i]);
        } else {
          var _ := HandleApiEntry(ms[i]);
        }
      }
      assert ms[..|ms|] == ms;
    }
  }
}
