/** Whether nested configuration data comes back after it has been flattened (frigate/util/builtin.py), taken
    apart at the dots and grouped by camera and section (frigate/api/app.py, `_config_set_in_memory`). */
module ConfigRoundTrip {
  import opened Common
  import opened ConfigPaths
  import opened ConfigGrouping
  import opened ConfigFlattening

  // ---------------------------------------------------------------- what is left of the paths

  function VisiblePath(path: Path): Path { if path == [] then [] else Visible(path) }

  /** The leaves by what their flat keys show of their paths, those alike merged as the dictionary does. */
  function Entries(leaves: seq<Entry<Path>>): seq<Entry<Path>> {
    Merge(MapKeys(leaves, VisiblePath))
  }

  /** A path whose flat key is taken for that of a value in a camera's section: one that begins with `cameras`
      and has three segments, or two of which the second contains a dot. */
  predicate TakenForCamera(path: Path) {
    path != [] && path[0] == "cameras" && (|path| >= 3 || (|path| == 2 && '.' in path[1]))
  }

  /** The entries whose paths are taken for a camera's. */
  function TakenAmong(es: seq<Entry<Path>>, n: nat): seq<Entry<Path>>
    requires n <= |es|
  {
    if n == 0 then []
    else if TakenForCamera(es[n - 1].key) then TakenAmong(es, n - 1) + [es[n - 1]]
    else TakenAmong(es, n - 1)
  }

  function Taken(leaves: seq<Entry<Path>>): seq<Entry<Path>> { TakenAmong(Entries(leaves), |Entries(leaves)|) }

  lemma {:induction false} CamerasIsPlain(s: string)
    requires s == "cameras"
    ensures PlainSegment(s)
  {
    assert forall i :: 0 <= i < |s| ==> s[i] != '.' && s[i] != '\\';
  }

  lemma {:induction false} TakenIff(path: Path)
    requires Anchored(path)
    ensures Relevant(SplitDots(KeyPath(path), "")) <==> TakenForCamera(path)
  {
    KeyPathIsJoined(path);
    CamerasIsPlain("cameras");
    FirstSegment(path, "cameras");
    NoPieceMissing(path);
    if path[0] == "cameras" {
      SplitOffFirst(path);
      if |path| == 2 {
        assert Joined(path[1..]) == Escape(path[1]);
        PiecesAndDots(Escape(path[1]), "");
        EscapeKeepsDots(path[1]);
      }
    }
  }

  // ---------------------------------------------------------------- the updates

  function Flats(es: seq<Entry<string>>): (out: seq<Flat>)
    ensures |out| == |es| && forall i :: 0 <= i < |es| ==> out[i] == Flat(es[i].key, es[i].value)
  {
    seq(|es|, i requires 0 <= i < |es| => Flat(es[i].key, es[i].value))
  }

  /** Where a path ends up when its flat key is split at every dot. */
  function SplitPath(path: Path): Path { SplitDots(KeyPath(path), "") }

  function SplitAll(ts: seq<Entry<Path>>): (out: seq<Update>)
    ensures |out| == |ts| && forall i :: 0 <= i < |ts| ==> out[i] == Update(SplitPath(ts[i].key)[1..], ts[i].value)
  {
    seq(|ts|, i requires 0 <= i < |ts| => Update(SplitPath(ts[i].key)[1..], ts[i].value))
  }

  /** The updates made for the flattened data. */
  function Updates(data: Data): seq<Update> {
    var flats := Flats(FlattenConfigData(data, ""));
    UpdatesOf(flats, |flats|)
  }

  lemma {:induction false} EntriesAreFlatKeys(leaves: seq<Entry<Path>>)
    requires forall i :: 0 <= i < |leaves| ==> leaves[i].key != []
    ensures Merge(MapKeys(leaves, KeyPath)) == MapKeys(Entries(leaves), KeyPath)
    ensures KeysDiffer(Entries(leaves)) && forall i :: 0 <= i < |Entries(leaves)| ==> Anchored(Entries(leaves)[i].key)
  {
    var visible := MapKeys(leaves, VisiblePath);
    forall i | 0 <= i < |leaves|
      ensures Anchored(visible[i].key) && KeyPath(leaves[i].key) == KeyPath(visible[i].key) == Joined(visible[i].key)
    {
      KeyPathShowsVisible(leaves[i].key);
      KeyPathIsJoined(visible[i].key);
    }
    assert MapKeys(leaves, KeyPath) == MapKeys(visible, KeyPath);
    forall i, j | 0 <= i < |visible| && 0 <= j < |visible| && KeyPath(visible[i].key) == KeyPath(visible[j].key)
      ensures visible[i].key == visible[j].key
    {
      JoinedInjective(visible[i].key, visible[j].key);
    }
    MergeMapped(visible, KeyPath);
    MergeDiffers(visible);
    forall i | 0 <= i < |Entries(leaves)| ensures Anchored(Entries(leaves)[i].key) {
      EntryFromLeaf(leaves, Entries(leaves)[i].key);
    }
  }

  /** Every entry is what is visible of some leaf. */
  lemma {:induction false} EntryFromLeaf(leaves: seq<Entry<Path>>, k: Path)
    ensures HasKey(Entries(leaves), k) <==> exists i :: 0 <= i < |leaves| && VisiblePath(leaves[i].key) == k
  {
    var visible := MapKeys(leaves, VisiblePath);
    MergeKeys(visible, k);
    if HasKey(visible, k) {
      var i :| 0 <= i < |visible| && visible[i].key == k;
      assert VisiblePath(leaves[i].key) == k;
    }
    if i :| 0 <= i < |leaves| && VisiblePath(leaves[i].key) == k {
      assert visible[i].key == k;
    }
  }

  /** The flat key is that of the entry, printed by `printed`. */
  predicate PrintedAs(e: Entry<Path>, flat: Flat, printed: Path -> string) {
    Anchored(e.key) && flat == Flat(printed(e.key), e.value)
  }

  /** The first `n` flat keys are those of the first `n` entries. */
  predicate AllPrinted(es: seq<Entry<Path>>, flats: seq<Flat>, printed: Path -> string, n: nat)
    requires n <= |es| == |flats|
  {
    n == 0 || (AllPrinted(es, flats, printed, n - 1) && PrintedAs(es[n - 1], flats[n - 1], printed))
  }

  lemma {:induction false} EntriesArePrinted(es: seq<Entry<Path>>, printed: Path -> string, n: nat)
    requires n <= |es| && forall i :: 0 <= i < |es| ==> Anchored(es[i].key)
    ensures AllPrinted(es, Flats(MapKeys(es, printed)), printed, n)
  {
    if n > 0 {
      EntriesArePrinted(es, printed, n - 1);
    }
  }

  lemma {:induction false} UpdatesAreSplit(es: seq<Entry<Path>>, flats: seq<Flat>, n: nat) returns (us: seq<Update>)
    requires n <= |es| == |flats| && AllPrinted(es, flats, KeyPath, n)
    ensures us == UpdatesOf(flats, n) && us == SplitAll(TakenAmong(es, n))
    decreases n
  {
    if n == 0 {
      us := [];
    } else {
      us := UpdatesAreSplit(es, flats, n - 1);
      us := OneMoreUpdate(es, flats, n - 1, us);
    }
  }

  lemma {:induction false} OneMoreUpdate(es: seq<Entry<Path>>, flats: seq<Flat>, n: nat, before: seq<Update>)
    returns (us: seq<Update>)
    requires n < |es| == |flats| && AllPrinted(es, flats, KeyPath, n + 1)
    requires before == UpdatesOf(flats, n) && before == SplitAll(TakenAmong(es, n))
    ensures us == UpdatesOf(flats, n + 1) && us == SplitAll(TakenAmong(es, n + 1))
  {
    var parts := SplitDots(flats[n].key, "");
    TakenIff(es[n].key);
    SplitAllConcat(TakenAmong(es, n), es[n]);
    us := if Relevant(parts) then before + [Update(parts[1..], es[n].value)] else before;
  }

  lemma {:induction false} SplitAllConcat(ts: seq<Entry<Path>>, t: Entry<Path>)
    ensures SplitAll(ts + [t]) == SplitAll(ts) + [Update(SplitPath(t.key)[1..], t.value)]
  {
  }

  /** The updates are the taken entries, split, one for one. */
  lemma {:induction false} UpdatesAreTaken(data: Data)
    requires forall i :: 0 <= i < |LeavesOf(data, [])| ==> LeavesOf(data, [])[i].key != []
    ensures Updates(data) == SplitAll(Taken(LeavesOf(data, [])))
  {
    var leaves := LeavesOf(data, []);
    FlattenIsMerge(data);
    EntriesAreFlatKeys(leaves);
    var es, flats := Entries(leaves), Flats(FlattenConfigData(data, ""));
    EntriesArePrinted(es, KeyPath, |es|);
    var _ := UpdatesAreSplit(es, flats, |es|);
  }

  // ---------------------------------------------------------------- properties of the taken entries

  lemma {:induction false} TakenMember(es: seq<Entry<Path>>, n: nat, t: Entry<Path>)
    requires n <= |es|
    ensures t in TakenAmong(es, n) <==> t in es[..n] && TakenForCamera(t.key)
  {
    if n > 0 {
      TakenMember(es, n - 1, t);
      assert es[..n] == es[..n - 1] + [es[n - 1]];
    }
  }

  lemma {:induction false} TakenDiffer(es: seq<Entry<Path>>, n: nat)
    requires n <= |es| && KeysDiffer(es)
    ensures KeysDiffer(TakenAmong(es, n))
  {
    if n > 0 {
      TakenDiffer(es, n - 1);
      var before := TakenAmong(es, n - 1);
      forall i | 0 <= i < |before| ensures before[i].key != es[n - 1].key {
        TakenMember(es, n - 1, before[i]);
        var j :| 0 <= j < n - 1 && es[j] == before[i];
      }
    }
  }

  /** The taken paths are anchored, taken and different. */
  ghost predicate AllTaken(ts: seq<Entry<Path>>) {
    KeysDiffer(ts) && forall i :: 0 <= i < |ts| ==> Anchored(ts[i].key) && TakenForCamera(ts[i].key)
  }

  lemma {:induction false} TakenOk(leaves: seq<Entry<Path>>)
    requires forall i :: 0 <= i < |leaves| ==> leaves[i].key != []
    ensures AllTaken(Taken(leaves))
  {
    var es := Entries(leaves);
    EntriesAreFlatKeys(leaves);
    TakenDiffer(es, |es|);
    forall i | 0 <= i < |Taken(leaves)| ensures Anchored(Taken(leaves)[i].key) && TakenForCamera(Taken(leaves)[i].key) {
      TakenMember(es, |es|, Taken(leaves)[i]);
      var j :| 0 <= j < |es| && es[j] == Taken(leaves)[i];
    }
  }

  /** Every camera leaf's path is among them. */
  lemma {:induction false} CameraLeafIsTaken(leaves: seq<Entry<Path>>, c: nat) returns (i: nat)
    requires forall k :: 0 <= k < |leaves| ==> leaves[k].key != []
    requires c < |leaves| && Relevant(leaves[c].key)
    ensures i < |Taken(leaves)| && Taken(leaves)[i].key == leaves[c].key
  {
    var es, k := Entries(leaves), leaves[c].key;
    KeyPathShowsVisible(k);
    assert VisiblePath(k) == k;
    EntryFromLeaf(leaves, k);
    var j :| 0 <= j < |es| && es[j].key == k;
    TakenMember(es, |es|, es[j]);
    assert es[..|es|] == es;
    i :| 0 <= i < |Taken(leaves)| && Taken(leaves)[i] == es[j];
  }

  lemma {:induction false} SplitInjective(p: Path, q: Path)
    requires Anchored(p) && Anchored(q) && SplitPath(p) == SplitPath(q)
    ensures p == q
  {
    KeyPathIsJoined(p);
    KeyPathIsJoined(q);
    DottedSplit(Joined(p), "");
    DottedSplit(Joined(q), "");
    assert "" + Joined(p) == Joined(p) && "" + Joined(q) == Joined(q);
    JoinedInjective(p, q);
  }

  /** Splitting keeps taken paths different, and which continues which. */
  lemma {:induction false} SplitKeepsOrder(ts: seq<Entry<Path>>, i: nat, j: nat)
    requires AllTaken(ts) && i < |ts| && j < |ts|
    ensures SplitAll(ts)[i].path == SplitAll(ts)[j].path <==> ts[i].key == ts[j].key
    ensures Below(SplitAll(ts)[i].path, SplitAll(ts)[j].path) <==> Below(ts[i].key, ts[j].key)
  {
    var p, q := ts[i].key, ts[j].key;
    KeyPathIsJoined(p);
    KeyPathIsJoined(q);
    TakenIff(p);
    TakenIff(q);
    SplitKeepsBelow(p, q);
    TailsCompare(SplitPath(p), SplitPath(q));
    if SplitPath(p) == SplitPath(q) {
      SplitInjective(p, q);
    }
  }

  lemma {:induction false} TailsCompare(a: Path, b: Path)
    requires Relevant(a) && Relevant(b)
    ensures a[1..] == b[1..] <==> a == b
    ensures a[1..] < b[1..] <==> a < b
  {
    assert a == ["cameras"] + a[1..] && b == ["cameras"] + b[1..];
  }

  lemma {:induction false} UpdatesDiffer(ts: seq<Entry<Path>>)
    requires AllTaken(ts)
    ensures DistinctPaths(SplitAll(ts))
  {
    forall i, j | 0 <= i < j < |ts| ensures SplitAll(ts)[i].path != SplitAll(ts)[j].path {
      SplitKeepsOrder(ts, i, j);
    }
  }

  // ---------------------------------------------------------------- what the grouping leaves of them

  /** Entry `i` is not overwritten by a later one whose path it continues. */
  ghost predicate Stays(ts: seq<Entry<Path>>, i: nat)
    requires i < |ts|
  {
    forall j :: i < j < |ts| ==> !Below(ts[j].key, ts[i].key)
  }

  ghost predicate Fails(ts: seq<Entry<Path>>) {
    exists i, j :: 0 <= i < j < |ts| && Below(ts[i].key, ts[j].key)
  }

  lemma {:induction false} StaysIffSurvives(ts: seq<Entry<Path>>, i: nat)
    requires AllTaken(ts) && i < |ts|
    ensures Stays(ts, i) <==> Survives(SplitAll(ts), i, |ts|)
  {
    forall j | i < j < |ts|
      ensures Below(SplitAll(ts)[j].path, SplitAll(ts)[i].path) <==> Below(ts[j].key, ts[i].key)
    {
      SplitKeepsOrder(ts, j, i);
    }
  }

  lemma {:induction false} FailsIffBlocked(ts: seq<Entry<Path>>)
    requires AllTaken(ts)
    ensures Fails(ts) <==> Blocked(SplitAll(ts), |ts|)
  {
    var us := SplitAll(ts);
    forall i, j | 0 <= i < j < |ts| ensures Below(us[i].path, us[j].path) <==> Below(ts[i].key, ts[j].key) {
      SplitKeepsOrder(ts, i, j);
    }
  }

  /** The entry that stays, at or above the path of entry `i`. */
  lemma {:induction false} StaysAbove(ts: seq<Entry<Path>>, i: nat) returns (m: nat)
    requires i < |ts|
    ensures i <= m < |ts| && ts[m].key <= ts[i].key && Stays(ts, m) && (m == i <==> Stays(ts, i))
    ensures m != i ==> Below(ts[m].key, ts[i].key)
    decreases |ts[i].key|
  {
    if Stays(ts, i) {
      m := i;
    } else {
      var j :| i < j < |ts| && Below(ts[j].key, ts[i].key);
      m := StaysAbove(ts, j);
    }
  }

  // ---------------------------------------------------------------- the camera leaves

  predicate PlainPath(path: Path) { forall s :: s in path ==> PlainSegment(s) }

  /** The values meant for the cameras' sections, by path without the leading `cameras`. */
  function CameraLeaves(leaves: seq<Entry<Path>>, n: nat): Leaves
    requires n <= |leaves|
  {
    if n == 0 then map[]
    else
      var before, leaf := CameraLeaves(leaves, n - 1), leaves[n - 1];
      if Relevant(leaf.key) then before[leaf.key[1..] := leaf.value] else before
  }

  /** The path is that of a camera leaf. */
  ghost predicate OfCamera(leaves: seq<Entry<Path>>, path: Path) {
    exists c :: 0 <= c < |leaves| && leaves[c].key == path && Relevant(path)
  }

  lemma {:induction false} CameraLeafAt(leaves: seq<Entry<Path>>, n: nat, c: nat)
    requires c < n <= |leaves| && Apart(leaves) && Relevant(leaves[c].key)
    ensures leaves[c].key[1..] in CameraLeaves(leaves, n)
    ensures CameraLeaves(leaves, n)[leaves[c].key[1..]] == leaves[c].value
  {
    if c < n - 1 {
      CameraLeafAt(leaves, n - 1, c);
      if Relevant(leaves[n - 1].key) {
        TailsCompare(leaves[c].key, leaves[n - 1].key);
      }
    }
  }

  lemma {:induction false} CameraLeafFrom(leaves: seq<Entry<Path>>, n: nat, p: Path) returns (c: nat)
    requires n <= |leaves| && p in CameraLeaves(leaves, n)
    ensures c < n && Relevant(leaves[c].key) && leaves[c].key[1..] == p
  {
    if Relevant(leaves[n - 1].key) && leaves[n - 1].key[1..] == p {
      c := n - 1;
    } else {
      c := CameraLeafFrom(leaves, n - 1, p);
    }
  }

  ghost predicate EndUpAmong(leaves: seq<Entry<Path>>, ts: seq<Entry<Path>>) {
    forall i :: 0 <= i < |ts| && Stays(ts, i) ==> Entry(SplitPath(ts[i].key), ts[i].value) in leaves
  }

  /** Where an entry that stays ends up, there is a camera leaf with its value; and every camera leaf is where
      such an entry ends up. */
  ghost predicate SameLeaves(leaves: seq<Entry<Path>>, ts: seq<Entry<Path>>) {
    && EndUpAmong(leaves, ts)
    && (forall c :: 0 <= c < |leaves| && Relevant(leaves[c].key) ==>
          exists i :: 0 <= i < |ts| && Stays(ts, i) && Entry(SplitPath(ts[i].key), ts[i].value) == leaves[c])
  }

  lemma {:induction false} SameLeavesIff(leaves: seq<Entry<Path>>, ts: seq<Entry<Path>>)
    requires Apart(leaves) && AllTaken(ts)
    ensures Surviving(SplitAll(ts), |ts|) == CameraLeaves(leaves, |leaves|) <==> SameLeaves(leaves, ts)
  {
    if Surviving(SplitAll(ts), |ts|) == CameraLeaves(leaves, |leaves|) {
      EqualMapsSameLeaves(leaves, ts);
    }
    if SameLeaves(leaves, ts) {
      SameLeavesEqualMaps(leaves, ts);
    }
  }

  lemma {:induction false} EqualMapsSameLeaves(leaves: seq<Entry<Path>>, ts: seq<Entry<Path>>)
    requires Apart(leaves) && AllTaken(ts)
    requires Surviving(SplitAll(ts), |ts|) == CameraLeaves(leaves, |leaves|)
    ensures SameLeaves(leaves, ts)
  {
    var us, n := SplitAll(ts), |leaves|;
    UpdatesDiffer(ts);
    forall i | 0 <= i < |ts| && Stays(ts, i) ensures Entry(SplitPath(ts[i].key), ts[i].value) in leaves {
      StaysIffSurvives(ts, i);
      SurvivingAt(us, |ts|, i);
      var c := CameraLeafFrom(leaves, n, us[i].path);
      CameraLeafAt(leaves, n, c);
      TakenIff(ts[i].key);
      TailsCompare(leaves[c].key, SplitPath(ts[i].key));
      assert leaves[c] == Entry(SplitPath(ts[i].key), ts[i].value);
    }
    forall c | 0 <= c < n && Relevant(leaves[c].key)
      ensures exists i :: 0 <= i < |ts| && Stays(ts, i) && Entry(SplitPath(ts[i].key), ts[i].value) == leaves[c]
    {
      CameraLeafAt(leaves, n, c);
      var i := SurvivingFrom(us, |ts|, leaves[c].key[1..]);
      SurvivingAt(us, |ts|, i);
      StaysIffSurvives(ts, i);
      TakenIff(ts[i].key);
      TailsCompare(leaves[c].key, SplitPath(ts[i].key));
    }
  }

  lemma {:induction false} SameLeavesEqualMaps(leaves: seq<Entry<Path>>, ts: seq<Entry<Path>>)
    requires Apart(leaves) && AllTaken(ts) && SameLeaves(leaves, ts)
    ensures Surviving(SplitAll(ts), |ts|) == CameraLeaves(leaves, |leaves|)
  {
    var us, n := SplitAll(ts), |leaves|;
    var left, right := Surviving(us, |ts|), CameraLeaves(leaves, n);
    UpdatesDiffer(ts);
    forall p | p in left ensures p in right && left[p] == right[p] {
      var i := SurvivingFrom(us, |ts|, p);
      SurvivingAt(us, |ts|, i);
      StaysIffSurvives(ts, i);
      TakenIff(ts[i].key);
      var c :| 0 <= c < n && leaves[c] == Entry(SplitPath(ts[i].key), ts[i].value);
      CameraLeafAt(leaves, n, c);
    }
    forall p | p in right ensures p in left {
      var c := CameraLeafFrom(leaves, n, p);
      var i :| 0 <= i < |ts| && Stays(ts, i) && Entry(SplitPath(ts[i].key), ts[i].value) == leaves[c];
      StaysIffSurvives(ts, i);
      SurvivingAt(us, |ts|, i);
    }
  }

  // ---------------------------------------------------------------- when the data comes back

  /** The condition on the data, in terms of the paths as their flat keys show them, `ts` being those taken for
      a camera's.  Every camera leaf has a path without dots and backslashes, and the value its flat key is
      given last.  Every other taken path continues that of a camera leaf that comes after it.  And no such
      path is continued by a later one. */
  ghost predicate ComesBack(leaves: seq<Entry<Path>>, ts: seq<Entry<Path>>) {
    && (forall c :: 0 <= c < |leaves| && Relevant(leaves[c].key) ==> PlainPath(leaves[c].key) && leaves[c] in ts)
    && (forall i :: 0 <= i < |ts| && !OfCamera(leaves, ts[i].key) ==> OverwrittenByCamera(leaves, ts, i))
    && (forall i, j :: 0 <= i < j < |ts| && !OfCamera(leaves, ts[i].key) && !OfCamera(leaves, ts[j].key) ==>
                         !Below(ts[i].key, ts[j].key))
  }

  ghost predicate OverwrittenByCamera(leaves: seq<Entry<Path>>, ts: seq<Entry<Path>>, i: nat)
    requires i < |ts|
  {
    exists j :: i < j < |ts| && OfCamera(leaves, ts[j].key) && Below(ts[j].key, ts[i].key)
  }

  lemma {:induction false} PlainSplit(path: Path)
    requires Anchored(path)
    ensures SplitPath(path) == path <==> PlainPath(path)
  {
    FlattenThenSplitDots(path);
  }

  /** Of two camera leaves neither's path is, or continues, the other's. */
  lemma {:induction false} CamerasApart(leaves: seq<Entry<Path>>, p: Path, q: Path)
    requires Apart(leaves) && OfCamera(leaves, p) && OfCamera(leaves, q)
    ensures !Below(p, q)
  {
    var c :| 0 <= c < |leaves| && leaves[c].key == p;
    var d :| 0 <= d < |leaves| && leaves[d].key == q;
    assert c != d ==> !Below(leaves[c].key, leaves[d].key);
  }

  /** Under the condition an entry stays exactly when it is a camera leaf's. */
  lemma {:induction false} CamerasStay(leaves: seq<Entry<Path>>, ts: seq<Entry<Path>>, i: nat)
    requires Apart(leaves) && ComesBack(leaves, ts) && i < |ts|
    ensures Stays(ts, i) <==> OfCamera(leaves, ts[i].key)
  {
    if OfCamera(leaves, ts[i].key) {
      forall j | i < j < |ts| ensures !Below(ts[j].key, ts[i].key) {
        if OfCamera(leaves, ts[j].key) {
          CamerasApart(leaves, ts[j].key, ts[i].key);
        } else {
          var k :| j < k < |ts| && OfCamera(leaves, ts[k].key) && Below(ts[k].key, ts[j].key);
          CamerasApart(leaves, ts[k].key, ts[i].key);
          if Below(ts[j].key, ts[i].key) { BelowBelow(ts[k].key, ts[j].key, ts[i].key); }
        }
      }
    } else {
      assert OverwrittenByCamera(leaves, ts, i);
    }
  }

  lemma {:induction false} BelowBelow(p: Path, q: Path, r: Path)
    requires Below(p, q) && Below(q, r)
    ensures Below(p, r)
  {
    assert p == q[..|p|] && q == r[..|q|];
    assert p == r[..|p|];
  }

  lemma {:induction false} PrefixesCompare(p: Path, r: Path, q: Path)
    requires p < q && r < q
    ensures p == r || p < r || r < p
  {
    assert p == q[..|p|] && r == q[..|r|];
  }

  /** And the grouping does not fail. */
  lemma {:induction false} ConditionAvoidsFailure(leaves: seq<Entry<Path>>, ts: seq<Entry<Path>>, i: nat, j: nat)
    requires Apart(leaves) && KeysDiffer(ts) && ComesBack(leaves, ts) && i < j < |ts|
    ensures !Below(ts[i].key, ts[j].key)
  {
    var p, q := ts[i].key, ts[j].key;
    if Below(p, q) {
      if OfCamera(leaves, q) {
        if OfCamera(leaves, p) {
          CamerasApart(leaves, p, q);
        } else {
          var k :| i < k < |ts| && OfCamera(leaves, ts[k].key) && Below(ts[k].key, p);
          CamerasApart(leaves, ts[k].key, q);
          BelowBelow(ts[k].key, p, q);
        }
      } else if OfCamera(leaves, p) {
        var k :| j < k < |ts| && OfCamera(leaves, ts[k].key) && Below(ts[k].key, q);
        CamerasApart(leaves, p, ts[k].key);
        CamerasApart(leaves, ts[k].key, p);
        PrefixesCompare(p, ts[k].key, q);
      }
    }
  }

  // ---------------------------------------------------------------- why the camera leaves must be plain

  /** The first piece of an escaped segment that is not plain has a backslash in it. */
  lemma {:induction false} FirstPieceMarked(segment: string, rest: string, current: string)
    requires !PlainSegment(segment)
    ensures '\\' in SplitDots(Escape(segment) + rest, current)[0]
    decreases segment
  {
    EscapeCons(segment);
    var c, tail := segment[0], Escape(segment[1..]) + rest;
    Regroup(EscapeChar(c), Escape(segment[1..]), rest);
    assert segment == [c] + segment[1..];
    var s := EscapeChar(c) + tail;
    if c == '\\' || c == '.' {
      var marked := current + ['\\'];
      assert s[0] == '\\' && marked[|current|] == '\\';
      PieceKeeps(s[1..], marked);
      assert SplitDots(s, current) == SplitDots(s[1..], marked);
      assert SplitDots(s, current)[0][|current|] == '\\';
    } else {
      assert s[1..] == tail;
      FirstPieceMarked(segment[1..], rest, current + [c]);
    }
  }

  lemma {:induction false} PieceKeeps(s: string, current: string)
    ensures current <= SplitDots(s, current)[0]
    decreases s
  {
    if s != [] && s[0] != '.' {
      PieceKeeps(s[1..], current + [s[0]]);
    }
  }

  /** Split, a path keeps the plain segments it begins with; the piece after them is the escaped segment, up to
      its first dot. */
  lemma {:induction false} SplitAfterPlain(path: Path, t: nat)
    requires t < |path| && forall k :: 0 <= k < t ==> PlainSegment(path[k])
    ensures var parts := SplitDots(Joined(path), "");
            && t < |parts| && parts[..t] == path[..t] && '.' !in parts[t]
            && (!PlainSegment(path[t]) ==> !PlainSegment(parts[t]))
            && ('.' !in path[t] ==> parts[t] == Escape(path[t]))
    decreases t
  {
    var rest := if |path| == 1 then "" else "." + Joined(path[1..]);
    assert Joined(path) == Escape(path[0]) + rest;
    SplitOffFirst(path);
    if t == 0 {
      FirstPiece(Joined(path), "");
      if !PlainSegment(path[0]) { FirstPieceMarked(path[0], rest, ""); }
    } else {
      EscapePlain(path[0]);
      SplitAfterPlain(path[1..], t - 1);
      assert path[..t] == [path[0]] + path[1..][..t - 1];
    }
  }

  function Longer(a: nat, b: nat): nat { if a >= b then a else b }

  /** The length of the longest segment of any leaf's path. */
  function LongestIn(path: Path): nat {
    if path == [] then 0 else Longer(LongestIn(path[..|path| - 1]), |path[|path| - 1]|)
  }

  function Longest(leaves: seq<Entry<Path>>): nat {
    if leaves == [] then 0 else Longer(Longest(leaves[..|leaves| - 1]), LongestIn(leaves[|leaves| - 1].key))
  }

  lemma {:induction false} LongestInBounds(path: Path, t: nat)
    requires t < |path|
    ensures |path[t]| <= LongestIn(path)
  {
    if t < |path| - 1 {
      LongestInBounds(path[..|path| - 1], t);
    }
  }

  lemma {:induction false} LongestBounds(leaves: seq<Entry<Path>>, c: nat, t: nat)
    requires c < |leaves| && t < |leaves[c].key|
    ensures |leaves[c].key[t]| <= Longest(leaves)
  {
    if c < |leaves| - 1 {
      LongestBounds(leaves[..|leaves| - 1], c, t);
    } else {
      LongestInBounds(leaves[c].key, t);
    }
  }

  /** If the leaves come back, a camera leaf with a segment that is not plain brings another one about, with a
      segment in the same place that has no dot but still a backslash. */
  lemma {:induction false} NextMarked(leaves: seq<Entry<Path>>, c: nat, t: nat) returns (d: nat)
    requires Apart(leaves) && forall k :: 0 <= k < |leaves| ==> leaves[k].key != []
    requires EndUpAmong(leaves, Taken(leaves)) && c < |leaves| && Relevant(leaves[c].key)
    requires t < |leaves[c].key| && !PlainSegment(leaves[c].key[t])
    requires forall k :: 0 <= k < t ==> PlainSegment(leaves[c].key[k])
    ensures d < |leaves| && Relevant(leaves[d].key) && t < |leaves[d].key|
    ensures '.' !in leaves[d].key[t] && !PlainSegment(leaves[d].key[t])
    ensures forall k :: 0 <= k < t ==> PlainSegment(leaves[d].key[k])
    ensures '.' !in leaves[c].key[t] ==> |leaves[d].key[t]| > |leaves[c].key[t]|
  {
    var ts, q := Taken(leaves), leaves[c].key;
    TakenOk(leaves);
    var i := CameraLeafIsTaken(leaves, c);
    var m := StaysAbove(ts, i);
    var v := ts[m].key;
    d :| 0 <= d < |leaves| && leaves[d] == Entry(SplitPath(v), ts[m].value);
    TakenIff(v);
    KeyPathIsJoined(v);
    assert v == q[..|v|];
    ReachesMarked(leaves, c, t, v, d);
    SplitAfterPlain(v, t);
    assert leaves[d].key[..t] == v[..t];
    forall k | 0 <= k < t ensures PlainSegment(leaves[d].key[k]) {
      assert leaves[d].key[k] == leaves[d].key[..t][k] == v[..t][k] == q[k];
    }
    EscapeLength(v[t]);
  }

  /** The path behind a camera leaf does not end before the marked segment. */
  lemma {:induction false} ReachesMarked(leaves: seq<Entry<Path>>, c: nat, t: nat, v: Path, d: nat)
    requires Apart(leaves) && c < |leaves| && d < |leaves| && t < |leaves[c].key|
    requires forall k :: 0 <= k < t ==> PlainSegment(leaves[c].key[k])
    requires Anchored(v) && v <= leaves[c].key && leaves[d].key == SplitPath(v)
    ensures |v| > t
  {
    if |v| <= t {
      forall s | s in v ensures PlainSegment(s) {
        var k :| 0 <= k < |v| && v[k] == s;
        assert leaves[c].key[k] == s;
      }
      PlainSplit(v);
    }
  }

  lemma {:induction false} NoMarkedChain(leaves: seq<Entry<Path>>, c: nat, t: nat)
    requires Apart(leaves) && forall k :: 0 <= k < |leaves| ==> leaves[k].key != []
    requires EndUpAmong(leaves, Taken(leaves)) && c < |leaves| && Relevant(leaves[c].key)
    requires t < |leaves[c].key| && '.' !in leaves[c].key[t]
    requires forall k :: 0 <= k < t ==> PlainSegment(leaves[c].key[k])
    ensures PlainSegment(leaves[c].key[t])
    decreases Longest(leaves) - |leaves[c].key[t]|
  {
    LongestBounds(leaves, c, t);
    if !PlainSegment(leaves[c].key[t]) {
      var d := NextMarked(leaves, c, t);
      LongestBounds(leaves, d, t);
      NoMarkedChain(leaves, d, t);
    }
  }

  lemma {:induction false} SegmentIsPlain(leaves: seq<Entry<Path>>, c: nat, t: nat)
    requires Apart(leaves) && forall k :: 0 <= k < |leaves| ==> leaves[k].key != []
    requires EndUpAmong(leaves, Taken(leaves)) && c < |leaves| && Relevant(leaves[c].key)
    requires t < |leaves[c].key| && forall k :: 0 <= k < t ==> PlainSegment(leaves[c].key[k])
    ensures PlainSegment(leaves[c].key[t])
  {
    if !PlainSegment(leaves[c].key[t]) {
      var d := NextMarked(leaves, c, t);
      NoMarkedChain(leaves, d, t);
    }
  }

  lemma {:induction false} CamerasArePlain(leaves: seq<Entry<Path>>, c: nat, t: nat)
    requires Apart(leaves) && forall k :: 0 <= k < |leaves| ==> leaves[k].key != []
    requires EndUpAmong(leaves, Taken(leaves)) && c < |leaves| && Relevant(leaves[c].key)
    requires t <= |leaves[c].key|
    ensures forall k :: 0 <= k < t ==> PlainSegment(leaves[c].key[k])
    decreases t
  {
    if t > 0 {
      CamerasArePlain(leaves, c, t - 1);
      SegmentIsPlain(leaves, c, t - 1);
    }
  }

  /** A taken path that ends up where a camera leaf is, all of these being plain, is that leaf's. */
  lemma {:induction false} EndsUpAtOwnPath(leaves: seq<Entry<Path>>, v: Path, c: nat)
    requires Apart(leaves) && forall k :: 0 <= k < |leaves| ==> leaves[k].key != []
    requires EndUpAmong(leaves, Taken(leaves)) && Anchored(v) && TakenForCamera(v)
    requires c < |leaves| && leaves[c].key == SplitPath(v)
    ensures v == leaves[c].key && OfCamera(leaves, v) && PlainPath(v)
  {
    TakenIff(v);
    var q := leaves[c].key;
    CamerasArePlain(leaves, c, |q|);
    forall s | s in q ensures PlainSegment(s) {
      var k :| 0 <= k < |q| && q[k] == s;
    }
    PlainSplit(q);
    SplitInjective(v, q);
  }

  // ---------------------------------------------------------------- the round trip

  lemma {:induction false} ConditionIsEnough(leaves: seq<Entry<Path>>)
    requires Apart(leaves) && forall k :: 0 <= k < |leaves| ==> leaves[k].key != []
    requires ComesBack(leaves, Taken(leaves))
    ensures SameLeaves(leaves, Taken(leaves)) && !Fails(Taken(leaves))
  {
    var ts := Taken(leaves);
    TakenOk(leaves);
    if i, j :| 0 <= i < j < |ts| && Below(ts[i].key, ts[j].key) {
      ConditionAvoidsFailure(leaves, ts, i, j);
    }
    forall i | 0 <= i < |ts| && Stays(ts, i) ensures Entry(SplitPath(ts[i].key), ts[i].value) in leaves {
      CamerasStay(leaves, ts, i);
      var c :| 0 <= c < |leaves| && leaves[c].key == ts[i].key && Relevant(ts[i].key);
      var k :| 0 <= k < |ts| && ts[k] == leaves[c];
      PlainSplit(ts[i].key);
      assert k == i;
    }
    forall c | 0 <= c < |leaves| && Relevant(leaves[c].key)
      ensures exists i :: 0 <= i < |ts| && Stays(ts, i) && Entry(SplitPath(ts[i].key), ts[i].value) == leaves[c]
    {
      var i :| 0 <= i < |ts| && ts[i] == leaves[c];
      CamerasStay(leaves, ts, i);
      PlainSplit(ts[i].key);
    }
  }

  lemma {:induction false} ConditionIsNeeded(leaves: seq<Entry<Path>>)
    requires Apart(leaves) && forall k :: 0 <= k < |leaves| ==> leaves[k].key != []
    requires SameLeaves(leaves, Taken(leaves)) && !Fails(Taken(leaves))
    ensures ComesBack(leaves, Taken(leaves))
  {
    var ts := Taken(leaves);
    TakenOk(leaves);
    forall c | 0 <= c < |leaves| && Relevant(leaves[c].key) ensures PlainPath(leaves[c].key) && leaves[c] in ts {
      var i :| 0 <= i < |ts| && Stays(ts, i) && Entry(SplitPath(ts[i].key), ts[i].value) == leaves[c];
      EndsUpAtOwnPath(leaves, ts[i].key, c);
      assert ts[i] == leaves[c];
    }
    forall i | 0 <= i < |ts| && !OfCamera(leaves, ts[i].key) ensures OverwrittenByCamera(leaves, ts, i) {
      var m := StaysAbove(ts, i);
      var c :| 0 <= c < |leaves| && leaves[c] == Entry(SplitPath(ts[m].key), ts[m].value);
      EndsUpAtOwnPath(leaves, ts[m].key, c);
    }
  }

  /** Nested data, flattened, taken apart at the dots and grouped, leaves exactly the values meant for the
      cameras' sections if and only if it meets the condition. */
  lemma {:induction false} NestedDataComesBackIff(data: Data)
    requires data.Valid()
    ensures var leaves := LeavesOf(data, []);
            Grouped(Updates(data), |Updates(data)|) == Some(CameraLeaves(leaves, |leaves|))
            <==> ComesBack(leaves, Taken(leaves))
  {
    var leaves := LeavesOf(data, []);
    var ts := Taken(leaves);
    LeavesAreApart(data, []);
    UpdatesAreTaken(data);
    TakenOk(leaves);
    UpdatesDiffer(ts);
    GroupingOutcome(SplitAll(ts), |ts|);
    FailsIffBlocked(ts);
    SameLeavesIff(leaves, ts);
    if SameLeaves(leaves, ts) && !Fails(ts) {
      ConditionIsNeeded(leaves);
    }
    if ComesBack(leaves, ts) {
      ConditionIsEnough(leaves);
    }
  }

  // ---------------------------------------------------------------- keys that collide

  /** `cameras` with one value in a camera's section, and a blank key with the same within it. */
  function ForCamera(value: Value): Data { Dict("c", Item("s", value, End), End) }

  function BlankFirst(v: Value, w: Value): Data {
    Dict("", Dict("cameras", ForCamera(v), End), Dict("cameras", ForCamera(w), End))
  }

  function BlankLast(v: Value, w: Value): Data {
    Dict("cameras", ForCamera(w), Dict("", Dict("cameras", ForCamera(v), End), End))
  }

  function Blank(v: Value): Entry<Path> { Entry(["", "cameras", "c", "s"], v) }

  function Camera(v: Value): Entry<Path> { Entry(["cameras", "c", "s"], v) }

  lemma {:induction false} LeavesOfOne(key: string, sub: Data, path: Path)
    ensures LeavesOf(Dict(key, sub, End), path) == LeavesOf(sub, path + [key])
    ensures Dict(key, sub, End).Valid() <==> sub.Valid()
  {
    assert LeavesOf(End, path) == [];
    assert End.Keys() == {} && End.Valid();
  }

  lemma {:induction false} LeavesOfTwo(a: string, sub: Data, b: string, other: Data)
    requires a != b
    ensures LeavesOf(Dict(a, sub, Dict(b, other, End)), []) == LeavesOf(sub, [a]) + LeavesOf(other, [b])
    ensures Dict(a, sub, Dict(b, other, End)).Valid() <==> sub.Valid() && other.Valid()
  {
    LeavesOfOne(b, other, []);
    assert [] + [a] == [a] && [] + [b] == [b];
    assert Dict(b, other, End).Keys() == {b} + End.Keys() == {b};
  }

  lemma {:induction false} LeavesOfCamera(v: Value, path: Path)
    ensures LeavesOf(ForCamera(v), path) == [Entry(path + ["c", "s"], v)] && ForCamera(v).Valid()
  {
    var item := Item("s", v, End);
    LeavesOfOne("c", item, path);
    assert LeavesOf(End, path + ["c"]) == [];
    assert path + ["c"] + ["s"] == path + ["c", "s"];
    assert End.Keys() == {} && item.Valid();
  }

  lemma {:induction false} LeavesOfBoth(v: Value, w: Value)
    ensures LeavesOf(BlankFirst(v, w), []) == [Blank(v), Camera(w)] && BlankFirst(v, w).Valid()
    ensures LeavesOf(BlankLast(v, w), []) == [Camera(w), Blank(v)] && BlankLast(v, w).Valid()
  {
    var within := Dict("cameras", ForCamera(v), End);
    LeavesOfCamera(v, ["", "cameras"]);
    LeavesOfCamera(w, ["cameras"]);
    LeavesOfOne("cameras", ForCamera(v), [""]);
    assert [""] + ["cameras"] == ["", "cameras"];
    LeavesOfTwo("", within, "cameras", ForCamera(w));
    LeavesOfTwo("cameras", ForCamera(w), "", within);
    assert ["", "cameras"] + ["c", "s"] == Blank(v).key && ["cameras"] + ["c", "s"] == Camera(w).key;
  }

  lemma {:induction false} MergeTwo<K>(a: Entry<K>, b: Entry<K>)
    requires a.key == b.key
    ensures Merge([a, b]) == [b]
  {
    var none: seq<Entry<K>> := [];
    assert [a, b][..1] == [a] && [a][..0] == none;
    assert Merge([a]) == Put(none, a) == [a];
    assert [a][0].key == b.key;
    assert Replaced([a], b) == [b];
  }

  lemma {:induction false} CollidingPaths(v: Value)
    ensures VisiblePath(Camera(v).key) == VisiblePath(Blank(v).key) == Camera(v).key
    ensures TakenForCamera(Camera(v).key) && PlainPath(Camera(v).key)
    ensures Relevant(Camera(v).key) && !Relevant(Blank(v).key)
  {
    assert Blank(v).key[1..] == Camera(v).key;
    CamerasIsPlain("cameras");
  }

  /** Of two leaves with colliding flat keys the later one's value is left. */
  lemma {:induction false} LaterOneWins(a: Entry<Path>, b: Entry<Path>)
    requires VisiblePath(a.key) == VisiblePath(b.key) == Camera(b.value).key
    ensures Taken([a, b]) == [Camera(b.value)]
  {
    CollidingPaths(b.value);
    assert MapKeys([a, b], VisiblePath) == [Camera(a.value), Camera(b.value)];
    MergeTwo(Camera(a.value), Camera(b.value));
    assert TakenAmong([Camera(b.value)], 0) == [];
    assert TakenAmong([Camera(b.value)], 1) == [] + [Camera(b.value)];
  }

  /** A blank key before `cameras` gives the flat keys of a camera's values again.  Coming first, its value is
      overwritten and the data comes back. */
  lemma {:induction false} BlankFirstComesBack(v: Value, w: Value)
    ensures var leaves := LeavesOf(BlankFirst(v, w), []);
            Grouped(Updates(BlankFirst(v, w)), |Updates(BlankFirst(v, w))|) == Some(CameraLeaves(leaves, |leaves|))
  {
    CollidingPaths(v);
    CollidingPaths(w);
    LeavesOfBoth(v, w);
    LaterOneWins(Blank(v), Camera(w));
    var leaves, ts := [Blank(v), Camera(w)], [Camera(w)];
    assert leaves[1] == Camera(w) && OfCamera(leaves, Camera(w).key);
    assert ComesBack(leaves, ts);
    NestedDataComesBackIff(BlankFirst(v, w));
  }

  /** Coming last, it overwrites the camera's value and the data does not come back. */
  lemma {:induction false} BlankLastDoesNot(v: Value, w: Value)
    requires v != w
    ensures var leaves := LeavesOf(BlankLast(v, w), []);
            Grouped(Updates(BlankLast(v, w)), |Updates(BlankLast(v, w))|) != Some(CameraLeaves(leaves, |leaves|))
  {
    CollidingPaths(v);
    CollidingPaths(w);
    LeavesOfBoth(v, w);
    LaterOneWins(Camera(w), Blank(v));
    var leaves, ts := [Camera(w), Blank(v)], [Camera(v)];
    assert leaves[0] == Camera(w) && leaves[0] !in ts;
    assert !ComesBack(leaves, ts);
    NestedDataComesBackIff(BlankLast(v, w));
  }
}
