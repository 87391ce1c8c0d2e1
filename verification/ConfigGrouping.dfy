/** Grouping flat key paths into nested dictionaries (frigate/api/app.py, `_config_set_in_memory`).

    The dictionaries are objects that refer to one another: here they live in an arena and refer to each
    other by index, so that walking down with `setdefault` and assigning through the reference reached is
    modelled as it happens.  Dictionary 0 is the root. */
module ConfigGrouping {
  import opened Common
  import opened ConfigPaths

  /** A scalar of the configuration, in its printed form. */
  type Value = string

  /** A dictionary value: a scalar, or a reference to another dictionary. */
  datatype Node = Scalar(value: Value) | Sub(id: nat)

  type Dict = map<string, Node>

  /** Dictionary `i` refers to dictionary `id` under key `k`. */
  predicate RefersTo(dicts: seq<Dict>, i: nat, k: string, id: nat) {
    i < |dicts| && k in dicts[i] && dicts[i][k].Sub? && dicts[i][k].id == id
  }

  /** References go to dictionaries created later, and no dictionary is referred to twice: the dictionaries
      form a tree. */
  ghost predicate Tree(dicts: seq<Dict>) {
    && dicts != []
    && (forall i: nat, k, id: nat :: RefersTo(dicts, i, k, id) ==> i < id < |dicts|)
    && (forall i: nat, k, j: nat, l, id: nat ::
          RefersTo(dicts, i, k, id) && RefersTo(dicts, j, l, id) ==> i == j && k == l)
  }

  /** One step down from what has been reached. */
  function Child(dicts: seq<Dict>, at: Option<Node>, k: string): Option<Node> {
    if at.Some? && at.value.Sub? && at.value.id < |dicts| && k in dicts[at.value.id] then Some(dicts[at.value.id][k])
    else None
  }

  /** What is found by following a path from the root. */
  function Lookup(dicts: seq<Dict>, path: Path): Option<Node> {
    if path == [] then Some(Sub(0)) else Child(dicts, Lookup(dicts, path[..|path| - 1]), path[|path| - 1])
  }

  /** The scalars of the nested dictionaries, by path. */
  ghost predicate HasLeaf(dicts: seq<Dict>, path: Path, v: Value) {
    Lookup(dicts, path) == Some(Scalar(v))
  }

  lemma {:induction false} LookupSnoc(dicts: seq<Dict>, path: Path, k: string)
    ensures Lookup(dicts, path + [k]) == Child(dicts, Lookup(dicts, path), k)
  {
    assert (path + [k])[..|path|] == path;
  }

  lemma {:induction false} LookupInArena(dicts: seq<Dict>, path: Path)
    requires Tree(dicts)
    ensures Lookup(dicts, path).Some? && Lookup(dicts, path).value.Sub? ==> Lookup(dicts, path).value.id < |dicts|
    ensures Lookup(dicts, path) == Some(Sub(0)) ==> path == []
  {
    if path != [] {
      LookupInArena(dicts, path[..|path| - 1]);
      if Lookup(dicts, path).Some? && Lookup(dicts, path).value.Sub? {
        LastStep(dicts, path);
      }
    }
  }

  /** A dictionary is reached through the one reference to it. */
  lemma {:induction false} LastStep(dicts: seq<Dict>, path: Path)
    requires path != [] && Lookup(dicts, path).Some? && Lookup(dicts, path).value.Sub?
    ensures var at := Lookup(dicts, path[..|path| - 1]);
            at.Some? && at.value.Sub? && RefersTo(dicts, at.value.id, path[|path| - 1], Lookup(dicts, path).value.id)
  {
  }

  /** No two paths reach the same dictionary. */
  lemma {:induction false} OnePathEach(dicts: seq<Dict>, p: Path, q: Path)
    requires Tree(dicts)
    requires Lookup(dicts, p).Some? && Lookup(dicts, p).value.Sub? && Lookup(dicts, p) == Lookup(dicts, q)
    ensures p == q
  {
    if p == [] {
      LookupInArena(dicts, q);
    } else if q == [] {
      LookupInArena(dicts, p);
    } else {
      LastStep(dicts, p);
      LastStep(dicts, q);
      OnePathEach(dicts, p[..|p| - 1], q[..|q| - 1]);
      assert p == p[..|p| - 1] + [p[|p| - 1]] && q == q[..|q| - 1] + [q[|q| - 1]];
    }
  }

  /** Assigning a scalar in the dictionary reached by `pre`: the path of the assigned key now leads to it,
      nothing is found below it, and every other path leads where it did. */
  lemma {:induction false} AssignScalar(dicts: seq<Dict>, t: nat, pre: Path, k: string, v: Value, p: Path)
    requires Tree(dicts) && t < |dicts| && Lookup(dicts, pre) == Some(Sub(t))
    ensures Lookup(dicts[t := dicts[t][k := Scalar(v)]], p) ==
              if p == pre + [k] then Some(Scalar(v))
              else if pre + [k] < p then None
              else Lookup(dicts, p)
  {
    var after := dicts[t := dicts[t][k := Scalar(v)]];
    if p != [] {
      var init, last := p[..|p| - 1], p[|p| - 1];
      assert p == init + [last];
      AssignScalar(dicts, t, pre, k, v, init);
      LookupInArena(dicts, init);
      if init == pre {
        assert !(pre + [k] < p);
      } else if Lookup(dicts, init) == Some(Sub(t)) {
        OnePathEach(dicts, init, pre);
      }
      assert pre + [k] < p <==> pre + [k] <= init;
    }
  }

  lemma AssignScalarKeepsTree(dicts: seq<Dict>, t: nat, k: string, v: Value)
    requires Tree(dicts) && t < |dicts|
    ensures Tree(dicts[t := dicts[t][k := Scalar(v)]])
  {
    var after := dicts[t := dicts[t][k := Scalar(v)]];
    assert forall i: nat, l, id: nat :: RefersTo(after, i, l, id) ==> RefersTo(dicts, i, l, id);
  }

  /** `setdefault` on a key that is not there: a new, empty dictionary appears at the key's path, and every
      other path leads where it did. */
  lemma {:induction false} AddDict(dicts: seq<Dict>, t: nat, pre: Path, k: string, p: Path)
    requires Tree(dicts) && t < |dicts| && Lookup(dicts, pre) == Some(Sub(t)) && k !in dicts[t]
    ensures Lookup(dicts[t := dicts[t][k := Sub(|dicts|)]] + [map[]], p) ==
              if p == pre + [k] then Some(Sub(|dicts|)) else Lookup(dicts, p)
  {
    var after := dicts[t := dicts[t][k := Sub(|dicts|)]] + [map[]];
    if p != [] {
      var init, last := p[..|p| - 1], p[|p| - 1];
      assert p == init + [last];
      AddDict(dicts, t, pre, k, init);
      LookupInArena(dicts, init);
      LookupSnoc(dicts, pre, k);
      if Lookup(dicts, init) == Some(Sub(t)) {
        OnePathEach(dicts, init, pre);
      }
    }
  }

  lemma AddDictKeepsTree(dicts: seq<Dict>, t: nat, k: string)
    requires Tree(dicts) && t < |dicts| && k !in dicts[t]
    ensures Tree(dicts[t := dicts[t][k := Sub(|dicts|)]] + [map[]])
  {
    var after := dicts[t := dicts[t][k := Sub(|dicts|)]] + [map[]];
    assert forall i: nat, l, id: nat :: RefersTo(after, i, l, id) ==>
                                          RefersTo(dicts, i, l, id) || (i == t && l == k && id == |dicts|);
  }

  // ---------------------------------------------------------------- the leaves, on values

  type Leaves = map<Path, Value>

  predicate Below(p: Path, q: Path) { p < q }

  /** Setting one path: impossible below a scalar; a scalar set above others replaces them. */
  function Place(leaves: Leaves, path: Path, v: Value): Option<Leaves> {
    if exists q :: q in leaves && Below(q, path) then None
    else Some((map p | p in leaves && !Below(path, p) :: leaves[p])[path := v])
  }

  datatype Update = Update(path: Path, value: Value)

  /** The leaves after the first `n` updates, unless one of them was impossible. */
  function Grouped(us: seq<Update>, n: nat): Option<Leaves>
    requires n <= |us|
  {
    if n == 0 then Some(map[])
    else
      var before := Grouped(us, n - 1);
      if before.None? then None else Place(before.value, us[n - 1].path, us[n - 1].value)
  }

  /** The dictionaries hold exactly these leaves. */
  ghost predicate Holds(dicts: seq<Dict>, leaves: Leaves) {
    forall p, v :: HasLeaf(dicts, p, v) <==> p in leaves && leaves[p] == v
  }

  lemma LeafAt(dicts: seq<Dict>, leaves: Leaves, p: Path)
    requires Holds(dicts, leaves)
    ensures p in leaves <==> Lookup(dicts, p).Some? && Lookup(dicts, p).value.Scalar?
  {
    if p in leaves {
      assert HasLeaf(dicts, p, leaves[p]);
    }
    if Lookup(dicts, p).Some? && Lookup(dicts, p).value.Scalar? {
      assert HasLeaf(dicts, p, Lookup(dicts, p).value.value);
    }
  }

  // ---------------------------------------------------------------- the walk, in place

  class Dictionaries {
    var dicts: seq<Dict>

    constructor ()
      ensures dicts == [map[]]
    {
      dicts := [map[]];
    }

    /** `target.setdefault(key, {})`, where `pre` leads to the target. */
    method SetDefault(t: nat, key: string, ghost pre: Path) returns (node: Node)
      requires Tree(dicts) && t < |dicts| && Lookup(dicts, pre) == Some(Sub(t))
      modifies this
      ensures Tree(dicts) && Lookup(dicts, pre + [key]) == Some(node)
      ensures node.Scalar? ==> HasLeaf(old(dicts), pre + [key], node.value)
      ensures node.Sub? ==> node.id < |dicts|
      ensures Lookup(dicts, pre) == Some(Sub(t))
      ensures forall p, v :: HasLeaf(dicts, p, v) <==> HasLeaf(old(dicts), p, v)
    {
      LookupSnoc(dicts, pre, key);
      if key !in dicts[t] {
        AddDictKeepsTree(dicts, t, key);
        LookupInArena(dicts, pre);
        ghost var after := dicts[t := dicts[t][key := Sub(|dicts|)]] + [map[]];
        forall p, v ensures HasLeaf(after, p, v) <==> HasLeaf(dicts, p, v) {
          AddDict(dicts, t, pre, key, p);
        }
        AddDict(dicts, t, pre, key, pre);
        dicts := dicts[t := dicts[t][key := Sub(|dicts|)]] + [map[]];
      }
      node := dicts[t][key];
      LookupSnoc(dicts, pre, key);
      LookupInArena(dicts, pre + [key]);
    }

    /** `target[key] = value`, where `pre` leads to the target. */
    method Assign(t: nat, key: string, value: Value, ghost pre: Path)
      requires Tree(dicts) && t < |dicts| && Lookup(dicts, pre) == Some(Sub(t))
      modifies this
      ensures Tree(dicts)
      ensures forall p, v :: HasLeaf(dicts, p, v) <==>
                if p == pre + [key] then v == value else !Below(pre + [key], p) && HasLeaf(old(dicts), p, v)
    {
      AssignScalarKeepsTree(dicts, t, key, value);
      ghost var after := dicts[t := dicts[t][key := Scalar(value)]];
      forall p, v ensures HasLeaf(after, p, v) <==>
          if p == pre + [key] then v == value else !Below(pre + [key], p) && HasLeaf(dicts, p, v)
      {
        AssignScalar(dicts, t, pre, key, value, p);
      }
      dicts := dicts[t := dicts[t][key := Scalar(value)]];
    }

    /** Sets the value at a path of at least two keys (camera, section, and what follows).  False stands for
        the error raised when the walk meets a scalar; `leaves` are those held before. */
    method SetPath(path: Path, value: Value, ghost leaves: Leaves) returns (ok: bool)
      requires Tree(dicts) && Holds(dicts, leaves) && |path| >= 2
      modifies this
      ensures Tree(dicts)
      ensures ok <==> Place(leaves, path, value).Some?
      ensures ok ==> Holds(dicts, Place(leaves, path, value).value)
      ensures !ok ==> Holds(dicts, leaves)
    {
      var target: nat := 0;
      var node;
      assert path[..0] == [];
      LeafAt(dicts, leaves, []);
      var i := 0;
      while i < |path| - 1
        invariant 0 <= i <= |path| - 1
        invariant Tree(dicts) && Holds(dicts, leaves)
        invariant target < |dicts| && Lookup(dicts, path[..i]) == Some(Sub(target))
        invariant forall j :: 0 <= j <= i ==> path[..j] !in leaves
      {
        node := SetDefault(target, path[i], path[..i]);
        assert path[..i] + [path[i]] == path[..i + 1];
        if node.Scalar? {
          LeafAt(dicts, leaves, path[..i + 1]);
          assert path[..i + 1] in leaves && Below(path[..i + 1], path);
          return false;
        }
        LeafAt(dicts, leaves, path[..i + 1]);
        target, i := node.id, i + 1;
      }
      forall q | Below(q, path) ensures q !in leaves {
        assert q == path[..|q|];
      }
      Assign(target, path[i], value, path[..i]);
      assert path[..i] + [path[i]] == path;
      return true;
    }
  }

  // ---------------------------------------------------------------- the loop over the flat keys

  datatype Flat = Flat(key: string, value: Value)

  /** The keys that matter: `cameras`, a camera and a section, at least. */
  predicate Relevant(parts: Path) { |parts| >= 3 && parts[0] == "cameras" }

  /** The updates made for the first `n` flat keys, the leading `cameras` left out. */
  function UpdatesOf(flats: seq<Flat>, n: nat): (us: seq<Update>)
    requires n <= |flats|
    ensures forall u :: u in us ==> |u.path| >= 2
  {
    if n == 0 then []
    else
      var before, parts := UpdatesOf(flats, n - 1), SplitDots(flats[n - 1].key, "");
      if Relevant(parts) then before + [Update(parts[1..], flats[n - 1].value)] else before
  }

  lemma {:induction false} GroupedPrefix(us: seq<Update>, more: seq<Update>, n: nat)
    requires n <= |us|
    ensures Grouped(us + more, n) == Grouped(us, n)
  {
    if n > 0 {
      GroupedPrefix(us, more, n - 1);
    }
  }

  /** The leaves after the first `n` flat keys. */
  function GroupedFlats(flats: seq<Flat>, n: nat): Option<Leaves>
    requires n <= |flats|
  {
    Grouped(UpdatesOf(flats, n), |UpdatesOf(flats, n)|)
  }

  /** One more flat key: passed over, or set at its path. */
  method ApplyFlat(grouped: Dictionaries, flats: seq<Flat>, i: nat) returns (ok: bool)
    requires i < |flats| && GroupedFlats(flats, i).Some?
    requires Tree(grouped.dicts) && Holds(grouped.dicts, GroupedFlats(flats, i).value)
    modifies grouped
    ensures ok <==> GroupedFlats(flats, i + 1).Some?
    ensures ok ==> Tree(grouped.dicts) && Holds(grouped.dicts, GroupedFlats(flats, i + 1).value)
  {
    var parts := SplitDots(flats[i].key, "");
    if |parts| < 3 || parts[0] != "cameras" {
      return true;
    }
    ghost var us := UpdatesOf(flats, i);
    GroupedPrefix(us, [Update(parts[1..], flats[i].value)], |us|);
    ok := grouped.SetPath(parts[1..], flats[i].value, GroupedFlats(flats, i).value);
  }

  /** Groups the flat keys in the order given; false stands for the error that ends the request. */
  method GroupUpdates(grouped: Dictionaries, flats: seq<Flat>) returns (ok: bool)
    requires grouped.dicts == [map[]]
    modifies grouped
    ensures ok <==> GroupedFlats(flats, |flats|).Some?
    ensures ok ==> Tree(grouped.dicts) && Holds(grouped.dicts, GroupedFlats(flats, |flats|).value)
  {
    NothingInEmpty(grouped.dicts);
    for i := 0 to |flats|
      invariant GroupedFlats(flats, i).Some?
      invariant Tree(grouped.dicts) && Holds(grouped.dicts, GroupedFlats(flats, i).value)
    {
      ok := ApplyFlat(grouped, flats, i);
      if !ok {
        NoneStaysNone(flats, i + 1);
        return false;
      }
    }
    return true;
  }

  lemma {:induction false} NothingInEmpty(dicts: seq<Dict>)
    requires dicts == [map[]]
    ensures Tree(dicts) && Holds(dicts, map[])
  {
    forall p, v ensures !HasLeaf(dicts, p, v) {
      if p != [] && Lookup(dicts, p[..|p| - 1]).Some? && Lookup(dicts, p[..|p| - 1]).value.Sub? {
        LookupInArena(dicts, p[..|p| - 1]);
      }
    }
  }

  /** An update that fails makes the whole grouping fail. */
  lemma {:induction false} NoneStaysNone(flats: seq<Flat>, n: nat)
    requires n <= |flats| && GroupedFlats(flats, n).None?
    ensures GroupedFlats(flats, |flats|).None?
    decreases |flats| - n
  {
    if n < |flats| {
      var us, parts := UpdatesOf(flats, n), SplitDots(flats[n].key, "");
      GroupedPrefix(us, [Update(parts[1..], flats[n].value)], |us|);
      NoneStaysNone(flats, n + 1);
    }
  }

  // ---------------------------------------------------------------- when nothing is lost

  /** All updates are there and nothing else is. */
  ghost predicate Exact(us: seq<Update>) {
    && Grouped(us, |us|).Some?
    && (forall i :: 0 <= i < |us| ==>
          us[i].path in Grouped(us, |us|).value && Grouped(us, |us|).value[us[i].path] == us[i].value)
    && (forall p :: p in Grouped(us, |us|).value ==> exists i :: 0 <= i < |us| && us[i].path == p)
  }

  ghost predicate PrefixFree(us: seq<Update>) {
    forall i, j :: 0 <= i < |us| && 0 <= j < |us| ==> !Below(us[i].path, us[j].path)
  }

  ghost predicate DistinctPaths(us: seq<Update>) {
    forall i, j :: 0 <= i < j < |us| ==> us[i].path != us[j].path
  }

  /** The updates as a map. */
  function AsMap(us: seq<Update>, n: nat): Leaves
    requires n <= |us|
  {
    if n == 0 then map[] else AsMap(us, n - 1)[us[n - 1].path := us[n - 1].value]
  }

  lemma {:induction false} AsMapHolds(us: seq<Update>, n: nat)
    requires n <= |us| && DistinctPaths(us)
    ensures forall i :: 0 <= i < n ==> us[i].path in AsMap(us, n) && AsMap(us, n)[us[i].path] == us[i].value
    ensures forall p :: p in AsMap(us, n) ==> exists i :: 0 <= i < n && us[i].path == p
  {
    if n > 0 {
      AsMapHolds(us, n - 1);
    }
  }

  lemma {:induction false} PrefixFreeGroups(us: seq<Update>, n: nat)
    requires n <= |us| && PrefixFree(us) && DistinctPaths(us)
    ensures Grouped(us, n) == Some(AsMap(us, n))
  {
    if n > 0 {
      PrefixFreeGroups(us, n - 1);
      ApartFromEarlier(us, n - 1);
      PlaceApart(AsMap(us, n - 1), us[n - 1].path, us[n - 1].value);
    }
  }

  lemma ApartFromEarlier(us: seq<Update>, n: nat)
    requires n < |us| && PrefixFree(us) && DistinctPaths(us)
    ensures forall q :: q in AsMap(us, n) ==> !Below(q, us[n].path) && !Below(us[n].path, q)
  {
    AsMapHolds(us, n);
  }

  /** Placing a path apart from all others just adds it. */
  lemma PlaceApart(leaves: Leaves, path: Path, v: Value)
    requires forall q :: q in leaves ==> !Below(q, path) && !Below(path, q)
    ensures Place(leaves, path, v) == Some(leaves[path := v])
  {
    assert (map p | p in leaves && !Below(path, p) :: leaves[p]) == leaves;
  }

  /** What a successful update takes away. */
  lemma {:induction false} PlaceClears(leaves: Leaves, path: Path, v: Value, q: Path)
    requires Place(leaves, path, v).Some?
    ensures Below(q, path) ==> q !in leaves
    ensures Below(path, q) ==> q !in Place(leaves, path, v).value
    ensures q != path && q !in leaves ==> q !in Place(leaves, path, v).value
  {
  }

  /** If one path continues another, then whichever is set first is lost once the second has been set, if it
      could be set; and what is lost stays lost. */
  lemma {:induction false} ClashLosesALeaf(us: seq<Update>, first: nat, second: nat, n: nat)
    requires first < second < n <= |us| && DistinctPaths(us) && Grouped(us, n).Some?
    requires Below(us[first].path, us[second].path) || Below(us[second].path, us[first].path)
    ensures us[first].path !in Grouped(us, n).value
  {
    if n > second + 1 {
      ClashLosesALeaf(us, first, second, n - 1);
    }
    PlaceClears(Grouped(us, n - 1).value, us[n - 1].path, us[n - 1].value, us[first].path);
  }

  /** Grouping distinct paths, in whatever order they come, succeeds and gives exactly the updates, no leaf
      lost, merged or invented, if and only if no path continues another. */
  lemma ExactIffPrefixFree(us: seq<Update>)
    requires DistinctPaths(us)
    ensures Exact(us) <==> PrefixFree(us)
  {
    if PrefixFree(us) {
      PrefixFreeGroups(us, |us|);
      AsMapHolds(us, |us|);
    } else {
      var i, j :| 0 <= i < |us| && 0 <= j < |us| && Below(us[i].path, us[j].path);
      if Grouped(us, |us|).Some? {
        ClashLosesALeaf(us, Min(i, j), if i < j then j else i, |us|);
      }
    }
  }

  /** Update `i` is not overwritten by a later one whose path it continues. */
  ghost predicate Survives(us: seq<Update>, i: nat, n: nat)
    requires i < n <= |us|
  {
    forall j :: i < j < n ==> !Below(us[j].path, us[i].path)
  }

  /** Some update continues the path of an earlier one. */
  ghost predicate Blocked(us: seq<Update>, n: nat)
    requires n <= |us|
  {
    exists i, j :: 0 <= i < j < n && Below(us[i].path, us[j].path)
  }

  /** A path above that of update `k`, set before it, is still there, or another one above it is. */
  lemma {:induction false} BlockerStays(us: seq<Update>, i: nat, k: nat) returns (b: nat)
    requires i < k < |us| && Below(us[i].path, us[k].path)
    ensures b < k && Below(us[b].path, us[k].path) && Survives(us, b, k)
    decreases |us[i].path|
  {
    if Survives(us, i, k) {
      b := i;
    } else {
      var j :| i < j < k && Below(us[j].path, us[i].path);
      b := BlockerStays(us, j, k);
    }
  }

  /** The first `n` updates without those overwritten by a later one whose path they continue. */
  function Surviving(us: seq<Update>, n: nat): Leaves
    requires n <= |us|
  {
    if n == 0 then map[]
    else
      var before, u := Surviving(us, n - 1), us[n - 1];
      (map p | p in before && !Below(u.path, p) :: before[p])[u.path := u.value]
  }

  lemma {:induction false} SurvivingAt(us: seq<Update>, n: nat, i: nat)
    requires i < n <= |us| && DistinctPaths(us)
    ensures us[i].path in Surviving(us, n) <==> Survives(us, i, n)
    ensures us[i].path in Surviving(us, n) ==> Surviving(us, n)[us[i].path] == us[i].value
  {
    if i < n - 1 {
      SurvivingAt(us, n - 1, i);
    }
  }

  lemma {:induction false} SurvivingFrom(us: seq<Update>, n: nat, p: Path) returns (i: nat)
    requires n <= |us| && DistinctPaths(us) && p in Surviving(us, n)
    ensures i < n && us[i].path == p && Survives(us, i, n)
  {
    if p == us[n - 1].path {
      i := n - 1;
    } else {
      i := SurvivingFrom(us, n - 1, p);
    }
  }

  /** The outcome of grouping distinct paths, whatever they are: it fails if and only if an update continues the
      path of an earlier one; and otherwise what is left are the updates not overwritten by a later one. */
  lemma {:induction false} GroupingOutcome(us: seq<Update>, n: nat)
    requires n <= |us| && DistinctPaths(us)
    ensures Grouped(us, n) == if Blocked(us, n) then None else Some(Surviving(us, n))
  {
    if n > 0 {
      GroupingOutcome(us, n - 1);
      BlockedSnoc(us, n - 1);
      BlockedIffAbove(us, n - 1);
    }
  }

  /** Update `k` continues the path of an earlier one. */
  ghost predicate BlockedBy(us: seq<Update>, k: nat)
    requires k < |us|
  {
    exists i :: 0 <= i < k && Below(us[i].path, us[k].path)
  }

  lemma {:induction false} BlockedSnoc(us: seq<Update>, k: nat)
    requires k < |us|
    ensures Blocked(us, k + 1) <==> Blocked(us, k) || BlockedBy(us, k)
  {
  }

  lemma {:induction false} BlockedIffAbove(us: seq<Update>, k: nat)
    requires k < |us| && DistinctPaths(us)
    ensures BlockedBy(us, k) <==> exists q :: q in Surviving(us, k) && Below(q, us[k].path)
  {
    if i :| 0 <= i < k && Below(us[i].path, us[k].path) {
      var b := BlockerStays(us, i, k);
      SurvivingAt(us, k, b);
    }
    if q :| q in Surviving(us, k) && Below(q, us[k].path) {
      var i := SurvivingFrom(us, k, q);
    }
  }

  ghost predicate DistinctKeys(flats: seq<Flat>) {
    forall i, j :: 0 <= i < j < |flats| ==> flats[i].key != flats[j].key
  }

  /** The flat key behind an update. */
  lemma {:induction false} KeyOf(flats: seq<Flat>, n: nat, u: Update) returns (i: nat)
    requires n <= |flats| && u in UpdatesOf(flats, n)
    ensures i < n && flats[i] == Flat(Dotted(["cameras"] + u.path), u.value)
  {
    var parts := SplitDots(flats[n - 1].key, "");
    if u in UpdatesOf(flats, n - 1) {
      i := KeyOf(flats, n - 1, u);
    } else {
      i := n - 1;
      DottedSplit(flats[i].key, "");
      assert "" + flats[i].key == flats[i].key;
      assert ["cameras"] + parts[1..] == parts;
    }
  }

  lemma {:induction false} DistinctKeysDistinctPaths(flats: seq<Flat>, n: nat)
    requires n <= |flats| && DistinctKeys(flats)
    ensures DistinctPaths(UpdatesOf(flats, n))
  {
    if n > 0 {
      DistinctKeysDistinctPaths(flats, n - 1);
      var before, all := UpdatesOf(flats, n - 1), UpdatesOf(flats, n);
      forall u | u in before && |before| < |all| ensures u.path != all[|before|].path {
        var i := KeyOf(flats, n - 1, u);
        DottedSplit(flats[n - 1].key, "");
        assert "" + flats[n - 1].key == flats[n - 1].key;
        assert ["cameras"] + all[|before|].path == SplitDots(flats[n - 1].key, "");
      }
      assert forall i :: 0 <= i < |before| ==> before[i] in before;
    }
  }

  /** For the flat keys of a dictionary, whatever the order they come in: the grouping succeeds and holds
      exactly the values given for cameras if and only if no such key continues another. */
  lemma {:induction false} FlatKeysGroupExactlyIffPrefixFree(flats: seq<Flat>)
    requires DistinctKeys(flats)
    ensures Exact(UpdatesOf(flats, |flats|)) <==> PrefixFree(UpdatesOf(flats, |flats|))
  {
    DistinctKeysDistinctPaths(flats, |flats|);
    ExactIffPrefixFree(UpdatesOf(flats, |flats|));
  }

  /** What a prefix-free set of updates leaves behind, in terms of the updates only. */
  lemma {:induction false} GroupedElements(us: seq<Update>)
    requires PrefixFree(us) && DistinctPaths(us)
    ensures Grouped(us, |us|).Some?
    ensures forall u :: u in us ==> u.path in Grouped(us, |us|).value && Grouped(us, |us|).value[u.path] == u.value
    ensures forall p :: p in Grouped(us, |us|).value ==> exists u :: u in us && u.path == p
  {
    PrefixFreeGroups(us, |us|);
    AsMapHolds(us, |us|);
    forall p | p in Grouped(us, |us|).value ensures exists u :: u in us && u.path == p {
      var i :| 0 <= i < |us| && us[i].path == p;
      assert us[i] in us;
    }
  }

  /** The order of the updates does not matter when no path continues another. */
  lemma {:induction false} OrderDoesNotMatter(us: seq<Update>, vs: seq<Update>)
    requires PrefixFree(us) && DistinctPaths(us) && PrefixFree(vs) && DistinctPaths(vs)
    requires forall u :: u in us <==> u in vs
    ensures Grouped(us, |us|) == Grouped(vs, |vs|)
  {
    GroupedElements(us);
    GroupedElements(vs);
    SameElementsSameLeaves(us, Grouped(us, |us|).value, vs, Grouped(vs, |vs|).value);
  }

  lemma {:induction false} SameElementsSameLeaves(us: seq<Update>, a: Leaves, vs: seq<Update>, b: Leaves)
    requires forall u :: u in us <==> u in vs
    requires forall u :: u in us ==> u.path in a && a[u.path] == u.value
    requires forall u :: u in vs ==> u.path in b && b[u.path] == u.value
    requires forall p :: p in a ==> exists u :: u in us && u.path == p
    requires forall p :: p in b ==> exists u :: u in vs && u.path == p
    ensures a == b
  {
  }
}
