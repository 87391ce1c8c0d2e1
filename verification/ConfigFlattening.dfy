/** Nested configuration data, flattened to dotted keys (frigate/util/builtin.py, `flatten_config_data`), taken
    apart again and grouped (frigate/api/app.py, `_config_set_in_memory`).

    A dictionary keeps its entries in order, and giving a key again changes its value in place.  So keys that
    are printed alike are merged, at the place of the first and with the value of the last. */
module ConfigFlattening {
  import opened Common
  import opened ConfigPaths
  import opened ConfigGrouping

  // ---------------------------------------------------------------- dictionaries as lists of entries

  datatype Entry<K> = Entry(key: K, value: Value)

  predicate HasKey<K(==)>(es: seq<Entry<K>>, k: K) { exists i :: 0 <= i < |es| && es[i].key == k }

  function Replaced<K(==)>(es: seq<Entry<K>>, e: Entry<K>): (out: seq<Entry<K>>)
    ensures |out| == |es|
    ensures forall i :: 0 <= i < |es| ==> out[i] == if es[i].key == e.key then e else es[i]
  {
    seq(|es|, i requires 0 <= i < |es| => if es[i].key == e.key then e else es[i])
  }

  /** Assigning a key of a dictionary. */
  function Put<K(==)>(es: seq<Entry<K>>, e: Entry<K>): seq<Entry<K>> {
    if HasKey(es, e.key) then Replaced(es, e) else es + [e]
  }

  /** The dictionary made from a list of pairs. */
  function Merge<K(==)>(items: seq<Entry<K>>): seq<Entry<K>> {
    if items == [] then [] else Put(Merge(items[..|items| - 1]), items[|items| - 1])
  }

  function MapKeys<K, L>(es: seq<Entry<K>>, f: K -> L): (out: seq<Entry<L>>)
    ensures |out| == |es|
    ensures forall i :: 0 <= i < |es| ==> out[i] == Entry(f(es[i].key), es[i].value)
  {
    seq(|es|, i requires 0 <= i < |es| => Entry(f(es[i].key), es[i].value))
  }

  ghost predicate KeysDiffer<K(!new)>(es: seq<Entry<K>>) {
    forall i, j :: 0 <= i < j < |es| ==> es[i].key != es[j].key
  }

  lemma {:induction false} PutKeys<K>(es: seq<Entry<K>>, e: Entry<K>, k: K)
    ensures HasKey(Put(es, e), k) <==> HasKey(es, k) || k == e.key
  {
    var out := Put(es, e);
    if HasKey(es, k) {
      var i :| 0 <= i < |es| && es[i].key == k;
      assert out[i].key == k;
    }
    if k == e.key && !HasKey(es, k) {
      assert out[|es|].key == k;
    }
  }

  lemma {:induction false} MergeKeys<K>(items: seq<Entry<K>>, k: K)
    ensures HasKey(Merge(items), k) <==> HasKey(items, k)
  {
    if items != [] {
      var init, last := items[..|items| - 1], items[|items| - 1];
      MergeKeys(init, k);
      PutKeys(Merge(init), last, k);
      if HasKey(items, k) && k != last.key {
        var i :| 0 <= i < |items| && items[i].key == k;
        assert init[i].key == k;
      }
    }
  }

  lemma {:induction false} MergeDiffers<K(!new)>(items: seq<Entry<K>>)
    ensures KeysDiffer(Merge(items))
  {
    if items != [] {
      MergeDiffers(items[..|items| - 1]);
    }
  }

  lemma {:induction false} MergeSnoc<K>(items: seq<Entry<K>>, e: Entry<K>)
    ensures Merge(items + [e]) == Put(Merge(items), e)
  {
    assert (items + [e])[..|items|] == items;
  }

  /** The value in a dictionary is the one given last. */
  lemma {:induction false} MergeKeepsLast<K>(items: seq<Entry<K>>, i: nat)
    requires i < |items| && forall j :: i < j < |items| ==> items[j].key != items[i].key
    ensures items[i] in Merge(items)
  {
    var init, last := items[..|items| - 1], items[|items| - 1];
    var before := Merge(init);
    if i == |items| - 1 {
      if HasKey(before, last.key) {
        var k :| 0 <= k < |before| && before[k].key == last.key;
        assert Replaced(before, last)[k] == last;
      }
    } else {
      MergeKeepsLast(init, i);
      var k :| 0 <= k < |before| && before[k] == init[i];
      assert Put(before, last)[k] == items[i];
    }
  }

  /** Where a key comes first. */
  function FirstAt<K(==)>(items: seq<Entry<K>>, k: K): (i: nat)
    ensures i <= |items|
  {
    if items == [] || items[0].key == k then 0 else 1 + FirstAt(items[1..], k)
  }

  lemma {:induction false} FirstAtSnoc<K>(items: seq<Entry<K>>, e: Entry<K>, k: K)
    ensures FirstAt(items, k) < |items| <==> HasKey(items, k)
    ensures FirstAt(items + [e], k) == if HasKey(items, k) then FirstAt(items, k)
                                       else if e.key == k then |items| else |items| + 1
  {
    if items != [] {
      FirstAtSnoc(items[1..], e, k);
      assert (items + [e])[1..] == items[1..] + [e];
      if HasKey(items, k) && items[0].key != k {
        var i :| 0 <= i < |items| && items[i].key == k;
        assert items[1..][i - 1].key == k;
      }
      if HasKey(items[1..], k) {
        var i :| 0 <= i < |items[1..]| && items[1..][i].key == k;
        assert items[i + 1].key == k;
      }
    }
  }

  /** And the keys stand in the order in which they are first given. */
  lemma {:induction false} MergeKeepsPlaces<K>(items: seq<Entry<K>>, a: nat, b: nat)
    requires a < b < |Merge(items)|
    ensures FirstAt(items, Merge(items)[a].key) < FirstAt(items, Merge(items)[b].key) < |items|
  {
    var init, last := items[..|items| - 1], items[|items| - 1];
    var before, k, l := Merge(init), Merge(items)[a].key, Merge(items)[b].key;
    assert items == init + [last];
    FirstAtSnoc(init, last, k);
    FirstAtSnoc(init, last, l);
    assert before[a].key == k && HasKey(before, k);
    MergeKeys(init, k);
    MergeKeys(init, l);
    if b < |before| {
      assert before[b].key == l && HasKey(before, l);
      MergeKeepsPlaces(init, a, b);
    } else {
      assert !HasKey(before, l);
    }
  }

  // ---------------------------------------------------------------- merging in two stages

  lemma {:induction false} PutTwice<K>(es: seq<Entry<K>>, a: Entry<K>, b: Entry<K>)
    requires a.key == b.key
    ensures Put(Put(es, a), b) == Put(es, b)
  {
    PutKeys(es, a, b.key);
    if !HasKey(es, a.key) {
      assert Replaced(es + [a], b) == es + [b];
    }
  }

  lemma {:induction false} PutCommute<K>(es: seq<Entry<K>>, a: Entry<K>, b: Entry<K>)
    requires a.key != b.key && HasKey(es, a.key)
    ensures Put(Put(es, a), b) == Put(Put(es, b), a)
  {
    PutKeys(es, a, b.key);
    PutKeys(es, b, a.key);
    if !HasKey(es, b.key) {
      assert Replaced(es + [b], a) == Replaced(es, a) + [b];
    } else {
      assert Replaced(Replaced(es, a), b) == Replaced(Replaced(es, b), a);
    }
  }

  lemma {:induction false} HasKeySnoc<K>(es: seq<Entry<K>>, k: K)
    requires es != []
    ensures HasKey(es, k) <==> HasKey(es[..|es| - 1], k) || es[|es| - 1].key == k
  {
    var init := es[..|es| - 1];
    if i :| 0 <= i < |es| && es[i].key == k {
      if i < |init| {
        assert init[i].key == k;
      }
    }
    if i :| 0 <= i < |init| && init[i].key == k {
      assert es[i].key == k;
    }
  }

  lemma {:induction false} ReplaceInside<K>(x: seq<Entry<K>>, m: seq<Entry<K>>, e: Entry<K>)
    requires HasKey(m, e.key)
    ensures Merge(x + Replaced(m, e)) == Put(Merge(x + m), e)
    decreases |m|
  {
    var init, last := m[..|m| - 1], m[|m| - 1];
    var now := Replaced(m, e)[|m| - 1];
    assert x + m == (x + init) + [last];
    assert x + Replaced(m, e) == (x + Replaced(init, e)) + [now];
    MergeSnoc(x + init, last);
    MergeSnoc(x + Replaced(init, e), now);
    HasKeySnoc(m, e.key);
    if HasKey(init, e.key) {
      ReplaceInside(x, init, e);
      KeysBehind(x, init, e.key);
      if last.key == e.key {
        PutTwice(Merge(x + init), e, e);
        PutTwice(Merge(x + init), last, e);
      } else {
        PutCommute(Merge(x + init), e, last);
      }
    } else {
      assert Replaced(init, e) == init;
      PutTwice(Merge(x + init), last, e);
    }
  }

  lemma {:induction false} KeysBehind<K>(x: seq<Entry<K>>, m: seq<Entry<K>>, k: K)
    requires HasKey(m, k)
    ensures HasKey(Merge(x + m), k)
  {
    var i :| 0 <= i < |m| && m[i].key == k;
    assert (x + m)[|x| + i].key == k;
    MergeKeys(x + m, k);
  }

  /** Merging a part first makes no difference. */
  lemma {:induction false} MergeInner<K>(x: seq<Entry<K>>, s: seq<Entry<K>>)
    ensures Merge(x + Merge(s)) == Merge(x + s)
    decreases |s|
  {
    if s != [] {
      var init, last := s[..|s| - 1], s[|s| - 1];
      MergeInner(x, init);
      assert x + s == (x + init) + [last];
      MergeSnoc(x + init, last);
      if HasKey(Merge(init), last.key) {
        ReplaceInside(x, Merge(init), last);
      } else {
        assert x + (Merge(init) + [last]) == (x + Merge(init)) + [last];
        MergeSnoc(x + Merge(init), last);
      }
    }
  }

  lemma {:induction false} MergeOnwards<K>(p: seq<Entry<K>>, q: seq<Entry<K>>, r: seq<Entry<K>>)
    requires Merge(p) == Merge(q)
    ensures Merge(p + r) == Merge(q + r)
    decreases |r|
  {
    if r == [] {
      assert p + r == p && q + r == q;
    } else {
      var init, last := r[..|r| - 1], r[|r| - 1];
      MergeOnwards(p, q, init);
      assert p + r == (p + init) + [last] && q + r == (q + init) + [last];
      MergeSnoc(p + init, last);
      MergeSnoc(q + init, last);
    }
  }

  /** Renaming keys without making any two alike makes no difference to the merging. */
  lemma {:induction false} MergeMapped<K, L>(items: seq<Entry<K>>, f: K -> L)
    requires forall i, j :: 0 <= i < |items| && 0 <= j < |items| && f(items[i].key) == f(items[j].key) ==>
                              items[i].key == items[j].key
    ensures Merge(MapKeys(items, f)) == MapKeys(Merge(items), f)
    decreases |items|
  {
    if items != [] {
      var init, last := items[..|items| - 1], items[|items| - 1];
      var before := Merge(init);
      MergeMapped(init, f);
      assert MapKeys(items, f)[..|init|] == MapKeys(init, f);
      forall i | 0 <= i < |before| ensures f(before[i].key) == f(last.key) ==> before[i].key == last.key {
        assert HasKey(before, before[i].key);
        MergeKeys(init, before[i].key);
        var j :| 0 <= j < |init| && init[j].key == before[i].key;
        assert items[j] == init[j];
      }
      PutMapped(before, last, f);
    }
  }

  lemma {:induction false} PutMapped<K, L>(es: seq<Entry<K>>, e: Entry<K>, f: K -> L)
    requires forall i :: 0 <= i < |es| ==> (f(es[i].key) == f(e.key) ==> es[i].key == e.key)
    ensures Put(MapKeys(es, f), Entry(f(e.key), e.value)) == MapKeys(Put(es, e), f)
  {
    var mapped, now := MapKeys(es, f), Entry(f(e.key), e.value);
    if HasKey(es, e.key) {
      var i :| 0 <= i < |es| && es[i].key == e.key;
      assert mapped[i].key == now.key;
      assert Replaced(mapped, now) == MapKeys(Replaced(es, e), f);
    } else {
      assert !HasKey(mapped, now.key);
      assert mapped + [now] == MapKeys(es + [e], f);
    }
  }

  // ---------------------------------------------------------------- nested data

  /** A dictionary: its entries in order, each with a scalar or with a dictionary. */
  datatype Data = End | Item(key: string, value: Value, rest: Data) | Dict(key: string, sub: Data, rest: Data)
  {
    function Keys(): set<string> {
      match this
      case End => {}
      case Item(key, _, rest) => {key} + rest.Keys()
      case Dict(key, _, rest) => {key} + rest.Keys()
    }

    /** No dictionary has a key twice. */
    predicate Valid() {
      match this
      case End => true
      case Item(key, _, rest) => key !in rest.Keys() && rest.Valid()
      case Dict(key, sub, rest) => key !in rest.Keys() && sub.Valid() && rest.Valid()
    }
  }

  function NewKey(parent: string, key: string): string {
    if parent != "" then parent + "." + Escape(key) else Escape(key)
  }

  /** The pairs collected for a dictionary; those of a dictionary within it have been merged before. */
  function FlattenItems(data: Data, parent: string): seq<Entry<string>>
    decreases data, 0
  {
    match data
    case End => []
    case Item(key, value, rest) => [Entry(NewKey(parent, key), value)] + FlattenItems(rest, parent)
    case Dict(key, sub, rest) => FlattenConfigData(sub, NewKey(parent, key)) + FlattenItems(rest, parent)
  }

  function FlattenConfigData(data: Data, parent: string): seq<Entry<string>>
    decreases data, 1
  {
    Merge(FlattenItems(data, parent))
  }

  /** The scalars of the data, by path, in order. */
  function LeavesOf(data: Data, path: Path): seq<Entry<Path>> {
    match data
    case End => []
    case Item(key, value, rest) => [Entry(path + [key], value)] + LeavesOf(rest, path)
    case Dict(key, sub, rest) => LeavesOf(sub, path + [key]) + LeavesOf(rest, path)
  }

  lemma {:induction false} NewKeyIsKeyPath(path: Path, key: string)
    ensures NewKey(KeyPath(path), key) == KeyPath(path + [key])
  {
    assert (path + [key])[..|path|] == path;
  }

  lemma {:induction false} MapKeysConcat<K, L>(a: seq<Entry<K>>, b: seq<Entry<K>>, f: K -> L)
    ensures MapKeys(a + b, f) == MapKeys(a, f) + MapKeys(b, f)
  {
  }

  /** A dictionary within a dictionary: what has been merged of it may as well be merged with the rest. */
  lemma {:induction false} BehindDict<K>(x: seq<Entry<K>>, inner: seq<Entry<K>>, innerLeaves: seq<Entry<K>>,
                                         rest: seq<Entry<K>>, restLeaves: seq<Entry<K>>)
    requires Merge(x + inner) == Merge(x + innerLeaves)
    requires Merge(x + Merge(inner) + rest) == Merge(x + Merge(inner) + restLeaves)
    ensures Merge(x + (Merge(inner) + rest)) == Merge(x + (innerLeaves + restLeaves))
  {
    MergeInner(x, inner);
    MergeOnwards(x + Merge(inner), x + innerLeaves, restLeaves);
    Regroup(x, Merge(inner), rest);
    Regroup(x, innerLeaves, restLeaves);
  }

  lemma {:induction false} FlattenBehind(x: seq<Entry<string>>, data: Data, path: Path)
    ensures Merge(x + FlattenItems(data, KeyPath(path))) == Merge(x + MapKeys(LeavesOf(data, path), KeyPath))
    decreases data
  {
    var parent := KeyPath(path);
    match data
    case End =>
      assert FlattenItems(data, parent) == MapKeys(LeavesOf(data, path), KeyPath);
    case Item(key, value, rest) =>
      NewKeyIsKeyPath(path, key);
      var e, leaf := Entry(NewKey(parent, key), value), Entry(path + [key], value);
      FlattenBehind(x + [e], rest, path);
      MapKeysConcat([leaf], LeavesOf(rest, path), KeyPath);
      assert MapKeys([leaf], KeyPath) == [e];
      Regroup(x, [e], FlattenItems(rest, parent));
      Regroup(x, [e], MapKeys(LeavesOf(rest, path), KeyPath));
    case Dict(key, sub, rest) =>
      NewKeyIsKeyPath(path, key);
      var inner := FlattenItems(sub, NewKey(parent, key));
      FlattenBehind(x, sub, path + [key]);
      FlattenBehind(x + Merge(inner), rest, path);
      MapKeysConcat(LeavesOf(sub, path + [key]), LeavesOf(rest, path), KeyPath);
      BehindDict(x, inner, MapKeys(LeavesOf(sub, path + [key]), KeyPath),
                 FlattenItems(rest, parent), MapKeys(LeavesOf(rest, path), KeyPath));
  }

  lemma {:induction false} NothingBefore<K>(es: seq<Entry<K>>)
    ensures [] + es == es
  {
  }

  /** Flattening level by level is merging the flat keys of all leaves at once. */
  lemma {:induction false} FlattenIsMerge(data: Data)
    ensures FlattenConfigData(data, "") == Merge(MapKeys(LeavesOf(data, []), KeyPath))
  {
    FlattenBehind([], data, []);
    NothingBefore(FlattenItems(data, ""));
    NothingBefore(MapKeys(LeavesOf(data, []), KeyPath));
  }

  /** No leaf's path is, or continues, another's. */
  ghost predicate Apart(leaves: seq<Entry<Path>>) {
    forall i, j :: 0 <= i < |leaves| && 0 <= j < |leaves| && i != j ==>
                     leaves[i].key != leaves[j].key && !Below(leaves[i].key, leaves[j].key)
  }

  ghost predicate Under(leaves: seq<Entry<Path>>, path: Path, keys: set<string>) {
    forall i :: 0 <= i < |leaves| ==>
                  path < leaves[i].key && leaves[i].key[|path|] in keys
  }

  lemma {:induction false} LeavesAreApart(data: Data, path: Path)
    requires data.Valid()
    ensures Apart(LeavesOf(data, path)) && Under(LeavesOf(data, path), path, data.Keys())
    decreases data
  {
    match data
    case End =>
    case Item(key, value, rest) =>
      LeavesAreApart(rest, path);
      ApartConcat([Entry(path + [key], value)], LeavesOf(rest, path), path, key, rest.Keys());
    case Dict(key, sub, rest) =>
      LeavesAreApart(sub, path + [key]);
      LeavesAreApart(rest, path);
      ApartConcat(LeavesOf(sub, path + [key]), LeavesOf(rest, path), path, key, rest.Keys());
  }

  lemma {:induction false} ApartConcat(a: seq<Entry<Path>>, b: seq<Entry<Path>>, path: Path, key: string,
                                       keys: set<string>)
    requires Apart(a) && (forall i :: 0 <= i < |a| ==> path + [key] <= a[i].key)
    requires Apart(b) && Under(b, path, keys) && key !in keys
    ensures Apart(a + b) && Under(a + b, path, {key} + keys)
  {
    forall i | 0 <= i < |a| ensures path < a[i].key && a[i].key[|path|] == key {
      assert a[i].key[..|path| + 1] == path + [key];
    }
    forall i, j | 0 <= i < |a| && 0 <= j < |b|
      ensures a[i].key != b[j].key && !Below(a[i].key, b[j].key) && !Below(b[j].key, a[i].key)
    {
      assert a[i].key[|path|] != b[j].key[|path|];
    }
  }

  /** The scalar found by going down the path. */
  function Lookup(data: Data, path: Path): Option<Value> {
    match data
    case End => None
    case Item(key, value, rest) => if path == [key] then Some(value) else Lookup(rest, path)
    case Dict(key, sub, rest) =>
      if |path| > 1 && path[0] == key then Lookup(sub, path[1..]) else Lookup(rest, path)
  }

  lemma {:induction false} NothingOutside(data: Data, path: Path)
    requires path == [] || path[0] !in data.Keys()
    ensures Lookup(data, path).None?
    decreases data
  {
    if !data.End? {
      NothingOutside(data.rest, path);
    }
  }

  /** The leaves are the scalars of the data, each by the path that leads to it, and nothing else. */
  lemma {:induction false} LeavesIff(data: Data, path: Path, q: Path, v: Value)
    requires data.Valid()
    ensures Entry(path + q, v) in LeavesOf(data, path) <==> Lookup(data, q) == Some(v)
    decreases data
  {
    if !data.End? {
      LeavesIff(data.rest, path, q, v);
      LeavesAreApart(data.rest, path);
      var key := data.key;
      if q == [] || q[0] == key {
        NothingOutside(data.rest, q);
        assert q != [] ==> (path + q)[|path|] == key;
      }
      if data.Item? {
        assert Entry(path + q, v) == Entry(path + [key], data.value) <==> q == [key] && v == data.value by {
          assert (path + q)[|path|..] == q && (path + [key])[|path|..] == [key];
        }
      } else {
        LeavesInDict(data, path, q, v);
      }
    }
  }

  lemma {:induction false} LeavesInDict(data: Data, path: Path, q: Path, v: Value)
    requires data.Valid() && data.Dict?
    ensures Entry(path + q, v) in LeavesOf(data.sub, path + [data.key]) <==>
              |q| > 1 && q[0] == data.key && Lookup(data.sub, q[1..]) == Some(v)
    decreases data, 0
  {
    var key := data.key;
    LeavesAreApart(data.sub, path + [key]);
    if q != [] && q[0] == key {
      assert path + q == path + [key] + q[1..];
      LeavesIff(data.sub, path + [key], q[1..], v);
      if |q| == 1 { NothingOutside(data.sub, q[1..]); }
    } else {
      assert (path + [key])[|path|] == key && (q != [] ==> (path + q)[|path|] == q[0]);
      NotUnder(LeavesOf(data.sub, path + [key]), path + [key], data.sub.Keys(), path + q);
    }
  }

  lemma {:induction false} NotUnder(leaves: seq<Entry<Path>>, path: Path, keys: set<string>, other: Path)
    requires Under(leaves, path, keys) && !(path <= other)
    ensures forall e :: e in leaves ==> e.key != other
  {
  }
}
