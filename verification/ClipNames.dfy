/** Reading the camera off a media file name (frigate/api/media_auth.py).

    Snapshots are named `{camera}-{event id}.{ext}` (frigate/api/event.py) and review thumbnails
    `thumb-{camera}-{review id}.webp`; camera names and ids may both contain hyphens. */
module ClipNames {
  import opened Common

  // ---------------------------------------------------------------- the parser

  /** Puts a name behind all that are at least as long. */
  function InsertByLength(name: string, sorted: seq<string>): seq<string> {
    if sorted == [] || |sorted[0]| < |name| then [name] + sorted
    else [sorted[0]] + InsertByLength(name, sorted[1..])
  }

  /** The names from longest to shortest, those of equal length in their original order. */
  function LongestFirst(names: seq<string>): seq<string> {
    if names == [] then [] else InsertByLength(names[|names| - 1], LongestFirst(names[..|names| - 1]))
  }

  predicate Owns(camera: string, stem: string) { StartsWith(stem, camera + "-") }

  function FirstOwner(names: seq<string>, stem: string): Option<string> {
    if names == [] then None else if Owns(names[0], stem) then Some(names[0]) else FirstOwner(names[1..], stem)
  }

  /** `cameras` are the configured names in the order of the configuration, if there is one. */
  function LongestPrefixCamera(stem: string, cameras: Option<seq<string>>): Option<string> {
    if cameras.None? then None else FirstOwner(LongestFirst(cameras.value), stem)
  }

  /** `s.rfind(".")` */
  function LastDot(s: string): (k: int)
    ensures -1 <= k < |s|
    ensures k >= 0 ==> s[k] == '.'
    ensures forall i :: k < i < |s| ==> s[i] != '.'
  {
    if s == [] then -1 else if s[|s| - 1] == '.' then |s| - 1 else LastDot(s[..|s| - 1])
  }

  function CameraFromClipFilename(filename: string, cameras: Option<seq<string>>): Option<string> {
    var dot := LastDot(filename);
    LongestPrefixCamera(if dot > 0 then filename[..dot] else filename, cameras)
  }

  const THUMB := "thumb-"

  function CameraFromThumbFilename(filename: string, cameras: Option<seq<string>>): Option<string> {
    if !StartsWith(filename, THUMB) then None
    else
      var dot := LastDot(filename);
      // the slice is empty when the dot lies within the prefix
      var stem := if dot > 0 then (if dot < |THUMB| then [] else filename[|THUMB|..dot]) else filename[|THUMB|..];
      LongestPrefixCamera(stem, cameras)
  }

  // ---------------------------------------------------------------- which camera is found

  ghost predicate LongestFirstOrder(names: seq<string>) {
    forall i, j :: 0 <= i < j < |names| ==> |names[i]| >= |names[j]|
  }

  lemma {:induction false} InsertKeepsOrder(name: string, sorted: seq<string>)
    requires LongestFirstOrder(sorted)
    ensures LongestFirstOrder(InsertByLength(name, sorted))
    ensures forall n :: n in InsertByLength(name, sorted) <==> n == name || n in sorted
    ensures InsertByLength(name, sorted) != [] &&
            (InsertByLength(name, sorted)[0] == name || (sorted != [] && InsertByLength(name, sorted)[0] == sorted[0]))
  {
    if sorted != [] && |sorted[0]| >= |name| {
      InsertKeepsOrder(name, sorted[1..]);
      var rest := InsertByLength(name, sorted[1..]);
      forall j | 0 <= j < |rest| ensures |sorted[0]| >= |rest[j]| {
        assert rest[j] in rest;
        if rest[j] != name { assert rest[j] in sorted[1..]; }
      }
      assert sorted == [sorted[0]] + sorted[1..];
    }
  }

  lemma {:induction false} LongestFirstSorts(names: seq<string>)
    ensures LongestFirstOrder(LongestFirst(names))
    ensures forall n :: n in LongestFirst(names) <==> n in names
  {
    if names != [] {
      var init, last := names[..|names| - 1], names[|names| - 1];
      LongestFirstSorts(init);
      InsertKeepsOrder(last, LongestFirst(init));
      assert names == init + [last];
    }
  }

  lemma {:induction false} FirstOwnerIsLongest(names: seq<string>, stem: string)
    requires LongestFirstOrder(names)
    ensures FirstOwner(names, stem).None? <==> forall n :: n in names ==> !Owns(n, stem)
    ensures FirstOwner(names, stem).Some? ==>
              var c := FirstOwner(names, stem).value;
              c in names && Owns(c, stem) && forall n :: n in names && Owns(n, stem) ==> |n| <= |c|
  {
    if names != [] {
      FirstOwnerIsLongest(names[1..], stem);
      assert names == [names[0]] + names[1..];
    }
  }

  /** The camera found is the one with the longest name that owns the stem, and none is found only if none
      owns it. */
  lemma LongestOwnerIsFound(stem: string, cameras: seq<string>)
    ensures var found := LongestPrefixCamera(stem, Some(cameras));
            && (found.None? <==> forall n :: n in cameras ==> !StartsWith(stem, n + "-"))
            && forall c :: found == Some(c) <==>
                 && c in cameras && StartsWith(stem, c + "-")
                 && forall n :: n in cameras && StartsWith(stem, n + "-") ==> |n| <= |c|
  {
    LongestFirstSorts(cameras);
    FirstOwnerIsLongest(LongestFirst(cameras), stem);
    var found := LongestPrefixCamera(stem, Some(cameras));
    forall c | c in cameras && Owns(c, stem) && forall n :: n in cameras && Owns(n, stem) ==> |n| <= |c|
      ensures found == Some(c)
    {
      SameLengthSameName(c, found.value, stem);
    }
  }

  lemma SameLengthSameName(a: string, b: string, stem: string)
    requires Owns(a, stem) && Owns(b, stem) && |a| == |b|
    ensures a == b
  {
    assert a == stem[..|a|] && b == stem[..|b|];
  }

  /** The order in which cameras are configured does not matter. */
  lemma OrderDoesNotMatter(stem: string, cameras: seq<string>, reordered: seq<string>)
    requires forall n :: n in cameras <==> n in reordered
    ensures LongestPrefixCamera(stem, Some(cameras)) == LongestPrefixCamera(stem, Some(reordered))
  {
    LongestOwnerIsFound(stem, cameras);
    LongestOwnerIsFound(stem, reordered);
    var found := LongestPrefixCamera(stem, Some(cameras));
    if found.Some? {
      assert LongestPrefixCamera(stem, Some(reordered)) == Some(found.value);
    }
  }

  // ---------------------------------------------------------------- printed names

  function ClipFilename(camera: string, id: string, ext: string): string { camera + "-" + id + "." + ext }

  function ThumbFilename(camera: string, id: string): string { THUMB + camera + "-" + id + ".webp" }

  /** A longer configured name that also fits the printed name. */
  ghost predicate Outdone(camera: string, id: string, cameras: seq<string>) {
    exists n :: n in cameras && |n| > |camera| && StartsWith(camera + "-" + id, n + "-")
  }

  lemma StemOwner(camera: string, id: string, cameras: seq<string>)
    requires camera in cameras
    ensures LongestPrefixCamera(camera + "-" + id, Some(cameras)) == Some(camera) <==> !Outdone(camera, id, cameras)
  {
    var stem := camera + "-" + id;
    LongestOwnerIsFound(stem, cameras);
    assert stem[..|camera| + 1] == camera + "-";
    assert Owns(camera, stem);
  }

  lemma {:induction false} LastDotBeforeExtension(stem: string, ext: string)
    requires '.' !in ext
    ensures LastDot(stem + "." + ext) == |stem|
  {
    var s := stem + "." + ext;
    DotThenNone(s, stem, ext);
    LastDotIs(s, |stem|);
  }

  lemma {:induction false} DotThenNone(s: string, stem: string, ext: string)
    requires s == stem + ['.'] + ext && '.' !in ext
    ensures s[|stem|] == '.' && forall i :: |stem| < i < |s| ==> s[i] != '.'
  {
    forall i | |stem| < i < |s| ensures s[i] != '.' {
      assert s[i] == ext[i - |stem| - 1];
    }
  }

  lemma {:induction false} LastDotIs(s: string, k: nat)
    requires k < |s| && s[k] == '.' && forall i :: k < i < |s| ==> s[i] != '.'
    ensures LastDot(s) == k
  {
    var found := LastDot(s);
    assert found >= k;
    assert found <= k;
  }

  /** The file name printed for a camera's event is read back as that camera if and only if no longer
      configured name, followed by a hyphen, begins it as well. */
  lemma ClipNameReadsBack(camera: string, id: string, ext: string, cameras: seq<string>)
    requires camera in cameras && '.' !in ext
    ensures CameraFromClipFilename(ClipFilename(camera, id, ext), Some(cameras)) == Some(camera)
            <==> !Outdone(camera, id, cameras)
  {
    var stem := camera + "-" + id;
    LastDotBeforeExtension(stem, ext);
    assert (stem + "." + ext)[..|stem|] == stem;
    StemOwner(camera, id, cameras);
  }

  /** The same for review thumbnails. */
  lemma ThumbNameReadsBack(camera: string, id: string, cameras: seq<string>)
    requires camera in cameras
    ensures CameraFromThumbFilename(ThumbFilename(camera, id), Some(cameras)) == Some(camera)
            <==> !Outdone(camera, id, cameras)
  {
    var stem := camera + "-" + id;
    var full := THUMB + stem;
    var name := ThumbFilename(camera, id);
    assert "." + "webp" == ".webp";
    assert name == full + "." + "webp";
    LastDotBeforeExtension(full, "webp");
    assert name[..|THUMB|] == THUMB;
    assert name[|THUMB|..|full|] == stem;
    StemOwner(camera, id, cameras);
  }

  /** Only a configured name that continues the camera's own with a hyphen can stand in its way; without such
      names every printed name reads back. */
  lemma OutdoneOnlyByContinuation(camera: string, id: string, cameras: seq<string>)
    requires forall n :: n in cameras ==> !StartsWith(n, camera + "-")
    ensures !Outdone(camera, id, cameras)
  {
    forall n | n in cameras && |n| > |camera| ensures !Owns(n, camera + "-" + id) {
      if Owns(n, camera + "-" + id) {
        LongerOwnerContinues(camera, id, n);
      }
    }
  }

  lemma LongerOwnerContinues(camera: string, id: string, n: string)
    requires |n| > |camera| && Owns(n, camera + "-" + id)
    ensures StartsWith(n, camera + "-")
  {
    var stem := camera + "-" + id;
    assert n == stem[..|n|];
    assert n[..|camera| + 1] == stem[..|camera| + 1] == camera + "-";
  }
}
