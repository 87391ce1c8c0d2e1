/** Preview frames by file name (frigate/api/preview.py, `get_preview_frames_from_cache`).

    A time-range query is answered by comparing strings: the sorted directory listing is cut at the names
    a frame would have at the start and at the end of the range.  The file names are
    `preview_{camera}-{timestamp}.webp` (frigate/output/preview.py). */
module PreviewFrames {
  import opened Common
  import opened Lexicographic

  // ---------------------------------------------------------------- time stamps in decimal

  /** A printed timestamp: the digits before and after the point. */
  datatype Stamp = Stamp(whole: string, frac: string) {
    function Text(): string { whole + "." + frac }

    /** Digits only, and no superfluous trailing zero, as Python prints a float. */
    predicate Canonical() {
      && whole != [] && AllDigits(whole) && AllDigits(frac)
      && (frac == "0" || (frac != [] && Trimmed(frac)))
    }

    function Value(): real { Number(whole, frac) }
  }

  predicate IsDigit(c: char) { '0' <= c <= '9' }

  predicate AllDigits(s: string) { forall i :: 0 <= i < |s| ==> IsDigit(s[i]) }

  predicate Trimmed(s: string) { s == [] || s[|s| - 1] != '0' }

  function Digit(c: char): real { (c as int - '0' as int) as real }

  /** The digit `d` with `n` places after it. */
  function Place(d: real, n: nat): real {
    if n == 0 then d else 10.0 * Place(d, n - 1)
  }

  /** The value of the digits after the point. */
  function Fraction(s: string): real {
    if s == [] then 0.0 else (Digit(s[0]) + Fraction(s[1..])) / 10.0
  }

  function Number(whole: string, frac: string): real {
    if whole == [] then Fraction(frac) else Place(Digit(whole[0]), |whole| - 1) + Number(whole[1..], frac)
  }

  lemma {:induction false} FractionBounds(s: string)
    requires AllDigits(s)
    ensures 0.0 <= Fraction(s) < 1.0
    ensures Trimmed(s) && s != [] ==> Fraction(s) > 0.0
  {
    if s != [] {
      FractionBounds(s[1..]);
      assert Trimmed(s) && |s| == 1 ==> s[0] != '0';
    }
  }

  lemma {:induction false} NumberBounds(whole: string, frac: string)
    requires AllDigits(whole) && AllDigits(frac)
    ensures 0.0 <= Number(whole, frac) < Place(1.0, |whole|)
  {
    if whole == [] {
      FractionBounds(frac);
    } else {
      NumberBounds(whole[1..], frac);
      PlaceGrows(0.0, Digit(whole[0]), |whole| - 1);
      PlaceGrows(Digit(whole[0]), 10.0, |whole| - 1);
    }
  }

  lemma {:induction false} PlaceGrows(a: real, b: real, n: nat)
    ensures a <= b ==> Place(a, n) <= Place(b, n)
    ensures a + 1.0 <= b ==> Place(a, n) + Place(1.0, n) <= Place(b, n)
    ensures Place(0.0, n) == 0.0 && Place(10.0, n) == Place(1.0, n + 1)
  {
    if n > 0 {
      PlaceGrows(a, b, n - 1);
    }
  }

  const EXTENSION := ".webp"

  lemma {:induction false} LessCons(c: char, a: string, d: char, b: string)
    ensures Less([c] + a, [d] + b) <==> c < d || (c == d && Less(a, b))
  {
    assert ([c] + a)[1..] == a && ([d] + b)[1..] == b;
  }

  lemma {:induction false} HeadTail(s: string, t: string)
    requires s != []
    ensures s + t == [s[0]] + (s[1..] + t)
  {
  }

  /** Fractions without trailing zeros compare as their digits do, the extension's dot sorting below every
      digit. */
  lemma {:induction false} FractionOrder(f: string, g: string)
    requires AllDigits(f) && AllDigits(g) && Trimmed(f) && Trimmed(g)
    ensures Less(f + EXTENSION, g + EXTENSION) <==> Fraction(f) < Fraction(g)
  {
    FractionBounds(f);
    FractionBounds(g);
    assert EXTENSION == ['.'] + "webp";
    if f == [] && g == [] {
      assert f + EXTENSION == g + EXTENSION;
      Irreflexive(f + EXTENSION);
    } else if f == [] {
      assert f + EXTENSION == EXTENSION;
      HeadTail(g, EXTENSION);
      LessCons('.', "webp", g[0], g[1..] + EXTENSION);
    } else if g == [] {
      assert g + EXTENSION == EXTENSION;
      HeadTail(f, EXTENSION);
      LessCons(f[0], f[1..] + EXTENSION, '.', "webp");
    } else {
      FractionBounds(f[1..]);
      FractionBounds(g[1..]);
      HeadTail(f, EXTENSION);
      HeadTail(g, EXTENSION);
      LessCons(f[0], f[1..] + EXTENSION, g[0], g[1..] + EXTENSION);
      if f[0] == g[0] {
        FractionOrder(f[1..], g[1..]);
      }
    }
  }

  /** A whole number of seconds prints a single zero after the point; it sorts below every other fraction. */
  lemma {:induction false} ZeroFraction(g: string)
    requires Stamp("0", g).Canonical() && g != "0"
    ensures Less("0" + EXTENSION, g + EXTENSION) && Fraction("0") == 0.0 < Fraction(g)
  {
    FractionBounds(g);
    assert "0"[1..] == [];
    HeadTail("0", EXTENSION);
    HeadTail(g, EXTENSION);
    LessCons('0', EXTENSION, g[0], g[1..] + EXTENSION);
    assert EXTENSION == ['.'] + "webp";
    if g[0] == '0' {
      HeadTail(g[1..], EXTENSION);
      LessCons('.', "webp", g[1], g[1..][1..] + EXTENSION);
    }
  }

  lemma FractionOrderCanonical(f: string, g: string)
    requires Stamp("0", f).Canonical() && Stamp("0", g).Canonical()
    ensures Less(f + EXTENSION, g + EXTENSION) <==> Fraction(f) < Fraction(g)
  {
    if f == g {
      Irreflexive(f + EXTENSION);
    } else if f == "0" {
      ZeroFraction(g);
    } else if g == "0" {
      ZeroFraction(f);
      Asymmetric("0" + EXTENSION, f + EXTENSION);
    } else {
      FractionOrder(f, g);
    }
  }

  /** What follows the whole seconds in a file name. */
  function PointPart(frac: string): string { ['.'] + (frac + EXTENSION) }

  lemma {:induction false} NumberOrder(v: string, f: string, w: string, g: string)
    requires AllDigits(v) && AllDigits(w) && |v| == |w|
    requires Stamp("0", f).Canonical() && Stamp("0", g).Canonical()
    ensures Less(v + PointPart(f), w + PointPart(g)) <==> Number(v, f) < Number(w, g)
  {
    if v == [] {
      assert v + PointPart(f) == PointPart(f) && w + PointPart(g) == PointPart(g);
      LessCons('.', f + EXTENSION, '.', g + EXTENSION);
      FractionOrderCanonical(f, g);
    } else {
      HeadTail(v, PointPart(f));
      HeadTail(w, PointPart(g));
      LessCons(v[0], v[1..] + PointPart(f), w[0], w[1..] + PointPart(g));
      NumberOrder(v[1..], f, w[1..], g);
      NumberBounds(v[1..], f);
      NumberBounds(w[1..], g);
      PlaceGrows(Digit(v[0]), Digit(w[0]), |v| - 1);
      PlaceGrows(Digit(w[0]), Digit(v[0]), |v| - 1);
    }
  }

  lemma {:induction false} Reassociate(a: string, b: string, c: string, d: string)
    ensures a + b + c + d == a + (b + (c + d))
  {
  }

  /** Two canonical stamps with equally many digits before the point are in file-name order if and only if
      they are in numeric order. */
  lemma StampOrderIsNumeric(a: Stamp, b: Stamp)
    requires a.Canonical() && b.Canonical() && |a.whole| == |b.whole|
    ensures Less(a.Text() + EXTENSION, b.Text() + EXTENSION) <==> a.Value() < b.Value()
    ensures a == b <==> a.Value() == b.Value()
  {
    var x, y := a.Text() + EXTENSION, b.Text() + EXTENSION;
    Reassociate(a.whole, ".", a.frac, EXTENSION);
    Reassociate(b.whole, ".", b.frac, EXTENSION);
    NumberOrder(a.whole, a.frac, b.whole, b.frac);
    NumberOrder(b.whole, b.frac, a.whole, a.frac);
    if a.Value() == b.Value() {
      Total(x, y);
      assert x == y;
      assert a.whole == x[..|a.whole|] == b.whole;
      assert a.frac == x[|a.whole| + 1..|x| - |EXTENSION|] == b.frac;
    }
  }

  // ---------------------------------------------------------------- stamps of different length

  /** As printed: no zero before the other digits. */
  predicate Printed(s: Stamp) { s.Canonical() && (|s.whole| == 1 || s.whole[0] != '0') }

  lemma {:induction false} LessSameLength(u: string, v: string, s: string, t: string)
    requires |u| == |v| && u != v
    ensures Less(u + s, v + t) <==> Less(u, v)
  {
    HeadTail(u, s);
    HeadTail(v, t);
    LessCons(u[0], u[1..] + s, v[0], v[1..] + t);
    assert u == [u[0]] + u[1..] && v == [v[0]] + v[1..];
    if u[0] == v[0] {
      LessSameLength(u[1..], v[1..], s, t);
    }
  }

  lemma {:induction false} PlaceByLength(m: nat, n: nat)
    requires m <= n
    ensures Place(1.0, m) <= Place(1.0, n)
    decreases n
  {
    PlaceGrows(0.0, 1.0, n);
    if m < n {
      PlaceByLength(m, n - 1);
      PlaceGrows(0.0, 1.0, n - 1);
    }
  }

  /** The stamp with fewer digits before the point is the smaller number; but its file name comes first if and
      only if its digits are no more than the leading digits of the other. */
  lemma {:induction false} FewerDigits(a: Stamp, b: Stamp)
    requires Printed(a) && Printed(b) && |a.whole| < |b.whole|
    ensures a.Value() < b.Value()
    ensures Less(a.Text() + EXTENSION, b.Text() + EXTENSION) <==> !Less(b.whole[..|a.whole|], a.whole)
    ensures Less(b.Text() + EXTENSION, a.Text() + EXTENSION) <==> Less(b.whole[..|a.whole|], a.whole)
  {
    FewerDigitsIsLess(a, b);
    var n := |a.whole|;
    var lead, tail := b.whole[..n], b.whole[n..];
    assert b.whole == lead + tail;
    Reassociate(a.whole, ".", a.frac, EXTENSION);
    assert b.Text() + EXTENSION == lead + (tail + ("." + b.frac + EXTENSION));
    var x, y := PointPart(a.frac), tail + ("." + b.frac + EXTENSION);
    if lead == a.whole {
      CancelPrefix(lead, x, y);
      CancelPrefix(lead, y, x);
      Irreflexive(lead);
      assert x[0] == '.' && IsDigit(y[0]);
    } else {
      LessSameLength(a.whole, lead, x, y);
      LessSameLength(lead, a.whole, y, x);
      Total(lead, a.whole);
      if Less(lead, a.whole) { Asymmetric(lead, a.whole); }
    }
  }

  lemma {:induction false} FewerDigitsIsLess(a: Stamp, b: Stamp)
    requires Printed(a) && Printed(b) && |a.whole| < |b.whole|
    ensures a.Value() < b.Value()
  {
    NumberBounds(a.whole, a.frac);
    NumberBounds(b.whole[1..], b.frac);
    PlaceGrows(1.0, Digit(b.whole[0]), |b.whole| - 1);
    PlaceByLength(|a.whole|, |b.whole| - 1);
  }

  /** Equally many digits, or the digits of the shorter no more than the leading digits of the longer. */
  predicate InOrder(a: Stamp, b: Stamp) {
    if |a.whole| <= |b.whole| then |a.whole| == |b.whole| || !Less(b.whole[..|a.whole|], a.whole)
    else !Less(a.whole[..|b.whole|], b.whole)
  }

  /** File-name order is right about two stamps if and only if they are in order in this sense. */
  lemma {:induction false} NameOrderRightIff(a: Stamp, b: Stamp)
    requires Printed(a) && Printed(b)
    ensures (Less(a.Text() + EXTENSION, b.Text() + EXTENSION) <==> a.Value() < b.Value()) <==> InOrder(a, b)
  {
    if |a.whole| == |b.whole| {
      StampOrderIsNumeric(a, b);
    } else if |a.whole| < |b.whole| {
      FewerDigits(a, b);
    } else {
      FewerDigits(b, a);
    }
  }

  // ---------------------------------------------------------------- the query

  datatype Frame = Frame(camera: string, stamp: Stamp) {
    function FileName(): string { FilePrefix(camera) + stamp.Text() + EXTENSION }
  }

  function FilePrefix(camera: string): string { "preview_" + camera + "-" }

  /** Where `x` belongs in a sorted list: before its equals, and after them. */
  function BisectLeft(files: seq<string>, x: string): (k: nat)
    ensures k <= |files|
  {
    if files == [] || !Less(files[0], x) then 0 else 1 + BisectLeft(files[1..], x)
  }

  function BisectRight(files: seq<string>, x: string): (k: nat)
    ensures k <= |files|
  {
    if files == [] || Less(x, files[0]) then 0 else 1 + BisectRight(files[1..], x)
  }

  function Slice(files: seq<string>, left: nat, right: nat): seq<string>
    requires left <= |files| && right <= |files|
  {
    if left <= right then files[left..right] else []
  }

  function WithPrefix(files: seq<string>, prefix: string): seq<string> {
    if files == [] then []
    else WithPrefix(files[..|files| - 1], prefix)
         + if StartsWith(files[|files| - 1], prefix) then [files[|files| - 1]] else []
  }

  /** The name a frame would have at a time printed as `text`. */
  function NameAt(camera: string, text: string): string { FilePrefix(camera) + text + EXTENSION }

  /** The endpoint, given the sorted listing and the two times as printed. */
  function PreviewFramesFromCache(files: seq<string>, camera: string, start: string, end: string): seq<string> {
    var left := BisectLeft(files, NameAt(camera, start));
    var right := BisectRight(files, NameAt(camera, end));
    WithPrefix(Slice(files, left, right), FilePrefix(camera))
  }

  // ---------------------------------------------------------------- bisecting a sorted listing

  lemma {:induction false} BisectLeftSplits(files: seq<string>, x: string)
    requires Sorted(files)
    ensures forall i :: 0 <= i < |files| ==> (i < BisectLeft(files, x) <==> Less(files[i], x))
  {
    if files != [] {
      if Less(files[0], x) {
        BisectLeftSplits(files[1..], x);
        forall i | 0 <= i < |files| ensures i < BisectLeft(files, x) <==> Less(files[i], x) {
          if i > 0 { assert files[1..][i - 1] == files[i]; }
        }
      } else {
        forall i | 0 <= i < |files| ensures !Less(files[i], x) {
          if i > 0 && Less(files[i], x) { Transitive(files[0], files[i], x); }
        }
      }
    }
  }

  lemma {:induction false} BisectRightSplits(files: seq<string>, x: string)
    requires Sorted(files)
    ensures forall i :: 0 <= i < |files| ==> (i < BisectRight(files, x) <==> !Less(x, files[i]))
  {
    if files != [] {
      if Less(x, files[0]) {
        forall i | 0 <= i < |files| ensures Less(x, files[i]) {
          if i > 0 { Transitive(x, files[0], files[i]); }
        }
      } else {
        BisectRightSplits(files[1..], x);
        forall i | 0 <= i < |files| ensures i < BisectRight(files, x) <==> !Less(x, files[i]) {
          if i > 0 { assert files[1..][i - 1] == files[i]; }
        }
      }
    }
  }

  lemma {:induction false} InSnoc(names: seq<string>, last: string, n: string)
    ensures n in names + [last] <==> n in names || n == last
  {
    if n == last { assert (names + [last])[|names|] == n; }
  }

  lemma {:induction false} SortedSnoc(names: seq<string>, last: string)
    requires Sorted(names) && forall n :: n in names ==> Less(n, last)
    ensures Sorted(names + [last])
  {
  }

  lemma {:induction false} WithPrefixHolds(files: seq<string>, prefix: string, n: string)
    ensures n in WithPrefix(files, prefix) <==> n in files && StartsWith(n, prefix)
  {
    if files != [] {
      var init, last := files[..|files| - 1], files[|files| - 1];
      WithPrefixHolds(init, prefix, n);
      assert files == init + [last];
      InSnoc(init, last, n);
      InSnoc(WithPrefix(init, prefix), last, n);
    }
  }

  lemma {:induction false} WithPrefixIsSorted(files: seq<string>, prefix: string)
    requires Sorted(files)
    ensures Sorted(WithPrefix(files, prefix))
  {
    if files != [] {
      var init, last := files[..|files| - 1], files[|files| - 1];
      var kept := WithPrefix(init, prefix);
      WithPrefixIsSorted(init, prefix);
      forall n | n in kept ensures Less(n, last) {
        WithPrefixHolds(init, prefix, n);
        var i :| 0 <= i < |init| && init[i] == n;
        assert files[i] == n;
      }
      SortedSnoc(kept, last);
    }
  }

  lemma {:induction false} WithPrefixKeepsOrder(files: seq<string>, prefix: string)
    requires Sorted(files)
    ensures Sorted(WithPrefix(files, prefix))
    ensures forall n :: n in WithPrefix(files, prefix) <==> n in files && StartsWith(n, prefix)
  {
    WithPrefixIsSorted(files, prefix);
    forall n ensures n in WithPrefix(files, prefix) <==> n in files && StartsWith(n, prefix) {
      WithPrefixHolds(files, prefix, n);
    }
  }

  /** For any sorted listing: the names that carry the camera's prefix and lie between the two bounds. */
  lemma SelectedNames(files: seq<string>, camera: string, start: string, end: string)
    requires Sorted(files)
    ensures Sorted(PreviewFramesFromCache(files, camera, start, end))
    ensures forall n :: n in PreviewFramesFromCache(files, camera, start, end) <==>
                          && n in files && StartsWith(n, FilePrefix(camera))
                          && !Less(n, NameAt(camera, start)) && !Less(NameAt(camera, end), n)
  {
    var lo, hi := NameAt(camera, start), NameAt(camera, end);
    var left, right := BisectLeft(files, lo), BisectRight(files, hi);
    BisectLeftSplits(files, lo);
    BisectRightSplits(files, hi);
    WithPrefixKeepsOrder(Slice(files, left, right), FilePrefix(camera));
    forall n ensures n in Slice(files, left, right) <==> n in files && !Less(n, lo) && !Less(hi, n) {
      if n in files && !Less(n, lo) && !Less(hi, n) {
        var i :| 0 <= i < |files| && files[i] == n;
        assert files[left..right][i - left] == n;
      }
    }
  }

  // ---------------------------------------------------------------- whose frames carry the prefix

  /** A time as asked for, which may be negative. */
  datatype Time = Time(negative: bool, stamp: Stamp) {
    function Text(): string { if negative then "-" + stamp.Text() else stamp.Text() }

    function Value(): real { if negative then -stamp.Value() else stamp.Value() }
  }

  function At(stamp: Stamp): Time { Time(false, stamp) }

  /** What comes after `{camera}-` in the file names of another camera whose name continues it. */
  function ContinuedBy(camera: string, other: string): char
    requires StartsWith(other, camera + "-")
  {
    (other + "-")[|camera| + 1]
  }

  /** A camera whose name continues `{camera}-` with a digit could be mistaken for timestamps; and from a
      negative start on, one that continues it with a hyphen, or not at all, as well. */
  predicate Confusable(camera: string, other: string, negative: bool) {
    other != camera && StartsWith(other, camera + "-")
    && var c := ContinuedBy(camera, other); if negative then '-' <= c <= '9' else IsDigit(c)
  }

  lemma PrefixOwner(camera: string, f: Frame)
    requires f.stamp.Canonical() && StartsWith(f.FileName(), FilePrefix(camera))
    ensures f.camera == camera || StartsWith(f.camera, camera + "-")
  {
    var name, p, c := f.FileName(), FilePrefix(camera), f.camera;
    var tail := f.stamp.Text() + EXTENSION;
    assert name == "preview_" + c + "-" + tail;
    assert name[8..] == c + "-" + tail && p[8..] == camera + "-";
    assert name[..|p|] == p && name[..|p|][8..] == name[8..][..|camera| + 1];
    NoHyphen(f.stamp);
    OwnerOfTail(camera, c, tail);
  }

  lemma {:induction false} OwnerOfTail(camera: string, c: string, tail: string)
    requires StartsWith(c + "-" + tail, camera + "-") && '-' !in tail
    ensures c == camera || StartsWith(c, camera + "-")
  {
    var name := c + "-" + tail;
    assert name[..|camera| + 1] == camera + "-";
    assert name[|camera|] == '-';
    if |c| < |camera| {
      assert false;
    } else if |c| == |camera| {
      assert c == name[..|c|] == camera;
    } else {
      assert c[..|camera| + 1] == name[..|camera| + 1];
    }
  }

  lemma {:induction false} NoHyphen(s: Stamp)
    requires s.Canonical()
    ensures forall i :: 0 <= i < |s.Text() + EXTENSION| ==> (s.Text() + EXTENSION)[i] != '-'
  {
    assert forall i :: 0 <= i < |EXTENSION| ==> EXTENSION[i] != '-';
  }

  /** What follows the camera's own prefix in the name of a frame whose camera continues that prefix. */
  function Rest(camera: string, f: Frame): string
    requires StartsWith(f.camera, camera + "-")
  {
    f.camera[|camera| + 1..] + "-" + f.stamp.Text() + EXTENSION
  }

  /** Another camera's frame whose name passes for one of the camera's frames in the range. */
  predicate Leaks(camera: string, f: Frame, start: string, end: string) {
    && StartsWith(f.camera, camera + "-")
    && !Less(Rest(camera, f), start + EXTENSION) && !Less(end + EXTENSION, Rest(camera, f))
  }

  /** In file-name order the frame lies in the range if and only if its rest does. */
  lemma ForeignInRange(camera: string, f: Frame, start: string, end: string)
    requires StartsWith(f.camera, camera + "-")
    ensures StartsWith(f.FileName(), FilePrefix(camera))
    ensures Less(f.FileName(), NameAt(camera, start)) <==> Less(Rest(camera, f), start + EXTENSION)
    ensures Less(NameAt(camera, end), f.FileName()) <==> Less(end + EXTENSION, Rest(camera, f))
  {
    var p, rest := FilePrefix(camera), Rest(camera, f);
    assert f.camera == camera + "-" + f.camera[|camera| + 1..];
    assert f.FileName() == p + rest;
    assert NameAt(camera, start) == p + (start + EXTENSION);
    assert NameAt(camera, end) == p + (end + EXTENSION);
    CancelPrefix(p, rest, start + EXTENSION);
    CancelPrefix(p, end + EXTENSION, rest);
  }

  /** Another camera's frame is reported if and only if it leaks. */
  lemma ForeignReportedIffLeaks(files: seq<string>, camera: string, f: Frame, start: string, end: string)
    requires Sorted(files) && f.FileName() in files && f.stamp.Canonical() && f.camera != camera
    ensures f.FileName() in PreviewFramesFromCache(files, camera, start, end) <==> Leaks(camera, f, start, end)
  {
    SelectedNames(files, camera, start, end);
    if StartsWith(f.camera, camera + "-") {
      ForeignInRange(camera, f, start, end);
    } else if StartsWith(f.FileName(), FilePrefix(camera)) {
      PrefixOwner(camera, f);
    }
  }

  /** Only a confusable camera's frames leak; and all frames of a camera do whose name continues `{camera}-` with
      a character strictly between those the range begins and ends with. */
  lemma {:induction false} LeakingCameras(camera: string, f: Frame, start: Time, end: Time)
    requires start.stamp.Canonical() && end.stamp.Canonical() && f.camera != camera
    ensures Leaks(camera, f, start.Text(), end.Text()) ==> Confusable(camera, f.camera, start.negative)
    ensures StartsWith(f.camera, camera + "-")
            && start.Text()[0] < ContinuedBy(camera, f.camera) < end.Text()[0] ==>
              Leaks(camera, f, start.Text(), end.Text())
  {
    if StartsWith(f.camera, camera + "-") {
      var rest, lo, hi := Rest(camera, f), start.Text() + EXTENSION, end.Text() + EXTENSION;
      assert lo[0] == start.Text()[0] && hi[0] == end.Text()[0];
      assert rest == (f.camera + "-")[|camera| + 1..] + (f.stamp.Text() + EXTENSION);
      assert rest[0] == ContinuedBy(camera, f.camera);
    }
  }

  // ---------------------------------------------------------------- the query is a time-range query

  /** The listing of a directory that holds exactly these frames. */
  ghost predicate Lists(files: seq<string>, frames: set<Frame>) {
    && Sorted(files)
    && (forall f :: f in frames ==> f.FileName() in files)
    && (forall n :: n in files ==> exists f :: f in frames && f.FileName() == n)
  }

  /** Names of one camera's frames compare as their stamps' texts do. */
  lemma {:induction false} OwnOrder(camera: string, a: Stamp, b: Stamp)
    ensures Less(Frame(camera, a).FileName(), Frame(camera, b).FileName())
            <==> Less(a.Text() + EXTENSION, b.Text() + EXTENSION)
  {
    var p := FilePrefix(camera);
    assert Frame(camera, a).FileName() == p + (a.Text() + EXTENSION);
    assert Frame(camera, b).FileName() == p + (b.Text() + EXTENSION);
    CancelPrefix(p, a.Text() + EXTENSION, b.Text() + EXTENSION);
  }

  /** File-name order of one camera's frames is time order. */
  lemma FrameOrderIsTimeOrder(camera: string, a: Stamp, b: Stamp)
    requires a.Canonical() && b.Canonical() && |a.whole| == |b.whole|
    ensures Less(Frame(camera, a).FileName(), Frame(camera, b).FileName()) <==> a.Value() < b.Value()
  {
    OwnOrder(camera, a, b);
    StampOrderIsNumeric(a, b);
  }

  /** The answer names exactly the camera's frames with a timestamp in the closed range. */
  ghost predicate Exact(files: seq<string>, frames: set<Frame>, camera: string, start: Time, end: Time) {
    forall f :: f in frames ==>
                  (f.FileName() in PreviewFramesFromCache(files, camera, start.Text(), end.Text()) <==>
                     f.camera == camera && start.Value() <= f.stamp.Value() <= end.Value())
  }

  lemma {:induction false} OwnReported(files: seq<string>, camera: string, f: Frame, start: string, end: string)
    requires Sorted(files) && f.FileName() in files && f.camera == camera
    ensures f.FileName() in PreviewFramesFromCache(files, camera, start, end) <==>
              && !Less(f.stamp.Text() + EXTENSION, start + EXTENSION)
              && !Less(end + EXTENSION, f.stamp.Text() + EXTENSION)
  {
    var p, text := FilePrefix(camera), f.stamp.Text() + EXTENSION;
    SelectedNames(files, camera, start, end);
    assert f.FileName() == p + text && f.FileName()[..|p|] == p;
    assert NameAt(camera, start) == p + (start + EXTENSION) && NameAt(camera, end) == p + (end + EXTENSION);
    CancelPrefix(p, text, start + EXTENSION);
    CancelPrefix(p, end + EXTENSION, text);
  }

  /** Over any listing of frames, all with equally many digits before the point, the answer is exact if and only
      if no other camera's frame leaks. */
  lemma ExactIffNothingLeaks(files: seq<string>, frames: set<Frame>, camera: string, start: Stamp, end: Stamp)
    requires Lists(files, frames)
    requires start.Canonical() && end.Canonical() && |start.whole| == |end.whole|
    requires forall f :: f in frames ==> f.stamp.Canonical() && |f.stamp.whole| == |start.whole|
    ensures Exact(files, frames, camera, At(start), At(end)) <==>
              forall f :: f in frames && f.camera != camera ==> !Leaks(camera, f, start.Text(), end.Text())
    ensures forall n :: n in PreviewFramesFromCache(files, camera, start.Text(), end.Text()) ==>
              exists f :: f in frames && f.FileName() == n
  {
    SelectedNames(files, camera, start.Text(), end.Text());
    forall f | f in frames
      ensures f.FileName() in PreviewFramesFromCache(files, camera, start.Text(), end.Text()) <==>
                if f.camera == camera then start.Value() <= f.stamp.Value() <= end.Value()
                else Leaks(camera, f, start.Text(), end.Text())
    {
      if f.camera == camera {
        OwnReported(files, camera, f, start.Text(), end.Text());
        StampOrderIsNumeric(f.stamp, start);
        StampOrderIsNumeric(end, f.stamp);
      } else {
        ForeignReportedIffLeaks(files, camera, f, start.Text(), end.Text());
      }
    }
  }

  /** Name order is right about a frame and the start of a range: a negative start is never too late. */
  predicate StartInOrder(f: Stamp, start: Time) { start.negative || InOrder(f, start.stamp) }

  /** And about the end: a negative one is before every frame, but for zero, which is written with a sign, too. */
  predicate EndInOrder(end: Time, f: Stamp) {
    if end.negative then end.stamp.Value() > 0.0 || f.Value() > 0.0 else InOrder(end.stamp, f)
  }

  lemma {:induction false} NameOrderRightAboutEnds(f: Stamp, start: Time, end: Time)
    requires Printed(f) && Printed(start.stamp) && Printed(end.stamp)
    ensures (Less(f.Text() + EXTENSION, start.Text() + EXTENSION) <==> f.Value() < start.Value())
            <==> StartInOrder(f, start)
    ensures (Less(end.Text() + EXTENSION, f.Text() + EXTENSION) <==> end.Value() < f.Value()) <==> EndInOrder(end, f)
  {
    NumberBounds(f.whole, f.frac);
    assert IsDigit((f.Text() + EXTENSION)[0]);
    if start.negative {
      NumberBounds(start.stamp.whole, start.stamp.frac);
      assert (start.Text() + EXTENSION)[0] == '-';
    } else {
      NameOrderRightIff(f, start.stamp);
    }
    if end.negative {
      NumberBounds(end.stamp.whole, end.stamp.frac);
      assert (end.Text() + EXTENSION)[0] == '-';
    } else {
      NameOrderRightIff(end.stamp, f);
    }
  }

  /** For a request with whatever timestamps: name order is right about the frame and both ends of the range; or
      it is wrong about one end only, the frame lying beyond the other; or about both, the frame lying beyond
      one of them. */
  predicate WellPlaced(f: Stamp, start: Time, end: Time) {
    var before, behind := f.Value() < start.Value(), end.Value() < f.Value();
    if StartInOrder(f, start) then EndInOrder(end, f) || before
    else if EndInOrder(end, f) then behind
    else before != behind
  }

  /** An own frame is reported rightly if and only if it is well placed. */
  lemma {:induction false} OwnFrameRightIff(files: seq<string>, camera: string, f: Frame, start: Time, end: Time)
    requires Sorted(files) && f.FileName() in files && f.camera == camera
    requires Printed(f.stamp) && Printed(start.stamp) && Printed(end.stamp)
    ensures (f.FileName() in PreviewFramesFromCache(files, camera, start.Text(), end.Text())
             <==> start.Value() <= f.stamp.Value() <= end.Value()) <==> WellPlaced(f.stamp, start, end)
  {
    OwnReported(files, camera, f, start.Text(), end.Text());
    NameOrderRightAboutEnds(f.stamp, start, end);
  }

  /** For any request and any listing of frames, with timestamps of whatever sign and length: the answer is exact
      if and only if no other camera's frame leaks and every frame of the camera is well placed. */
  lemma {:induction false} ExactIffWellPlaced(files: seq<string>, frames: set<Frame>, camera: string,
                                              start: Time, end: Time)
    requires Lists(files, frames) && forall f :: f in frames ==> Printed(f.stamp)
    requires Printed(start.stamp) && Printed(end.stamp)
    ensures Exact(files, frames, camera, start, end) <==>
              forall f :: f in frames ==>
                if f.camera == camera then WellPlaced(f.stamp, start, end)
                else !Leaks(camera, f, start.Text(), end.Text())
  {
    forall f | f in frames
      ensures (f.FileName() in PreviewFramesFromCache(files, camera, start.Text(), end.Text()) <==>
                 f.camera == camera && start.Value() <= f.stamp.Value() <= end.Value())
              <==> if f.camera == camera then WellPlaced(f.stamp, start, end)
                   else !Leaks(camera, f, start.Text(), end.Text())
    {
      if f.camera == camera {
        OwnFrameRightIff(files, camera, f, start, end);
      } else {
        ForeignReportedIffLeaks(files, camera, f, start.Text(), end.Text());
      }
    }
  }

  /** Without confusable cameras only the placing of the camera's own frames matters. */
  lemma {:induction false} ExactWithoutConfusableCameras(files: seq<string>, frames: set<Frame>, camera: string,
                                                         start: Time, end: Time)
    requires Lists(files, frames) && forall f :: f in frames ==> Printed(f.stamp)
    requires Printed(start.stamp) && Printed(end.stamp)
    requires forall f :: f in frames ==> !Confusable(camera, f.camera, start.negative)
    ensures Exact(files, frames, camera, start, end) <==>
              forall f :: f in frames && f.camera == camera ==> WellPlaced(f.stamp, start, end)
  {
    ExactIffWellPlaced(files, frames, camera, start, end);
    forall f | f in frames && f.camera != camera ensures !Leaks(camera, f, start.Text(), end.Text()) {
      LeakingCameras(camera, f, start, end);
    }
  }

  /** Two frames of the camera come in chronological order in the answer if and only if name order is right
      about their times. */
  lemma {:induction false} AnswerIsChronologicalIff(files: seq<string>, camera: string, start: string, end: string,
                                                    a: Stamp, b: Stamp, i: nat, j: nat)
    requires Sorted(files)
    requires i < |PreviewFramesFromCache(files, camera, start, end)|
    requires j < |PreviewFramesFromCache(files, camera, start, end)|
    requires PreviewFramesFromCache(files, camera, start, end)[i] == Frame(camera, a).FileName()
    requires PreviewFramesFromCache(files, camera, start, end)[j] == Frame(camera, b).FileName()
    requires Printed(a) && Printed(b)
    ensures (i < j <==> a.Value() < b.Value()) <==> InOrder(a, b)
    ensures |a.whole| == |b.whole| ==> InOrder(a, b)
  {
    SelectedNames(files, camera, start, end);
    OwnOrder(camera, a, b);
    NameOrderRightIff(a, b);
    Irreflexive(Frame(camera, a).FileName());
    if j < i {
      Asymmetric(Frame(camera, b).FileName(), Frame(camera, a).FileName());
    }
  }

  /** The condition on names is needed: with a camera named `a-5`, its frame is reported for camera `a`. */
  lemma ConfusableCameraLeaks()
    ensures var f := Frame("a-5", Stamp("7", "0"));
            f.FileName() in PreviewFramesFromCache([f.FileName()], "a", "4.0", "6.0")
  {
    var f, start, end := Frame("a-5", Stamp("7", "0")), At(Stamp("4", "0")), At(Stamp("6", "0"));
    assert "a-5" == ("a" + "-") + "5";
    assert ("a-5" + "-")[2] == '5';
    assert start.Text() == "4.0" && end.Text() == "6.0";
    LeakingCameras("a", f, start, end);
    assert f.FileName() in [f.FileName()];
    ForeignReportedIffLeaks([f.FileName()], "a", f, "4.0", "6.0");
  }

  /** So is the condition on the digits: the frame at 10.0 is missing from the answer for 9.0 to 11.0. */
  lemma FrameWithMoreDigitsIsMissed()
    ensures var f := Frame("a", Stamp("10", "0"));
            && 9.0 <= f.stamp.Value() <= 11.0
            && f.FileName() !in PreviewFramesFromCache([f.FileName()], "a", "9.0", "11.0")
  {
    var f, nine, ten, eleven := Frame("a", Stamp("10", "0")), Stamp("9", "0"), Stamp("10", "0"), Stamp("11", "0");
    assert nine.Text() == "9.0" && eleven.Text() == "11.0";
    assert f.FileName() in [f.FileName()];
    OwnReported([f.FileName()], "a", f, "9.0", "11.0");
    FewerDigits(nine, ten);
    assert ten.whole[..1] == ['1'];
    assert Less(['1'], "9");
    FractionBounds("0");
    assert Digit('1') == 1.0 && Digit('0') == 0.0 && Digit('9') == 9.0;
    assert "10"[1..] == ['0'] && "11"[1..] == ['1'] && ['0'][1..] == [] && ['1'][1..] == [];
    assert Number([], "0") == Fraction("0") == 0.0;
    assert Number(['0'], "0") == 0.0;
    assert Place(1.0, 1) == 10.0;
    assert ten.Value() == 10.0;
  }
}
