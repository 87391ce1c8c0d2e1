/** Flat key paths of a nested configuration (frigate/util/builtin.py and frigate/api/app.py).

    Nested keys are flattened to one dotted string in which dots and backslashes inside a key are escaped.
    Two places take such a string apart again: `split_config_key_path`, which honours the escapes, and the
    in-memory update, which splits at every dot. */
module ConfigPaths {
  import opened Common

  type Path = seq<string>

  // ---------------------------------------------------------------- printing a path

  /** Replaces every occurrence of one character. */
  function Replace(s: string, c: char, repl: string): string {
    if s == [] then [] else (if s[0] == c then repl else [s[0]]) + Replace(s[1..], c, repl)
  }

  /** Backslashes are doubled, then dots get a backslash. */
  function Escape(segment: string): string {
    Replace(Replace(segment, '\\', "\\\\"), '.', "\\.")
  }

  /** The flat key of a nested key: parent key, dot, escaped segment, without the dot when the parent key is
      empty. */
  function KeyPath(path: Path): string {
    if path == [] then ""
    else
      var parent, last := KeyPath(path[..|path| - 1]), Escape(path[|path| - 1]);
      if parent != "" then parent + "." + last else last
  }

  // ---------------------------------------------------------------- taking it apart

  /** What remains to be returned when `rest` is still to be read, `current` has been collected, and the
      last character was, or was not, an escaping backslash. */
  function Parts(rest: string, current: string, escaped: bool): (parts: Path)
    ensures parts != []
    decreases rest
  {
    if rest == [] then [if escaped then current + "\\" else current]
    else if escaped then Parts(rest[1..], current + [rest[0]], false)
    else if rest[0] == '\\' then Parts(rest[1..], current, true)
    else if rest[0] == '.' then [current] + Parts(rest[1..], "", false)
    else Parts(rest[1..], current + [rest[0]], false)
  }

  method SplitConfigKeyPath(keyPath: string) returns (parts: Path)
    ensures parts == Parts(keyPath, "", false)
  {
    parts := [];
    var current, escaped := "", false;
    for i := 0 to |keyPath|
      invariant Parts(keyPath, "", false) == parts + Parts(keyPath[i..], current, escaped)
    {
      var c := keyPath[i];
      if escaped {
        current, escaped := current + [c], false;
      } else if c == '\\' {
        escaped := true;
      } else if c == '.' {
        parts, current := parts + [current], "";
      } else {
        current := current + [c];
      }
    }
    if escaped {
      current := current + "\\";
    }
    parts := parts + [current];
  }

  /** Python's `s.split(".")`, with `current` already collected. */
  function SplitDots(s: string, current: string): (parts: Path)
    ensures parts != []
    decreases s
  {
    if s == [] then [current]
    else if s[0] == '.' then [current] + SplitDots(s[1..], "")
    else SplitDots(s[1..], current + [s[0]])
  }

  /** Segments with dots between them. */
  function Dotted(parts: Path): string
    requires parts != []
  {
    if |parts| == 1 then parts[0] else parts[0] + "." + Dotted(parts[1..])
  }

  lemma {:induction false} DottedCons(first: string, rest: Path)
    requires rest != []
    ensures Dotted([first] + rest) == first + "." + Dotted(rest)
  {
    assert ([first] + rest)[1..] == rest;
  }

  /** Splitting at dots loses nothing: putting the dots back gives the text, so that different texts come
      apart differently. */
  lemma {:induction false} DottedSplit(s: string, current: string)
    ensures Dotted(SplitDots(s, current)) == current + s
    decreases s
  {
    if s == [] {
      assert current + s == current;
    } else {
      assert [s[0]] + s[1..] == s;
      Regroup(current, [s[0]], s[1..]);
      if s[0] == '.' {
        DottedSplit(s[1..], "");
        assert "" + s[1..] == s[1..];
        DottedCons(current, SplitDots(s[1..], ""));
      } else {
        DottedSplit(s[1..], current + [s[0]]);
      }
    }
  }

  // ---------------------------------------------------------------- escaping, character by character

  function EscapeChar(c: char): string {
    if c == '\\' then "\\\\" else if c == '.' then "\\." else [c]
  }

  lemma {:induction false} ReplaceConcat(a: string, b: string, c: char, repl: string)
    ensures Replace(a + b, c, repl) == Replace(a, c, repl) + Replace(b, c, repl)
  {
    if a == [] {
      assert a + b == b;
    } else {
      ReplaceConcat(a[1..], b, c, repl);
      assert (a + b)[1..] == a[1..] + b;
      Regroup(if a[0] == c then repl else [a[0]], Replace(a[1..], c, repl), Replace(b, c, repl));
    }
  }

  lemma {:induction false} ReplaceOne(x: char, c: char, repl: string)
    ensures Replace([x], c, repl) == if x == c then repl else [x]
  {
    assert [x][1..] == [];
  }

  lemma EscapeCons(s: string)
    requires s != []
    ensures Escape(s) == EscapeChar(s[0]) + Escape(s[1..])
  {
    var tail := Replace(s[1..], '\\', "\\\\");
    var head := if s[0] == '\\' then "\\\\" else [s[0]];
    ReplaceConcat(head, tail, '.', "\\.");
    if s[0] == '\\' {
      assert head == ['\\'] + ['\\'];
      ReplaceConcat(['\\'], ['\\'], '.', "\\.");
      ReplaceOne('\\', '.', "\\.");
    } else {
      ReplaceOne(s[0], '.', "\\.");
    }
  }

  /** Reading one escaped character collects it. */
  lemma {:induction false} PartsOfEscapedChar(c: char, more: string, current: string)
    ensures Parts(EscapeChar(c) + more, current, false) == Parts(more, current + [c], false)
  {
    if c == '\\' || c == '.' {
      var s := ['\\'] + ([c] + more);
      assert EscapeChar(c) + more == s;
      assert s[1..] == [c] + more && ([c] + more)[1..] == more;
    } else {
      assert ([c] + more)[1..] == more;
    }
  }

  /** Reading an escaped segment collects the segment. */
  lemma {:induction false} PartsOfEscaped(segment: string, rest: string, current: string)
    ensures Parts(Escape(segment) + rest, current, false) == Parts(rest, current + segment, false)
    decreases segment
  {
    if segment == [] {
      assert Escape(segment) + rest == rest && current + segment == current;
    } else {
      EscapeCons(segment);
      var c, more := segment[0], Escape(segment[1..]) + rest;
      Regroup(EscapeChar(c), Escape(segment[1..]), rest);
      PartsOfEscapedChar(c, more, current);
      PartsOfEscaped(segment[1..], rest, current + [c]);
      Regroup(current, [c], segment[1..]);
      assert [c] + segment[1..] == segment;
    }
  }

  // ---------------------------------------------------------------- the printed path

  /** Escaped segments with dots between them. */
  function Joined(path: Path): string
    requires path != []
  {
    if |path| == 1 then Escape(path[0]) else Escape(path[0]) + "." + Joined(path[1..])
  }

  lemma {:induction false} JoinedSnoc(path: Path, last: string)
    requires path != []
    ensures Joined(path + [last]) == Joined(path) + "." + Escape(last)
  {
    assert (path + [last])[1..] == path[1..] + [last];
    if |path| == 1 {
      assert path[1..] + [last] == [last];
    } else {
      JoinedSnoc(path[1..], last);
    }
  }

  lemma {:induction false} EscapeBlank(s: string)
    ensures Escape(s) == "" <==> s == ""
    ensures s != "" ==> Escape(s)[0] != '.'
  {
    if s != "" { EscapeCons(s); }
  }

  lemma {:induction false} JoinedNotBlank(path: Path)
    requires path != [] && path[0] != ""
    ensures Joined(path) != "" && Joined(path)[0] != '.'
  {
    EscapeBlank(path[0]);
  }

  /** A path whose flat key shows all of it: it has a segment, and it does not start with an empty one that
      is followed by others. */
  predicate Anchored(path: Path) {
    path != [] && (|path| == 1 || path[0] != "")
  }

  lemma {:induction false} KeyPathIsJoined(path: Path)
    requires Anchored(path)
    ensures KeyPath(path) == Joined(path)
  {
    var n := |path| - 1;
    if n > 0 {
      KeyPathIsJoined(path[..n]);
      JoinedSnoc(path[..n], path[n]);
      assert path == path[..n] + [path[n]];
      JoinedNotBlank(path[..n]);
    } else {
      assert path[..n] == [];
    }
  }

  /** Leading empty segments vanish from the flat key. */
  lemma {:induction false} KeyPathDropsBlank(path: Path)
    requires |path| > 1 && path[0] == ""
    ensures KeyPath(path) == KeyPath(path[1..])
  {
    var n := |path| - 1;
    assert path[..n][1..] == path[1..][..n - 1];
    if n == 1 {
      assert path[..1] == [""] && path[..1][..0] == [];
      assert path[1..][..0] == [];
      EscapeBlank("");
    } else {
      KeyPathDropsBlank(path[..n]);
    }
  }

  /** What survives of a path in its flat key. */
  function Visible(path: Path): Path
    requires path != []
  {
    if |path| > 1 && path[0] == "" then Visible(path[1..]) else path
  }

  lemma {:induction false} KeyPathShowsVisible(path: Path)
    requires path != []
    ensures Anchored(Visible(path)) && KeyPath(path) == Joined(Visible(path))
    ensures |Visible(path)| <= |path| && (Visible(path) == path <==> Anchored(path))
    ensures !Anchored(path) ==> |Visible(path)| < |path|
  {
    if Anchored(path) {
      KeyPathIsJoined(path);
    } else {
      KeyPathDropsBlank(path);
      KeyPathShowsVisible(path[1..]);
    }
  }

  // ---------------------------------------------------------------- round trips

  lemma {:induction false} PartsOfJoined(path: Path)
    requires path != []
    ensures Parts(Joined(path), "", false) == path
  {
    if |path| == 1 {
      PartsOfEscaped(path[0], "", "");
      assert Escape(path[0]) + "" == Escape(path[0]) && "" + path[0] == path[0];
      assert path == [path[0]];
    } else {
      var rest := "." + Joined(path[1..]);
      assert Joined(path) == Escape(path[0]) + rest;
      PartsOfEscaped(path[0], rest, "");
      assert "" + path[0] == path[0];
      assert path == [path[0]] + path[1..];
      assert rest[1..] == Joined(path[1..]);
      PartsOfJoined(path[1..]);
    }
  }

  /** Flattening a key and splitting it with regard to the escapes gives back the path if and only if the path
      is anchored. */
  lemma FlattenThenSplit(path: Path)
    requires path != []
    ensures Parts(KeyPath(path), "", false) == Visible(path)
    ensures Parts(KeyPath(path), "", false) == path <==> Anchored(path)
  {
    KeyPathShowsVisible(path);
    PartsOfJoined(Visible(path));
  }

  /** No dot and no backslash. */
  predicate PlainSegment(s: string) { '.' !in s && '\\' !in s }

  lemma {:induction false} SplitPlain(a: string, rest: string, current: string)
    requires '.' !in a
    ensures SplitDots(a + rest, current) == SplitDots(rest, current + a)
    decreases a
  {
    if a == [] {
      assert a + rest == rest && current + a == current;
    } else {
      assert (a + rest)[1..] == a[1..] + rest;
      SplitPlain(a[1..], rest, current + [a[0]]);
      assert current + [a[0]] + a[1..] == current + a;
    }
  }

  lemma {:induction false} EscapePlain(s: string)
    ensures PlainSegment(s) ==> Escape(s) == s
    ensures '.' !in s ==> '.' !in Escape(s)
    ensures '.' !in s && '\\' in s ==> |Escape(s)| > |s|
    ensures |Escape(s)| >= |s|
  {
    if s != [] {
      EscapeCons(s);
      EscapePlain(s[1..]);
      assert s == [s[0]] + s[1..];
    }
  }

  /** The first piece of a text never contains a dot, and ends where the text's first dot is. */
  lemma {:induction false} FirstPiece(s: string, current: string)
    requires '.' !in current
    ensures '.' !in SplitDots(s, current)[0]
    ensures '.' !in s ==> SplitDots(s, current) == [current + s]
    decreases s
  {
    if s != [] && s[0] != '.' {
      FirstPiece(s[1..], current + [s[0]]);
      assert current + [s[0]] + s[1..] == current + s;
    } else if s == [] {
      assert current + s == current;
    }
  }

  /** Unless it contains a dot, the first segment is split off, as it was escaped. */
  lemma {:induction false} SplitOffFirst(path: Path)
    requires path != []
    ensures '.' in path[0] ==> SplitDots(Joined(path), "")[0] != path[0]
    ensures '.' !in path[0] ==>
              SplitDots(Joined(path), "") ==
                [Escape(path[0])] + if |path| == 1 then [] else SplitDots(Joined(path[1..]), "")
  {
    var e, rest := Escape(path[0]), if |path| == 1 then "" else "." + Joined(path[1..]);
    assert Joined(path) == e + rest;
    FirstPiece(e + rest, "");
    if '.' !in path[0] {
      EscapePlain(path[0]);
      SplitPlain(e, rest, "");
      assert "" + e == e;
      assert |path| > 1 ==> rest[1..] == Joined(path[1..]);
    }
  }

  /** Splitting at dots undoes the joining exactly when no segment needs escaping. */
  lemma {:induction false} SplitDotsOfJoined(path: Path)
    requires path != []
    ensures SplitDots(Joined(path), "") == path <==> forall s :: s in path ==> PlainSegment(s)
  {
    SplitOffFirst(path);
    EscapePlain(path[0]);
    assert path[0] in path;
    if '.' !in path[0] {
      var parts := SplitDots(Joined(path), "");
      assert parts[0] == path[0] <==> PlainSegment(path[0]);
      assert path == [path[0]] + path[1..];
      if |path| > 1 {
        SplitDotsOfJoined(path[1..]);
        assert parts[1..] == SplitDots(Joined(path[1..]), "");
        assert parts == path <==> parts[0] == path[0] && parts[1..] == path[1..];
      }
    }
  }

  /** The in-memory update gives back the path a flat key was made from if and only if the path is anchored
      and none of its segments contains a dot or a backslash. */
  lemma FlattenThenSplitDots(path: Path)
    requires path != []
    ensures SplitDots(KeyPath(path), "") == path <==> Anchored(path) && forall s :: s in path ==> PlainSegment(s)
  {
    KeyPathShowsVisible(path);
    if Anchored(path) {
      SplitDotsOfJoined(path);
    } else {
      var v := Visible(path);
      if v[0] != "" {
        JoinedNotBlank(v);
        FirstPieceNotBlank(Joined(v), "");
      } else {
        EscapeBlank("");
        assert SplitDots(Joined(v), "") == [""];
      }
    }
  }

  /** A key with a dot in it comes back in two pieces, and a leading empty key not at all. */
  lemma {:induction false} KeysThatComeBackWrong()
    ensures var path := ["cameras", "c", "zones", "a.b"]; SplitDots(KeyPath(path), "") != path
    ensures SplitDots(KeyPath(["", "a"]), "") == Parts(KeyPath(["", "a"]), "", false) == ["a"]
  {
    var path := ["cameras", "c", "zones", "a.b"];
    assert path[3][1] == '.' && path[3] in path;
    assert !PlainSegment(path[3]);
    FlattenThenSplitDots(path);
    FlattenThenSplit(["", "a"]);
    KeyPathShowsVisible(["", "a"]);
    assert ["", "a"][1..] == ["a"];
    assert PlainSegment("a");
    SplitDotsOfJoined(["a"]);
  }

  /** A dot splits a text in any case. */
  lemma {:induction false} SplitDotsConcat(a: string, b: string, current: string)
    ensures SplitDots(a + ("." + b), current) == SplitDots(a, current) + SplitDots(b, "")
    decreases a
  {
    var all := a + ("." + b);
    if a == [] {
      assert all == "." + b && all[1..] == b;
    } else {
      assert all[1..] == a[1..] + ("." + b);
      if a[0] == '.' {
        SplitDotsConcat(a[1..], b, "");
        Regroup([current], SplitDots(a[1..], ""), SplitDots(b, ""));
      } else {
        SplitDotsConcat(a[1..], b, current + [a[0]]);
      }
    }
  }

  /** Splitting at dots finds at least as many pieces as there were segments. */
  lemma {:induction false} NoPieceMissing(path: Path)
    requires path != []
    ensures |SplitDots(Joined(path), "")| >= |path|
  {
    if |path| > 1 {
      NoPieceMissing(path[1..]);
      SplitDotsConcat(Escape(path[0]), Joined(path[1..]), "");
      Regroup(Escape(path[0]), ".", Joined(path[1..]));
    }
  }

  /** A text of several segments begins with this one, which needs no escaping, exactly when the path does. */
  lemma {:induction false} FirstSegment(path: Path, first: string)
    requires path != [] && PlainSegment(first)
    ensures |SplitDots(Joined(path), "")| > 1 && SplitDots(Joined(path), "")[0] == first ==> path[0] == first
    ensures path[0] == first ==> SplitDots(Joined(path), "")[0] == first
  {
    var parts := SplitDots(Joined(path), "");
    EscapePlain(first);
    SplitOffFirst(path);
    if |parts| > 1 && parts[0] == first {
      DottedSplit(Joined(path), "");
      assert "" + Joined(path) == Joined(path);
      var rest := "." + Dotted(parts[1..]);
      Regroup(first, ".", Dotted(parts[1..]));
      assert Joined(path) == Escape(first) + rest;
      PartsOfEscaped(first, rest, "");
      PartsOfJoined(path);
      assert "" + first == first;
    }
  }

  /** There is a second piece exactly when there is a dot. */
  lemma {:induction false} PiecesAndDots(s: string, current: string)
    ensures |SplitDots(s, current)| > 1 <==> '.' in s
    decreases s
  {
    if s != [] {
      assert s == [s[0]] + s[1..];
      PiecesAndDots(s[1..], if s[0] == '.' then "" else current + [s[0]]);
    }
  }

  lemma {:induction false} EscapeKeepsDots(s: string)
    ensures '.' in Escape(s) <==> '.' in s
  {
    if s != [] {
      EscapeCons(s);
      EscapeKeepsDots(s[1..]);
      assert s == [s[0]] + s[1..];
      assert '.' in EscapeChar(s[0]) <==> s[0] == '.';
    }
  }

  /** A joined path is as long as its segments with dots between them, or longer if one needs escaping. */
  lemma {:induction false} JoinedLength(path: Path)
    requires path != []
    ensures |Joined(path)| >= |Dotted(path)|
    ensures (forall s :: s in path ==> PlainSegment(s)) ==> Joined(path) == Dotted(path)
  {
    EscapePlain(path[0]);
    EscapeLength(path[0]);
    assert path[0] in path;
    if |path| > 1 {
      JoinedLength(path[1..]);
    }
  }

  lemma {:induction false} EscapeLength(s: string)
    ensures |Escape(s)| >= |s| && (!PlainSegment(s) ==> |Escape(s)| > |s|)
  {
    if s != [] {
      EscapeCons(s);
      EscapeLength(s[1..]);
      assert s == [s[0]] + s[1..];
    }
  }

  /** Different paths are joined differently. */
  lemma {:induction false} JoinedInjective(p: Path, q: Path)
    requires p != [] && q != [] && Joined(p) == Joined(q)
    ensures p == q
  {
    PartsOfJoined(p);
    PartsOfJoined(q);
  }

  /** Splitting keeps the order of continuation: one text's pieces continue another's exactly when the one path
      continues the other. */
  lemma {:induction false} SplitKeepsBelow(p: Path, q: Path)
    requires p != [] && q != []
    ensures SplitDots(Joined(p), "") < SplitDots(Joined(q), "") <==> p < q
  {
    if p < q {
      JoinedContinues(p, q[|p|..]);
      assert q == p + q[|p|..];
      SplitDotsConcat(Joined(p), Joined(q[|p|..]), "");
      Regroup(Joined(p), ".", Joined(q[|p|..]));
    }
    var a, b := SplitDots(Joined(p), ""), SplitDots(Joined(q), "");
    if a < b {
      DottedSplit(Joined(p), "");
      DottedSplit(Joined(q), "");
      assert "" + Joined(p) == Joined(p) && "" + Joined(q) == Joined(q);
      DottedContinues(a, b[|a|..]);
      assert b == a + b[|a|..];
      PartsContinue(p, Dotted(b[|a|..]));
      PartsOfJoined(q);
    }
  }

  lemma {:induction false} JoinedContinues(p: Path, more: Path)
    requires p != [] && more != []
    ensures Joined(p + more) == Joined(p) + "." + Joined(more)
  {
    assert (p + more)[1..] == p[1..] + more;
    if |p| == 1 {
      assert p[1..] + more == more;
    } else {
      JoinedContinues(p[1..], more);
    }
  }

  lemma {:induction false} DottedContinues(p: Path, more: Path)
    requires p != [] && more != []
    ensures Dotted(p + more) == Dotted(p) + "." + Dotted(more)
  {
    assert (p + more)[1..] == p[1..] + more;
    if |p| == 1 {
      assert p[1..] + more == more;
    } else {
      DottedContinues(p[1..], more);
    }
  }

  lemma {:induction false} PartsContinue(p: Path, rest: string)
    requires p != []
    ensures Parts(Joined(p) + "." + rest, "", false) == p + Parts(rest, "", false)
  {
    var tail := "." + rest;
    assert tail[1..] == rest && "" + p[0] == p[0];
    if |p| == 1 {
      Regroup(Escape(p[0]), ".", rest);
      PartsOfEscaped(p[0], tail, "");
      assert [p[0]] == p;
    } else {
      var more := "." + (Joined(p[1..]) + "." + rest);
      assert Joined(p) + "." + rest == Escape(p[0]) + more;
      assert more[1..] == Joined(p[1..]) + "." + rest;
      PartsOfEscaped(p[0], more, "");
      PartsContinue(p[1..], rest);
      assert [p[0]] + p[1..] == p;
      Regroup([p[0]], p[1..], Parts(rest, "", false));
    }
  }

  lemma {:induction false} FirstPieceNotBlank(s: string, current: string)
    requires current != "" || (s != "" && s[0] != '.')
    ensures SplitDots(s, current)[0] != ""
    decreases s
  {
    if s != "" && s[0] != '.' {
      FirstPieceNotBlank(s[1..], current + [s[0]]);
    }
  }
}
