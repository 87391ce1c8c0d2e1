/** Line re-assembly for redirected output (frigate/log.py, `LogRedirect`).

    Text arrives in arbitrary pieces; complete lines are logged and the rest waits in a buffer.  The split is
    Python's `str.splitlines`, which knows more line boundaries than the newline, so that the promise of
    logging line by line is kept on some texts only. */
module LogRedirect {
  import opened Common

  const NL := '\n'
  const CR := '\r'

  /** The line boundaries of `str.splitlines`; a carriage return followed by a newline is one boundary. */
  predicate IsBoundary(c: char) {
    c in {NL, CR, '\U{000B}', '\U{000C}', '\U{001C}', '\U{001D}', '\U{001E}', '\U{0085}', '\U{2028}', '\U{2029}'}
  }

  /** `s.splitlines(keepends=True)`, with `current` already read of the first piece. */
  function Pieces(s: string, current: string): seq<string>
    decreases |s|
  {
    if s == [] then (if current == [] then [] else [current])
    else if s[0] == CR && |s| > 1 && s[1] == NL then [current + [CR] + [NL]] + Pieces(s[2..], [])
    else if IsBoundary(s[0]) then [current + [s[0]]] + Pieces(s[1..], [])
    else Pieces(s[1..], current + [s[0]])
  }

  function SplitLines(s: string): seq<string> { Pieces(s, []) }

  predicate EndsWithNewline(s: string) { s != [] && s[|s| - 1] == NL }

  /** `line.rstrip("\n")` */
  function StripNewlines(s: string): string {
    if EndsWithNewline(s) then StripNewlines(s[..|s| - 1]) else s
  }

  /** The pieces that are logged, and those that go back to the buffer. */
  function Logged(pieces: seq<string>): seq<string> {
    if pieces == [] then []
    else (if EndsWithNewline(pieces[0]) then [StripNewlines(pieces[0])] else []) + Logged(pieces[1..])
  }

  function Kept(pieces: seq<string>): seq<string> {
    if pieces == [] then []
    else (if EndsWithNewline(pieces[0]) then [] else [pieces[0]]) + Kept(pieces[1..])
  }

  // ---------------------------------------------------------------- the redirect

  class LogRedirect {
    var lineBuffer: seq<string>
    var logged: seq<string>

    constructor ()
      ensures lineBuffer == [] && logged == []
    {
      lineBuffer, logged := [], [];
    }

    /** Logs the pieces that end with a newline and buffers the others. */
    method Distribute(lines: seq<string>)
      modifies this
      ensures lineBuffer == old(lineBuffer) + Kept(lines) && logged == old(logged) + Logged(lines)
    {
      ghost var allKept, allLogged := lineBuffer + Kept(lines), logged + Logged(lines);
      for i := 0 to |lines|
        invariant lineBuffer + Kept(lines[i..]) == allKept
        invariant logged + Logged(lines[i..]) == allLogged
      {
        assert lines[i..][1..] == lines[i + 1..];
        if EndsWithNewline(lines[i]) {
          Regroup(logged, [StripNewlines(lines[i])], Logged(lines[i + 1..]));
          logged := logged + [StripNewlines(lines[i])];
        } else {
          Regroup(lineBuffer, [lines[i]], Kept(lines[i + 1..]));
          lineBuffer := lineBuffer + [lines[i]];
        }
      }
    }

    method Write(s: string) returns (n: nat)
      modifies this
      ensures n == |s|
      ensures NL !in s ==> lineBuffer == old(lineBuffer) + [s] && logged == old(logged)
      ensures NL in s ==>
                var pieces := SplitLines(Join(old(lineBuffer)) + s);
                lineBuffer == Kept(pieces) && logged == old(logged) + Logged(pieces)
    {
      assert (lineBuffer + [s])[..|lineBuffer|] == lineBuffer;
      lineBuffer := lineBuffer + [s];
      if NL in s {
        var fullOutput := Join(lineBuffer);
        lineBuffer := [];
        Distribute(SplitLines(fullOutput));
      }
      n := |s|;
    }

    method Flush()
      modifies this
      ensures Join(lineBuffer) == []
      ensures logged == old(logged) + if Join(old(lineBuffer)) == [] then [] else [Join(old(lineBuffer))]
    {
      if lineBuffer != [] {
        var fullOutput := Join(lineBuffer);
        lineBuffer := [];
        if fullOutput != [] {
          logged := logged + [fullOutput];
        }
      }
    }

    /** Writes in the order given, as a program printing does. */
    method WriteAll(ws: seq<string>)
      requires lineBuffer == [] && logged == []
      modifies this
      ensures State(Join(lineBuffer), logged) == After(ws)
    {
      for i := 0 to |ws|
        invariant State(Join(lineBuffer), logged) == After(ws[..i])
      {
        assert ws[..i + 1][..i] == ws[..i];
        assert (lineBuffer + [ws[i]])[..|lineBuffer|] == lineBuffer;
        var _ := Write(ws[i]);
      }
      assert ws[..|ws|] == ws;
    }
  }

  /** The buffered text and the lines logged. */
  datatype State = State(buffer: string, logged: seq<string>)

  function Step(st: State, s: string): State {
    if NL !in s then st.(buffer := st.buffer + s)
    else
      var pieces := SplitLines(st.buffer + s);
      State(Join(Kept(pieces)), st.logged + Logged(pieces))
  }

  function After(ws: seq<string>): State {
    if ws == [] then State([], []) else Step(After(ws[..|ws| - 1]), ws[|ws| - 1])
  }

  // ---------------------------------------------------------------- what is promised

  /** The complete lines of a text, without their newlines, `current` being already read of the first. */
  function LinesFrom(s: string, current: string): seq<string>
    decreases s
  {
    if s == [] then []
    else if s[0] == NL then [current] + LinesFrom(s[1..], [])
    else LinesFrom(s[1..], current + [s[0]])
  }

  /** What is left after the last newline. */
  function TailFrom(s: string, current: string): string
    decreases s
  {
    if s == [] then current else if s[0] == NL then TailFrom(s[1..], []) else TailFrom(s[1..], current + [s[0]])
  }

  function CompleteLines(s: string): seq<string> { LinesFrom(s, []) }

  function Tail(s: string): string { TailFrom(s, []) }

  /** No boundary in the line but for a carriage return at its very end. */
  predicate CleanLine(line: string) {
    forall i :: 0 <= i < |line| && IsBoundary(line[i]) ==> line[i] == CR && i == |line| - 1
  }

  predicate AllClean(lines: seq<string>) { forall line :: line in lines ==> CleanLine(line) }

  predicate Clean(s: string) { AllClean(CompleteLines(s)) }

  predicate NoBoundary(s: string) { forall i :: 0 <= i < |s| ==> !IsBoundary(s[i]) }

  // ---------------------------------------------------------------- one text

  lemma JoinHead(first: string, rest: seq<string>)
    ensures Join([first] + rest) == first + Join(rest)
  {
    JoinConcat([first], rest);
    var none: seq<string> := [];
    assert [first][..0] == none;
    assert Join([first]) == first;
  }

  /** What becomes of a list of pieces, by its first. */
  lemma ByFirstPiece(first: string, rest: seq<string>)
    ensures EndsWithNewline(first) ==> Logged([first] + rest) == [StripNewlines(first)] + Logged(rest)
                                       && Join(Kept([first] + rest)) == Join(Kept(rest))
    ensures !EndsWithNewline(first) ==> Logged([first] + rest) == Logged(rest)
                                        && Join(Kept([first] + rest)) == first + Join(Kept(rest))
  {
    assert ([first] + rest)[1..] == rest;
    JoinHead(first, Kept(rest));
    if EndsWithNewline(first) {
      assert Kept([first] + rest) == Kept(rest);
    } else {
      assert Kept([first] + rest) == [first] + Kept(rest);
    }
  }

  lemma {:induction false} StripOne(line: string)
    requires NL !in line
    ensures EndsWithNewline(line + [NL]) && StripNewlines(line + [NL]) == line
  {
    assert (line + [NL])[..|line|] == line;
    if line != [] { assert line[|line| - 1] in line; }
  }

  /** A text without newline goes back to the buffer as it is. */
  lemma {:induction false} NoNewlineAllKept(s: string, current: string)
    requires NL !in s && NL !in current
    ensures Logged(Pieces(s, current)) == [] && Join(Kept(Pieces(s, current))) == current + s
    decreases |s|
  {
    if s == [] {
      LastPieceKept(current);
    } else {
      Reassemble(current, s);
      if IsBoundary(s[0]) {
        NoNewlineAllKept(s[1..], []);
        ByFirstPiece(current + [s[0]], Pieces(s[1..], []));
      } else {
        NoNewlineAllKept(s[1..], current + [s[0]]);
      }
    }
  }

  lemma {:induction false} Reassemble(current: string, s: string)
    requires s != []
    ensures current + [s[0]] + s[1..] == current + s && current + [s[0]] + ([] + s[1..]) == current + s
  {
    assert [] + s[1..] == s[1..];
  }

  lemma {:induction false} LastPieceKept(current: string)
    requires NL !in current
    ensures Logged(Pieces([], current)) == [] && Join(Kept(Pieces([], current))) == current + []
  {
    if current != [] {
      assert current[|current| - 1] in current;
      ByFirstPiece(current, []);
      assert [current] + [] == [current];
    }
  }

  lemma {:induction false} NoNewlineNoLine(s: string, current: string)
    requires NL !in s
    ensures LinesFrom(s, current) == [] && TailFrom(s, current) == current + s
    decreases s
  {
    if s != [] {
      NoNewlineNoLine(s[1..], current + [s[0]]);
      assert s == [s[0]] + s[1..];
      Regroup(current, [s[0]], s[1..]);
    }
  }

  /** The first complete line begins with what was already read of it. */
  lemma {:induction false} FirstLineExtends(s: string, current: string)
    requires NL in s
    ensures LinesFrom(s, current) != [] && LinesFrom(s, []) != []
    ensures LinesFrom(s, current)[0] == current + LinesFrom(s, [])[0]
    ensures LinesFrom(s, current)[1..] == LinesFrom(s, [])[1..]
    decreases s
  {
    if s[0] == NL {
      assert current + [] == current;
    } else {
      FirstLineExtends(s[1..], current + [s[0]]);
      FirstLineExtends(s[1..], [s[0]]);
      assert [] + [s[0]] == [s[0]];
      Regroup(current, [s[0]], LinesFrom(s[1..], [])[0]);
    }
  }

  /** A text whose complete lines are clean is processed as promised. */
  lemma {:induction false} CleanIsProcessed(s: string, current: string)
    requires NoBoundary(current) && AllClean(LinesFrom(s, current))
    ensures Logged(Pieces(s, current)) == LinesFrom(s, current)
    ensures Join(Kept(Pieces(s, current))) == TailFrom(s, current)
    decreases |s|
  {
    if NL !in s {
      NoNewlineAllKept(s, current);
      NoNewlineNoLine(s, current);
    } else if s[0] == NL {
      StripOne(current);
      ByFirstPiece(current + [NL], Pieces(s[1..], []));
      CleanIsProcessed(s[1..], []);
    } else if s[0] == CR && s[1] == NL {
      var line := current + [CR];
      assert s[1..][1..] == s[2..];
      assert LinesFrom(s, current) == [line] + LinesFrom(s[2..], []);
      StripOne(line);
      ByFirstPiece(line + [NL], Pieces(s[2..], []));
      CleanIsProcessed(s[2..], []);
    } else {
      if IsBoundary(s[0]) { BoundaryInsideLine(s, current); }
      CleanIsProcessed(s[1..], current + [s[0]]);
    }
  }

  /** A boundary other than the newline, with more of the line to come, spoils the line. */
  lemma BoundaryInsideLine(s: string, current: string)
    requires NL in s && s[0] != NL && IsBoundary(s[0]) && !(s[0] == CR && s[1] == NL)
    ensures LinesFrom(s, current) != [] && !CleanLine(LinesFrom(s, current)[0])
  {
    FirstLineExtends(s[1..], current + [s[0]]);
    var line, k := LinesFrom(s, current)[0], |current|;
    assert line[k] == s[0] && IsBoundary(line[k]);
    if k == |line| - 1 {
      assert LinesFrom(s[1..], [])[0] == [];
      EmptyFirstLine(s[1..]);
      assert line[k] != CR;
    }
  }

  lemma EmptyFirstLine(s: string)
    requires NL in s && LinesFrom(s, []) != [] && LinesFrom(s, [])[0] == []
    ensures s[0] == NL
  {
    if s[0] != NL {
      assert [] + [s[0]] == [s[0]];
      FirstLineExtends(s[1..], [s[0]]);
    }
  }

  /** What is logged first is never longer than the first line. */
  lemma {:induction false} FirstLoggedNotLonger(s: string, current: string)
    requires NL in s && NL !in current
    ensures Logged(Pieces(s, current)) != [] && LinesFrom(s, current) != []
    ensures |Logged(Pieces(s, current))[0]| <= |LinesFrom(s, current)[0]|
    decreases |s|
  {
    if s[0] == NL {
      StripOne(current);
      ByFirstPiece(current + [NL], Pieces(s[1..], []));
    } else if s[0] == CR && s[1] == NL {
      assert s[1..][1..] == s[2..];
      StripOne(current + [CR]);
      ByFirstPiece(current + [CR] + [NL], Pieces(s[2..], []));
    } else if IsBoundary(s[0]) {
      FirstLoggedNotLonger(s[1..], []);
      ByFirstPiece(current + [s[0]], Pieces(s[1..], []));
      FirstLineExtends(s[1..], current + [s[0]]);
    } else {
      FirstLoggedNotLonger(s[1..], current + [s[0]]);
    }
  }

  /** A text with a line that is not clean is not processed as promised: the line comes out shorter. */
  lemma {:induction false} UncleanIsNotProcessed(s: string, current: string)
    requires NoBoundary(current) && !AllClean(LinesFrom(s, current))
    ensures Logged(Pieces(s, current)) != LinesFrom(s, current)
    decreases |s|
  {
    if NL !in s {
      NoNewlineNoLine(s, current);
    } else if s[0] == NL {
      StripOne(current);
      ByFirstPiece(current + [NL], Pieces(s[1..], []));
      UncleanIsNotProcessed(s[1..], []);
      assert LinesFrom(s, current)[1..] == LinesFrom(s[1..], []);
      assert Logged(Pieces(s, current))[1..] == Logged(Pieces(s[1..], []));
    } else if s[0] == CR && s[1] == NL {
      var line := current + [CR];
      assert s[1..][1..] == s[2..];
      StripOne(line);
      ByFirstPiece(line + [NL], Pieces(s[2..], []));
      assert CleanLine(line);
      UncleanIsNotProcessed(s[2..], []);
      assert LinesFrom(s, current)[1..] == LinesFrom(s[2..], []);
      assert Logged(Pieces(s, current))[1..] == Logged(Pieces(s[2..], []));
    } else if IsBoundary(s[0]) {
      ByFirstPiece(current + [s[0]], Pieces(s[1..], []));
      FirstLoggedNotLonger(s[1..], []);
      FirstLineExtends(s[1..], current + [s[0]]);
      assert |Logged(Pieces(s, current))[0]| < |LinesFrom(s, current)[0]|;
    } else {
      UncleanIsNotProcessed(s[1..], current + [s[0]]);
    }
  }

  // ---------------------------------------------------------------- over a run of writes

  lemma {:induction false} LinesConcat(a: string, b: string, current: string)
    ensures LinesFrom(a + b, current) == LinesFrom(a, current) + LinesFrom(b, TailFrom(a, current))
    ensures TailFrom(a + b, current) == TailFrom(b, TailFrom(a, current))
    decreases a
  {
    if a == [] {
      assert a + b == b;
    } else {
      assert (a + b)[1..] == a[1..] + b;
      LinesConcat(a[1..], b, if a[0] == NL then [] else current + [a[0]]);
    }
  }

  lemma {:induction false} TailHasNoNewline(s: string, current: string)
    requires NL !in current
    ensures NL !in TailFrom(s, current)
    decreases s
  {
    if s != [] {
      TailHasNoNewline(s[1..], if s[0] == NL then [] else current + [s[0]]);
    }
  }

  /** Reading the tail and then the rest is reading the tail followed by the rest. */
  lemma ReadOn(current: string, s: string)
    requires NL !in current
    ensures LinesFrom(current + s, []) == LinesFrom(s, current) && TailFrom(current + s, []) == TailFrom(s, current)
  {
    LinesConcat(current, s, []);
    NoNewlineNoLine(current, []);
    assert [] + current == current;
  }

  /** Each newline completes one line, and one is logged for it; no newline goes back to the buffer. */
  lemma {:induction false} OneLoggedPerLine(s: string, current: string)
    requires NL !in current
    ensures |Logged(Pieces(s, current))| == |LinesFrom(s, current)| && NL !in Join(Kept(Pieces(s, current)))
    decreases |s|
  {
    if NL !in s {
      NoNewlineAllKept(s, current);
      NoNewlineNoLine(s, current);
    } else if s[0] == NL {
      StripOne(current);
      ByFirstPiece(current + [NL], Pieces(s[1..], []));
      OneLoggedPerLine(s[1..], []);
    } else if s[0] == CR && s[1] == NL {
      assert s[1..][1..] == s[2..];
      StripOne(current + [CR]);
      ByFirstPiece(current + [CR] + [NL], Pieces(s[2..], []));
      OneLoggedPerLine(s[2..], []);
    } else if IsBoundary(s[0]) {
      ByFirstPiece(current + [s[0]], Pieces(s[1..], []));
      OneLoggedPerLine(s[1..], []);
      FirstLineExtends(s[1..], current + [s[0]]);
    } else {
      OneLoggedPerLine(s[1..], current + [s[0]]);
    }
  }

  /** With or without a newline, a write leaves what processing buffer and text together would leave. */
  lemma StepProcesses(st: State, w: string)
    requires NL !in st.buffer
    ensures Step(st, w) == State(Join(Kept(SplitLines(st.buffer + w))), st.logged + Logged(SplitLines(st.buffer + w)))
  {
    if NL !in w {
      NoNewlineAllKept(st.buffer + w, []);
      assert [] + (st.buffer + w) == st.buffer + w;
    }
  }

  /** Whatever is written: the buffer never holds a newline, and as many lines have been logged as were
      completed. */
  lemma {:induction false} BufferHoldsNoNewline(ws: seq<string>)
    ensures NL !in After(ws).buffer && |After(ws).logged| == |CompleteLines(Join(ws))|
  {
    if ws != [] {
      var init, w := ws[..|ws| - 1], ws[|ws| - 1];
      var st := After(init);
      BufferHoldsNoNewline(init);
      StepProcesses(st, w);
      OneLoggedPerLine(st.buffer + w, []);
      ReadOn(st.buffer, w);
      LinesConcat(Join(init), w, []);
      SameNumberOfLines(w, st.buffer, Tail(Join(init)));
    }
  }

  lemma {:induction false} SameNumberOfLines(s: string, a: string, b: string)
    ensures |LinesFrom(s, a)| == |LinesFrom(s, b)|
    decreases s
  {
    if s != [] {
      SameNumberOfLines(s[1..], if s[0] == NL then [] else a + [s[0]], if s[0] == NL then [] else b + [s[0]]);
    }
  }

  lemma CannotCatchUp(a: seq<string>, a': seq<string>, b: seq<string>, b': seq<string>)
    requires |a| == |b|
    ensures a + a' == b + b' <==> a == b && a' == b'
  {
    assert (a + a')[..|a|] == a && (b + b')[..|b|] == b;
    assert (a + a')[|a|..] == a' && (b + b')[|b|..] == b';
  }

  /** However a text is cut into writes, the lines logged are its complete lines if and only if these are
      clean; and then the buffer holds exactly the unterminated tail. */
  lemma {:induction false} LinesKeptIffClean(ws: seq<string>)
    ensures After(ws).logged == CompleteLines(Join(ws)) <==> Clean(Join(ws))
    ensures Clean(Join(ws)) ==> After(ws).buffer == Tail(Join(ws))
  {
    if ws != [] {
      var init, w := ws[..|ws| - 1], ws[|ws| - 1];
      LinesKeptIffClean(init);
      BufferHoldsNoNewline(init);
      OneMoreWrite(Join(init), After(init), w);
    }
  }

  lemma OneMoreWrite(before: string, st: State, w: string)
    requires NL !in st.buffer && |st.logged| == |CompleteLines(before)|
    requires st.logged == CompleteLines(before) <==> Clean(before)
    requires Clean(before) ==> st.buffer == Tail(before)
    ensures Step(st, w).logged == CompleteLines(before + w) <==> Clean(before + w)
    ensures Clean(before + w) ==> Step(st, w).buffer == Tail(before + w)
  {
    var done, more := CompleteLines(before), LinesFrom(w, Tail(before));
    LinesConcat(before, w, []);
    assert AllClean(done + more) <==> AllClean(done) && AllClean(more);
    StepProcesses(st, w);
    CannotCatchUp(st.logged, Logged(SplitLines(st.buffer + w)), done, more);
    if Clean(before) {
      ReadOn(st.buffer, w);
      if AllClean(more) {
        CleanIsProcessed(st.buffer + w, []);
      } else {
        UncleanIsNotProcessed(st.buffer + w, []);
      }
    }
  }

  // ---------------------------------------------------------------- when the cuts do not matter

  /** What is held back of a text once it has been processed. */
  function Held(s: string, current: string): string { Join(Kept(Pieces(s, current))) }

  predicate EndsWithReturn(s: string) { s != [] && s[|s| - 1] == CR }

  /** Read after `a`, the text `b` merges with what is held back of `a`: a newline follows a newline while what
      is held back ends in a carriage return, with which it would make one boundary. */
  predicate Merges(a: string, b: string, current: string) {
    EndsWithNewline(a) && b != [] && b[0] == NL && EndsWithReturn(Held(a, current))
  }

  /** After the text of a line, `current`, has been read of the first piece, the pieces are those of the whole. */
  lemma {:induction false} ReadAhead(current: string, w: string)
    requires NoBoundary(current)
    ensures Pieces(current + w, []) == Pieces(w, current)
  {
    PlainPrefix(current, w, []);
    assert [] + current == current;
  }

  /** A boundary that is no newline, and does not make one with what follows, ends a piece that is held back. */
  lemma {:induction false} HoldOne(c: char, rest: string, current: string)
    requires IsBoundary(c) && c != NL && !(c == CR && rest != [] && rest[0] == NL)
    ensures Pieces([c] + rest, current) == [current + [c]] + Pieces(rest, [])
    ensures Logged(Pieces([c] + rest, current)) == Logged(Pieces(rest, []))
    ensures Held([c] + rest, current) == current + [c] + Held(rest, [])
  {
    assert ([c] + rest)[1..] == rest;
    ByFirstPiece(current + [c], Pieces(rest, []));
  }

  /** A line and its newline, with nothing held back before, make a piece that is logged. */
  lemma {:induction false} LogLine(line: string, rest: string)
    requires NL !in line
    ensures Logged([line + [NL]] + Pieces(rest, [])) == [line] + Logged(Pieces(rest, []))
    ensures Join(Kept([line + [NL]] + Pieces(rest, []))) == Held(rest, [])
  {
    StripOne(line);
    ByFirstPiece(line + [NL], Pieces(rest, []));
  }

  lemma {:induction false} NoNewlineIn(s: string)
    requires NoBoundary(s)
    ensures NL !in s
  {
    assert IsBoundary(NL);
  }

  lemma {:induction false} AfterLine(line: string, rest: string, w: string)
    requires NL !in line
    requires Logged(Pieces(rest + w, [])) == Logged(Pieces(rest, [])) + Logged(Pieces(Held(rest, []) + w, []))
    requires Held(rest + w, []) == Held(Held(rest, []) + w, [])
    ensures var first, held := [line + [NL]], Join(Kept([line + [NL]] + Pieces(rest, [])));
            && Logged(first + Pieces(rest + w, [])) == Logged(first + Pieces(rest, [])) + Logged(Pieces(held + w, []))
            && Join(Kept(first + Pieces(rest + w, []))) == Held(held + w, [])
  {
    LogLine(line, rest);
    LogLine(line, rest + w);
    Regroup([line], Logged(Pieces(rest, [])), Logged(Pieces(Held(rest, []) + w, [])));
  }

  /** Unless they merge, processing a text and then what was held back of it together with more is processing
      the whole. */
  lemma {:induction false} ProcessTwice(p: string, w: string, current: string)
    requires NoBoundary(current) && !Merges(p, w, current)
    ensures Logged(Pieces(p + w, current)) ==
              Logged(Pieces(p, current)) + Logged(Pieces(Held(p, current) + w, []))
    ensures Held(p + w, current) == Held(Held(p, current) + w, [])
    decreases |p|
  {
    if p == [] {
      LastPieceKept(current);
      assert p + w == w && current + [] == current;
      ReadAhead(current, w);
    } else if p == [CR] {
      ReturnAtTheEnd(w, current);
    } else {
      assert p[1..] + w == (p + w)[1..];
      NoNewlineIn(current);
      if p[0] == NL {
        LineFirst(p, w, current, current, 1);
      } else if p[0] == CR && p[1] == NL {
        LineFirst(p, w, current, current + [CR], 2);
      } else if IsBoundary(p[0]) {
        HeldAfterBoundary(p, w, current);
      } else {
        ProcessTwice(p[1..], w, current + [p[0]]);
      }
    }
  }

  /** The text begins with the end of a line, `n` characters long. */
  lemma {:induction false} LineFirst(p: string, w: string, current: string, line: string, n: nat)
    requires 0 < n <= |p| && NL !in line && !Merges(p, w, current)
    requires Pieces(p, current) == [line + [NL]] + Pieces(p[n..], [])
    requires Pieces(p + w, current) == [line + [NL]] + Pieces((p + w)[n..], [])
    ensures Logged(Pieces(p + w, current)) ==
              Logged(Pieces(p, current)) + Logged(Pieces(Held(p, current) + w, []))
    ensures Held(p + w, current) == Held(Held(p, current) + w, [])
    decreases |p|, 0
  {
    assert (p + w)[n..] == p[n..] + w;
    LogLine(line, p[n..]);
    ProcessTwice(p[n..], w, []);
    AfterLine(line, p[n..], w);
  }

  /** A text that ends in a carriage return is held back with it, to be read again with what follows. */
  lemma {:induction false} ReturnAtTheEnd(w: string, current: string)
    requires NoBoundary(current)
    ensures Logged(Pieces([CR], current)) == [] && Held([CR], current) == current + [CR]
    ensures Pieces([CR] + w, current) == Pieces(current + [CR] + w, [])
  {
    assert [CR] == [CR] + [] && [CR][1..] == [];
    HoldOne(CR, [], current);
    assert current + [CR] + [] == current + [CR];
    ReadAhead(current, [CR] + w);
    Regroup(current, [CR], w);
  }

  /** If nothing is held back of a text, the text ends in a newline. */
  lemma {:induction false} NothingHeld(s: string, current: string)
    requires s != [] && NoBoundary(current) && Held(s, current) == []
    ensures EndsWithNewline(s)
    decreases |s|
  {
    if s[0] == NL {
      ByFirstPiece(current + [NL], Pieces(s[1..], []));
      if |s| > 1 { NothingHeld(s[1..], []); }
    } else if s[0] == CR && |s| > 1 && s[1] == NL {
      ByFirstPiece(current + [CR] + [NL], Pieces(s[2..], []));
      if |s| > 2 { NothingHeld(s[2..], []); }
    } else if IsBoundary(s[0]) {
      assert s == [s[0]] + s[1..];
      HoldOne(s[0], s[1..], current);
    } else if |s| > 1 {
      NothingHeld(s[1..], current + [s[0]]);
    } else {
      LastPieceKept(current + [s[0]]);
    }
  }

  lemma {:induction false} HeldAfterBoundary(p: string, w: string, current: string)
    requires NoBoundary(current) && !Merges(p, w, current)
    requires p != [] && IsBoundary(p[0]) && p[0] != NL && p != [CR] && !(p[0] == CR && p[1] == NL)
    ensures Logged(Pieces(p + w, current)) ==
              Logged(Pieces(p, current)) + Logged(Pieces(Held(p, current) + w, []))
    ensures Held(p + w, current) == Held(Held(p, current) + w, [])
    decreases |p|, 0
  {
    var c, rest := p[0], p[1..];
    var held := Held(rest, []);
    assert p == [c] + rest;
    Refold([], c, rest, w);
    HoldOne(c, rest, current);
    HoldOne(c, rest + w, current);
    KeepsApart(p, w, current);
    Refold(current, c, held, w);
    ReadAhead(current, [c] + (held + w));
    HoldOne(c, held + w, current);
    ProcessTwice(rest, w, []);
  }

  lemma {:induction false} Refold(a: string, c: char, b: string, w: string)
    ensures a + [c] + b + w == a + ([c] + (b + w)) && [c] + b + w == [c] + (b + w)
  {
  }

  /** What is held back of the rest does not make a boundary with the one before it, nor does it merge. */
  lemma {:induction false} KeepsApart(p: string, w: string, current: string)
    requires NoBoundary(current) && !Merges(p, w, current)
    requires p != [] && IsBoundary(p[0]) && p[0] != NL && p != [CR] && !(p[0] == CR && p[1] == NL)
    ensures !Merges(p[1..], w, [])
    ensures var after := Held(p[1..], []) + w; !(p[0] == CR && after != [] && after[0] == NL)
  {
    var c, rest, held := p[0], p[1..], Held(p[1..], []);
    assert p == [c] + rest;
    HoldOne(c, rest, current);
    OneLoggedPerLine(rest, []);
    assert held != [] ==> held[0] in held && (held + w)[0] == held[0];
    if held == [] && rest != [] {
      NothingHeld(rest, []);
    }
  }

  /** Cut at some point of it, the text merges with what was held back. */
  ghost predicate SomeCutMerges(s: string) {
    exists i :: 0 < i < |s| && Merges(s[..i], s[i..], [])
  }

  /** What is left behind when a text is written at once. */
  function AtOnce(s: string): State { State(Held(s, []), Logged(SplitLines(s))) }

  /** More text does not make a text less sensitive. */
  lemma {:induction false} SensitiveGrows(a: string, b: string)
    requires SomeCutMerges(a) || Merges(a, b, [])
    ensures SomeCutMerges(a + b)
  {
    var all := a + b;
    if Merges(a, b, []) {
      assert all[..|a|] == a && all[|a|..] == b;
    } else {
      var i :| 0 < i < |a| && Merges(a[..i], a[i..], []);
      SameCut(a, b, i);
      assert Merges(all[..i], all[i..], []);
    }
  }

  lemma {:induction false} SameCut(a: string, b: string, i: nat)
    requires i < |a|
    ensures (a + b)[..i] == a[..i] && (a + b)[i..] != [] && (a + b)[i..][0] == a[i..][0]
  {
  }

  /** However it is cut, a text that is not sensitive leaves behind what it leaves when written at once. */
  lemma {:induction false} AnyCutIsAtOnce(ws: seq<string>)
    requires !SomeCutMerges(Join(ws))
    ensures After(ws) == AtOnce(Join(ws))
  {
    if ws != [] {
      var init, w := ws[..|ws| - 1], ws[|ws| - 1];
      if SomeCutMerges(Join(init)) || Merges(Join(init), w, []) {
        SensitiveGrows(Join(init), w);
      } else {
        AnyCutIsAtOnce(init);
        BufferHoldsNoNewline(init);
        StepProcesses(After(init), w);
        ProcessTwice(Join(init), w, []);
      }
    }
  }

  lemma {:induction false} LoggedConcat(a: seq<string>, b: seq<string>)
    ensures Logged(a + b) == Logged(a) + Logged(b)
  {
    if a == [] {
      assert a + b == b;
    } else {
      assert (a + b)[1..] == a[1..] + b && (a + b)[0] == a[0];
      LoggedConcat(a[1..], b);
      if EndsWithNewline(a[0]) { Regroup([StripNewlines(a[0])], Logged(a[1..]), Logged(b)); }
    }
  }

  /** A newline is always the end of a piece. */
  lemma {:induction false} PiecesAfterNewline(a: string, b: string, current: string)
    requires EndsWithNewline(a)
    ensures Pieces(a + b, current) == Pieces(a, current) + Pieces(b, [])
    decreases |a|
  {
    assert (a + b)[1..] == a[1..] + b;
    if a == [NL] {
      assert a[1..] + b == b && Pieces(a[1..], []) == [];
    } else if a[0] == CR && a[1] == NL {
      assert (a + b)[2..] == a[2..] + b;
      if |a| == 2 {
        assert a[2..] + b == b && Pieces(a[2..], []) == [];
      } else {
        PiecesAfterNewline(a[2..], b, []);
        Regroup([current + [CR] + [NL]], Pieces(a[2..], []), Pieces(b, []));
      }
    } else if IsBoundary(a[0]) {
      PiecesAfterNewline(a[1..], b, []);
      Regroup([current + [a[0]]], Pieces(a[1..], []), Pieces(b, []));
    } else {
      PiecesAfterNewline(a[1..], b, current + [a[0]]);
    }
  }

  /** Held-back text that ends in a carriage return makes a line that is not empty with a newline. */
  lemma {:induction false} ReturnThenNewline(h: string, b: string, current: string)
    requires NL !in h && EndsWithReturn(h) && NL !in current && b != [] && b[0] == NL
    ensures Logged(Pieces(h + b, current)) != [] && Logged(Pieces(h + b, current))[0] != []
    decreases |h|
  {
    assert (h + b)[1..] == h[1..] + b;
    if |h| == 1 {
      assert (h + b)[2..] == b[1..];
      StripOne(current + [CR]);
      ByFirstPiece(current + [CR] + [NL], Pieces(b[1..], []));
    } else if IsBoundary(h[0]) {
      assert h + b == [h[0]] + (h[1..] + b);
      assert (h[1..] + b)[0] == h[1] && h[1] in h;
      HoldOne(h[0], h[1..] + b, current);
      ReturnThenNewline(h[1..], b, []);
    } else {
      ReturnThenNewline(h[1..], b, current + [h[0]]);
    }
  }

  lemma {:induction false} WrittenAtOnce(s: string)
    ensures Join([s]) == s && After([s]) == AtOnce(s)
  {
    var none: seq<string> := [];
    assert [s][..0] == none && [] + s == s;
    StepProcesses(State([], []), s);
  }

  /** Cut where it merges, a text is logged differently. */
  lemma {:induction false} MergingIsLogged(a: string, b: string)
    requires Merges(a, b, [])
    ensures After([a, b]).logged != AtOnce(a + b).logged
  {
    assert [a, b][..1] == [a];
    WrittenAtOnce(a);
    OneLoggedPerLine(a, []);
    StepProcesses(AtOnce(a), b);
    ReturnThenNewline(Held(a, []), b, []);
    PiecesAfterNewline(a, b, []);
    LoggedConcat(SplitLines(a), SplitLines(b));
    StripOne([]);
    ByFirstPiece([] + [NL], Pieces(b[1..], []));
    assert Logged(SplitLines(b))[0] == [];
    CannotCatchUp(Logged(SplitLines(a)), Logged(SplitLines(Held(a, []) + b)),
                  Logged(SplitLines(a)), Logged(SplitLines(b)));
  }

  lemma {:induction false} SensitiveCut(s: string) returns (ws: seq<string>)
    requires SomeCutMerges(s)
    ensures Join(ws) == s && After(ws) != AtOnce(s)
  {
    var i :| 0 < i < |s| && Merges(s[..i], s[i..], []);
    assert s[..i] + s[i..] == s;
    ws := [s[..i], s[i..]];
    JoinTwo(s[..i], s[i..]);
    MergingIsLogged(s[..i], s[i..]);
  }

  // ---------------------------------------------------------------- the condition, on the text

  /** A boundary that is neither a newline nor part of one. */
  predicate Lone(s: string, j: nat)
    requires j < |s|
  {
    IsBoundary(s[j]) && s[j] != NL && !(s[j] == CR && j + 1 < |s| && s[j + 1] == NL)
  }

  /** The last lone boundary among the first `n` characters is a carriage return. */
  ghost predicate LastLoneIsReturn(s: string, n: nat)
    requires n <= |s|
  {
    exists j :: 0 <= j < n && Lone(s, j) && s[j] == CR && forall k :: j < k < n ==> !Lone(s, k)
  }

  ghost predicate NoneLone(s: string) { forall j :: 0 <= j < |s| ==> !Lone(s, j) }

  /** Two newlines in a row, the last lone boundary before them being a carriage return. */
  ghost predicate EmptyLineAfterReturn(s: string) {
    exists i :: 0 < i < |s| && s[i - 1] == s[i] == NL && LastLoneIsReturn(s, i)
  }

  /** What comes first does not matter to what is lone further on. */
  lemma {:induction false} LoneBehind(s: string, n: nat)
    requires n <= |s|
    ensures forall j :: n <= j < |s| ==> (Lone(s, j) <==> Lone(s[n..], j - n))
    ensures forall j :: 0 <= j < |s| - n ==> (Lone(s[n..], j) <==> Lone(s, j + n))
  {
  }

  /** If the first `n` characters are not lone, the last lone boundary is that of the rest. */
  lemma {:induction false} LastLoneBehind(s: string, n: nat)
    requires n <= |s| && forall j :: 0 <= j < n ==> !Lone(s, j)
    ensures LastLoneIsReturn(s, |s|) <==> LastLoneIsReturn(s[n..], |s| - n)
    ensures NoneLone(s) <==> NoneLone(s[n..])
  {
    var rest := s[n..];
    LoneBehind(s, n);
    if LastLoneIsReturn(s, |s|) {
      var j :| 0 <= j < |s| && Lone(s, j) && s[j] == CR && forall k :: j < k < |s| ==> !Lone(s, k);
      assert Lone(rest, j - n) && rest[j - n] == CR;
    }
    if LastLoneIsReturn(rest, |rest|) {
      var j :| 0 <= j < |rest| && Lone(rest, j) && rest[j] == CR && forall k :: j < k < |rest| ==> !Lone(rest, k);
      assert Lone(s, j + n) && s[j + n] == CR;
      forall k | j + n < k < |s| ensures !Lone(s, k) { assert !Lone(rest, k - n); }
    }
    if NoneLone(s) {
      forall j | 0 <= j < |rest| ensures !Lone(rest, j) { assert !Lone(s, j + n); }
    }
    if NoneLone(rest) {
      forall j | 0 <= j < |s| ensures !Lone(s, j) {
        if j >= n { assert !Lone(rest, j - n); }
      }
    }
  }

  /** If the first character is lone, it is the last one that is exactly when none of the rest is. */
  lemma {:induction false} LastLoneFirst(s: string)
    requires s != [] && Lone(s, 0)
    ensures !NoneLone(s)
    ensures LastLoneIsReturn(s, |s|) <==>
              if NoneLone(s[1..]) then s[0] == CR else LastLoneIsReturn(s[1..], |s| - 1)
  {
    var rest := s[1..];
    LoneBehind(s, 1);
    if LastLoneIsReturn(s, |s|) {
      var j :| 0 <= j < |s| && Lone(s, j) && s[j] == CR && forall k :: j < k < |s| ==> !Lone(s, k);
      if j == 0 {
        forall k | 0 <= k < |rest| ensures !Lone(rest, k) { assert !Lone(s, k + 1); }
      } else {
        assert Lone(rest, j - 1) && rest[j - 1] == CR;
        forall k | j - 1 < k < |rest| ensures !Lone(rest, k) { assert !Lone(s, k + 1); }
      }
    }
    if NoneLone(rest) {
      forall k | 0 < k < |s| ensures !Lone(s, k) { assert !Lone(rest, k - 1); }
    } else if LastLoneIsReturn(rest, |rest|) {
      var j :| 0 <= j < |rest| && Lone(rest, j) && rest[j] == CR && forall k :: j < k < |rest| ==> !Lone(rest, k);
      assert Lone(s, j + 1) && s[j + 1] == CR;
      forall k | j + 1 < k < |s| ensures !Lone(s, k) { assert !Lone(rest, k - 1); }
    }
  }

  /** What is held back ends in a carriage return exactly when the last lone boundary is one; and nothing is held
      back exactly when none is lone. */
  ghost predicate HeldShows(s: string, held: string) {
    (EndsWithReturn(held) <==> LastLoneIsReturn(s, |s|)) && (held == [] <==> NoneLone(s))
  }

  /** This is so of every text that ends in a newline. */
  lemma {:induction false} HeldReturnIff(s: string, current: string)
    requires EndsWithNewline(s) && NoBoundary(current)
    ensures HeldShows(s, Held(s, current))
    decreases |s|
  {
    if s[0] == NL {
      LogLine(current, s[1..]);
      RestShows(s, 1);
    } else if s[0] == CR && s[1] == NL {
      LogLine(current + [CR], s[2..]);
      RestShows(s, 2);
    } else if IsBoundary(s[0]) {
      assert s == [s[0]] + s[1..];
      HoldOne(s[0], s[1..], current);
      HeldReturnIff(s[1..], []);
      HoldShows(s, current, Held(s[1..], []));
    } else {
      LastLoneBehind(s, 1);
      HeldReturnIff(s[1..], current + [s[0]]);
    }
  }

  lemma {:induction false} RestShows(s: string, n: nat)
    requires EndsWithNewline(s) && 0 < n <= |s| && forall j :: 0 <= j < n ==> !Lone(s, j)
    ensures HeldShows(s, Held(s[n..], []))
    decreases |s|, 0
  {
    LastLoneBehind(s, n);
    if n < |s| {
      HeldReturnIff(s[n..], []);
    } else {
      assert Held(s[n..], []) == [] && NoneLone(s[n..]);
    }
  }

  lemma {:induction false} HoldShows(s: string, current: string, held: string)
    requires s != [] && Lone(s, 0) && HeldShows(s[1..], held)
    ensures HeldShows(s, current + [s[0]] + held)
  {
    LastLoneFirst(s);
  }

  /** Being lone depends on what comes before a newline only. */
  lemma {:induction false} LoneBefore(s: string, i: nat)
    requires 0 < i <= |s| && s[i - 1] == NL
    ensures LastLoneIsReturn(s[..i], i) <==> LastLoneIsReturn(s, i)
  {
    var a := s[..i];
    forall j | 0 <= j < i ensures Lone(a, j) <==> Lone(s, j) {
      assert j < i - 1 ==> a[j + 1] == s[j + 1];
    }
    if LastLoneIsReturn(a, i) {
      var j :| 0 <= j < i && Lone(a, j) && a[j] == CR && forall k :: j < k < i ==> !Lone(a, k);
      assert Lone(s, j);
    }
    if LastLoneIsReturn(s, i) {
      var j :| 0 <= j < i && Lone(s, j) && s[j] == CR && forall k :: j < k < i ==> !Lone(s, k);
      assert Lone(a, j);
    }
  }

  lemma {:induction false} MergesIff(s: string, i: nat)
    requires 0 < i < |s|
    ensures Merges(s[..i], s[i..], []) <==> s[i - 1] == s[i] == NL && LastLoneIsReturn(s, i)
  {
    assert s[..i][i - 1] == s[i - 1] && s[i..][0] == s[i];
    if s[i - 1] == NL {
      LoneBefore(s, i);
      HeldReturnIff(s[..i], []);
    }
  }

  lemma {:induction false} SomeCutMergesIff(s: string)
    ensures SomeCutMerges(s) <==> EmptyLineAfterReturn(s)
  {
    if i :| 0 < i < |s| && Merges(s[..i], s[i..], []) {
      MergesIff(s, i);
    }
    if i :| 0 < i < |s| && s[i - 1] == s[i] == NL && LastLoneIsReturn(s, i) {
      MergesIff(s, i);
    }
  }

  /** What a text leaves behind does not depend on how it is cut into writes if and only if nowhere an empty line
      comes after a carriage return without a newline, no other boundary than newlines coming between. */
  lemma {:induction false} CutsDoNotMatterIff(s: string)
    ensures (forall ws :: Join(ws) == s ==> After(ws) == AtOnce(s)) <==> !EmptyLineAfterReturn(s)
    ensures Join([s]) == s && After([s]) == AtOnce(s)
  {
    WrittenAtOnce(s);
    SomeCutMergesIff(s);
    if SomeCutMerges(s) {
      var ws := SensitiveCut(s);
    } else {
      forall ws | Join(ws) == s ensures After(ws) == AtOnce(s) {
        AnyCutIsAtOnce(ws);
      }
    }
  }

  lemma {:induction false} JoinTwo(a: string, b: string)
    ensures Join([a, b]) == a + b
  {
    assert [a, b][..1] == [a];
    WrittenAtOnce(a);
  }

  /** Clean text is not sensitive: nothing depends on how it is cut. */
  lemma {:induction false} CleanIsNotSensitive(s: string)
    requires Clean(s)
    ensures !EmptyLineAfterReturn(s)
  {
    SomeCutMergesIff(s);
    if i :| 0 < i < |s| && Merges(s[..i], s[i..], []) {
      assert s[..i] + s[i..] == s;
      JoinTwo(s[..i], s[i..]);
      WrittenAtOnce(s);
      LinesKeptIffClean([s[..i], s[i..]]);
      LinesKeptIffClean([s]);
      MergingIsLogged(s[..i], s[i..]);
    }
  }

  /** A lone carriage return and, later, an empty line: cut between the two newlines, the text before the
      carriage return comes out as a line of its own, and otherwise it does not. */
  lemma EmptyLineAfterReturnIsSensitive(x: string, y: string)
    requires NoBoundary(x) && NoBoundary(y) && y != []
    ensures EmptyLineAfterReturn(x + ([CR] + (y + [NL])) + [NL])
  {
    var a := x + ([CR] + (y + [NL]));
    CarriageReturnReorders(x, y);
    WrittenAtOnce(a);
    StepProcesses(State([], []), a);
    assert [] + a == a;
    assert Held(a, []) == x + [CR];
    assert a[|a| - 1] == (y + [NL])[|y|];
    SensitiveGrows(a, [NL]);
    SomeCutMergesIff(a + [NL]);
  }

  /** Text whose only line boundary is the newline is clean. */
  lemma {:induction false} NewlineOnlyIsClean(s: string, current: string)
    requires NoBoundary(current)
    requires forall i :: 0 <= i < |s| && IsBoundary(s[i]) ==> s[i] == NL
    ensures AllClean(LinesFrom(s, current))
    decreases s
  {
    if s != [] {
      NewlineOnlyIsClean(s[1..], if s[0] == NL then [] else current + [s[0]]);
    }
  }

  lemma {:induction false} PlainPrefix(a: string, rest: string, current: string)
    requires NoBoundary(a)
    ensures Pieces(a + rest, current) == Pieces(rest, current + a)
    ensures LinesFrom(a + rest, current) == LinesFrom(rest, current + a)
    decreases a
  {
    if a == [] {
      assert a + rest == rest && current + a == current;
    } else {
      assert (a + rest)[1..] == a[1..] + rest;
      assert current + [a[0]] + a[1..] == current + a;
      PlainPrefix(a[1..], rest, current + [a[0]]);
    }
  }

  /** How `x`, a boundary other than a newline, `y` and a newline come apart. */
  lemma TwoPieces(x: string, b: char, y: string)
    requires NoBoundary(x) && NoBoundary(y) && y != [] && IsBoundary(b) && b != NL
    ensures SplitLines(x + ([b] + (y + [NL]))) == [x + [b]] + [y + [NL]]
    ensures CompleteLines(x + ([b] + (y + [NL]))) == [x + [b] + y]
  {
    var tail := [b] + (y + [NL]);
    assert tail[1..] == y + [NL] && tail[0] == b;
    assert [] + x == x && [] + y == y;
    PlainPrefix(x, tail, []);
    PlainPrefix(y, [NL], []);
    PlainPrefix(y, [NL], x + [b]);
    assert Pieces([NL], y) == [y + [NL]];
    assert LinesFrom([NL], x + [b] + y) == [x + [b] + y];
  }

  /** The boundaries that Python's documentation lists besides the newline: carriage return, vertical tab, form
      feed, file, group and record separators, next line, line and paragraph separators. */
  const OTHER_BOUNDARIES := "\r\U{000B}\U{000C}\U{001C}\U{001D}\U{001E}\U{0085}\U{2028}\U{2029}"

  /** A line with one of them inside is not clean: the text before it is held back, so that it comes out behind
      the text that follows it. */
  lemma BoundaryReorders(x: string, b: char, y: string)
    requires b in OTHER_BOUNDARIES && NoBoundary(x) && NoBoundary(y) && y != []
    ensures Step(State([], []), x + ([b] + (y + [NL]))) == State(x + [b], [y])
    ensures CompleteLines(x + ([b] + (y + [NL]))) == [x + [b] + y]
  {
    var s := x + ([b] + (y + [NL]));
    TwoPieces(x, b, y);
    assert [] + s == s && s[|s| - 1] == NL;
    StripOne(y);
    assert [y + [NL]] + [] == [y + [NL]];
    ByFirstPiece(y + [NL], []);
    ByFirstPiece(x + [b], [y + [NL]]);
  }

  /** A progress display that overwrites its line is such a text. */
  lemma CarriageReturnReorders(x: string, y: string)
    requires NoBoundary(x) && NoBoundary(y) && y != []
    ensures Step(State([], []), x + ([CR] + (y + [NL]))) == State(x + [CR], [y])
    ensures CompleteLines(x + ([CR] + (y + [NL]))) == [x + [CR] + y]
  {
    assert OTHER_BOUNDARIES[0] == CR;
    BoundaryReorders(x, CR, y);
  }

  // ---------------------------------------------------------------- nothing is lost

  /** The lines with the newline each has lost. */
  function WithNewlines(lines: seq<string>): (out: seq<string>)
    ensures |out| == |lines| && forall i :: 0 <= i < |lines| ==> out[i] == lines[i] + [NL]
  {
    seq(|lines|, i requires 0 <= i < |lines| => lines[i] + [NL])
  }

  /** A newline is to be found at the end of a piece only. */
  predicate NewlineAtEnd(p: string) { NL in p ==> EndsWithNewline(p) && NL !in p[..|p| - 1] }

  lemma {:induction false} PiecesMakeText(s: string, current: string)
    ensures Join(Pieces(s, current)) == current + s
    decreases |s|
  {
    if s == [] {
      JoinHead(current, []);
      assert current + [] == current && [current] + [] == [current];
    } else if s[0] == CR && |s| > 1 && s[1] == NL {
      PiecesMakeText(s[2..], []);
      JoinHead(current + [CR] + [NL], Pieces(s[2..], []));
      Reassemble(current, s);
      Reassemble(current + [CR], s[1..]);
      assert s[1..][1..] == s[2..];
    } else if IsBoundary(s[0]) {
      PiecesMakeText(s[1..], []);
      JoinHead(current + [s[0]], Pieces(s[1..], []));
      Reassemble(current, s);
    } else {
      PiecesMakeText(s[1..], current + [s[0]]);
      Reassemble(current, s);
    }
  }

  lemma {:induction false} NewlinesAtEnds(s: string, current: string)
    requires NL !in current
    ensures forall p :: p in Pieces(s, current) ==> NewlineAtEnd(p)
    decreases |s|
  {
    if s != [] {
      if s[0] == CR && |s| > 1 && s[1] == NL {
        NewlinesAtEnds(s[2..], []);
        EndsOnce(current + [CR]);
      } else if IsBoundary(s[0]) {
        NewlinesAtEnds(s[1..], []);
        EndsOnce(current);
      } else {
        NewlinesAtEnds(s[1..], current + [s[0]]);
      }
    }
  }

  lemma {:induction false} EndsOnce(line: string)
    requires NL !in line
    ensures NewlineAtEnd(line + [NL])
  {
    assert (line + [NL])[..|line|] == line;
  }

  /** The characters of all parts, however often each occurs. */
  function Chars(parts: seq<string>): multiset<char> {
    if parts == [] then multiset{} else multiset(parts[0]) + Chars(parts[1..])
  }

  lemma {:induction false} CharsConcat(a: seq<string>, b: seq<string>)
    ensures Chars(a + b) == Chars(a) + Chars(b)
    decreases |a|
  {
    if a == [] {
      assert a + b == b;
    } else {
      assert (a + b)[1..] == a[1..] + b;
      CharsConcat(a[1..], b);
    }
  }

  lemma {:induction false} CharsOfJoin(parts: seq<string>)
    ensures multiset(Join(parts)) == Chars(parts)
    decreases |parts|
  {
    if parts != [] {
      CharsOfJoin(parts[1..]);
      assert parts == [parts[0]] + parts[1..];
      JoinHead(parts[0], parts[1..]);
    }
  }

  lemma {:induction false} LoggedOrKept(pieces: seq<string>)
    requires forall p :: p in pieces ==> NewlineAtEnd(p)
    ensures Chars(pieces) == Chars(Kept(pieces)) + Chars(WithNewlines(Logged(pieces)))
    decreases |pieces|
  {
    if pieces != [] {
      LoggedOrKept(pieces[1..]);
      FirstLoggedOrKept(pieces[0], pieces[1..]);
      assert pieces == [pieces[0]] + pieces[1..];
    }
  }

  lemma {:induction false} FirstLoggedOrKept(first: string, rest: seq<string>)
    requires NewlineAtEnd(first)
    requires Chars(rest) == Chars(Kept(rest)) + Chars(WithNewlines(Logged(rest)))
    ensures Chars([first] + rest) == Chars(Kept([first] + rest)) + Chars(WithNewlines(Logged([first] + rest)))
  {
    var pieces := [first] + rest;
    assert pieces[0] == first && pieces[1..] == rest;
    CharsConcat([first], rest);
    if EndsWithNewline(first) {
      LineRestored(first, Logged(rest));
      assert Kept(pieces) == Kept(rest);
    } else {
      CharsConcat([first], Kept(rest));
      assert Logged(pieces) == Logged(rest);
    }
  }

  lemma {:induction false} LineRestored(first: string, rest: seq<string>)
    requires EndsWithNewline(first) && NewlineAtEnd(first)
    ensures Chars(WithNewlines([StripNewlines(first)] + rest)) == multiset(first) + Chars(WithNewlines(rest))
  {
    var line := first[..|first| - 1];
    assert first == line + [NL] && first[|first| - 1] in first;
    StripOne(line);
    assert WithNewlines([line] + rest) == [first] + WithNewlines(rest);
    CharsConcat([first], WithNewlines(rest));
  }

  /** Whatever is written, clean or not, and however it is cut: the characters logged, with a newline for every
      line, and those in the buffer are together exactly those written. */
  lemma {:induction false} NothingLost(ws: seq<string>)
    ensures multiset(Join(ws)) == multiset(After(ws).buffer) + multiset(Join(WithNewlines(After(ws).logged)))
  {
    CharsOfJoin(WithNewlines(After(ws).logged));
    if ws != [] {
      var before, s := After(ws[..|ws| - 1]), ws[|ws| - 1];
      NothingLost(ws[..|ws| - 1]);
      CharsOfJoin(WithNewlines(before.logged));
      BufferHoldsNoNewline(ws[..|ws| - 1]);
      StepLosesNothing(before, s);
      assert Join(ws) == Join(ws[..|ws| - 1]) + s;
    }
  }

  lemma {:induction false} StepLosesNothing(st: State, s: string)
    requires NL !in st.buffer
    ensures multiset(st.buffer) + multiset(s) + Chars(WithNewlines(st.logged)) ==
              multiset(Step(st, s).buffer) + Chars(WithNewlines(Step(st, s).logged))
  {
    if NL in s {
      SplittingLosesNothing(st.buffer + s);
      assert multiset(st.buffer + s) == multiset(st.buffer) + multiset(s);
      MoreLines(st.logged, Logged(SplitLines(st.buffer + s)));
    } else {
      assert Step(st, s).logged == st.logged && Step(st, s).buffer == st.buffer + s;
    }
  }

  lemma {:induction false} MoreLines(a: seq<string>, b: seq<string>)
    ensures Chars(WithNewlines(a + b)) == Chars(WithNewlines(a)) + Chars(WithNewlines(b))
  {
    assert WithNewlines(a + b) == WithNewlines(a) + WithNewlines(b);
    CharsConcat(WithNewlines(a), WithNewlines(b));
  }

  lemma {:induction false} SplittingLosesNothing(text: string)
    ensures multiset(text) ==
              multiset(Join(Kept(SplitLines(text)))) + Chars(WithNewlines(Logged(SplitLines(text))))
  {
    PiecesMakeText(text, []);
    assert [] + text == text;
    NewlinesAtEnds(text, []);
    LoggedOrKept(SplitLines(text));
    CharsOfJoin(SplitLines(text));
    CharsOfJoin(Kept(SplitLines(text)));
  }
}
