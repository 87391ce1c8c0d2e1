/** The shared directory listing (frigate/api/preview.py, `_get_preview_frame_listing`).

    Any number of calls run at once over one cached pair (mtime, files).  A call stats the directory, takes
    the cached listing when its mtime matches, and otherwise takes the lock, looks again, scans the
    directory and replaces the pair.  The directory may change between any two steps, also in the middle of
    a scan; each change gives it a new, larger mtime, so that its mtime is the number of its version. */
module PreviewListing {
  import opened Common
  import opened Lexicographic

  type Names = set<string>

  /** Where a call stands; `mtime` is what it saw when it statted the directory. */
  datatype Phase =
    | Statted(mtime: nat)
    | Waiting(mtime: nat)
    | Holding(mtime: nat)
    | Scanning(mtime: nat, from: nat)
    | Returned(mtime: nat, files: seq<string>)

  /** `history[v]` is what the directory held at version `v`; the last one is what it holds now. */
  datatype State = State(history: seq<Names>, cachedMtime: int, cachedFiles: seq<string>,
                         lock: Option<nat>, calls: map<nat, Phase>)
  {
    function Mtime(): int { |history| - 1 }

    /** What the directory holds now. */
    function Now(): Names { if history == [] then {} else history[|history| - 1] }
  }

  // ---------------------------------------------------------------- steps

  datatype Step =
    | Change(names: Names)
    | Stat(call: nat)
    | LookUnlocked(call: nat)
    | Acquire(call: nat)
    | LookLocked(call: nat)
    | FinishScan(call: nat, files: seq<string>)

  /** What a scan that ran from version `from` to version `to` may list, sorted: every name that was there
      throughout, and only names that were there at some time. */
  ghost predicate SeenBetween(files: seq<string>, history: seq<Names>, from: nat, to: nat)
    requires from <= to < |history|
  {
    && Sorted(files)
    && (forall n :: (forall v :: from <= v <= to ==> n in history[v]) ==> n in files)
    && (forall n :: n in files ==> exists v :: from <= v <= to && n in history[v])
  }

  predicate Init(s: State) {
    |s.history| == 1 && s.cachedMtime == -1 && s.cachedFiles == [] && s.lock.None? && s.calls == map[]
  }

  ghost predicate Enabled(s: State, step: Step) {
    match step
    case Change(_) => true
    case Stat(c) => c !in s.calls && s.history != []
    case LookUnlocked(c) => c in s.calls && s.calls[c].Statted?
    case Acquire(c) => c in s.calls && s.calls[c].Waiting? && s.lock.None?
    case LookLocked(c) => c in s.calls && s.calls[c].Holding? && s.history != []
    case FinishScan(c, files) =>
      && c in s.calls && s.calls[c].Scanning?
      && s.calls[c].from < |s.history| && SeenBetween(files, s.history, s.calls[c].from, |s.history| - 1)
  }

  ghost function Do(s: State, step: Step): State
    requires Enabled(s, step)
  {
    match step
    case Change(names) => s.(history := s.history + [names])
    case Stat(c) => s.(calls := s.calls[c := Statted(s.Mtime())])
    case LookUnlocked(c) =>
      var m := s.calls[c].mtime;
      s.(calls := s.calls[c := if m == s.cachedMtime then Returned(m, s.cachedFiles) else Waiting(m)])
    case Acquire(c) => s.(lock := Some(c), calls := s.calls[c := Holding(s.calls[c].mtime)])
    case LookLocked(c) =>
      var m := s.calls[c].mtime;
      if m == s.cachedMtime then s.(lock := None, calls := s.calls[c := Returned(m, s.cachedFiles)])
      else s.(calls := s.calls[c := Scanning(m, s.Mtime())])
    case FinishScan(c, files) =>
      var m := s.calls[c].mtime;
      State(s.history, m, files, None, s.calls[c := Returned(m, files)])
  }

  /** The states of a run, from an initial one, each reached from the one before by an enabled step. */
  ghost predicate IsRun(states: seq<State>, steps: seq<Step>) {
    && |states| == |steps| + 1 && Init(states[0])
    && forall i :: 0 <= i < |steps| ==> Enabled(states[i], steps[i]) && states[i + 1] == Do(states[i], steps[i])
  }

  // ---------------------------------------------------------------- the invariant

  /** The listing shows the directory as a scan saw it that began at version `mtime` or later. */
  ghost predicate AsNewAs(files: seq<string>, history: seq<Names>, mtime: int) {
    exists from, to :: mtime <= from && 0 <= from <= to < |history| && SeenBetween(files, history, from, to)
  }

  predicate InCritical(p: Phase) { p.Holding? || p.Scanning? }

  ghost predicate PhaseOk(s: State, p: Phase) {
    && p.mtime < |s.history|
    && (p.Scanning? ==> p.mtime <= p.from < |s.history|)
    && (p.Returned? ==> AsNewAs(p.files, s.history, p.mtime))
  }

  ghost predicate Inv(s: State) {
    && s.history != []
    && (s.cachedMtime != -1 ==> 0 <= s.cachedMtime < |s.history| && AsNewAs(s.cachedFiles, s.history, s.cachedMtime))
    && (forall c :: c in s.calls ==> PhaseOk(s, s.calls[c]))
    && (forall c :: c in s.calls && InCritical(s.calls[c]) ==> s.lock == Some(c))
    && (s.lock.Some? ==> s.lock.value in s.calls && InCritical(s.calls[s.lock.value]))
  }

  lemma HistoryGrows(files: seq<string>, history: seq<Names>, names: Names, mtime: int)
    requires AsNewAs(files, history, mtime)
    ensures AsNewAs(files, history + [names], mtime)
  {
    var from, to :| mtime <= from && 0 <= from <= to < |history| && SeenBetween(files, history, from, to);
    var longer := history + [names];
    assert forall v :: from <= v <= to ==> longer[v] == history[v];
    assert SeenBetween(files, longer, from, to) by {
      forall n | forall v :: from <= v <= to ==> n in longer[v] ensures n in files {
        assert forall v :: from <= v <= to ==> n in history[v] by {
          forall v | from <= v <= to ensures n in history[v] { assert n in longer[v]; }
        }
      }
      forall n | n in files ensures exists v :: from <= v <= to && n in longer[v] {
        var v :| from <= v <= to && n in history[v];
        assert n in longer[v];
      }
    }
  }

  lemma InvPreserved(s: State, step: Step)
    requires Inv(s) && Enabled(s, step)
    ensures Inv(Do(s, step))
  {
    var t := Do(s, step);
    match step
    case Change(names) =>
      if s.cachedMtime != -1 { HistoryGrows(s.cachedFiles, s.history, names, s.cachedMtime); }
      forall c | c in t.calls ensures PhaseOk(t, t.calls[c]) {
        assert PhaseOk(s, s.calls[c]);
        if s.calls[c].Returned? { HistoryGrows(s.calls[c].files, s.history, names, s.calls[c].mtime); }
      }
    case FinishScan(c, files) =>
      assert PhaseOk(s, s.calls[c]);
      assert AsNewAs(files, s.history, s.calls[c].mtime);
    case _ =>
  }

  lemma {:induction false} EveryRunKeepsInv(states: seq<State>, steps: seq<Step>, i: nat)
    requires IsRun(states, steps) && i < |states|
    ensures Inv(states[i])
  {
    if i > 0 {
      EveryRunKeepsInv(states, steps, i - 1);
      InvPreserved(states[i - 1], steps[i - 1]);
    }
  }

  // ---------------------------------------------------------------- what callers may rely on

  /** In every run: no call returns a listing older than the version it statted, the cached pair holds files
      at least as new as its mtime, and at most one call is between taking and releasing the lock. */
  lemma NoStaleListing(states: seq<State>, steps: seq<Step>, i: nat)
    requires IsRun(states, steps) && i < |states|
    ensures var s := states[i];
            && (forall c :: c in s.calls && s.calls[c].Returned? ==>
                              AsNewAs(s.calls[c].files, s.history, s.calls[c].mtime))
            && (s.cachedMtime != -1 ==> AsNewAs(s.cachedFiles, s.history, s.cachedMtime))
            && (forall c, d :: c in s.calls && d in s.calls && InCritical(s.calls[c]) && InCritical(s.calls[d]) ==>
                                 c == d)
  {
    EveryRunKeepsInv(states, steps, i);
    var s := states[i];
    forall c | c in s.calls && s.calls[c].Returned? ensures AsNewAs(s.calls[c].files, s.history, s.calls[c].mtime) {
      assert PhaseOk(s, s.calls[c]);
    }
  }

  /** While the directory is still at the version a call statted, what the call returned, and likewise any
      cached pair with that mtime, is the directory's exact contents in order. */
  lemma ExactWhileUnchanged(states: seq<State>, steps: seq<Step>, i: nat)
    requires IsRun(states, steps) && i < |states|
    ensures var s := states[i];
            && (forall c :: c in s.calls && s.calls[c].Returned? && s.calls[c].mtime == s.Mtime() ==>
                              Sorted(s.calls[c].files) && forall n :: n in s.calls[c].files <==> n in s.Now())
            && (s.cachedMtime == s.Mtime() ==>
                  Sorted(s.cachedFiles) && forall n :: n in s.cachedFiles <==> n in s.Now())
  {
    EveryRunKeepsInv(states, steps, i);
    var s := states[i];
    forall c | c in s.calls && s.calls[c].Returned? && s.calls[c].mtime == s.Mtime()
      ensures Sorted(s.calls[c].files) && forall n :: n in s.calls[c].files <==> n in s.Now()
    {
      assert PhaseOk(s, s.calls[c]);
      NewestIsExact(s.calls[c].files, s.history);
    }
    if s.cachedMtime == s.Mtime() {
      NewestIsExact(s.cachedFiles, s.history);
    }
  }

  lemma {:induction false} NewestIsExact(files: seq<string>, history: seq<Names>)
    requires history != [] && AsNewAs(files, history, |history| - 1)
    ensures Sorted(files) && forall n :: n in files <==> n in history[|history| - 1]
  {
    var from, to :| |history| - 1 <= from && 0 <= from <= to < |history| && SeenBetween(files, history, from, to);
    assert from == to == |history| - 1;
    forall n | n in history[|history| - 1] ensures n in files {
      assert forall v :: from <= v <= to ==> n in history[v];
    }
  }

  /** What a call saw when it statted stays with it, and versions are only added. */
  lemma {:induction false} StatIsRemembered(states: seq<State>, steps: seq<Step>, i: nat, k: nat, c: nat)
    requires IsRun(states, steps) && i < k < |states| && steps[i] == Stat(c)
    ensures c in states[k].calls && states[k].calls[c].mtime == |states[i].history| - 1
    ensures states[i].history <= states[k].history
    decreases k
  {
    assert Enabled(states[k - 1], steps[k - 1]) && states[k] == Do(states[k - 1], steps[k - 1]);
    if i < k - 1 {
      StatIsRemembered(states, steps, i, k - 1, c);
    }
  }

  /** A call's answer is no older than the directory was when the call statted it: a scan saw it that began no
      earlier.  And if the directory has not changed since then, it is the exact contents in order. */
  lemma AnswerIsFresh(states: seq<State>, steps: seq<Step>, i: nat, k: nat, c: nat)
    requires IsRun(states, steps) && i < k < |states| && steps[i] == Stat(c)
    requires c in states[k].calls && states[k].calls[c].Returned?
    ensures AsNewAs(states[k].calls[c].files, states[k].history, |states[i].history| - 1)
    ensures states[k].history == states[i].history ==>
              && Sorted(states[k].calls[c].files)
              && forall n :: n in states[k].calls[c].files <==> n in states[i].Now()
  {
    StatIsRemembered(states, steps, i, k, c);
    NoStaleListing(states, steps, k);
    if states[k].history == states[i].history {
      ExactWhileUnchanged(states, steps, k);
    }
  }

  // ---------------------------------------------------------------- the cache is used

  /** Step `k` ends the scan of a call that had statted another version than `v`. */
  predicate ScansOther(states: seq<State>, steps: seq<Step>, k: nat, v: int)
    requires |states| == |steps| + 1 && k < |steps|
  {
    && steps[k].FinishScan? && steps[k].call in states[k].calls && states[k].calls[steps[k].call].mtime != v
  }

  /** Such a step comes after step `i` and before step `j`. */
  ghost predicate ScannedOther(states: seq<State>, steps: seq<Step>, i: nat, j: nat, v: int)
    requires |states| == |steps| + 1 && j <= |steps|
  {
    exists k :: i < k < j && ScansOther(states, steps, k, v)
  }

  predicate ScanningFor(s: State, c: nat, v: int) { c in s.calls && s.calls[c].Scanning? && s.calls[c].mtime == v }

  /** From the end of a scan for version `v` on, the cache answers for that version and call `d` does not come
      to scan for it, until a scan for another version ends. */
  lemma {:induction false} CacheAnswers(states: seq<State>, steps: seq<Step>, i: nat, j: nat, v: int, d: nat)
    requires IsRun(states, steps) && i < j < |states| && steps[i].FinishScan?
    requires states[i].calls[steps[i].call].mtime == v
    requires !ScannedOther(states, steps, i, j, v)
    ensures states[j].cachedMtime == v && !ScanningFor(states[j], d, v)
    decreases j
  {
    EveryRunKeepsInv(states, steps, j);
    assert Enabled(states[j - 1], steps[j - 1]) && states[j] == Do(states[j - 1], steps[j - 1]);
    if i < j - 1 {
      CacheAnswers(states, steps, i, j - 1, v, d);
      assert !ScansOther(states, steps, j - 1, v);
    } else if d in states[j].calls {
      assert !InCritical(states[j].calls[d]);
    }
  }

  /** No directory is scanned twice for the same version: when two calls that have statted the same version both
      scan, a scan for another version has ended in between. */
  lemma {:induction false} NoNeedlessScan(states: seq<State>, steps: seq<Step>, a: nat, b: nat, i: nat, j: nat,
                                          c: nat, d: nat)
    requires IsRun(states, steps) && a < i < j < |steps| && b < j
    requires steps[a] == Stat(c) && steps[b] == Stat(d) && |states[a].history| == |states[b].history|
    requires steps[i].FinishScan? && steps[i].call == c && steps[j].FinishScan? && steps[j].call == d
    ensures ScannedOther(states, steps, i, j, |states[a].history| - 1)
  {
    StatIsRemembered(states, steps, a, i, c);
    StatIsRemembered(states, steps, b, j, d);
    if !ScannedOther(states, steps, i, j, |states[a].history| - 1) {
      CacheAnswers(states, steps, i, j, |states[a].history| - 1, d);
      assert false;
    }
  }

  // ---------------------------------------------------------------- every call gets its answer

  /** How many steps a call still has before it. */
  function Left(p: Phase): nat {
    match p
    case Statted(_) => 4
    case Waiting(_) => 3
    case Holding(_) => 2
    case Scanning(_, _) => 1
    case Returned(_, _) => 0
  }

  /** The step brings call `d` nearer to its answer. */
  ghost predicate Advances(s: State, step: Step, d: nat) {
    Enabled(s, step) && d in s.calls && d in Do(s, step).calls && Left(Do(s, step).calls[d]) < Left(s.calls[d])
  }

  /** As long as some call has no answer, some call can take a step towards its own: the lock is always let go. */
  lemma {:induction false} NoDeadlock(states: seq<State>, steps: seq<Step>, i: nat, c: nat)
    requires IsRun(states, steps) && i < |states| && c in states[i].calls && !states[i].calls[c].Returned?
    ensures exists step, d :: Advances(states[i], step, d)
  {
    EveryRunKeepsInv(states, steps, i);
    var s := states[i];
    if s.calls[c].Statted? {
      assert Advances(s, LookUnlocked(c), c);
    } else if s.lock.None? {
      assert Advances(s, Acquire(c), c);
    } else {
      var holder := s.lock.value;
      assert PhaseOk(s, s.calls[holder]);
      if s.calls[holder].Holding? {
        assert Advances(s, LookLocked(holder), holder);
      } else {
        var files := SomeListing(s.Now());
        assert SeenBetween(files, s.history, s.calls[holder].from, |s.history| - 1);
        assert Advances(s, FinishScan(holder, files), holder);
      }
    }
  }

  lemma {:induction false} Greatest(names: Names) returns (last: string)
    requires names != {}
    ensures last in names && forall n :: n in names && n != last ==> Less(n, last)
    decreases names
  {
    var some :| some in names;
    var others := names - {some};
    last := some;
    if others != {} {
      var best := Greatest(others);
      Total(some, best);
      if Less(some, best) {
        last := best;
      } else {
        forall n | n in others ensures Less(n, some) {
          if n != best { Transitive(n, best, some); }
        }
      }
    }
    assert forall n :: n in names ==> n == some || n in others;
  }

  /** Every set of names can be listed in order. */
  lemma {:induction false} SomeListing(names: Names) returns (files: seq<string>)
    ensures Sorted(files) && forall n :: n in files <==> n in names
    decreases names
  {
    files := [];
    if names != {} {
      var last := Greatest(names);
      var before := SomeListing(names - {last});
      files := before + [last];
      assert files[|before|] == last;
      assert forall n :: n in files <==> n in before || n == last;
      forall i, j | 0 <= i < j < |files| ensures Less(files[i], files[j]) {
        assert before[i] in before;
      }
    }
  }
}
