/** The restart limiter of the watchdog (frigate/watchdog.py): a crashed process is restarted at most five
    times a minute, by means of a bounded deque of restart times. */
module Watchdog {
  const MAX_RESTARTS := 5
  const RESTART_WINDOW_S := 60.0

  /** How far a restart gets: closing the old process, making the new one or starting it may raise, which
      leaves no restart on record; the callback runs after the restart has been recorded. */
  datatype Attempt = CloseRaises | FactoryRaises | StartRaises | CallbackRaises | Works {
    predicate Recorded() { CallbackRaises? || Works? }
  }

  /** What the watchdog finds when it looks at a process at time `now`. */
  datatype Look = Look(alive: bool, exitCode: int, now: real, attempt: Attempt)

  datatype Verdict = Alive | CleanExit | BackedOff | Restarted | RestartFailed

  // ---------------------------------------------------------------- the rule, on the full history

  /** The fifth most recent of all recorded restarts is at most a minute old. */
  predicate TooFast(history: seq<real>, now: real) {
    |history| >= MAX_RESTARTS && now - history[|history| - MAX_RESTARTS] <= RESTART_WINDOW_S
  }

  function Judge(history: seq<real>, look: Look): Verdict {
    if look.alive then Alive
    else if look.exitCode == 0 then CleanExit
    else if TooFast(history, look.now) then BackedOff
    else if look.attempt.Recorded() then Restarted
    else RestartFailed
  }

  /** All restarts recorded over a run. */
  function History(looks: seq<Look>): seq<real> {
    if looks == [] then []
    else
      var before, last := History(looks[..|looks| - 1]), looks[|looks| - 1];
      if Judge(before, last).Restarted? then before + [last.now] else before
  }

  ghost predicate ClockRuns(looks: seq<Look>) {
    forall i, j :: 0 <= i < j < |looks| ==> looks[i].now <= looks[j].now
  }

  ghost predicate Ascending(history: seq<real>) {
    forall i, j :: 0 <= i < j < |history| ==> history[i] <= history[j]
  }

  /** Any six restarts in a row take more than a minute. */
  ghost predicate Spaced(history: seq<real>) {
    forall i :: 0 <= i && i + MAX_RESTARTS < |history| ==> history[i + MAX_RESTARTS] - history[i] > RESTART_WINDOW_S
  }

  lemma AscendingSnoc(history: seq<real>, now: real)
    requires Ascending(history) && forall t :: t in history ==> t <= now
    ensures Ascending(history + [now]) && forall t :: t in history + [now] ==> t <= now
  {
    forall i, j | 0 <= i < j < |history + [now]| ensures (history + [now])[i] <= (history + [now])[j] {
      assert history[i] in history;
    }
  }

  lemma {:induction false} SpacedSnoc(history: seq<real>, now: real)
    requires Spaced(history) && !TooFast(history, now)
    ensures Spaced(history + [now])
  {
    forall i | 0 <= i && i + MAX_RESTARTS < |history + [now]|
      ensures (history + [now])[i + MAX_RESTARTS] - (history + [now])[i] > RESTART_WINDOW_S
    {
      if i + MAX_RESTARTS < |history| {
        assert history[i + MAX_RESTARTS] - history[i] > RESTART_WINDOW_S;
      }
    }
  }

  /** Over every run with a clock that does not go backwards, restarts are spaced: within any minute there
      are at most five. */
  lemma {:induction false} RestartsAreSpaced(looks: seq<Look>)
    requires ClockRuns(looks)
    ensures Ascending(History(looks)) && Spaced(History(looks))
    ensures looks != [] ==> forall t :: t in History(looks) ==> t <= looks[|looks| - 1].now
  {
    if looks != [] {
      var before := History(looks[..|looks| - 1]);
      RestartsAreSpaced(looks[..|looks| - 1]);
      var last := looks[|looks| - 1];
      if Judge(before, last).Restarted? {
        AscendingSnoc(before, last.now);
        SpacedSnoc(before, last.now);
      }
    }
  }

  /** The restarts of the last minute. */
  function Recent(history: seq<real>, now: real): seq<real> {
    if history == [] then []
    else
      var last := history[|history| - 1];
      Recent(history[..|history| - 1], now) + if now - last <= RESTART_WINDOW_S then [last] else []
  }

  lemma {:induction false} NoneRecent(history: seq<real>, now: real)
    requires forall t :: t in history ==> now - t > RESTART_WINDOW_S
    ensures Recent(history, now) == []
  {
    if history != [] {
      var init, last := history[..|history| - 1], history[|history| - 1];
      assert history == init + [last];
      assert last in history && forall t :: t in init ==> t in history;
      NoneRecent(init, now);
    }
  }

  /** In an ascending history, the restarts of the last minute are the last ones: `n` or more of them if and only
      if the `n`th from the end is one. */
  lemma {:induction false} RecentIff(history: seq<real>, now: real, n: nat)
    requires Ascending(history) && 0 < n
    ensures |Recent(history, now)| >= n <==> |history| >= n && now - history[|history| - n] <= RESTART_WINDOW_S
  {
    if history != [] {
      var init, last := history[..|history| - 1], history[|history| - 1];
      if now - last <= RESTART_WINDOW_S {
        if n > 1 { RecentIff(init, now, n - 1); }
      } else {
        forall t | t in history ensures t <= last {
          var i :| 0 <= i < |history| && history[i] == t;
        }
        NoneRecent(history, now);
      }
    }
  }

  /** The process has crashed: it is down, and did not exit cleanly. */
  predicate Crashed(look: Look) { !look.alive && look.exitCode != 0 }

  /** Over every run with a clock that does not go backwards, at every look: a restart is recorded if and only if
      the process is found crashed, fewer than five restarts have been recorded in the last minute, and the
      attempt gets as far as starting the new process. */
  lemma {:induction false} RestartedIff(looks: seq<Look>, i: nat)
    requires ClockRuns(looks) && i < |looks|
    ensures var before, after, look := History(looks[..i]), History(looks[..i + 1]), looks[i];
            after == if Crashed(look) && |Recent(before, look.now)| < 5
                        && (look.attempt.CallbackRaises? || look.attempt.Works?)
                     then before + [look.now] else before
  {
    assert looks[..i + 1][..i] == looks[..i];
    RestartsAreSpaced(looks[..i]);
    RecentIff(History(looks[..i]), looks[i].now, 5);
  }

  /** A crashed process is left down exactly while five restarts fall within the last minute; one that has exited
      cleanly stays down. */
  lemma {:induction false} BackedOffIff(looks: seq<Look>, i: nat)
    requires ClockRuns(looks) && i < |looks|
    ensures Judge(History(looks[..i]), looks[i]).BackedOff? <==>
              Crashed(looks[i]) && |Recent(History(looks[..i]), looks[i].now)| >= 5
    ensures Judge(History(looks[..i]), looks[i]).CleanExit? <==> !looks[i].alive && looks[i].exitCode == 0
  {
    RestartsAreSpaced(looks[..i]);
    RecentIff(History(looks[..i]), looks[i].now, 5);
  }

  // ---------------------------------------------------------------- the deque

  /** Appending to a full bounded deque drops its oldest entry. */
  function AppendBounded(d: seq<real>, t: real): seq<real> {
    if |d| >= MAX_RESTARTS then d[1..] + [t] else d + [t]
  }

  class MonitoredProcess {
    var restartTimestamps: seq<real>
    var cleanExitLogged: bool
    ghost var history: seq<real>  // every recorded restart
    ghost var dropped: nat        // how many of them have been pruned from the deque
    ghost var clock: real         // the latest time the watchdog has seen

    /** The deque is the tail of the history, and what was dropped from it had left the window. */
    ghost predicate Valid()
      reads this
    {
      && |restartTimestamps| <= MAX_RESTARTS
      && dropped <= |history|
      && restartTimestamps == history[dropped..]
      && Ascending(history)
      && (forall t :: t in history ==> t <= clock)
      && (forall i :: 0 <= i < dropped ==> clock - history[i] > RESTART_WINDOW_S)
    }

    constructor (ghost start: real)
      ensures Valid() && history == [] && clock == start
    {
      restartTimestamps, cleanExitLogged, history, dropped, clock := [], false, [], 0, start;
    }

    method IsRestartingTooFast(now: real) returns (tooFast: bool)
      requires Valid() && clock <= now
      modifies this`restartTimestamps, this`dropped, this`clock
      ensures Valid() && clock == now
      ensures tooFast <==> TooFast(history, now)
      ensures tooFast <==> |restartTimestamps| == MAX_RESTARTS
    {
      clock := now;
      while restartTimestamps != [] && now - restartTimestamps[0] > RESTART_WINDOW_S
        invariant Valid() && clock == now
        decreases |restartTimestamps|
      {
        assert history[dropped] == restartTimestamps[0];
        restartTimestamps, dropped := restartTimestamps[1..], dropped + 1;
      }
      assert dropped < |history| ==> history[dropped] == restartTimestamps[0];
      tooFast := |restartTimestamps| >= MAX_RESTARTS;
    }

    /** One look at the process.  A crash is refused a restart exactly when the fifth most recent recorded
        restart is at most a minute old; and the entry appended for a restart never pushes one out. */
    method CheckProcess(look: Look) returns (verdict: Verdict)
      requires Valid() && clock <= look.now
      modifies this
      ensures Valid() && clock <= look.now
      ensures verdict == Judge(old(history), look)
      ensures history == if verdict.Restarted? then old(history) + [look.now] else old(history)
      ensures verdict.Restarted? ==>
                exists pruned: seq<real> :: |pruned| < MAX_RESTARTS && restartTimestamps == pruned + [look.now]
    {
      if look.alive {
        return Alive;
      }
      if look.exitCode == 0 {
        cleanExitLogged := true;
        return CleanExit;
      }
      var tooFast := IsRestartingTooFast(look.now);
      if tooFast {
        return BackedOff;
      }
      if !look.attempt.Recorded() {
        return RestartFailed;
      }
      ghost var pruned := restartTimestamps;
      restartTimestamps := AppendBounded(restartTimestamps, look.now);
      AscendingSnoc(history, look.now);
      history := history + [look.now];
      assert restartTimestamps == pruned + [look.now];
      return Restarted;
    }

    /** The watchdog's loop: the deque decides as the full history would. */
    method Watch(looks: seq<Look>)
      requires Valid() && history == [] && ClockRuns(looks)
      requires looks != [] ==> clock <= looks[0].now
      modifies this
      ensures Valid() && history == History(looks)
    {
      for i := 0 to |looks|
        invariant Valid() && history == History(looks[..i])
        invariant i < |looks| ==> clock <= looks[i].now
      {
        assert looks[..i + 1][..i] == looks[..i];
        var _ := CheckProcess(looks[i]);
      }
      assert looks[..|looks|] == looks;
    }
  }
}
