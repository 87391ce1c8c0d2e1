/** Requests that overlap a password change (frigate/api/auth.py).

    A login and a cookie refresh read the user's row and mint their token later; a password change takes its
    time stamp and writes the row later.  Here each of these is a step of its own, so that requests handled
    by different threads interleave.  One user is modelled, whose account stays; requests of other users do
    not touch the row. */
module SessionOverlaps {
  import opened Common

  datatype Config = Config(sessionLength: nat, refreshTime: int)

  /** The user's row: how often its password has been changed, which tells the passwords apart, and when. */
  datatype Row = Row(changes: nat, changedAt: Option<real>)

  /** A token, and the password its session was begun with. */
  datatype Token = Token(password: nat, iat: int, exp: int)

  /** A request between its reading and its writing. */
  datatype Request =
    | LoginRead(password: nat)
    | RefreshRead(password: nat, exp: int)
    | ChangeStamped(stamp: real, own: bool)

  /** Requests are numbered in the order in which they begin. */
  datatype State = State(row: Row, issued: set<Token>, inFlight: map<nat, Request>, next: nat, now: real)

  predicate Stale(token: Token, row: Row) {
    row.changedAt.Some? && token.iat < row.changedAt.value.Floor
  }

  // ---------------------------------------------------------------- steps

  /** Each happens at time `t`; `t0` is the reading of the clock behind an expiry, made at some earlier time. */
  datatype Step =
    | ReadForLogin(t: real)
    | ReadForRefresh(token: Token, t0: real, t: real)
    | Mint(id: nat, t0: real, t: real)
    | StampChange(own: bool, t: real)
    | WriteChange(id: nat, t: real)

  predicate Enabled(config: Config, s: State, step: Step) {
    && s.now <= step.t
    && match step
       case ReadForLogin(_) => true
       case ReadForRefresh(token, t0, t) =>
         && token in s.issued && t0 <= t
         && t0.Floor < token.exp <= t0.Floor + config.refreshTime && !Stale(token, s.row)
       case Mint(id, t0, t) => id in s.inFlight && !s.inFlight[id].ChangeStamped? && t0 <= t
       case StampChange(_, _) => true
       case WriteChange(id, _) => id in s.inFlight && s.inFlight[id].ChangeStamped?
  }

  function Begin(s: State, request: Request, t: real): State {
    s.(inFlight := s.inFlight[s.next := request], next := s.next + 1, now := t)
  }

  function Do(config: Config, s: State, step: Step): State
    requires Enabled(config, s, step)
  {
    match step
    case ReadForLogin(t) => Begin(s, LoginRead(s.row.changes), t)
    case ReadForRefresh(token, t0, t) => Begin(s, RefreshRead(token.password, t0.Floor + config.sessionLength), t)
    case Mint(id, t0, t) =>
      var request := s.inFlight[id];
      var exp := if request.LoginRead? then t0.Floor + config.sessionLength else request.exp;
      s.(issued := s.issued + {Token(request.password, t.Floor, exp)}, inFlight := s.inFlight - {id}, now := t)
    case StampChange(own, t) => Begin(s, ChangeStamped(t, own), t)
    case WriteChange(id, t) =>
      var request := s.inFlight[id];
      s.(row := Row(s.row.changes + 1, Some(request.stamp)),
         inFlight := if request.own then s.inFlight[id := LoginRead(s.row.changes + 1)] else s.inFlight - {id},
         now := t)
  }

  // ---------------------------------------------------------------- what every step keeps

  predicate RequestOk(config: Config, s: State, request: Request) {
    match request
    case LoginRead(password) => password <= s.row.changes
    case RefreshRead(password, exp) => password <= s.row.changes && exp <= s.now.Floor + config.sessionLength
    case ChangeStamped(stamp, _) => stamp <= s.now
  }

  /** No token lasts longer than a session, and nothing comes from the future. */
  ghost predicate Inv(config: Config, s: State) {
    && (forall c :: c in s.issued ==>
          c.exp <= c.iat + config.sessionLength && c.iat <= s.now.Floor && c.password <= s.row.changes)
    && (forall id :: id in s.inFlight ==> id < s.next && RequestOk(config, s, s.inFlight[id]))
    && (s.row.changedAt.Some? ==> s.row.changedAt.value <= s.now)
  }

  lemma {:induction false} FloorMonotone(a: real, b: real)
    requires a <= b
    ensures a.Floor <= b.Floor
  {
  }

  lemma {:induction false} InvPreserved(config: Config, s: State, step: Step)
    requires Inv(config, s) && Enabled(config, s, step)
    ensures Inv(config, Do(config, s, step))
  {
    FloorMonotone(s.now, step.t);
    if step.Mint? || step.ReadForRefresh? { FloorMonotone(step.t0, step.t); }
  }

  ghost predicate IsRun(config: Config, states: seq<State>, steps: seq<Step>) {
    && |states| == |steps| + 1 && Inv(config, states[0])
    && forall i :: 0 <= i < |steps| ==>
         Enabled(config, states[i], steps[i]) && states[i + 1] == Do(config, states[i], steps[i])
  }

  /** In every interleaving of these steps every token lasts at most the session length. */
  lemma {:induction false} EveryRunKeepsInv(config: Config, states: seq<State>, steps: seq<Step>, i: nat)
    requires IsRun(config, states, steps) && i < |states|
    ensures Inv(config, states[i])
  {
    if i > 0 {
      EveryRunKeepsInv(config, states, steps, i - 1);
      InvPreserved(config, states[i - 1], steps[i - 1]);
    }
  }

  // ---------------------------------------------------------------- which sessions outlive a change

  /** At step `w` a password change is written, and none is afterwards up to state `e`. */
  ghost predicate LastChangeAt(states: seq<State>, steps: seq<Step>, w: nat, e: nat)
    requires |states| == |steps| + 1
  {
    w < e < |states| && steps[w].WriteChange? && forall k :: w < k < e ==> !steps[k].WriteChange?
  }

  /** An old session is alive: a token of one begun with an earlier password is not stale and so is
      exchanged once it is due. */
  ghost predicate OldSessionAlive(s: State, row: Row) {
    exists c :: c in s.issued && c.password < row.changes && !Stale(c, row)
  }

  predicate MintsForOld(request: Request, row: Row) {
    !request.ChangeStamped? && request.password < row.changes
  }

  /** Step `k`, after the change written at `w`, mints for an old password, for a request begun before `w`. */
  predicate MintsOverlapping(states: seq<State>, steps: seq<Step>, w: nat, k: nat)
    requires |states| == |steps| + 1 && w < k < |steps|
  {
    && steps[k].Mint? && steps[k].id < states[w].next && steps[k].id in states[k].inFlight
    && MintsForOld(states[k].inFlight[steps[k].id], states[w + 1].row)
  }

  ghost predicate Overlapped(states: seq<State>, steps: seq<Step>, w: nat, e: nat)
    requires |states| == |steps| + 1 && w < e < |states|
  {
    exists k :: w < k < e && MintsOverlapping(states, steps, w, k)
  }

  /** A request begun after the change that mints for an old password does so for a session that is alive. */
  ghost predicate LateRequestsOk(s: State, row: Row, first: nat) {
    forall id :: (id in s.inFlight && id >= first && MintsForOld(s.inFlight[id], row)) ==> OldSessionAlive(s, row)
  }

  /** Step by step from the change on: the row stays as written, and an old session is alive only if one was
      when the change was written or a request that overlapped it has minted since. */
  lemma {:induction false} SinceTheChange(config: Config, states: seq<State>, steps: seq<Step>, w: nat, e: nat)
    requires IsRun(config, states, steps) && LastChangeAt(states, steps, w, e)
    ensures var row := states[w + 1].row;
            && states[e].row == row && states[w].now <= states[e].now && states[w].next <= states[e].next
            && states[w].issued <= states[e].issued
            && LateRequestsOk(states[e], row, states[w].next)
            && (OldSessionAlive(states[e], row) ==>
                  OldSessionAlive(states[w], row) || Overlapped(states, steps, w, e))
  {
    EveryRunKeepsInv(config, states, steps, w);
    if e > w + 1 {
      SinceTheChange(config, states, steps, w, e - 1);
      EveryRunKeepsInv(config, states, steps, e - 1);
      OneStepSince(config, states, steps, w, e - 1);
    } else {
      assert states[w + 1] == Do(config, states[w], steps[w]);
    }
  }

  lemma {:induction false} OneStepSince(config: Config, states: seq<State>, steps: seq<Step>, w: nat, k: nat)
    requires IsRun(config, states, steps) && LastChangeAt(states, steps, w, k + 1) && w < k
    requires states[k].row == states[w + 1].row && states[w].next <= states[k].next
    requires LateRequestsOk(states[k], states[k].row, states[w].next)
    requires OldSessionAlive(states[k], states[k].row) ==>
               OldSessionAlive(states[w], states[k].row) || Overlapped(states, steps, w, k)
    ensures var row := states[w + 1].row;
            && states[k + 1].row == row
            && LateRequestsOk(states[k + 1], row, states[w].next)
            && (OldSessionAlive(states[k + 1], row) ==>
                  OldSessionAlive(states[w], row) || Overlapped(states, steps, w, k + 1))
  {
    var s, step, row := states[k], steps[k], states[k].row;
    var s' := states[k + 1];
    assert s' == Do(config, s, step) && s.issued <= s'.issued;
    assert OldSessionAlive(s, row) ==> OldSessionAlive(s', row);
    if step.ReadForRefresh? && step.token.password < row.changes {
      assert OldSessionAlive(s, row);
    }
    if OldSessionAlive(s', row) && !OldSessionAlive(s, row) {
      var c :| c in s'.issued && c.password < row.changes && !Stale(c, row);
      assert c !in s.issued;
      assert step.Mint? && s.inFlight[step.id].password == c.password;
      assert step.id < states[w].next;
      assert MintsOverlapping(states, steps, w, k);
    }
  }

  /** What is minted after the change is not stale. */
  lemma {:induction false} OverlappingMintSurvives(config: Config, states: seq<State>, steps: seq<Step>,
                                                   w: nat, k: nat, e: nat)
    requires IsRun(config, states, steps) && LastChangeAt(states, steps, w, e)
    requires w < k < e && MintsOverlapping(states, steps, w, k)
    ensures OldSessionAlive(states[e], states[w + 1].row)
  {
    var row, request := states[w + 1].row, states[k].inFlight[steps[k].id];
    EveryRunKeepsInv(config, states, steps, w + 1);
    assert LastChangeAt(states, steps, w, k);
    LaterIsLater(config, states, steps, w + 1, k);
    LaterIsLater(config, states, steps, k + 1, e);
    assert states[k + 1] == Do(config, states[k], steps[k]);
    FloorMonotone(row.changedAt.value, steps[k].t);
    var exp := if request.LoginRead? then steps[k].t0.Floor + config.sessionLength else request.exp;
    assert Token(request.password, steps[k].t.Floor, exp) in states[e].issued;
  }

  lemma {:induction false} LaterIsLater(config: Config, states: seq<State>, steps: seq<Step>, i: nat, j: nat)
    requires IsRun(config, states, steps) && i <= j < |states|
    ensures states[i].now <= states[j].now && states[i].issued <= states[j].issued
    decreases j
  {
    if i < j {
      LaterIsLater(config, states, steps, i, j - 1);
      assert states[j - 1 + 1] == Do(config, states[j - 1], steps[j - 1]);
    }
  }

  /** Over every interleaving: after a password change an old session is still alive if and only if one of its
      tokens was issued in or after the second of the change's stamp, before the change was written, or a
      login or refresh that had read the row before has minted its token since. */
  lemma {:induction false} OldSessionsOutliveChangeIff(config: Config, states: seq<State>, steps: seq<Step>,
                                                       w: nat, e: nat)
    requires IsRun(config, states, steps) && LastChangeAt(states, steps, w, e)
    ensures OldSessionAlive(states[e], states[e].row) <==>
              OldSessionAlive(states[w], states[e].row) || Overlapped(states, steps, w, e)
  {
    SinceTheChange(config, states, steps, w, e);
    var row := states[w + 1].row;
    if OldSessionAlive(states[w], row) {
      var c :| c in states[w].issued && c.password < row.changes && !Stale(c, row);
      assert c in states[e].issued;
    }
    if k :| w < k < e && MintsOverlapping(states, steps, w, k) {
      OverlappingMintSurvives(config, states, steps, w, k, e);
    }
  }

  /** Where none is alive, every old token is stale, is not exchanged, and has expired one session length after
      the second of the change. */
  lemma {:induction false} OtherwiseOldTokensDieOut(config: Config, states: seq<State>, steps: seq<Step>,
                                                    w: nat, e: nat, token: Token, t0: real, t: real)
    requires IsRun(config, states, steps) && LastChangeAt(states, steps, w, e)
    requires !OldSessionAlive(states[w], states[e].row) && !Overlapped(states, steps, w, e)
    requires token in states[e].issued && token.password < states[e].row.changes
    ensures !Enabled(config, states[e], ReadForRefresh(token, t0, t))
    ensures states[e].row.changedAt.Some? && token.exp < states[e].row.changedAt.value.Floor + config.sessionLength
  {
    SinceTheChange(config, states, steps, w, e);
    EveryRunKeepsInv(config, states, steps, e);
    assert Stale(token, states[e].row);
  }

  /** A refresh that has read the row before the change is written, and mints after: the old session is alive
      although none of its tokens was issued since the stamp when the change was written. */
  lemma {:induction false} OverlappingRefreshOutlivesChange()
    ensures exists config: Config, states: seq<State>, steps: seq<Step>, w: nat, e: nat ::
              && IsRun(config, states, steps) && LastChangeAt(states, steps, w, e)
              && !OldSessionAlive(states[w], states[e].row) && OldSessionAlive(states[e], states[e].row)
  {
    var config := Config(100, 60);
    var token := Token(0, 0, 100);
    var s0 := State(Row(0, None), {token}, map[], 0, 50.0);
    var steps := [ReadForRefresh(token, 50.0, 50.0), StampChange(false, 51.0), WriteChange(1, 51.0),
                  Mint(0, 52.0, 52.0)];
    assert Enabled(config, s0, steps[0]);
    var s1 := Do(config, s0, steps[0]);
    assert Enabled(config, s1, steps[1]);
    var s2 := Do(config, s1, steps[1]);
    assert Enabled(config, s2, steps[2]);
    var s3 := Do(config, s2, steps[2]);
    assert Enabled(config, s3, steps[3]);
    var s4 := Do(config, s3, steps[3]);
    var states := [s0, s1, s2, s3, s4];
    assert IsRun(config, states, steps);
    assert LastChangeAt(states, steps, 2, 4);
    assert states[4].row == Row(1, Some(51.0)) && states[2].issued == {token};
    assert Token(0, 52, 150) in states[4].issued;
  }
}
