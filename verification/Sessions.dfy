/** Token sessions (frigate/api/auth.py): login, the cookie refresh made while a request is authenticated,
    and password changes, as one timed state machine.

    Signatures are not modelled: a token decodes exactly when it has been handed out.  Its claims are those
    of RFC 7519, sections 4.1.2 (`sub`), 4.1.4 (`exp`) and 4.1.6 (`iat`), plus the role.  Every reading of
    the clock is an input of the operation that makes it.  Each request is one step here; requests that
    overlap are the subject of `SessionOverlaps`. */
module Sessions {
  import opened Common

  datatype Claims = Claims(sub: string, role: string, exp: int, iat: int)

  datatype User = User(role: string, password: string, changedAt: Option<real>)

  datatype Config = Config(sessionLength: nat, refreshTime: int, roles: set<string>)

  datatype Source = Authorization | Cookie

  /** The operations, with the clock readings each makes, in order. */
  datatype Op =
    | Login(user: string, password: string, t1: real, t2: real)
    | Authenticate(token: Option<Claims>, source: Source, deny: Option<int>, t1: real, t2: real)
    | ChangePassword(actor: string, actorRole: string, target: string, oldPassword: string, newPassword: string,
                     t1: real, t2: real, t3: real)
    | CreateUser(name: string, role: string, password: string, t1: real)
    | DeleteUser(name: string, t1: real)
    | SetRole(name: string, role: string, t1: real)
  {
    function First(): real { t1 }

    function Last(): real {
      match this
      case Login(_, _, _, t2) => t2
      case Authenticate(_, _, _, _, t2) => t2
      case ChangePassword(_, _, _, _, _, _, _, t3) => t3
      case _ => t1
    }

    /** The readings of one operation do not go backwards. */
    predicate Ordered() {
      match this
      case Login(_, _, t1, t2) => t1 <= t2
      case Authenticate(_, _, _, t1, t2) => t1 <= t2
      case ChangePassword(_, _, _, _, _, t1, t2, t3) => t1 <= t2 <= t3
      case _ => true
    }
  }

  /** A response: its status and the session cookie it sets, if any. */
  datatype Reply = Reply(status: int, cookie: Option<Claims>)

  datatype State = State(users: map<string, User>, issued: set<Claims>, now: real)

  // ---------------------------------------------------------------- the operations

  /** A token minted at the clock reading `t`. */
  function Mint(user: string, role: string, expiration: int, t: real): Claims {
    Claims(user, role, expiration, t.Floor)
  }

  predicate StrongPassword(password: string) { |password| >= 12 }

  /** What `^[A-Za-z0-9._]+$` matches; the dollar also lets one newline follow. */
  predicate ValidUsername(name: string) {
    var body := if name != "" && name[|name| - 1] == '\n' then name[..|name| - 1] else name;
    body != "" && forall c :: c in body ==> 'A' <= c <= 'Z' || 'a' <= c <= 'z' || '0' <= c <= '9' || c in {'.', '_'}
  }

  /** The token predates the second of the user's recorded password change. */
  predicate Stale(token: Claims, user: User) {
    user.changedAt.Some? && token.iat < user.changedAt.value.Floor
  }

  function LoginReply(config: Config, st: State, op: Op): Reply
    requires op.Login?
  {
    if op.user !in st.users || st.users[op.user].password != op.password then Reply(401, None)
    else
      var stored := st.users[op.user].role;
      var role := if stored in config.roles then stored else "viewer";
      Reply(200, Some(Mint(op.user, role, op.t1.Floor + config.sessionLength, op.t2)))
  }

  /** A cookie close enough to its end is exchanged for a new one, unless its user is gone or it is stale. */
  function AuthenticateReply(config: Config, st: State, op: Op): Reply
    requires op.Authenticate?
  {
    if op.token.None? || op.token.value !in st.issued then Reply(401, None)
    else
      var token, current := op.token.value, op.t1.Floor;
      if token.exp <= current then Reply(401, None)
      else if op.source.Cookie? && token.exp - config.refreshTime <= current then
        if token.sub !in st.users || Stale(token, st.users[token.sub]) then Reply(401, None)
        else if op.deny.Some? then Reply(op.deny.value, None)
        else Reply(202, Some(Mint(token.sub, token.role, current + config.sessionLength, op.t2)))
      else if op.deny.Some? then Reply(op.deny.value, None)
      else Reply(202, None)
  }

  function ChangeReply(config: Config, st: State, op: Op): Reply
    requires op.ChangePassword?
  {
    if op.actor == "" || op.actorRole == "" then Reply(401, None)
    else if op.actorRole != "admin" && op.actor != op.target then Reply(403, None)
    else if op.target !in st.users then Reply(404, None)
    else if op.actorRole != "admin" && op.oldPassword == "" then Reply(400, None)
    else if op.actorRole != "admin" && op.oldPassword != st.users[op.target].password then Reply(401, None)
    else if !StrongPassword(op.newPassword) then Reply(400, None)
    else if op.actor == op.target then
      Reply(200, Some(Mint(op.target, op.actorRole, op.t2.Floor + config.sessionLength, op.t3)))
    else Reply(200, None)
  }

  function Respond(config: Config, st: State, op: Op): Reply {
    match op
    case Login(_, _, _, _) => LoginReply(config, st, op)
    case Authenticate(_, _, _, _, _) => AuthenticateReply(config, st, op)
    case ChangePassword(_, _, _, _, _, _, _, _) => ChangeReply(config, st, op)
    case CreateUser(name, role, password, _) =>
      if !ValidUsername(name) || role !in config.roles || !StrongPassword(password) then Reply(400, None)
      else if name in st.users then Reply(500, None)
      else Reply(200, None)
    case DeleteUser(name, _) => if name == "admin" then Reply(403, None) else Reply(200, None)
    case SetRole(name, role, _) =>
      if name == "admin" then Reply(403, None) else if role !in config.roles then Reply(400, None) else Reply(200, None)
  }

  function UsersAfter(config: Config, st: State, op: Op): map<string, User> {
    if Respond(config, st, op).status != 200 then st.users
    else
      match op
      case ChangePassword(_, _, target, _, newPassword, t1, _, _) =>
        assert target in st.users;
        st.users[target := st.users[target].(password := newPassword, changedAt := Some(t1))]
      case CreateUser(name, role, password, _) => st.users[name := User(role, password, None)]
      case DeleteUser(name, _) => st.users - {name}
      case SetRole(name, role, _) =>
        if name in st.users then st.users[name := st.users[name].(role := role)] else st.users
      case _ => st.users
  }

  function Step(config: Config, st: State, op: Op): State {
    var reply := Respond(config, st, op);
    State(UsersAfter(config, st, op),
          if reply.cookie.Some? then st.issued + {reply.cookie.value} else st.issued,
          op.Last())
  }

  // ---------------------------------------------------------------- the server

  class AuthServer {
    const config: Config
    var users: map<string, User>
    var adminFirstTimeLogin: bool
    ghost var issued: set<Claims>
    ghost var now: real

    ghost function View(): State
      reads this
    {
      State(users, issued, now)
    }

    constructor (config: Config, users: map<string, User>, ghost start: real)
      ensures this.config == config && View() == State(users, {}, start) && adminFirstTimeLogin
    {
      this.config, this.users, adminFirstTimeLogin, issued, now := config, users, true, {}, start;
    }

    method Login(user: string, password: string, t1: real, t2: real) returns (reply: Reply)
      modifies this
      ensures reply == Respond(config, old(View()), Op.Login(user, password, t1, t2))
      ensures View() == Step(config, old(View()), Op.Login(user, password, t1, t2))
      ensures adminFirstTimeLogin ==
                (old(adminFirstTimeLogin) && !(reply.cookie.Some? && reply.cookie.value.role == "admin"))
    {
      now := t2;
      if user !in users {
        return Reply(401, None);
      }
      var dbUser := users[user];
      if dbUser.password != password {
        return Reply(401, None);
      }
      var role := dbUser.role;
      if role !in config.roles {
        role := "viewer";
      }
      var expiration := t1.Floor + config.sessionLength;
      var token := Mint(user, role, expiration, t2);
      if role == "admin" {
        adminFirstTimeLogin := false;
      }
      issued := issued + {token};
      return Reply(200, Some(token));
    }

    /** `decoded` says whether the signature checks out, which it does for the tokens handed out. */
    method Authenticate(token: Option<Claims>, decoded: bool, source: Source, deny: Option<int>, t1: real, t2: real)
      returns (reply: Reply)
      requires token.Some? ==> (decoded <==> token.value in issued)
      modifies this
      ensures reply == Respond(config, old(View()), Op.Authenticate(token, source, deny, t1, t2))
      ensures View() == Step(config, old(View()), Op.Authenticate(token, source, deny, t1, t2))
      ensures adminFirstTimeLogin == old(adminFirstTimeLogin)
    {
      now := t2;
      if token.None? || !decoded {
        return Reply(401, None);
      }
      var claims, currentTime := token.value, t1.Floor;
      if claims.exp <= currentTime {
        return Reply(401, None);
      }
      var cookie := None;
      if source.Cookie? && claims.exp - config.refreshTime <= currentTime {
        if claims.sub !in users {
          return Reply(401, None);
        }
        var changedAt := users[claims.sub].changedAt;
        if changedAt.Some? && claims.iat < changedAt.value.Floor {
          return Reply(401, None);
        }
        cookie := Some(Mint(claims.sub, claims.role, currentTime + config.sessionLength, t2));
      }
      if deny.Some? {
        return Reply(deny.value, None);
      }
      if cookie.Some? {
        issued := issued + {cookie.value};
      }
      return Reply(202, cookie);
    }

    method UpdatePassword(actor: string, actorRole: string, target: string, oldPassword: string, newPassword: string,
                          t1: real, t2: real, t3: real)
      returns (reply: Reply)
      modifies this
      ensures var op := ChangePassword(actor, actorRole, target, oldPassword, newPassword, t1, t2, t3);
              reply == Respond(config, old(View()), op) && View() == Step(config, old(View()), op)
      ensures adminFirstTimeLogin == old(adminFirstTimeLogin)
    {
      now := t3;
      if actor == "" || actorRole == "" {
        return Reply(401, None);
      }
      if actorRole != "admin" && actor != target {
        return Reply(403, None);
      }
      if target !in users {
        return Reply(404, None);
      }
      if actorRole != "admin" {
        if oldPassword == "" {
          return Reply(400, None);
        }
        if oldPassword != users[target].password {
          return Reply(401, None);
        }
      }
      if |newPassword| < 12 {
        return Reply(400, None);
      }
      users := users[target := users[target].(password := newPassword, changedAt := Some(t1))];
      if actor != target {
        return Reply(200, None);
      }
      var expiration := t2.Floor + config.sessionLength;
      var token := Mint(target, actorRole, expiration, t3);
      issued := issued + {token};
      return Reply(200, Some(token));
    }
  }

  // ---------------------------------------------------------------- runs

  /** The clock never goes backwards, within an operation or from one to the next. */
  ghost predicate Timely(config: Config, st: State, ops: seq<Op>)
    decreases ops
  {
    ops == [] || (st.now <= ops[0].First() && ops[0].Ordered() && Timely(config, Step(config, st, ops[0]), ops[1..]))
  }

  function Run(config: Config, st: State, ops: seq<Op>): State
    decreases ops
  {
    if ops == [] then st else Run(config, Step(config, st, ops[0]), ops[1..])
  }

  /** Every token handed out lasts at most the session length and was not issued in the future. */
  ghost predicate Bounded(config: Config, st: State) {
    forall c :: c in st.issued ==> c.exp <= c.iat + config.sessionLength && c.iat <= st.now.Floor
  }

  lemma {:induction false} FloorMonotone(a: real, b: real)
    requires a <= b
    ensures a.Floor <= b.Floor
  {
  }

  /** In every interleaving of operations, every token ever handed out has exp <= iat + session length. */
  lemma {:induction false} TokensAreBounded(config: Config, st: State, ops: seq<Op>)
    requires Bounded(config, st) && Timely(config, st, ops)
    ensures Bounded(config, Run(config, st, ops))
    decreases ops
  {
    if ops != [] {
      FloorMonotone(st.now, ops[0].Last());
      FloorMonotone(ops[0].First(), ops[0].Last());
      if ops[0].ChangePassword? { FloorMonotone(ops[0].t2, ops[0].t3); }
      TokensAreBounded(config, Step(config, st, ops[0]), ops[1..]);
    }
  }

  /** The user exists and has a password change on record at second `second` or later. */
  predicate ChangedSince(st: State, user: string, second: int) {
    user in st.users && st.users[user].changedAt.Some? && second <= st.users[user].changedAt.value.Floor
  }

  /** As long as the user is not deleted, a recorded password change is never forgotten or moved back, even
      if more changes follow. */
  lemma {:induction false} ChangeIsRemembered(config: Config, st: State, ops: seq<Op>, user: string, second: int)
    requires Timely(config, st, ops) && ChangedSince(st, user, second) && second <= st.now.Floor
    requires forall op :: op in ops && op.DeleteUser? ==> op.name != user
    ensures ChangedSince(Run(config, st, ops), user, second) && second <= Run(config, st, ops).now.Floor
    decreases ops
  {
    if ops != [] {
      FloorMonotone(st.now, ops[0].Last());
      FloorMonotone(st.now, ops[0].First());
      assert ops[0] in ops;
      ChangeIsRemembered(config, Step(config, st, ops[0]), ops[1..], user, second);
    }
  }

  /** The operation succeeds in changing the user's password, or in creating or deleting the user. */
  predicate Touches(config: Config, st: State, op: Op, user: string) {
    && Respond(config, st, op).status == 200
    && match op
       case ChangePassword(_, _, target, _, _, _, _, _) => target == user
       case CreateUser(name, _, _, _) => name == user
       case DeleteUser(name, _) => name == user
       case _ => false
  }

  /** The last such operation of a run. */
  function LastTouch(config: Config, st: State, ops: seq<Op>, user: string): Option<Op>
    decreases ops
  {
    if ops == [] then None
    else
      var later := LastTouch(config, Step(config, st, ops[0]), ops[1..], user);
      if later.Some? then later else if Touches(config, st, ops[0], user) then Some(ops[0]) else None
  }

  /** What the record of the last password change has become over a run, by the operation that touched it last. */
  lemma {:induction false} RecordAfter(config: Config, st: State, ops: seq<Op>, user: string)
    requires Timely(config, st, ops)
    ensures var after, touch := Run(config, st, ops), LastTouch(config, st, ops, user);
            match touch
            case None => && (user in after.users <==> user in st.users)
                         && (user in st.users ==> after.users[user].changedAt == st.users[user].changedAt)
            case Some(op) =>
              && st.now <= op.t1
              && (user in after.users <==> !op.DeleteUser?)
              && (user in after.users ==> after.users[user].changedAt == if op.CreateUser? then None else Some(op.t1))
    decreases ops
  {
    if ops != [] {
      RecordAfter(config, Step(config, st, ops[0]), ops[1..], user);
    }
  }

  /** After a successful password change, whatever operations follow, deleting and creating the user included: a
      token of that user issued before the second of the change, presented as a cookie that is due, is
      exchanged for a new one if and only if the last operation to touch the user's record since is one that
      created the user anew, which forgets the change; and in any case it is refused altogether from the
      change plus one session length on. */
  lemma OldTokensDieOutUnlessRecreated(config: Config, st: State, change: Op, ops: seq<Op>, use: Op)
    requires Bounded(config, st)
    requires change.ChangePassword? && Respond(config, st, change).status == 200
    requires Timely(config, st, [change] + ops + [use])
    requires use.Authenticate? && use.source.Cookie? && use.deny.None? && use.token.Some?
    requires use.token.value.sub == change.target && use.token.value.iat < change.t1.Floor
    ensures var after, token := Run(config, st, [change] + ops), use.token.value;
            var reply := Respond(config, after, use);
            && (reply.cookie.Some? <==>
                  && token in after.issued && token.exp - config.refreshTime <= use.t1.Floor < token.exp
                  && var touch := LastTouch(config, Step(config, st, change), ops, change.target);
                     touch.Some? && touch.value.CreateUser?)
            && (use.t1.Floor >= change.t1.Floor + config.sessionLength ==> reply.status == 401)
  {
    var changed := Step(config, st, change);
    TimelySplits(config, st, [change] + ops, [use]);
    assert ([change] + ops)[1..] == ops;
    RecordAfter(config, changed, ops, change.target);
    TokensAreBounded(config, st, [change] + ops);
    var touch := LastTouch(config, changed, ops, change.target);
    FloorMonotone(change.t1, change.t3);
    if touch.Some? { FloorMonotone(change.t1, touch.value.t1); }
  }

  /** A token from before the change is exchanged again after the user has been deleted and created anew. */
  lemma RecreationRevivesOldToken()
    ensures exists config: Config, st: State, login: Op, change: Op, delete: Op, create: Op, use: Op ::
              && st.issued == {} && Timely(config, st, [login, change, delete, create, use])
              && login.Login? && change.ChangePassword? && delete.DeleteUser? && create.CreateUser?
              && use.Authenticate? && use.token.Some? && use.token.value.iat < change.t1.Floor
              && use.token == Respond(config, st, login).cookie
              && Respond(config, Run(config, st, [login, change]), use).cookie.None?
              && Respond(config, Run(config, st, [login, change, delete, create]), use).cookie.Some?
  {
    var config := Config(100, 50, {"viewer"});
    var st := State(map["u" := User("viewer", "old password 1", None)], {}, 1000.0);
    var token := Claims("u", "viewer", 1100, 1000);
    var login := Login("u", "old password 1", 1000.0, 1000.0);
    var change := ChangePassword("u", "viewer", "u", "old password 1", "new password 1", 1010.0, 1010.0, 1010.0);
    var delete, create := DeleteUser("u", 1020.0), CreateUser("u", "viewer", "new password 2", 1030.0);
    var use := Authenticate(Some(token), Cookie, None, 1060.0, 1060.0);
    assert Respond(config, st, login).cookie == Some(token);
    var st1 := Step(config, st, login);
    var st2 := AfterChange(config, st1, change);
    var st4 := AfterRecreation(config, st2, delete, create);
    RunOfFour(config, st, login, change, delete, create);
    RefusedThenExchanged(config, st2, st4, use);
    TimelyFive(config, st, login, change, delete, create, use);
  }

  lemma {:induction false} RefusedThenExchanged(config: Config, before: State, after: State, use: Op)
    requires use.Authenticate? && use.source.Cookie? && use.deny.None? && use.token.Some?
    requires use.token.value in before.issued && use.token.value in after.issued
    requires use.token.value.exp - config.refreshTime <= use.t1.Floor < use.token.value.exp
    requires use.token.value.sub in before.users && Stale(use.token.value, before.users[use.token.value.sub])
    requires use.token.value.sub in after.users && !Stale(use.token.value, after.users[use.token.value.sub])
    ensures Respond(config, before, use).cookie.None? && Respond(config, after, use).cookie.Some?
  {
  }

  lemma {:induction false} AfterChange(config: Config, st: State, change: Op) returns (after: State)
    requires change.ChangePassword? && Respond(config, st, change).status == 200
    ensures after == Step(config, st, change) && change.target in after.users && st.issued <= after.issued
    ensures after.users[change.target].changedAt == Some(change.t1)
  {
    after := Step(config, st, change);
  }

  lemma {:induction false} AfterRecreation(config: Config, st: State, delete: Op, create: Op) returns (after: State)
    requires delete.DeleteUser? && create.CreateUser? && delete.name == create.name != "admin"
    requires ValidUsername(create.name) && create.role in config.roles && StrongPassword(create.password)
    ensures after == Step(config, Step(config, st, delete), create) && after.issued == st.issued
    ensures create.name in after.users && after.users[create.name].changedAt == None
  {
    after := Step(config, Step(config, st, delete), create);
  }

  lemma {:induction false} RunOfTwo(config: Config, st: State, a: Op, b: Op)
    ensures Run(config, st, [a, b]) == Step(config, Step(config, st, a), b)
  {
    var none: seq<Op> := [];
    assert [a, b][1..] == [b] && [b][1..] == none;
    assert Run(config, Step(config, Step(config, st, a), b), none) == Step(config, Step(config, st, a), b);
    assert Run(config, Step(config, st, a), [b]) == Run(config, Step(config, Step(config, st, a), b), none);
  }

  lemma {:induction false} RunOfFour(config: Config, st: State, a: Op, b: Op, c: Op, d: Op)
    ensures Run(config, st, [a, b]) == Step(config, Step(config, st, a), b)
    ensures Run(config, st, [a, b, c, d]) == Step(config, Step(config, Run(config, st, [a, b]), c), d)
  {
    RunOfTwo(config, st, a, b);
    RunOfTwo(config, Run(config, st, [a, b]), c, d);
    RunSplits(config, st, [a, b], [c, d]);
    assert [a, b] + [c, d] == [a, b, c, d];
  }

  lemma {:induction false} RunSplits(config: Config, st: State, a: seq<Op>, b: seq<Op>)
    ensures Run(config, st, a + b) == Run(config, Run(config, st, a), b)
    decreases a
  {
    if a == [] {
      assert a + b == b;
    } else {
      assert (a + b)[1..] == a[1..] + b;
      RunSplits(config, Step(config, st, a[0]), a[1..], b);
    }
  }

  lemma {:induction false} TimelyFive(config: Config, st: State, a: Op, b: Op, c: Op, d: Op, e: Op)
    requires a.Ordered() && b.Ordered() && c.Ordered() && d.Ordered() && e.Ordered()
    requires st.now <= a.First() && a.Last() <= b.First() && b.Last() <= c.First()
    requires c.Last() <= d.First() && d.Last() <= e.First()
    ensures Timely(config, st, [a, b, c, d, e])
  {
    var st1 := Step(config, st, a);
    var st2 := Step(config, st1, b);
    var st3 := Step(config, st2, c);
    var st4 := Step(config, st3, d);
    var none: seq<Op> := [];
    TimelyCons(config, st4, e, none);
    TimelyCons(config, st3, d, [e] + none);
    TimelyCons(config, st2, c, [d] + ([e] + none));
    TimelyCons(config, st1, b, [c] + ([d] + ([e] + none)));
    TimelyCons(config, st, a, [b] + ([c] + ([d] + ([e] + none))));
    assert [a] + ([b] + ([c] + ([d] + ([e] + none)))) == [a, b, c, d, e];
  }

  lemma {:induction false} TimelyCons(config: Config, st: State, op: Op, rest: seq<Op>)
    requires st.now <= op.First() && op.Ordered() && Timely(config, Step(config, st, op), rest)
    ensures Timely(config, st, [op] + rest)
  {
    assert ([op] + rest)[1..] == rest;
  }

  lemma {:induction false} TimelySplits(config: Config, st: State, a: seq<Op>, b: seq<Op>)
    requires Timely(config, st, a + b)
    ensures Timely(config, st, a) && Timely(config, Run(config, st, a), b)
    decreases a
  {
    if a == [] {
      assert a + b == b;
    } else {
      assert (a + b)[1..] == a[1..] + b;
      TimelySplits(config, Step(config, st, a[0]), a[1..], b);
    }
  }

  /** The operations leave the user's password and existence alone. */
  ghost predicate LeaveAlone(ops: seq<Op>, user: string) {
    forall op :: op in ops ==> !(op.ChangePassword? && op.target == user) && !(op.DeleteUser? && op.name == user)
  }

  lemma {:induction false} RecordStays(config: Config, st: State, ops: seq<Op>, user: string)
    requires user in st.users && LeaveAlone(ops, user)
    ensures var after := Run(config, st, ops);
            user in after.users && after.users[user].changedAt == st.users[user].changedAt && st.issued <= after.issued
    decreases ops
  {
    if ops != [] {
      assert ops[0] in ops;
      RecordStays(config, Step(config, st, ops[0]), ops[1..], user);
    }
  }

  /** The token issued with a change of one's own password is not rejected by that change, whatever operations
      follow that leave the user's password and existence alone: it is not stale, and presented as a cookie
      before it expires it is accepted, and exchanged once it is due. */
  lemma OwnChangeKeepsSession(config: Config, st: State, change: Op, ops: seq<Op>, use: Op)
    requires change.ChangePassword? && change.actor == change.target && Respond(config, st, change).status == 200
    requires Timely(config, st, [change] + ops + [use]) && LeaveAlone(ops, change.target)
    requires use.Authenticate? && use.source.Cookie? && use.deny.None?
    requires use.token == Respond(config, st, change).cookie
    requires use.t1.Floor < use.token.value.exp
    ensures var after := Run(config, st, [change] + ops);
            && change.target in after.users && !Stale(use.token.value, after.users[change.target])
            && Respond(config, after, use).status == 202
            && (Respond(config, after, use).cookie.Some? <==>
                  use.token.value.exp - config.refreshTime <= use.t1.Floor)
  {
    assert ([change] + ops)[1..] == ops;
    RecordStays(config, Step(config, st, change), ops, change.target);
    FloorMonotone(change.t1, change.t3);
  }

  /** Which outstanding tokens a password change cuts off: a cookie due for exchange is exchanged after the
      change if and only if its issue second is not before the second of the change.  So one issued earlier
      within that very second survives. */
  lemma {:induction false} CutOffIffEarlierSecond(config: Config, st: State, change: Op, use: Op)
    requires change.ChangePassword? && Respond(config, st, change).status == 200
    requires use.Authenticate? && use.source.Cookie? && use.deny.None? && use.token.Some?
    requires use.token.value in st.issued && use.token.value.sub == change.target
    requires use.token.value.exp - config.refreshTime <= use.t1.Floor < use.token.value.exp
    ensures Respond(config, Step(config, st, change), use).cookie.Some? <==> use.token.value.iat >= change.t1.Floor
    ensures Respond(config, Step(config, st, change), use).cookie.None? <==>
              Respond(config, Step(config, st, change), use).status == 401
  {
  }

  /** A session issued just before the change, in the same second, is carried past it. */
  lemma SameSecondSessionSurvives()
    ensures exists config: Config, st: State, login: Op, change: Op, use: Op ::
              && st.issued == {} && Timely(config, st, [login, change, use])
              && login.Login? && change.ChangePassword? && login.user == change.target
              && login.t2 < change.t1
              && Respond(config, Step(config, st, login), change).status == 200
              && use.Authenticate? && use.token == Respond(config, st, login).cookie
              && Respond(config, Run(config, st, [login, change]), use).cookie.Some?
  {
    var config := Config(100, 50, {"viewer"});
    var st := State(map["u" := User("viewer", "old password 1", None)], {}, 1000.0);
    var login := Login("u", "old password 1", 1000.0, 1000.0);
    var change := ChangePassword("u", "viewer", "u", "old password 1", "new password 1", 1000.5, 1000.5, 1000.5);
    var use := Authenticate(Respond(config, st, login).cookie, Cookie, None, 1060.0, 1060.0);
    var st1 := Step(config, st, login);
    var st2 := Step(config, st1, change);
    assert Respond(config, st, login).cookie == Some(Claims("u", "viewer", 1100, 1000));
    assert Respond(config, st1, change).status == 200;
    assert [login, change][1..] == [change] && [change][1..] == [];
    assert Run(config, st, [login, change]) == Run(config, st1, [change]) == st2;
    assert [login, change, use][1..] == [change, use] && [change, use][1..] == [use];
    assert Timely(config, st2, [use]);
    assert Timely(config, st1, [change, use]);
    assert Respond(config, st2, use).cookie.Some?;
  }

  lemma {:induction false} RunSnoc(config: Config, st: State, ops: seq<Op>, n: nat)
    requires n < |ops|
    ensures Run(config, st, ops[..n + 1]) == Step(config, Run(config, st, ops[..n]), ops[n])
    decreases n
  {
    assert ops[..n + 1][1..] == ops[1..][..n];
    if n > 0 {
      assert ops[..n][1..] == ops[1..][..n - 1];
      RunSnoc(config, Step(config, st, ops[0]), ops[1..], n - 1);
    } else {
      assert ops[..n] == [];
    }
  }

  /** Among the first `n` operations, a login or a password change by the user handed out a token with this
      user and role. */
  ghost predicate Granted(config: Config, st: State, ops: seq<Op>, n: nat, user: string, role: string)
    requires n <= |ops|
  {
    exists i :: 0 <= i < n && GrantedAt(Run(config, st, ops[..i]), config, ops[i], user, role)
  }

  /** The user logs in with the password on record, in the role on record unless that is no longer configured; or
      changes the own password, as an administrator or with the password on record. */
  predicate GrantedAt(st: State, config: Config, op: Op, user: string, role: string) {
    var cookie := Respond(config, st, op).cookie;
    && cookie.Some? && cookie.value.sub == user && cookie.value.role == role && user in st.users
    && match op
       case Login(name, password, _, _) =>
         && name == user && password == st.users[user].password
         && (role == st.users[user].role || (role == "viewer" && st.users[user].role !in config.roles))
       case ChangePassword(actor, actorRole, target, oldPassword, _, _, _, _) =>
         && actor == target == user && actorRole == role
         && (role == "admin" || oldPassword == st.users[user].password)
       case _ => false
  }

  /** Over every run, however often tokens are exchanged: a token names a user and a role that a login or a
      change of that user's own password has granted together, for the password on record at that time (or, if
      the user is an administrator who changes the own password, without it).  Exchanging a token never renews
      the role, so that a change of role reaches a session only with its next login or password change. */
  lemma {:induction false} EveryTokenWasGranted(config: Config, st: State, ops: seq<Op>, n: nat, token: Claims)
    requires st.issued == {} && n <= |ops| && token in Run(config, st, ops[..n]).issued
    ensures Granted(config, st, ops, n, token.sub, token.role)
  {
    if n > 0 {
      var before, op := Run(config, st, ops[..n - 1]), ops[n - 1];
      RunSnoc(config, st, ops, n - 1);
      if token in before.issued {
        EveryTokenWasGranted(config, st, ops, n - 1, token);
      } else if op.Authenticate? {
        EveryTokenWasGranted(config, st, ops, n - 1, op.token.value);
      } else {
        assert GrantedAt(before, config, op, token.sub, token.role);
      }
    }
  }

  // ---------------------------------------------------------------- passwords and roles on record

  /** The password that a change or the creation of a user gives. */
  function Given(op: Op): Option<string> {
    match op
    case ChangePassword(_, _, _, _, newPassword, _, _, _) => Some(newPassword)
    case CreateUser(_, _, password, _) => Some(password)
    case _ => None
  }

  /** The password the user was given last: by the last operation of the run to touch the user's record, or,
      if none has, before the run.  A deletion leaves none. */
  function LastGiven(config: Config, st: State, ops: seq<Op>, user: string): Option<string> {
    match LastTouch(config, st, ops, user)
    case None => if user in st.users then Some(st.users[user].password) else None
    case Some(op) => Given(op)
  }

  lemma {:induction false} PasswordAfter(config: Config, st: State, ops: seq<Op>, user: string)
    ensures var after, given := Run(config, st, ops), LastGiven(config, st, ops, user);
            (user in after.users <==> given.Some?) && (given.Some? ==> after.users[user].password == given.value)
    decreases ops
  {
    if ops != [] {
      PasswordAfter(config, Step(config, st, ops[0]), ops[1..], user);
    }
  }

  /** Whatever requests come before: a login succeeds if and only if it presents the password that the user was
      given last. */
  lemma {:induction false} LoginNeedsLastPassword(config: Config, st: State, ops: seq<Op>, login: Op)
    requires login.Login?
    ensures var reply := Respond(config, Run(config, st, ops), login);
            && (reply.cookie.Some? <==> LastGiven(config, st, ops, login.user) == Some(login.password))
            && reply.status == (if reply.cookie.Some? then 200 else 401)
  {
    PasswordAfter(config, st, ops, login.user);
  }

  /** After a password change, until the user's record is touched again: only the new password logs in. */
  lemma {:induction false} OnlyNewPasswordLogsIn(config: Config, st: State, change: Op, ops: seq<Op>, login: Op)
    requires change.ChangePassword? && Respond(config, st, change).status == 200
    requires login.Login? && login.user == change.target
    requires LastTouch(config, Step(config, st, change), ops, change.target).None?
    ensures Respond(config, Run(config, st, [change] + ops), login).cookie.Some? <==>
              login.password == change.newPassword
  {
    assert ([change] + ops)[1..] == ops;
    LoginNeedsLastPassword(config, Step(config, st, change), ops, login);
  }

  /** Who may touch a user's record: an administrator, or the user with the password on record, giving a
      password of at least twelve characters; or whoever creates or deletes the user. */
  predicate MayTouch(st: State, op: Op, user: string) {
    match op
    case ChangePassword(actor, actorRole, target, oldPassword, newPassword, _, _, _) =>
      && target == user && user in st.users && |newPassword| >= 12
      && (actorRole == "admin" || (actor == user && oldPassword == st.users[user].password))
    case CreateUser(name, _, password, _) => name == user && user !in st.users && |password| >= 12
    case DeleteUser(name, _) => name == user != "admin"
    case _ => false
  }

  ghost predicate TouchedByRight(config: Config, st: State, ops: seq<Op>, n: nat, user: string)
    requires n <= |ops|
  {
    exists i :: 0 <= i < n && MayTouch(Run(config, st, ops[..i]), ops[i], user)
  }

  function OnRecord(st: State, user: string): Option<string> {
    if user in st.users then Some(st.users[user].password) else None
  }

  /** Over every run: what is on record for a user changes only by the hand of one who may touch it. */
  lemma {:induction false} RecordChangesByRight(config: Config, st: State, ops: seq<Op>, n: nat, user: string)
    requires n <= |ops| && OnRecord(Run(config, st, ops[..n]), user) != OnRecord(st, user)
    ensures TouchedByRight(config, st, ops, n, user)
  {
    if n > 0 {
      var before := Run(config, st, ops[..n - 1]);
      RunSnoc(config, st, ops, n - 1);
      if OnRecord(before, user) != OnRecord(st, user) {
        RecordChangesByRight(config, st, ops, n - 1, user);
      } else {
        assert MayTouch(before, ops[n - 1], user);
      }
    }
  }

  /** The operation succeeds in setting the user's role, or in creating or deleting the user. */
  predicate SetsRole(config: Config, st: State, op: Op, user: string) {
    && Respond(config, st, op).status == 200
    && match op
       case SetRole(name, _, _) => name == user
       case CreateUser(name, _, _, _) => name == user
       case DeleteUser(name, _) => name == user
       case _ => false
  }

  function LastRoleSet(config: Config, st: State, ops: seq<Op>, user: string): Option<Op>
    decreases ops
  {
    if ops == [] then None
    else
      var later := LastRoleSet(config, Step(config, st, ops[0]), ops[1..], user);
      if later.Some? then later else if SetsRole(config, st, ops[0], user) then Some(ops[0]) else None
  }

  /** A user has the role set last; and with it the next login. */
  lemma {:induction false} RoleAfter(config: Config, st: State, ops: seq<Op>, user: string)
    requires user in Run(config, st, ops).users
    ensures var role := Run(config, st, ops).users[user].role;
            match LastRoleSet(config, st, ops, user)
            case None => user in st.users && role == st.users[user].role
            case Some(op) => (op.SetRole? || op.CreateUser?) && role == op.role
    decreases ops
  {
    if ops != [] {
      RoleAfter(config, Step(config, st, ops[0]), ops[1..], user);
    }
  }

  /** A session lasts: whatever operations follow a login that leave the user's password and existence alone,
      the token it handed out is accepted if and only if a session length has not passed since; and exchanging
      it begins another. */
  lemma {:induction false} SessionLasts(config: Config, st: State, login: Op, ops: seq<Op>, use: Op)
    requires login.Login? && Respond(config, st, login).cookie.Some? && LeaveAlone(ops, login.user)
    requires Timely(config, st, [login] + ops + [use])
    requires forall u :: u in st.users && st.users[u].changedAt.Some? ==> st.users[u].changedAt.value <= st.now
    requires use.Authenticate? && use.token == Respond(config, st, login).cookie && use.deny.None?
    ensures var reply := Respond(config, Run(config, st, [login] + ops), use);
            && (reply.status == 202 <==> use.t1.Floor < login.t1.Floor + config.sessionLength)
            && (reply.cookie.Some? ==> && reply.cookie.value.exp == use.t1.Floor + config.sessionLength
                                       && reply.cookie.value.iat == use.t2.Floor)
  {
    assert ([login] + ops)[1..] == ops;
    assert ([login] + ops + [use])[0] == login;
    RecordStays(config, Step(config, st, login), ops, login.user);
    var user := st.users[login.user];
    if user.changedAt.Some? { FloorMonotone(user.changedAt.value, login.t2); }
  }

  /** Over every run: a request is accepted only with a token handed out less than a session length before, and
      a token is exchanged only for a cookie that is due. */
  lemma {:induction false} AcceptedTokensAreLive(config: Config, st: State, ops: seq<Op>, use: Op)
    requires Bounded(config, st) && Timely(config, st, ops + [use])
    requires use.Authenticate? && Respond(config, Run(config, st, ops), use).status == 202
    ensures && use.token.Some? && use.token.value in Run(config, st, ops).issued
            && use.token.value.iat <= use.t1.Floor < use.token.value.iat + config.sessionLength
    ensures var cookie := Respond(config, Run(config, st, ops), use).cookie;
            cookie.Some? ==>
              && use.source.Cookie? && use.token.value.exp - config.refreshTime <= use.t1.Floor
              && cookie.value.sub == use.token.value.sub && cookie.value.role == use.token.value.role
  {
    TimelySplits(config, st, ops, [use]);
    TokensAreBounded(config, st, ops);
    FloorMonotone(Run(config, st, ops).now, use.t1);
  }
}
