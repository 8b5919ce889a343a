/** Concurrent registration, one e-mail's accounts over time, and the life of a token. */
module Registration {
  import opened Options
  import opened Schema
  import opened Statements
  import opened Bulk
  import opened Passwords
  import opened Services
  import opened Interleaving

  // -------- a registration's own writes --------

  ghost function WritesOf(log: seq<Logged>, c: nat): seq<Op>
  {
    if log == [] then [] else
      var last := log[|log| - 1];
      WritesOf(log[..|log| - 1], c) + if last.call == c then [last.op] else []
  }

  lemma WritesOfAppend(log: seq<Logged>, x: Logged, c: nat)
    ensures WritesOf(log + [x], c) == WritesOf(log, c) + if x.call == c then [x.op] else []
  {
    assert (log + [x])[..|log|] == log;
  }

  function OpSeq(op: Option<Op>): seq<Op>
  {
    if op.Some? then [op.value] else []
  }

  ghost predicate Created(req: Request, writes: seq<Op>, u: Id)
    requires req.Register?
  {
    req.approvedId.Some? && writes == [UserInserted(u, req.email, req.approvedId.value)]
  }

  /** Every way a registration can end. A token means the role was given, or the database
      has no role named "user". */
  ghost predicate Outcome(roles: map<Id, RoleRow>, req: Request, writes: seq<Op>, response: Response)
    requires req.Register?
  {
    || (response.Failed? && writes == [])
    || (response == Failed(Db(ForeignKeyViolation)) && exists u :: Created(req, writes, u))
    || (response.Issued? && Created(req, writes, response.token.userId)
        && forall r :: r in roles ==> roles[r].name != "user")
    || (response.Issued? && |writes| == 2 && Created(req, writes[..1], response.token.userId)
        && exists r :: r in roles && roles[r].name == "user" && writes[1] == RoleAssigned(response.token.userId, r))
  }

  /** What a registration has written by the time it is at `pc`. */
  ghost predicate WrittenSoFar(roles: map<Id, RoleRow>, req: Request, pc: Pc, writes: seq<Op>)
    requires req.Register?
  {
    match pc
    case Done(response) => Outcome(roles, req, writes, response)
    case _ => if PendingUser(pc).Some? then Created(req, writes, PendingUser(pc).value) else writes == []
  }

  lemma RegisterWrites(db: Tables, cache: Option<Id>, req: Request, pc: Pc, env: Env, writes: seq<Op>)
    requires req.Register? && |env.ids| == 1 && Local(db, req, pc) && !pc.Done?
    requires WrittenSoFar(db.roles, req, pc, writes)
    ensures var e := RegisterStep(db, cache, req, pc, env);
      WrittenSoFar(db.roles, req, e.pc, writes + OpSeq(e.op))
  {
    hide RoleByName, UserEmailTaken;
    assert writes + [] == writes;
    match pc
    case LookupRole(u) =>
      RoleByNameMeaning(db);
      assert forall r :: r in db.roles && db.roles[r].name == "user" ==> IsUserRole(db, r);
    case AssignDefault(u, r) =>
      var op := RoleAssigned(u, r);
      assert (writes + [op])[..1] == writes && (writes + [op])[1] == op;
      assert (u, r) !in db.userRoles;
    case _ =>
  }

  /** For every registration in the system: its record fits where it is. */
  ghost predicate Recorded(s: Sys)
  {
    && (forall c :: c in s.calls && s.calls[c].req.Register? ==>
          WrittenSoFar(s.db.roles, s.calls[c].req, s.calls[c].pc, WritesOf(s.log, c)))
    && (forall k :: 0 <= k < |s.log| ==> s.log[k].call in s.calls)
  }

  lemma {:induction false} NoWritesYet(log: seq<Logged>, c: nat)
    requires forall k :: 0 <= k < |log| ==> log[k].call != c
    ensures WritesOf(log, c) == []
  {
    if log != [] { NoWritesYet(log[..|log| - 1], c); }
  }

  lemma BeginRecorded(s: Sys, c: nat, req: Request)
    requires Recorded(s) && c !in s.calls
    ensures Recorded(s.(calls := s.calls[c := Call(req, Start)]))
  {
    NoWritesYet(s.log, c);
  }

  lemma LogAfter(log: seq<Logged>, c: nat, op: Option<Op>, d: nat)
    ensures WritesOf(log + (if op.Some? then [Logged(c, op.value)] else []), d)
         == WritesOf(log, d) + if d == c then OpSeq(op) else []
  {
    if op.Some? { WritesOfAppend(log, Logged(c, op.value), d); } else { assert log + [] == log; }
  }

  lemma ExecRecorded(s: Sys, c: nat, env: Env)
    requires Inv(s) && Recorded(s) && Enabled(s, Exec(c, env))
    ensures Recorded(Step(s, Exec(c, env)))
  {
    hide Valid, Local, Next, WrittenSoFar, Evolves, NewIds, Enabled, WritesOf;
    EnabledMeaning(s, c, env);
    ExecKeeps(s, c, env);
    var e := EffectOf(s, c, env);
    var s' := Step(s, Exec(c, env));
    SameRoles(s.db, s'.db);
    forall d | d in s'.calls && s'.calls[d].req.Register?
      ensures WrittenSoFar(s'.db.roles, s'.calls[d].req, s'.calls[d].pc, WritesOf(s'.log, d))
    {
      LogAfter(s.log, c, e.op, d);
      if d == c {
        OneCallRecorded(s, c, env);
      } else {
        assert WritesOf(s.log, d) + [] == WritesOf(s.log, d);
      }
    }
  }

  lemma SameRoles(db: Tables, next: Tables)
    requires Evolves(db, next)
    ensures next.roles == db.roles
  {
  }

  lemma OneCallRecorded(s: Sys, c: nat, env: Env)
    requires Inv(s) && Recorded(s) && Enabled(s, Exec(c, env)) && s.calls[c].req.Register?
    ensures var e := EffectOf(s, c, env);
      WrittenSoFar(s.db.roles, s.calls[c].req, e.pc, WritesOf(s.log, c) + OpSeq(e.op))
  {
    hide Valid, WrittenSoFar, NewIds, RegisterStep;
    var call := s.calls[c];
    assert Local(s.db, call.req, call.pc);
    assert WrittenSoFar(s.db.roles, call.req, call.pc, WritesOf(s.log, c));
    RegisterWrites(s.db, s.cache, call.req, call.pc, env, WritesOf(s.log, c));
  }

  lemma {:induction false} RunRecorded(s: Sys, run: seq<Action>)
    requires Inv(s) && Recorded(s) && ValidRun(s, run)
    ensures Recorded(After(s, run))
    decreases |run|
  {
    hide Inv, Recorded, Enabled, Next, Evolves;
    if run != [] {
      StepKeeps(s, run[0]);
      match run[0] {
        case Begin(c, req) => BeginEnabled(s, c, req); BeginRecorded(s, c, req);
        case Exec(c, env) => ExecRecorded(s, c, env);
      }
      RunRecorded(Step(s, run[0]), run[1..]);
    }
  }

  lemma BeginEnabled(s: Sys, c: nat, req: Request)
    requires Enabled(s, Begin(c, req))
    ensures c !in s.calls
  {
  }

  /** In every interleaving a registration's own writes are nothing, one account, or one
      account and its role row, and it hands out a token only for the account it created,
      with the role given unless there is no such role. */
  lemma RegisterOutcome(s: Sys, run: seq<Action>, c: nat)
    requires Initial(s) && ValidRun(s, run)
    requires var t := After(s, run); c in t.calls && t.calls[c].req.Register? && t.calls[c].pc.Done?
    ensures var t := After(s, run);
      Outcome(t.db.roles, t.calls[c].req, WritesOf(t.log, c), t.calls[c].pc.response)
  {
    RunRecorded(s, run);
  }

  // -------- the cached role id --------

  lemma NeverUncached(db: Tables, cache: Option<Id>, req: Request, pc: Pc, env: Env)
    requires |env.ids| == IdsNeeded(req) && cache.Some?
    ensures Next(db, cache, req, pc, env).cache.Some?
  {
    hide InsertApproved, InsertApprovedBulk, InsertUser, AssignRole, DeleteApproved, InsertTodo, UpdateTodo,
         DeleteTodo, RoleByName, UserEmailTaken, ApprovedEmailTaken, Answer, OwnTodos;
  }

  lemma OneUserRole(db: Tables, r: Id, q: Id)
    requires Valid(db) && IsUserRole(db, r) && IsUserRole(db, q)
    ensures r == q
  {
  }

  lemma StepCache(s: Sys, a: Action)
    requires Inv(s) && Enabled(s, a) && s.cache.Some?
    ensures Step(s, a).cache == s.cache
  {
    hide Valid, Local, Next, NewIds, Evolves, PendingDistinct;
    if a.Exec? {
      NeverUncached(s.db, s.cache, s.calls[a.call].req, s.calls[a.call].pc, a.env);
      StepKeeps(s, a);
      var s' := Step(s, a);
      SameRoles(s.db, s'.db);
      OneUserRole(s.db, s.cache.value, s'.cache.value);
    }
  }

  lemma {:induction false} CacheStays(s: Sys, run: seq<Action>)
    requires Inv(s) && ValidRun(s, run) && s.cache.Some?
    ensures After(s, run).cache == s.cache
    decreases |run|
  {
    hide Inv, Step, Enabled, Evolves;
    if run != [] {
      StepKeeps(s, run[0]);
      StepCache(s, run[0]);
      CacheStays(Step(s, run[0]), run[1..]);
    }
  }

  /** Whoever stores to it and in whatever order, the cached id is unset or that of the
      role named "user", and once set it is set for good. */
  lemma CachedRole(s: Sys, run: seq<Action>, more: seq<Action>)
    requires Initial(s) && ValidRun(s, run) && ValidRun(After(s, run), more)
    ensures var t := After(s, run);
      && (t.cache.Some? ==> IsUserRole(t.db, t.cache.value))
      && (t.cache.Some? ==> After(t, more).cache == t.cache)
  {
    RunKeeps(s, run);
    var t := After(s, run);
    if t.cache.Some? { CacheStays(t, more); }
  }

  // -------- accounts leave only by a recorded deletion --------

  /** From position `from` of the log on, some deletion took account `u`. */
  ghost predicate Removed(log: seq<Logged>, from: nat, u: Id)
  {
    exists k :: from <= k < |log| && log[k].op.ApprovedRemoved? && u in log[k].op.users
  }

  ghost predicate UsersFollow(db: Tables, e: Effect)
  {
    && (forall u :: u in db.users ==>
          if e.op.Some? && e.op.value.ApprovedRemoved? && u in e.op.value.users then u !in e.db.users
          else u in e.db.users && e.db.users[u] == db.users[u])
    && (e.op.Some? && e.op.value.UserInserted? ==>
          e.op.value.id !in db.users && e.op.value.id in e.db.users
              && e.db.users[e.op.value.id].email == e.op.value.email
          && !UserEmailTaken(db.users, e.op.value.email))
    && (forall u :: u in e.db.users ==> u in db.users || (e.op.Some? && e.op.value.UserInserted? && e.op.value.id == u))
  }

  lemma InsertUsers(db: Tables, cache: Option<Id>, req: Request, env: Env)
    requires KeysIssued(db.users, db.issued) && req.Register? && |env.ids| == 1 && env.ids[0] !in db.issued
    ensures UsersFollow(db, RegisterStep(db, cache, req, HashAndInsert, env))
  {
    hide UserEmailTaken, BcryptKey;
  }

  lemma RegisterUsers(db: Tables, cache: Option<Id>, req: Request, pc: Pc, env: Env)
    requires Valid(db) && req.Register? && |env.ids| == 1 && NewIds(db, env.ids)
    ensures UsersFollow(db, RegisterStep(db, cache, req, pc, env))
  {
    hide Valid, RoleByName, UserEmailTaken, BcryptKey, UsersFollow, KeysIssued, InsertUser;
    if pc.HashAndInsert? {
      OneNewId(db, env.ids);
      UsersIssued(db);
      InsertUsers(db, cache, req, env);
    } else {
      SameUsers(db, RegisterStep(db, cache, req, pc, env));
    }
  }

  lemma DisapproveUsers(db: Tables, cache: Option<Id>, id: Id, pc: Pc)
    ensures UsersFollow(db, DisapproveStep(db, cache, id, pc))
  {
  }

  lemma SameUsers(db: Tables, e: Effect)
    requires e.db.users == db.users && (e.op.Some? ==> !e.op.value.ApprovedRemoved? && !e.op.value.UserInserted?)
    ensures UsersFollow(db, e)
  {
  }

  lemma OtherUsers(db: Tables, cache: Option<Id>, req: Request, pc: Pc, env: Env)
    requires |env.ids| == IdsNeeded(req) && !req.Register? && !req.Disapprove? && !req.ApproveMany?
    ensures UsersFollow(db, Next(db, cache, req, pc, env))
  {
    hide UsersFollow, Answer, RoleByName, ApprovedEmailTaken, OwnTodos, RegisterStep, DisapproveStep,
         ApproveManyStep;
    SameUsers(db, Next(db, cache, req, pc, env));
  }

  lemma ApproveManyUsers(db: Tables, cache: Option<Id>, req: Request, pc: Pc, env: Env)
    requires Valid(db) && req.ApproveMany? && |env.ids| == |req.emails| && NewIds(db, env.ids)
    ensures UsersFollow(db, ApproveManyStep(db, cache, req.emails, req.firstNames, req.createdBy, pc, env))
  {
    hide Valid, UsersFollow, InsertApprovedBulk, KeysIssued, NewIds;
    if |req.emails| == |req.firstNames| {
      ValidParts(db);
      BulkOnlyApproved(db, env.ids, env.now, req.emails, req.firstNames, req.createdBy);
    }
    SameUsers(db, ApproveManyStep(db, cache, req.emails, req.firstNames, req.createdBy, pc, env));
  }

  lemma NextUsers(db: Tables, cache: Option<Id>, req: Request, pc: Pc, env: Env)
    requires Valid(db) && |env.ids| == IdsNeeded(req) && NewIds(db, env.ids)
    ensures UsersFollow(db, Next(db, cache, req, pc, env))
  {
    hide Valid, UsersFollow, Answer, RegisterStep, InitStep, ApproveStep, ApproveManyStep, DisapproveStep,
         CreateStep, PatchStep, DropStep, NewIds;
    match req
    case Register(_, _, _) => RegisterUsers(db, cache, req, pc, env);
    case Disapprove(id) => DisapproveUsers(db, cache, id, pc);
    case ApproveMany(_, _, _) => ApproveManyUsers(db, cache, req, pc, env);
    case _ => OtherUsers(db, cache, req, pc, env);
  }

  lemma UsersIssued(db: Tables)
    requires Valid(db)
    ensures KeysIssued(db.users, db.issued)
  {
  }

  /** An account is there, unchanged, exactly until a deletion that names it. */
  lemma {:induction false} AccountStays(s: Sys, run: seq<Action>, u: Id)
    requires Inv(s) && ValidRun(s, run) && u in s.db.users
    ensures var t := After(s, run);
      && s.log <= t.log
      && (u in t.db.users <==> !Removed(t.log, |s.log|, u))
      && (u in t.db.users ==> t.db.users[u] == s.db.users[u])
    decreases |run|
  {
    hide Inv, Evolves, Next, NewIds, UsersFollow;
    if run != [] {
      var s' := Step(s, run[0]);
      StepKeeps(s, run[0]);
      if u in s'.db.users {
        StepAccount(s, run[0], u);
        AccountStays(s', run[1..], u);
        LaterRemoval(s, s', After(s', run[1..]), u);
      } else {
        StepAccount(s, run[0], u);
        UserIssued(s, u);
        StayedGone(s.db, s'.db, u);
        LogGrows(s', run[1..], u);
      }
    }
  }

  lemma UserIssued(s: Sys, u: Id)
    requires Inv(s) && u in s.db.users
    ensures u in s.db.issued
  {
    UsersIssued(s.db);
  }

  lemma StepAccount(s: Sys, a: Action, u: Id)
    requires Inv(s) && Enabled(s, a) && u in s.db.users
    ensures var s' := Step(s, a);
      && s.log <= s'.log
      && (u in s'.db.users <==> !Removed(s'.log, |s.log|, u))
      && (u in s'.db.users ==> s'.db.users[u] == s.db.users[u])
  {
    hide Valid, Next, NewIds;
    if a.Exec? {
      NextUsers(s.db, s.cache, s.calls[a.call].req, s.calls[a.call].pc, a.env);
      var e := EffectOf(s, a.call, a.env);
      if e.op.Some? {
        assert Step(s, a).log[|s.log|].op == e.op.value;
      }
    }
  }

  lemma LaterRemoval(s: Sys, s': Sys, t: Sys, u: Id)
    requires s.log <= s'.log <= t.log && !Removed(s'.log, |s.log|, u)
    ensures Removed(t.log, |s.log|, u) <==> Removed(t.log, |s'.log|, u)
  {
    assert forall k :: 0 <= k < |s'.log| ==> s'.log[k] == t.log[k];
  }

  lemma {:induction false} LogGrows(s: Sys, run: seq<Action>, u: Id)
    requires Inv(s) && ValidRun(s, run)
    ensures var t := After(s, run);
      s.log <= t.log && (u in s.db.issued && u !in s.db.users ==> u !in t.db.users)
    ensures forall from: nat :: Removed(s.log, from, u) ==> Removed(After(s, run).log, from, u)
    decreases |run|
  {
    hide Inv, Evolves, Next, NewIds, Removed;
    if run != [] {
      var s' := Step(s, run[0]);
      StepKeeps(s, run[0]);
      StayedGone(s.db, s'.db, u);
      LogGrows(s', run[1..], u);
      forall from: nat | Removed(s.log, from, u) ensures Removed(After(s, run).log, from, u) {
        RemovedLonger(s.log, After(s, run).log, from, u);
      }
    }
  }

  lemma StayedGone(db: Tables, next: Tables, u: Id)
    requires Evolves(db, next)
    ensures u in db.issued ==> u in next.issued
    ensures u in db.issued && u !in db.users ==> u !in next.users
  {
  }

  lemma RemovedLonger(log: seq<Logged>, longer: seq<Logged>, from: nat, u: Id)
    requires log <= longer && Removed(log, from, u)
    ensures Removed(longer, from, u)
  {
    var k :| from <= k < |log| && log[k].op.ApprovedRemoved? && u in log[k].op.users;
    assert longer[k] == log[k];
  }

  /** A token for an active account is accepted at a later time exactly while it has not
      expired and no deletion has taken the account. */
  lemma TokenLifetime(s: Sys, run: seq<Action>, token: Token, now: Time)
    requires Inv(s) && ValidRun(s, run) && token.userId in s.db.users && s.db.users[token.userId].isActive
    ensures WhoAmIAnswer(After(s, run).db, Some(token), now).Known?
       <==> now < token.exp && !Removed(After(s, run).log, |s.log|, token.userId)
  {
    AccountStays(s, run, token.userId);
  }

  /** Login answers with a token for the one active account that has this e-mail and whose
      password keys the cipher as this one does, and tells nobody what was wrong. */
  lemma LoginMeaning(db: Tables, email: string, password: string, env: Env)
    requires UsersUnique(db.users)
    ensures var answer := LoginAnswer(db, email, password, env);
      && (answer == Failed(InvalidCredentials) || answer.Issued?)
      && forall u :: answer == Issued(MkToken(u, email, env)) <==> LogsIn(db.users, u, email, password)
  {
  }

  /** The account as a registration's insert leaves it. */
  lemma InsertedAccount(db: Tables, cache: Option<Id>, req: Request, env: Env)
    requires req.Register? && |env.ids| == 1 && RegisterStep(db, cache, req, HashAndInsert, env).pc.LoadCache?
    ensures var e := RegisterStep(db, cache, req, HashAndInsert, env);
      var u := env.ids[0];
      && e.pc == LoadCache(u) && req.approvedId.Some? && u in e.db.users && env.salt.Some?
      && e.db.users[u] == UserRow(req.approvedId.value, req.email, Hash(BcryptKey(req.password), env.salt.value),
          true, env.now, env.now)
  {
  }

  /** From its insert on, whatever else runs, a password logs in to an account under its
      e-mail exactly if bcrypt cannot tell it from the registered one and no deletion has
      taken the account. `Passwords.SameKeyIff` says which passwords those are. */
  lemma RegisteredLogsIn(s: Sys, c: nat, env: Env, run: seq<Action>, password: string, later: Env)
    requires Inv(s) && Enabled(s, Exec(c, env)) && s.calls[c].req.Register? && s.calls[c].pc.HashAndInsert?
    requires var s' := Step(s, Exec(c, env)); s'.calls[c].pc.LoadCache? && ValidRun(s', run)
    ensures var s' := Step(s, Exec(c, env));
      var t, req, u := After(s', run), s.calls[c].req, env.ids[0];
      (LoginAnswer(t.db, req.email, password, later) == Issued(MkToken(u, req.email, later)))
        <==> (BcryptKey(password) == BcryptKey(req.password) && !Removed(t.log, |s'.log|, u))
  {
    hide Enabled, ValidRun, After, Valid, Local, Evolves, LoginAnswer, RegisterStep, Removed, InitStep, ApproveStep,
         ApproveManyStep, DisapproveStep, CreateStep, PatchStep, DropStep, Answer, NewIds;
    EnabledMeaning(s, c, env);
    var s' := Step(s, Exec(c, env));
    InsertedAccount(s.db, s.cache, s.calls[c].req, env);
    StepKeeps(s, Exec(c, env));
    AccountStays(s', run, env.ids[0]);
    RunKeeps(s', run);
    OneAccountPerEmail(After(s', run).db);
    LoginMeaning(After(s', run).db, s.calls[c].req.email, password, later);
  }

  lemma OneAccountPerEmail(db: Tables)
    requires Valid(db)
    ensures UsersUnique(db.users)
  {
  }

  // -------- one e-mail, one account at a time --------

  /** Of two accounts created with one e-mail, the first was deleted before the second. */
  ghost predicate OneAtATime(log: seq<Logged>)
  {
    forall i, j :: (0 <= i < j < |log| && log[i].op.UserInserted? && log[j].op.UserInserted?
                    && log[i].op.email == log[j].op.email) ==>
      Removed(log[..j], i, log[i].op.id)
  }

  /** An account created at position `from` of the log or later is there until removed. */
  ghost predicate CreatedLives(s: Sys, from: nat)
  {
    forall i :: from <= i < |s.log| && s.log[i].op.UserInserted? ==>
      Removed(s.log, i, s.log[i].op.id)
      || (s.log[i].op.id in s.db.users && s.db.users[s.log[i].op.id].email == s.log[i].op.email)
  }

  lemma StepLives(s: Sys, a: Action, from: nat)
    requires Inv(s) && Enabled(s, a) && CreatedLives(s, from)
    ensures CreatedLives(Step(s, a), from)
  {
    hide Inv, Next, NewIds, Removed, Enabled, UsersFollow;
    var s' := Step(s, a);
    StepGrows(s, a);
    forall i: nat | from <= i < |s'.log| && s'.log[i].op.UserInserted?
      ensures Removed(s'.log, i, s'.log[i].op.id)
           || (s'.log[i].op.id in s'.db.users && s'.db.users[s'.log[i].op.id].email == s'.log[i].op.email)
    {
      if i < |s.log| {
        var u := s.log[i].op.id;
        assert s'.log[i] == s.log[i];
        if Removed(s.log, i, u) {
          RemovedLonger(s.log, s'.log, i, u);
        } else {
          StepAccount(s, a, u);
          if Removed(s'.log, |s.log|, u) { RemovedEarlier(s'.log, i, |s.log|, u); }
        }
      } else {
        NewAccount(s, a);
      }
    }
  }

  lemma RemovedEarlier(log: seq<Logged>, from: nat, later: nat, u: Id)
    requires from <= later && Removed(log, later, u)
    ensures Removed(log, from, u)
  {
  }

  lemma StepGrows(s: Sys, a: Action)
    requires Enabled(s, a)
    ensures s.log <= Step(s, a).log && |Step(s, a).log| <= |s.log| + 1
  {
    hide Next;
  }

  lemma NewAccount(s: Sys, a: Action)
    requires Inv(s) && Enabled(s, a) && |Step(s, a).log| == |s.log| + 1 && Step(s, a).log[|s.log|].op.UserInserted?
    ensures var s' := Step(s, a);
      var op := s'.log[|s.log|].op;
      && op.id in s'.db.users && s'.db.users[op.id].email == op.email && !UserEmailTaken(s.db.users, op.email)
  {
    hide Valid, Next, NewIds, UserEmailTaken;
    if a.Exec? {
      NextUsers(s.db, s.cache, s.calls[a.call].req, s.calls[a.call].pc, a.env);
      var e := EffectOf(s, a.call, a.env);
      assert Step(s, a).log[|s.log|].op == e.op.value;
    }
  }

  lemma StepOneAtATime(s: Sys, a: Action)
    requires Inv(s) && Enabled(s, a) && CreatedLives(s, 0) && OneAtATime(s.log)
    ensures OneAtATime(Step(s, a).log)
  {
    hide Inv, Next, NewIds, Removed, Enabled;
    var s' := Step(s, a);
    StepGrows(s, a);
    forall i, j | 0 <= i < j < |s'.log| && s'.log[i].op.UserInserted? && s'.log[j].op.UserInserted?
        && s'.log[i].op.email == s'.log[j].op.email
      ensures Removed(s'.log[..j], i, s'.log[i].op.id)
    {
      assert s'.log[i] == s.log[i];
      if j < |s.log| {
        assert s'.log[j] == s.log[j] && s'.log[..j] == s.log[..j];
      } else {
        NewAccount(s, a);
        assert s'.log[..j] == s.log;
        assert UserEmailTaken(s.db.users, s'.log[j].op.email) || Removed(s.log, i, s.log[i].op.id);
      }
    }
  }

  lemma {:induction false} RunOneAtATime(s: Sys, run: seq<Action>)
    requires Inv(s) && CreatedLives(s, 0) && OneAtATime(s.log) && ValidRun(s, run)
    ensures OneAtATime(After(s, run).log)
    decreases |run|
  {
    hide Inv, Step, Enabled, CreatedLives, OneAtATime, Evolves;
    if run != [] {
      StepKeeps(s, run[0]);
      StepLives(s, run[0], 0);
      StepOneAtATime(s, run[0]);
      RunOneAtATime(Step(s, run[0]), run[1..]);
    }
  }

  /** In every interleaving, two accounts created with one e-mail have the deletion of the
      first between them. */
  lemma EmailReuse(s: Sys, run: seq<Action>)
    requires Initial(s) && ValidRun(s, run)
    ensures OneAtATime(After(s, run).log)
  {
    RunOneAtATime(s, run);
  }
}
