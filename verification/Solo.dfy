/** One call with nobody else about, and why what holds over all interleavings holds of it. */
module Solo {
  import opened Options
  import opened Schema
  import opened Statements
  import opened Bulk
  import opened Services
  import opened Passwords
  import opened Interleaving

  /** How much of a call is left; every step that is not the last goes down. */
  function Rank(pc: Pc): nat
  {
    match pc
    case Start => 7
    case CheckEmail => 6
    case HashAndInsert => 5
    case LoadCache(_) => 4
    case LookupRole(_) => 3
    case StoreCache(_, _) => 2
    case AssignDefault(_, _) => 1
    case InitLookup => 2
    case InitStore(_) => 1
    case InsertApproval => 1
    case WriteTodo => 1
    case Done(_) => 0
  }

  datatype Final = Final(db: Tables, cache: Option<Id>, pc: Pc)

  /** A call run alone to its end. */
  ghost function Alone(db: Tables, cache: Option<Id>, req: Request, pc: Pc, env: Env): Final
    requires |env.ids| == IdsNeeded(req)
    decreases Rank(pc)
  {
    var e := Next(db, cache, req, pc, env);
    if e.pc.Done? || Rank(e.pc) >= Rank(pc) then Final(e.db, e.cache, e.pc) else Alone(e.db, e.cache, req, e.pc, env)
  }

  lemma Unfold(db: Tables, cache: Option<Id>, req: Request, pc: Pc, env: Env)
    requires |env.ids| == IdsNeeded(req)
    ensures var e := Next(db, cache, req, pc, env);
      Alone(db, cache, req, pc, env)
        == if e.pc.Done? || Rank(e.pc) >= Rank(pc) then Final(e.db, e.cache, e.pc)
            else Alone(e.db, e.cache, req, e.pc, env)
  {
  }

  /** The last leg of a registration: cache, look up, cache again, assign. */
  lemma AssignAlone(db: Tables, cache: Option<Id>, req: Request, user: Id, env: Env)
    requires req.Register? && |env.ids| == 1
    ensures var role := if cache.Some? then cache else RoleByName(db.roles, "user");
      var token := Done(Issued(MkToken(user, req.email, env)));
      Alone(db, cache, req, LoadCache(user), env)
        == if role == None then Final(db, cache, token)
           else
             var (db', r) := AssignRole(db, env.now, user, role.value);
             Final(db', role, if r.Err? then Done(Failed(Db(r.error))) else token)
  {
    Unfold(db, cache, req, LoadCache(user), env);
    if cache.Some? {
      Unfold(db, cache, req, AssignDefault(user, cache.value), env);
    } else {
      Unfold(db, cache, req, LookupRole(user), env);
      var role := RoleByName(db.roles, "user");
      if role.Some? {
        Unfold(db, cache, req, StoreCache(user, role.value), env);
        Unfold(db, role, req, AssignDefault(user, role.value), env);
      }
    }
  }

  /** The first legs of a registration, up to its insert. */
  lemma RegisterAlone(db: Tables, cache: Option<Id>, req: Request, env: Env)
    requires req.Register? && |env.ids| == 1
    ensures Alone(db, cache, req, Start, env)
         == if req.approvedId == None then Final(db, cache, Done(Failed(InvalidCredentials)))
            else if req.approvedId.value !in db.approved then Final(db, cache, Done(Failed(UserNotFound)))
            else if UserEmailTaken(db.users, req.email) then Final(db, cache, Done(Failed(UserAlreadyExists)))
            else if env.salt == None then Final(db, cache, Done(Failed(HashFailed)))
            else
              var hash := Hash(BcryptKey(req.password), env.salt.value);
              var (db', r) := InsertUser(db, env.ids[0], env.now, req.approvedId.value, req.email, hash);
              if r.Err? then Final(db', cache, Done(Failed(Db(r.error))))
              else Alone(db', cache, req, LoadCache(env.ids[0]), env)
  {
    hide UserEmailTaken, BcryptKey;
    Unfold(db, cache, req, Start, env);
    Unfold(db, cache, req, CheckEmail, env);
    Unfold(db, cache, req, HashAndInsert, env);
  }

  // -------- a call alone is one of the interleavings --------

  /** Nobody but call `c` takes a step. */
  predicate Only(run: seq<Action>, c: nat)
  {
    forall k :: 0 <= k < |run| ==> run[k].Exec? && run[k].call == c
  }

  /** `t` is `s` with call `c` run to `f` and everyone else where they were. */
  ghost predicate Ends(s: Sys, c: nat, t: Sys, f: Final)
    requires c in s.calls
  {
    t.db == f.db && t.cache == f.cache && t.calls == s.calls[c := s.calls[c].(pc := f.pc)]
  }

  /** Once its account is created a registration takes no more ids from its environment. */
  lemma IdsIgnored(db: Tables, cache: Option<Id>, req: Request, pc: Pc, env: Env, ids: seq<Id>)
    requires req.Register? && PendingUser(pc).Some? && |env.ids| == |ids| == 1
    ensures Next(db, cache, req, pc, env.(ids := ids)) == Next(db, cache, req, pc, env)
  {
    hide AssignRole, RoleByName;
  }

  /** The environment's ids are still to be handed out, or will not be looked at. */
  ghost predicate Usable(db: Tables, req: Request, pc: Pc, env: Env)
  {
    && |env.ids| == IdsNeeded(req)
    && (NewIds(db, env.ids) || (req.Register? && PendingUser(pc).Some?))
  }

  lemma StillUsable(db: Tables, cache: Option<Id>, req: Request, pc: Pc, env: Env)
    requires Usable(db, req, pc, env)
    ensures var e := Next(db, cache, req, pc, env); e.pc.Done? || Usable(e.db, req, e.pc, env)
  {
    hide NewIds, InsertApproved, InsertApprovedBulk, InsertUser, InsertTodo, DeleteApproved, UpdateTodo, RoleByName,
         UserEmailTaken, ApprovedEmailTaken, Answer, OwnTodos;
    if req.DropTodo? || req.PatchTodo? || req.Disapprove? { NoIds(Next(db, cache, req, pc, env).db); }
  }

  lemma NoIds(db: Tables)
    ensures NewIds(db, [])
  {
  }

  lemma {:induction false} SomeNewId(used: set<Id>) returns (id: Id)
    ensures forall x :: x in used ==> x < id
    decreases used
  {
    if used == {} {
      id := 0;
    } else {
      var x :| x in used;
      var above := SomeNewId(used - {x});
      id := if x < above then above else x + 1;
      forall y | y in used ensures y < id { assert y == x || y in used - {x}; }
    }
  }

  /** An environment with which the system allows the step that `env` describes. */
  lemma Allowed(db: Tables, cache: Option<Id>, req: Request, pc: Pc, env: Env) returns (actual: Env)
    requires Usable(db, req, pc, env)
    ensures |actual.ids| == IdsNeeded(req) && NewIds(db, actual.ids)
    ensures Next(db, cache, req, pc, actual) == Next(db, cache, req, pc, env)
  {
    hide Next;
    actual := env;
    if !NewIds(db, env.ids) {
      var id := SomeNewId(db.issued.Keys);
      IdsIgnored(db, cache, req, pc, env, [id]);
      actual := env.(ids := [id]);
    }
  }

  /** A call alone is a run of the system in which only that call steps, each time with ids
      the database could then hand out. */
  lemma {:induction false} AloneIsARun(s: Sys, c: nat, env: Env)
    requires c in s.calls && !s.calls[c].pc.Done? && Usable(s.db, s.calls[c].req, s.calls[c].pc, env)
    ensures var f := Alone(s.db, s.cache, s.calls[c].req, s.calls[c].pc, env);
      exists run :: Only(run, c) && ValidRun(s, run) && Ends(s, c, After(s, run), f)
    decreases Rank(s.calls[c].pc)
  {
    hide Next, NewIds, Usable;
    var req, pc := s.calls[c].req, s.calls[c].pc;
    UsableIds(s.db, req, pc, env);
    Unfold(s.db, s.cache, req, pc, env);
    var actual := Allowed(s.db, s.cache, req, pc, env);
    var e := Next(s.db, s.cache, req, pc, env);
    var s' := Step(s, Exec(c, actual));
    StillUsable(s.db, s.cache, req, pc, env);
    if e.pc.Done? || Rank(e.pc) >= Rank(pc) {
      Prefixed(s, Exec(c, actual), []);
      assert Only([Exec(c, actual)] + [], c);
    } else {
      AloneIsARun(s', c, env);
      var rest :| Only(rest, c) && ValidRun(s', rest)
          && Ends(s', c, After(s', rest), Alone(e.db, e.cache, req, e.pc, env));
      Prefixed(s, Exec(c, actual), rest);
      assert Only([Exec(c, actual)] + rest, c);
    }
  }

  lemma UsableIds(db: Tables, req: Request, pc: Pc, env: Env)
    requires Usable(db, req, pc, env)
    ensures |env.ids| == IdsNeeded(req)
  {
  }

  lemma Prefixed(s: Sys, a: Action, rest: seq<Action>)
    requires Enabled(s, a) && ValidRun(Step(s, a), rest)
    ensures ValidRun(s, [a] + rest) && After(s, [a] + rest) == After(Step(s, a), rest)
  {
    hide Enabled, Step;
    assert ([a] + rest)[1..] == rest;
  }

  // -------- what the interleaving theorems say of it --------

  /** The places a call can come to. */
  predicate Fits(req: Request, pc: Pc)
  {
    match pc
    case CheckEmail => req.Register? && req.approvedId.Some?
    case HashAndInsert => req.Register? && req.approvedId.Some?
    case InitLookup => req.InitRoles?
    case InitStore(_) => req.InitRoles?
    case InsertApproval => req.Approve?
    case WriteTodo => req.PatchTodo? || req.DropTodo?
    case Start => true
    case Done(_) => true
    case _ => req.Register?
  }

  lemma Advances(db: Tables, cache: Option<Id>, req: Request, pc: Pc, env: Env)
    requires |env.ids| == IdsNeeded(req) && Fits(req, pc) && !pc.Done?
    ensures var e := Next(db, cache, req, pc, env); Fits(req, e.pc) && Rank(e.pc) < Rank(pc)
  {
    hide InsertApproved, InsertApprovedBulk, InsertUser, InsertTodo, DeleteApproved, UpdateTodo, AssignRole,
         RoleByName, UserEmailTaken, ApprovedEmailTaken, Answer, OwnTodos;
  }

  lemma {:induction false} AloneEnds(db: Tables, cache: Option<Id>, req: Request, pc: Pc, env: Env)
    requires |env.ids| == IdsNeeded(req) && Fits(req, pc) && !pc.Done?
    ensures Alone(db, cache, req, pc, env).pc.Done?
    decreases Rank(pc)
  {
    hide Next;
    Advances(db, cache, req, pc, env);
    var e := Next(db, cache, req, pc, env);
    if !e.pc.Done? { AloneEnds(e.db, e.cache, req, e.pc, env); }
  }

  /** A call run alone comes to an answer, and leaves the tables sound, the role cache right
      and every id, owner and staying account as they were. */
  lemma AloneKeeps(db: Tables, cache: Option<Id>, req: Request, env: Env)
    requires Valid(db) && CacheOk(db, cache) && |env.ids| == IdsNeeded(req) && NewIds(db, env.ids)
    ensures var f := Alone(db, cache, req, Start, env);
      f.pc.Done? && Valid(f.db) && CacheOk(f.db, f.cache) && Evolves(db, f.db)
  {
    hide Valid, CacheOk, NewIds, Evolves, ValidRun, After, Alone;
    AloneEnds(db, cache, req, Start, env);
    var s := Sys(db, cache, map[0 := Call(req, Start)], []);
    assert Inv(s);
    AloneIsARun(s, 0, env);
    var run :| Only(run, 0) && ValidRun(s, run) && Ends(s, 0, After(s, run), Alone(db, cache, req, Start, env));
    RunKeeps(s, run);
  }
}
