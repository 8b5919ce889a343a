/** Any number of service calls in flight over one database, their steps interleaved in
    any order; a call may also stop for ever between two steps. */
module Interleaving {
  import opened Options
  import opened Schema
  import opened Statements
  import opened Bulk
  import opened Passwords
  import opened Services

  datatype Call = Call(req: Request, pc: Pc)
  datatype Logged = Logged(call: nat, op: Op)

  /** `log` records every write, oldest first, with the call that made it. */
  datatype Sys = Sys(db: Tables, cache: Option<Id>, calls: map<nat, Call>, log: seq<Logged>)

  datatype Action = Begin(call: nat, req: Request) | Exec(call: nat, env: Env)

  ghost predicate Enabled(s: Sys, a: Action)
  {
    match a
    case Begin(c, _) => c !in s.calls
    case Exec(c, env) =>
      && c in s.calls && !s.calls[c].pc.Done?
      && |env.ids| == IdsNeeded(s.calls[c].req) && NewIds(s.db, env.ids)
  }

  ghost function EffectOf(s: Sys, c: nat, env: Env): Effect
    requires c in s.calls && |env.ids| == IdsNeeded(s.calls[c].req)
  {
    Next(s.db, s.cache, s.calls[c].req, s.calls[c].pc, env)
  }

  ghost function Step(s: Sys, a: Action): Sys
    requires Enabled(s, a)
  {
    match a
    case Begin(c, req) => s.(calls := s.calls[c := Call(req, Start)])
    case Exec(c, env) =>
      var e := EffectOf(s, c, env);
      Sys(e.db, e.cache, s.calls[c := s.calls[c].(pc := e.pc)],
          s.log + if e.op.Some? then [Logged(c, e.op.value)] else [])
  }

  ghost predicate ValidRun(s: Sys, run: seq<Action>)
    decreases |run|
  {
    run == [] || (Enabled(s, run[0]) && ValidRun(Step(s, run[0]), run[1..]))
  }

  ghost function After(s: Sys, run: seq<Action>): Sys
    requires ValidRun(s, run)
    decreases |run|
  {
    if run == [] then s else After(Step(s, run[0]), run[1..])
  }

  /** Call `c` has ended in `error`. */
  predicate Refused(s: Sys, c: nat, error: Error)
    requires c in s.calls
  {
    s.calls[c].pc == Done(Failed(error))
  }

  // -------- what holds between any two steps --------

  ghost predicate IsUserRole(db: Tables, r: Id)
  {
    r in db.roles && db.roles[r].name == "user"
  }

  /** The account a registration has created and not yet finished with. */
  function PendingUser(pc: Pc): Option<Id>
  {
    match pc
    case LoadCache(u) => Some(u)
    case LookupRole(u) => Some(u)
    case StoreCache(u, _) => Some(u)
    case AssignDefault(u, _) => Some(u)
    case _ => None
  }

  function RoleInHand(pc: Pc): Option<Id>
  {
    match pc
    case StoreCache(_, r) => Some(r)
    case AssignDefault(_, r) => Some(r)
    case InitStore(r) => Some(r)
    case _ => None
  }

  ghost predicate RoleFree(db: Tables, u: Id)
  {
    u in db.issued && forall r :: (u, r) !in db.userRoles
  }

  /** The ownership check stays true: nobody else can come to own this id. */
  ghost predicate OwnedOrGone(db: Tables, todo: Id, user: Id)
  {
    todo in db.issued && (todo in db.todos ==> db.todos[todo].userId == user)
  }

  ghost predicate Local(db: Tables, req: Request, pc: Pc)
  {
    && (PendingUser(pc).Some? ==> req.Register? && req.approvedId.Some? && RoleFree(db, PendingUser(pc).value))
    && (RoleInHand(pc).Some? ==> IsUserRole(db, RoleInHand(pc).value))
    && (pc.HashAndInsert? || pc.CheckEmail? ==> req.Register? && req.approvedId.Some?)
    && (pc.WriteTodo? && req.PatchTodo? ==> req.patch.title != Some("") && OwnedOrGone(db, req.todo, req.user))
    && (pc.WriteTodo? && req.DropTodo? ==> OwnedOrGone(db, req.todo, req.user))
  }

  ghost predicate CacheOk(db: Tables, cache: Option<Id>)
  {
    cache.Some? ==> IsUserRole(db, cache.value)
  }

  ghost predicate PendingDistinct(calls: map<nat, Call>)
  {
    forall c, d :: c in calls && d in calls && c != d && PendingUser(calls[c].pc).Some? ==>
      PendingUser(calls[c].pc) != PendingUser(calls[d].pc)
  }

  ghost predicate Inv(s: Sys)
  {
    && Valid(s.db)
    && CacheOk(s.db, s.cache)
    && (forall c :: c in s.calls ==> Local(s.db, s.calls[c].req, s.calls[c].pc))
    && PendingDistinct(s.calls)
  }

  // -------- one step of one call --------

  lemma OneNewId(db: Tables, ids: seq<Id>)
    requires NewIds(db, ids) && |ids| == 1
    ensures ids[0] !in db.issued
  {
  }

  lemma BulkOnlyApproved(db: Tables, ids: seq<Id>, now: Time, emails: seq<string>, firstNames: seq<string>,
      createdBy: Id)
    requires |ids| == |emails| == |firstNames| && NewIds(db, ids) && KeysIssued(db.approved, db.issued)
    ensures var db' := InsertApprovedBulk(db, ids, now, emails, firstNames, createdBy).0;
      db' == db.(approved := db'.approved, issued := db'.issued)
  {
    var (db', r) := InsertApprovedBulk(db, ids, now, emails, firstNames, createdBy);
    if r.Ok? { InsertedRows(db, ids, r.value); }
  }

  lemma RoleByNameMeaning(db: Tables)
    ensures RoleByName(db.roles, "user").Some? ==> IsUserRole(db, RoleByName(db.roles, "user").value)
    ensures RoleByName(db.roles, "user") == None ==> forall r :: !IsUserRole(db, r)
  {
  }

  /** What a step means for the rest of the system. */
  ghost predicate GoodEffect(db: Tables, req: Request, pc: Pc, e: Effect)
  {
    && Valid(e.db) && Evolves(db, e.db)
    && CacheOk(e.db, e.cache)
    && Local(e.db, req, e.pc)
    && (PendingUser(e.pc).Some? ==> PendingUser(e.pc) == PendingUser(pc) || PendingUser(e.pc).value !in db.issued)
    && (forall u, r :: (u, r) in e.db.userRoles ==> (u, r) in db.userRoles || PendingUser(pc) == Some(u))
  }

  lemma ValidParts(db: Tables)
    requires Valid(db)
    ensures KeysIssued(db.approved, db.issued) && KeysIssued(db.todos, db.issued)
    ensures forall u, r :: (u, r) in db.userRoles ==> u in db.issued
  {
  }

  lemma PatchGood(db: Tables, cache: Option<Id>, req: Request, pc: Pc, env: Env)
    requires Valid(db) && CacheOk(db, cache) && req.PatchTodo? && Local(db, req, pc)
    ensures GoodEffect(db, req, pc, PatchStep(db, cache, req.todo, req.user, req.patch, pc, env))
  {
    hide Valid, Evolves;
    ValidParts(db);
    EvolvesReflexive(db);
    if pc.WriteTodo? { UpdateTodoKeeps(db, req.todo, env.now, req.patch); }
  }

  lemma DropGood(db: Tables, cache: Option<Id>, req: Request, pc: Pc)
    requires Valid(db) && CacheOk(db, cache) && req.DropTodo? && Local(db, req, pc)
    ensures GoodEffect(db, req, pc, DropStep(db, cache, req.todo, req.user, pc))
  {
    hide Valid, Evolves;
    ValidParts(db);
    EvolvesReflexive(db);
    DeleteTodoKeeps(db, req.todo);
  }

  lemma CreateGood(db: Tables, cache: Option<Id>, req: Request, pc: Pc, env: Env)
    requires Valid(db) && CacheOk(db, cache) && req.CreateTodo? && Local(db, req, pc)
    requires |env.ids| == 1 && NewIds(db, env.ids)
    ensures GoodEffect(db, req, pc, CreateStep(db, cache, req.user, req.title, req.description, req.dueDate, pc, env))
  {
    hide Valid, Evolves;
    EvolvesReflexive(db);
    OneNewId(db, env.ids);
    if req.title != "" {
      InsertTodoKeeps(db, env.ids[0], env.now, req.user, req.title, req.description, req.dueDate);
    }
  }

  lemma ApproveGood(db: Tables, cache: Option<Id>, req: Request, pc: Pc, env: Env)
    requires Valid(db) && CacheOk(db, cache) && req.Approve? && Local(db, req, pc)
    requires |env.ids| == 1 && NewIds(db, env.ids)
    ensures GoodEffect(db, req, pc, ApproveStep(db, cache, req.email, req.firstName, req.createdBy, pc, env))
  {
    hide Valid, Evolves;
    EvolvesReflexive(db);
    OneNewId(db, env.ids);
    InsertApprovedKeeps(db, env.ids[0], env.now, req.email, req.firstName, req.createdBy);
  }

  lemma ApproveManyGood(db: Tables, cache: Option<Id>, req: Request, pc: Pc, env: Env)
    requires Valid(db) && CacheOk(db, cache) && req.ApproveMany? && Local(db, req, pc)
    requires |env.ids| == |req.emails| && NewIds(db, env.ids)
    ensures GoodEffect(db, req, pc, ApproveManyStep(db, cache, req.emails, req.firstNames, req.createdBy, pc, env))
  {
    hide Valid, Evolves, KeysIssued;
    ValidParts(db);
    EvolvesReflexive(db);
    if |req.emails| == |req.firstNames| {
      BulkKeeps(db, env.ids, env.now, req.emails, req.firstNames, req.createdBy);
      BulkOnlyApproved(db, env.ids, env.now, req.emails, req.firstNames, req.createdBy);
    }
  }

  lemma DisapproveGood(db: Tables, cache: Option<Id>, req: Request, pc: Pc)
    requires Valid(db) && CacheOk(db, cache) && req.Disapprove? && Local(db, req, pc)
    ensures GoodEffect(db, req, pc, DisapproveStep(db, cache, req.id, pc))
  {
    hide Valid, Evolves;
    EvolvesReflexive(db);
    DeleteApprovedKeeps(db, req.id);
  }

  lemma InitGood(db: Tables, cache: Option<Id>, req: Request, pc: Pc)
    requires Valid(db) && CacheOk(db, cache) && req.InitRoles? && Local(db, req, pc)
    ensures GoodEffect(db, req, pc, InitStep(db, cache, pc))
  {
    hide Valid, Evolves;
    EvolvesReflexive(db);
    RoleByNameMeaning(db);
  }

  lemma RegisterInsertGood(db: Tables, cache: Option<Id>, req: Request, env: Env)
    requires Valid(db) && CacheOk(db, cache) && req.Register? && Local(db, req, HashAndInsert)
    requires |env.ids| == 1 && NewIds(db, env.ids)
    ensures GoodEffect(db, req, HashAndInsert, RegisterStep(db, cache, req, HashAndInsert, env))
  {
    hide Valid, Evolves;
    OneNewId(db, env.ids);
    ValidParts(db);
    EvolvesReflexive(db);
    if env.salt.Some? {
      InsertUserKeeps(db, env.ids[0], env.now, req.approvedId.value, req.email,
          Hash(BcryptKey(req.password), env.salt.value));
    }
  }

  lemma RegisterAssignGood(db: Tables, cache: Option<Id>, req: Request, pc: Pc, env: Env)
    requires Valid(db) && CacheOk(db, cache) && req.Register? && pc.AssignDefault? && Local(db, req, pc)
    requires |env.ids| == 1
    ensures GoodEffect(db, req, pc, RegisterStep(db, cache, req, pc, env))
  {
    hide Valid, Evolves;
    AssignRoleKeeps(db, env.now, pc.user, pc.role);
  }

  lemma RegisterOtherGood(db: Tables, cache: Option<Id>, req: Request, pc: Pc, env: Env)
    requires Valid(db) && CacheOk(db, cache) && req.Register? && Local(db, req, pc)
    requires !pc.HashAndInsert? && !pc.AssignDefault? && |env.ids| == 1
    ensures GoodEffect(db, req, pc, RegisterStep(db, cache, req, pc, env))
  {
    hide Valid, Evolves;
    EvolvesReflexive(db);
    RoleByNameMeaning(db);
  }

  lemma ReadOnlyGood(db: Tables, cache: Option<Id>, req: Request, pc: Pc, env: Env)
    requires Valid(db) && CacheOk(db, cache) && Local(db, req, pc) && ReadOnly(req) && |env.ids| == 0
    ensures GoodEffect(db, req, pc, Next(db, cache, req, pc, env))
  {
    hide Valid, Evolves, Answer;
    EvolvesReflexive(db);
  }

  lemma NextGood(db: Tables, cache: Option<Id>, req: Request, pc: Pc, env: Env)
    requires Valid(db) && CacheOk(db, cache) && Local(db, req, pc)
    requires |env.ids| == IdsNeeded(req) && NewIds(db, env.ids)
    ensures GoodEffect(db, req, pc, Next(db, cache, req, pc, env))
  {
    hide GoodEffect, Valid, Evolves, Local, CacheOk, RegisterStep, InitStep, ApproveStep, ApproveManyStep,
         DisapproveStep, CreateStep, PatchStep, DropStep, NewIds, Answer;
    match req
    case InitRoles => InitGood(db, cache, req, pc);
    case Register(_, _, _) =>
      match pc {
        case HashAndInsert => RegisterInsertGood(db, cache, req, env);
        case AssignDefault(_, _) => RegisterAssignGood(db, cache, req, pc, env);
        case _ => RegisterOtherGood(db, cache, req, pc, env);
      }
    case Approve(_, _, _) => ApproveGood(db, cache, req, pc, env);
    case ApproveMany(_, _, _) => ApproveManyGood(db, cache, req, pc, env);
    case Disapprove(_) => DisapproveGood(db, cache, req, pc);
    case CreateTodo(_, _, _, _) => CreateGood(db, cache, req, pc, env);
    case PatchTodo(_, _, _) => PatchGood(db, cache, req, pc, env);
    case DropTodo(_, _) => DropGood(db, cache, req, pc);
    case _ => ReadOnlyGood(db, cache, req, pc, env);
  }

  // -------- every run --------

  lemma OtherCallKept(db: Tables, next: Tables, req: Request, pc: Pc)
    requires Evolves(db, next) && Local(db, req, pc)
    requires PendingUser(pc).Some? ==> forall r :: (PendingUser(pc).value, r) !in next.userRoles
    ensures Local(next, req, pc)
  {
  }

  lemma ExecKeeps(s: Sys, c: nat, env: Env)
    requires Inv(s) && Enabled(s, Exec(c, env))
    ensures Inv(Step(s, Exec(c, env))) && Evolves(s.db, Step(s, Exec(c, env)).db)
  {
    hide Valid, Evolves, Local, Next, CacheOk, RoleInHand, NewIds, Enabled;
    EnabledMeaning(s, c, env);
    var call := s.calls[c];
    assert Local(s.db, call.req, call.pc);
    NextGood(s.db, s.cache, call.req, call.pc, env);
    var e := EffectOf(s, c, env);
    var calls := s.calls[c := call.(pc := e.pc)];
    forall d | d in calls ensures Local(e.db, calls[d].req, calls[d].pc) {
      if d != c {
        PendingApart(s, c, d);
        OtherCallKept(s.db, e.db, calls[d].req, calls[d].pc);
      }
    }
    StillDistinct(s, c, e);
  }

  lemma CallLocal(s: Sys, c: nat)
    requires Inv(s) && c in s.calls
    ensures Valid(s.db) && Local(s.db, s.calls[c].req, s.calls[c].pc)
  {
  }

  lemma EnabledMeaning(s: Sys, c: nat, env: Env)
    requires Enabled(s, Exec(c, env))
    ensures c in s.calls && |env.ids| == IdsNeeded(s.calls[c].req) && NewIds(s.db, env.ids)
  {
  }

  /** Only the registration that created an account touches its role rows. */
  lemma PendingApart(s: Sys, c: nat, d: nat)
    requires Inv(s) && c in s.calls && d in s.calls && c != d
    ensures PendingUser(s.calls[d].pc).Some? ==> PendingUser(s.calls[d].pc) != PendingUser(s.calls[c].pc)
    ensures PendingUser(s.calls[d].pc).Some? ==> RoleFree(s.db, PendingUser(s.calls[d].pc).value)
  {
    assert Local(s.db, s.calls[d].req, s.calls[d].pc);
  }

  lemma StillDistinct(s: Sys, c: nat, e: Effect)
    requires Inv(s) && c in s.calls && GoodEffect(s.db, s.calls[c].req, s.calls[c].pc, e)
    ensures PendingDistinct(s.calls[c := s.calls[c].(pc := e.pc)])
  {
    hide Valid, Evolves, GoodEffect;
    var calls := s.calls[c := s.calls[c].(pc := e.pc)];
    GoodPending(s.db, s.calls[c].req, s.calls[c].pc, e);
    forall x, y | x in calls && y in calls && x != y && PendingUser(calls[x].pc).Some?
      ensures PendingUser(calls[x].pc) != PendingUser(calls[y].pc)
    {
      PendingApart(s, x, y);
      PendingApart(s, y, x);
    }
  }

  lemma GoodPending(db: Tables, req: Request, pc: Pc, e: Effect)
    requires GoodEffect(db, req, pc, e)
    ensures PendingUser(e.pc).Some? ==> PendingUser(e.pc) == PendingUser(pc) || PendingUser(e.pc).value !in db.issued
  {
  }

  lemma StepKeeps(s: Sys, a: Action)
    requires Inv(s) && Enabled(s, a)
    ensures Inv(Step(s, a)) && Evolves(s.db, Step(s, a).db)
  {
    match a
    case Begin(c, req) => EvolvesReflexive(s.db);
    case Exec(c, env) => ExecKeeps(s, c, env);
  }

  /** Every state any interleaving reaches satisfies all the constraints and every call's
      own assumptions, and has only moved on from where it began. */
  lemma {:induction false} RunKeeps(s: Sys, run: seq<Action>)
    requires Inv(s) && ValidRun(s, run)
    ensures Inv(After(s, run)) && Evolves(s.db, After(s, run).db)
    decreases |run|
  {
    hide Inv, Evolves, Step, Enabled;
    EvolvesReflexive(s.db);
    if run != [] {
      var s' := Step(s, run[0]);
      StepKeeps(s, run[0]);
      RunKeeps(s', run[1..]);
      EvolvesTransitive(s.db, s'.db, After(s', run[1..]).db);
    }
  }

  /** A freshly started service on a sound database. */
  ghost predicate Initial(s: Sys)
  {
    Valid(s.db) && s.cache == None && s.calls == map[] && s.log == []
  }

  lemma ReachableSound(s: Sys, run: seq<Action>)
    requires Initial(s) && ValidRun(s, run)
    ensures var t := After(s, run);
      ForeignKeys(t.db) && UniqueKeys(t.db) && Titled(t.db.todos) && CacheOk(t.db, t.cache) && Inv(t)
  {
    RunKeeps(s, run);
  }

  /** Whatever creates, bulk creates and deletes have run, walking approvals from any row
      ends at a row with no creator and never comes back to a row. */
  lemma ApprovalsNeverCycle(s: Sys, run: seq<Action>, a: Id)
    requires Initial(s) && ValidRun(s, run) && a in After(s, run).db.approved
    ensures Inv(After(s, run))
    ensures var db := After(s, run).db;
      var chain := Approvers(db, a);
      && (forall i, j :: 0 <= i < j < |chain| ==> chain[i] != chain[j])
      && chain[|chain| - 1] in db.approved && db.approved[chain[|chain| - 1]].createdBy == None
  {
    RunKeeps(s, run);
    ApproversReachRoot(After(s, run).db, a);
  }

  // -------- check-then-act ownership --------

  /** From `db` to `next` no row of any table changed but at most the todo `todo`, which
      was and still is `user`'s if it is there. */
  ghost predicate OnlyOwnRow(db: Tables, next: Tables, todo: Id, user: Id)
  {
    && next == db.(todos := next.todos)
    && (forall id :: id in next.todos ==> id in db.todos)
    && (forall id :: id in db.todos && (id !in next.todos || next.todos[id] != db.todos[id]) ==>
          id == todo && db.todos[id].userId == user && (id in next.todos ==> next.todos[id].userId == user))
  }

  /** Between a call's ownership check and its write anything may happen; still the write
      changes at most one row, the one it named, and that row is its caller's. */
  lemma WritesOnlyOwnRows(s: Sys, run: seq<Action>, c: nat, env: Env)
    requires Initial(s) && ValidRun(s, run) && Enabled(After(s, run), Exec(c, env))
    requires var req := After(s, run).calls[c].req; req.PatchTodo? || req.DropTodo?
    ensures var t := After(s, run);
      OnlyOwnRow(t.db, Step(t, Exec(c, env)).db, t.calls[c].req.todo, t.calls[c].req.user)
  {
    hide Inv, Initial, ValidRun, After, Valid, Evolves, OnlyOwnRow, Step, Enabled;
    FreshIsSound(s);
    RunKeeps(s, run);
    EnabledMeaning(After(s, run), c, env);
    OwnWrite(After(s, run), c, env);
  }

  lemma FreshIsSound(s: Sys)
    requires Initial(s)
    ensures Inv(s)
  {
    hide Valid;
  }

  lemma OwnWrite(t: Sys, c: nat, env: Env)
    requires Inv(t) && Enabled(t, Exec(c, env)) && (t.calls[c].req.PatchTodo? || t.calls[c].req.DropTodo?)
    ensures OnlyOwnRow(t.db, Step(t, Exec(c, env)).db, t.calls[c].req.todo, t.calls[c].req.user)
  {
    hide Inv, Valid, Local, OnlyOwnRow, PatchStep, DropStep, RegisterStep, InitStep, ApproveStep, ApproveManyStep,
         DisapproveStep, CreateStep, Answer, NewIds;
    CallLocal(t, c);
    var call := t.calls[c];
    if call.req.PatchTodo? {
      OwnPatch(t.db, t.cache, call.req, call.pc, env);
    } else {
      OwnDrop(t.db, t.cache, call.req, call.pc);
    }
  }

  lemma OwnPatch(db: Tables, cache: Option<Id>, req: Request, pc: Pc, env: Env)
    requires req.PatchTodo? && Local(db, req, pc)
    ensures OnlyOwnRow(db, PatchStep(db, cache, req.todo, req.user, req.patch, pc, env).db, req.todo, req.user)
  {
    hide IsUserRole, RoleFree;
  }

  lemma OwnDrop(db: Tables, cache: Option<Id>, req: Request, pc: Pc)
    requires req.DropTodo? && Local(db, req, pc)
    ensures OnlyOwnRow(db, DropStep(db, cache, req.todo, req.user, pc).db, req.todo, req.user)
  {
    hide IsUserRole, RoleFree;
  }
}
