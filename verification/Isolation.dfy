/** One user's view of the todos does not depend on what other users do to theirs. */
module Isolation {
  import opened Options
  import opened Schema
  import opened Statements
  import opened Bulk
  import opened Passwords
  import opened Services
  import opened Interleaving

  /** What the todo handlers put on the wire. */
  datatype Http = Http(status: nat, body: Option<Response>)

  function Answered(req: Request, r: Response): (http: Http)
    ensures http.status == 404 <==> r == Failed(TodoNotFound) || r == Failed(TodoNotOwned)
    ensures http.status == 400 <==> r == Failed(InvalidTodoParams)
    ensures http.status < 300 <==> !r.Failed?
    ensures http.body == if r.Failed? || req.DropTodo? then None else Some(r)
  {
    match r
    case Failed(TodoNotFound) => Http(404, None)
    case Failed(TodoNotOwned) => Http(404, None)
    case Failed(InvalidTodoParams) => Http(400, None)
    case Failed(_) => Http(500, None)
    case _ => if req.CreateTodo? then Http(201, Some(r)) else if req.DropTodo? then Http(204, None)
        else Http(200, Some(r))
  }

  /** A todo call made by somebody else. */
  predicate Foreign(req: Request, me: Id)
  {
    match req
    case ListTodos(u) => u != me
    case GetTodo(_, u) => u != me
    case CreateTodo(u, _, _, _) => u != me
    case PatchTodo(_, u, _) => u != me
    case DropTodo(_, u) => u != me
    case _ => false
  }

  /** The run without anybody else's todo calls. */
  ghost function Mine(s: Sys, run: seq<Action>, me: Id): seq<Action>
    requires ValidRun(s, run)
    decreases |run|
  {
    if run == [] then [] else
      var rest := Mine(Step(s, run[0]), run[1..], me);
      if IsForeign(s, run[0], me) then rest else [run[0]] + rest
  }

  ghost predicate IsForeign(s: Sys, a: Action, me: Id)
    requires Enabled(s, a)
  {
    match a
    case Begin(_, req) => Foreign(req, me)
    case Exec(c, _) => Foreign(s.calls[c].req, me)
  }

  /** Equal but for other users' todos and for ids nobody was given here. */
  ghost predicate SameDb(a: Tables, b: Tables, me: Id)
  {
    && a.approved == b.approved && a.users == b.users && a.roles == b.roles && a.userRoles == b.userRoles
    && OwnTodos(a.todos, me) == OwnTodos(b.todos, me)
    && forall id :: id in b.issued ==> id in a.issued
  }

  ghost predicate SamePc(req: Request, p: Pc, q: Pc)
  {
    p == q || (TodoRequest(req) && p.Done? && q.Done? && Answered(req, p.response) == Answered(req, q.response))
  }

  /** `f` is `s` as it would be without the foreign todo calls. */
  ghost predicate Alike(s: Sys, f: Sys, me: Id)
  {
    && SameDb(s.db, f.db, me)
    && s.cache == f.cache
    && (forall c :: c in f.calls <==> c in s.calls && !Foreign(s.calls[c].req, me))
    && (forall c :: c in f.calls ==> f.calls[c].req == s.calls[c].req)
    && (forall c :: c in f.calls ==> SamePc(f.calls[c].req, s.calls[c].pc, f.calls[c].pc))
  }

  // -------- one step of a kept call, in both worlds --------

  lemma {:induction false} InsertedAlike(a: Tables, b: Tables, ids: seq<Id>, rows: seq<ApprovedRow>)
    requires |ids| == |rows| && a.approved == b.approved
    ensures Inserted(a, ids, rows).approved == Inserted(b, ids, rows).approved
    ensures forall x :: x in Inserted(a, ids, rows).issued <==> x in a.issued || x in ids
    ensures forall x :: x in Inserted(b, ids, rows).issued <==> x in b.issued || x in ids
    decreases |ids|
  {
    if ids != [] {
      InsertedAlike(a.(approved := a.approved[ids[0] := rows[0]], issued := Issue(a.issued, ids[0])),
                    b.(approved := b.approved[ids[0] := rows[0]], issued := Issue(b.issued, ids[0])),
                    ids[1..], rows[1..]);
      assert forall x :: x in ids <==> x == ids[0] || x in ids[1..];
    }
  }

  lemma BulkAlike(a: Tables, b: Tables, me: Id, ids: seq<Id>, now: Time, emails: seq<string>,
      firstNames: seq<string>, createdBy: Id)
    requires |ids| == |emails| == |firstNames| && NewIds(a, ids) && NewIds(b, ids) && SameDb(a, b, me)
    requires KeysIssued(a.approved, a.issued) && KeysIssued(b.approved, b.issued)
    ensures var (a', r) := InsertApprovedBulk(a, ids, now, emails, firstNames, createdBy);
      var (b', q) := InsertApprovedBulk(b, ids, now, emails, firstNames, createdBy);
      SameDb(a', b', me) && r == q
  {
    BulkOnlyApproved(a, ids, now, emails, firstNames, createdBy);
    BulkOnlyApproved(b, ids, now, emails, firstNames, createdBy);
    var r := InsertApprovedBulk(a, ids, now, emails, firstNames, createdBy).1;
    if r.Ok? { InsertedAlike(a, b, ids, r.value); }
    hide InsertApprovedBulk, Inserted, NewIds, KeysIssued;
  }

  ghost predicate SameEffect(req: Request, x: Effect, y: Effect, me: Id)
  {
    SameDb(x.db, y.db, me) && x.cache == y.cache && SamePc(req, x.pc, y.pc)
  }

  lemma SameTables(a: Tables, b: Tables, me: Id)
    requires SameDb(a, b, me)
    ensures a.approved == b.approved && a.users == b.users && a.roles == b.roles && a.userRoles == b.userRoles
  {
  }

  lemma InsertUserAlike(a: Tables, b: Tables, me: Id, id: Id, now: Time, approvedId: Id, email: string, hash: Hash)
    requires SameDb(a, b, me)
    ensures var (a', r) := InsertUser(a, id, now, approvedId, email, hash);
      var (b', q) := InsertUser(b, id, now, approvedId, email, hash);
      SameDb(a', b', me) && r == q
  {
    hide UserEmailTaken, OwnTodos;
  }

  lemma AssignRoleAlike(a: Tables, b: Tables, me: Id, now: Time, user: Id, role: Id)
    requires SameDb(a, b, me)
    ensures var (a', r) := AssignRole(a, now, user, role);
      var (b', q) := AssignRole(b, now, user, role);
      SameDb(a', b', me) && r == q
  {
    hide OwnTodos;
  }

  lemma RegisterAlike(a: Tables, b: Tables, cache: Option<Id>, req: Request, pc: Pc, env: Env, me: Id)
    requires req.Register? && |env.ids| == 1 && SameDb(a, b, me)
    ensures SameEffect(req, RegisterStep(a, cache, req, pc, env), RegisterStep(b, cache, req, pc, env), me)
  {
    hide UserEmailTaken, RoleByName, SameDb, InsertUser, AssignRole, Answered;
    SameTables(a, b, me);
    match pc
    case HashAndInsert =>
      if env.salt.Some? && req.approvedId.Some? {
        InsertUserAlike(a, b, me, env.ids[0], env.now, req.approvedId.value, req.email,
            Hash(BcryptKey(req.password), env.salt.value));
      }
    case AssignDefault(u, r) =>
      AssignRoleAlike(a, b, me, env.now, u, r);
    case _ =>
  }

  lemma InsertApprovedAlike(a: Tables, b: Tables, me: Id, id: Id, now: Time, email: string, firstName: string,
      createdBy: Id)
    requires SameDb(a, b, me)
    ensures var (a', r) := InsertApproved(a, id, now, email, firstName, createdBy);
      var (b', q) := InsertApproved(b, id, now, email, firstName, createdBy);
      SameDb(a', b', me) && r == q
  {
    hide ApprovedEmailTaken, OwnTodos;
  }

  lemma ApproveAlike(a: Tables, b: Tables, cache: Option<Id>, req: Request, pc: Pc, env: Env, me: Id)
    requires req.Approve? && |env.ids| == 1 && SameDb(a, b, me)
    ensures SameEffect(req, ApproveStep(a, cache, req.email, req.firstName, req.createdBy, pc, env),
                       ApproveStep(b, cache, req.email, req.firstName, req.createdBy, pc, env), me)
  {
    hide ApprovedEmailTaken, SameDb, InsertApproved, Answered;
    SameTables(a, b, me);
    InsertApprovedAlike(a, b, me, env.ids[0], env.now, req.email, req.firstName, req.createdBy);
  }

  lemma DisapproveAlike(a: Tables, b: Tables, cache: Option<Id>, req: Request, pc: Pc, me: Id)
    requires req.Disapprove? && SameDb(a, b, me)
    ensures SameEffect(req, DisapproveStep(a, cache, req.id, pc), DisapproveStep(b, cache, req.id, pc), me)
  {
    hide OwnTodos;
    OwnTodosDeleted(a, req.id, me);
    OwnTodosDeleted(b, req.id, me);
  }

  lemma OwnTodosDeleted(db: Tables, id: Id, me: Id)
    ensures OwnTodos(DeleteApproved(db, id).0.todos, me)
         == if id in db.approved && Bound(db, me, id) then map[] else OwnTodos(db.todos, me)
  {
  }

  lemma OwnRow(a: Tables, b: Tables, me: Id, t: Id)
    requires SameDb(a, b, me)
    ensures (t in a.todos && a.todos[t].userId == me) <==> (t in b.todos && b.todos[t].userId == me)
    ensures t in a.todos && a.todos[t].userId == me ==> t in b.todos && a.todos[t] == b.todos[t]
  {
    assert t in OwnTodos(a.todos, me) <==> t in OwnTodos(b.todos, me);
    if t in OwnTodos(a.todos, me) { assert OwnTodos(a.todos, me)[t] == OwnTodos(b.todos, me)[t]; }
  }

  lemma CreateAlike(a: Tables, b: Tables, cache: Option<Id>, req: Request, pc: Pc, env: Env, me: Id)
    requires req.CreateTodo? && req.user == me && |env.ids| == 1 && SameDb(a, b, me)
    ensures SameEffect(req, CreateStep(a, cache, me, req.title, req.description, req.dueDate, pc, env),
                       CreateStep(b, cache, me, req.title, req.description, req.dueDate, pc, env), me)
  {
    hide OwnTodos;
    var row := TodoRow(me, req.title, req.description, false, req.dueDate, env.now, env.now);
    OwnTodosPut(a.todos, me, env.ids[0], row);
    OwnTodosPut(b.todos, me, env.ids[0], row);
  }

  lemma OwnTodosPut(todos: map<Id, TodoRow>, me: Id, t: Id, row: TodoRow)
    requires row.userId == me
    ensures OwnTodos(todos[t := row], me) == OwnTodos(todos, me)[t := row]
  {
  }

  lemma OwnTodosDrop(todos: map<Id, TodoRow>, me: Id, t: Id)
    ensures OwnTodos(todos - {t}, me) == OwnTodos(todos, me) - {t}
  {
  }

  lemma PatchAlike(a: Tables, b: Tables, cache: Option<Id>, req: Request, pc: Pc, env: Env, me: Id)
    requires req.PatchTodo? && req.user == me && SameDb(a, b, me) && Local(a, req, pc) && Local(b, req, pc)
    ensures SameEffect(req, PatchStep(a, cache, req.todo, me, req.patch, pc, env),
                       PatchStep(b, cache, req.todo, me, req.patch, pc, env), me)
  {
    hide OwnTodos;
    OwnRow(a, b, me, req.todo);
    if pc.WriteTodo? && req.todo in a.todos {
      var row := Patched(a.todos[req.todo], req.patch, env.now);
      OwnTodosPut(a.todos, me, req.todo, row);
      OwnTodosPut(b.todos, me, req.todo, row);
    }
  }

  lemma DropAlike(a: Tables, b: Tables, cache: Option<Id>, req: Request, pc: Pc, env: Env, me: Id)
    requires req.DropTodo? && req.user == me && SameDb(a, b, me) && Local(a, req, pc) && Local(b, req, pc)
    ensures SameEffect(req, DropStep(a, cache, req.todo, me, pc), DropStep(b, cache, req.todo, me, pc), me)
  {
    hide OwnTodos;
    OwnRow(a, b, me, req.todo);
    OwnTodosDrop(a.todos, me, req.todo);
    OwnTodosDrop(b.todos, me, req.todo);
  }

  lemma ReadAlike(a: Tables, b: Tables, req: Request, env: Env, me: Id)
    requires ReadOnly(req) && !Foreign(req, me) && SameDb(a, b, me)
    ensures Answer(a, req, env) == Answer(b, req, env)
         || (TodoRequest(req) && Answered(req, Answer(a, req, env)) == Answered(req, Answer(b, req, env)))
  {
    hide OwnTodos, UserByEmail;
    if req.GetTodo? { OwnRow(a, b, me, req.todo); }
  }

  lemma NextAlike(a: Tables, b: Tables, cache: Option<Id>, req: Request, pc: Pc, env: Env, me: Id)
    requires Valid(a) && Valid(b) && SameDb(a, b, me) && Local(a, req, pc) && Local(b, req, pc)
    requires !Foreign(req, me) && |env.ids| == IdsNeeded(req) && NewIds(a, env.ids) && NewIds(b, env.ids)
    ensures SameEffect(req, Next(a, cache, req, pc, env), Next(b, cache, req, pc, env), me)
  {
    hide Valid, SameDb, SamePc, Local, RegisterStep, ApproveStep, DisapproveStep, CreateStep, PatchStep, DropStep,
         Answer, NewIds, InsertApprovedBulk, KeysIssued;
    match req
    case InitRoles => InitAlike(a, b, cache, req, pc, me);
    case Register(_, _, _) => RegisterAlike(a, b, cache, req, pc, env, me);
    case Approve(_, _, _) => ApproveAlike(a, b, cache, req, pc, env, me);
    case ApproveMany(_, _, _) => ApproveManyAlike(a, b, cache, req, pc, env, me);
    case Disapprove(_) => DisapproveAlike(a, b, cache, req, pc, me);
    case CreateTodo(_, _, _, _) => CreateAlike(a, b, cache, req, pc, env, me);
    case PatchTodo(_, _, _) => PatchAlike(a, b, cache, req, pc, env, me);
    case DropTodo(_, _) => DropAlike(a, b, cache, req, pc, env, me);
    case _ => AnswerAlike(a, b, cache, req, pc, env, me);
  }

  lemma InitAlike(a: Tables, b: Tables, cache: Option<Id>, req: Request, pc: Pc, me: Id)
    requires SameDb(a, b, me)
    ensures SameEffect(req, InitStep(a, cache, pc), InitStep(b, cache, pc), me)
  {
    hide RoleByName, SameDb, Answered;
    SameTables(a, b, me);
  }

  lemma ApproveManyAlike(a: Tables, b: Tables, cache: Option<Id>, req: Request, pc: Pc, env: Env, me: Id)
    requires Valid(a) && Valid(b) && req.ApproveMany? && |env.ids| == |req.emails| && NewIds(a, env.ids)
        && NewIds(b, env.ids) && SameDb(a, b, me)
    ensures SameEffect(req, ApproveManyStep(a, cache, req.emails, req.firstNames, req.createdBy, pc, env),
                       ApproveManyStep(b, cache, req.emails, req.firstNames, req.createdBy, pc, env), me)
  {
    hide Valid, SameDb, InsertApprovedBulk, NewIds, KeysIssued;
    ValidParts(a);
    ValidParts(b);
    if |req.emails| == |req.firstNames| {
      BulkAlike(a, b, me, env.ids, env.now, req.emails, req.firstNames, req.createdBy);
    }
  }

  lemma AnswerAlike(a: Tables, b: Tables, cache: Option<Id>, req: Request, pc: Pc, env: Env, me: Id)
    requires SameDb(a, b, me) && ReadOnly(req) && !Foreign(req, me) && |env.ids| == 0
    ensures SameEffect(req, Next(a, cache, req, pc, env), Next(b, cache, req, pc, env), me)
  {
    hide SameDb, Answer, RegisterStep, InitStep, ApproveStep, ApproveManyStep, DisapproveStep, CreateStep,
         PatchStep, DropStep, Answered, Foreign;
    ReadAlike(a, b, req, env, me);
  }

  // -------- one step of a foreign call, in one world only --------

  lemma ForeignInvisible(db: Tables, cache: Option<Id>, req: Request, pc: Pc, env: Env, me: Id)
    requires Foreign(req, me) && |env.ids| == IdsNeeded(req) && NewIds(db, env.ids)
        && KeysIssued(db.todos, db.issued) && Local(db, req, pc)
    ensures var e := Next(db, cache, req, pc, env); SameDb(e.db, db, me) && e.cache == cache
  {
    hide RegisterStep, InitStep, ApproveStep, ApproveManyStep, DisapproveStep, CreateStep, PatchStep, DropStep,
         Answer, NewIds, Local, SameDb;
    match req
    case CreateTodo(_, _, _, _) => ForeignCreate(db, cache, req, pc, env, me);
    case PatchTodo(_, _, _) => ForeignPatch(db, cache, req, pc, env, me);
    case DropTodo(_, _) => ForeignDrop(db, cache, req, pc, me);
    case _ => SameDbReflexive(db, me);
  }

  lemma SameDbReflexive(db: Tables, me: Id)
    ensures SameDb(db, db, me)
  {
  }

  lemma ForeignCreate(db: Tables, cache: Option<Id>, req: Request, pc: Pc, env: Env, me: Id)
    requires req.CreateTodo? && req.user != me && |env.ids| == 1 && NewIds(db, env.ids)
        && KeysIssued(db.todos, db.issued)
    ensures var e := CreateStep(db, cache, req.user, req.title, req.description, req.dueDate, pc, env);
      SameDb(e.db, db, me) && e.cache == cache
  {
    hide OwnTodos, NewIds;
    OneNewId(db, env.ids);
    if pc.Start? {
      OthersTodoPut(db.todos, me, env.ids[0],
          TodoRow(req.user, req.title, req.description, false, req.dueDate, env.now, env.now));
    }
  }

  lemma OthersTodoPut(todos: map<Id, TodoRow>, me: Id, t: Id, row: TodoRow)
    requires row.userId != me && (t in todos ==> todos[t].userId != me)
    ensures OwnTodos(todos[t := row], me) == OwnTodos(todos, me)
  {
  }

  lemma OthersTodoDrop(todos: map<Id, TodoRow>, me: Id, t: Id)
    requires t in todos ==> todos[t].userId != me
    ensures OwnTodos(todos - {t}, me) == OwnTodos(todos, me)
  {
  }

  lemma ForeignPatch(db: Tables, cache: Option<Id>, req: Request, pc: Pc, env: Env, me: Id)
    requires req.PatchTodo? && req.user != me && Local(db, req, pc)
    ensures var e := PatchStep(db, cache, req.todo, req.user, req.patch, pc, env);
      SameDb(e.db, db, me) && e.cache == cache
  {
    hide OwnTodos, Patched, RoleFree, IsUserRole;
    if pc.WriteTodo? && req.todo in db.todos {
      var row := Patched(db.todos[req.todo], req.patch, env.now);
      SameOwner(db.todos[req.todo], req.patch, env.now);
      OthersTodoPut(db.todos, me, req.todo, row);
    }
  }

  lemma SameOwner(row: TodoRow, patch: Patch, now: Time)
    ensures Patched(row, patch, now).userId == row.userId
  {
  }

  lemma ForeignDrop(db: Tables, cache: Option<Id>, req: Request, pc: Pc, me: Id)
    requires req.DropTodo? && req.user != me && Local(db, req, pc)
    ensures var e := DropStep(db, cache, req.todo, req.user, pc); SameDb(e.db, db, me) && e.cache == cache
  {
    hide OwnTodos, RoleFree, IsUserRole;
    if pc.WriteTodo? { OthersTodoDrop(db.todos, me, req.todo); }
  }

  // -------- whole runs --------

  lemma SameDbJoin(a: Tables, a': Tables, b: Tables, me: Id)
    requires SameDb(a', a, me) && SameDb(a, b, me)
    requires forall id :: id in a.issued ==> id in a'.issued
    ensures SameDb(a', b, me)
  {
    hide OwnTodos;
  }

  lemma FewerIds(a: Tables, b: Tables, ids: seq<Id>, me: Id)
    requires SameDb(a, b, me) && NewIds(a, ids)
    ensures NewIds(b, ids)
  {
    hide OwnTodos;
  }

  lemma ForeignStep(s: Sys, f: Sys, a: Action, me: Id)
    requires Inv(s) && Alike(s, f, me) && Enabled(s, a) && IsForeign(s, a, me)
    ensures Alike(Step(s, a), f, me)
  {
    hide Valid, Local, Next, SameDb, Foreign, SamePc, NewIds;
    if a.Exec? {
      var call := s.calls[a.call];
      assert Local(s.db, call.req, call.pc);
      ValidParts(s.db);
      ForeignInvisible(s.db, s.cache, call.req, call.pc, a.env, me);
      var e := EffectOf(s, a.call, a.env);
      ExecKeeps(s, a.call, a.env);
      IssuedStay(s.db, e.db);
      SameDbJoin(s.db, e.db, f.db, me);
    }
  }

  lemma IssuedStay(a: Tables, b: Tables)
    requires Evolves(a, b)
    ensures forall id :: id in a.issued ==> id in b.issued
  {
  }

  lemma MyStep(s: Sys, f: Sys, a: Action, me: Id)
    requires Inv(s) && Inv(f) && Alike(s, f, me) && Enabled(s, a) && !IsForeign(s, a, me)
    ensures Enabled(f, a) && Alike(Step(s, a), Step(f, a), me)
  {
    hide Valid, Local, Next, SameDb, Foreign, NewIds, Answered;
    if a.Exec? {
      var call := s.calls[a.call];
      assert a.call in f.calls && f.calls[a.call].pc == call.pc;
      assert Local(s.db, call.req, call.pc) && Local(f.db, call.req, call.pc);
      FewerIds(s.db, f.db, a.env.ids, me);
      NextAlike(s.db, f.db, s.cache, call.req, call.pc, a.env, me);
    }
  }

  lemma {:induction false} RunAlike(s: Sys, f: Sys, run: seq<Action>, me: Id)
    requires Inv(s) && Inv(f) && Alike(s, f, me) && ValidRun(s, run)
    ensures ValidRun(f, Mine(s, run, me))
    ensures Alike(After(s, run), After(f, Mine(s, run, me)), me)
    decreases |run|
  {
    hide Inv, Alike, Enabled, Step, IsForeign, Evolves;
    if run != [] {
      var a := run[0];
      StepKeeps(s, a);
      if IsForeign(s, a, me) {
        ForeignStep(s, f, a, me);
        RunAlike(Step(s, a), f, run[1..], me);
      } else {
        MyStep(s, f, a, me);
        StepKeeps(f, a);
        RunAlike(Step(s, a), Step(f, a), run[1..], me);
        assert Mine(s, run, me)[1..] == Mine(Step(s, a), run[1..], me);
      }
    }
  }

  /** Take away from any interleaved run every todo call of every other user: it is still a
      run, and each of my calls is where it was, with the same answer on the wire. */
  lemma TodoIsolation(s: Sys, run: seq<Action>, me: Id, c: nat)
    requires Initial(s) && ValidRun(s, run)
    requires var t := After(s, run); c in t.calls && TodoRequest(t.calls[c].req) && !Foreign(t.calls[c].req, me)
    ensures ValidRun(s, Mine(s, run, me))
    ensures var t, alone := After(s, run), After(s, Mine(s, run, me));
      && c in alone.calls && alone.calls[c].req == t.calls[c].req
      && (t.calls[c].pc.Done? <==> alone.calls[c].pc.Done?)
      && (t.calls[c].pc.Done? ==>
            Answered(t.calls[c].req, t.calls[c].pc.response) == Answered(t.calls[c].req, alone.calls[c].pc.response))
  {
    RunAlike(s, s, run, me);
  }
}
