/** What a call answers is what it has done, step by step of the interleaved programs. */
module Answers {
  import opened Options
  import opened Sequences
  import opened Schema
  import opened Statements
  import opened Bulk
  import opened Passwords
  import opened Services
  import opened Interleaving

  // -------- the statements, column by column --------

  /** No e-mail is repeated or taken. */
  ghost predicate NewEmails(approved: map<Id, ApprovedRow>, emails: seq<string>)
  {
    && Distinct(emails)
    && forall a, i :: a in approved && 0 <= i < |emails| ==> approved[a].email != emails[i]
  }

  /** The new rows under the new ids, in order; every old row as it was, and no other. */
  ghost predicate ApprovalsStored(was: map<Id, ApprovedRow>, approved: map<Id, ApprovedRow>, ids: seq<Id>,
      rows: seq<ApprovedRow>)
  {
    && |ids| == |rows|
    && (forall i :: 0 <= i < |ids| ==> ids[i] in approved && approved[ids[i]] == rows[i])
    && (forall a :: a in was ==> a in approved && approved[a] == was[a])
    && (forall a :: a in approved ==> a in was || a in ids)
  }

  /** The bulk statement: exactly when it succeeds, why it does not, and what it stores. */
  lemma BulkMeaning(db: Tables, ids: seq<Id>, now: Time, emails: seq<string>, firstNames: seq<string>, createdBy: Id)
    requires |ids| == |emails| == |firstNames|
    ensures var (db', r) := InsertApprovedBulk(db, ids, now, emails, firstNames, createdBy);
      && (r.Ok? <==> NewEmails(db.approved, emails) && (emails == [] || createdBy in db.approved))
      && (r.Err? ==> db' == db)
      && (r.Err? ==> r.error == if NewEmails(db.approved, emails) then ForeignKeyViolation else UniqueViolation)
      && (r.Ok? ==> |r.value| == |emails|)
      && (r.Ok? ==> forall i :: 0 <= i < |emails| ==>
            StoredApproval(r.value[i], emails[i], firstNames[i], createdBy, now))
      && (r.Ok? && NewIds(db, ids) && KeysIssued(db.approved, db.issued) ==>
            ApprovalsStored(db.approved, db'.approved, ids, r.value))
  {
    var (db', r) := InsertApprovedBulk(db, ids, now, emails, firstNames, createdBy);
    assert NewEmails(db.approved, emails) <==>
      Distinct(emails) && forall i :: 0 <= i < |emails| ==> !ApprovedEmailTaken(db.approved, emails[i]);
    if r.Ok? && NewIds(db, ids) && KeysIssued(db.approved, db.issued) { InsertedRows(db, ids, r.value); }
  }

  /** The approval is gone, and with it exactly the accounts under it, their todos and their
      role rows; who it approved is approved by nobody; all else is as it was. */
  ghost predicate Disapproved(was: Tables, db: Tables, id: Id)
  {
    && db.approved.Keys == was.approved.Keys - {id}
    && (forall a :: a in db.approved ==> OrphanedBy(was.approved[a], db.approved[a], id))
    && (forall u :: u in was.users ==> (u in db.users <==> was.users[u].approvedId != id))
    && (forall u :: u in db.users ==> u in was.users && db.users[u] == was.users[u])
    && (forall p :: p in was.userRoles ==> (p in db.userRoles <==> p.0 in db.users))
    && (forall p :: p in db.userRoles ==> p in was.userRoles && db.userRoles[p] == was.userRoles[p])
    && (forall t :: t in was.todos ==> (t in db.todos <==> was.todos[t].userId in db.users))
    && (forall t :: t in db.todos ==> t in was.todos && db.todos[t] == was.todos[t])
    && db.roles == was.roles
  }

  ghost predicate OrphanedBy(was: ApprovedRow, row: ApprovedRow, id: Id)
  {
    && row.email == was.email && row.firstName == was.firstName
    && row.createdBy == (if was.createdBy == Some(id) then None else was.createdBy)
    && row.createdAt == was.createdAt && row.updatedAt == was.updatedAt
  }

  lemma CascadeGone(db: Tables, id: Id)
    requires TodosFk(db.todos, db.users) && UserRolesFk(db.userRoles, db.users, db.roles) && id in db.approved
    ensures Disapproved(db, DeleteApproved(db, id).0, id)
  {
    forall p | p in db.userRoles ensures p.0 in db.users { assert (p.0, p.1) == p; }
  }

  // -------- one step of one call --------

  /** From `s` to `t` no table changed and nothing was logged. */
  predicate Unwritten(s: Sys, t: Sys)
  {
    t.db == s.db && t.log == s.log
  }

  /** Call `c` has ended in the row it stored under its own new id. */
  lemma CreateIsStored(s: Sys, c: nat, env: Env)
    requires Enabled(s, Exec(c, env)) && s.calls[c].req.CreateTodo? && s.calls[c].pc.Start?
    ensures var t, req := Step(s, Exec(c, env)), s.calls[c].req;
      if req.title == "" then Unwritten(s, t) && Refused(t, c, InvalidTodoParams)
      else if req.user !in s.db.users then Unwritten(s, t) && Refused(t, c, Db(ForeignKeyViolation))
      else
        var todo := env.ids[0];
        && todo in t.db.todos && t.calls[c].pc == Done(Todo(todo, t.db.todos[todo]))
        && StoredTodo(t.db.todos[todo], req.user, req.title, req.description, req.dueDate, env.now)
        && t.db == s.db.(todos := s.db.todos[todo := t.db.todos[todo]], issued := t.db.issued)
        && t.log == s.log + [Logged(c, TodoInserted(todo, req.user))]
  {
    hide NewIds;
  }

  /** The check of an update refuses for one of three reasons, or lets it go on to write. */
  lemma UpdateIsChecked(s: Sys, c: nat, env: Env)
    requires Enabled(s, Exec(c, env)) && s.calls[c].req.PatchTodo? && s.calls[c].pc.Start?
    ensures var t, req := Step(s, Exec(c, env)), s.calls[c].req;
      && Unwritten(s, t)
      && (if req.patch.title == Some("") then Refused(t, c, InvalidTodoParams)
          else if req.todo !in s.db.todos then Refused(t, c, TodoNotFound)
          else if s.db.todos[req.todo].userId != req.user then Refused(t, c, TodoNotOwned)
          else t.calls[c].pc == WriteTodo)
  {
    hide NewIds;
  }

  /** Call `c` has ended in the row as its patch left it, on record and in the table. */
  lemma UpdateIsStored(s: Sys, c: nat, env: Env)
    requires Enabled(s, Exec(c, env)) && s.calls[c].req.PatchTodo? && s.calls[c].pc.WriteTodo?
    ensures var t, req := Step(s, Exec(c, env)), s.calls[c].req;
      var todo := req.todo;
      if todo !in s.db.todos then Unwritten(s, t) && Refused(t, c, Db(NoRows))
      else
        && todo in t.db.todos && t.calls[c].pc == Done(Todo(todo, t.db.todos[todo]))
        && UpdatedTodo(s.db.todos[todo], t.db.todos[todo], req.patch, env.now)
        && t.db == s.db.(todos := s.db.todos[todo := t.db.todos[todo]])
        && t.log == s.log + [Logged(c, TodoPatched(todo, req.user, req.patch))]
  {
    hide NewIds;
  }

  lemma DeleteIsChecked(s: Sys, c: nat, env: Env)
    requires Enabled(s, Exec(c, env)) && s.calls[c].req.DropTodo? && s.calls[c].pc.Start?
    ensures var t, req := Step(s, Exec(c, env)), s.calls[c].req;
      && Unwritten(s, t)
      && (if req.todo !in s.db.todos then Refused(t, c, TodoNotFound)
          else if s.db.todos[req.todo].userId != req.user then Refused(t, c, TodoNotOwned)
          else t.calls[c].pc == WriteTodo)
  {
    hide NewIds;
  }

  lemma DeleteIsDone(s: Sys, c: nat, env: Env)
    requires Enabled(s, Exec(c, env)) && s.calls[c].req.DropTodo? && s.calls[c].pc.WriteTodo?
    ensures var t, todo := Step(s, Exec(c, env)), s.calls[c].req.todo;
      && t.calls[c].pc == Done(Finished) && todo !in t.db.todos
      && t.db == s.db.(todos := t.db.todos)
      && (forall id :: id in s.db.todos && id != todo ==> id in t.db.todos && t.db.todos[id] == s.db.todos[id])
      && (forall id :: id in t.db.todos ==> id in s.db.todos)
  {
    hide NewIds;
  }

  lemma ApprovalIsChecked(s: Sys, c: nat, env: Env)
    requires Enabled(s, Exec(c, env)) && s.calls[c].req.Approve? && s.calls[c].pc.Start?
    ensures var t, req := Step(s, Exec(c, env)), s.calls[c].req;
      && Unwritten(s, t)
      && (if exists a :: a in s.db.approved && s.db.approved[a].email == req.email
          then Refused(t, c, ApprovedEmailExists)
          else t.calls[c].pc == InsertApproval)
  {
    hide NewIds;
  }

  lemma ApprovalIsStored(s: Sys, c: nat, env: Env)
    requires Enabled(s, Exec(c, env)) && s.calls[c].req.Approve? && s.calls[c].pc.InsertApproval?
    ensures var t, req := Step(s, Exec(c, env)), s.calls[c].req;
      if exists a :: a in s.db.approved && s.db.approved[a].email == req.email
      then Unwritten(s, t) && Refused(t, c, Db(UniqueViolation))
      else if req.createdBy !in s.db.approved then Unwritten(s, t) && Refused(t, c, Db(ForeignKeyViolation))
      else
        var id := env.ids[0];
        && id in t.db.approved && t.calls[c].pc == Done(Approvals([t.db.approved[id]]))
        && StoredApproval(t.db.approved[id], req.email, req.firstName, req.createdBy, env.now)
        && t.db == s.db.(approved := s.db.approved[id := t.db.approved[id]], issued := t.db.issued)
        && t.log == s.log + [Logged(c, ApprovedInserted(req.createdBy))]
  {
    hide NewIds;
  }

  /** All rows or none, and each answered row is the stored one. */
  lemma ApprovalsAreStored(s: Sys, c: nat, env: Env)
    requires Inv(s) && Enabled(s, Exec(c, env)) && s.calls[c].req.ApproveMany? && s.calls[c].pc.Start?
    ensures var t, req := Step(s, Exec(c, env)), s.calls[c].req;
      if |req.emails| != |req.firstNames| then Unwritten(s, t) && Refused(t, c, InvalidInput)
      else if !NewEmails(s.db.approved, req.emails) then Unwritten(s, t) && Refused(t, c, Db(UniqueViolation))
      else if req.emails != [] && req.createdBy !in s.db.approved
      then Unwritten(s, t) && Refused(t, c, Db(ForeignKeyViolation))
      else
        && t.calls[c].pc.Done? && t.calls[c].pc.response.Approvals?
        && var rows := t.calls[c].pc.response.rows;
        && |rows| == |req.emails| && ApprovalsStored(s.db.approved, t.db.approved, env.ids, rows)
        && (forall i :: 0 <= i < |rows| ==>
              StoredApproval(rows[i], req.emails[i], req.firstNames[i], req.createdBy, env.now))
        && t.db == s.db.(approved := t.db.approved, issued := t.db.issued)
  {
    hide Valid, NewIds, InsertApprovedBulk, NewEmails, ApprovalsStored, KeysIssued, StoredApproval;
    var req := s.calls[c].req;
    ValidParts(s.db);
    if |req.emails| == |req.firstNames| {
      BulkMeaning(s.db, env.ids, env.now, req.emails, req.firstNames, req.createdBy);
      BulkOnlyApproved(s.db, env.ids, env.now, req.emails, req.firstNames, req.createdBy);
    }
  }

  lemma DisapprovalIsDone(s: Sys, c: nat, env: Env)
    requires Inv(s) && Enabled(s, Exec(c, env)) && s.calls[c].req.Disapprove? && s.calls[c].pc.Start?
    ensures var t, id := Step(s, Exec(c, env)), s.calls[c].req.id;
      if id !in s.db.approved then Unwritten(s, t) && Refused(t, c, ApprovedUserNotFound)
      else t.calls[c].pc == Done(Finished) && Disapproved(s.db, t.db, id)
  {
    hide NewIds, Disapproved;
    if s.calls[c].req.id in s.db.approved { CascadeGone(s.db, s.calls[c].req.id); }
  }

  /** A registration is turned away at once only for an id that does not parse or that no
      approval has. */
  lemma RegistrationStarts(s: Sys, c: nat, env: Env)
    requires Enabled(s, Exec(c, env)) && s.calls[c].req.Register? && s.calls[c].pc.Start?
    ensures var t, req := Step(s, Exec(c, env)), s.calls[c].req;
      && Unwritten(s, t)
      && (match req.approvedId
          case None => Refused(t, c, InvalidCredentials)
          case Some(id) =>
            if id in s.db.approved then t.calls[c].pc == CheckEmail else Refused(t, c, UserNotFound))
  {
    hide NewIds;
  }

  /** The insert of a registration: why it is refused, or what it stores. */
  lemma AccountIsStored(s: Sys, c: nat, env: Env)
    requires Inv(s) && Enabled(s, Exec(c, env)) && s.calls[c].req.Register? && s.calls[c].pc.HashAndInsert?
    ensures var t, req := Step(s, Exec(c, env)), s.calls[c].req;
      if env.salt == None then Unwritten(s, t) && Refused(t, c, HashFailed)
      else if exists u :: u in s.db.users && s.db.users[u].email == req.email
      then Unwritten(s, t) && Refused(t, c, Db(UniqueViolation))
      else if req.approvedId.value !in s.db.approved then Unwritten(s, t) && Refused(t, c, Db(ForeignKeyViolation))
      else
        var u, hash := env.ids[0], Hash(BcryptKey(req.password), env.salt.value);
        && u in t.db.users && t.calls[c].pc == LoadCache(u)
        && StoredUser(t.db.users[u], req.approvedId.value, req.email, hash, env.now)
        && t.db == s.db.(users := s.db.users[u := t.db.users[u]], issued := t.db.issued)
        && t.log == s.log + [Logged(c, UserInserted(u, req.email, req.approvedId.value))]
  {
    hide Valid, NewIds, BcryptKey;
    assert Local(s.db, s.calls[c].req, s.calls[c].pc);
  }

  /** The last step of a registration gives the role and the token, unless a deletion has
      taken the account. */
  lemma RoleIsGiven(s: Sys, c: nat, env: Env)
    requires Inv(s) && Enabled(s, Exec(c, env)) && s.calls[c].pc.AssignDefault?
    ensures var t, req, u, r := Step(s, Exec(c, env)), s.calls[c].req, s.calls[c].pc.user, s.calls[c].pc.role;
      && req.Register? && IsUserRole(s.db, r)
      && (if u !in s.db.users then Unwritten(s, t) && Refused(t, c, Db(ForeignKeyViolation))
          else
            && t.calls[c].pc == Done(Issued(Token(u, req.email, env.now + env.ttl)))
            && t.db == s.db.(userRoles := s.db.userRoles[(u, r) := env.now])
            && t.log == s.log + [Logged(c, RoleAssigned(u, r))])
  {
    hide NewIds, Valid;
    assert Local(s.db, s.calls[c].req, s.calls[c].pc);
    RolesReferTo(s.db);
    assert (s.calls[c].pc.user, s.calls[c].pc.role) !in s.db.userRoles;
  }

  lemma RolesReferTo(db: Tables)
    requires Valid(db)
    ensures UserRolesFk(db.userRoles, db.users, db.roles)
  {
  }

  /** In between, the role comes from the cache or is looked up and cached; without one the
      token is handed out as it is. */
  lemma RoleIsFound(s: Sys, c: nat, env: Env)
    requires Inv(s) && Enabled(s, Exec(c, env))
    requires s.calls[c].pc.LoadCache? || s.calls[c].pc.LookupRole? || s.calls[c].pc.StoreCache?
    ensures var t, req, pc := Step(s, Exec(c, env)), s.calls[c].req, s.calls[c].pc;
      && req.Register? && Unwritten(s, t)
      && (match pc
          case LoadCache(u) =>
            && t.cache == s.cache
            && t.calls[c].pc == if s.cache.Some? then AssignDefault(u, s.cache.value) else LookupRole(u)
          case LookupRole(u) =>
            && t.cache == s.cache
            && (if exists r :: IsUserRole(s.db, r)
                then t.calls[c].pc.StoreCache? && t.calls[c].pc.user == u && IsUserRole(s.db, t.calls[c].pc.role)
                else t.calls[c].pc == Done(Issued(Token(u, req.email, env.now + env.ttl))))
          case StoreCache(u, r) => t.cache == Some(r) && t.calls[c].pc == AssignDefault(u, r)
          case _ => true)
  {
    hide Valid, NewIds;
    assert Local(s.db, s.calls[c].req, s.calls[c].pc);
    RoleByNameMeaning(s.db);
  }

  /** The cache is filled at start-up if the role is there, and left alone if it is filled. */
  lemma CacheIsFilled(s: Sys, c: nat, env: Env)
    requires Inv(s) && Enabled(s, Exec(c, env)) && s.calls[c].req.InitRoles?
    ensures var t, pc := Step(s, Exec(c, env)), s.calls[c].pc;
      && Unwritten(s, t)
      && (match pc
          case Start => t.cache == s.cache && t.calls[c].pc == if s.cache.Some? then Done(Finished) else InitLookup
          case InitLookup =>
            && t.cache == s.cache
            && (if exists r :: IsUserRole(s.db, r)
                then t.calls[c].pc.InitStore? && IsUserRole(s.db, t.calls[c].pc.role)
                else Refused(t, c, UserNotFound))
          case InitStore(r) => t.cache == Some(r) && t.calls[c].pc == Done(Finished)
          case _ => true)
  {
    hide Valid, NewIds;
    RoleByNameMeaning(s.db);
  }

  /** The calls that read answer from the tables as they are, and leave them so. */
  lemma AnswersAreRead(s: Sys, c: nat, env: Env)
    requires Inv(s) && Enabled(s, Exec(c, env)) && ReadOnly(s.calls[c].req) && s.calls[c].pc.Start?
    ensures var t, db := Step(s, Exec(c, env)), s.db;
      && Unwritten(s, t) && t.calls[c].pc.Done?
      && var answer := t.calls[c].pc.response;
      match s.calls[c].req
      case ListTodos(user) =>
        && answer.Todos?
        && (forall id :: id in answer.todos <==> id in db.todos && db.todos[id].userId == user)
        && (forall id :: id in answer.todos ==> answer.todos[id] == db.todos[id])
      case GetTodo(todo, user) =>
        if todo !in db.todos then Refused(t, c, TodoNotFound)
        else if db.todos[todo].userId != user then Refused(t, c, TodoNotOwned)
        else answer == Todo(todo, db.todos[todo])
      case Login(email, password) =>
        && (answer.Issued? || answer == Failed(InvalidCredentials))
        && (answer.Issued? <==> exists u :: LogsIn(db.users, u, email, password))
        && (answer.Issued? ==> LogsIn(db.users, answer.token.userId, email, password))
        && (answer.Issued? ==> answer.token == Token(answer.token.userId, email, env.now + env.ttl))
      case WhoAmI(token) =>
        if token == None || env.now >= token.value.exp then answer == Failed(InvalidCredentials)
        else if token.value.userId !in db.users then answer == Failed(UserNotFound)
        else if !db.users[token.value.userId].isActive then answer == Failed(InvalidCredentials)
        else answer == Known(token.value.userId, db.users[token.value.userId])
      case _ => true
  {
    hide Valid, NewIds, BcryptKey, LoginAnswer, LogsIn;
    UniqueAccounts(s.db);
    if s.calls[c].req.Login? { LoginExactly(s.db, s.calls[c].req.email, s.calls[c].req.password, env); }
  }

  lemma LoginExactly(db: Tables, email: string, password: string, env: Env)
    requires UsersUnique(db.users)
    ensures var answer := LoginAnswer(db, email, password, env);
      && (answer.Issued? || answer == Failed(InvalidCredentials))
      && (answer.Issued? <==> exists u :: LogsIn(db.users, u, email, password))
      && (answer.Issued? ==> LogsIn(db.users, answer.token.userId, email, password))
      && (answer.Issued? ==> answer.token == Token(answer.token.userId, email, env.now + env.ttl))
  {
    hide BcryptKey;
    var answer := LoginAnswer(db, email, password, env);
    if answer.Issued? { assert LogsIn(db.users, answer.token.userId, email, password); }
  }

  lemma UniqueAccounts(db: Tables)
    requires Valid(db)
    ensures UsersUnique(db.users)
  {
  }

  // -------- a deleted todo --------

  /** Every finished deletion has left nothing under its id. */
  ghost predicate DropsDone(s: Sys)
  {
    forall c :: c in s.calls && s.calls[c].req.DropTodo? && s.calls[c].pc == Done(Finished) ==>
      s.calls[c].req.todo in s.db.issued && s.calls[c].req.todo !in s.db.todos
  }

  lemma StepDropsDone(s: Sys, a: Action)
    requires Inv(s) && Enabled(s, a) && DropsDone(s)
    ensures DropsDone(Step(s, a))
  {
    hide Inv, Next, NewIds, Evolves;
    var t := Step(s, a);
    StepKeeps(s, a);
    forall c | c in t.calls && t.calls[c].req.DropTodo? && t.calls[c].pc == Done(Finished)
      ensures t.calls[c].req.todo in t.db.issued && t.calls[c].req.todo !in t.db.todos
    {
      TodoStaysGone(s.db, t.db, t.calls[c].req.todo);
      if a.Exec? && a.call == c { DropEnds(s, c, a.env); }
    }
  }

  lemma TodoStaysGone(db: Tables, next: Tables, todo: Id)
    requires Evolves(db, next)
    ensures todo in db.issued ==> todo in next.issued && (todo !in db.todos ==> todo !in next.todos)
  {
  }

  lemma DropEnds(s: Sys, c: nat, env: Env)
    requires Inv(s) && Enabled(s, Exec(c, env)) && s.calls[c].req.DropTodo?
    ensures var t := Step(s, Exec(c, env));
      t.calls[c].pc == Done(Finished) ==> s.calls[c].req.todo in s.db.issued && s.calls[c].req.todo !in t.db.todos
  {
    hide Valid, NewIds;
    assert Local(s.db, s.calls[c].req, s.calls[c].pc);
  }

  lemma {:induction false} RunDropsDone(s: Sys, run: seq<Action>)
    requires Inv(s) && ValidRun(s, run) && DropsDone(s)
    ensures DropsDone(After(s, run))
    decreases |run|
  {
    hide Inv, Step, Enabled, DropsDone, Evolves;
    if run != [] {
      StepKeeps(s, run[0]);
      StepDropsDone(s, run[0]);
      RunDropsDone(Step(s, run[0]), run[1..]);
    }
  }

  /** Once a deletion has been answered with success its todo is nowhere, then and in every
      continuation. */
  lemma DeletedStaysDeleted(s: Sys, run: seq<Action>, c: nat)
    requires Initial(s) && ValidRun(s, run)
    requires var t := After(s, run); c in t.calls && t.calls[c].req.DropTodo? && t.calls[c].pc == Done(Finished)
    ensures After(s, run).calls[c].req.todo !in After(s, run).db.todos
  {
    RunDropsDone(s, run);
  }
}
