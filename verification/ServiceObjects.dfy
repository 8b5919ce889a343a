/** The services as objects, each method straight through from its first statement to its
    last. With nobody else about, it does what the interleaved program does. */
module ServiceObjects {
  import opened Options
  import opened Schema
  import opened Statements
  import opened Bulk
  import opened Passwords
  import opened Services
  import opened Isolation
  import opened Solo
  import opened Answers
  import opened Sequences
  import Database

  /** The token is its account's until `exp`, and worthless from then on. */
  ghost predicate GoodUntil(db: Tables, token: Token, exp: Time)
    requires token.userId in db.users
  {
    && (forall now :: now < exp ==> WhoAmIAnswer(db, Some(token), now) == Known(token.userId, db.users[token.userId]))
    && (forall now :: now >= exp ==> WhoAmIAnswer(db, Some(token), now) == Failed(InvalidCredentials))
  }

  /** What a registration needs: a parsed id of an existing approval, a free e-mail and a
      password bcrypt takes. */
  ghost predicate Admitted(approved: map<Id, ApprovedRow>, users: map<Id, UserRow>, email: string,
      approvedId: Option<Id>, salt: Option<nat>)
  {
    && approvedId.Some? && approvedId.value in approved && salt.Some?
    && forall u :: u in users ==> users[u].email != email
  }

  /** The rows of the role named "user", given to `user`. */
  ghost function DefaultRoles(roles: map<Id, RoleRow>, user: Id): set<(Id, Id)>
  {
    set r | r in roles && roles[r].name == "user" :: (user, r)
  }

  class AuthService {
    const store: Database.Store
    var defaultUserRoleId: Option<Id>
    const ttl: nat

    constructor (store: Database.Store, ttl: nat)
      ensures this.store == store && this.ttl == ttl && defaultUserRoleId == None
    {
      this.store := store;
      this.ttl := ttl;
      defaultUserRoleId := None;
    }

    /** The cache is unset or right, and the role rows refer to what is there. */
    ghost predicate Sound()
      reads this, store
    {
      && RolesUnique(store.roles) && UserRolesFk(store.userRoles, store.users, store.roles)
      && (defaultUserRoleId.Some? ==>
            defaultUserRoleId.value in store.roles && store.roles[defaultUserRoleId.value].name == "user")
    }

    /** The role id from the cache, or looked up once and cached, given to the account. */
    method AssignDefaultRole(user: Id, now: Time) returns (r: Result<()>)
      requires RolesUnique(store.roles)
      modifies this`defaultUserRoleId, store`userRoles
      ensures var had := old(defaultUserRoleId);
        var cache := if had.Some? then had else RoleByName(store.roles, "user");
        && defaultUserRoleId == cache
        && (store.Value(), r) == if cache.Some? then AssignRole(old(store.Value()), now, user, cache.value)
            else (old(store.Value()), Ok(()))
      ensures old(Sound()) ==> Sound()
      ensures old(Sound()) && user in store.users ==>
        r.Ok? && store.userRoles.Keys == old(store.userRoles).Keys + DefaultRoles(store.roles, user)
      ensures forall p :: p in old(store.userRoles) ==> p in store.userRoles
      ensures forall p :: p in old(store.userRoles) ==> store.userRoles[p] == old(store.userRoles)[p]
    {
      var role := defaultUserRoleId;
      if role == None {
        role := store.RoleNamed("user");
        if role.Some? { defaultUserRoleId := role; }
      }
      if role == None { return Ok(()); }
      r := store.GiveRole(now, user, role.value);
    }

    method Register(email: string, password: string, approvedId: Option<Id>, env: Env) returns (response: Response)
      requires |env.ids| == 1 && env.ttl == ttl && RolesUnique(store.roles)
      modifies this`defaultUserRoleId, store`users, store`issued, store`userRoles
      ensures Final(store.Value(), defaultUserRoleId, Done(response))
           == Alone(old(store.Value()), old(defaultUserRoleId), Services.Register(email, password, approvedId),
               Start, env)
      ensures response == Failed(InvalidCredentials) <==> approvedId == None
      ensures response == Failed(UserNotFound) <==> approvedId.Some? && approvedId.value !in store.approved
      ensures response == Failed(UserAlreadyExists) <==>
        (approvedId.Some? && approvedId.value in store.approved
         && exists u :: u in old(store.users) && old(store.users)[u].email == email)
      ensures response == Failed(HashFailed) <==>
        Admitted(store.approved, old(store.users), email, approvedId, Some(0)) && env.salt == None
      ensures !Admitted(store.approved, old(store.users), email, approvedId, env.salt) ==>
        response.Failed? && store.Value() == old(store.Value()) && defaultUserRoleId == old(defaultUserRoleId)
      ensures Admitted(store.approved, old(store.users), email, approvedId, env.salt) ==>
        && env.ids[0] in store.users
        && store.users == old(store.users)[env.ids[0] := store.users[env.ids[0]]]
        && StoredUser(store.users[env.ids[0]], approvedId.value, email,
             Hash(BcryptKey(password), env.salt.value), env.now)
      ensures old(Sound()) && Admitted(store.approved, old(store.users), email, approvedId, env.salt) ==>
        && response == Issued(Token(env.ids[0], email, env.now + ttl))
        && store.userRoles.Keys == old(store.userRoles).Keys + DefaultRoles(store.roles, env.ids[0])
        && Sound()
      ensures forall p :: p in old(store.userRoles) ==> p in store.userRoles
      ensures forall p :: p in old(store.userRoles) ==> store.userRoles[p] == old(store.userRoles)[p]
    {
      hide Alone, BcryptKey, AssignRole, RoleByName, DefaultRoles, InsertUser;
      ghost var req := Services.Register(email, password, approvedId);
      ghost var cache := defaultUserRoleId;
      RegisterAlone(store.Value(), cache, req, env);
      if approvedId == None { return Failed(InvalidCredentials); }
      if approvedId.value !in store.approved { return Failed(UserNotFound); }
      var taken := store.UserEmailExists(email);
      if taken { return Failed(UserAlreadyExists); }
      if env.salt == None { return Failed(HashFailed); }
      var user := env.ids[0];
      var created := store.CreateUser(user, env.now, approvedId.value, email,
          Hash(BcryptKey(password), env.salt.value));
      AssignAlone(store.Value(), cache, req, user, env);
      match created
      case Err(e) => response := Failed(Db(e));
      case Ok(_) =>
        var given := AssignDefaultRole(user, env.now);
        response := match given case Err(e) => Failed(Db(e)) case Ok(_) => Issued(MkToken(user, email, env));
    }

    /** The token that comes back is accepted as its account's until it expires. */
    method Login(email: string, password: string, env: Env) returns (response: Response)
      requires UsersUnique(store.users)
      ensures response == LoginAnswer(store.Value(), email, password, env)
      ensures (exists u :: LogsIn(store.users, u, email, password)) <==> response.Issued?
      ensures response.Issued? ==> LogsIn(store.users, response.token.userId, email, password)
      ensures response.Issued? ==> GoodUntil(store.Value(), response.token, env.now + env.ttl)
      ensures !response.Issued? ==> response == Failed(InvalidCredentials)
    {
      hide BcryptKey;
      var found := store.UserWithEmail(email);
      if found == None { return Failed(InvalidCredentials); }
      var user := store.users[found.value];
      if !user.isActive { return Failed(InvalidCredentials); }
      if user.hash.key != BcryptKey(password) { return Failed(InvalidCredentials); }
      response := Issued(MkToken(found.value, user.email, env));
      assert LogsIn(store.users, found.value, email, password);
    }

    /** A token that does not verify or has expired is no token. */
    method GetUserFromToken(token: Option<Token>, now: Time) returns (response: Response)
      ensures response == WhoAmIAnswer(store.Value(), token, now)
      ensures response.Known? <==> token.Some? && now < token.value.exp && Active(store.users, token.value.userId)
      ensures response.Known? ==> response.user == token.value.userId && response.row == store.users[response.user]
      ensures !response.Known? ==> response == Failed(UserNotFound) || response == Failed(InvalidCredentials)
    {
      if token == None || now >= token.value.exp { return Failed(InvalidCredentials); }
      var id := token.value.userId;
      if id !in store.users { return Failed(UserNotFound); }
      var user := store.users[id];
      if !user.isActive { return Failed(InvalidCredentials); }
      response := Known(id, user);
    }

    method InitDefaultRoles(env: Env) returns (response: Response)
      requires env.ids == [] && RolesUnique(store.roles)
      modifies this`defaultUserRoleId
      ensures Final(store.Value(), defaultUserRoleId, Done(response))
           == Alone(old(store.Value()), old(defaultUserRoleId), InitRoles, Start, env)
      ensures response == Finished || response == Failed(UserNotFound)
      ensures response == Finished <==>
        old(defaultUserRoleId).Some? || exists r :: r in store.roles && store.roles[r].name == "user"
      ensures response == Finished <==> defaultUserRoleId.Some?
      ensures old(defaultUserRoleId).Some? ==> defaultUserRoleId == old(defaultUserRoleId)
      ensures old(Sound()) ==> Sound()
    {
      ghost var db, cache := store.Value(), defaultUserRoleId;
      Unfold(db, cache, InitRoles, Start, env);
      if defaultUserRoleId.Some? { return Finished; }
      Unfold(db, cache, InitRoles, InitLookup, env);
      var role := store.RoleNamed("user");
      if role == None { return Failed(UserNotFound); }
      Unfold(db, cache, InitRoles, InitStore(role.value), env);
      defaultUserRoleId := role;
      response := Finished;
    }

    method CreateApprovedUser(email: string, firstName: string, createdBy: Id, env: Env) returns (response: Response)
      requires |env.ids| == 1
      modifies store`approved, store`issued
      ensures Final(store.Value(), defaultUserRoleId, Done(response))
           == Alone(old(store.Value()), defaultUserRoleId, Approve(email, firstName, createdBy), Start, env)
      ensures response == Failed(ApprovedEmailExists) <==>
        exists a :: a in old(store.approved) && old(store.approved)[a].email == email
      ensures response.Approvals? <==> response != Failed(ApprovedEmailExists) && createdBy in old(store.approved)
      ensures response.Approvals? ==>
        && |response.rows| == 1 && StoredApproval(response.rows[0], email, firstName, createdBy, env.now)
        && store.approved == old(store.approved)[env.ids[0] := response.rows[0]]
      ensures !response.Approvals? ==> store.Value() == old(store.Value())
      ensures response.Failed? ==> response.error == ApprovedEmailExists || response.error == Db(ForeignKeyViolation)
      ensures response.Failed? || response.Approvals?
    {
      ghost var req := Approve(email, firstName, createdBy);
      ghost var db, cache := store.Value(), defaultUserRoleId;
      Unfold(db, cache, req, Start, env);
      var taken := store.ApprovedEmailExists(email);
      if taken { return Failed(ApprovedEmailExists); }
      Unfold(db, cache, req, InsertApproval, env);
      var r := store.CreateApproved(env.ids[0], env.now, email, firstName, createdBy);
      response := match r case Err(e) => Failed(Db(e)) case Ok(row) => Approvals([row]);
    }

    method BulkCreateApprovedUsers(emails: seq<string>, firstNames: seq<string>, createdBy: Id, env: Env)
        returns (response: Response)
      requires |env.ids| == |emails|
      modifies store`approved, store`issued
      ensures Final(store.Value(), defaultUserRoleId, Done(response))
           == Alone(old(store.Value()), defaultUserRoleId, ApproveMany(emails, firstNames, createdBy), Start, env)
      ensures response == Failed(InvalidInput) <==> |emails| != |firstNames|
      ensures response.Approvals? <==>
        (|emails| == |firstNames| && NewEmails(old(store.approved), emails)
         && (emails == [] || createdBy in old(store.approved)))
      ensures |emails| == |firstNames| && !response.Approvals? ==>
        response == Failed(Db(if NewEmails(old(store.approved), emails) then ForeignKeyViolation else UniqueViolation))
      ensures response.Approvals? && old(NewIds(store.Value(), env.ids) && KeysIssued(store.approved, store.issued)) ==>
        ApprovalsStored(old(store.approved), store.approved, env.ids, response.rows)
      ensures response.Approvals? ==>
        |response.rows| == |emails| && forall i :: 0 <= i < |emails| ==>
          StoredApproval(response.rows[i], emails[i], firstNames[i], createdBy, env.now)
      ensures !response.Approvals? ==> store.Value() == old(store.Value())
    {
      hide InsertApprovedBulk;
      Unfold(store.Value(), defaultUserRoleId, ApproveMany(emails, firstNames, createdBy), Start, env);
      if |emails| != |firstNames| { return Failed(InvalidInput); }
      var column := CreatedByColumn(emails, createdBy);
      var r := store.CreateApprovedMany(env.ids, env.now, emails, firstNames, column, createdBy);
      response := match r case Err(e) => Failed(Db(e)) case Ok(rows) => Approvals(rows);
      BulkMeaning(old(store.Value()), env.ids, env.now, emails, firstNames, createdBy);
    }

    method DeleteApprovedUser(id: Id, env: Env) returns (response: Response)
      requires env.ids == [] && Valid(store.Value())
      modifies store`approved, store`users, store`userRoles, store`todos
      ensures Final(store.Value(), defaultUserRoleId, Done(response))
           == Alone(old(store.Value()), defaultUserRoleId, Disapprove(id), Start, env)
      ensures response == if id in old(store.approved) then Finished else Failed(ApprovedUserNotFound)
      ensures response.Failed? ==> store.Value() == old(store.Value())
      ensures response == Finished ==> Disapproved(old(store.Value()), store.Value(), id)
    {
      if id in store.approved { CascadeGone(store.Value(), id); }
      Unfold(store.Value(), defaultUserRoleId, Disapprove(id), Start, env);
      var rows := store.DeleteApprovedRow(id);
      response := if rows == 0 then Failed(ApprovedUserNotFound) else Finished;
    }
  }

  class TodoService {
    const store: Database.Store

    constructor (store: Database.Store)
      ensures this.store == store
    {
      this.store := store;
    }

    /** Listed is what can be had one by one, in the same state. */
    method ListByUserID(user: Id) returns (todos: map<Id, TodoRow>)
      ensures forall t :: t in todos <==> ReadTodo(store.Value(), t, user).Todo?
      ensures forall t :: t in todos ==> ReadTodo(store.Value(), t, user) == Todo(t, todos[t])
    {
      todos := map t | t in store.todos && store.todos[t].userId == user :: store.todos[t];
    }

    /** The caller's own todo; nobody can tell on the wire one that is somebody else's
        from one that is not there. */
    method GetByID(todo: Id, user: Id) returns (response: Response)
      ensures response == ReadTodo(store.Value(), todo, user)
      ensures response.Todo? <==> todo in store.todos && store.todos[todo].userId == user
      ensures response.Todo? ==> response.id == todo && response.todo == store.todos[todo]
      ensures !response.Todo? ==> Answered(GetTodo(todo, user), response) == Http(404, None)
    {
      if todo !in store.todos { return Failed(TodoNotFound); }
      if store.todos[todo].userId != user { return Failed(TodoNotOwned); }
      response := Todo(todo, store.todos[todo]);
    }

    method Create(user: Id, title: string, description: Option<string>, dueDate: Option<Time>, env: Env)
        returns (response: Response)
      requires |env.ids| == 1
      modifies store`todos, store`issued
      ensures Final(store.Value(), None, Done(response))
           == Alone(old(store.Value()), None, CreateTodo(user, title, description, dueDate), Start, env)
      ensures response.Todo? <==> title != "" && user in store.users
      ensures response.Todo? ==>
        && response.id == env.ids[0] && store.todos == old(store.todos)[env.ids[0] := response.todo]
        && StoredTodo(response.todo, user, title, description, dueDate, env.now)
      ensures !response.Todo? ==>
        && response == Failed(if title == "" then InvalidTodoParams else Db(ForeignKeyViolation))
        && store.Value() == old(store.Value())
    {
      Unfold(store.Value(), None, CreateTodo(user, title, description, dueDate), Start, env);
      if title == "" { return Failed(InvalidTodoParams); }
      var r := store.PutTodo(env.ids[0], env.now, user, title, description, dueDate);
      response := match r case Err(e) => Failed(Db(e)) case Ok(row) => Todo(env.ids[0], row);
    }

    method Update(todo: Id, user: Id, patch: Patch, env: Env) returns (response: Response)
      requires env.ids == []
      modifies store`todos
      ensures Final(store.Value(), None, Done(response)) == Alone(old(store.Value()), None,
          PatchTodo(todo, user, patch), Start, env)
      ensures response.Todo? <==>
        patch.title != Some("") && todo in old(store.todos) && old(store.todos)[todo].userId == user
      ensures response.Todo? ==>
        && response.id == todo && store.todos == old(store.todos)[todo := response.todo]
        && UpdatedTodo(old(store.todos)[todo], response.todo, patch, env.now)
      ensures !response.Todo? ==> store.todos == old(store.todos)
      ensures !response.Todo? ==> response == Failed(
          if patch.title == Some("") then InvalidTodoParams
          else if todo in old(store.todos) then TodoNotOwned
          else TodoNotFound)
    {
      ghost var req, db := PatchTodo(todo, user, patch), store.Value();
      Unfold(db, None, req, Start, env);
      if patch.title == Some("") { return Failed(InvalidTodoParams); }
      var existing := GetByID(todo, user);
      if existing.Failed? { return existing; }
      Unfold(db, None, req, WriteTodo, env);
      var r := store.SetTodo(todo, env.now, patch);
      response := match r case Err(e) => Failed(Db(e)) case Ok(row) => Todo(todo, row);
    }

    method Delete(todo: Id, user: Id, env: Env) returns (response: Response)
      requires env.ids == []
      modifies store`todos
      ensures Final(store.Value(), None, Done(response)) == Alone(old(store.Value()), None, DropTodo(todo, user),
          Start, env)
      ensures response == Finished <==> todo in old(store.todos) && old(store.todos)[todo].userId == user
      ensures response == Finished ==>
        && store.todos.Keys == old(store.todos).Keys - {todo}
        && forall t :: t in store.todos ==> store.todos[t] == old(store.todos)[t]
      ensures response != Finished ==> store.todos == old(store.todos)
      ensures response != Finished ==>
        response == Failed(if todo in old(store.todos) then TodoNotOwned else TodoNotFound)
    {
      ghost var req, db := DropTodo(todo, user), store.Value();
      Unfold(db, None, req, Start, env);
      var existing := GetByID(todo, user);
      if existing.Failed? { return existing; }
      Unfold(db, None, req, WriteTodo, env);
      store.RemoveTodo(todo);
      response := Finished;
    }
  }
}
