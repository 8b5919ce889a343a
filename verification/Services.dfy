/** The service calls as programs: one SQL statement, or one access to the cached role id,
    per step, with nothing held between steps. */
module Services {
  import opened Options
  import opened Schema
  import opened Statements
  import opened Bulk
  import opened Passwords

  /** A signed token; nobody else can make one. It is good before `exp`. */
  datatype Token = Token(userId: Id, email: string, exp: Time)

  /** A None where the caller's text did not parse, or the signature did not verify. */
  datatype Request =
    | InitRoles
    | Register(email: string, password: string, approvedId: Option<Id>)
    | Login(email: string, password: string)
    | WhoAmI(token: Option<Token>)
    | Approve(email: string, firstName: string, createdBy: Id)
    | ApproveMany(emails: seq<string>, firstNames: seq<string>, createdBy: Id)
    | Disapprove(id: Id)
    | ListTodos(user: Id)
    | GetTodo(todo: Id, user: Id)
    | CreateTodo(user: Id, title: string, description: Option<string>, dueDate: Option<Time>)
    | PatchTodo(todo: Id, user: Id, patch: Patch)
    | DropTodo(todo: Id, user: Id)

  datatype Error =
    | InvalidCredentials | UserNotFound | UserAlreadyExists | ApprovedEmailExists | ApprovedUserNotFound
    | InvalidInput | TodoNotFound | TodoNotOwned | InvalidTodoParams | HashFailed | Db(cause: DbError)

  datatype Response =
    | Failed(error: Error)
    | Issued(token: Token)
    | Known(user: Id, row: UserRow)
    | Approvals(rows: seq<ApprovedRow>)
    | Todo(id: Id, todo: TodoRow)
    | Todos(todos: map<Id, TodoRow>)
    | Finished

  /** Where a call is, with the locals it still needs. */
  datatype Pc =
    | Start
    | CheckEmail
    | HashAndInsert
    | LoadCache(user: Id)
    | LookupRole(user: Id)
    | StoreCache(user: Id, role: Id)
    | AssignDefault(user: Id, role: Id)
    | InitLookup
    | InitStore(role: Id)
    | InsertApproval
    | WriteTodo
    | Done(response: Response)

  /** What a step takes from outside: the clock, the ids the database would generate,
      bcrypt's salt (None when it refuses the password), the configured token lifetime. */
  datatype Env = Env(now: Time, ids: seq<Id>, salt: Option<nat>, ttl: nat)

  /** What a step wrote, for the record. */
  datatype Op =
    | UserInserted(id: Id, email: string, approvedId: Id)
    | RoleAssigned(user: Id, role: Id)
    | ApprovedInserted(createdBy: Id)
    | ApprovedRemoved(id: Id, users: set<Id>)
    | TodoInserted(todo: Id, user: Id)
    | TodoPatched(todo: Id, user: Id, patch: Patch)
    | TodoRemoved(todo: Id, user: Id)

  datatype Effect = Effect(db: Tables, cache: Option<Id>, pc: Pc, op: Option<Op>)

  function IdsNeeded(req: Request): nat
  {
    match req
    case Register(_, _, _) => 1
    case Approve(_, _, _) => 1
    case ApproveMany(emails, _, _) => |emails|
    case CreateTodo(_, _, _, _) => 1
    case _ => 0
  }

  function MkToken(user: Id, email: string, env: Env): Token
  {
    Token(user, email, env.now + env.ttl)
  }

  ghost function RegisterStep(db: Tables, cache: Option<Id>, req: Request, pc: Pc, env: Env): Effect
    requires req.Register? && |env.ids| == 1
  {
    match pc
    case Start =>
      if req.approvedId == None then Effect(db, cache, Done(Failed(InvalidCredentials)), None)
      else if req.approvedId.value in db.approved then Effect(db, cache, CheckEmail, None)
      else Effect(db, cache, Done(Failed(UserNotFound)), None)
    case CheckEmail =>
      if UserEmailTaken(db.users, req.email) then Effect(db, cache, Done(Failed(UserAlreadyExists)), None)
      else Effect(db, cache, HashAndInsert, None)
    case HashAndInsert =>
      if env.salt == None then Effect(db, cache, Done(Failed(HashFailed)), None)
      else if req.approvedId == None then Effect(db, cache, pc, None)
      else
        var (db', r) := InsertUser(db, env.ids[0], env.now, req.approvedId.value, req.email,
            Hash(BcryptKey(req.password), env.salt.value));
        (match r
         case Err(e) => Effect(db', cache, Done(Failed(Db(e))), None)
         case Ok(_) => Effect(db', cache, LoadCache(env.ids[0]),
             Some(UserInserted(env.ids[0], req.email, req.approvedId.value))))
    case LoadCache(u) =>
      Effect(db, cache, if cache.Some? then AssignDefault(u, cache.value) else LookupRole(u), None)
    case LookupRole(u) =>
      (match RoleByName(db.roles, "user")
       case Some(r) => Effect(db, cache, StoreCache(u, r), None)
       case None => Effect(db, cache, Done(Issued(MkToken(u, req.email, env))), None))
    case StoreCache(u, r) =>
      Effect(db, Some(r), AssignDefault(u, r), None)
    case AssignDefault(u, r) =>
      var (db', res) := AssignRole(db, env.now, u, r);
      (match res
       case Err(e) => Effect(db', cache, Done(Failed(Db(e))), None)
       case Ok(_) => Effect(db', cache, Done(Issued(MkToken(u, req.email, env))), if db' == db then None
           else Some(RoleAssigned(u, r))))
    case _ => Effect(db, cache, pc, None)
  }

  ghost function InitStep(db: Tables, cache: Option<Id>, pc: Pc): Effect
  {
    match pc
    case Start => Effect(db, cache, if cache.Some? then Done(Finished) else InitLookup, None)
    case InitLookup =>
      (match RoleByName(db.roles, "user")
       case Some(r) => Effect(db, cache, InitStore(r), None)
       case None => Effect(db, cache, Done(Failed(UserNotFound)), None))
    case InitStore(r) => Effect(db, Some(r), Done(Finished), None)
    case _ => Effect(db, cache, pc, None)
  }

  ghost function LoginAnswer(db: Tables, email: string, password: string, env: Env): Response
  {
    match UserByEmail(db.users, email)
    case None => Failed(InvalidCredentials)
    case Some(u) =>
      if u !in db.users || !db.users[u].isActive || db.users[u].hash.key != BcryptKey(password)
          then Failed(InvalidCredentials)
      else Issued(MkToken(u, db.users[u].email, env))
  }

  predicate Active(users: map<Id, UserRow>, u: Id)
  {
    u in users && users[u].isActive
  }

  /** `u` is the active account under `email`, and bcrypt takes `password` for its own. */
  ghost predicate LogsIn(users: map<Id, UserRow>, u: Id, email: string, password: string)
  {
    Active(users, u) && users[u].email == email && users[u].hash.key == BcryptKey(password)
  }

  function WhoAmIAnswer(db: Tables, token: Option<Token>, now: Time): Response
  {
    match token
    case None => Failed(InvalidCredentials)
    case Some(t) =>
      if now >= t.exp then Failed(InvalidCredentials)
      else if t.userId !in db.users then Failed(UserNotFound)
      else if !db.users[t.userId].isActive then Failed(InvalidCredentials)
      else Known(t.userId, db.users[t.userId])
  }

  ghost function ApproveStep(db: Tables, cache: Option<Id>, email: string, firstName: string, createdBy: Id, pc: Pc,
      env: Env): Effect
    requires |env.ids| == 1
  {
    match pc
    case Start =>
      Effect(db, cache, if ApprovedEmailTaken(db.approved, email) then Done(Failed(ApprovedEmailExists))
          else InsertApproval, None)
    case InsertApproval =>
      var (db', r) := InsertApproved(db, env.ids[0], env.now, email, firstName, createdBy);
      (match r
       case Err(e) => Effect(db', cache, Done(Failed(Db(e))), None)
       case Ok(row) => Effect(db', cache, Done(Approvals([row])), Some(ApprovedInserted(createdBy))))
    case _ => Effect(db, cache, pc, None)
  }

  ghost function ApproveManyStep(db: Tables, cache: Option<Id>, emails: seq<string>, firstNames: seq<string>,
      createdBy: Id, pc: Pc, env: Env): Effect
    requires |env.ids| == |emails|
  {
    if !pc.Start? then Effect(db, cache, pc, None)
    else if |emails| != |firstNames| then Effect(db, cache, Done(Failed(InvalidInput)), None)
    else
      var (db', r) := InsertApprovedBulk(db, env.ids, env.now, emails, firstNames, createdBy);
      match r
      case Err(e) => Effect(db', cache, Done(Failed(Db(e))), None)
      case Ok(rows) => Effect(db', cache, Done(Approvals(rows)), if emails == [] then None
          else Some(ApprovedInserted(createdBy)))
  }

  ghost function DisapproveStep(db: Tables, cache: Option<Id>, id: Id, pc: Pc): Effect
  {
    if !pc.Start? then Effect(db, cache, pc, None)
    else
      var (db', rows) := DeleteApproved(db, id);
      if rows == 0 then Effect(db', cache, Done(Failed(ApprovedUserNotFound)), None)
      else Effect(db', cache, Done(Finished), Some(ApprovedRemoved(id, AccountsUnder(db, id))))
  }

  predicate TodoRequest(req: Request)
  {
    req.ListTodos? || req.GetTodo? || req.CreateTodo? || req.PatchTodo? || req.DropTodo?
  }

  /** Rows are handed out as a map; the list order is left open. */
  function OwnTodos(todos: map<Id, TodoRow>, user: Id): map<Id, TodoRow>
  {
    map t | t in todos && todos[t].userId == user :: todos[t]
  }

  function ReadTodo(db: Tables, todo: Id, user: Id): Response
  {
    if todo !in db.todos then Failed(TodoNotFound)
    else if db.todos[todo].userId != user then Failed(TodoNotOwned)
    else Todo(todo, db.todos[todo])
  }

  function CreateStep(db: Tables, cache: Option<Id>, user: Id, title: string, description: Option<string>,
      dueDate: Option<Time>, pc: Pc, env: Env): Effect
    requires |env.ids| == 1
  {
    if !pc.Start? then Effect(db, cache, pc, None)
    else if title == "" then Effect(db, cache, Done(Failed(InvalidTodoParams)), None)
    else
      var (db', r) := InsertTodo(db, env.ids[0], env.now, user, title, description, dueDate);
      match r
      case Err(e) => Effect(db', cache, Done(Failed(Db(e))), None)
      case Ok(row) => Effect(db', cache, Done(Todo(env.ids[0], row)), Some(TodoInserted(env.ids[0], user)))
  }

  function PatchStep(db: Tables, cache: Option<Id>, todo: Id, user: Id, patch: Patch, pc: Pc, env: Env): Effect
  {
    match pc
    case Start =>
      if patch.title == Some("") then Effect(db, cache, Done(Failed(InvalidTodoParams)), None)
      else
        var r := ReadTodo(db, todo, user);
        Effect(db, cache, if r.Failed? then Done(r) else WriteTodo, None)
    case WriteTodo =>
      var (db', r) := UpdateTodo(db, todo, env.now, patch);
      (match r
       case Err(e) => Effect(db', cache, Done(Failed(Db(e))), None)
       case Ok(row) => Effect(db', cache, Done(Todo(todo, row)), Some(TodoPatched(todo, user, patch))))
    case _ => Effect(db, cache, pc, None)
  }

  function DropStep(db: Tables, cache: Option<Id>, todo: Id, user: Id, pc: Pc): Effect
  {
    match pc
    case Start =>
      var r := ReadTodo(db, todo, user);
      Effect(db, cache, if r.Failed? then Done(r) else WriteTodo, None)
    case WriteTodo =>
      Effect(DeleteTodo(db, todo), cache, Done(Finished), if todo in db.todos then Some(TodoRemoved(todo, user))
          else None)
    case _ => Effect(db, cache, pc, None)
  }

  /** The calls that are one statement and change nothing. */
  ghost function Answer(db: Tables, req: Request, env: Env): Response
    requires ReadOnly(req)
  {
    match req
    case Login(email, password) => LoginAnswer(db, email, password, env)
    case WhoAmI(token) => WhoAmIAnswer(db, token, env.now)
    case ListTodos(user) => Todos(OwnTodos(db.todos, user))
    case GetTodo(todo, user) => ReadTodo(db, todo, user)
  }

  predicate ReadOnly(req: Request)
  {
    req.Login? || req.WhoAmI? || req.ListTodos? || req.GetTodo?
  }

  /** One step of any call. */
  ghost function Next(db: Tables, cache: Option<Id>, req: Request, pc: Pc, env: Env): Effect
    requires |env.ids| == IdsNeeded(req)
  {
    match req
    case InitRoles => InitStep(db, cache, pc)
    case Register(_, _, _) => RegisterStep(db, cache, req, pc, env)
    case Approve(email, firstName, createdBy) => ApproveStep(db, cache, email, firstName, createdBy, pc, env)
    case ApproveMany(emails, firstNames, createdBy) => ApproveManyStep(db, cache, emails, firstNames, createdBy, pc,
        env)
    case Disapprove(id) => DisapproveStep(db, cache, id, pc)
    case CreateTodo(user, title, description, dueDate) => CreateStep(db, cache, user, title, description, dueDate,
        pc, env)
    case PatchTodo(todo, user, patch) => PatchStep(db, cache, todo, user, patch, pc, env)
    case DropTodo(todo, user) => DropStep(db, cache, todo, user, pc)
    case _ => Effect(db, cache, if pc.Start? then Done(Answer(db, req, env)) else pc, None)
  }
}
