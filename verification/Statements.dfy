/** The SQL statements the services issue, each one atomic. A generated id is a parameter;
    callers pass one that was never issued, which is what gen_random_uuid() is taken to
    promise. */
module Statements {
  import opened Options
  import opened Schema

  datatype DbError = UniqueViolation | ForeignKeyViolation | NoRows
  datatype Result<+T> = Ok(value: T) | Err(error: DbError)

  // -------- approved_users --------

  ghost predicate ApprovedEmailTaken(approved: map<Id, ApprovedRow>, email: string)
  {
    exists a :: a in approved && approved[a].email == email
  }

  ghost function InsertApproved(db: Tables, id: Id, now: Time, email: string, firstName: string,
      createdBy: Id): (Tables, Result<ApprovedRow>)
  {
    if ApprovedEmailTaken(db.approved, email) then (db, Err(UniqueViolation))
    else if createdBy !in db.approved then (db, Err(ForeignKeyViolation))
    else
      var row := ApprovedRow(email, firstName, Some(createdBy), now, now);
      (db.(approved := db.approved[id := row], issued := Issue(db.issued, id)), Ok(row))
  }

  /** DELETE with its cascades, and the number of rows matched. */
  ghost function DeleteApproved(db: Tables, id: Id): (Tables, nat)
  {
    if id !in db.approved then (db, 0) else
      (Tables(
        map a | a in db.approved && a != id :: Orphaned(db.approved[a], id),
        map u | u in db.users && db.users[u].approvedId != id :: db.users[u],
        db.roles,
        map p | p in db.userRoles && !Bound(db, p.0, id) :: db.userRoles[p],
        map t | t in db.todos && !Bound(db, db.todos[t].userId, id) :: db.todos[t],
        db.issued), 1)
  }

  /** ON DELETE SET NULL. */
  function Orphaned(row: ApprovedRow, id: Id): ApprovedRow
  {
    if row.createdBy == Some(id) then row.(createdBy := None) else row
  }

  /** `u` is an account under the approved row `id`. */
  predicate Bound(db: Tables, u: Id, id: Id)
  {
    u in db.users && db.users[u].approvedId == id
  }

  /** The accounts a deletion of `id` removes. */
  function AccountsUnder(db: Tables, id: Id): set<Id>
  {
    set u | u in db.users && db.users[u].approvedId == id
  }

  // -------- users and roles --------

  ghost predicate UserEmailTaken(users: map<Id, UserRow>, email: string)
  {
    exists u :: u in users && users[u].email == email
  }

  ghost function UserByEmail(users: map<Id, UserRow>, email: string): Option<Id>
  {
    if u :| u in users && users[u].email == email then Some(u) else None
  }

  ghost function InsertUser(db: Tables, id: Id, now: Time, approvedId: Id, email: string, hash: Hash): (Tables,
      Result<UserRow>)
  {
    if UserEmailTaken(db.users, email) then (db, Err(UniqueViolation))
    else if approvedId !in db.approved then (db, Err(ForeignKeyViolation))
    else
      var row := UserRow(approvedId, email, hash, true, now, now);
      (db.(users := db.users[id := row], issued := Issue(db.issued, id)), Ok(row))
  }

  ghost function RoleByName(roles: map<Id, RoleRow>, name: string): Option<Id>
  {
    if r :| r in roles && roles[r].name == name then Some(r) else None
  }

  /** INSERT ... ON CONFLICT DO NOTHING: a row that exists is left as it is. */
  ghost function AssignRole(db: Tables, now: Time, user: Id, role: Id): (Tables, Result<()>)
  {
    if (user, role) in db.userRoles then (db, Ok(()))
    else if user !in db.users || role !in db.roles then (db, Err(ForeignKeyViolation))
    else (db.(userRoles := db.userRoles[(user, role) := now]), Ok(()))
  }

  // -------- todos --------

  /** The columns a PATCH may name; None leaves the column as it is. */
  datatype Patch = Patch(title: Option<string>, description: Option<string>, isCompleted: Option<bool>,
      dueDate: Option<Time>)

  function InsertTodo(db: Tables, id: Id, now: Time, user: Id, title: string, description: Option<string>,
      dueDate: Option<Time>): (Tables, Result<TodoRow>)
  {
    if user !in db.users then (db, Err(ForeignKeyViolation))
    else
      var row := TodoRow(user, title, description, false, dueDate, now, now);
      (db.(todos := db.todos[id := row], issued := Issue(db.issued, id)), Ok(row))
  }

  function Patched(row: TodoRow, p: Patch, now: Time): TodoRow
  {
    row.(title := Coalesce(p.title, row.title),
         description := if p.description.Some? then p.description else row.description,
         isCompleted := Coalesce(p.isCompleted, row.isCompleted),
         dueDate := if p.dueDate.Some? then p.dueDate else row.dueDate,
         updatedAt := now)
  }

  function UpdateTodo(db: Tables, id: Id, now: Time, p: Patch): (Tables, Result<TodoRow>)
  {
    if id !in db.todos then (db, Err(NoRows))
    else
      var row := Patched(db.todos[id], p, now);
      (db.(todos := db.todos[id := row]), Ok(row))
  }

  function DeleteTodo(db: Tables, id: Id): Tables
  {
    db.(todos := db.todos - {id})
  }

  // -------- what a stored row holds, column by column --------

  ghost predicate StoredApproval(row: ApprovedRow, email: string, firstName: string, createdBy: Id, now: Time)
  {
    && row.email == email && row.firstName == firstName && row.createdBy == Some(createdBy)
    && row.createdAt == now && row.updatedAt == now
  }

  ghost predicate StoredUser(row: UserRow, approvedId: Id, email: string, hash: Hash, now: Time)
  {
    && row.approvedId == approvedId && row.email == email && row.hash == hash && row.isActive
    && row.createdAt == now && row.updatedAt == now
  }

  ghost predicate StoredTodo(row: TodoRow, user: Id, title: string, description: Option<string>,
      dueDate: Option<Time>, now: Time)
  {
    && row.userId == user && row.title == title && row.description == description && row.dueDate == dueDate
    && !row.isCompleted && row.createdAt == now && row.updatedAt == now
  }

  /** Each column the patch names has its value, each other its old one. */
  ghost predicate UpdatedTodo(was: TodoRow, row: TodoRow, p: Patch, now: Time)
  {
    && (if p.title.Some? then row.title == p.title.value else row.title == was.title)
    && (if p.description.Some? then row.description == p.description else row.description == was.description)
    && (if p.isCompleted.Some? then row.isCompleted == p.isCompleted.value else row.isCompleted == was.isCompleted)
    && (if p.dueDate.Some? then row.dueDate == p.dueDate else row.dueDate == was.dueDate)
    && row.userId == was.userId && row.createdAt == was.createdAt && row.updatedAt == now
  }

  // -------- every statement keeps the schema and moves time on --------

  function Issue(issued: map<Id, nat>, id: Id): map<Id, nat>
  {
    issued[id := |issued|]
  }

  /** A new id is the youngest, and ages no other id. */
  lemma IssueKeeps(db: Tables, id: Id)
    requires Valid(db) && id !in db.issued
    ensures var issued := Issue(db.issued, id);
      && KeysIssued(db.approved, issued) && KeysIssued(db.users, issued)
      && KeysIssued(db.roles, issued) && KeysIssued(db.todos, issued)
      && Numbered(issued) && CreatedByOlder(db.approved, issued)
  {
    var issued := Issue(db.issued, id);
    NumberedStill(db.issued, id);
    KeysStill(db.approved, db.issued, id);
    KeysStill(db.users, db.issued, id);
    KeysStill(db.roles, db.issued, id);
    KeysStill(db.todos, db.issued, id);
    OlderStill(db.approved, db.issued, id);
  }

  lemma NumberedStill(issued: map<Id, nat>, id: Id)
    requires Numbered(issued) && id !in issued
    ensures Numbered(Issue(issued, id))
  {
    assert |Issue(issued, id)| == |issued| + 1;
  }

  lemma KeysStill<R>(table: map<Id, R>, issued: map<Id, nat>, id: Id)
    requires KeysIssued(table, issued)
    ensures KeysIssued(table, Issue(issued, id))
  {
  }

  lemma OlderStill(approved: map<Id, ApprovedRow>, issued: map<Id, nat>, id: Id)
    requires CreatedByOlder(approved, issued) && KeysIssued(approved, issued) && ApprovedFk(approved) && id !in issued
    ensures CreatedByOlder(approved, Issue(issued, id))
  {
  }

  lemma AddApproved(approved: map<Id, ApprovedRow>, issued: map<Id, nat>, id: Id, row: ApprovedRow)
    requires ApprovedFk(approved) && ApprovedUnique(approved) && KeysIssued(approved, issued)
    requires CreatedByOlder(approved, issued) && Numbered(issued) && id !in issued
    requires row.createdBy.Some? ==> row.createdBy.value in approved
    requires forall a :: a in approved ==> approved[a].email != row.email
    ensures var approved' := approved[id := row];
      && ApprovedFk(approved') && ApprovedUnique(approved')
      && KeysIssued(approved', Issue(issued, id)) && CreatedByOlder(approved', Issue(issued, id))
  {
    OlderStill(approved, issued, id);
  }

  lemma InsertApprovedEvolves(db: Tables, id: Id, now: Time, email: string, firstName: string, createdBy: Id)
    requires id !in db.issued
    ensures Evolves(db, InsertApproved(db, id, now, email, firstName, createdBy).0)
  {
  }

  lemma InsertApprovedKeeps(db: Tables, id: Id, now: Time, email: string, firstName: string, createdBy: Id)
    requires Valid(db) && id !in db.issued
    ensures var db' := InsertApproved(db, id, now, email, firstName, createdBy).0; Valid(db') && Evolves(db, db')
  {
    var (db', r) := InsertApproved(db, id, now, email, firstName, createdBy);
    InsertApprovedEvolves(db, id, now, email, firstName, createdBy);
    if r.Ok? {
      IssueKeeps(db, id);
      AddApproved(db.approved, db.issued, id, r.value);
    }
  }

  lemma AddUser(users: map<Id, UserRow>, approved: map<Id, ApprovedRow>, id: Id, row: UserRow)
    requires UsersFk(users, approved) && UsersUnique(users) && row.approvedId in approved
    requires forall u :: u in users ==> users[u].email != row.email
    ensures UsersFk(users[id := row], approved) && UsersUnique(users[id := row])
  {
  }

  lemma AddTodo(todos: map<Id, TodoRow>, users: map<Id, UserRow>, id: Id, row: TodoRow)
    requires TodosFk(todos, users) && Titled(todos) && row.userId in users && row.title != ""
    ensures TodosFk(todos[id := row], users) && Titled(todos[id := row])
  {
  }

  lemma InsertUserEvolves(db: Tables, id: Id, now: Time, approvedId: Id, email: string, hash: Hash)
    requires id !in db.issued
    ensures Evolves(db, InsertUser(db, id, now, approvedId, email, hash).0)
  {
  }

  lemma InsertUserKeeps(db: Tables, id: Id, now: Time, approvedId: Id, email: string, hash: Hash)
    requires Valid(db) && id !in db.issued
    ensures var db' := InsertUser(db, id, now, approvedId, email, hash).0; Valid(db') && Evolves(db, db')
  {
    var (db', r) := InsertUser(db, id, now, approvedId, email, hash);
    InsertUserEvolves(db, id, now, approvedId, email, hash);
    if r.Ok? {
      IssueKeeps(db, id);
      AddUser(db.users, db.approved, id, r.value);
    }
  }

  lemma AssignRoleEvolves(db: Tables, now: Time, user: Id, role: Id)
    ensures Evolves(db, AssignRole(db, now, user, role).0)
  {
  }

  lemma AssignRoleKeeps(db: Tables, now: Time, user: Id, role: Id)
    requires Valid(db)
    ensures var db' := AssignRole(db, now, user, role).0; Valid(db') && Evolves(db, db')
  {
    AssignRoleEvolves(db, now, user, role);
    assert UserRolesFk(AssignRole(db, now, user, role).0.userRoles, db.users, db.roles);
  }

  lemma InsertTodoEvolves(db: Tables, id: Id, now: Time, user: Id, title: string, description: Option<string>,
      dueDate: Option<Time>)
    requires id !in db.issued
    ensures Evolves(db, InsertTodo(db, id, now, user, title, description, dueDate).0)
  {
  }

  lemma InsertTodoKeeps(db: Tables, id: Id, now: Time, user: Id, title: string, description: Option<string>,
      dueDate: Option<Time>)
    requires Valid(db) && id !in db.issued && title != ""
    ensures var db' := InsertTodo(db, id, now, user, title, description, dueDate).0; Valid(db') && Evolves(db, db')
  {
    var (db', r) := InsertTodo(db, id, now, user, title, description, dueDate);
    InsertTodoEvolves(db, id, now, user, title, description, dueDate);
    if r.Ok? {
      IssueKeeps(db, id);
      AddTodo(db.todos, db.users, id, r.value);
    }
  }

  lemma UpdateTodoEvolves(db: Tables, id: Id, now: Time, p: Patch)
    ensures Evolves(db, UpdateTodo(db, id, now, p).0)
  {
  }

  lemma UpdateTodoKeeps(db: Tables, id: Id, now: Time, p: Patch)
    requires Valid(db) && p.title != Some("")
    ensures var db' := UpdateTodo(db, id, now, p).0; Valid(db') && Evolves(db, db')
  {
    UpdateTodoEvolves(db, id, now, p);
    if id in db.todos {
      AddTodo(db.todos, db.users, id, Patched(db.todos[id], p, now));
    }
  }

  lemma DeleteTodoEvolves(db: Tables, id: Id)
    ensures Evolves(db, DeleteTodo(db, id))
  {
  }

  lemma DeleteTodoKeeps(db: Tables, id: Id)
    requires Valid(db)
    ensures Valid(DeleteTodo(db, id)) && Evolves(db, DeleteTodo(db, id))
  {
    DeleteTodoEvolves(db, id);
  }

  lemma DeleteApprovedEvolves(db: Tables, id: Id)
    ensures Evolves(db, DeleteApproved(db, id).0)
  {
  }

  lemma CascadeKeeps(db: Tables, id: Id)
    requires ForeignKeys(db) && CreatedByOlder(db.approved, db.issued)
    ensures var db' := DeleteApproved(db, id).0; ForeignKeys(db') && CreatedByOlder(db'.approved, db'.issued)
  {
  }

  lemma CascadeShrinks(db: Tables, id: Id)
    requires UniqueKeys(db) && IdsIssued(db) && Titled(db.todos)
    ensures var db' := DeleteApproved(db, id).0; UniqueKeys(db') && IdsIssued(db') && Titled(db'.todos)
  {
  }

  lemma DeleteApprovedKeeps(db: Tables, id: Id)
    requires Valid(db)
    ensures var db' := DeleteApproved(db, id).0; Valid(db') && Evolves(db, db')
  {
    DeleteApprovedEvolves(db, id);
    CascadeKeeps(db, id);
    CascadeShrinks(db, id);
  }
}
