/** The tables as mutable state, with the referential actions carried out row by row as
    the foreign keys trigger them. */
module Database {
  import opened Options
  import opened Sequences
  import opened Schema
  import opened Statements
  import opened Bulk

  // What is left of the referencing tables when only the users in `keys` are left.

  ghost function TodosOf(todos: map<Id, TodoRow>, keys: set<Id>): map<Id, TodoRow>
  {
    map t | t in todos && todos[t].userId in keys :: todos[t]
  }

  ghost function RolesOf(userRoles: map<(Id, Id), Time>, keys: set<Id>): map<(Id, Id), Time>
  {
    map p | p in userRoles && p.0 in keys :: userRoles[p]
  }

  lemma TodosStep(todos: map<Id, TodoRow>, keys: set<Id>, u: Id)
    ensures var left := TodosOf(todos, keys);
      (map t | t in left && left[t].userId != u :: left[t]) == TodosOf(todos, keys - {u})
  {
  }

  lemma RolesStep(userRoles: map<(Id, Id), Time>, keys: set<Id>, u: Id)
    ensures var left := RolesOf(userRoles, keys);
      (map p | p in left && p.0 != u :: left[p]) == RolesOf(userRoles, keys - {u})
  {
  }

  lemma AllStay(todos: map<Id, TodoRow>, userRoles: map<(Id, Id), Time>, users: map<Id, UserRow>,
      roles: map<Id, RoleRow>)
    requires TodosFk(todos, users) && UserRolesFk(userRoles, users, roles)
    ensures todos == TodosOf(todos, users.Keys) && userRoles == RolesOf(userRoles, users.Keys)
  {
    forall p | p in userRoles ensures p.0 in users { assert (p.0, p.1) == p; }
  }

  /** Deleting row by row is the one statement. */
  lemma CascadeByTable(db: Tables, id: Id)
    requires TodosFk(db.todos, db.users) && UserRolesFk(db.userRoles, db.users, db.roles) && id in db.approved
    ensures var left := DeleteApproved(db, id).0;
      var without := db.approved - {id};
      && left.approved == (map a | a in without :: Orphaned(without[a], id))
      && left.users == (map u | u in db.users && db.users[u].approvedId != id :: db.users[u])
      && left.todos == TodosOf(db.todos, left.users.Keys)
      && left.userRoles == RolesOf(db.userRoles, left.users.Keys)
  {
    forall p | p in db.userRoles ensures p.0 in db.users { assert (p.0, p.1) == p; }
  }

  lemma InsertedStep(db: Tables, ids: seq<Id>, rows: seq<ApprovedRow>, i: nat)
    requires i < |ids| == |rows|
    ensures var stored := db.(approved := db.approved[ids[i] := rows[i]], issued := Issue(db.issued, ids[i]));
      Inserted(db, ids[i..], rows[i..]) == Inserted(stored, ids[i + 1..], rows[i + 1..])
  {
    assert ids[i..][1..] == ids[i + 1..] && rows[i..][1..] == rows[i + 1..];
  }

  lemma InsertedEnds(db: Tables, ids: seq<Id>, rows: seq<ApprovedRow>)
    requires |ids| == |rows|
    ensures Inserted(db, ids[0..], rows[0..]) == Inserted(db, ids, rows)
    ensures Inserted(db, ids[|ids|..], rows[|rows|..]) == db
  {
    assert ids[0..] == ids && rows[0..] == rows;
  }

  class Store {
    var approved: map<Id, ApprovedRow>
    var users: map<Id, UserRow>
    var roles: map<Id, RoleRow>
    var userRoles: map<(Id, Id), Time>
    var todos: map<Id, TodoRow>
    ghost var issued: map<Id, nat>

    ghost function Value(): Tables
      reads this
    {
      Tables(approved, users, roles, userRoles, todos, issued)
    }

    method UserEmailExists(email: string) returns (taken: bool)
      ensures taken == UserEmailTaken(users, email)
    {
      taken := exists u :: u in users && users[u].email == email;
    }

    method ApprovedEmailExists(email: string) returns (taken: bool)
      ensures taken == ApprovedEmailTaken(approved, email)
    {
      taken := exists a :: a in approved && approved[a].email == email;
    }

    method CreateUser(id: Id, now: Time, approvedId: Id, email: string, hash: Hash) returns (r: Result<UserRow>)
      modifies `users, `issued
      ensures (Value(), r) == InsertUser(old(Value()), id, now, approvedId, email, hash)
      ensures r == Err(UniqueViolation) <==> exists u :: u in old(users) && old(users)[u].email == email
      ensures r == Err(ForeignKeyViolation) <==> r != Err(UniqueViolation) && approvedId !in approved
      ensures r.Ok? <==> r != Err(UniqueViolation) && approvedId in approved
      ensures users == if r.Ok? then old(users)[id := r.value] else old(users)
      ensures r.Ok? ==> StoredUser(r.value, approvedId, email, hash, now)
    {
      var taken := UserEmailExists(email);
      if taken { return Err(UniqueViolation); }
      if approvedId !in approved { return Err(ForeignKeyViolation); }
      var row := UserRow(approvedId, email, hash, true, now, now);
      users := users[id := row];
      issued := Issue(issued, id);
      r := Ok(row);
    }

    method CreateApproved(id: Id, now: Time, email: string, firstName: string, createdBy: Id)
        returns (r: Result<ApprovedRow>)
      modifies `approved, `issued
      ensures (Value(), r) == InsertApproved(old(Value()), id, now, email, firstName, createdBy)
      ensures r == Err(UniqueViolation) <==> exists a :: a in old(approved) && old(approved)[a].email == email
      ensures r == Err(ForeignKeyViolation) <==> r != Err(UniqueViolation) && createdBy !in old(approved)
      ensures r.Ok? <==> r != Err(UniqueViolation) && createdBy in old(approved)
      ensures approved == if r.Ok? then old(approved)[id := r.value] else old(approved)
      ensures r.Ok? ==> StoredApproval(r.value, email, firstName, createdBy, now)
    {
      var taken := ApprovedEmailExists(email);
      if taken { return Err(UniqueViolation); }
      if createdBy !in approved { return Err(ForeignKeyViolation); }
      var row := ApprovedRow(email, firstName, Some(createdBy), now, now);
      approved := approved[id := row];
      issued := Issue(issued, id);
      r := Ok(row);
    }

    /** One INSERT over the unnested arrays: every row is checked before any is stored. */
    method CreateApprovedMany(ids: seq<Id>, now: Time, emails: seq<string>, firstNames: seq<string>,
        createdBys: array<Id>, ghost createdBy: Id)
      returns (r: Result<seq<ApprovedRow>>)
      requires |ids| == |emails| == |firstNames| == createdBys.Length
      requires forall i :: 0 <= i < createdBys.Length ==> createdBys[i] == createdBy
      modifies `approved, `issued
      ensures (Value(), r) == InsertApprovedBulk(old(Value()), ids, now, emails, firstNames, createdBy)
    {
      hide ApprovedEmailTaken, Inserted, BulkRows;
      for i := 0 to |emails|
        invariant Value() == old(Value())
        invariant forall j, k :: 0 <= j < k < i ==> emails[j] != emails[k]
        invariant forall j :: 0 <= j < i ==> !ApprovedEmailTaken(approved, emails[j])
      {
        var taken := ApprovedEmailExists(emails[i]);
        if taken {
          assert ApprovedEmailTaken(approved, emails[i]);
          return Err(UniqueViolation);
        }
        if emails[i] in emails[..i] {
          ghost var j :| 0 <= j < i && emails[j] == emails[i];
          assert !Distinct(emails);
          return Err(UniqueViolation);
        }
      }
      for i := 0 to createdBys.Length
        invariant Value() == old(Value())
        invariant forall j :: 0 <= j < i ==> createdBys[j] in approved
      {
        if createdBys[i] !in approved { return Err(ForeignKeyViolation); }
      }
      if createdBys.Length > 0 { assert createdBys[0] in approved; }
      var rows := StoreRows(ids, now, emails, firstNames, createdBys, createdBy);
      r := Ok(rows);
    }

    method StoreRows(ids: seq<Id>, now: Time, emails: seq<string>, firstNames: seq<string>, createdBys: array<Id>,
        ghost createdBy: Id)
      returns (rows: seq<ApprovedRow>)
      requires |ids| == |emails| == |firstNames| == createdBys.Length
      requires forall i :: 0 <= i < createdBys.Length ==> createdBys[i] == createdBy
      modifies `approved, `issued
      ensures rows == BulkRows(NowForEach(now, |emails|), emails, firstNames, createdBy)
      ensures Value() == Inserted(old(Value()), ids, rows)
    {
      hide Inserted;
      ghost var all := BulkRows(NowForEach(now, |emails|), emails, firstNames, createdBy);
      rows := [];
      InsertedEnds(old(Value()), ids, all);
      for i := 0 to |ids|
        invariant rows == all[..i]
        invariant Inserted(Value(), ids[i..], all[i..]) == Inserted(old(Value()), ids, all)
      {
        var row := ApprovedRow(emails[i], firstNames[i], Some(createdBys[i]), now, now);
        InsertedStep(Value(), ids, all, i);
        approved := approved[ids[i] := row];
        issued := Issue(issued, ids[i]);
        rows := rows + [row];
      }
      InsertedEnds(Value(), ids, all);
    }

    /** The e-mail is unique, so at most one row matches. */
    method UserWithEmail(email: string) returns (r: Option<Id>)
      requires UsersUnique(users)
      ensures r == UserByEmail(users, email)
    {
      if exists u :: u in users && users[u].email == email {
        var u :| u in users && users[u].email == email;
        r := Some(u);
      } else {
        r := None;
      }
    }

    /** The name is unique, so at most one row matches. */
    method RoleNamed(name: string) returns (r: Option<Id>)
      requires RolesUnique(roles)
      ensures r == RoleByName(roles, name)
      ensures r.Some? ==> r.value in roles && roles[r.value].name == name
      ensures r == None ==> forall x :: x in roles ==> roles[x].name != name
    {
      if exists x :: x in roles && roles[x].name == name {
        var x :| x in roles && roles[x].name == name;
        r := Some(x);
      } else {
        r := None;
      }
    }

    method GiveRole(now: Time, user: Id, role: Id) returns (r: Result<()>)
      modifies `userRoles
      ensures (Value(), r) == AssignRole(old(Value()), now, user, role)
      ensures r.Ok? <==> (user, role) in userRoles
      ensures userRoles.Keys == old(userRoles).Keys + if r.Ok? then {(user, role)} else {}
      ensures forall p :: p in old(userRoles) ==> userRoles[p] == old(userRoles)[p]
      ensures r.Ok? && (user, role) !in old(userRoles) ==> userRoles[(user, role)] == now
      ensures r.Err? ==> r == Err(ForeignKeyViolation)
      ensures UserRolesFk(old(userRoles), users, roles) ==> (r.Ok? <==> user in users && role in roles)
      ensures UserRolesFk(old(userRoles), users, roles) ==> UserRolesFk(userRoles, users, roles)
    {
      if (user, role) in userRoles { return Ok(()); }
      if user !in users || role !in roles { return Err(ForeignKeyViolation); }
      userRoles := userRoles[(user, role) := now];
      r := Ok(());
    }

    method PutTodo(id: Id, now: Time, user: Id, title: string, description: Option<string>, dueDate: Option<Time>)
        returns (r: Result<TodoRow>)
      modifies `todos, `issued
      ensures (Value(), r) == InsertTodo(old(Value()), id, now, user, title, description, dueDate)
      ensures if user in users then r.Ok? else r == Err(ForeignKeyViolation)
      ensures todos == if r.Ok? then old(todos)[id := r.value] else old(todos)
      ensures r.Ok? ==> StoredTodo(r.value, user, title, description, dueDate, now)
    {
      if user !in users { return Err(ForeignKeyViolation); }
      var row := TodoRow(user, title, description, false, dueDate, now, now);
      todos := todos[id := row];
      issued := Issue(issued, id);
      r := Ok(row);
    }

    /** SET each column to COALESCE of the argument and itself. */
    method SetTodo(id: Id, now: Time, p: Patch) returns (r: Result<TodoRow>)
      modifies `todos
      ensures (Value(), r) == UpdateTodo(old(Value()), id, now, p)
      ensures if id in old(todos) then r.Ok? else r == Err(NoRows)
      ensures todos == if r.Ok? then old(todos)[id := r.value] else old(todos)
      ensures r.Ok? ==> UpdatedTodo(old(todos)[id], r.value, p, now)
    {
      if id !in todos { return Err(NoRows); }
      var row := todos[id];
      if p.title.Some? { row := row.(title := p.title.value); }
      if p.description.Some? { row := row.(description := p.description); }
      if p.isCompleted.Some? { row := row.(isCompleted := p.isCompleted.value); }
      if p.dueDate.Some? { row := row.(dueDate := p.dueDate); }
      row := row.(updatedAt := now);
      todos := todos[id := row];
      r := Ok(row);
    }

    method RemoveTodo(id: Id)
      modifies `todos
      ensures Value() == DeleteTodo(old(Value()), id)
      ensures id !in todos
      ensures forall t :: t in old(todos) && t != id ==> t in todos && todos[t] == old(todos)[t]
      ensures forall t :: t in todos ==> t in old(todos)
    {
      todos := todos - {id};
    }

    method RemoveTodosOf(u: Id)
      modifies `todos
      ensures todos == map t | t in old(todos) && old(todos)[t].userId != u :: old(todos)[t]
    {
      var rows := todos.Keys;
      while rows != {}
        invariant rows <= old(todos).Keys
        invariant todos == map t | t in old(todos) && (t in rows || old(todos)[t].userId != u) :: old(todos)[t]
        decreases rows
      {
        var t :| t in rows;
        if todos[t].userId == u { todos := todos - {t}; }
        rows := rows - {t};
      }
    }

    method RemoveRolesOf(u: Id)
      modifies `userRoles
      ensures userRoles == map p | p in old(userRoles) && p.0 != u :: old(userRoles)[p]
    {
      var rows := userRoles.Keys;
      while rows != {}
        invariant rows <= old(userRoles).Keys
        invariant userRoles == map p | p in old(userRoles) && (p in rows || p.0 != u) :: old(userRoles)[p]
        decreases rows
      {
        var p :| p in rows;
        if p.0 == u { userRoles := userRoles - {p}; }
        rows := rows - {p};
      }
    }

    /** A users row goes, and with it every row that references it. */
    method RemoveUser(u: Id)
      modifies `users, `userRoles, `todos
      ensures users == old(users) - {u}
      ensures todos == map t | t in old(todos) && old(todos)[t].userId != u :: old(todos)[t]
      ensures userRoles == map p | p in old(userRoles) && p.0 != u :: old(userRoles)[p]
    {
      users := users - {u};
      RemoveTodosOf(u);
      RemoveRolesOf(u);
    }

    /** ON DELETE SET NULL on created_by. */
    method ClearCreatedBy(id: Id)
      modifies `approved
      ensures approved == map a | a in old(approved) :: Orphaned(old(approved)[a], id)
    {
      var rows := approved.Keys;
      while rows != {}
        invariant rows <= old(approved).Keys == approved.Keys
        invariant forall a :: a in approved ==>
          approved[a] == if a in rows then old(approved)[a] else Orphaned(old(approved)[a], id)
        decreases rows
      {
        var a :| a in rows;
        if approved[a].createdBy == Some(id) { approved := approved[a := approved[a].(createdBy := None)]; }
        rows := rows - {a};
      }
    }

    /** DELETE FROM approved_users WHERE id = $1, with everything it sets off. */
    method DeleteApprovedRow(id: Id) returns (rows: nat)
      requires UsersFk(users, approved) && TodosFk(todos, users) && UserRolesFk(userRoles, users, roles)
      modifies `approved, `users, `userRoles, `todos
      ensures (Value(), rows) == DeleteApproved(old(Value()), id)
    {
      if id !in approved {
        return 0;
      }
      ghost var db := Value();
      CascadeByTable(db, id);
      approved := approved - {id};
      ClearCreatedBy(id);
      RemoveUsersUnder(id);
      ghost var left := DeleteApproved(db, id).0;
      assert approved == left.approved && users == left.users && issued == left.issued && roles == left.roles;
      rows := 1;
    }

    /** ON DELETE CASCADE from users to approved_users, one row at a time. */
    method RemoveUsersUnder(id: Id)
      requires TodosFk(todos, users) && UserRolesFk(userRoles, users, roles)
      modifies `users, `userRoles, `todos
      ensures users == map u | u in old(users) && old(users)[u].approvedId != id :: old(users)[u]
      ensures todos == TodosOf(old(todos), users.Keys)
      ensures userRoles == RolesOf(old(userRoles), users.Keys)
    {
      var us := users.Keys;
      AllStay(todos, userRoles, users, roles);
      while us != {}
        invariant us <= users.Keys <= old(users).Keys
        invariant forall u :: u in users ==> users[u] == old(users)[u] && (u in us || users[u].approvedId != id)
        invariant forall u :: u in old(users) && old(users)[u].approvedId != id ==> u in users
        invariant todos == TodosOf(old(todos), users.Keys)
        invariant userRoles == RolesOf(old(userRoles), users.Keys)
        decreases us
      {
        var u :| u in us;
        if users[u].approvedId == id {
          TodosStep(old(todos), users.Keys, u);
          RolesStep(old(userRoles), users.Keys, u);
          ghost var keys := users.Keys;
          RemoveUser(u);
          assert users.Keys == keys - {u};
        }
        us := us - {u};
      }
    }
  }

  // -------- exactly what had to go --------

  /** `part` keeps some of `whole`'s rows as they are, except that it may forget who
      approved whom. */
  ghost predicate Within(part: Tables, whole: Tables)
  {
    && (forall a :: a in part.approved ==> a in whole.approved)
    && (forall a :: a in part.approved ==>
          part.approved[a] == whole.approved[a] || part.approved[a] == whole.approved[a].(createdBy := None))
    && (forall u :: u in part.users ==> u in whole.users && part.users[u] == whole.users[u])
    && (forall p :: p in part.userRoles ==> p in whole.userRoles && part.userRoles[p] == whole.userRoles[p])
    && (forall t :: t in part.todos ==> t in whole.todos && part.todos[t] == whole.todos[t])
    && part.roles == whole.roles
  }

  /** The cascade is exact. What it leaves is sound and lacks the row, and anything sound
      that lacks the row and deletes from the same tables fits inside what it leaves: it
      took nothing that could have stayed. */
  lemma CascadeIsExact(db: Tables, id: Id)
    requires ForeignKeys(db)
    ensures var left := DeleteApproved(db, id).0;
      && ForeignKeys(left) && id !in left.approved && Within(left, db)
      && forall part :: ForeignKeys(part) && Within(part, db) && id !in part.approved ==> Within(part, left)
  {
    var left := DeleteApproved(db, id).0;
    forall part | ForeignKeys(part) && Within(part, db) && id !in part.approved
      ensures Within(part, left)
    {
      NothingMoreGoes(db, part, id);
    }
    StillSound(db, id);
  }

  lemma StillSound(db: Tables, id: Id)
    requires ForeignKeys(db)
    ensures ForeignKeys(DeleteApproved(db, id).0)
  {
  }

  lemma NothingMoreGoes(db: Tables, part: Tables, id: Id)
    requires ForeignKeys(part) && Within(part, db) && id !in part.approved
    ensures Within(part, DeleteApproved(db, id).0)
  {
    var left := DeleteApproved(db, id).0;
    forall u | u in part.users ensures u in left.users && part.users[u] == left.users[u] {
      assert part.users[u].approvedId in part.approved;
    }
    forall p | p in part.userRoles ensures p in left.userRoles && part.userRoles[p] == left.userRoles[p] {
      assert (p.0, p.1) == p;
    }
  }

  /** The rows that go, table by table; nothing else is touched. */
  lemma CascadeRows(db: Tables, id: Id)
    requires Valid(db) && id in db.approved
    ensures var left := DeleteApproved(db, id).0;
      && left.approved.Keys == db.approved.Keys - {id}
      && (forall u :: u in db.users ==> (u !in left.users <==> db.users[u].approvedId == id))
      && (forall u, r :: (u, r) in db.userRoles ==> ((u, r) !in left.userRoles <==> db.users[u].approvedId == id))
      && (forall t :: t in db.todos ==> (t !in left.todos <==> db.users[db.todos[t].userId].approvedId == id))
      && (forall a :: a in left.approved ==>
            left.approved[a] == db.approved[a].(createdBy := if db.approved[a].createdBy == Some(id) then None
                else db.approved[a].createdBy))
      && Within(left, db)
  {
  }
}
