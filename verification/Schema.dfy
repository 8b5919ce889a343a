/** The five tables and what their constraints say of every state. */
module Schema {
  import opened Options

  /** A UUID. */
  type Id = nat
  type Time = int

  /** What bcrypt keeps of a password: the key it made of it, and its salt. */
  datatype Hash = Hash(key: string, salt: nat)

  datatype ApprovedRow = ApprovedRow(email: string, firstName: string, createdBy: Option<Id>, createdAt: Time,
      updatedAt: Time)
  datatype UserRow = UserRow(approvedId: Id, email: string, hash: Hash, isActive: bool, createdAt: Time,
      updatedAt: Time)
  datatype RoleRow = RoleRow(name: string, description: Option<string>, createdAt: Time)
  datatype TodoRow = TodoRow(userId: Id, title: string, description: Option<string>, isCompleted: bool,
      dueDate: Option<Time>, createdAt: Time, updatedAt: Time)

  /** `issued` are the row ids handed out so far, each with its place in issue order. */
  datatype Tables = Tables(
    approved: map<Id, ApprovedRow>,
    users: map<Id, UserRow>,
    roles: map<Id, RoleRow>,
    userRoles: map<(Id, Id), Time>,
    todos: map<Id, TodoRow>,
    issued: map<Id, nat>)

  // The constraints, each over the tables it is about.

  ghost predicate ApprovedFk(approved: map<Id, ApprovedRow>)
  {
    forall a {:trigger approved[a].createdBy} :: a in approved && approved[a].createdBy.Some? ==>
      approved[a].createdBy.value in approved
  }

  ghost predicate UsersFk(users: map<Id, UserRow>, approved: map<Id, ApprovedRow>)
  {
    forall u :: u in users ==> users[u].approvedId in approved
  }

  ghost predicate UserRolesFk(userRoles: map<(Id, Id), Time>, users: map<Id, UserRow>, roles: map<Id, RoleRow>)
  {
    forall u, r :: (u, r) in userRoles ==> u in users && r in roles
  }

  ghost predicate TodosFk(todos: map<Id, TodoRow>, users: map<Id, UserRow>)
  {
    forall t :: t in todos ==> todos[t].userId in users
  }

  ghost predicate ApprovedUnique(approved: map<Id, ApprovedRow>)
  {
    forall a, b :: a in approved && b in approved && approved[a].email == approved[b].email ==> a == b
  }

  ghost predicate UsersUnique(users: map<Id, UserRow>)
  {
    forall a, b :: a in users && b in users && users[a].email == users[b].email ==> a == b
  }

  ghost predicate RolesUnique(roles: map<Id, RoleRow>)
  {
    forall a, b :: a in roles && b in roles && roles[a].name == roles[b].name ==> a == b
  }

  /** Kept by the services, not by the schema. */
  ghost predicate Titled(todos: map<Id, TodoRow>)
  {
    forall t :: t in todos ==> todos[t].title != ""
  }

  ghost predicate KeysIssued<R>(table: map<Id, R>, issued: map<Id, nat>)
  {
    forall id :: id in table ==> id in issued
  }

  ghost predicate Numbered(issued: map<Id, nat>)
  {
    forall id :: id in issued ==> issued[id] < |issued|
  }

  /** Issue order is a measure that `createdBy` goes down: approvals cannot be cyclic. */
  ghost predicate CreatedByOlder(approved: map<Id, ApprovedRow>, issued: map<Id, nat>)
  {
    forall a {:trigger approved[a].createdBy} :: a in approved && approved[a].createdBy.Some? ==>
      Age(issued, approved[a].createdBy.value) < Age(issued, a)
  }

  ghost function Age(issued: map<Id, nat>, id: Id): nat
  {
    if id in issued then issued[id] else 0
  }

  ghost predicate ForeignKeys(db: Tables)
  {
    && ApprovedFk(db.approved) && UsersFk(db.users, db.approved)
    && UserRolesFk(db.userRoles, db.users, db.roles) && TodosFk(db.todos, db.users)
  }

  ghost predicate UniqueKeys(db: Tables)
  {
    ApprovedUnique(db.approved) && UsersUnique(db.users) && RolesUnique(db.roles)
  }

  ghost predicate IdsIssued(db: Tables)
  {
    && KeysIssued(db.approved, db.issued) && KeysIssued(db.users, db.issued)
    && KeysIssued(db.roles, db.issued) && KeysIssued(db.todos, db.issued)
    && Numbered(db.issued)
  }

  ghost predicate Valid(db: Tables)
  {
    && ForeignKeys(db) && UniqueKeys(db) && Titled(db.todos) && IdsIssued(db)
    && CreatedByOlder(db.approved, db.issued)
  }

  // -------- time only moves on --------

  /** What any sequence of the services' statements does to the tables: ids already issued
      stay issued, a row that is gone stays gone, a row that stays keeps its identity, and
      a new row has a new id. */
  ghost predicate Evolves(db: Tables, next: Tables)
  {
    && IssuedGrows(db.issued, next.issued)
    && next.roles == db.roles
    && ApprovedEvolve(db.approved, next.approved, db.issued)
    && UsersEvolve(db.users, next.users, db.issued)
    && TodosEvolve(db.todos, next.todos, db.issued)
  }

  ghost predicate IssuedGrows(issued: map<Id, nat>, next: map<Id, nat>)
  {
    forall id :: id in issued ==> id in next && next[id] == issued[id]
  }

  ghost predicate ApprovedEvolve(table: map<Id, ApprovedRow>, next: map<Id, ApprovedRow>, issued: map<Id, nat>)
  {
    forall a :: a in next && a in issued ==>
      a in table && next[a].email == table[a].email
      && (next[a].createdBy == table[a].createdBy || next[a].createdBy == None)
  }

  ghost predicate UsersEvolve(table: map<Id, UserRow>, next: map<Id, UserRow>, issued: map<Id, nat>)
  {
    forall u :: u in next && u in issued ==> u in table && next[u] == table[u]
  }

  ghost predicate TodosEvolve(table: map<Id, TodoRow>, next: map<Id, TodoRow>, issued: map<Id, nat>)
  {
    forall t :: t in next && t in issued ==> t in table && next[t].userId == table[t].userId
  }

  lemma EvolvesTransitive(a: Tables, b: Tables, c: Tables)
    requires Evolves(a, b) && Evolves(b, c)
    ensures Evolves(a, c)
  {
  }

  // -------- approval chains --------

  /** Who approved `a`, who approved them, and so on, starting with `a` itself. */
  ghost function Approvers(db: Tables, a: Id): seq<Id>
    requires Valid(db) && a in db.approved
    decreases Age(db.issued, a)
  {
    match db.approved[a].createdBy
    case None => [a]
    case Some(b) => [a] + Approvers(db, b)
  }

  /** Every chain of approvals is finite, never repeats an id, follows `createdBy` at each
      link, and ends at a row nobody is recorded to have approved. */
  lemma {:induction false} ApproversReachRoot(db: Tables, a: Id)
    requires Valid(db) && a in db.approved
    ensures var chain := Approvers(db, a);
      && |chain| > 0 && chain[0] == a
      && (forall i :: 0 <= i < |chain| ==> chain[i] in db.approved && Age(db.issued, chain[i]) <= Age(db.issued, a))
      && (forall i :: 0 <= i < |chain| - 1 ==> db.approved[chain[i]].createdBy == Some(chain[i + 1]))
      && (forall i, j :: 0 <= i < j < |chain| ==> chain[i] != chain[j])
      && db.approved[chain[|chain| - 1]].createdBy == None
    decreases Age(db.issued, a)
  {
    match db.approved[a].createdBy
    case None =>
    case Some(b) =>
      ApproversReachRoot(db, b);
      assert Approvers(db, a)[1..] == Approvers(db, b);
      forall i, j | 0 <= i < j < |Approvers(db, a)|
        ensures Approvers(db, a)[i] != Approvers(db, a)[j]
      {
        assert Approvers(db, a)[j] == Approvers(db, b)[j - 1];
      }
  }
}
