/** The authentication middleware reads a user, the role names and the approval in one
    query; the same user can be put together from three. */
module Aggregate {
  import opened Options
  import opened Schema
  import opened Sequences

  /** The database's collation. */
  type Collation = (string, string) -> bool

  ghost predicate TotalOrder(leq: Collation)
  {
    && (forall a, b :: leq(a, b) || leq(b, a))
    && (forall a, b :: leq(a, b) && leq(b, a) ==> a == b)
    && (forall a, b, c :: leq(a, b) && leq(b, c) ==> leq(a, c))
  }

  ghost predicate Ordered(leq: Collation, xs: seq<string>)
  {
    forall i, j :: 0 <= i < j < |xs| ==> leq(xs[i], xs[j])
  }

  // -------- what the queries return --------

  function RoleIds(db: Tables, u: Id): set<Id>
  {
    set r | r in db.roles && (u, r) in db.userRoles
  }

  /** Each joined row once, in some order. */
  ghost predicate Enumerates(rows: seq<Id>, ids: set<Id>)
  {
    Distinct(rows) && forall r :: r in rows <==> r in ids
  }

  function Names(roles: map<Id, RoleRow>, rows: seq<Id>): (names: seq<string>)
    requires forall k :: 0 <= k < |rows| ==> rows[k] in roles
    ensures |names| == |rows| && forall k :: 0 <= k < |rows| ==> names[k] == roles[rows[k]].name
  {
    seq(|rows|, k requires 0 <= k < |rows| => roles[rows[k]].name)
  }

  /** The roles query, ORDER BY r.name. */
  ghost predicate RolesQuery(leq: Collation, db: Tables, u: Id, rows: seq<Id>)
  {
    && Enumerates(rows, RoleIds(db, u))
    && (forall k :: 0 <= k < |rows| ==> rows[k] in db.roles)
    && Ordered(leq, Names(db.roles, rows))
  }

  /** array_agg(r.name ORDER BY r.name), over its own scan of the join; '{}' when empty. */
  ghost predicate NamesQuery(leq: Collation, db: Tables, u: Id, names: seq<string>)
  {
    && Ordered(leq, names)
    && exists scan :: Enumerates(scan, RoleIds(db, u)) && (forall k :: 0 <= k < |scan| ==> scan[k] in db.roles)
         && multiset(names) == multiset(Names(db.roles, scan))
  }

  /** A text[] scanned into an untyped destination. */
  datatype Any = Str(s: string) | Other

  datatype AggregateRow = AggregateRow(
    id: Id, approvedUserId: Id, email: string, hash: Hash, isActive: bool, createdAt: Time, updatedAt: Time,
    roleNames: Option<seq<Any>>,
    approvedId: Option<Id>, approvedEmail: Option<string>, approvedFirstName: Option<string>,
    approvedCreatedBy: Option<Id>, approvedCreatedAt: Option<Time>, approvedUpdatedAt: Option<Time>)

  /** The one query, None when the user is not there. */
  function AggregateQuery(db: Tables, u: Id, names: seq<string>): Option<AggregateRow>
  {
    if u !in db.users then None else
      var r := db.users[u];
      var agg := Some(seq(|names|, k requires 0 <= k < |names| => Str(names[k])));
      if r.approvedId in db.approved then
        var a := db.approved[r.approvedId];
        Some(AggregateRow(u, r.approvedId, r.email, r.hash, r.isActive, r.createdAt, r.updatedAt, agg,
          Some(r.approvedId), Some(a.email), Some(a.firstName), a.createdBy, Some(a.createdAt), Some(a.updatedAt)))
      else
        Some(AggregateRow(u, r.approvedId, r.email, r.hash, r.isActive, r.createdAt, r.updatedAt, agg, None, None,
            None, None, None, None))
  }

  // -------- the Go side --------

  const NIL: Id := 0
  const ZERO: Time := 0

  datatype DomainRole = DomainRole(id: Id, name: string, description: Option<string>, createdAt: Time)
  datatype DomainApproved = DomainApproved(id: Id, email: string, firstName: string, createdBy: Option<Id>,
      createdAt: Time, updatedAt: Time)
  datatype DomainUser = DomainUser(
    id: Id, approvedUserId: Id, hash: Hash, isActive: bool, createdAt: Time, updatedAt: Time,
    approved: Option<DomainApproved>, roles: seq<DomainRole>)

  function ApprovedFromAggregate(r: AggregateRow): Option<DomainApproved>
  {
    if r.approvedId == None then None
    else Some(DomainApproved(r.approvedId.value, Coalesce(r.approvedEmail, ""), Coalesce(r.approvedFirstName, ""),
                             r.approvedCreatedBy, Coalesce(r.approvedCreatedAt, ZERO),
                                 Coalesce(r.approvedUpdatedAt, ZERO)))
  }

  function Strings(raw: seq<Any>): seq<string>
  {
    if raw == [] then [] else
      Strings(raw[..|raw| - 1]) + if raw[|raw| - 1].Str? then [raw[|raw| - 1].s] else []
  }

  /** The strings among the scanned values, in order. */
  method RoleNamesFromAggregate(v: Option<seq<Any>>) returns (names: seq<string>)
    ensures names == if v == None then [] else Strings(v.value)
  {
    if v == None { return []; }
    names := [];
    for i := 0 to |v.value|
      invariant names == Strings(v.value[..i])
    {
      assert v.value[..i + 1][..i] == v.value[..i];
      if v.value[i].Str? { names := names + [v.value[i].s]; }
    }
    assert v.value[..|v.value|] == v.value;
  }

  function UserToDomain(r: AggregateRow, names: seq<string>): DomainUser
  {
    DomainUser(r.id, r.approvedUserId, r.hash, r.isActive, r.createdAt, r.updatedAt, ApprovedFromAggregate(r),
               seq(|names|, k requires 0 <= k < |names| => DomainRole(NIL, names[k], None, ZERO)))
  }

  /** From one query. */
  function FromOne(r: AggregateRow): DomainUser
  {
    UserToDomain(r, if r.roleNames == None then [] else Strings(r.roleNames.value))
  }

  /** From the user row, the approval looked up by the user's link, and the role rows. */
  function FromThree(db: Tables, u: Id, rows: seq<Id>): DomainUser
    requires u in db.users && forall k :: 0 <= k < |rows| ==> rows[k] in db.roles
  {
    var r := db.users[u];
    DomainUser(u, r.approvedId, r.hash, r.isActive, r.createdAt, r.updatedAt,
      if r.approvedId in db.approved then
        var a := db.approved[r.approvedId];
        Some(DomainApproved(r.approvedId, a.email, a.firstName, a.createdBy, a.createdAt, a.updatedAt))
      else None,
      seq(|rows|, k requires 0 <= k < |rows| && rows[k] in db.roles =>
        DomainRole(rows[k], db.roles[rows[k]].name, db.roles[rows[k]].description, db.roles[rows[k]].createdAt)))
  }

  function NamesIn(user: DomainUser): seq<string>
  {
    seq(|user.roles|, k requires 0 <= k < |user.roles| => user.roles[k].name)
  }

  method HasRole(user: DomainUser, name: string) returns (has: bool)
    ensures has <==> name in NamesIn(user)
  {
    for i := 0 to |user.roles|
      invariant forall k :: 0 <= k < i ==> user.roles[k].name != name
    {
      if user.roles[i].name == name {
        assert NamesIn(user)[i] == name;
        return true;
      }
    }
    return false;
  }

  // -------- one query and three agree --------

  lemma {:induction false} DistinctCount(xs: seq<string>, x: string)
    requires Distinct(xs)
    ensures multiset(xs)[x] == if x in xs then 1 else 0
  {
    if xs != [] {
      var n := |xs| - 1;
      DistinctCount(xs[..n], x);
      assert xs == xs[..n] + [xs[n]];
    }
  }

  lemma NamesDistinct(roles: map<Id, RoleRow>, rows: seq<Id>)
    requires RolesUnique(roles) && Distinct(rows) && forall k :: 0 <= k < |rows| ==> rows[k] in roles
    ensures Distinct(Names(roles, rows))
  {
  }

  lemma SameNames(roles: map<Id, RoleRow>, xs: seq<Id>, ys: seq<Id>, ids: set<Id>)
    requires RolesUnique(roles) && Enumerates(xs, ids) && Enumerates(ys, ids)
    requires (forall k :: 0 <= k < |xs| ==> xs[k] in roles) && forall k :: 0 <= k < |ys| ==> ys[k] in roles
    ensures multiset(Names(roles, xs)) == multiset(Names(roles, ys))
  {
    NamesDistinct(roles, xs);
    NamesDistinct(roles, ys);
    forall n: string ensures multiset(Names(roles, xs))[n] == multiset(Names(roles, ys))[n] {
      DistinctCount(Names(roles, xs), n);
      DistinctCount(Names(roles, ys), n);
      NamesInBoth(roles, xs, ys, n);
      NamesInBoth(roles, ys, xs, n);
    }
  }

  lemma NamesInBoth(roles: map<Id, RoleRow>, xs: seq<Id>, ys: seq<Id>, n: string)
    requires (forall k :: 0 <= k < |xs| ==> xs[k] in roles && xs[k] in ys)
        && forall k :: 0 <= k < |ys| ==> ys[k] in roles
    ensures n in Names(roles, xs) ==> n in Names(roles, ys)
  {
    if n in Names(roles, xs) {
      var k :| 0 <= k < |xs| && Names(roles, xs)[k] == n;
      assert xs[k] in ys;
      var j :| 0 <= j < |ys| && ys[j] == xs[k];
      assert Names(roles, ys)[j] == n;
    }
  }

  lemma Antisymmetric(leq: Collation, a: string, b: string)
    requires TotalOrder(leq) && (a == b || (leq(a, b) && leq(b, a)))
    ensures a == b
  {
  }

  lemma SameFirst(leq: Collation, xs: seq<string>, ys: seq<string>)
    requires TotalOrder(leq) && Ordered(leq, xs) && Ordered(leq, ys) && multiset(xs) == multiset(ys) && xs != []
    ensures ys != [] && xs[0] == ys[0]
  {
    hide TotalOrder;
    assert |multiset(xs)| == |xs| && |multiset(ys)| == |ys|;
    assert xs[0] in multiset(ys) && ys[0] in multiset(xs);
    var i :| 0 <= i < |ys| && ys[i] == xs[0];
    var j :| 0 <= j < |xs| && xs[j] == ys[0];
    Antisymmetric(leq, xs[0], ys[0]);
  }

  lemma {:induction false} OrderedUnique(leq: Collation, xs: seq<string>, ys: seq<string>)
    requires TotalOrder(leq) && Ordered(leq, xs) && Ordered(leq, ys) && multiset(xs) == multiset(ys)
    ensures xs == ys
    decreases |xs|
  {
    hide TotalOrder;
    if xs == [] {
      assert |multiset(ys)| == 0;
    } else {
      SameFirst(leq, xs, ys);
      assert xs == [xs[0]] + xs[1..] && ys == [ys[0]] + ys[1..];
      assert multiset(xs[1..]) == multiset(xs) - multiset{xs[0]};
      assert multiset(ys[1..]) == multiset(ys) - multiset{ys[0]};
      OrderedUnique(leq, xs[1..], ys[1..]);
    }
  }

  lemma {:induction false} StringsOfStr(raw: seq<Any>, names: seq<string>)
    requires |raw| == |names| && forall k :: 0 <= k < |raw| ==> raw[k] == Str(names[k])
    ensures Strings(raw) == names
  {
    if raw != [] {
      var n := |raw| - 1;
      StringsOfStr(raw[..n], names[..n]);
    }
  }

  /** Whatever order the joins are scanned in and whatever the collation, the one-query
      user and the three-query user are the same but for the role columns the aggregate
      does not carry: same account, same approval (there always is one), the same role
      names in the same order. */
  lemma OneQueryAgreesWithThree(leq: Collation, db: Tables, u: Id, names: seq<string>, rows: seq<Id>)
    requires TotalOrder(leq) && Valid(db)
    requires NamesQuery(leq, db, u, names) && RolesQuery(leq, db, u, rows)
    ensures AggregateQuery(db, u, names).Some? <==> u in db.users
    ensures u in db.users ==>
      var one, three := FromOne(AggregateQuery(db, u, names).value), FromThree(db, u, rows);
      && one.(roles := []) == three.(roles := [])
      && one.approved.Some?
      && NamesIn(one) == NamesIn(three) == names
      && Ordered(leq, NamesIn(one))
  {
    hide Valid, TotalOrder, Ordered, FromOne, FromThree, NamesIn, Enumerates, RoleIds;
    if u in db.users {
      NamesAgree(leq, db, u, names, rows);
      LinkedApproval(db, u);
      OneShape(db, u, names);
      ThreeShape(db, u, rows);
    }
  }

  /** The account as its own row and the linked approval's row describe it, without roles. */
  function Bare(db: Tables, u: Id): DomainUser
    requires u in db.users && db.users[u].approvedId in db.approved
  {
    var r := db.users[u];
    var a := db.approved[r.approvedId];
    DomainUser(u, r.approvedId, r.hash, r.isActive, r.createdAt, r.updatedAt,
      Some(DomainApproved(r.approvedId, a.email, a.firstName, a.createdBy, a.createdAt, a.updatedAt)), [])
  }

  lemma OneShape(db: Tables, u: Id, names: seq<string>)
    requires u in db.users && db.users[u].approvedId in db.approved
    ensures var one := FromOne(AggregateQuery(db, u, names).value);
      one.(roles := []) == Bare(db, u) && NamesIn(one) == names
  {
    var r := AggregateQuery(db, u, names).value;
    StringsOfStr(r.roleNames.value, names);
  }

  lemma ThreeShape(db: Tables, u: Id, rows: seq<Id>)
    requires u in db.users && db.users[u].approvedId in db.approved
        && forall k :: 0 <= k < |rows| ==> rows[k] in db.roles
    ensures var three := FromThree(db, u, rows);
      three.(roles := []) == Bare(db, u) && NamesIn(three) == Names(db.roles, rows)
  {
  }

  lemma NamesAgree(leq: Collation, db: Tables, u: Id, names: seq<string>, rows: seq<Id>)
    requires TotalOrder(leq) && Valid(db) && NamesQuery(leq, db, u, names) && RolesQuery(leq, db, u, rows)
    ensures names == Names(db.roles, rows)
  {
    hide Valid, TotalOrder, Ordered;
    UniqueRoles(db);
    var scan :| Enumerates(scan, RoleIds(db, u)) && (forall k :: 0 <= k < |scan| ==> scan[k] in db.roles)
      && multiset(names) == multiset(Names(db.roles, scan));
    SameNames(db.roles, scan, rows, RoleIds(db, u));
    OrderedUnique(leq, names, Names(db.roles, rows));
  }

  lemma UniqueRoles(db: Tables)
    requires Valid(db)
    ensures RolesUnique(db.roles)
  {
  }

  lemma LinkedApproval(db: Tables, u: Id)
    requires Valid(db) && u in db.users
    ensures db.users[u].approvedId in db.approved
  {
  }
}
