/** The bulk approval: one INSERT over three parallel arrays. */
module Bulk {
  import opened Options
  import opened Sequences
  import opened Schema
  import opened Statements

  ghost predicate NewIds(db: Tables, ids: seq<Id>)
  {
    Distinct(ids) && forall i :: 0 <= i < |ids| ==> ids[i] !in db.issued
  }

  /** The third array: the creator once per row. */
  method CreatedByColumn(emails: seq<string>, createdBy: Id) returns (column: array<Id>)
    ensures fresh(column) && column.Length == |emails|
    ensures forall i :: 0 <= i < column.Length ==> column[i] == createdBy
  {
    column := new Id[|emails|];
    for i := 0 to column.Length
      invariant forall j :: 0 <= j < i ==> column[j] == createdBy
    {
      column[i] := createdBy;
    }
  }

  /** DEFAULT NOW() is the same moment throughout a statement. */
  function NowForEach(now: Time, n: nat): (nows: seq<Time>)
    ensures |nows| == n
  {
    seq(n, _ => now)
  }

  /** The rows the arrays describe, paired position by position. */
  function BulkRows(nows: seq<Time>, emails: seq<string>, firstNames: seq<string>,
      createdBy: Id): (rows: seq<ApprovedRow>)
    requires |nows| == |emails| == |firstNames|
    ensures |rows| == |emails|
  {
    seq(|emails|, i requires 0 <= i < |emails| =>
      ApprovedRow(emails[i], firstNames[i], Some(createdBy), nows[i], nows[i]))
  }

  function Inserted(db: Tables, ids: seq<Id>, rows: seq<ApprovedRow>): Tables
    requires |ids| == |rows|
    decreases |ids|
  {
    if ids == [] then db
    else
      var stored := db.(approved := db.approved[ids[0] := rows[0]], issued := Issue(db.issued, ids[0]));
      Inserted(stored, ids[1..], rows[1..])
  }

  /** No e-mail is taken or repeated, and the creator exists unless there is nothing to do. */
  ghost predicate Accepted(db: Tables, emails: seq<string>, createdBy: Id)
  {
    && Distinct(emails)
    && (forall i :: 0 <= i < |emails| ==> !ApprovedEmailTaken(db.approved, emails[i]))
    && (emails != [] ==> createdBy in db.approved)
  }

  /** The statement: all rows or none. */
  ghost function InsertApprovedBulk(db: Tables, ids: seq<Id>, now: Time, emails: seq<string>,
      firstNames: seq<string>, createdBy: Id): (Tables, Result<seq<ApprovedRow>>)
    requires |ids| == |emails| == |firstNames|
  {
    if !Distinct(emails) || (exists i :: 0 <= i < |emails| && ApprovedEmailTaken(db.approved, emails[i]))
    then (db, Err(UniqueViolation))
    else if emails != [] && createdBy !in db.approved then (db, Err(ForeignKeyViolation))
    else
      var rows := BulkRows(NowForEach(now, |emails|), emails, firstNames, createdBy);
      (Inserted(db, ids, rows), Ok(rows))
  }

  /** The same users created one by one, stopping at the first refusal. */
  ghost function InsertEach(db: Tables, ids: seq<Id>, nows: seq<Time>, emails: seq<string>, firstNames: seq<string>,
      createdBy: Id): (Tables, Result<seq<ApprovedRow>>)
    requires |ids| == |nows| == |emails| == |firstNames|
    decreases |emails|
  {
    if emails == [] then (db, Ok([])) else
      var (db1, r1) := InsertApproved(db, ids[0], nows[0], emails[0], firstNames[0], createdBy);
      if r1.Err? then (db1, Err(r1.error)) else
        var (db2, r2) := InsertEach(db1, ids[1..], nows[1..], emails[1..], firstNames[1..], createdBy);
        if r2.Err? then (db2, r2) else (db2, Ok([r1.value] + r2.value))
  }

  lemma AcceptedStep(db: Tables, id: Id, now: Time, emails: seq<string>, firstName: string, createdBy: Id)
    requires emails != [] && id !in db.approved
    ensures var (db1, r1) := InsertApproved(db, id, now, emails[0], firstName, createdBy);
      Accepted(db, emails, createdBy) <==> r1.Ok? && Accepted(db1, emails[1..], createdBy)
  {
    var (db1, r1) := InsertApproved(db, id, now, emails[0], firstName, createdBy);
    if r1.Ok? {
      forall e ensures ApprovedEmailTaken(db1.approved, e) <==> ApprovedEmailTaken(db.approved, e) || e == emails[0] {
        if ApprovedEmailTaken(db.approved, e) {
          var a :| a in db.approved && db.approved[a].email == e;
          assert a in db1.approved && db1.approved[a].email == e;
        }
        if e == emails[0] { assert id in db1.approved && db1.approved[id].email == e; }
      }
      if Accepted(db1, emails[1..], createdBy) {
        forall i, j | 0 <= i < j < |emails| ensures emails[i] != emails[j] {
          assert !ApprovedEmailTaken(db1.approved, emails[1..][j - 1]);
          if i > 0 { assert emails[1..][i - 1] != emails[1..][j - 1]; }
        }
        forall i | 0 <= i < |emails| ensures !ApprovedEmailTaken(db.approved, emails[i]) {
          if i > 0 { assert !ApprovedEmailTaken(db1.approved, emails[1..][i - 1]); }
        }
      }
    }
  }

  /** One by one succeeds exactly when every e-mail is free and new, whatever ids and times
      the rows get, and then leaves exactly the described rows. */
  lemma {:induction false} InsertEachMeaning(db: Tables, ids: seq<Id>, nows: seq<Time>, emails: seq<string>,
      firstNames: seq<string>, createdBy: Id)
    requires |ids| == |nows| == |emails| == |firstNames|
    requires NewIds(db, ids) && KeysIssued(db.approved, db.issued)
    ensures var (db', r) := InsertEach(db, ids, nows, emails, firstNames, createdBy);
      && (r.Ok? <==> Accepted(db, emails, createdBy))
      && (r.Ok? ==> r.value == BulkRows(nows, emails, firstNames, createdBy) && db' == Inserted(db, ids, r.value))
    decreases |emails|
  {
    if emails != [] {
      var (db1, r1) := InsertApproved(db, ids[0], nows[0], emails[0], firstNames[0], createdBy);
      AcceptedStep(db, ids[0], nows[0], emails, firstNames[0], createdBy);
      if r1.Ok? {
        InsertEachMeaning(db1, ids[1..], nows[1..], emails[1..], firstNames[1..], createdBy);
        var rows := BulkRows(nows, emails, firstNames, createdBy);
        assert rows[1..] == BulkRows(nows[1..], emails[1..], firstNames[1..], createdBy);
      }
    }
  }

  /** The bulk statement is the one-by-one creation made atomic: it succeeds exactly when
      each single creation would, with the same rows up to the ids and times each way
      hands out, and otherwise changes nothing. */
  lemma BulkIsEach(db: Tables, ids: seq<Id>, now: Time, ids1: seq<Id>, nows: seq<Time>, emails: seq<string>,
      firstNames: seq<string>, createdBy: Id)
    requires |ids| == |ids1| == |nows| == |emails| == |firstNames|
    requires NewIds(db, ids) && NewIds(db, ids1) && KeysIssued(db.approved, db.issued)
    ensures var (bulk, r) := InsertApprovedBulk(db, ids, now, emails, firstNames, createdBy);
      var (each, r1) := InsertEach(db, ids1, nows, emails, firstNames, createdBy);
      && (r.Ok? <==> r1.Ok?)
      && (r.Err? ==> bulk == db)
      && (r.Ok? ==> |r.value| == |r1.value| == |emails|)
      && (r.Ok? ==> forall i :: 0 <= i < |emails| ==> r.value[i] == r1.value[i].(createdAt := now, updatedAt := now))
      && (r.Ok? && ids == ids1 && nows == NowForEach(now, |emails|) ==> bulk == each)
  {
    InsertEachMeaning(db, ids1, nows, emails, firstNames, createdBy);
  }

  /** What the bulk statement leaves: the old rows untouched, and under each new id its own
      e-mail still with its own first name. */
  lemma {:induction false} InsertedRows(db: Tables, ids: seq<Id>, rows: seq<ApprovedRow>)
    requires |ids| == |rows| && NewIds(db, ids) && KeysIssued(db.approved, db.issued)
    ensures var db' := Inserted(db, ids, rows);
      && db'.users == db.users && db'.roles == db.roles && db'.userRoles == db.userRoles && db'.todos == db.todos
      && (forall a :: a in db.approved ==> a in db'.approved && db'.approved[a] == db.approved[a])
      && (forall i :: 0 <= i < |ids| ==> ids[i] in db'.approved && db'.approved[ids[i]] == rows[i])
      && (forall a :: a in db'.approved ==> a in db.approved || a in ids)
    decreases |ids|
  {
    if ids != [] {
      var db1 := db.(approved := db.approved[ids[0] := rows[0]], issued := Issue(db.issued, ids[0]));
      InsertedRows(db1, ids[1..], rows[1..]);
      forall i | 0 <= i < |ids|
        ensures ids[i] in Inserted(db, ids, rows).approved && Inserted(db, ids, rows).approved[ids[i]] == rows[i]
      {
        if i > 0 { assert ids[i] == ids[1..][i - 1]; }
      }
    }
  }

  lemma StillNew(db: Tables, ids: seq<Id>, now: Time, email: string, firstName: string, createdBy: Id)
    requires NewIds(db, ids) && ids != []
    ensures ids[0] !in db.issued
    ensures NewIds(InsertApproved(db, ids[0], now, email, firstName, createdBy).0, ids[1..])
  {
    hide ApprovedEmailTaken;
  }

  lemma {:induction false} InsertEachKeeps(db: Tables, ids: seq<Id>, nows: seq<Time>, emails: seq<string>,
      firstNames: seq<string>, createdBy: Id)
    requires |ids| == |nows| == |emails| == |firstNames| && Valid(db) && NewIds(db, ids)
    ensures var db' := InsertEach(db, ids, nows, emails, firstNames, createdBy).0; Valid(db') && Evolves(db, db')
    decreases |emails|
  {
    hide Valid, Evolves, InsertApproved, NewIds;
    EvolvesReflexive(db);
    if emails != [] {
      var (db1, r1) := InsertApproved(db, ids[0], nows[0], emails[0], firstNames[0], createdBy);
      StillNew(db, ids, nows[0], emails[0], firstNames[0], createdBy);
      InsertApprovedKeeps(db, ids[0], nows[0], emails[0], firstNames[0], createdBy);
      if r1.Ok? {
        InsertEachKeeps(db1, ids[1..], nows[1..], emails[1..], firstNames[1..], createdBy);
        EvolvesTransitive(db, db1, InsertEach(db1, ids[1..], nows[1..], emails[1..], firstNames[1..], createdBy).0);
      }
    }
  }

  lemma BulkKeeps(db: Tables, ids: seq<Id>, now: Time, emails: seq<string>, firstNames: seq<string>, createdBy: Id)
    requires |ids| == |emails| == |firstNames| && Valid(db) && NewIds(db, ids)
    ensures var db' := InsertApprovedBulk(db, ids, now, emails, firstNames, createdBy).0; Valid(db') && Evolves(db, db')
  {
    var nows := NowForEach(now, |emails|);
    BulkIsEach(db, ids, now, ids, nows, emails, firstNames, createdBy);
    InsertEachKeeps(db, ids, nows, emails, firstNames, createdBy);
    if InsertApprovedBulk(db, ids, now, emails, firstNames, createdBy).1.Err? {
      EvolvesReflexive(db);
    }
  }

  lemma EvolvesReflexive(db: Tables)
    ensures Evolves(db, db)
  {
  }
}
