/** PATCH as an action of right-biased merging, alone and under interleaving. */
module Patches {
  import opened Options
  import opened Schema
  import opened Statements
  import opened Bulk
  import opened Passwords
  import opened Services
  import opened Interleaving

  function Or<T>(later: Option<T>, earlier: Option<T>): Option<T>
  {
    if later.Some? then later else earlier
  }

  /** One patch that names what either names, the later one winning. */
  function Merge(p: Patch, q: Patch): Patch
  {
    Patch(Or(q.title, p.title), Or(q.description, p.description), Or(q.isCompleted, p.isCompleted),
        Or(q.dueDate, p.dueDate))
  }

  const NOTHING := Patch(None, None, None, None)

  function MergeAll(ps: seq<Patch>): Patch
  {
    if ps == [] then NOTHING else Merge(MergeAll(ps[..|ps| - 1]), ps[|ps| - 1])
  }

  /** Applying patches one after another, each at its own time. */
  function PatchedAll(row: TodoRow, ps: seq<Patch>, nows: seq<Time>): TodoRow
    requires |ps| == |nows|
    decreases |ps|
  {
    if ps == [] then row else
      var n := |ps| - 1;
      Patched(PatchedAll(row, ps[..n], nows[..n]), ps[n], nows[n])
  }

  /** Any number of updates is one update by their merge, but for `updated_at`. */
  lemma {:induction false} UpdatesMerge(row: TodoRow, ps: seq<Patch>, nows: seq<Time>, now: Time)
    requires |ps| == |nows|
    ensures PatchedAll(row, ps, nows).(updatedAt := now) == Patched(row, MergeAll(ps), now)
    decreases |ps|
  {
    if ps != [] {
      var n := |ps| - 1;
      UpdatesMerge(row, ps[..n], nows[..n], now);
    }
  }

  lemma MergeAssociative(p: Patch, q: Patch, r: Patch)
    ensures Merge(Merge(p, q), r) == Merge(p, Merge(q, r))
  {
  }

  // -------- column by column --------

  datatype Field = Title | Description | Completed | DueDate
  datatype Value = Text(text: string) | Flag(flag: bool) | When(when: Time)

  function Named(p: Patch, f: Field): Option<Value>
  {
    match f
    case Title => if p.title.Some? then Some(Text(p.title.value)) else None
    case Description => if p.description.Some? then Some(Text(p.description.value)) else None
    case Completed => if p.isCompleted.Some? then Some(Flag(p.isCompleted.value)) else None
    case DueDate => if p.dueDate.Some? then Some(When(p.dueDate.value)) else None
  }

  /** A column of a row; None is NULL. */
  function Column(row: TodoRow, f: Field): Option<Value>
  {
    match f
    case Title => Some(Text(row.title))
    case Description => if row.description.Some? then Some(Text(row.description.value)) else None
    case Completed => Some(Flag(row.isCompleted))
    case DueDate => if row.dueDate.Some? then Some(When(row.dueDate.value)) else None
  }

  predicate Disjoint(p: Patch, q: Patch)
  {
    (p.title.Some? ==> q.title.None?) && (p.description.Some? ==> q.description.None?)
    && (p.isCompleted.Some? ==> q.isCompleted.None?) && (p.dueDate.Some? ==> q.dueDate.None?)
  }

  lemma {:induction false} MergeAllConcat(ps: seq<Patch>, qs: seq<Patch>)
    ensures MergeAll(ps + qs) == Merge(MergeAll(ps), MergeAll(qs))
    decreases |qs|
  {
    if qs == [] {
      assert ps + qs == ps;
    } else {
      var n := |qs| - 1;
      assert (ps + qs)[..|ps| + n] == ps + qs[..n];
      MergeAllConcat(ps, qs[..n]);
      MergeAssociative(MergeAll(ps), MergeAll(qs[..n]), qs[n]);
    }
  }

  /** Updates that touch different columns may be exchanged anywhere in a sequence. */
  lemma DisjointCommute(before: seq<Patch>, p: Patch, q: Patch, after: seq<Patch>)
    requires Disjoint(p, q)
    ensures MergeAll(before + [p, q] + after) == MergeAll(before + [q, p] + after)
  {
    Two(p, q);
    Two(q, p);
    MergeAllConcat(before + [p, q], after);
    MergeAllConcat(before + [q, p], after);
    MergeAllConcat(before, [p, q]);
    MergeAllConcat(before, [q, p]);
  }

  lemma Two(p: Patch, q: Patch)
    ensures MergeAll([p, q]) == Merge(p, q)
  {
    assert [p, q][..1] == [p] && [p][..0] == [];
    assert MergeAll([p]) == Merge(MergeAll([p][..0]), p);
  }

  lemma {:induction false} LastNamedWins(ps: seq<Patch>, k: nat, f: Field)
    requires k < |ps| && Named(ps[k], f).Some?
    requires forall j :: k < j < |ps| ==> Named(ps[j], f).None?
    ensures Named(MergeAll(ps), f) == Named(ps[k], f)
    decreases |ps|
  {
    var n := |ps| - 1;
    if k < n {
      LastNamedWins(ps[..n], k, f);
    }
  }

  // -------- under interleaving --------

  /** The successful updates of one todo that a stretch of the log records, in order. */
  function PatchesOn(log: seq<Logged>, id: Id): seq<Patch>
  {
    if log == [] then [] else
      var last := log[|log| - 1].op;
      PatchesOn(log[..|log| - 1], id) + if last.TodoPatched? && last.todo == id then [last.patch] else []
  }

  lemma PatchesOnAppend(log: seq<Logged>, x: Logged, id: Id)
    ensures PatchesOn(log + [x], id)
         == PatchesOn(log, id) + if x.op.TodoPatched? && x.op.todo == id then [x.op.patch] else []
  {
    assert (log + [x])[..|log|] == log;
  }

  ghost predicate SameBut(a: TodoRow, b: TodoRow)
  {
    a.(updatedAt := b.updatedAt) == b
  }

  ghost predicate RowFollows(db: Tables, e: Effect, id: Id)
  {
    id in db.todos && id in e.db.todos ==>
      SameBut(e.db.todos[id],
        if e.op.Some? && e.op.value.TodoPatched? && e.op.value.todo == id
        then Patched(db.todos[id], e.op.value.patch, 0)
        else db.todos[id])
  }

  lemma PatchFollows(db: Tables, cache: Option<Id>, req: Request, pc: Pc, env: Env, id: Id)
    requires req.PatchTodo?
    ensures RowFollows(db, PatchStep(db, cache, req.todo, req.user, req.patch, pc, env), id)
  {
  }

  lemma KeptRowFollows(db: Tables, e: Effect, id: Id)
    requires id in db.todos && id in e.db.todos ==> e.db.todos[id] == db.todos[id]
    requires e.op.Some? ==> !e.op.value.TodoPatched?
    ensures RowFollows(db, e, id)
  {
  }

  lemma CreateFollows(db: Tables, cache: Option<Id>, req: Request, pc: Pc, env: Env, id: Id)
    requires req.CreateTodo? && |env.ids| == 1 && env.ids[0] !in db.issued && KeysIssued(db.todos, db.issued)
    ensures RowFollows(db, CreateStep(db, cache, req.user, req.title, req.description, req.dueDate, pc, env), id)
  {
    hide RowFollows;
    KeptRowFollows(db, CreateStep(db, cache, req.user, req.title, req.description, req.dueDate, pc, env), id);
  }

  lemma ApproveManyFollows(db: Tables, cache: Option<Id>, req: Request, pc: Pc, env: Env, id: Id)
    requires Valid(db) && req.ApproveMany? && |env.ids| == |req.emails| && NewIds(db, env.ids)
    ensures RowFollows(db, ApproveManyStep(db, cache, req.emails, req.firstNames, req.createdBy, pc, env), id)
  {
    hide Valid, RowFollows, InsertApprovedBulk, KeysIssued, NewIds;
    if |req.emails| == |req.firstNames| {
      ValidParts(db);
      BulkOnlyApproved(db, env.ids, env.now, req.emails, req.firstNames, req.createdBy);
    }
    KeptRowFollows(db, ApproveManyStep(db, cache, req.emails, req.firstNames, req.createdBy, pc, env), id);
  }

  lemma OtherFollows(db: Tables, cache: Option<Id>, req: Request, pc: Pc, env: Env, id: Id)
    requires |env.ids| == IdsNeeded(req) && !req.PatchTodo? && !req.CreateTodo? && !req.ApproveMany?
    ensures RowFollows(db, Next(db, cache, req, pc, env), id)
  {
    hide RowFollows, ApprovedEmailTaken, UserEmailTaken, RoleByName, BcryptKey, Answer, OwnTodos, PatchStep,
         CreateStep, ApproveManyStep;
    KeptRowFollows(db, Next(db, cache, req, pc, env), id);
  }

  lemma NextFollows(db: Tables, cache: Option<Id>, req: Request, pc: Pc, env: Env, id: Id)
    requires Valid(db) && |env.ids| == IdsNeeded(req) && NewIds(db, env.ids)
    ensures RowFollows(db, Next(db, cache, req, pc, env), id)
  {
    hide Valid, RowFollows, RegisterStep, InitStep, ApproveStep, ApproveManyStep, DisapproveStep, CreateStep,
         PatchStep, DropStep, Answer, NewIds, KeysIssued;
    match req
    case PatchTodo(_, _, _) => PatchFollows(db, cache, req, pc, env, id);
    case CreateTodo(_, _, _, _) =>
      ValidParts(db);
      OneNewId(db, env.ids);
      CreateFollows(db, cache, req, pc, env, id);
    case ApproveMany(_, _, _) => ApproveManyFollows(db, cache, req, pc, env, id);
    case _ => OtherFollows(db, cache, req, pc, env, id);
  }

  lemma StepRow(s: Sys, a: Action, id: Id)
    requires Inv(s) && Enabled(s, a) && id in s.db.todos && id in Step(s, a).db.todos
    ensures var s' := Step(s, a);
      && s.log <= s'.log && |s'.log| <= |s.log| + 1
      && SameBut(s'.db.todos[id], Patched(s.db.todos[id], MergeAll(PatchesOn(s'.log[|s.log|..], id)), 0))
  {
    hide Valid, Next, NewIds, Patched, Merge, SameBut;
    var s' := Step(s, a);
    match a
    case Begin(_, _) =>
      NothingPatched(s.db.todos[id]);
      assert s'.log[|s.log|..] == [];
    case Exec(c, env) =>
      NextFollows(s.db, s.cache, s.calls[c].req, s.calls[c].pc, env, id);
      var e := EffectOf(s, c, env);
      NothingPatched(s.db.todos[id]);
      if e.op.Some? {
        var x := Logged(c, e.op.value);
        assert s'.log[|s.log|..] == [x];
        PatchesOnAppend([], x, id);
        assert [] + [x] == [x];
        if x.op.TodoPatched? { One(x.op.patch); }
      } else {
        assert s'.log[|s.log|..] == [];
      }
      if e.op.Some? && e.op.value.TodoPatched? && e.op.value.todo == id {
      } else {
        SameButNothing(s'.db.todos[id], s.db.todos[id]);
      }
  }

  lemma NothingPatched(row: TodoRow)
    ensures SameBut(row, Patched(row, NOTHING, 0))
  {
  }

  lemma SameButNothing(a: TodoRow, b: TodoRow)
    requires SameBut(a, b)
    ensures SameBut(a, Patched(b, NOTHING, 0))
  {
  }

  lemma One(p: Patch)
    ensures MergeAll([p]) == p
  {
    assert [p][..0] == [];
    assert MergeAll([p]) == Merge(MergeAll([p][..0]), p);
  }

  lemma {:induction false} PatchesOnConcat(log: seq<Logged>, more: seq<Logged>, id: Id)
    ensures PatchesOn(log + more, id) == PatchesOn(log, id) + PatchesOn(more, id)
    decreases |more|
  {
    if more == [] {
      assert log + more == log;
    } else {
      var n := |more| - 1;
      assert (log + more)[..|log| + n] == log + more[..n];
      PatchesOnConcat(log, more[..n], id);
      var tail := if more[n].op.TodoPatched? && more[n].op.todo == id then [more[n].op.patch] else [];
      var first, mid := PatchesOn(log, id), PatchesOn(more[..n], id);
      assert first + (mid + tail) == (first + mid) + tail;
    }
  }

  /** However calls interleave, a todo that survives is what it was, patched by the merge of
      the updates that succeeded meanwhile in the order they were written: no update is
      lost except to a later one. */
  lemma {:induction false} RowIsMergeOfUpdates(s: Sys, run: seq<Action>, id: Id)
    requires Inv(s) && ValidRun(s, run) && id in s.db.todos && id in After(s, run).db.todos
    ensures var t := After(s, run);
      && s.log <= t.log
      && SameBut(t.db.todos[id], Patched(s.db.todos[id], MergeAll(PatchesOn(t.log[|s.log|..], id)), 0))
    decreases |run|
  {
    hide Inv, Enabled, Next, Evolves, Patched, Merge, SameBut, PatchesOn, MergeAll, Step;
    if run == [] {
      assert s.log[|s.log|..] == [];
      NoPatches(s.db.todos[id], id);
    } else {
      var s' := Step(s, run[0]);
      var t := After(s, run);
      StepKeeps(s, run[0]);
      StillThere(s, s', run[1..], id);
      StepRow(s, run[0], id);
      RowIsMergeOfUpdates(s', run[1..], id);
      var first, rest := s'.log[|s.log|..], t.log[|s'.log|..];
      assert t.log[|s.log|..] == first + rest;
      PatchesOnConcat(first, rest, id);
      MergeAllConcat(PatchesOn(first, id), PatchesOn(rest, id));
      ThenPatched(s.db.todos[id], s'.db.todos[id], t.db.todos[id], MergeAll(PatchesOn(first, id)),
          MergeAll(PatchesOn(rest, id)));
    }
  }

  lemma NoPatches(row: TodoRow, id: Id)
    ensures SameBut(row, Patched(row, MergeAll(PatchesOn([], id)), 0))
  {
  }

  lemma ThenPatched(a: TodoRow, b: TodoRow, c: TodoRow, p: Patch, q: Patch)
    requires SameBut(b, Patched(a, p, 0)) && SameBut(c, Patched(b, q, 0))
    ensures SameBut(c, Patched(a, Merge(p, q), 0))
  {
  }

  /** A row that is there at the end was there all along. */
  lemma StillThere(s: Sys, s': Sys, run: seq<Action>, id: Id)
    requires Inv(s) && Inv(s') && Evolves(s.db, s'.db) && ValidRun(s', run) && id in s.db.todos
        && id in After(s', run).db.todos
    ensures id in s'.db.todos
  {
    hide ValidRun, After;
    RunKeeps(s', run);
    ValidParts(s.db);
  }

  /** A column a successful update named keeps that value until a later successful update
      of the same todo names it again. */
  lemma NoLostUpdate(s: Sys, run: seq<Action>, id: Id, f: Field, k: nat)
    requires Inv(s) && ValidRun(s, run) && id in s.db.todos && id in After(s, run).db.todos
    requires s.log <= After(s, run).log
    requires var ps := PatchesOn(After(s, run).log[|s.log|..], id);
      k < |ps| && Named(ps[k], f).Some? && forall j :: k < j < |ps| ==> Named(ps[j], f).None?
    ensures Column(After(s, run).db.todos[id], f) == Named(PatchesOn(After(s, run).log[|s.log|..], id)[k], f)
  {
    hide Inv, ValidRun, After, PatchesOn, MergeAll;
    RowIsMergeOfUpdates(s, run, id);
    LastNamedWins(PatchesOn(After(s, run).log[|s.log|..], id), k, f);
  }
}
