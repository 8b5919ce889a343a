/** Deleting an approval is final, whatever is in flight when it happens. */
module Removal {
  import opened Options
  import opened Schema
  import opened Statements
  import opened Bulk
  import opened Passwords
  import opened Services
  import opened Interleaving

  /** The approval and its accounts once existed and do not any more. */
  ghost predicate Gone(db: Tables, id: Id, users: set<Id>)
  {
    && id in db.issued && id !in db.approved
    && forall u :: u in users ==> u in db.issued && u !in db.users
  }

  lemma GoneStays(db: Tables, next: Tables, id: Id, users: set<Id>)
    requires Gone(db, id, users) && Evolves(db, next)
    ensures Gone(next, id, users)
  {
  }

  /** No row of any table belongs to, or came from, the approval or its accounts. */
  ghost predicate NoTrace(db: Tables, id: Id, users: set<Id>)
  {
    && id !in db.approved
    && (forall a :: a in db.approved ==> db.approved[a].createdBy != Some(id))
    && (forall u :: u in db.users ==> u !in users && db.users[u].approvedId != id)
    && (forall u, r :: (u, r) in db.userRoles ==> u !in users)
    && (forall t :: t in db.todos ==> db.todos[t].userId !in users)
  }

  lemma GoneLeavesNoTrace(db: Tables, id: Id, users: set<Id>)
    requires Valid(db) && Gone(db, id, users)
    ensures NoTrace(db, id, users)
  {
  }

  /** A write made in the name of the approval or one of its accounts. Deleting an approval
      is made in nobody's name: the call is not told who asks. */
  predicate Attributed(op: Op, id: Id, users: set<Id>)
  {
    match op
    case UserInserted(u, _, a) => a == id || u in users
    case RoleAssigned(u, _) => u in users
    case ApprovedInserted(a) => a == id
    case TodoInserted(_, u) => u in users
    case TodoPatched(_, u, _) => u in users
    case TodoRemoved(_, u) => u in users
    case ApprovedRemoved(_, _) => false
  }

  lemma BulkNeedsCreator(db: Tables, ids: seq<Id>, now: Time, emails: seq<string>, firstNames: seq<string>,
      createdBy: Id)
    requires |ids| == |emails| == |firstNames|
    ensures emails != [] && InsertApprovedBulk(db, ids, now, emails, firstNames, createdBy).1.Ok? ==>
      createdBy in db.approved
  {
  }

  /** An update or delete already past its ownership check finds no row to write. */
  lemma NoTodoLeft(db: Tables, req: Request, pc: Pc, id: Id, users: set<Id>)
    requires Valid(db) && Gone(db, id, users) && Local(db, req, pc)
    ensures pc.WriteTodo? && req.PatchTodo? && req.user in users ==> req.todo !in db.todos
    ensures pc.WriteTodo? && req.DropTodo? && req.user in users ==> req.todo !in db.todos
  {
    assert TodosFk(db.todos, db.users);
    hide Valid, RoleFree, IsUserRole;
  }

  /** The foreign keys refuse every insert once the rows are gone, and the cascade has left
      nothing to update or delete. */
  lemma StepNotAttributed(db: Tables, cache: Option<Id>, req: Request, pc: Pc, env: Env, id: Id, users: set<Id>)
    requires Valid(db) && Local(db, req, pc)
    requires Gone(db, id, users) && |env.ids| == IdsNeeded(req) && NewIds(db, env.ids)
    ensures var op := Next(db, cache, req, pc, env).op; op.Some? ==> !Attributed(op.value, id, users)
  {
    hide InsertApprovedBulk, DeleteApproved, RoleByName, UserEmailTaken, ApprovedEmailTaken, Answer, Valid, Local,
         BcryptKey, OwnTodos, Patched;
    NoTodoLeft(db, req, pc, id, users);
    match req
    case ApproveMany(emails, firstNames, createdBy) =>
      if |emails| == |firstNames| {
        BulkNeedsCreator(db, env.ids, env.now, emails, firstNames, createdBy);
      }
    case Register(_, _, _) => OneNewId(db, env.ids);
    case _ =>
  }

  lemma {:induction false} NeverAttributed(s: Sys, run: seq<Action>, id: Id, users: set<Id>)
    requires Inv(s) && ValidRun(s, run) && Gone(s.db, id, users)
    ensures var t := After(s, run);
      && Inv(t) && Gone(t.db, id, users)
      && s.log <= t.log
      && forall k :: |s.log| <= k < |t.log| ==> !Attributed(t.log[k].op, id, users)
    decreases |run|
  {
    hide Inv, Evolves, Next, Attributed, Gone, NewIds, Valid, Local;
    if run != [] {
      var s' := Step(s, run[0]);
      StepKeeps(s, run[0]);
      GoneStays(s.db, s'.db, id, users);
      match run[0] {
        case Begin(_, _) =>
        case Exec(c, env) =>
          CallLocal(s, c);
          StepNotAttributed(s.db, s.cache, s.calls[c].req, s.calls[c].pc, env, id, users);
      }
      NeverAttributed(s', run[1..], id, users);
    }
  }

  lemma DisapprovedIsGone(s: Sys, c: nat, env: Env, id: Id)
    requires Inv(s) && Enabled(s, Exec(c, env))
    requires s.calls[c] == Call(Disapprove(id), Start) && id in s.db.approved
    ensures Gone(Step(s, Exec(c, env)).db, id, AccountsUnder(s.db, id))
    ensures Step(s, Exec(c, env)).calls[c].pc == Done(Finished)
  {
    hide NewIds, RegisterStep, InitStep, ApproveStep, ApproveManyStep, CreateStep, PatchStep, DropStep, Answer;
  }

  /** Once a deletion of `id` has succeeded, from any state that an interleaving can reach,
      in every continuation with any calls in flight: no row of theirs is left or comes
      back, nothing is ever written in their name, and no token of theirs, whoever issued it
      and whenever it expires, is accepted. */
  lemma RemovalIsFinal(s: Sys, c: nat, env: Env, id: Id, after: seq<Action>)
    requires Inv(s) && Enabled(s, Exec(c, env)) && s.calls[c] == Call(Disapprove(id), Start) && id in s.db.approved
    requires ValidRun(Step(s, Exec(c, env)), after)
    ensures var deleted := Step(s, Exec(c, env));
      var t, users := After(deleted, after), AccountsUnder(s.db, id);
      && deleted.calls[c].pc == Done(Finished)
      && NoTrace(t.db, id, users)
      && deleted.log <= t.log
      && (forall k :: |deleted.log| <= k < |t.log| ==> !Attributed(t.log[k].op, id, users))
      && (forall token: Token, now :: token.userId in users ==> WhoAmIAnswer(t.db, Some(token), now).Failed?)
  {
    hide ValidRun, After, Evolves, Valid, Inv, NoTrace, Attributed, WhoAmIAnswer, Step, Enabled, Gone;
    StepKeeps(s, Exec(c, env));
    DisapprovedIsGone(s, c, env, id);
    FinalFrom(Step(s, Exec(c, env)), after, id, AccountsUnder(s.db, id));
  }

  lemma FinalFrom(s: Sys, run: seq<Action>, id: Id, users: set<Id>)
    requires Inv(s) && ValidRun(s, run) && Gone(s.db, id, users)
    ensures var t := After(s, run);
      && NoTrace(t.db, id, users) && s.log <= t.log
      && (forall k :: |s.log| <= k < |t.log| ==> !Attributed(t.log[k].op, id, users))
      && (forall token: Token, now :: token.userId in users ==> WhoAmIAnswer(t.db, Some(token), now).Failed?)
  {
    hide Valid, ValidRun, After, Attributed;
    NeverAttributed(s, run, id, users);
    GoneLeavesNoTrace(After(s, run).db, id, users);
  }
}
