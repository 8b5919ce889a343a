/** Two registrations after one e-mail: which refusal the loser gets. */
module Contention {
  import opened Options
  import opened Schema
  import opened Statements
  import opened Bulk
  import opened Passwords
  import opened Services
  import opened Interleaving
  import opened Registration

  /** From position `from` of the log on, `u` was created under `email` and not removed since. */
  ghost predicate CreatedSince(log: seq<Logged>, from: nat, u: Id, email: string)
  {
    exists k :: from <= k < |log| && log[k].op.UserInserted? && log[k].op.id == u && log[k].op.email == email
        && !Removed(log, k, u)
  }

  /** From position `from` of the log on, somebody came to have `email` and has it still. */
  ghost predicate Arrived(log: seq<Logged>, from: nat, email: string)
  {
    exists u :: CreatedSince(log, from, u, email)
  }

  /** Every account is one of `known`, or the log says when it was created. */
  ghost predicate Ledger(s: Sys, from: nat, known: set<Id>)
  {
    forall u :: u in s.db.users ==> u in known || CreatedSince(s.log, from, u, s.db.users[u].email)
  }

  lemma StillThere(s: Sys, a: Action, from: nat, u: Id, email: string)
    requires Inv(s) && Enabled(s, a) && u in s.db.users && u in Step(s, a).db.users
        && CreatedSince(s.log, from, u, email)
    ensures CreatedSince(Step(s, a).log, from, u, email)
  {
    hide Inv, Step, Enabled;
    StepAccount(s, a, u);
    var log, log' := s.log, Step(s, a).log;
    var k :| from <= k < |log| && log[k].op.UserInserted? && log[k].op.id == u && log[k].op.email == email
        && !Removed(log, k, u);
    assert forall j :: 0 <= j < |log| ==> log'[j] == log[j];
  }

  lemma NewlyThere(s: Sys, a: Action, u: Id)
    requires Inv(s) && Enabled(s, a) && u !in s.db.users && u in Step(s, a).db.users
    ensures CreatedSince(Step(s, a).log, |s.log|, u, Step(s, a).db.users[u].email)
  {
    hide Valid, Next, NewIds, UserEmailTaken;
    if a.Exec? {
      NextUsers(s.db, s.cache, s.calls[a.call].req, s.calls[a.call].pc, a.env);
      assert Step(s, a).log[|s.log|].op == EffectOf(s, a.call, a.env).op.value;
    }
  }

  lemma SinceEarlier(log: seq<Logged>, from: nat, later: nat, u: Id, email: string)
    requires from <= later && CreatedSince(log, later, u, email)
    ensures CreatedSince(log, from, u, email)
  {
  }

  lemma StepLedger(s: Sys, a: Action, from: nat, known: set<Id>)
    requires Inv(s) && Enabled(s, a) && from <= |s.log| && Ledger(s, from, known)
    ensures Ledger(Step(s, a), from, known)
  {
    hide Inv, Enabled, Step, CreatedSince;
    var s' := Step(s, a);
    forall u | u in s'.db.users && u !in known
      ensures CreatedSince(s'.log, from, u, s'.db.users[u].email)
    {
      if u in s.db.users {
        StepAccount(s, a, u);
        StillThere(s, a, from, u, s.db.users[u].email);
      } else {
        NewlyThere(s, a, u);
        SinceEarlier(s'.log, from, |s.log|, u, s'.db.users[u].email);
      }
    }
  }

  lemma {:induction false} RunLedger(s: Sys, run: seq<Action>, from: nat, known: set<Id>)
    requires Inv(s) && ValidRun(s, run) && from <= |s.log| && Ledger(s, from, known) && CreatedLives(s, from)
    ensures Ledger(After(s, run), from, known) && CreatedLives(After(s, run), from)
    decreases |run|
  {
    hide Inv, Enabled, Step, Ledger, CreatedLives, Evolves;
    if run != [] {
      StepKeeps(s, run[0]);
      StepLedger(s, run[0], from, known);
      StepLives(s, run[0], from);
      StepGrows(s, run[0]);
      RunLedger(Step(s, run[0]), run[1..], from, known);
    }
  }

  /** An e-mail nobody had is taken later exactly if the log says who came to have it. */
  lemma TakenSince(s: Sys, run: seq<Action>, email: string)
    requires Inv(s) && ValidRun(s, run) && !UserEmailTaken(s.db.users, email)
    ensures UserEmailTaken(After(s, run).db.users, email) <==> Arrived(After(s, run).log, |s.log|, email)
  {
    hide Inv, ValidRun, After, CreatedSince;
    var t := After(s, run);
    RunLedger(s, run, |s.log|, s.db.users.Keys);
    if UserEmailTaken(t.db.users, email) {
      var u :| u in t.db.users && t.db.users[u].email == email;
      if u in s.db.users { AccountStays(s, run, u); }
      assert CreatedSince(t.log, |s.log|, u, email);
    }
    if Arrived(t.log, |s.log|, email) {
      var u :| CreatedSince(t.log, |s.log|, u, email);
      CreatedIsThere(t, |s.log|, u, email);
    }
  }

  lemma CreatedIsThere(t: Sys, from: nat, u: Id, email: string)
    requires CreatedLives(t, from) && CreatedSince(t.log, from, u, email)
    ensures UserEmailTaken(t.db.users, email)
  {
    var k: nat :| from <= k < |t.log| && t.log[k].op.UserInserted? && t.log[k].op.id == u
        && t.log[k].op.email == email && !Removed(t.log, k, u);
    assert u in t.db.users && t.db.users[u].email == email;
  }

  /** A registration is told that its account exists exactly if the e-mail is taken when it
      checks. Past the check, whatever runs before its insert, it gets the database's own
      uniqueness error exactly if the password could be hashed and somebody came to have
      the e-mail in between. */
  lemma WhichRefusal(s: Sys, c: nat, env: Env, run: seq<Action>, later: Env)
    requires Inv(s) && Enabled(s, Exec(c, env)) && s.calls[c].req.Register? && s.calls[c].pc.CheckEmail?
    ensures var checked, email := Step(s, Exec(c, env)), s.calls[c].req.email;
      && checked.log == s.log
      && (if UserEmailTaken(s.db.users, email) then Refused(checked, c, UserAlreadyExists)
          else checked.calls[c].pc == HashAndInsert)
      && (checked.calls[c].pc.HashAndInsert? && ValidRun(checked, run) ==>
            var t := After(checked, run);
            Enabled(t, Exec(c, later)) && t.calls[c] == checked.calls[c] ==>
              var inserted := Step(t, Exec(c, later));
              Refused(inserted, c, Db(UniqueViolation)) == (later.salt.Some? && Arrived(t.log, |s.log|, email)))
  {
    hide Inv, ValidRun, After, Arrived, UserEmailTaken, NewIds, Evolves, Enabled, RegisterStep, InitStep,
         ApproveStep, ApproveManyStep, DisapproveStep, CreateStep, PatchStep, DropStep, Answer;
    EnabledMeaning(s, c, env);
    var req, checked := s.calls[c].req, Step(s, Exec(c, env));
    CheckStep(s.db, s.cache, req, env);
    if checked.calls[c].pc.HashAndInsert? && ValidRun(checked, run) {
      var t := After(checked, run);
      StepKeeps(s, Exec(c, env));
      TakenSince(checked, run, req.email);
      CallLinked(checked, c);
      if Enabled(t, Exec(c, later)) {
        EnabledMeaning(t, c, later);
        if t.calls[c] == checked.calls[c] { InsertRefusal(t.db, t.cache, req, later); }
      }
    }
  }

  lemma CallLinked(s: Sys, c: nat)
    requires Inv(s) && c in s.calls && s.calls[c].pc.HashAndInsert?
    ensures s.calls[c].req.Register? && s.calls[c].req.approvedId.Some?
  {
    hide Valid;
    assert Local(s.db, s.calls[c].req, s.calls[c].pc);
  }

  lemma CheckStep(db: Tables, cache: Option<Id>, req: Request, env: Env)
    requires req.Register? && |env.ids| == 1
    ensures var e := RegisterStep(db, cache, req, CheckEmail, env);
      && e.db == db && e.op == None
      && e.pc == if UserEmailTaken(db.users, req.email) then Done(Failed(UserAlreadyExists)) else HashAndInsert
  {
  }

  lemma InsertRefusal(db: Tables, cache: Option<Id>, req: Request, env: Env)
    requires req.Register? && req.approvedId.Some? && |env.ids| == 1
    ensures RegisterStep(db, cache, req, HashAndInsert, env).pc == Done(Failed(Db(UniqueViolation)))
      <==> env.salt.Some? && UserEmailTaken(db.users, req.email)
  {
    hide UserEmailTaken, BcryptKey;
  }
}
