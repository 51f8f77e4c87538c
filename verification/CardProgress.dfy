/** Card workloads never deadlock, and never fail for want of isolation: every CardIn and CardOut
    locks its wallet and then suspense. */
module CardProgress {
  import opened LedgerSpec
  import opened PostgresMachine
  import opened Linearizability
  import opened Deadlock
  import opened PostgresTheorems

  predicate CardsOnly(db: Db) { forall id :: id in db.active ==> !db.active[id].req.Transfer? }

  /** Suspense comes last in the order of locking. */
  function SuspenseLast(code: Code): nat { if code == SUSPENSE then 1 else 0 }

  lemma CardsAcyclic(db: Db)
    requires CardsOnly(db)
    ensures Acyclic(db)
  {
    OrderedIsAcyclic(db, SuspenseLast);
  }

  /** Deadlock freedom: while any card transaction is open, one of them is not waiting. */
  lemma CardsCanStep(db: Db)
    requires Inv(db) && CardsOnly(db) && db.active != map[]
    ensures exists id :: CanStep(db, id)
  {
    CardsAcyclic(db);
    AcyclicCanStep(db);
  }

  /** From any reachable set of open card transactions, statements alone finish all of them. */
  lemma CardsFinish(db: Db) returns (schedule: seq<Action>)
    requires Inv(db) && CardsOnly(db)
    ensures Finishes(db, schedule) && |schedule| <= 8 * |db.active|
  {
    CardsAcyclic(db);
    schedule := AcyclicFinish(db);
  }

  // ---- No spurious failures ----

  /** Past its second lock a card transaction owns the suspense row. */
  predicate OwnsSuspense(db: Db, id: Id) {
    && id in db.active && SUSPENSE in db.tables.accounts
    && var a := db.tables.accounts[SUSPENSE]; a in db.locks && db.locks[a] == id
  }

  lemma PastLocks(db: Db, id: Id)
    requires Inv(db) && CardsOnly(db) && id in db.active && !Locking(db.active[id])
    ensures OwnsSuspense(db, id)
  {
    assert SessionInv(db, id, db.active[id]);
  }

  predicate CardSchedule(schedule: seq<Action>) {
    forall a :: a in schedule ==> !a.Abort? && (a.Begin? ==> !a.req.Transfer?)
  }

  /** A card transaction that found no duplicate still has none: only a holder of suspense
      could have committed one. */
  ghost predicate NoSurprise(db: Db) {
    && CardsOnly(db)
    && (forall id :: id in db.active && (db.active[id].pc.ReadBalance? || db.active[id].pc.InsertTx?) ==>
          db.active[id].req.PostingKey() !in db.tables.transactions)
    && (forall id :: id in db.ended ==> db.ended[id].fate.Answered?)
  }

  lemma StatementAnswers(db: Db, id: Id)
    requires id in db.active && NoSurprise(db) && id !in RunStatement(db, id).active
    ensures RunStatement(db, id).ended[id].fate.Answered?
  {
  }

  lemma StatementSees(db: Db, id: Id)
    requires id in db.active && NoSurprise(db) && id in RunStatement(db, id).active
    requires var pc := RunStatement(db, id).active[id].pc; pc.ReadBalance? || pc.InsertTx?
    ensures db.active[id].req.PostingKey() !in db.tables.transactions
    ensures !db.active[id].pc.Commit?
  {
  }

  lemma StatementNoSurprise(db: Db, id: Id)
    requires Inv(db) && NoSurprise(db) && id in db.active
    ensures NoSurprise(RunStatement(db, id))
  {
    var db' := RunStatement(db, id);
    StatementFootprint(db, id);
    if id !in db'.active { StatementAnswers(db, id); }
    forall other | other in db'.active && (db'.active[other].pc.ReadBalance? || db'.active[other].pc.InsertTx?)
      ensures db'.active[other].req.PostingKey() !in db'.tables.transactions
    {
      if other == id {
        StatementSees(db, id);
      } else if db.active[id].pc.Commit? {
        PastLocks(db, other);
        PastLocks(db, id);
      }
    }
  }

  lemma EnsureNoSurprise(db: Db, code: Code, account: Id)
    requires NoSurprise(db)
    ensures NoSurprise(Exec(db, Ensure(code, account)))
  {
  }

  lemma BeginNoSurprise(db: Db, id: Id, req: Request)
    requires NoSurprise(db) && !req.Transfer?
    ensures NoSurprise(Exec(db, Begin(id, req)))
  {
  }

  lemma ActionNoSurprise(db: Db, a: Action)
    requires Inv(db) && NoSurprise(db) && !a.Abort? && (a.Begin? ==> !a.req.Transfer?)
    ensures NoSurprise(Exec(db, a))
  {
    match a {
      case Statement(id) => if id in db.active { StatementNoSurprise(db, id); }
      case Ensure(code, account) => EnsureNoSurprise(db, code, account);
      case Begin(id, req) => BeginNoSurprise(db, id, req);
    }
  }

  /** With cards only and no outside interruption, every transaction that ends has a proper
      answer: neither the unique key nor anything else ever fails one. */
  lemma {:induction false} CardsNeverFail(schedule: seq<Action>)
    requires CardSchedule(schedule)
    ensures NoSurprise(Run(INIT, schedule)) && Inv(Run(INIT, schedule))
  {
    InitInv();
    if |schedule| > 0 {
      var before, a := schedule[..|schedule| - 1], schedule[|schedule| - 1];
      assert a in schedule;
      CardsNeverFail(before);
      ActionNoSurprise(Run(INIT, before), a);
      ExecKeepsInv(Run(INIT, before), a);
    }
  }

  // ---- A card transaction that runs alone ----

  /** The transaction is open and has committed nothing, or it has ended and only its own posting
      has been committed. */
  ghost predicate Solo(db: Db, log: seq<Event>, id: Id, req: Request, began: nat, others: set<Id>) {
    && db.active.Keys <= {id} && db.ended.Keys <= others + {id}
    && (if id in db.active then db.log == log && db.active[id].req == req && db.active[id].began == began
        else
          && id in db.ended && db.ended[id].req == req && db.ended[id].began == began
          && db.log == log + if db.ended[id].fate == Answered(Posted(id)) then [Committed(id, req)] else [])
  }

  lemma SoloStep(db: Db, log: seq<Event>, id: Id, req: Request, began: nat, others: set<Id>)
    requires Inv(db) && Solo(db, log, id, req, began, others) && id in db.active
    ensures Solo(RunStatement(db, id), log, id, req, began, others)
  {
    StatementFootprint(db, id);
    ExecKeepsInv(db, Statement(id));
    SoloKept(db, RunStatement(db, id), log, id, req, began, others);
  }

  lemma SoloKept(db: Db, db': Db, log: seq<Event>, id: Id, req: Request, began: nat, others: set<Id>)
    requires Inv(db) && Solo(db, log, id, req, began, others) && id in db.active
    requires Inv(db') && Footprint(db, db', id)
    ensures Solo(db', log, id, req, began, others)
  {
    if id !in db'.active {
      assert Linearized(db'.log, id, db'.ended[id]);
      assert SessionInv(db, id, db.active[id]);
    }
  }

  lemma {:induction false} SoloRun(
    db: Db, log: seq<Event>, id: Id, req: Request, began: nat, others: set<Id>, schedule: seq<Action>)
    requires Inv(db) && NoSurprise(db) && Solo(db, log, id, req, began, others) && StatementsOnly(schedule)
    ensures var db' := Run(db, schedule); Inv(db') && NoSurprise(db') && Solo(db', log, id, req, began, others)
  {
    if |schedule| > 0 {
      var before, a := schedule[..|schedule| - 1], schedule[|schedule| - 1];
      assert a in schedule;
      SoloRun(db, log, id, req, began, others, before);
      var mid := Run(db, before);
      ExecKeepsInv(mid, a);
      ActionNoSurprise(mid, a);
      if a.id in mid.active { SoloStep(mid, log, id, req, began, others); }
    }
  }

  ghost predicate Quiet(db: Db) { Inv(db) && NoSurprise(db) && db.active == map[] }

  /** The transaction ran alone: it answered and posted what the serial specification says, and
      nothing else has changed. */
  ghost predicate RanAlone(db: Db, db': Db, id: Id, req: Request) {
    && Quiet(db') && db'.ended.Keys == db.ended.Keys + {id}
    && db'.ended[id].req == req && ServedAs(db.tables, req, id, db'.ended[id].fate, db'.tables)
    && forall other :: other in db.ended ==> db'.ended[other] == db.ended[other]
  }

  lemma SoloServed(db: Db, db': Db, id: Id, req: Request)
    requires Inv(db) && Inv(db') && NoSurprise(db') && db'.active == map[]
    requires Solo(db', db.log, id, req, |db.log|, db.ended.Keys)
    requires forall other :: other in db.ended ==> other in db'.ended && db'.ended[other] == db.ended[other]
    ensures RanAlone(db, db', id, req)
  {
    var f := db'.ended[id];
    assert Linearized(db'.log, id, f);
    SerialAnswer(db.log, db'.log, id, f);
  }

  /** Begun when nothing is open, a card transaction can be run to its end. */
  lemma ServedAlone(db: Db, id: Id, req: Request) returns (schedule: seq<Action>)
    requires Quiet(db) && id !in db.ended && !req.Transfer? && req.amount > 0
    ensures RanAlone(db, Run(Exec(db, Begin(id, req)), schedule), id, req)
  {
    var db1 := Opening(db, id, req);
    CardsAcyclic(db1);
    schedule := AcyclicFinish(db1);
    SoloRun(db1, db.log, id, req, |db.log|, db.ended.Keys, schedule);
    RunExtends(db1, schedule);
    SoloServed(db, Run(db1, schedule), id, req);
  }

  lemma Opening(db: Db, id: Id, req: Request) returns (db1: Db)
    requires Quiet(db) && id !in db.ended && !req.Transfer? && req.amount > 0
    ensures db1 == Exec(db, Begin(id, req)) && Inv(db1) && NoSurprise(db1)
    ensures db1.ended == db.ended && Solo(db1, db.log, id, req, |db.log|, db.ended.Keys)
  {
    db1 := Exec(db, Begin(id, req));
    ExecKeepsInv(db, Begin(id, req));
    BeginNoSurprise(db, id, req);
  }
}
