/** What every schedule guarantees, from an empty database. */
module PostgresTheorems {
  import opened LedgerSpec
  import opened PostgresMachine
  import opened Linearizability
  import opened MapSums

  /** Serialisability: the committed tables are those of the committed requests run one at a
      time in commit order, each passing its account, duplicate and funds checks again. */
  lemma Serializable(schedule: seq<Action>)
    ensures var db := Run(INIT, schedule);
            && db.tables == Replay(db.log) && SerialLog(db.log)
            && LogInv(db)
  {
    InitInv();
    RunKeepsInv(INIT, schedule);
  }

  /** Linearizability: whatever a transaction answered, it is the serial answer at a number of
      commits inside its own lifetime, and a posting is the commit of that number. */
  lemma Linearizable(schedule: seq<Action>, id: Id)
    requires id in Run(INIT, schedule).ended
    ensures var db := Run(INIT, schedule); Linearized(db.log, id, db.ended[id])
  {
    InitInv();
    RunKeepsInv(INIT, schedule);
  }

  /** Double entry, no overdraft and a zero grand total in every reachable committed state,
      whatever statement a transaction was rolled back at. */
  lemma CommittedSound(schedule: seq<Action>)
    ensures Sound(Run(INIT, schedule).tables)
  {
    Serializable(schedule);
    SerialSound(Run(INIT, schedule).log);
  }

  /** Suspense is never positive and mirrors all other accounts. */
  lemma SuspenseMirrors(schedule: seq<Action>)
    ensures var t := Run(INIT, schedule).tables;
            SUSPENSE in t.accounts ==>
              && Sum(t.entries, t.accounts[SUSPENSE]) == -Total(Sheet(t) - {SUSPENSE})
              && Sum(t.entries, t.accounts[SUSPENSE]) <= 0
  {
    CommittedSound(schedule);
    SuspenseNeverPays(Run(INIT, schedule).tables, CardOut(SUSPENSE, "", 0), 0);
  }

  // ---- What is in the tables ----

  /** In every reachable committed state each committed posting has its row, under its own client id
      and kind and with its status, and its two entries; and there are no other rows. */
  lemma CommittedRecorded(schedule: seq<Action>)
    ensures var db := Run(INIT, schedule);
            && (forall n | 0 <= n < |db.log| && db.log[n].Committed? ::
                  Recorded(db.tables, db.log[n].id, db.log[n].req))
            && (forall k | k in db.tables.transactions ::
                  exists n :: 0 <= n < |db.log| && RowOf(db, k, n))
  {
    var db := Run(INIT, schedule);
    Serializable(schedule);
    forall n | 0 <= n < |db.log| && db.log[n].Committed? ensures Recorded(db.tables, db.log[n].id, db.log[n].req) {
      LogRecorded(db.log, n);
    }
    forall k | k in db.tables.transactions ensures exists n :: 0 <= n < |db.log| && RowOf(db, k, n) {
      var n := RowCommitted(db.log, k);
      assert RowOf(db, k, n);
    }
  }

  /** The row under k is that of the n-th event. */
  ghost predicate RowOf(db: Db, k: Key, n: nat)
    requires k in db.tables.transactions && n < |db.log|
  {
    db.log[n].Committed? && db.log[n].id == db.tables.transactions[k].id && db.log[n].req.PostingKey() == k
  }

  // ---- Alone ----

  /** The call answered, and nothing but its own posting was committed. */
  ghost predicate Undisturbed(log: seq<Event>, log': seq<Event>, id: Id, req: Request, fate: Fate) {
    && fate.Answered?
    && log' == log + if fate.outcome.Posted? then [Committed(id, req)] else []
  }

  ghost predicate ServedAs(t: Tables, req: Request, id: Id, fate: Fate, t': Tables) {
    fate == Answered(Serve(t, req, id).1) && t' == Serve(t, req, id).0
  }

  lemma RejectsKeepTables(t: Tables, req: Request, id: Id)
    ensures !Serve(t, req, id).1.Posted? ==> Serve(t, req, id).0 == t
  {
  }

  /** What a closed call answered is the serial answer now, if nothing else was committed. */
  lemma SerialAnswer(log: seq<Event>, log': seq<Event>, id: Id, f: Ended)
    requires Linearized(log', id, f) && f.fate.Answered? && f.began == |log|
    requires log' == log + if f.fate.outcome.Posted? then [Committed(id, f.req)] else []
    ensures ServedAs(Replay(log), f.req, id, f.fate, Replay(log'))
  {
    assert f.at == |log| && log'[..f.at] == log;
    if f.fate.outcome.Posted? {
      ReplayAppend(log, Committed(id, f.req));
    } else {
      assert log' == log;
      RejectsKeepTables(Replay(log), f.req, id);
    }
  }

  // ---- Suspense and the card flows ----

  /** What one event moves into suspense: card postings on a wallet, and anything else. */
  function CardFlow(e: Event): int {
    match e
    case Committed(_, CardIn(_, _, amount)) => -(amount as int)
    case Committed(_, CardOut(_, _, amount)) => amount
    case _ => 0
  }

  /** A transfer into suspense, and a top-up of suspense itself, which takes as much as it gives. */
  predicate PaysSuspense(e: Event) {
    e.Committed? && !e.req.CardOut? && (if e.req.Transfer? then e.req.to else e.req.wallet) == SUSPENSE
  }

  function OtherFlow(e: Event): int { if PaysSuspense(e) then e.req.amount else 0 }

  function CardFlows(log: seq<Event>): int {
    if |log| == 0 then 0 else CardFlows(log[..|log| - 1]) + CardFlow(log[|log| - 1])
  }

  function OtherFlows(log: seq<Event>): int {
    if |log| == 0 then 0 else OtherFlows(log[..|log| - 1]) + OtherFlow(log[|log| - 1])
  }

  predicate SomePaySuspense(log: seq<Event>) { exists e :: e in log && PaysSuspense(e) }

  function SuspenseOf(t: Tables): int {
    if SUSPENSE in t.accounts then Sum(t.entries, t.accounts[SUSPENSE]) else 0
  }

  lemma EventSuspense(t: Tables, e: Event)
    requires Sound(t) && EventOk(t, e)
    ensures SuspenseOf(Apply(t, e)) == SuspenseOf(t) + CardFlow(e) + OtherFlow(e)
    ensures OtherFlow(e) >= 0 && (OtherFlow(e) > 0 <==> PaysSuspense(e))
  {
    match e
    case Ensured(code, account) =>
      EnsureSheet(t, code, account);
      if SUSPENSE in t.accounts { assert Sheet(Apply(t, e))[SUSPENSE] == Sheet(t)[SUSPENSE]; }
      else if code == SUSPENSE { assert Sheet(Apply(t, e))[SUSPENSE] == 0; }
    case Committed(id, req) =>
      ServeMoves(t, req, id);
      SuspenseNeverPays(t, req, id);
      if SUSPENSE in t.accounts {
        ShiftAt(Sheet(t), req.First(), req.Second(), req.FirstDelta(), SUSPENSE);
        assert Sheet(Apply(t, e))[SUSPENSE] == SuspenseOf(Apply(t, e));
      }
  }

  lemma {:induction false} LogSuspense(log: seq<Event>)
    requires SerialLog(log)
    ensures SuspenseOf(Replay(log)) == CardFlows(log) + OtherFlows(log)
    ensures OtherFlows(log) >= 0 && (OtherFlows(log) > 0 <==> SomePaySuspense(log))
  {
    if |log| > 0 {
      var before, e := log[..|log| - 1], log[|log| - 1];
      assert log == before + [e];
      SerialSound(before);
      LogSuspense(before);
      EventSuspense(Replay(before), e);
    }
  }

  /** Suspense under concurrency: in every reachable committed state it is what committed card
      withdrawals moved in and top-ups moved out, exactly as long as nobody paid suspense itself. */
  lemma SuspenseIsCardFlowIff(schedule: seq<Action>)
    ensures var db := Run(INIT, schedule);
            && SuspenseOf(db.tables) >= CardFlows(db.log)
            && (SuspenseOf(db.tables) == CardFlows(db.log) <==> !SomePaySuspense(db.log))
  {
    Serializable(schedule);
    LogSuspense(Run(INIT, schedule).log);
  }

  /** How one action moves the history: nothing recorded is ever rewritten. */
  ghost predicate Extends(db: Db, db': Db) {
    && db.log <= db'.log
    && (forall id :: id in db.ended ==> id in db'.ended && db'.ended[id] == db.ended[id])
    && (forall id :: id in db.active ==>
          if id in db'.active then db'.active[id].began == db.active[id].began
          else id in db'.ended && db'.ended[id].began == db.active[id].began)
  }

  lemma ExecExtends(db: Db, a: Action)
    requires GlobalInv(db)
    ensures Extends(db, Exec(db, a))
  {
    if a.Statement? && a.id in db.active { StatementExtends(db, a.id); }
  }

  lemma StatementExtends(db: Db, id: Id)
    requires GlobalInv(db) && id in db.active
    ensures Extends(db, RunStatement(db, id))
  {
    var db' := RunStatement(db, id);
    StatementFootprint(db, id);
    assert Footprint(db, db', id);
  }

  lemma {:induction false} RunExtends(db: Db, schedule: seq<Action>)
    requires Inv(db)
    ensures Extends(db, Run(db, schedule)) && Inv(Run(db, schedule))
  {
    RunKeepsInv(db, schedule);
    if |schedule| > 0 {
      var mid := Run(db, schedule[..|schedule| - 1]);
      RunExtends(db, schedule[..|schedule| - 1]);
      ExecExtends(mid, schedule[|schedule| - 1]);
    }
  }

  /** Real time: a transaction begun after another ended takes effect no earlier, and sees
      its posting if it made one. */
  lemma RealTimeOrder(before: seq<Action>, earlier: Id, later: Id, req: Request, after: seq<Action>)
    requires var db := Run(INIT, before);
             earlier in db.ended && later !in db.active && later !in db.ended
    requires later in Run(INIT, before + [Begin(later, req)] + after).ended
    ensures var db := Run(INIT, before + [Begin(later, req)] + after);
            && earlier in db.ended
            && db.ended[earlier].at <= db.ended[later].at
            && (db.ended[earlier].fate == Answered(Posted(earlier)) ==> db.ended[earlier].at < db.ended[later].at)
  {
    var db := Run(INIT, before);
    InitInv();
    RunKeepsInv(INIT, before);
    RunConcat(INIT, before, [Begin(later, req)]);
    RunConcat(INIT, before + [Begin(later, req)], after);
    assert [Begin(later, req)][..0] == [];
    BegunLater(db, earlier, later, req, after);
  }

  lemma BegunLater(db: Db, earlier: Id, later: Id, req: Request, after: seq<Action>)
    requires Inv(db) && earlier in db.ended && later !in db.active && later !in db.ended
    requires later in Run(Exec(db, Begin(later, req)), after).ended
    ensures var db' := Run(Exec(db, Begin(later, req)), after);
            && earlier in db'.ended
            && db'.ended[earlier].at <= db'.ended[later].at
            && (db'.ended[earlier].fate == Answered(Posted(earlier)) ==> db'.ended[earlier].at < db'.ended[later].at)
  {
    var db1 := Exec(db, Begin(later, req));
    ExecKeepsInv(db, Begin(later, req));
    RunExtends(db1, after);
    assert Linearized(db.log, earlier, db.ended[earlier]);
    assert Linearized(Run(db1, after).log, later, Run(db1, after).ended[later]);
  }

  /** Ids are not reused: a transaction open at both ends of a schedule was open all along. */
  lemma WasOpen(db: Db, id: Id, after: seq<Action>)
    requires Inv(db) && id in db.active && |after| > 0 && id in Run(db, after).active
    ensures id in Run(db, after[..|after| - 1]).active
  {
    var mid := Run(db, after[..|after| - 1]);
    RunExtends(db, after[..|after| - 1]);
    if id !in mid.active { ExecExtends(mid, after[|after| - 1]); RunKeepsInv(db, after); }
  }

  /** Locked-balance stability: as long as the holder of a row lock is open, no schedule of
      others moves the account's committed sum, and the lock stays with its holder. */
  lemma {:induction false} LockedBalanceStable(db: Db, id: Id, account: Id, after: seq<Action>)
    requires Inv(db) && account in db.locks && db.locks[account] == id
    requires id in Run(db, after).active
    ensures var db' := Run(db, after);
            && account in db'.locks && db'.locks[account] == id
            && Sum(db'.tables.entries, account) == Sum(db.tables.entries, account)
  {
    if |after| > 0 {
      var mid, a := Run(db, after[..|after| - 1]), after[|after| - 1];
      WasOpen(db, id, after);
      RunKeepsInv(db, after[..|after| - 1]);
      LockedBalanceStable(db, id, account, after[..|after| - 1]);
      OneStepStable(mid, a, id, account);
    }
  }

  lemma StatementStable(db: Db, runner: Id, id: Id, account: Id)
    requires Inv(db) && account in db.locks && db.locks[account] == id
    requires runner in db.active && id in RunStatement(db, runner).active
    ensures var db' := RunStatement(db, runner);
            && account in db'.locks && db'.locks[account] == id
            && Sum(db'.tables.entries, account) == Sum(db.tables.entries, account)
  {
    StatementFootprint(db, runner);
    var s := db.active[runner];
    if s.pc.Commit? {
      CommitStable(db, runner, id, account);
    }
  }

  lemma CommitStable(db: Db, runner: Id, id: Id, account: Id)
    requires account in db.locks && db.locks[account] == id
    requires runner in db.active && runner != id && SessionInv(db, runner, db.active[runner])
    requires db.active[runner].pc.Commit?
    ensures var db' := CommitStatement(db, runner, db.active[runner]);
            && account in db'.locks && db'.locks[account] == id
            && Sum(db'.tables.entries, account) == Sum(db.tables.entries, account)
  {
    var s := db.active[runner];
    SumPosting(db.tables.entries, s.req, runner, s.first, s.second, account);
  }

  lemma EnsureStable(db: Db, code: Code, uuid: Id, account: Id)
    ensures var db' := Exec(db, Ensure(code, uuid));
            db'.locks == db.locks && Sum(db'.tables.entries, account) == Sum(db.tables.entries, account)
  {
  }

  lemma AbortStable(db: Db, other: Id, id: Id, account: Id)
    requires account in db.locks && db.locks[account] == id && id in Exec(db, Abort(other)).active
    ensures var db' := Exec(db, Abort(other));
            && account in db'.locks && db'.locks[account] == id
            && db'.tables == db.tables
  {
  }

  lemma OneStepStable(db: Db, a: Action, id: Id, account: Id)
    requires Inv(db) && account in db.locks && db.locks[account] == id
    requires id in Exec(db, a).active
    ensures var db' := Exec(db, a);
            && account in db'.locks && db'.locks[account] == id
            && Sum(db'.tables.entries, account) == Sum(db.tables.entries, account)
  {
    match a
    case Statement(runner) => if runner in db.active { StatementStable(db, runner, id, account); }
    case Abort(other) => AbortStable(db, other, id, account);
    case Ensure(code, uuid) => EnsureStable(db, code, uuid, account);
    case Begin(_, _) =>
  }

  lemma {:induction false} CommittedKey(log: seq<Event>, n: nat)
    requires SerialLog(log) && n < |log| && log[n].Committed?
    ensures log[n].req.PostingKey() in Replay(log).transactions
  {
    if n < |log| - 1 { CommittedKey(log[..|log| - 1], n); }
  }

  /** Every transaction row was committed by an event of the log with its key. */
  lemma {:induction false} RowCommitted(log: seq<Event>, key: Key) returns (n: nat)
    requires SerialLog(log) && key in Replay(log).transactions
    ensures n < |log| && log[n].Committed? && log[n].req.PostingKey() == key
    ensures log[n].id == Replay(log).transactions[key].id
  {
    n := |log| - 1;
    var before := log[..n];
    if !log[n].Committed? || log[n].req.PostingKey() != key { n := RowCommitted(before, key); }
  }

  /** At most one posting per client transaction id and kind, in any serial log. */
  lemma {:induction false} OnePostingPerKey(log: seq<Event>, i: nat, j: nat)
    requires SerialLog(log) && i < j < |log| && log[i].Committed? && log[j].Committed?
    ensures log[i].req.PostingKey() != log[j].req.PostingKey()
  {
    if j < |log| - 1 {
      OnePostingPerKey(log[..|log| - 1], i, j);
    } else {
      CommittedKey(log[..j], i);
    }
  }
}
