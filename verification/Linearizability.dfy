/** Every schedule of PostgresMachine is explained by the serial specification. */
module Linearizability {
  import opened Options
  import opened LedgerSpec
  import opened PostgresMachine

  predicate Inserted(pc: Pc) { pc.InsertFirst? || pc.InsertSecond? || pc.Commit? }
  predicate Duplicated(pc: Pc) { pc.DupReadFirst? || pc.DupReadSecond? }
  predicate LookedUp(pc: Pc) { !pc.LockFirst? && !pc.LockSecond? && !pc.Lookup? }

  /** The session holds the row lock of the account with this code. */
  predicate Holds(db: Db, id: Id, code: Code, account: Id) {
    && code in db.tables.accounts && db.tables.accounts[code] == account
    && account in db.locks && db.locks[account] == id
  }

  /** What the session saw at its duplicate lookup: the same two accounts, and the sums they
      still have now. */
  ghost predicate Stable(db: Db, s: Session)
    requires s.seen <= |db.log|
  {
    var past := Replay(db.log[..s.seen]);
    && s.req.First() in past.accounts && past.accounts[s.req.First()] == s.first
    && s.req.Second() in past.accounts && past.accounts[s.req.Second()] == s.second
    && Sum(past.entries, s.first) == Sum(db.tables.entries, s.first)
    && Sum(past.entries, s.second) == Sum(db.tables.entries, s.second)
  }

  /** What the lookup found is what the program counter remembers. */
  ghost predicate Found(db: Db, s: Session)
    requires s.seen <= |db.log|
  {
    var past := Replay(db.log[..s.seen]);
    var key := s.req.PostingKey();
    if Duplicated(s.pc) then key in past.transactions && past.transactions[key] == s.pc.row
    else key !in past.transactions
  }

  function Written(id: Id, s: Session): seq<Entry> {
    var both := Postings(s.req, id, s.first, s.second);
    match s.pc
    case InsertSecond => both[..1]
    case Commit => both
    case _ => []
  }

  ghost predicate SessionInv(db: Db, id: Id, s: Session) {
    && s.req.amount > 0
    && s.began <= |db.log|
    && (!s.pc.LockFirst? ==> Holds(db, id, s.req.First(), s.first))
    && (!s.pc.LockFirst? && !s.pc.LockSecond? ==> Holds(db, id, s.req.Second(), s.second))
    && (LookedUp(s.pc) ==> s.began <= s.seen <= |db.log| && Stable(db, s) && Found(db, s))
    && (s.pc.DupReadSecond? ==> s.req.Transfer? && s.pc.balance == Sum(db.tables.entries, s.first))
    && (s.pc.ReadBalance? ==> s.req.ChecksFunds())
    && ((s.pc.InsertTx? || Inserted(s.pc)) && s.req.ChecksFunds() ==>
          Sum(db.tables.entries, s.first) >= s.req.amount)
    && (Inserted(s.pc) ==> s.req.PostingKey() !in db.tables.transactions)
    && s.row == (if Inserted(s.pc) then Some(TxRow(id, s.req.RowStatus())) else None)
    && s.entries == Written(id, s)
  }

  /** The ended transaction answered what the serial specification answers after the first
      `at` commits, a point inside its own lifetime; if it posted, it is commit number `at`. */
  ghost predicate Linearized(log: seq<Event>, id: Id, f: Ended) {
    && f.began <= f.at <= f.ended <= |log|
    && (f.fate.Answered? ==>
          && Serve(Replay(log[..f.at]), f.req, id).1 == f.fate.outcome
          && (f.fate.outcome.Posted? ==> f.at < f.ended && log[f.at] == Committed(id, f.req)))
  }

  ghost predicate GlobalInv(db: Db) {
    && SerialLog(db.log)
    && db.tables == Replay(db.log)
    && Injective(db.tables.accounts)
    && LocksOwned(db.locks, db.active)
    && (forall id :: id in db.active ==> id !in db.ended)
    && (forall k :: k in db.tables.transactions ==> db.tables.transactions[k].id in db.ended)
    && UniqueInFlight(db)
  }

  /** A row lock is the holder's first lock or its second. */
  predicate Owns(s: Session, account: Id) {
    (account == s.first && !s.pc.LockFirst?) || (account == s.second && !s.pc.LockFirst? && !s.pc.LockSecond?)
  }

  ghost predicate LocksOwned(locks: map<Id, Id>, active: map<Id, Session>) {
    forall a :: a in locks ==> locks[a] in active && Owns(active[locks[a]], a)
  }

  ghost predicate UniqueInFlight(db: Db) {
    forall i, j | i in db.active && j in db.active && i != j ::
      db.active[i].row.Some? && db.active[j].row.Some? ==>
        db.active[i].req.PostingKey() != db.active[j].req.PostingKey()
  }

  ghost predicate SessionsInv(db: Db) {
    forall id :: id in db.active ==> SessionInv(db, id, db.active[id])
  }

  ghost predicate EndedInv(db: Db) {
    forall id :: id in db.ended ==> Linearized(db.log, id, db.ended[id])
  }

  /** Nothing is in the log but the postings of ended transactions. */
  ghost predicate LogInv(db: Db) {
    forall n | 0 <= n < |db.log| && db.log[n].Committed? ::
      var id := db.log[n].id;
      && id in db.ended && db.ended[id].fate == Answered(Posted(id))
      && db.ended[id].req == db.log[n].req && db.ended[id].at == n
  }

  ghost predicate Inv(db: Db) { GlobalInv(db) && SessionsInv(db) && EndedInv(db) && LogInv(db) }

  /** Nothing committed, and nobody but `id` gave up a lock. */
  ghost predicate Quiet(db: Db, db': Db, id: Id) {
    && db'.tables == db.tables && db'.log == db.log
    && (forall a :: a in db.locks && db.locks[a] != id ==> a in db'.locks && db'.locks[a] == db.locks[a])
  }

  /** Statements that commit nothing leave every other session's view intact. */
  lemma OthersKept(db: Db, db': Db, id: Id)
    requires SessionsInv(db) && Quiet(db, db', id)
    ensures forall other | other in db.active && other != id :: SessionInv(db', other, db.active[other])
  {
  }

  lemma UniqueKept(db: Db, id: Id, s: Session)
    requires UniqueInFlight(db) && id in db.active && s.req == db.active[id].req
    requires s.row.Some? ==> db.active[id].row.Some? || !KeyPending(db, id, s.req.PostingKey())
    ensures UniqueInFlight(Continue(db, id, s))
  {
  }

  ghost predicate Continues(db: Db, db': Db, id: Id, s: Session) {
    && id in db.active && s.req == db.active[id].req
    && db' == Continue(db.(locks := db'.locks), id, s) && Quiet(db, db', id)
    && (forall a :: a in db'.locks ==>
          if db'.locks[a] == id then Owns(s, a) else a in db.locks && db.locks[a] == db'.locks[a])
    && (s.row.Some? ==> db.active[id].row.Some? || !KeyPending(db, id, s.req.PostingKey()))
  }

  lemma ContinueKeepsGlobal(db: Db, db': Db, id: Id, s: Session)
    requires GlobalInv(db) && Continues(db, db', id, s)
    ensures GlobalInv(db')
  {
    UniqueKept(db, id, s);
    assert Continue(db, id, s).active == db'.active;
  }

  lemma ContinueKeepsInv(db: Db, db': Db, id: Id, s: Session)
    requires Inv(db) && Continues(db, db', id, s) && SessionInv(db', id, s)
    ensures Inv(db')
  {
    OthersKept(db, db', id);
    ContinueKeepsGlobal(db, db', id, s);
    assert EndedInv(db') && LogInv(db');
  }

  lemma FinishKeepsInv(db: Db, id: Id, fate: Fate, at: nat)
    requires Inv(db) && id in db.active
    requires Linearized(db.log, id, Ended(db.active[id].req, fate, db.active[id].began, at, |db.log|))
    ensures Inv(Finish(db, id, fate, at))
  {
    var db' := Finish(db, id, fate, at);
    OthersKept(db, db', id);
  }

  lemma WholeLog(log: seq<Event>)
    ensures log[..|log|] == log
  {
  }

  lemma LockSession(db: Db, id: Id, s: Session, account: Id)
    requires SessionInv(db, id, s) && id in db.active && db.active[id] == s
    requires s.pc in {LockFirst, LockSecond}
    requires var code := if s.pc.LockFirst? then s.req.First() else s.req.Second();
             code in db.tables.accounts && db.tables.accounts[code] == account && Free(db, account, id)
    ensures var db' := LockStatement(db, id, s);
            SessionInv(db', id, db'.active[id]) && db'.active[id].row.None?
  {
  }

  lemma LockKeepsInv(db: Db, id: Id)
    requires Inv(db) && id in db.active && db.active[id].pc in {LockFirst, LockSecond}
    ensures Inv(LockStatement(db, id, db.active[id]))
  {
    var s := db.active[id];
    var db' := LockStatement(db, id, s);
    var code := if s.pc.LockFirst? then s.req.First() else s.req.Second();
    WholeLog(db.log);
    if code !in db.tables.accounts {
      FinishKeepsInv(db, id, Answered(if s.pc.LockFirst? then FirstNotFound else SecondNotFound), |db.log|);
    } else if Free(db, db.tables.accounts[code], id) {
      LockSession(db, id, s, db.tables.accounts[code]);
      ContinueKeepsInv(db, db', id, db'.active[id]);
    }
  }

  lemma LookupSession(db: Db, id: Id, s: Session)
    requires db.tables == Replay(db.log) && SessionInv(db, id, s) && id in db.active && s.pc.Lookup?
    ensures var db' := ReadStatement(db, id, s);
            SessionInv(db', id, db'.active[id]) && db'.active[id].row.None?
  {
    WholeLog(db.log);
  }

  lemma LookupKeepsInv(db: Db, id: Id)
    requires Inv(db) && id in db.active && db.active[id].pc.Lookup?
    ensures Inv(ReadStatement(db, id, db.active[id]))
  {
    var db' := ReadStatement(db, id, db.active[id]);
    LookupSession(db, id, db.active[id]);
    ContinueKeepsInv(db, db', id, db'.active[id]);
  }

  /** The balances read after the lookup are those of the lookup: the answer is the serial one
      at `seen`, however many others committed in between. */
  lemma ReadSession(db: Db, id: Id, s: Session)
    requires SessionInv(db, id, s) && id in db.active && db.active[id] == s
    requires Duplicated(s.pc) || s.pc.ReadBalance?
    ensures var db' := ReadStatement(db, id, s);
            if id in db'.active then SessionInv(db', id, db'.active[id]) && db'.active[id].row.None?
            else Linearized(db.log, id, db'.ended[id])
  {
    if Duplicated(s.pc) {
      var past := Replay(db.log[..s.seen]);
      DuplicateServed(past, s.req, id);
    }
  }

  lemma DuplicateServed(t: Tables, r: Request, id: Id)
    requires r.amount > 0 && r.First() in t.accounts && r.Second() in t.accounts
    requires r.PostingKey() in t.transactions
    ensures var row, first, second := t.transactions[r.PostingKey()], t.accounts[r.First()], t.accounts[r.Second()];
            Serve(t, r, id).1 == Duplicate(row,
              if r.Transfer? then [Sum(t.entries, first), Sum(t.entries, second)] else [Sum(t.entries, first)])
  {
  }

  lemma ReadKeepsInv(db: Db, id: Id)
    requires Inv(db) && id in db.active
    requires var pc := db.active[id].pc; Duplicated(pc) || pc.ReadBalance?
    ensures Inv(ReadStatement(db, id, db.active[id]))
  {
    var s := db.active[id];
    var db' := ReadStatement(db, id, s);
    ReadSession(db, id, s);
    if id in db'.active {
      ContinueKeepsInv(db, db', id, db'.active[id]);
    } else {
      FinishKeepsInv(db, id, db'.ended[id].fate, s.seen);
    }
  }

  lemma InsertTxSession(db: Db, id: Id, s: Session)
    requires SessionInv(db, id, s) && id in db.active && db.active[id] == s && s.pc.InsertTx?
    requires !KeyPending(db, id, s.req.PostingKey()) && s.req.PostingKey() !in db.tables.transactions
    ensures var db' := InsertTxStatement(db, id, s); SessionInv(db', id, db'.active[id])
  {
  }

  lemma InsertTxKeepsInv(db: Db, id: Id)
    requires Inv(db) && id in db.active && db.active[id].pc.InsertTx?
    ensures Inv(InsertTxStatement(db, id, db.active[id]))
  {
    var s := db.active[id];
    var db' := InsertTxStatement(db, id, s);
    if !KeyPending(db, id, s.req.PostingKey()) {
      if s.req.PostingKey() in db.tables.transactions {
        FinishKeepsInv(db, id, Aborted, |db.log|);
      } else {
        InsertTxSession(db, id, s);
        ContinueKeepsInv(db, db', id, db'.active[id]);
      }
    }
  }

  lemma InsertSession(db: Db, id: Id, s: Session)
    requires SessionInv(db, id, s) && id in db.active && db.active[id] == s
    requires s.pc.InsertFirst? || s.pc.InsertSecond?
    ensures var db' := RunStatement(db, id); SessionInv(db', id, db'.active[id])
  {
  }

  lemma InsertKeepsInv(db: Db, id: Id)
    requires Inv(db) && id in db.active
    requires db.active[id].pc.InsertFirst? || db.active[id].pc.InsertSecond?
    ensures Inv(RunStatement(db, id))
  {
    var db' := RunStatement(db, id);
    InsertSession(db, id, db.active[id]);
    ContinueKeepsInv(db, db', id, db'.active[id]);
  }

  /** Appending one event leaves every remembered prefix of the log what it was. */
  lemma PrefixKept(log: seq<Event>, e: Event, n: nat)
    requires n <= |log|
    ensures (log + [e])[..n] == log[..n]
  {
  }

  lemma EndedKept(db: Db, e: Event, id: Id, f: Ended)
    requires Linearized(db.log, id, f)
    ensures Linearized(db.log + [e], id, f)
  {
    PrefixKept(db.log, e, f.at);
  }

  /** Locked-balance stability: another session's commit cannot move the sum of an account this
      session holds. */
  lemma CommitKeepsSum(db: Db, id: Id, other: Id, account: Id)
    requires id in db.active && SessionInv(db, id, db.active[id]) && db.active[id].pc.Commit? && id != other
    requires account in db.locks && db.locks[account] == other
    ensures Sum(CommitStatement(db, id, db.active[id]).tables.entries, account) == Sum(db.tables.entries, account)
  {
    var s := db.active[id];
    SumPosting(db.tables.entries, s.req, id, s.first, s.second, account);
  }

  lemma CommitKeepsOther(db: Db, id: Id, other: Id)
    requires Inv(db) && id in db.active && db.active[id].pc.Commit?
    requires other in db.active && other != id
    ensures SessionInv(CommitStatement(db, id, db.active[id]), other, db.active[other])
  {
    var o := db.active[other];
    if !o.pc.LockFirst? { CommitKeepsSum(db, id, other, o.first); }
    if !o.pc.LockFirst? && !o.pc.LockSecond? { CommitKeepsSum(db, id, other, o.second); }
    if LookedUp(o.pc) { PrefixKept(db.log, Committed(id, db.active[id].req), o.seen); }
  }

  /** The commit is a serial step: run alone now, the request would pass every check again. */
  lemma CommitServes(db: Db, id: Id)
    requires Inv(db) && id in db.active && db.active[id].pc.Commit?
    ensures var s := db.active[id];
            && FreshRow(db.tables, id)
            && Serve(db.tables, s.req, id) == (CommitStatement(db, id, s).tables, Posted(id))
  {
  }

  lemma CommitKeepsHistory(db: Db, id: Id)
    requires Inv(db) && id in db.active && db.active[id].pc.Commit?
    ensures var db' := CommitStatement(db, id, db.active[id]); EndedInv(db') && LogInv(db')
  {
    var s := db.active[id];
    var db' := CommitStatement(db, id, s);
    var e := Committed(id, s.req);
    CommitServes(db, id);
    WholeLog(db.log);
    PrefixKept(db.log, e, |db.log|);
    forall other | other in db'.ended ensures Linearized(db'.log, other, db'.ended[other]) {
      if other != id { EndedKept(db, e, other, db.ended[other]); }
    }
  }

  lemma CommitKeepsGlobal(db: Db, id: Id)
    requires Inv(db) && id in db.active && db.active[id].pc.Commit?
    ensures GlobalInv(CommitStatement(db, id, db.active[id]))
  {
    CommitServes(db, id);
    ReplayAppend(db.log, Committed(id, db.active[id].req));
  }

  lemma CommitKeepsInv(db: Db, id: Id)
    requires Inv(db) && id in db.active && db.active[id].pc.Commit?
    ensures Inv(CommitStatement(db, id, db.active[id]))
  {
    var db' := CommitStatement(db, id, db.active[id]);
    CommitKeepsGlobal(db, id);
    CommitKeepsHistory(db, id);
    forall other | other in db'.active ensures SessionInv(db', other, db'.active[other]) {
      CommitKeepsOther(db, id, other);
    }
  }

  lemma EnsureKeepsInv(db: Db, code: Code, account: Id)
    requires Inv(db)
    ensures Inv(Exec(db, Ensure(code, account)))
  {
    var db' := Exec(db, Ensure(code, account));
    if db' != db {
      var e := Ensured(code, account);
      ReplayAppend(db.log, e);
      forall id | id in db'.active ensures SessionInv(db', id, db'.active[id]) {
        if LookedUp(db.active[id].pc) { PrefixKept(db.log, e, db.active[id].seen); }
      }
      forall id | id in db'.ended ensures Linearized(db'.log, id, db'.ended[id]) {
        EndedKept(db, e, id, db.ended[id]);
      }
    }
  }

  lemma RejectKeepsInv(db: Db, id: Id, req: Request)
    requires Inv(db) && req.amount <= 0
    ensures Inv(Exec(db, Begin(id, req)))
  {
    var db' := Exec(db, Begin(id, req));
    WholeLog(db.log);
    OthersKept(db, db', id);
  }

  lemma BeginKeepsInv(db: Db, id: Id, req: Request)
    requires Inv(db) && req.amount > 0
    ensures Inv(Exec(db, Begin(id, req)))
  {
    var db' := Exec(db, Begin(id, req));
    if id !in db.active && id !in db.ended {
      OthersKept(db, db', id);
      assert SessionInv(db', id, db'.active[id]);
      assert SessionsInv(db');
    }
  }

  lemma ExecKeepsInv(db: Db, a: Action)
    requires Inv(db)
    ensures Inv(Exec(db, a))
  {
    match a
    case Ensure(code, account) => EnsureKeepsInv(db, code, account);
    case Begin(id, req) => if req.amount <= 0 { RejectKeepsInv(db, id, req); } else { BeginKeepsInv(db, id, req); }
    case Abort(id) => if id in db.active { FinishKeepsInv(db, id, Aborted, |db.log|); }
    case Statement(id) =>
      if id in db.active {
        var pc := db.active[id].pc;
        if pc.LockFirst? || pc.LockSecond? { LockKeepsInv(db, id); }
        else if pc.InsertTx? { InsertTxKeepsInv(db, id); }
        else if pc.InsertFirst? || pc.InsertSecond? { InsertKeepsInv(db, id); }
        else if pc.Lookup? { LookupKeepsInv(db, id); }
        else if pc.Commit? { CommitKeepsInv(db, id); }
        else { ReadKeepsInv(db, id); }
      }
  }

  lemma {:induction false} RunKeepsInv(db: Db, schedule: seq<Action>)
    requires Inv(db)
    ensures Inv(Run(db, schedule))
  {
    if |schedule| > 0 {
      RunKeepsInv(db, schedule[..|schedule| - 1]);
      ExecKeepsInv(Run(db, schedule[..|schedule| - 1]), schedule[|schedule| - 1]);
    }
  }

  lemma InitInv()
    ensures Inv(INIT)
  {
  }
}
