/** Any number of Transfer, CardIn and CardOut transactions interleaved statement by statement
    under Read Committed, with FOR UPDATE row locks and the unique key on transactions. */
module PostgresMachine {
  import opened Options
  import opened LedgerSpec

  /** The statement a transaction runs next. */
  datatype Pc =
    | LockFirst
    | LockSecond
    | Lookup
    | DupReadFirst(row: TxRow)
    | DupReadSecond(row: TxRow, balance: int)
    | ReadBalance
    | InsertTx
    | InsertFirst
    | InsertSecond
    | Commit

  /** An open transaction with its own uncommitted writes. `began` and `seen` are history:
      the number of commits before its BEGIN and before its duplicate lookup. */
  datatype Session = Session(
    req: Request, pc: Pc, first: Id, second: Id,
    row: Option<TxRow>, entries: seq<Entry>, began: nat, seen: nat)

  datatype Fate = Answered(outcome: Outcome) | Aborted

  /** A transaction that ended. `at` is the number of commits at which it takes effect. */
  datatype Ended = Ended(req: Request, fate: Fate, began: nat, at: nat, ended: nat)

  datatype Db = Db(
    tables: Tables, locks: map<Id, Id>, active: map<Id, Session>, ended: map<Id, Ended>, log: seq<Event>)

  const INIT := Db(EMPTY, map[], map[], map[], [])

  /** What a scheduler may do next. A transaction's id is also the UUID of its row. */
  datatype Action =
    | Ensure(code: Code, account: Id)
    | Begin(id: Id, req: Request)
    | Statement(id: Id)
    | Abort(id: Id)

  function Unlocked(locks: map<Id, Id>, id: Id): map<Id, Id> {
    map a | a in locks && locks[a] != id :: locks[a]
  }

  /** ROLLBACK or the deferred rollback of a return: locks go, uncommitted writes are lost. */
  function Finish(db: Db, id: Id, fate: Fate, at: nat): Db
    requires id in db.active
  {
    var s := db.active[id];
    db.(locks := Unlocked(db.locks, id), active := db.active - {id},
        ended := db.ended[id := Ended(s.req, fate, s.began, at, |db.log|)])
  }

  function Continue(db: Db, id: Id, s: Session): Db { db.(active := db.active[id := s]) }

  predicate Free(db: Db, account: Id, id: Id) {
    account in db.locks ==> db.locks[account] == id
  }

  /** Another open transaction has inserted this key: the unique index makes us wait. */
  predicate KeyPending(db: Db, id: Id, key: Key) {
    exists other | other in db.active ::
      other != id && db.active[other].row.Some? && db.active[other].req.PostingKey() == key
  }

  /** SELECT id FROM accounts WHERE code = ... FOR UPDATE. */
  function LockStatement(db: Db, id: Id, s: Session): Db
    requires id in db.active && s.pc in {LockFirst, LockSecond}
  {
    var code := if s.pc.LockFirst? then s.req.First() else s.req.Second();
    if code !in db.tables.accounts then
      Finish(db, id, Answered(if s.pc.LockFirst? then FirstNotFound else SecondNotFound), |db.log|)
    else
      var account := db.tables.accounts[code];
      if !Free(db, account, id) then db
      else Continue(db.(locks := db.locks[account := id]), id,
                    if s.pc.LockFirst? then s.(pc := LockSecond, first := account)
                    else s.(pc := Lookup, second := account))
  }

  /** The duplicate lookup, and the balance reads that follow it on either branch. All of
      them run before the session's own writes, so they see the committed tables. */
  function ReadStatement(db: Db, id: Id, s: Session): Db
    requires id in db.active
    requires s.pc.Lookup? || s.pc.DupReadFirst? || s.pc.DupReadSecond? || s.pc.ReadBalance?
  {
    match s.pc
    case Lookup =>
      var key := s.req.PostingKey();
      Continue(db, id, s.(seen := |db.log|, pc :=
        if key in db.tables.transactions then DupReadFirst(db.tables.transactions[key])
        else if s.req.ChecksFunds() then ReadBalance
        else InsertTx))
    case DupReadFirst(row) =>
      var balance := Sum(db.tables.entries, s.first);
      if s.req.Transfer? then Continue(db, id, s.(pc := DupReadSecond(row, balance)))
      else Finish(db, id, Answered(Duplicate(row, [balance])), s.seen)
    case DupReadSecond(row, balance) =>
      Finish(db, id, Answered(Duplicate(row, [balance, Sum(db.tables.entries, s.second)])), s.seen)
    case ReadBalance =>
      if Sum(db.tables.entries, s.first) < s.req.amount then Finish(db, id, Answered(InsufficientFunds), s.seen)
      else Continue(db, id, s.(pc := InsertTx))
  }

  /** INSERT INTO transactions: waits for a pending twin, fails on a committed one. */
  function InsertTxStatement(db: Db, id: Id, s: Session): Db
    requires id in db.active
  {
    var key := s.req.PostingKey();
    if KeyPending(db, id, key) then db
    else if key in db.tables.transactions then Finish(db, id, Aborted, |db.log|)
    else Continue(db, id, s.(row := Some(TxRow(id, s.req.RowStatus())), pc := InsertFirst))
  }

  function CommitStatement(db: Db, id: Id, s: Session): Db
    requires id in db.active && s.row.Some?
  {
    var tables := Tables(db.tables.accounts, db.tables.transactions[s.req.PostingKey() := s.row.value],
                         db.tables.entries + s.entries);
    Finish(db.(tables := tables, log := db.log + [Committed(id, s.req)]), id, Answered(Posted(id)), |db.log|)
  }

  /** One statement of one open transaction; the same state again means that it is waiting. */
  function RunStatement(db: Db, id: Id): Db
    requires id in db.active
  {
    var s := db.active[id];
    match s.pc
    case LockFirst | LockSecond => LockStatement(db, id, s)
    case InsertTx => InsertTxStatement(db, id, s)
    case InsertFirst =>
      Continue(db, id, s.(pc := InsertSecond, entries := s.entries + [Entry(id, s.first, s.req.FirstDelta())]))
    case InsertSecond =>
      Continue(db, id, s.(pc := Commit, entries := s.entries + [Entry(id, s.second, -s.req.FirstDelta())]))
    case Commit => if s.row.Some? then CommitStatement(db, id, s) else db
    case _ => ReadStatement(db, id, s)
  }

  /** The next statement waits: for a row lock, or for the fate of a pending twin. */
  predicate Waiting(db: Db, id: Id)
    requires id in db.active
  {
    var s := db.active[id];
    match s.pc
    case LockFirst => s.req.First() in db.tables.accounts && !Free(db, db.tables.accounts[s.req.First()], id)
    case LockSecond => s.req.Second() in db.tables.accounts && !Free(db, db.tables.accounts[s.req.Second()], id)
    case InsertTx => KeyPending(db, id, s.req.PostingKey())
    case _ => false
  }

  /** The footprint of one statement: it changes its own session and locks, or ends its own
      transaction, and it changes the committed tables only if it is the commit. */
  ghost predicate Footprint(db: Db, db': Db, id: Id)
    requires id in db.active
  {
    && (if id in db'.active then
          && db'.active == db.active[id := db'.active[id]] && db'.ended == db.ended
          && db'.active[id].began == db.active[id].began && db'.active[id].req == db.active[id].req
          && (forall a :: a in db.locks ==> a in db'.locks && db'.locks[a] == db.locks[a])
        else
          && db'.active == db.active - {id}
          && id in db'.ended && db'.ended == db.ended[id := db'.ended[id]]
          && db'.ended[id].began == db.active[id].began && db'.ended[id].req == db.active[id].req
          && db'.locks == Unlocked(db.locks, id))
    && (if db.active[id].pc.Commit? && db.active[id].row.Some? then
          db' == CommitStatement(db, id, db.active[id])
        else db'.tables == db.tables && db'.log == db.log)
  }

  lemma LockFootprint(db: Db, id: Id)
    requires id in db.active && db.active[id].pc in {LockFirst, LockSecond}
    ensures Footprint(db, LockStatement(db, id, db.active[id]), id)
  {
    assert db.active == db.active[id := db.active[id]];
  }

  lemma ReadFootprint(db: Db, id: Id)
    requires id in db.active
    requires var pc := db.active[id].pc; pc.Lookup? || pc.DupReadFirst? || pc.DupReadSecond? || pc.ReadBalance?
    ensures Footprint(db, ReadStatement(db, id, db.active[id]), id)
  {
  }

  lemma InsertTxFootprint(db: Db, id: Id)
    requires id in db.active && db.active[id].pc.InsertTx?
    ensures Footprint(db, InsertTxStatement(db, id, db.active[id]), id)
  {
    assert db.active == db.active[id := db.active[id]];
  }

  lemma WriteFootprint(db: Db, id: Id)
    requires id in db.active
    requires var pc := db.active[id].pc; pc.InsertFirst? || pc.InsertSecond? || pc.Commit?
    ensures Footprint(db, RunStatement(db, id), id)
  {
    assert db.active == db.active[id := db.active[id]];
  }

  lemma StatementFootprint(db: Db, id: Id)
    requires id in db.active
    ensures Footprint(db, RunStatement(db, id), id)
  {
    match db.active[id].pc
    case LockFirst | LockSecond => LockFootprint(db, id);
    case InsertTx => InsertTxFootprint(db, id);
    case InsertFirst | InsertSecond | Commit => WriteFootprint(db, id);
    case _ => ReadFootprint(db, id);
  }

  function Exec(db: Db, a: Action): Db {
    match a
    case Ensure(code, account) =>
      if code in db.tables.accounts || account in db.tables.accounts.Values then db
      else db.(tables := db.tables.(accounts := db.tables.accounts[code := account]),
               log := db.log + [Ensured(code, account)])
    case Begin(id, req) =>
      if id in db.active || id in db.ended then db
      else if req.amount <= 0 then
        db.(ended := db.ended[id := Ended(req, Answered(InvalidAmount), |db.log|, |db.log|, |db.log|)])
      else Continue(db, id, Session(req, LockFirst, 0, 0, None, [], |db.log|, 0))
    case Statement(id) => if id in db.active then RunStatement(db, id) else db
    case Abort(id) => if id in db.active then Finish(db, id, Aborted, |db.log|) else db
  }

  function Run(db: Db, schedule: seq<Action>): Db {
    if |schedule| == 0 then db
    else Exec(Run(db, schedule[..|schedule| - 1]), schedule[|schedule| - 1])
  }

  lemma {:induction false} RunConcat(db: Db, before: seq<Action>, after: seq<Action>)
    ensures Run(db, before + after) == Run(Run(db, before), after)
  {
    if |after| == 0 {
      assert before + after == before;
    } else {
      var a := after[|after| - 1];
      assert (before + after)[..|before + after| - 1] == before + after[..|after| - 1];
      RunConcat(db, before, after[..|after| - 1]);
    }
  }
}
