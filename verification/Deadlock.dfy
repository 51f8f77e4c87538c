/** When open transactions block each other: exactly when the accounts they lock, first and then
    second, form a cycle. */
module Deadlock {
  import opened LedgerSpec
  import opened PostgresMachine
  import opened Linearizability
  import opened MapSums

  predicate CanStep(db: Db, id: Id) { id in db.active && RunStatement(db, id) != db }

  predicate Locking(s: Session) { s.pc.LockFirst? || s.pc.LockSecond? }

  // ---- Who can take its next step ----

  /** A statement that is not waiting changes the session's program counter or ends it. */
  lemma StatementMoves(db: Db, id: Id)
    requires id in db.active && SessionInv(db, id, db.active[id]) && !Locking(db.active[id])
    requires db.active[id].pc.InsertTx? ==> !KeyPending(db, id, db.active[id].req.PostingKey())
    ensures CanStep(db, id)
  {
    var db' := RunStatement(db, id);
    assert id in db'.active ==> db'.active[id].pc != db.active[id].pc;
  }

  lemma LockerSteps(db: Db, id: Id)
    requires id in db.active && Locking(db.active[id])
    requires var code := if db.active[id].pc.LockFirst? then db.active[id].req.First() else db.active[id].req.Second();
             code in db.tables.accounts ==> Free(db, db.tables.accounts[code], id)
    ensures CanStep(db, id)
  {
    var db' := RunStatement(db, id);
    assert id in db'.active ==> db'.active[id].pc != db.active[id].pc;
  }

  /** Past the locks: either the session can go on, or the twin that it waits for can. */
  lemma PastLocksSteps(db: Db, id: Id)
    requires Inv(db) && id in db.active && !Locking(db.active[id])
    ensures exists i :: CanStep(db, i) && !Locking(db.active[i])
  {
    if db.active[id].pc.InsertTx? && KeyPending(db, id, db.active[id].req.PostingKey()) {
      var other :| other in db.active && other != id && db.active[other].row.Some?;
      FreeSteps(db, other);
    } else {
      FreeSteps(db, id);
    }
  }

  lemma FreeSteps(db: Db, id: Id)
    requires Inv(db) && id in db.active && (!Locking(db.active[id]) || db.active[id].row.Some?)
    requires db.active[id].pc.InsertTx? && db.active[id].row.None? ==>
               !KeyPending(db, id, db.active[id].req.PostingKey())
    ensures CanStep(db, id) && !Locking(db.active[id])
  {
    assert SessionInv(db, id, db.active[id]);
    StatementMoves(db, id);
  }

  lemma NobodyHolds(db: Db)
    requires Inv(db) && forall i :: i in db.active ==> db.active[i].pc.LockFirst?
    ensures db.locks == map[]
  {
  }

  // ---- Cycles ----

  /** The place after i on a cycle of n. */
  function Next(i: nat, n: nat): (j: nat)
    requires i < n
    ensures j < n
  {
    if i + 1 == n then 0 else i + 1
  }

  predicate Distinct(c: seq<Id>) { forall i, j | 0 <= i < j < |c| :: c[i] != c[j] }

  predicate OpenAll(db: Db, c: seq<Id>) { forall i :: 0 <= i < |c| ==> c[i] in db.active }

  predicate LockingAll(db: Db, c: seq<Id>)
    requires OpenAll(db, c)
  {
    forall i :: 0 <= i < |c| ==> Locking(db.active[c[i]])
  }

  /** Two or more open transactions on different existing accounts that have not locked both rows
      yet, each of which locks second the account that the next one locks first. For transactions
      that have just begun it can be told from the requests. */
  predicate Cycle(db: Db, c: seq<Id>) {
    && |c| >= 2 && OpenAll(db, c) && LockingAll(db, c)
    && (forall i :: 0 <= i < |c| ==> db.active[c[i]].req.First() in db.tables.accounts)
    && (forall i, j | 0 <= i < j < |c| :: db.active[c[i]].req.First() != db.active[c[j]].req.First())
    && (forall i :: 0 <= i < |c| ==> db.active[c[i]].req.Second() == db.active[c[Next(i, |c|)]].req.First())
  }

  /** The session has its first row and waits for the second, which the other one holds as its
      first. */
  predicate WaitsFor(db: Db, id: Id, holder: Id) {
    && id in db.active && db.active[id].pc.LockSecond? && holder in db.active && holder != id
    && var code := db.active[id].req.Second();
    && code in db.tables.accounts && db.tables.accounts[code] in db.locks
    && db.locks[db.tables.accounts[code]] == holder
    && db.active[holder].req.First() == code
  }

  predicate Blocked(db: Db, c: seq<Id>) {
    && |c| >= 2 && Distinct(c)
    && forall i :: 0 <= i < |c| ==> WaitsFor(db, c[i], c[Next(i, |c|)])
  }

  lemma WaiterCannotStep(db: Db, id: Id, holder: Id)
    requires WaitsFor(db, id, holder)
    ensures !CanStep(db, id)
  {
  }

  // ---- Stuck means a cycle ----

  predicate Chain(db: Db, p: seq<Id>) {
    && |p| > 0 && OpenAll(db, p)
    && (forall i :: 0 <= i < |p| ==> db.active[p[i]].pc.LockSecond?)
    && (forall i :: 0 <= i < |p| - 1 ==> WaitsFor(db, p[i], p[i + 1]))
    && Distinct(p)
  }

  function Holder(db: Db, id: Id): Id {
    if id !in db.active || db.active[id].req.Second() !in db.tables.accounts then id
    else
      var account := db.tables.accounts[db.active[id].req.Second()];
      if account in db.locks then db.locks[account] else id
  }

  /** Whoever has its first row waits for one that has its first row too. */
  predicate AllWait(db: Db) {
    forall id {:trigger Holder(db, id)} | id in db.active && db.active[id].pc.LockSecond? ::
      WaitsFor(db, id, Holder(db, id)) && db.active[Holder(db, id)].pc.LockSecond?
  }

  /** While everybody is still locking, a row is only held by a session that has it as its first. */
  lemma HeldAsFirst(db: Db, code: Code)
    requires Inv(db) && forall i :: i in db.active ==> Locking(db.active[i])
    requires code in db.tables.accounts && db.tables.accounts[code] in db.locks
    ensures var holder := db.locks[db.tables.accounts[code]];
            holder in db.active && db.active[holder].pc.LockSecond? && db.active[holder].req.First() == code
  {
    var holder := db.locks[db.tables.accounts[code]];
    assert Owns(db.active[holder], db.tables.accounts[code]);
    assert SessionInv(db, holder, db.active[holder]);
  }

  /** So a session that cannot lock its second row waits for one of those. */
  lemma WaitsForHolder(db: Db, id: Id)
    requires Inv(db) && id in db.active && db.active[id].pc.LockSecond? && !CanStep(db, id)
    requires forall i :: i in db.active ==> Locking(db.active[i])
    ensures WaitsFor(db, id, Holder(db, id)) && db.active[Holder(db, id)].pc.LockSecond?
  {
    var code := db.active[id].req.Second();
    if code !in db.tables.accounts || Free(db, db.tables.accounts[code], id) { LockerSteps(db, id); }
    HeldAsFirst(db, code);
  }

  lemma HolderIsLast(db: Db, p: seq<Id>, holder: Id)
    requires Chain(db, p) && WaitsFor(db, p[|p| - 1], holder) && holder !in p
    requires db.active[holder].pc.LockSecond?
    ensures Chain(db, p + [holder])
  {
    var q := p + [holder];
    assert forall i :: 0 <= i < |p| ==> q[i] == p[i];
  }

  /** Following the holders must come back to the path. */
  lemma {:induction false} Follow(db: Db, p: seq<Id>) returns (c: seq<Id>)
    requires Chain(db, p) && AllWait(db)
    ensures Blocked(db, c)
    decreases |db.active.Keys| - |p|
  {
    var holder := Holder(db, p[|p| - 1]);
    if j :| 0 <= j < |p| && p[j] == holder {
      c := p[j..];
    } else {
      HolderIsLast(db, p, holder);
      ChainIsShort(db, p + [holder]);
      c := Follow(db, p + [holder]);
    }
  }

  lemma ChainIsShort(db: Db, p: seq<Id>)
    requires Chain(db, p)
    ensures |p| <= |db.active.Keys|
  {
    DistinctIsShort(p, db.active.Keys);
  }

  lemma {:induction false} DistinctIsShort(p: seq<Id>, all: set<Id>)
    requires forall i :: 0 <= i < |p| ==> p[i] in all
    requires Distinct(p)
    ensures |p| <= |all|
  {
    if |p| > 0 { DistinctIsShort(p[1..], all - {p[0]}); }
  }

  lemma EveryoneWaits(db: Db)
    requires Inv(db) && Stuck(db)
    requires forall i :: i in db.active ==> Locking(db.active[i])
    ensures AllWait(db)
  {
    forall id | id in db.active && db.active[id].pc.LockSecond?
      ensures WaitsFor(db, id, Holder(db, id)) && db.active[Holder(db, id)].pc.LockSecond?
    {
      WaitsForHolder(db, id);
    }
  }

  lemma StartersStep(db: Db)
    requires Inv(db) && db.active != map[] && forall id :: id in db.active ==> db.active[id].pc.LockFirst?
    ensures exists i :: CanStep(db, i)
  {
    var id :| id in db.active;
    NobodyHolds(db);
    LockerSteps(db, id);
  }

  ghost predicate Stuck(db: Db) { db.active != map[] && forall i :: !CanStep(db, i) }

  lemma StuckAreLocking(db: Db)
    requires Inv(db) && Stuck(db)
    ensures forall id :: id in db.active ==> Locking(db.active[id])
  {
    if id :| id in db.active && !Locking(db.active[id]) { PastLocksSteps(db, id); }
  }

  lemma SomeoneWaits(db: Db)
    requires Inv(db) && Stuck(db)
    ensures exists id :: id in db.active && db.active[id].pc.LockSecond?
  {
    StuckAreLocking(db);
    if forall id :: id in db.active ==> db.active[id].pc.LockFirst? { StartersStep(db); }
  }

  /** If nobody can go on, some of the open transactions wait for each other in a cycle. */
  lemma StuckIsBlocked(db: Db) returns (c: seq<Id>)
    requires Inv(db) && Stuck(db)
    ensures Blocked(db, c)
  {
    SomeoneWaits(db);
    StuckAreLocking(db);
    EveryoneWaits(db);
    var id :| id in db.active && db.active[id].pc.LockSecond?;
    c := Follow(db, [id]);
  }

  lemma HeldFirst(db: Db, c: seq<Id>, i: nat)
    requires Blocked(db, c) && i < |c|
    ensures c[i] in db.active
    ensures var code := db.active[c[i]].req.First();
            code in db.tables.accounts && db.tables.accounts[code] in db.locks
            && db.locks[db.tables.accounts[code]] == c[i]
  {
    var before := if i == 0 then |c| - 1 else i - 1;
    assert Next(before, |c|) == i;
    assert WaitsFor(db, c[before], c[i]);
  }

  /** What is blocked is a cycle of the requests. */
  lemma BlockedIsCycle(db: Db, c: seq<Id>)
    requires Blocked(db, c)
    ensures Cycle(db, c)
  {
    forall i | 0 <= i < |c|
      ensures c[i] in db.active && Locking(db.active[c[i]]) && db.active[c[i]].req.First() in db.tables.accounts
      ensures db.active[c[i]].req.Second() == db.active[c[Next(i, |c|)]].req.First()
    {
      HeldFirst(db, c, i);
      assert WaitsFor(db, c[i], c[Next(i, |c|)]);
    }
    forall i, j | 0 <= i < j < |c| ensures db.active[c[i]].req.First() != db.active[c[j]].req.First() {
      HeldFirst(db, c, i);
      HeldFirst(db, c, j);
    }
  }

  // ---- A cycle can block ----

  function FirstAccount(db: Db, id: Id): Id {
    if id in db.active && db.active[id].req.First() in db.tables.accounts
    then db.tables.accounts[db.active[id].req.First()] else 0
  }

  predicate HoldsFirst(db: Db, id: Id) {
    && id in db.active && db.active[id].pc.LockSecond?
    && FirstAccount(db, id) in db.locks && db.locks[FirstAccount(db, id)] == id
  }

  predicate MayLock(db: Db, id: Id) {
    id in db.active && db.active[id].pc.LockFirst? && FirstAccount(db, id) !in db.locks
  }

  /** The first n of the cycle have locked their first rows, and the others can. */
  predicate Holding(db: Db, c: seq<Id>, n: nat) {
    && n <= |c|
    && (forall i | 0 <= i < n :: HoldsFirst(db, c[i]))
    && (forall i | n <= i < |c| :: MayLock(db, c[i]))
  }

  function Statements(ids: seq<Id>): seq<Action> { seq(|ids|, i requires 0 <= i < |ids| => Statement(ids[i])) }

  lemma CycleDistinct(db: Db, c: seq<Id>)
    requires Cycle(db, c) && Injective(db.tables.accounts)
    ensures forall i, j | 0 <= i < |c| && 0 <= j < |c| && i != j ::
              c[i] != c[j] && FirstAccount(db, c[i]) != FirstAccount(db, c[j])
  {
    forall i, j | 0 <= i < |c| && 0 <= j < |c| && i != j
      ensures c[i] != c[j] && FirstAccount(db, c[i]) != FirstAccount(db, c[j])
    {
      var k, l := if i < j then i else j, if i < j then j else i;
      assert db.active[c[k]].req.First() != db.active[c[l]].req.First();
    }
  }

  /** One session locks its first row: its own state and this lock are all that changes. */
  ghost predicate LocksFirst(db: Db, db': Db, id: Id) {
    && db'.tables == db.tables && MayLock(db, id) && HoldsFirst(db', id)
    && db'.locks == db.locks[FirstAccount(db, id) := id]
    && db'.active == db.active[id := db'.active[id]] && db'.active[id].req == db.active[id].req
  }

  lemma LockStep(db: Db, id: Id)
    requires MayLock(db, id) && db.active[id].req.First() in db.tables.accounts
    ensures LocksFirst(db, RunStatement(db, id), id)
  {
  }

  lemma CycleKept(db: Db, db': Db, c: seq<Id>)
    requires Cycle(db, c) && db'.tables.accounts == db.tables.accounts
    requires forall i :: 0 <= i < |c| ==>
               c[i] in db'.active && db'.active[c[i]].req == db.active[c[i]].req && Locking(db'.active[c[i]])
    ensures Cycle(db', c)
  {
  }

  lemma LockNext(db: Db, db': Db, c: seq<Id>, n: nat)
    requires Cycle(db, c) && n < |c| && Injective(db.tables.accounts) && Holding(db, c, n)
    requires LocksFirst(db, db', c[n])
    ensures Cycle(db', c) && Holding(db', c, n + 1)
  {
    CycleDistinct(db, c);
    CycleKept(db, db', c);
    forall i | 0 <= i < n + 1 ensures HoldsFirst(db', c[i]) {
      if i < n { assert HoldsFirst(db, c[i]) && c[i] != c[n] && FirstAccount(db, c[i]) != FirstAccount(db, c[n]); }
    }
    forall i | n + 1 <= i < |c| ensures MayLock(db', c[i]) {
      assert MayLock(db, c[i]) && FirstAccount(db, c[i]) != FirstAccount(db, c[n]);
    }
  }

  lemma RunOneMore(db: Db, c: seq<Id>, n: nat)
    requires 0 < n <= |c|
    ensures Run(db, Statements(c[..n])) == Exec(Run(db, Statements(c[..n - 1])), Statement(c[n - 1]))
  {
    assert Statements(c[..n])[..n - 1] == Statements(c[..n - 1]);
  }

  lemma {:induction false} LockFirsts(db: Db, c: seq<Id>, n: nat)
    requires Cycle(db, c) && n <= |c| && Injective(db.tables.accounts) && Holding(db, c, 0)
    ensures var db' := Run(db, Statements(c[..n]));
            && db'.tables == db.tables && Cycle(db', c) && Holding(db', c, n)
  {
    if n > 0 {
      LockFirsts(db, c, n - 1);
      var mid := Run(db, Statements(c[..n - 1]));
      RunOneMore(db, c, n);
      LockStep(mid, c[n - 1]);
      LockNext(mid, RunStatement(mid, c[n - 1]), c, n - 1);
    }
  }

  lemma HoldingBlocks(db: Db, c: seq<Id>)
    requires Cycle(db, c) && Injective(db.tables.accounts) && Holding(db, c, |c|)
    ensures Blocked(db, c)
  {
    CycleDistinct(db, c);
    forall i | 0 <= i < |c| ensures WaitsFor(db, c[i], c[Next(i, |c|)]) {
      assert HoldsFirst(db, c[i]) && HoldsFirst(db, c[Next(i, |c|)]);
    }
  }

  /** Once the transactions of a cycle have begun, one statement of each blocks them all. */
  lemma CycleBlocks(db: Db, c: seq<Id>)
    requires Inv(db) && Cycle(db, c) && forall i :: i in db.active ==> db.active[i].pc.LockFirst?
    ensures Blocked(Run(db, Statements(c)), c)
  {
    NobodyHolds(db);
    LockFirsts(db, c, |c|);
    assert c[..|c|] == c;
    HoldingBlocks(Run(db, Statements(c)), c);
  }

  // ---- Blocked is forever ----

  lemma WaiterStays(db: Db, a: Action, id: Id, holder: Id)
    requires WaitsFor(db, id, holder) && !CanStep(db, holder)
    requires a != Abort(id) && a != Abort(holder)
    ensures WaitsFor(Exec(db, a), id, holder)
  {
    match a {
      case Statement(other) =>
        if other == id {
          WaiterCannotStep(db, id, holder);
        } else if other != holder && other in db.active {
          StatementFootprint(db, other);
        }
      case Abort(_) =>
      case Begin(_, _) =>
      case Ensure(_, _) =>
    }
  }

  lemma BlockedCannotStep(db: Db, c: seq<Id>, i: nat)
    requires Blocked(db, c) && i < |c|
    ensures !CanStep(db, c[i])
  {
    WaiterCannotStep(db, c[i], c[Next(i, |c|)]);
  }

  lemma BlockedStays(db: Db, a: Action, c: seq<Id>)
    requires Blocked(db, c) && !(a.Abort? && a.id in c)
    ensures Blocked(Exec(db, a), c)
  {
    forall i | 0 <= i < |c| ensures WaitsFor(Exec(db, a), c[i], c[Next(i, |c|)]) {
      BlockedCannotStep(db, c, Next(i, |c|));
      WaiterStays(db, a, c[i], c[Next(i, |c|)]);
    }
  }

  /** Whatever is scheduled, none of them moves until one of them is aborted. */
  lemma {:induction false} BlockedForever(db: Db, c: seq<Id>, schedule: seq<Action>)
    requires Blocked(db, c) && forall id :: id in c ==> Abort(id) !in schedule
    ensures Blocked(Run(db, schedule), c)
    ensures forall id :: id in c ==> id in Run(db, schedule).active && !CanStep(Run(db, schedule), id)
  {
    if |schedule| > 0 {
      var before, a := schedule[..|schedule| - 1], schedule[|schedule| - 1];
      assert a in schedule;
      BlockedForever(db, c, before);
      BlockedStays(Run(db, before), a, c);
    }
    forall id | id in c ensures id in Run(db, schedule).active && !CanStep(Run(db, schedule), id) {
      var i :| 0 <= i < |c| && c[i] == id;
      assert WaitsFor(Run(db, schedule), c[i], c[Next(i, |c|)]);
      BlockedCannotStep(Run(db, schedule), c, i);
    }
  }

  // ---- Termination ----

  /** The statements a session has left at most. */
  function Remaining(pc: Pc): nat {
    match pc
    case LockFirst => 8
    case LockSecond => 7
    case Lookup => 6
    case ReadBalance => 5
    case InsertTx => 4
    case InsertFirst => 3
    case InsertSecond => 2
    case Commit => 1
    case DupReadFirst(_) => 2
    case DupReadSecond(_, _) => 1
  }

  function Left(active: map<Id, Session>): map<Id, int> { map id | id in active :: Remaining(active[id].pc) }

  ghost function Work(db: Db): int { Total(Left(db.active)) }

  lemma StatementAdvances(db: Db, id: Id)
    requires CanStep(db, id) && id in RunStatement(db, id).active
    ensures Remaining(RunStatement(db, id).active[id].pc) < Remaining(db.active[id].pc)
  {
  }

  /** Every statement that is not waiting uses up work, whatever its transaction. */
  lemma StepUsesWork(db: Db, id: Id)
    requires CanStep(db, id)
    ensures Work(RunStatement(db, id)) < Work(db)
  {
    var db' := RunStatement(db, id);
    StatementFootprint(db, id);
    if id in db'.active {
      StatementAdvances(db, id);
      assert Left(db'.active) == Left(db.active)[id := Remaining(db'.active[id].pc)];
      TotalUpdate(Left(db.active), id, Remaining(db'.active[id].pc));
    } else {
      assert Left(db'.active) == Left(db.active) - {id};
      TotalRemove(Left(db.active), id);
    }
  }

  lemma WorkBound(db: Db)
    ensures 0 <= Work(db) <= 8 * |db.active|
  {
    assert Left(db.active).Keys == db.active.Keys;
    TotalBounded(Left(db.active), 8);
  }

  predicate Busy(db: Db, schedule: seq<Action>) {
    forall n | 0 <= n < |schedule| ::
      schedule[n].Statement? && CanStep(Run(db, schedule[..n]), schedule[n].id)
  }

  /** No livelock: a schedule in which nobody waits is no longer than the work at its start. */
  lemma {:induction false} BusyIsBounded(db: Db, schedule: seq<Action>)
    requires Busy(db, schedule)
    ensures |schedule| <= Work(db) - Work(Run(db, schedule))
    ensures |schedule| <= 8 * |db.active|
  {
    WorkBound(Run(db, schedule));
    WorkBound(db);
    if |schedule| > 0 {
      var before := schedule[..|schedule| - 1];
      forall n | 0 <= n < |before|
        ensures before[n].Statement? && CanStep(Run(db, before[..n]), before[n].id)
      {
        assert before[..n] == schedule[..n];
      }
      BusyIsBounded(db, before);
      StepUsesWork(Run(db, before), schedule[|schedule| - 1].id);
    }
  }

  lemma RunSingle(db: Db, a: Action)
    ensures Run(db, [a]) == Exec(db, a)
  {
    assert [a][..0] == [];
  }

  // ---- No cycle, no deadlock ----

  ghost predicate Acyclic(db: Db) { forall c :: !Cycle(db, c) }

  /** Deadlock freedom: without a cycle, some open transaction is not waiting. */
  lemma AcyclicCanStep(db: Db)
    requires Inv(db) && Acyclic(db) && db.active != map[]
    ensures exists id :: CanStep(db, id)
  {
    if Stuck(db) {
      var c := StuckIsBlocked(db);
      BlockedIsCycle(db, c);
    }
  }

  lemma CycleWasThere(db: Db, id: Id, c: seq<Id>)
    requires id in db.active && Cycle(RunStatement(db, id), c)
    ensures Cycle(db, c)
  {
    var db' := RunStatement(db, id);
    StatementFootprint(db, id);
    assert db'.tables.accounts == db.tables.accounts;
    if id in db'.active { WasLocking(db, id); }
    SameRequests(db, db', c);
  }

  lemma SameRequests(db: Db, db': Db, c: seq<Id>)
    requires Cycle(db', c) && db'.tables.accounts == db.tables.accounts
    requires forall id :: id in db'.active ==>
               && id in db.active && db'.active[id].req == db.active[id].req
               && (Locking(db'.active[id]) ==> Locking(db.active[id]))
    ensures Cycle(db, c)
  {
  }

  lemma WasLocking(db: Db, id: Id)
    requires id in db.active && id in RunStatement(db, id).active
    ensures Locking(RunStatement(db, id).active[id]) ==> Locking(db.active[id])
  {
  }

  lemma StatementKeepsAcyclic(db: Db, id: Id)
    requires Acyclic(db) && id in db.active
    ensures Acyclic(RunStatement(db, id))
  {
    forall c ensures !Cycle(RunStatement(db, id), c) {
      if Cycle(RunStatement(db, id), c) { CycleWasThere(db, id, c); }
    }
  }

  predicate StatementsOnly(schedule: seq<Action>) { forall a :: a in schedule ==> a.Statement? }

  lemma {:induction false} StatementsKeep(db: Db, schedule: seq<Action>)
    requires Inv(db) && Acyclic(db) && StatementsOnly(schedule)
    ensures Inv(Run(db, schedule)) && Acyclic(Run(db, schedule))
  {
    if |schedule| > 0 {
      var before, a := schedule[..|schedule| - 1], schedule[|schedule| - 1];
      assert a in schedule;
      StatementsKeep(db, before);
      ExecKeepsInv(Run(db, before), a);
      if a.id in Run(db, before).active { StatementKeepsAcyclic(Run(db, before), a.id); }
    }
  }

  lemma StepSound(db: Db, id: Id)
    requires Inv(db) && Acyclic(db) && id in db.active
    ensures var db' := Run(db, [Statement(id)]); Inv(db') && Acyclic(db')
  {
    RunSingle(db, Statement(id));
    ExecKeepsInv(db, Statement(id));
    StatementKeepsAcyclic(db, id);
  }

  lemma StepWorks(db: Db, id: Id)
    requires CanStep(db, id)
    ensures 0 <= Work(Run(db, [Statement(id)])) < Work(db)
  {
    RunSingle(db, Statement(id));
    StepUsesWork(db, id);
    WorkBound(RunStatement(db, id));
  }

  predicate Finishes(db: Db, schedule: seq<Action>) {
    Run(db, schedule).active == map[] && StatementsOnly(schedule)
  }

  lemma AlreadyFinished(db: Db)
    requires db.active == map[]
    ensures Finishes(db, [])
  {
  }

  lemma BothStatements(step: seq<Action>, rest: seq<Action>)
    requires StatementsOnly(step) && StatementsOnly(rest)
    ensures StatementsOnly(step + rest)
  {
  }

  lemma FinishesAfter(db: Db, step: seq<Action>, rest: seq<Action>)
    requires StatementsOnly(step) && Finishes(Run(db, step), rest)
    ensures Finishes(db, step + rest)
  {
    RunConcat(db, step, rest);
    BothStatements(step, rest);
  }

  /** Without a cycle, statements alone finish all open transactions. */
  lemma AcyclicFinish(db: Db) returns (schedule: seq<Action>)
    requires Inv(db) && Acyclic(db)
    ensures Finishes(db, schedule) && |schedule| <= 8 * |db.active|
  {
    WorkBound(db);
    schedule := FinishAll(db);
  }

  lemma {:induction false} FinishAll(db: Db) returns (schedule: seq<Action>)
    requires Inv(db) && Acyclic(db) && Work(db) >= 0
    ensures Finishes(db, schedule) && |schedule| <= Work(db)
    decreases Work(db), 1
  {
    if db.active == map[] {
      AlreadyFinished(db);
      schedule := [];
    } else {
      AcyclicCanStep(db);
      var id :| CanStep(db, id);
      schedule := FinishLater(db, id);
    }
  }

  lemma {:induction false} FinishLater(db: Db, id: Id) returns (schedule: seq<Action>)
    requires Inv(db) && Acyclic(db) && Work(db) >= 0 && CanStep(db, id)
    ensures Finishes(db, schedule) && |schedule| <= Work(db)
    decreases Work(db), 0
  {
    StepSound(db, id);
    StepWorks(db, id);
    var rest := FinishAll(Run(db, [Statement(id)]));
    FinishesAfter(db, [Statement(id)], rest);
    schedule := [Statement(id)] + rest;
  }

  // ---- Exactly then ----

  /** However the statements of the open transactions are interleaved, all can still finish. */
  ghost predicate NeverDeadlocks(db: Db) {
    forall schedule :: StatementsOnly(schedule) ==> exists rest :: Finishes(Run(db, schedule), rest)
  }

  /** Whoever can go on outside the cycle leaves it as it is. */
  lemma OutsiderKeepsCycle(db: Db, id: Id, c: seq<Id>)
    requires Cycle(db, c) && id in db.active && id !in c
    ensures Cycle(RunStatement(db, id), c)
  {
    var db' := RunStatement(db, id);
    StatementFootprint(db, id);
    assert forall i :: 0 <= i < |c| ==> c[i] != id;
    assert db'.tables.accounts == db.tables.accounts;
    CycleKept(db, db', c);
  }

  lemma InsiderKeepsCycle(db: Db, i: nat, c: seq<Id>)
    requires Cycle(db, c) && i < |c| && MayLock(db, c[i])
    ensures Cycle(RunStatement(db, c[i]), c) && CanStep(db, c[i])
  {
    LockStep(db, c[i]);
    CycleKept(db, RunStatement(db, c[i]), c);
  }

  /** When neither is left to do, everybody who has one row waits for another. */
  lemma NothingLeft(db: Db, c: seq<Id>)
    requires Inv(db) && Cycle(db, c)
    requires forall id :: CanStep(db, id) ==> id in c
    requires forall i :: 0 <= i < |c| ==> !MayLock(db, c[i])
    ensures AllWait(db) && exists id :: id in db.active && db.active[id].pc.LockSecond?
  {
    if id :| id in db.active && !Locking(db.active[id]) { PastLocksSteps(db, id); }
    forall id | id in db.active && db.active[id].pc.LockSecond?
      ensures WaitsFor(db, id, Holder(db, id)) && db.active[Holder(db, id)].pc.LockSecond?
    {
      if i :| 0 <= i < |c| && c[i] == id { InsiderWaits(db, c, i); } else { WaitsForHolder(db, id); }
    }
    FirstIsHeld(db, c, 0);
  }

  lemma FirstIsHeld(db: Db, c: seq<Id>, i: nat)
    requires Inv(db) && Cycle(db, c) && i < |c| && !MayLock(db, c[i])
    requires forall id :: id in db.active ==> Locking(db.active[id])
    ensures FirstAccount(db, c[i]) in db.locks
    ensures var holder := db.locks[FirstAccount(db, c[i])];
            && holder in db.active && db.active[holder].pc.LockSecond?
            && db.active[holder].req.First() == db.active[c[i]].req.First()
  {
    assert SessionInv(db, c[i], db.active[c[i]]);
    HeldAsFirst(db, db.active[c[i]].req.First());
  }

  lemma InsiderWaits(db: Db, c: seq<Id>, i: nat)
    requires Inv(db) && Cycle(db, c) && i < |c| && db.active[c[i]].pc.LockSecond?
    requires forall id :: id in db.active ==> Locking(db.active[id])
    requires forall j :: 0 <= j < |c| ==> !MayLock(db, c[j])
    ensures WaitsFor(db, c[i], Holder(db, c[i])) && db.active[Holder(db, c[i])].pc.LockSecond?
  {
    CycleDistinct(db, c);
    FirstIsHeld(db, c, Next(i, |c|));
    assert db.active[c[i]].req.First() != db.active[c[Next(i, |c|)]].req.First();
  }

  lemma TrapNow(db: Db, c: seq<Id>) returns (blocked: seq<Id>)
    requires Inv(db) && Cycle(db, c)
    requires forall id :: CanStep(db, id) ==> id in c
    requires forall i :: 0 <= i < |c| ==> !MayLock(db, c[i])
    ensures Blocked(Run(db, []), blocked)
  {
    NothingLeft(db, c);
    var id :| id in db.active && db.active[id].pc.LockSecond?;
    blocked := Follow(db, [id]);
  }

  /** From any reachable state, a cycle can be run into a deadlock: others go on as far as they
      can, the cycle locks what it can, and then some wait for each other. */
  lemma {:induction false} Trap(db: Db, c: seq<Id>) returns (schedule: seq<Action>, blocked: seq<Id>)
    requires Inv(db) && Cycle(db, c) && Work(db) >= 0
    ensures StatementsOnly(schedule) && Blocked(Run(db, schedule), blocked)
    decreases Work(db), 1
  {
    if id :| CanStep(db, id) && id !in c {
      OutsiderKeepsCycle(db, id, c);
      schedule, blocked := TrapLater(db, id, c);
    } else if i :| 0 <= i < |c| && MayLock(db, c[i]) {
      InsiderKeepsCycle(db, i, c);
      schedule, blocked := TrapLater(db, c[i], c);
    } else {
      schedule := [];
      blocked := TrapNow(db, c);
    }
  }

  lemma {:induction false} TrapLater(db: Db, id: Id, c: seq<Id>) returns (schedule: seq<Action>, blocked: seq<Id>)
    requires Inv(db) && Work(db) >= 0 && CanStep(db, id) && Cycle(RunStatement(db, id), c)
    ensures StatementsOnly(schedule) && Blocked(Run(db, schedule), blocked)
    decreases Work(db), 0
  {
    RunSingle(db, Statement(id));
    ExecKeepsInv(db, Statement(id));
    StepWorks(db, id);
    var rest;
    rest, blocked := Trap(Run(db, [Statement(id)]), c);
    RunConcat(db, [Statement(id)], rest);
    schedule := [Statement(id)] + rest;
  }

  /** In any reachable state, the open transactions never deadlock if and only if there is no cycle
      among those that are still locking. */
  lemma NeverDeadlocksIff(db: Db)
    requires Inv(db)
    ensures NeverDeadlocks(db) <==> Acyclic(db)
  {
    if Acyclic(db) {
      forall schedule | StatementsOnly(schedule) ensures exists rest :: Finishes(Run(db, schedule), rest) {
        StatementsKeep(db, schedule);
        var rest := AcyclicFinish(Run(db, schedule));
      }
    } else {
      var c :| Cycle(db, c);
      CycleNeverFinishes(db, c);
    }
  }

  lemma CycleNeverFinishes(db: Db, c: seq<Id>)
    requires Inv(db) && Cycle(db, c)
    ensures !NeverDeadlocks(db)
  {
    WorkBound(db);
    var schedule, blocked := Trap(db, c);
    forall rest | StatementsOnly(rest) ensures !Finishes(Run(db, schedule), rest) {
      BlockedForever(Run(db, schedule), blocked, rest);
      assert blocked[0] in blocked;
    }
  }

  // ---- Lock order ----

  /** Each request locks its accounts in the order of their ranks. */
  ghost predicate Ordered(db: Db, rank: Code -> nat) {
    forall id :: id in db.active ==>
      var r := db.active[id].req; r.First() == r.Second() || rank(r.First()) < rank(r.Second())
  }

  lemma RankStep(db: Db, rank: Code -> nat, c: seq<Id>, i: nat)
    requires Ordered(db, rank) && Cycle(db, c) && i < |c|
    ensures rank(db.active[c[i]].req.First()) < rank(db.active[c[Next(i, |c|)]].req.First())
  {
    var j := Next(i, |c|);
    assert if i < j then db.active[c[i]].req.First() != db.active[c[j]].req.First()
           else db.active[c[j]].req.First() != db.active[c[i]].req.First();
  }

  lemma {:induction false} RankClimbs(db: Db, rank: Code -> nat, c: seq<Id>, i: nat)
    requires Ordered(db, rank) && Cycle(db, c) && i < |c|
    ensures rank(db.active[c[0]].req.First()) + i <= rank(db.active[c[i]].req.First())
  {
    if i > 0 {
      RankClimbs(db, rank, c, i - 1);
      RankStep(db, rank, c, i - 1);
    }
  }

  lemma CycleBreaksOrder(db: Db, rank: Code -> nat, c: seq<Id>)
    requires Cycle(db, c)
    ensures !Ordered(db, rank)
  {
    if Ordered(db, rank) {
      RankStep(db, rank, c, |c| - 1);
      RankClimbs(db, rank, c, |c| - 1);
    }
  }

  /** Locking in a common order excludes cycles, so nothing deadlocks. */
  lemma OrderedIsAcyclic(db: Db, rank: Code -> nat)
    requires Ordered(db, rank)
    ensures Acyclic(db)
  {
    forall c ensures !Cycle(db, c) {
      if Cycle(db, c) { CycleBreaksOrder(db, rank, c); }
    }
  }
}
