/** The Go methods statement by statement, each run against a database that others use between
    any two statements. Every call is a schedule of PostgresMachine, and returns what the
    machine records for it. */
module PostgresLedgers {
  import opened Options
  import opened Int64
  import opened LedgerSpec
  import opened PostgresMachine
  import opened Linearizability
  import opened PostgresTheorems

  /** What happens around one statement: what others do before it runs, whether it fails for an
      outside reason such as a lost connection, and, for COMMIT, whether only its reply is lost. */
  datatype Weather = Weather(others: seq<Action>, fails: bool, replyLost: bool)

  predicate Mine(a: Action, id: Id) { !a.Ensure? && a.id == id }

  /** Others' actions do not touch an open session. */
  lemma OthersLeaveSession(db: Db, a: Action, id: Id)
    requires id in db.active && !Mine(a, id)
    ensures id in Exec(db, a).active && Exec(db, a).active[id] == db.active[id]
  {
    match a {
      case Statement(other) => if other in db.active { StatementFootprint(db, other); }
      case Ensure(_, _) =>
      case Begin(_, _) =>
      case Abort(_) =>
    }
  }

  /** The end of a transaction is never rewritten. */
  lemma EndedStays(before: seq<Action>, a: Action, id: Id)
    requires id in Run(INIT, before).ended
    ensures var db' := Exec(Run(INIT, before), a);
            id in db'.ended && db'.ended[id] == Run(INIT, before).ended[id]
  {
    InitInv();
    RunKeepsInv(INIT, before);
    ExecExtends(Run(INIT, before), a);
  }

  const CALM := Weather([], false, false)

  ghost predicate Calm(weather: nat -> Weather) { forall n :: weather(n) == CALM }

  /** Alone, a transaction finds every row free and no twin pending. */
  lemma AloneNeverWaits(db: Db, id: Id)
    requires Inv(db) && db.active.Keys == {id}
    ensures id in db.active && !Waiting(db, id)
  {
  }

  ghost predicate EndedAs(db: Db, id: Id, req: Request, began: nat, fate: Fate) {
    && id in db.ended && db.ended[id].req == req && db.ended[id].began == began && db.ended[id].fate == fate
  }

  ghost predicate Closed(db: Db, id: Id, s: Session, outcome: Outcome) {
    EndedAs(db, id, s.req, s.began, Answered(outcome))
  }

  /** The call ended as the machine records, and that is a serial answer; undisturbed, it
      answers and posts exactly what the serial specification says. */
  ghost predicate Explained(db: Db, db': Db, id: Id, req: Request, fate: Fate) {
    && EndedAs(db', id, req, |db.log|, fate) && Linearized(db'.log, id, db'.ended[id])
    && (Undisturbed(db.log, db'.log, id, req, fate) ==> ServedAs(db.tables, req, id, fate, db'.tables))
  }

  lemma Explain(before: seq<Action>, after: seq<Action>, id: Id, req: Request, fate: Fate)
    requires EndedAs(Run(INIT, after), id, req, |Run(INIT, before).log|, fate)
    ensures Explained(Run(INIT, before), Run(INIT, after), id, req, fate)
  {
    var db, db' := Run(INIT, before), Run(INIT, after);
    Linearizable(after, id);
    if Undisturbed(db.log, db'.log, id, req, fate) {
      Serializable(after);
      Serializable(before);
      SerialAnswer(db.log, db'.log, id, db'.ended[id]);
    }
  }

  /** SELECT COALESCE(SUM(e.amount), 0) ... WHERE a.code = code: zero without such an account. */
  function BalanceAt(t: Tables, code: Code): int {
    if code in t.accounts then Sum(t.entries, t.accounts[code]) else 0
  }

  /** The balance was read at some moment up to now, no earlier than the end of transaction `id`. */
  ghost predicate ReadSince(history: seq<Action>, id: Id, code: Code, balance: int) {
    exists h: seq<Action> | h <= history ::
      id in Run(INIT, h).ended && balance == BalanceAt(Run(INIT, h).tables, code)
  }

  /** A balance shown for the posting `id`: read after its commit, and not in the red. */
  ghost predicate Shown(history: seq<Action>, id: Id, code: Code, balance: int) {
    ReadSince(history, id, code, balance) && (code != SUSPENSE ==> balance >= 0)
  }

  /** An error goes with an abort, or with a posting whose reply was lost. */
  predicate ErrorMatches(id: Id, err: bool, fate: Fate) {
    if err then fate == Aborted || fate == Answered(Posted(id))
    else fate.Answered? && (fate.outcome.Posted? ==> fate.outcome.id == id)
  }

  lemma ShownLater(history: seq<Action>, history': seq<Action>, id: Id, code: Code, balance: int)
    requires Shown(history, id, code, balance) && history <= history'
    ensures Shown(history', id, code, balance)
  {
  }

  /** What the caller is told: an answer, with the balances read after a posting; or an error,
      which does not say whether the posting was made. */
  datatype Reply = Answer(outcome: Outcome, balances: seq<int>) | Error

  /** Nothing but what is recorded is told; an error is told for what was aborted, and may be for
      a posting. */
  ghost predicate Told(history: seq<Action>, id: Id, codes: seq<Code>, fate: Fate, reply: Reply) {
    match reply
    case Error => fate == Aborted || fate == Answered(Posted(id))
    case Answer(outcome, balances) =>
      && fate == Answered(outcome)
      && if outcome.Posted? then ShownAll(history, id, codes, balances) else balances == []
  }

  ghost predicate ShownAll(history: seq<Action>, id: Id, codes: seq<Code>, balances: seq<int>) {
    |balances| == |codes| && forall i | 0 <= i < |codes| :: Shown(history, id, codes[i], balances[i])
  }

  /** What is told when nobody comes between and nothing is lost. */
  predicate ToldExactly(t: Tables, codes: seq<Code>, fate: Fate, reply: Reply) {
    fate.Answered? && reply == Answer(fate.outcome, if fate.outcome.Posted? then BalancesAt(t, codes) else [])
  }

  function BalancesAt(t: Tables, codes: seq<Code>): seq<int> {
    seq(|codes|, i requires 0 <= i < |codes| => BalanceAt(t, codes[i]))
  }

  lemma ToldBoth(history: seq<Action>, t: Tables, id: Id, from: Code, to: Code, fromBal: int, toBal: int)
    requires Shown(history, id, from, fromBal) && Shown(history, id, to, toBal)
    ensures ShownAll(history, id, [from, to], [fromBal, toBal])
    ensures BalancesAt(t, [from, to]) == [BalanceAt(t, from), BalanceAt(t, to)]
  {
  }

  lemma ToldWallet(history: seq<Action>, t: Tables, id: Id, wallet: Code, balance: int)
    requires Shown(history, id, wallet, balance)
    ensures ShownAll(history, id, [wallet], [balance])
    ensures BalancesAt(t, [wallet]) == [BalanceAt(t, wallet)]
  {
  }

  class PostgresLedger {
    var db: Db
    ghost var history: seq<Action>

    /** The database is what the actions so far have made of an empty one. */
    ghost predicate Valid()
      reads this
    {
      db == Run(INIT, history)
    }

    constructor ()
      ensures Valid() && db == INIT
    {
      db, history := INIT, [];
    }

    method Do(a: Action)
      requires Valid()
      modifies this
      ensures Valid() && db == Exec(old(db), a) && history == old(history) + [a]
    {
      db, history := Exec(db, a), history + [a];
      assert history[..|history| - 1] == old(history);
    }

    method EnsureAccount(code: Code, uuid: Id)
      requires Valid() && uuid !in db.tables.accounts.Values
      modifies this
      ensures Valid() && code in db.tables.accounts
      ensures Sheet(db.tables) == if code in old(db.tables.accounts) then Sheet(old(db.tables))
                                  else Sheet(old(db.tables))[code := 0]
    {
      CommittedSound(history);
      if code !in db.tables.accounts { EnsureSheet(db.tables, code, uuid); }
      Do(Ensure(code, uuid));
    }

    method Balance(code: Code) returns (balance: int)
      requires Valid()
      ensures balance == if code in db.tables.accounts then Sum(db.tables.entries, db.tables.accounts[code]) else 0
      ensures code != SUSPENSE ==> balance >= 0
    {
      CommittedSound(history);
      balance := BalanceAt(db.tables, code);
    }

    /** Balance after the commit of `id`: others run first, and the query may fail. */
    method ReadBack(id: Id, code: Code, weather: Weather) returns (balance: Option<int>)
      requires Valid() && id in db.ended
      modifies this
      ensures Valid() && old(history) <= history
      ensures id in db.ended && db.ended[id] == old(db.ended[id])
      ensures balance.Some? ==> Shown(history, id, code, balance.value)
      ensures weather == CALM ==> db == old(db) && balance == Some(BalanceAt(db.tables, code))
      ensures balance.None? <==> weather.fails
    {
      for i := 0 to |weather.others|
        invariant Valid() && old(history) <= history
        invariant i == 0 ==> db == old(db)
        invariant id in db.ended && db.ended[id] == old(db.ended[id])
      {
        EndedStays(history, weather.others[i], id);
        Do(weather.others[i]);
      }
      if weather.fails { return None; }
      var read := Balance(code);
      balance := Some(read);
    }

    /** The two reads after a transfer's commit; nothing is shown if one fails. */
    method ReadBoth(id: Id, from: Code, to: Code, weather: nat -> Weather) returns (shown: Option<(int, int)>)
      requires Valid() && id in db.ended
      modifies this
      ensures Valid() && old(history) <= history
      ensures id in db.ended && db.ended[id] == old(db.ended[id])
      ensures shown.Some? ==> Shown(history, id, from, shown.value.0) && Shown(history, id, to, shown.value.1)
      ensures Calm(weather) ==>
                db == old(db) && shown == Some((BalanceAt(db.tables, from), BalanceAt(db.tables, to)))
      ensures shown.None? <==> weather(9).fails || weather(10).fails
    {
      var fromBal := ReadBack(id, from, weather(9));
      if fromBal.None? { return None; }
      ghost var before := history;
      var toBal := ReadBack(id, to, weather(10));
      if toBal.None? { return None; }
      ShownLater(before, history, id, from, fromBal.value);
      shown := Some((fromBal.value, toBal.value));
    }

    /** The balances for the answer of a transfer that posted and got its reply. */
    method Receipt(id: Id, from: Code, to: Code, weather: nat -> Weather) returns (reply: Reply)
      requires Valid() && id in db.ended && db.ended[id].fate == Answered(Posted(id))
      modifies this
      ensures Valid() && old(history) <= history
      ensures id in db.ended && db.ended[id] == old(db.ended[id])
      ensures Told(history, id, [from, to], Answered(Posted(id)), reply)
      ensures Calm(weather) ==> db == old(db) && ToldExactly(db.tables, [from, to], Answered(Posted(id)), reply)
      ensures reply.Error? <==> weather(9).fails || weather(10).fails
    {
      var shown := ReadBoth(id, from, to, weather);
      if shown.None? { return Error; }
      ToldBoth(history, db.tables, id, from, to, shown.value.0, shown.value.1);
      reply := Answer(Posted(id), [shown.value.0, shown.value.1]);
    }

    /** ... and of a card posting. */
    method CardReceipt(id: Id, wallet: Code, weather: nat -> Weather) returns (reply: Reply)
      requires Valid() && id in db.ended && db.ended[id].fate == Answered(Posted(id))
      modifies this
      ensures Valid() && old(history) <= history
      ensures id in db.ended && db.ended[id] == old(db.ended[id])
      ensures Told(history, id, [wallet], Answered(Posted(id)), reply)
      ensures Calm(weather) ==> db == old(db) && ToldExactly(db.tables, [wallet], Answered(Posted(id)), reply)
      ensures reply.Error? <==> weather(9).fails
    {
      var balance := ReadBack(id, wallet, weather(9));
      if balance.None? { return Error; }
      ToldWallet(history, db.tables, id, wallet, balance.value);
      reply := Answer(Posted(id), [balance.value]);
    }

    ghost predicate Alone(id: Id)
      reads this
    {
      db.active.Keys == {id}
    }

    /** Nothing was committed and nobody joined. */
    twostate predicate Kept(id: Id)
      reads this
    {
      db.log == old(db.log) && db.tables == old(db.tables) && db.active.Keys <= {id}
    }

    /** Others run; then our next statement may go ahead, unless it still waits or fails. */
    method Turn(id: Id, weather: Weather) returns (ready: bool)
      requires Valid() && id in db.active
      modifies this
      ensures Valid() && old(history) <= history
      ensures ready ==> id in db.active && db.active[id] == old(db.active[id]) && !Waiting(db, id)
      ensures !ready ==> EndedAs(db, id, old(db.active[id].req), old(db.active[id].began), Aborted)
      ensures old(Alone(id)) && weather == CALM ==> ready && db == old(db)
    {
      RunKeepsInv(INIT, history);
      if db.active.Keys == {id} { AloneNeverWaits(db, id); }
      for i := 0 to |weather.others|
        invariant Valid() && old(history) <= history
        invariant id in db.active && db.active[id] == old(db.active[id])
        invariant i == 0 ==> db == old(db)
      {
        if !Mine(weather.others[i], id) {
          OthersLeaveSession(db, weather.others[i], id);
          Do(weather.others[i]);
        }
      }
      ready := !weather.fails && !Waiting(db, id);
      if !ready { Do(Abort(id)); }
    }

    /** The amount check, and BEGIN. */
    method BeginTx(id: Id, req: Request) returns (begun: bool)
      requires Valid() && id !in db.active && id !in db.ended
      modifies this
      ensures Valid() && old(history) <= history && db.log == old(db.log) && db.tables == old(db.tables)
      ensures db.active.Keys == old(db.active.Keys) + if begun then {id} else {}
      ensures begun <==> req.amount > 0
      ensures if begun then id in db.active && db.active[id] == Session(req, LockFirst, 0, 0, None, [], |db.log|, 0)
              else EndedAs(db, id, req, |old(db.log)|, Answered(InvalidAmount))
    {
      Do(Begin(id, req));
      begun := req.amount > 0;
    }

    /** SELECT id FROM accounts WHERE code = ... FOR UPDATE. */
    method LockAccount(id: Id, code: Code, weather: Weather) returns (err: bool, account: Option<Id>)
      requires Valid() && id in db.active
      requires var s := db.active[id];
               || (s.pc.LockFirst? && code == s.req.First())
               || (s.pc.LockSecond? && code == s.req.Second())
      modifies this
      ensures Valid() && old(history) <= history
      ensures err ==> EndedAs(db, id, old(db.active[id].req), old(db.active[id].began), Aborted)
      ensures !err ==>
                var s := old(db.active[id]);
                && account == (if code in db.tables.accounts then Some(db.tables.accounts[code]) else None)
                && if account.None? then Closed(db, id, s, if s.pc.LockFirst? then FirstNotFound else SecondNotFound)
                   else id in db.active && db.active[id] ==
                        if s.pc.LockFirst? then s.(pc := LockSecond, first := account.value)
                        else s.(pc := Lookup, second := account.value)
      ensures !err && account.Some? ==> Holds(db, id, code, account.value)
      ensures old(Alone(id)) && weather == CALM ==> !err && Kept(id)
    {
      account := None;
      var ready := Turn(id, weather);
      if !ready { return true, None; }
      account := if code in db.tables.accounts then Some(db.tables.accounts[code]) else None;
      Do(Statement(id));
      err := false;
    }

    /** SELECT id FROM transactions WHERE client_tx_id = ... AND kind = ... */
    method QueryExisting(id: Id, key: Key, weather: Weather) returns (err: bool, row: Option<TxRow>)
      requires Valid() && id in db.active
      requires db.active[id].pc.Lookup? && key == db.active[id].req.PostingKey()
      modifies this
      ensures Valid() && old(history) <= history
      ensures err ==> EndedAs(db, id, old(db.active[id].req), old(db.active[id].began), Aborted)
      ensures !err ==>
                var s := old(db.active[id]);
                && row == (if key in db.tables.transactions then Some(db.tables.transactions[key]) else None)
                && id in db.active && db.active[id] == s.(seen := |db.log|, pc :=
                     if row.Some? then DupReadFirst(row.value) else if s.req.ChecksFunds() then ReadBalance else InsertTx)
      ensures old(Alone(id)) && weather == CALM ==> !err && Kept(id)
    {
      row := None;
      var ready := Turn(id, weather);
      if !ready { return true, None; }
      row := if key in db.tables.transactions then Some(db.tables.transactions[key]) else None;
      Do(Statement(id));
      err := false;
    }

    /** balanceForAccount. */
    method QueryBalance(id: Id, account: Id, weather: Weather) returns (err: bool, balance: int)
      requires Valid() && id in db.active
      requires var s := db.active[id];
               || ((s.pc.DupReadFirst? || s.pc.ReadBalance?) && account == s.first)
               || (s.pc.DupReadSecond? && account == s.second)
      modifies this
      ensures Valid() && old(history) <= history
      ensures err ==> EndedAs(db, id, old(db.active[id].req), old(db.active[id].began), Aborted)
      ensures !err ==>
                var s := old(db.active[id]);
                && balance == Sum(db.tables.entries, account)
                && match s.pc
                   case DupReadFirst(row) =>
                     if s.req.Transfer? then id in db.active && db.active[id] == s.(pc := DupReadSecond(row, balance))
                     else Closed(db, id, s, Duplicate(row, [balance]))
                   case DupReadSecond(row, first) => Closed(db, id, s, Duplicate(row, [first, balance]))
                   case _ =>
                     if balance < s.req.amount then Closed(db, id, s, InsufficientFunds)
                     else id in db.active && db.active[id] == s.(pc := InsertTx)
      ensures old(Alone(id)) && weather == CALM ==> !err && Kept(id)
    {
      balance := 0;
      var ready := Turn(id, weather);
      if !ready { return true, 0; }
      balance := Sum(db.tables.entries, account);
      Do(Statement(id));
      err := false;
    }

    /** INSERT INTO transactions; a violation of the unique key is an error. */
    method InsertTransaction(id: Id, key: Key, status: Status, weather: Weather) returns (err: bool)
      requires Valid() && id in db.active
      requires var s := db.active[id];
               s.pc.InsertTx? && key == s.req.PostingKey() && status == s.req.RowStatus()
      modifies this
      ensures Valid() && old(history) <= history
      ensures err ==> EndedAs(db, id, old(db.active[id].req), old(db.active[id].began), Aborted)
      ensures !err ==>
                var s := old(db.active[id]);
                id in db.active && db.active[id] == s.(row := Some(TxRow(id, status)), pc := InsertFirst)
      ensures old(Alone(id)) && weather == CALM && key !in old(db.tables.transactions) ==> !err && Kept(id)
    {
      var ready := Turn(id, weather);
      if !ready { return true; }
      err := key in db.tables.transactions;
      Do(Statement(id));
    }

    /** INSERT INTO entries. */
    method InsertEntry(id: Id, account: Id, amount: int, weather: Weather) returns (err: bool)
      requires Valid() && id in db.active
      requires var s := db.active[id];
               || (s.pc.InsertFirst? && account == s.first && amount == s.req.FirstDelta())
               || (s.pc.InsertSecond? && account == s.second && amount == -s.req.FirstDelta())
      modifies this
      ensures Valid() && old(history) <= history
      ensures err ==> EndedAs(db, id, old(db.active[id].req), old(db.active[id].began), Aborted)
      ensures !err ==>
                var s := old(db.active[id]);
                && id in db.active
                && db.active[id] == s.(pc := if s.pc.InsertFirst? then InsertSecond else Commit,
                                       entries := s.entries + [Entry(id, account, amount)])
      ensures old(Alone(id)) && weather == CALM ==> !err && Kept(id)
    {
      var ready := Turn(id, weather);
      if !ready { return true; }
      Do(Statement(id));
      err := false;
    }

    /** COMMIT. When its reply is lost it is made all the same, and the caller sees an error. */
    method CommitTransaction(id: Id, weather: Weather) returns (err: bool, fate: Fate)
      requires Valid() && id in db.active && db.active[id].pc.Commit? && db.active[id].row.Some?
      modifies this
      ensures Valid() && old(history) <= history
      ensures EndedAs(db, id, old(db.active[id].req), old(db.active[id].began), fate)
      ensures if fate == Aborted then err else fate == Answered(Posted(id)) && err == weather.replyLost
      ensures old(Alone(id)) && weather == CALM ==>
                !err && db.log == old(db.log) + [Committed(id, old(db.active[id].req))]
    {
      var ready := Turn(id, weather);
      if !ready { return true, Aborted; }
      Do(Statement(id));
      return weather.replyLost, Answered(Posted(id));
    }

    method Transfer(id: Id, from: Code, to: Code, kind: string, clientTxId: string, amount: int64,
                    weather: nat -> Weather)
      returns (reply: Reply, ghost fate: Fate)
      requires Valid() && id !in db.active && id !in db.ended
      modifies this
      ensures Valid() && old(history) <= history
      ensures Explained(old(db), db, id, Request.Transfer(from, to, kind, clientTxId, amount), fate)
      ensures Told(history, id, [from, to], fate, reply)
      ensures old(db.active) == map[] && Calm(weather) ==>
                && Undisturbed(old(db.log), db.log, id, Request.Transfer(from, to, kind, clientTxId, amount), fate)
                && ToldExactly(db.tables, [from, to], fate, reply)
      ensures fate == Answered(Posted(id)) ==>
                (reply.Error? <==> weather(8).replyLost || weather(9).fails || weather(10).fails)
    {
      var err, end := RunTransfer(id, from, to, kind, clientTxId, amount, weather);
      if !err && end == Answered(Posted(id)) { reply := Receipt(id, from, to, weather); }
      else { reply := if err then Error else Answer(end.outcome, []); }
      fate := end;
      Explain(old(history), history, id, Request.Transfer(from, to, kind, clientTxId, amount), fate);
    }

    method RunTransfer(id: Id, from: Code, to: Code, kind: string, clientTxId: string, amount: int64,
                       weather: nat -> Weather)
      returns (err: bool, fate: Fate)
      requires Valid() && id !in db.active && id !in db.ended
      modifies this
      ensures Valid() && old(history) <= history
      ensures EndedAs(db, id, Request.Transfer(from, to, kind, clientTxId, amount), |old(db.log)|, fate)
      ensures ErrorMatches(id, err, fate)
      ensures old(db.active) == map[] && Calm(weather) ==>
                !err && Undisturbed(old(db.log), db.log, id, Request.Transfer(from, to, kind, clientTxId, amount), fate)
      ensures fate == Answered(Posted(id)) ==> (err <==> weather(8).replyLost)
    {
      var begun := BeginTx(id, Request.Transfer(from, to, kind, clientTxId, amount));
      if !begun { return false, Answered(InvalidAmount); }
      var accounts;
      accounts, fate := LockAccounts(id, from, to, weather);
      if accounts.None? { return fate == Aborted, fate; }
      var (fromAccount, toAccount) := accounts.value;

      var existing;
      err, existing := QueryExisting(id, Key(clientTxId, kind), weather(2));
      if err { return true, Aborted; }
      if existing.Some? {
        fate := AnswerDuplicate(id, existing.value, fromAccount, toAccount, weather);
        return fate == Aborted, fate;
      }

      err, fate := Pay(id, Key(clientTxId, kind), Completed, fromAccount, toAccount, amount, weather);
    }

    /** Both SELECT ... FOR UPDATE, each with its not-found return. */
    method LockAccounts(id: Id, firstCode: Code, secondCode: Code, weather: nat -> Weather)
      returns (accounts: Option<(Id, Id)>, fate: Fate)
      requires Valid() && id in db.active
      requires var s := db.active[id];
               s.pc.LockFirst? && firstCode == s.req.First() && secondCode == s.req.Second()
      modifies this
      ensures Valid() && old(history) <= history
      ensures accounts.None? ==> EndedAs(db, id, old(db.active[id].req), old(db.active[id].began), fate)
      ensures accounts.Some? ==>
                && id in db.active
                && db.active[id] == old(db.active[id])
                     .(pc := Lookup, first := accounts.value.0, second := accounts.value.1)
      ensures old(Alone(id)) && Calm(weather) ==> Kept(id) && (accounts.None? ==> fate.Answered?)
      ensures fate.Answered? ==> !fate.outcome.Posted?
    {
      var err, first := LockAccount(id, firstCode, weather(0));
      if err { return None, Aborted; }
      if first.None? { return None, Answered(FirstNotFound); }
      var second;
      err, second := LockAccount(id, secondCode, weather(1));
      if err { return None, Aborted; }
      if second.None? { return None, Answered(SecondNotFound); }
      return Some((first.value, second.value)), Aborted;
    }

    /** The balances returned with a duplicate: both for a transfer, the wallet's for a card. */
    method AnswerDuplicate(id: Id, row: TxRow, first: Id, second: Id, weather: nat -> Weather) returns (fate: Fate)
      requires Valid() && id in db.active
      requires var s := db.active[id];
               s.pc == DupReadFirst(row) && first == s.first && second == s.second
      modifies this
      ensures Valid() && old(history) <= history
      ensures EndedAs(db, id, old(db.active[id].req), old(db.active[id].began), fate)
      ensures fate.Answered? ==> !fate.outcome.Posted?
      ensures old(Alone(id)) && Calm(weather) ==> Kept(id) && fate.Answered?
    {
      var isTransfer := db.active[id].req.Transfer?;
      var err, firstBal := QueryBalance(id, first, weather(3));
      if err { return Aborted; }
      if !isTransfer { return Answered(Duplicate(row, [firstBal])); }
      var secondBal;
      err, secondBal := QueryBalance(id, second, weather(4));
      if err { return Aborted; }
      return Answered(Duplicate(row, [firstBal, secondBal]));
    }

    /** The funds check of Transfer and CardOut, and the posting that it allows. */
    method Pay(id: Id, key: Key, status: Status, payer: Id, payee: Id, amount: int64, weather: nat -> Weather)
      returns (err: bool, fate: Fate)
      requires Valid() && id in db.active
      requires var s := db.active[id];
               && s.pc.ReadBalance? && key == s.req.PostingKey() && status == s.req.RowStatus()
               && payer == s.first && payee == s.second && !s.req.CardIn? && amount == s.req.amount > 0
      modifies this
      ensures Valid() && old(history) <= history
      ensures EndedAs(db, id, old(db.active[id].req), old(db.active[id].began), fate)
      ensures ErrorMatches(id, err, fate)
      ensures old(Alone(id)) && Calm(weather) && key !in old(db.tables.transactions) ==>
                !err && Undisturbed(old(db.log), db.log, id, old(db.active[id].req), fate)
      ensures fate == Answered(Posted(id)) ==> (err <==> weather(8).replyLost)
    {
      var balance;
      err, balance := QueryBalance(id, payer, weather(4));
      if err { return true, Aborted; }
      if balance < amount { return false, Answered(InsufficientFunds); }
      err, fate := Post(id, key, status, payer, -amount, payee, amount, weather);
    }

    /** The three inserts and the commit, the same in Transfer, CardIn and CardOut. */
    method Post(id: Id, key: Key, status: Status, first: Id, firstAmount: int, second: Id, secondAmount: int,
                weather: nat -> Weather)
      returns (err: bool, fate: Fate)
      requires Valid() && id in db.active
      requires var s := db.active[id];
               && s.pc.InsertTx? && key == s.req.PostingKey() && status == s.req.RowStatus()
               && first == s.first && second == s.second
               && firstAmount == s.req.FirstDelta() && secondAmount == -s.req.FirstDelta()
      modifies this
      ensures Valid() && old(history) <= history
      ensures EndedAs(db, id, old(db.active[id].req), old(db.active[id].began), fate)
      ensures ErrorMatches(id, err, fate)
      ensures old(Alone(id)) && Calm(weather) && key !in old(db.tables.transactions) ==>
                !err && fate == Answered(Posted(id)) && db.log == old(db.log) + [Committed(id, old(db.active[id].req))]
      ensures fate == Answered(Posted(id)) ==> (err <==> weather(8).replyLost)
    {
      err := InsertTransaction(id, key, status, weather(5));
      if err { return true, Aborted; }
      err := InsertEntry(id, first, firstAmount, weather(6));
      if err { return true, Aborted; }
      err := InsertEntry(id, second, secondAmount, weather(7));
      if err { return true, Aborted; }
      err, fate := CommitTransaction(id, weather(8));
    }

    method CardIn(id: Id, walletCode: Code, clientTxId: string, amount: int64, weather: nat -> Weather)
      returns (reply: Reply, ghost fate: Fate)
      requires Valid() && id !in db.active && id !in db.ended
      modifies this
      ensures Valid() && old(history) <= history
      ensures Explained(old(db), db, id, Request.CardIn(walletCode, clientTxId, amount), fate)
      ensures Told(history, id, [walletCode], fate, reply)
      ensures old(db.active) == map[] && Calm(weather) ==>
                && Undisturbed(old(db.log), db.log, id, Request.CardIn(walletCode, clientTxId, amount), fate)
                && ToldExactly(db.tables, [walletCode], fate, reply)
      ensures fate == Answered(Posted(id)) ==> (reply.Error? <==> weather(8).replyLost || weather(9).fails)
    {
      var err, end := RunCardIn(id, walletCode, clientTxId, amount, weather);
      if !err && end == Answered(Posted(id)) { reply := CardReceipt(id, walletCode, weather); }
      else { reply := if err then Error else Answer(end.outcome, []); }
      fate := end;
      Explain(old(history), history, id, Request.CardIn(walletCode, clientTxId, amount), fate);
    }

    method RunCardIn(id: Id, walletCode: Code, clientTxId: string, amount: int64, weather: nat -> Weather)
      returns (err: bool, fate: Fate)
      requires Valid() && id !in db.active && id !in db.ended
      modifies this
      ensures Valid() && old(history) <= history
      ensures EndedAs(db, id, Request.CardIn(walletCode, clientTxId, amount), |old(db.log)|, fate)
      ensures ErrorMatches(id, err, fate)
      ensures old(db.active) == map[] && Calm(weather) ==>
                !err && Undisturbed(old(db.log), db.log, id, Request.CardIn(walletCode, clientTxId, amount), fate)
      ensures fate == Answered(Posted(id)) ==> (err <==> weather(8).replyLost)
    {
      var begun := BeginTx(id, Request.CardIn(walletCode, clientTxId, amount));
      if !begun { return false, Answered(InvalidAmount); }
      var accounts;
      accounts, fate := LockAccounts(id, walletCode, SUSPENSE, weather);
      if accounts.None? { return fate == Aborted, fate; }
      var (wallet, suspense) := accounts.value;

      var existing;
      err, existing := QueryExisting(id, Key(clientTxId, CARD_IN), weather(2));
      if err { return true, Aborted; }
      if existing.Some? {
        fate := AnswerDuplicate(id, existing.value, wallet, suspense, weather);
        return fate == Aborted, fate;
      }

      err, fate := Post(id, Key(clientTxId, CARD_IN), PendingSettlement, wallet, amount, suspense, -amount, weather);
    }

    method CardOut(id: Id, walletCode: Code, clientTxId: string, amount: int64, weather: nat -> Weather)
      returns (reply: Reply, ghost fate: Fate)
      requires Valid() && id !in db.active && id !in db.ended
      modifies this
      ensures Valid() && old(history) <= history
      ensures Explained(old(db), db, id, Request.CardOut(walletCode, clientTxId, amount), fate)
      ensures Told(history, id, [walletCode], fate, reply)
      ensures old(db.active) == map[] && Calm(weather) ==>
                && Undisturbed(old(db.log), db.log, id, Request.CardOut(walletCode, clientTxId, amount), fate)
                && ToldExactly(db.tables, [walletCode], fate, reply)
      ensures fate == Answered(Posted(id)) ==> (reply.Error? <==> weather(8).replyLost || weather(9).fails)
    {
      var err, end := RunCardOut(id, walletCode, clientTxId, amount, weather);
      if !err && end == Answered(Posted(id)) { reply := CardReceipt(id, walletCode, weather); }
      else { reply := if err then Error else Answer(end.outcome, []); }
      fate := end;
      Explain(old(history), history, id, Request.CardOut(walletCode, clientTxId, amount), fate);
    }

    method RunCardOut(id: Id, walletCode: Code, clientTxId: string, amount: int64, weather: nat -> Weather)
      returns (err: bool, fate: Fate)
      requires Valid() && id !in db.active && id !in db.ended
      modifies this
      ensures Valid() && old(history) <= history
      ensures EndedAs(db, id, Request.CardOut(walletCode, clientTxId, amount), |old(db.log)|, fate)
      ensures ErrorMatches(id, err, fate)
      ensures old(db.active) == map[] && Calm(weather) ==>
                !err && Undisturbed(old(db.log), db.log, id, Request.CardOut(walletCode, clientTxId, amount), fate)
      ensures fate == Answered(Posted(id)) ==> (err <==> weather(8).replyLost)
    {
      var begun := BeginTx(id, Request.CardOut(walletCode, clientTxId, amount));
      if !begun { return false, Answered(InvalidAmount); }
      var accounts;
      accounts, fate := LockAccounts(id, walletCode, SUSPENSE, weather);
      if accounts.None? { return fate == Aborted, fate; }
      var (wallet, suspense) := accounts.value;

      var existing;
      err, existing := QueryExisting(id, Key(clientTxId, CARD_OUT), weather(2));
      if err { return true, Aborted; }
      if existing.Some? {
        fate := AnswerDuplicate(id, existing.value, wallet, suspense, weather);
        return fate == Aborted, fate;
      }

      err, fate := Pay(id, Key(clientTxId, CARD_OUT), PendingSettlement, wallet, suspense, amount, weather);
    }
  }
}
