/** The ledger as its tables define it, and the serial specification of one posting:
    what Transfer, CardIn and CardOut answer when nothing else runs. */
module LedgerSpec {
  import opened Int64
  import opened MapSums

  type Code = string

  /** A UUID. Fresh ones are handed out by the caller, see `Fresh` and `EventOk`. */
  type Id = nat

  const SUSPENSE: Code := "suspense:card"
  const CARD_IN := "card_in"
  const CARD_OUT := "card_out"

  datatype Status = Completed | PendingSettlement

  /** The columns under UNIQUE(client_tx_id, kind). */
  datatype Key = Key(clientTxId: string, kind: string)

  datatype Request =
    | Transfer(from: Code, to: Code, kind: string, clientTxId: string, amount: int64)
    | CardIn(wallet: Code, clientTxId: string, amount: int64)
    | CardOut(wallet: Code, clientTxId: string, amount: int64)
  {
    /** The account locked first, and the one locked second. */
    function First(): Code { if Transfer? then from else wallet }
    function Second(): Code { if Transfer? then to else SUSPENSE }

    function PostingKey(): Key {
      match this
      case Transfer(_, _, kind, id, _) => Key(id, kind)
      case CardIn(_, id, _) => Key(id, CARD_IN)
      case CardOut(_, id, _) => Key(id, CARD_OUT)
    }

    /** What the first account gains; the second gains the opposite. */
    function FirstDelta(): int { if CardIn? then amount as int else -(amount as int) }

    /** CardIn debits suspense and reads no balance. */
    predicate ChecksFunds() { !CardIn? }

    function RowStatus(): Status { if Transfer? then Completed else PendingSettlement }
  }

  datatype TxRow = TxRow(id: Id, status: Status)
  datatype Entry = Entry(tx: Id, account: Id, amount: int)
  datatype Tables = Tables(accounts: map<Code, Id>, transactions: map<Key, TxRow>, entries: seq<Entry>)

  const EMPTY := Tables(map[], map[], [])

  datatype Outcome =
    | InvalidAmount
    | FirstNotFound
    | SecondNotFound
    | Duplicate(row: TxRow, balances: seq<int>)
    | InsufficientFunds
    | Posted(id: Id)

  /** SELECT SUM(amount) FROM entries WHERE account_id = account. */
  function Sum(entries: seq<Entry>, account: Id): int {
    if |entries| == 0 then 0
    else
      var last := entries[|entries| - 1];
      Sum(entries[..|entries| - 1], account) + if last.account == account then last.amount else 0
  }

  /** SELECT * FROM entries WHERE transaction_id = tx. */
  function EntriesOf(entries: seq<Entry>, tx: Id): seq<Entry> {
    if |entries| == 0 then []
    else
      var last := entries[|entries| - 1];
      EntriesOf(entries[..|entries| - 1], tx) + if last.tx == tx then [last] else []
  }

  function Postings(r: Request, id: Id, first: Id, second: Id): seq<Entry> {
    [Entry(id, first, r.FirstDelta()), Entry(id, second, -r.FirstDelta())]
  }

  function DuplicateBalances(entries: seq<Entry>, r: Request, first: Id, second: Id): seq<int> {
    [Sum(entries, first)] + if r.Transfer? then [Sum(entries, second)] else []
  }

  /** One posting served alone: amount, accounts, duplicate and funds are checked in that order. */
  function Serve(t: Tables, r: Request, id: Id): (Tables, Outcome) {
    if r.amount <= 0 then (t, InvalidAmount)
    else if r.First() !in t.accounts then (t, FirstNotFound)
    else if r.Second() !in t.accounts then (t, SecondNotFound)
    else
      var first, second := t.accounts[r.First()], t.accounts[r.Second()];
      if r.PostingKey() in t.transactions then
        (t, Duplicate(t.transactions[r.PostingKey()], DuplicateBalances(t.entries, r, first, second)))
      else if r.ChecksFunds() && Sum(t.entries, first) < r.amount then (t, InsufficientFunds)
      else
        (Tables(t.accounts, t.transactions[r.PostingKey() := TxRow(id, r.RowStatus())],
                t.entries + Postings(r, id, first, second)), Posted(id))
  }

  /** Committed events, in commit order. */
  datatype Event = Ensured(code: Code, account: Id) | Committed(id: Id, req: Request)

  function Apply(t: Tables, e: Event): Tables {
    match e
    case Ensured(code, account) =>
      if code in t.accounts then t else t.(accounts := t.accounts[code := account])
    case Committed(id, req) => Serve(t, req, id).0
  }

  function Replay(log: seq<Event>): Tables {
    if |log| == 0 then EMPTY else Apply(Replay(log[..|log| - 1]), log[|log| - 1])
  }

  ghost predicate FreshRow(t: Tables, id: Id) {
    forall k :: k in t.transactions ==> t.transactions[k].id != id
  }

  /** The event really happens at t: the account and its UUID are new, or the posting is served. */
  ghost predicate EventOk(t: Tables, e: Event) {
    match e
    case Ensured(code, account) => code !in t.accounts && account !in t.accounts.Values
    case Committed(id, req) => FreshRow(t, id) && Serve(t, req, id).1 == Posted(id)
  }

  /** A log in which every event, run alone and in order, passes all its checks again. */
  ghost predicate SerialLog(log: seq<Event>) {
    |log| == 0 ||
    (SerialLog(log[..|log| - 1]) && EventOk(Replay(log[..|log| - 1]), log[|log| - 1]))
  }

  /** Every account's balance. */
  function Sheet(t: Tables): map<Code, int> {
    map c | c in t.accounts :: Sum(t.entries, t.accounts[c])
  }

  /** UNIQUE(code) with the primary key: no two codes share an account row. */
  ghost predicate Injective(accounts: map<Code, Id>) {
    forall c, d :: c in accounts && d in accounts && accounts[c] == accounts[d] ==> c == d
  }

  /** Each transaction row has exactly two entries, and they cancel; no entry lacks its
      transaction or its account; no two rows share an id. */
  ghost predicate DoubleEntry(t: Tables) {
    && (forall k :: k in t.transactions ==> Cancels(EntriesOf(t.entries, t.transactions[k].id)))
    && (forall e :: e in t.entries ==> e.account in t.accounts.Values && !FreshRow(t, e.tx))
    && (forall k, l | k in t.transactions && l in t.transactions ::
          t.transactions[k].id == t.transactions[l].id ==> k == l)
  }

  predicate Cancels(pair: seq<Entry>) { |pair| == 2 && pair[0].amount + pair[1].amount == 0 }

  /** Only suspense may be in the red. */
  ghost predicate NoOverdraft(t: Tables) {
    forall c :: c in t.accounts && c != SUSPENSE ==> Sum(t.entries, t.accounts[c]) >= 0
  }

  ghost predicate Sound(t: Tables) {
    && Injective(t.accounts) && DoubleEntry(t) && NoOverdraft(t)
    && Total(Sheet(t)) == 0
  }

  lemma SumAppend(entries: seq<Entry>, e: Entry, account: Id)
    ensures Sum(entries + [e], account) == Sum(entries, account) + if e.account == account then e.amount else 0
  {
    assert (entries + [e])[..|entries|] == entries;
  }

  /** A posting moves its two accounts by opposite amounts and no other account. */
  lemma SumPosting(entries: seq<Entry>, r: Request, id: Id, first: Id, second: Id, account: Id)
    ensures Sum(entries + Postings(r, id, first, second), account)
         == Sum(entries, account) + (if account == first then r.FirstDelta() else 0)
                                  - (if account == second then r.FirstDelta() else 0)
  {
    var p := Postings(r, id, first, second);
    assert entries + p == (entries + [p[0]]) + [p[1]];
    SumAppend(entries, p[0], account);
    SumAppend(entries + [p[0]], p[1], account);
  }

  lemma EntriesOfAppend(entries: seq<Entry>, e: Entry, tx: Id)
    ensures EntriesOf(entries + [e], tx) == EntriesOf(entries, tx) + if e.tx == tx then [e] else []
  {
    assert (entries + [e])[..|entries|] == entries;
  }

  lemma EntriesOfPosting(entries: seq<Entry>, r: Request, id: Id, first: Id, second: Id, tx: Id)
    ensures EntriesOf(entries + Postings(r, id, first, second), tx)
         == EntriesOf(entries, tx) + if tx == id then Postings(r, id, first, second) else []
  {
    var p := Postings(r, id, first, second);
    assert entries + p == (entries + [p[0]]) + [p[1]];
    EntriesOfAppend(entries, p[0], tx);
    EntriesOfAppend(entries + [p[0]], p[1], tx);
  }

  lemma {:induction false} EntriesOfAbsent(entries: seq<Entry>, tx: Id)
    requires forall e :: e in entries ==> e.tx != tx
    ensures EntriesOf(entries, tx) == []
  {
    if |entries| > 0 { EntriesOfAbsent(entries[..|entries| - 1], tx); }
  }

  /** The balance sheet after a posting. */
  function Moved(sheet: map<Code, int>, r: Request): map<Code, int>
    requires r.First() in sheet && r.Second() in sheet
  {
    Shift(sheet, r.First(), r.Second(), r.FirstDelta())
  }

  /** Framing: a served posting changes exactly its two accounts, by opposite amounts; a
      self-transfer changes none. */
  lemma ServeMoves(t: Tables, r: Request, id: Id)
    requires Injective(t.accounts) && Serve(t, r, id).1 == Posted(id)
    ensures Sheet(Serve(t, r, id).0) == Moved(Sheet(t), r)
  {
    var first, second := t.accounts[r.First()], t.accounts[r.Second()];
    var t' := Serve(t, r, id).0;
    var moved := Moved(Sheet(t), r);
    assert moved.Keys == t.accounts.Keys;
    forall c | c in t.accounts
      ensures Sum(t'.entries, t.accounts[c]) == moved[c]
    {
      SumPosting(t.entries, r, id, first, second, t.accounts[c]);
      ShiftAt(Sheet(t), r.First(), r.Second(), r.FirstDelta(), c);
    }
  }

  /** What one account gains, another loses: the total never moves. */
  lemma MovedTotal(sheet: map<Code, int>, r: Request)
    requires r.First() in sheet && r.Second() in sheet
    ensures Total(Moved(sheet, r)) == Total(sheet)
  {
    TotalShift(sheet, r.First(), r.Second(), r.FirstDelta());
  }

  /** In the tables a self-transfer changes no balance. */
  lemma MovedToSelf(sheet: map<Code, int>, r: Request)
    requires r.First() in sheet && r.First() == r.Second()
    ensures Moved(sheet, r) == sheet
  {
  }

  lemma ServeKeepsDoubleEntry(t: Tables, r: Request, id: Id)
    requires DoubleEntry(t) && FreshRow(t, id) && Serve(t, r, id).1 == Posted(id)
    ensures DoubleEntry(Serve(t, r, id).0)
  {
    var t' := Serve(t, r, id).0;
    var first, second := t.accounts[r.First()], t.accounts[r.Second()];
    var key := r.PostingKey();
    assert t'.transactions[key].id == id;
    forall k | k in t'.transactions
      ensures Cancels(EntriesOf(t'.entries, t'.transactions[k].id))
    {
      EntriesOfPosting(t.entries, r, id, first, second, t'.transactions[k].id);
      if k == key { EntriesOfAbsent(t.entries, id); }
    }
    forall e | e in t'.entries
      ensures e.account in t'.accounts.Values && !FreshRow(t', e.tx)
    {
      if e in t.entries {
        var k :| k in t.transactions && t.transactions[k].id == e.tx;
        assert t'.transactions[k].id == e.tx;
      }
    }
  }

  /** A new account starts at zero and moves no other. */
  lemma EnsureSheet(t: Tables, code: Code, account: Id)
    requires DoubleEntry(t) && EventOk(t, Ensured(code, account))
    ensures Sheet(Apply(t, Ensured(code, account))) == Sheet(t)[code := 0]
  {
    forall e | e in t.entries ensures e.account != account {
      assert e.account in t.accounts.Values;
    }
    SumAbsent(t.entries, account);
  }

  lemma EnsureKeepsSound(t: Tables, code: Code, account: Id)
    requires Sound(t) && EventOk(t, Ensured(code, account))
    ensures Sound(Apply(t, Ensured(code, account)))
  {
    var t' := Apply(t, Ensured(code, account));
    EnsureSheet(t, code, account);
    TotalUpdate(Sheet(t), code, 0);
    assert Sheet(t')[code] == 0;
    forall e | e in t'.entries ensures e.account in t'.accounts.Values && !FreshRow(t', e.tx) {
      var c :| c in t.accounts && t.accounts[c] == e.account;
      assert t'.accounts[c] == e.account;
      assert !FreshRow(t, e.tx);
    }
  }

  lemma {:induction false} SumAbsent(entries: seq<Entry>, account: Id)
    requires forall e :: e in entries ==> e.account != account
    ensures Sum(entries, account) == 0
  {
    if |entries| > 0 { SumAbsent(entries[..|entries| - 1], account); }
  }

  lemma ServeKeepsSound(t: Tables, r: Request, id: Id)
    requires Sound(t) && FreshRow(t, id) && Serve(t, r, id).1 == Posted(id)
    ensures Sound(Serve(t, r, id).0)
  {
    var t' := Serve(t, r, id).0;
    ServeMoves(t, r, id);
    MovedTotal(Sheet(t), r);
    ServeKeepsDoubleEntry(t, r, id);
    forall c | c in t'.accounts && c != SUSPENSE
      ensures Sum(t'.entries, t'.accounts[c]) >= 0
    {
      SumPosting(t.entries, r, id, t.accounts[r.First()], t.accounts[r.Second()], t.accounts[c]);
      assert Sum(t.entries, t.accounts[c]) >= 0;
    }
  }

  /** Whatever is committed, serially: double entry, no overdraft, and a zero grand total. */
  lemma {:induction false} SerialSound(log: seq<Event>)
    requires SerialLog(log)
    ensures Sound(Replay(log))
  {
    if |log| == 0 {
      assert Sheet(EMPTY) == map[];
    } else {
      var t := Replay(log[..|log| - 1]);
      SerialSound(log[..|log| - 1]);
      match log[|log| - 1]
      case Ensured(code, account) => EnsureKeepsSound(t, code, account);
      case Committed(id, req) => ServeKeepsSound(t, req, id);
    }
  }

  /** Suspense mirrors the wallets: never positive, so nothing can be transferred out of it. */
  lemma SuspenseNeverPays(t: Tables, r: Request, id: Id)
    requires Sound(t)
    ensures SUSPENSE in t.accounts ==>
              && Sum(t.entries, t.accounts[SUSPENSE]) == -Total(Sheet(t) - {SUSPENSE})
              && Sum(t.entries, t.accounts[SUSPENSE]) <= 0
    ensures r.ChecksFunds() && r.First() == SUSPENSE ==> !Serve(t, r, id).1.Posted?
  {
    if SUSPENSE in t.accounts {
      TotalRemove(Sheet(t), SUSPENSE);
      TotalNonNegative(Sheet(t) - {SUSPENSE});
    }
  }

  lemma ReplayAppend(log: seq<Event>, e: Event)
    ensures Replay(log + [e]) == Apply(Replay(log), e)
    ensures SerialLog(log + [e]) <==> SerialLog(log) && EventOk(Replay(log), e)
  {
    assert (log + [e])[..|log|] == log;
  }

  // ---- What each call answers, in so many words ----

  /** A transfer's answer, each with its exact cause. */
  lemma TransferAnswers(t: Tables, from: Code, to: Code, kind: string, clientTxId: string, amount: int64, id: Id)
    ensures var o := Serve(t, Transfer(from, to, kind, clientTxId, amount), id).1;
            var valid := amount > 0 && from in t.accounts && to in t.accounts;
            var repeated := Key(clientTxId, kind) in t.transactions;
            && (o == InvalidAmount <==> amount <= 0)
            && (o == FirstNotFound <==> amount > 0 && from !in t.accounts)
            && (o == SecondNotFound <==> amount > 0 && from in t.accounts && to !in t.accounts)
            && (o.Duplicate? <==> valid && repeated)
            && (o.Duplicate? ==> o == Duplicate(t.transactions[Key(clientTxId, kind)],
                                                [Sum(t.entries, t.accounts[from]), Sum(t.entries, t.accounts[to])]))
            && (o == InsufficientFunds <==> valid && !repeated && Sum(t.entries, t.accounts[from]) < amount)
            && (o == Posted(id) <==> valid && !repeated && Sum(t.entries, t.accounts[from]) >= amount)
            && (o.Posted? ==> o == Posted(id))
  {
  }

  /** A top-up's: it looks at no balance. */
  lemma CardInAnswers(t: Tables, wallet: Code, clientTxId: string, amount: int64, id: Id)
    ensures var o := Serve(t, CardIn(wallet, clientTxId, amount), id).1;
            var valid := amount > 0 && wallet in t.accounts && "suspense:card" in t.accounts;
            var repeated := Key(clientTxId, "card_in") in t.transactions;
            && (o == InvalidAmount <==> amount <= 0)
            && (o == FirstNotFound <==> amount > 0 && wallet !in t.accounts)
            && (o == SecondNotFound <==> amount > 0 && wallet in t.accounts && "suspense:card" !in t.accounts)
            && (o.Duplicate? <==> valid && repeated)
            && (o.Duplicate? ==> o == Duplicate(t.transactions[Key(clientTxId, "card_in")],
                                                [Sum(t.entries, t.accounts[wallet])]))
            && o != InsufficientFunds
            && (o == Posted(id) <==> valid && !repeated)
            && (o.Posted? ==> o == Posted(id))
  {
  }

  /** A withdrawal's. */
  lemma CardOutAnswers(t: Tables, wallet: Code, clientTxId: string, amount: int64, id: Id)
    ensures var o := Serve(t, CardOut(wallet, clientTxId, amount), id).1;
            var valid := amount > 0 && wallet in t.accounts && "suspense:card" in t.accounts;
            var repeated := Key(clientTxId, "card_out") in t.transactions;
            && (o == InvalidAmount <==> amount <= 0)
            && (o == FirstNotFound <==> amount > 0 && wallet !in t.accounts)
            && (o == SecondNotFound <==> amount > 0 && wallet in t.accounts && "suspense:card" !in t.accounts)
            && (o.Duplicate? <==> valid && repeated)
            && (o.Duplicate? ==> o == Duplicate(t.transactions[Key(clientTxId, "card_out")],
                                                [Sum(t.entries, t.accounts[wallet])]))
            && (o == InsufficientFunds <==> valid && !repeated && Sum(t.entries, t.accounts[wallet]) < amount)
            && (o == Posted(id) <==> valid && !repeated && Sum(t.entries, t.accounts[wallet]) >= amount)
            && (o.Posted? ==> o == Posted(id))
  {
  }

  // ---- What each posting leaves in the tables ----

  /** The row of the posting, under its key and with its status, and its two entries. */
  ghost predicate Recorded(t: Tables, id: Id, req: Request) {
    match req
    case Transfer(from, to, kind, clientTxId, amount) =>
      RowAndEntries(t, id, Key(clientTxId, kind), Completed, from, to, -(amount as int))
    case CardIn(wallet, clientTxId, amount) =>
      RowAndEntries(t, id, Key(clientTxId, "card_in"), PendingSettlement, wallet, "suspense:card", amount)
    case CardOut(wallet, clientTxId, amount) =>
      RowAndEntries(t, id, Key(clientTxId, "card_out"), PendingSettlement, wallet, "suspense:card", -(amount as int))
  }

  /** The first account gains d, which the second loses. */
  ghost predicate RowAndEntries(t: Tables, id: Id, key: Key, status: Status, first: Code, second: Code, d: int) {
    && key in t.transactions && t.transactions[key] == TxRow(id, status)
    && first in t.accounts && second in t.accounts
    && EntriesOf(t.entries, id) == [Entry(id, t.accounts[first], d), Entry(id, t.accounts[second], -d)]
  }

  lemma ServeRecords(t: Tables, req: Request, id: Id)
    requires DoubleEntry(t) && FreshRow(t, id) && Serve(t, req, id).1 == Posted(id)
    ensures Recorded(Serve(t, req, id).0, id, req)
  {
    var first, second := t.accounts[req.First()], t.accounts[req.Second()];
    EntriesOfPosting(t.entries, req, id, first, second, id);
    EntriesOfAbsent(t.entries, id);
  }

  /** Later events leave the record as it is. */
  lemma RecordStays(t: Tables, e: Event, id: Id, req: Request)
    requires Recorded(t, id, req) && EventOk(t, e)
    ensures Recorded(Apply(t, e), id, req)
  {
    match e
    case Ensured(_, _) =>
    case Committed(later, r) =>
      assert later != id by { assert !FreshRow(t, id); }
      EntriesOfPosting(t.entries, r, later, t.accounts[r.First()], t.accounts[r.Second()], id);
  }

  /** In any serial log, every committed posting is recorded as it was asked for. */
  lemma {:induction false} LogRecorded(log: seq<Event>, n: nat)
    requires SerialLog(log) && n < |log| && log[n].Committed?
    ensures Recorded(Replay(log), log[n].id, log[n].req)
  {
    var before, e := log[..|log| - 1], log[|log| - 1];
    if n < |log| - 1 {
      LogRecorded(before, n);
      RecordStays(Replay(before), e, log[n].id, log[n].req);
    } else {
      SerialSound(before);
      ServeRecords(Replay(before), e.req, e.id);
    }
  }
}
