/** The in-memory ledger: running balances and remembered results, updated in place. */
module InMemoryLedgers {
  import opened Int64
  import opened LedgerSpec

  datatype Receipt =
    | TransactionResult(transactionId: string, fromBalance: int64, toBalance: int64)
    | FundingResult(transactionId: string, walletBalance: int64, status: Status)

  /** The caller sees a result, a result with ErrDuplicateTransaction, or ErrInsufficientFunds. */
  datatype Reply = Accepted(receipt: Receipt) | DuplicateOf(receipt: Receipt) | Refused

  /** The three maps. */
  datatype Mem = Mem(
    balances: map<Code, int64>, transactions: map<string, Receipt>, fundingTx: map<string, Receipt>)
  {
    /** Go's l.balances[code] on a missing key. */
    function At(code: Code): int64 { if code in balances then balances[code] else 0 }

    predicate Remembers(r: Request) {
      MemKey(r) in (if r.Transfer? then transactions else fundingTx)
    }

    function Remembered(r: Request): Receipt
      requires Remembers(r)
    {
      (if r.Transfer? then transactions else fundingTx)[MemKey(r)]
    }
  }

  function MemKey(r: Request): string {
    match r
    case Transfer(_, _, kind, id, _) => kind + ":" + id
    case CardIn(_, id, _) => CARD_IN + ":" + id
    case CardOut(_, id, _) => CARD_OUT + ":" + id
  }

  /** Enough money, and the accounts the call looks up exist; suspense is not looked up. */
  predicate Covered(m: Mem, r: Request) {
    && r.First() in m.balances
    && (r.Transfer? ==> r.to in m.balances)
    && (r.ChecksFunds() ==> m.balances[r.First()] >= r.amount)
  }

  /** What a call does to the three maps. A transfer computes both new balances from the old
      ones and then stores them; a card call updates suspense after it stored the wallet. */
  function Step(m: Mem, r: Request): (Mem, Reply) {
    if r.amount <= 0 then (m, Refused)
    else if m.Remembers(r) then (m, DuplicateOf(m.Remembered(r)))
    else if !Covered(m, r) then (m, Refused)
    else
      var first := Wrap(m.balances[r.First()] + r.FirstDelta());
      if r.Transfer? then
        var second := Wrap(m.balances[r.to] - r.FirstDelta());
        var receipt := TransactionResult(MemKey(r), first, second);
        (m.(balances := m.balances[r.from := first][r.to := second],
            transactions := m.transactions[MemKey(r) := receipt]), Accepted(receipt))
      else
        var stored := m.(balances := m.balances[r.wallet := first]);
        var receipt := FundingResult(MemKey(r), first, PendingSettlement);
        (stored.(balances := stored.balances[SUSPENSE := Wrap(stored.At(SUSPENSE) - r.FirstDelta())],
                 fundingTx := m.fundingTx[MemKey(r) := receipt]), Accepted(receipt))
  }

  function Provision(m: Mem, code: Code): Mem {
    if code in m.balances then m else m.(balances := m.balances[code := 0])
  }

  const NEW := Mem(map[], map[], map[])

  /** A transfer's reply, each with its exact cause, and what it leaves. */
  lemma TransferReplies(m: Mem, from: Code, to: Code, kind: string, id: string, amount: int64)
    ensures var (m', reply) := Step(m, Transfer(from, to, kind, id, amount));
            var key := kind + ":" + id;
            var covered := from in m.balances && to in m.balances && m.balances[from] >= amount;
            && (reply == Refused <==> amount <= 0 || (key !in m.transactions && !covered))
            && (reply.DuplicateOf? <==> amount > 0 && key in m.transactions)
            && (reply.DuplicateOf? ==> reply.receipt == m.transactions[key])
            && (reply.Accepted? <==> amount > 0 && key !in m.transactions && covered)
            && (reply.Accepted? ==>
                  && reply.receipt == TransactionResult(key, Wrap(m.balances[from] - amount), Wrap(m.balances[to] + amount))
                  && m'.transactions == m.transactions[key := reply.receipt])
            && (!reply.Accepted? ==> m' == m)
            && m'.fundingTx == m.fundingTx
  {
  }

  /** A card call's: `gain` is what the wallet would gain. */
  ghost predicate CardReplied(m: Mem, m': Mem, reply: Reply, key: string, wallet: Code, amount: int, gain: int, covered: bool) {
    && (reply == Refused <==> amount <= 0 || (key !in m.fundingTx && !covered))
    && (reply.DuplicateOf? <==> amount > 0 && key in m.fundingTx)
    && (reply.DuplicateOf? ==> reply.receipt == m.fundingTx[key])
    && (reply.Accepted? <==> amount > 0 && key !in m.fundingTx && covered)
    && (reply.Accepted? ==>
          && reply.receipt == FundingResult(key, Wrap(m.At(wallet) + gain), PendingSettlement)
          && m'.fundingTx == m.fundingTx[key := reply.receipt]
          && (wallet != "suspense:card" ==>
                m'.balances == m.balances[wallet := Wrap(m.At(wallet) + gain)]
                                         ["suspense:card" := Wrap(m.At("suspense:card") - gain)]))
    && (!reply.Accepted? ==> m' == m)
    && m'.transactions == m.transactions
  }

  lemma CardInReplies(m: Mem, wallet: Code, id: string, amount: int64)
    ensures var (m', reply) := Step(m, CardIn(wallet, id, amount));
            CardReplied(m, m', reply, "card_in" + ":" + id, wallet, amount, amount, wallet in m.balances)
  {
  }

  lemma CardOutReplies(m: Mem, wallet: Code, id: string, amount: int64)
    ensures var (m', reply) := Step(m, CardOut(wallet, id, amount));
            CardReplied(m, m', reply, "card_out" + ":" + id, wallet, amount, -(amount as int),
                        wallet in m.balances && m.balances[wallet] >= amount)
  {
  }

  class InMemoryLedger {
    var balances: map<Code, int64>
    var transactions: map<string, Receipt>
    var fundingTx: map<string, Receipt>

    function State(): Mem
      reads this
    {
      Mem(balances, transactions, fundingTx)
    }

    constructor ()
      ensures State() == NEW
    {
      balances, transactions, fundingTx := map[], map[], map[];
    }

    method EnsureAccount(code: Code)
      modifies this
      ensures State() == Provision(old(State()), code)
    {
      if code !in balances {
        balances := balances[code := 0];
      }
    }

    method Balance(code: Code) returns (ok: bool, balance: int64)
      ensures ok <==> code in balances
      ensures balance == State().At(code)
    {
      if code !in balances { return false, 0; }
      return true, balances[code];
    }

    method Transfer(fromCode: Code, toCode: Code, kind: string, clientTxId: string, amount: int64)
      returns (reply: Reply)
      modifies this
      ensures (State(), reply) == Step(old(State()), Request.Transfer(fromCode, toCode, kind, clientTxId, amount))
    {
      if amount <= 0 { return Refused; }
      var key := kind + ":" + clientTxId;
      if key in transactions { return DuplicateOf(transactions[key]); }
      if fromCode !in balances { return Refused; }
      var fromBalance := balances[fromCode];
      if toCode !in balances { return Refused; }
      var toBalance := balances[toCode];
      if fromBalance < amount { return Refused; }

      fromBalance := Wrap(fromBalance - amount);
      toBalance := Wrap(toBalance + amount);
      balances := balances[fromCode := fromBalance];
      balances := balances[toCode := toBalance];

      var res := TransactionResult(key, fromBalance, toBalance);
      transactions := transactions[key := res];
      return Accepted(res);
    }

    method CardIn(walletCode: Code, clientTxId: string, amount: int64) returns (reply: Reply)
      modifies this
      ensures (State(), reply) == Step(old(State()), Request.CardIn(walletCode, clientTxId, amount))
    {
      if amount <= 0 { return Refused; }
      var key := CARD_IN + ":" + clientTxId;
      if key in fundingTx { return DuplicateOf(fundingTx[key]); }
      if walletCode !in balances { return Refused; }
      var walletBalance := Wrap(balances[walletCode] + amount);
      balances := balances[walletCode := walletBalance];
      var suspense := if SUSPENSE in balances then balances[SUSPENSE] else 0;
      balances := balances[SUSPENSE := Wrap(suspense - amount)];

      var res := FundingResult(key, walletBalance, PendingSettlement);
      fundingTx := fundingTx[key := res];
      return Accepted(res);
    }

    method CardOut(walletCode: Code, clientTxId: string, amount: int64) returns (reply: Reply)
      modifies this
      ensures (State(), reply) == Step(old(State()), Request.CardOut(walletCode, clientTxId, amount))
    {
      if amount <= 0 { return Refused; }
      var key := CARD_OUT + ":" + clientTxId;
      if key in fundingTx { return DuplicateOf(fundingTx[key]); }
      if walletCode !in balances { return Refused; }
      var walletBalance := balances[walletCode];
      if walletBalance < amount { return Refused; }
      walletBalance := Wrap(walletBalance - amount);
      balances := balances[walletCode := walletBalance];
      var suspense := if SUSPENSE in balances then balances[SUSPENSE] else 0;
      balances := balances[SUSPENSE := Wrap(suspense + amount)];

      var res := FundingResult(key, walletBalance, PendingSettlement);
      fundingTx := fundingTx[key := res];
      return Accepted(res);
    }
  }
}
