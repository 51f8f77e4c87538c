/** Wallets, payments and card funding over one in-memory ledger and one wallet store. */
module Services {
  import opened Options
  import opened Int64
  import opened LedgerSpec
  import opened InMemoryLedgers
  import opened MoneySupply
  import opened LedgerRefinement
  import opened MapSums
  import W = WalletRepositories

  datatype System = System(mem: Mem, repo: W.Repo)

  /** Empty stores, after the funding service ensured its suspense account. */
  const BOOT := System(MEM0, W.NEW_REPO)

  /** One service call. A `uuid` or `generated` id is what uuid.New would return; `parses` is
      uuid.Parse's verdict on the owner, `authorised` that the acquirer returned no error. */
  datatype Op =
    | CreateWallet(uuid: string, ownerId: string, currency: string, parses: bool)
    | Pay(from: string, to: string, amount: int64, clientTxId: string, generated: string, requestor: string)
    | TopUp(wallet: string, amount: int64, clientTxId: string, generated: string, card: string, authorised: bool)
    | Withdraw(wallet: string, amount: int64, clientTxId: string, generated: string, card: string, authorised: bool)

  datatype Result =
    | Created(wallet: W.Wallet)
    | Rejected          // bad owner, card number or amount, or a wallet id that is taken
    | UnknownWallet
    | NotOwner
    | Declined
    | Ledger(reply: Reply)

  function AccountCode(id: string): Code { "wallet:" + id }

  function ClientId(clientTxId: string, generated: string): string {
    if clientTxId == "" then generated else clientTxId
  }

  function NewWallet(op: Op): W.Wallet
    requires op.CreateWallet?
  {
    W.Wallet(op.uuid, op.ownerId, AccountCode(op.uuid), if op.currency == "" then "XAF" else op.currency, "active")
  }

  /** Spaces are dropped; what is left is 12 to 19 decimal digits. */
  predicate ValidCard(card: string) {
    var digits := WithoutSpaces(card);
    12 <= |digits| <= 19 && forall c :: c in digits ==> '0' <= c <= '9'
  }

  function WithoutSpaces(s: string): string {
    if |s| == 0 then [] else (if s[0] == ' ' then [] else [s[0]]) + WithoutSpaces(s[1..])
  }

  /** What a call answers before it reaches the ledger, or the posting it asks the ledger for. */
  datatype Plan = Answer(result: Result) | Ask(req: Request)

  function PlanOf(repo: W.Repo, op: Op): Plan
    requires !op.CreateWallet?
  {
    match op
    case Pay(from, to, amount, clientTxId, generated, requestor) =>
      if amount <= 0 then Answer(Rejected)
      else if from !in repo.storage then Answer(UnknownWallet)
      else if requestor != "" && repo.storage[from].ownerId != requestor then Answer(NotOwner)
      else if to !in repo.storage then Answer(UnknownWallet)
      else Ask(Transfer(repo.storage[from].accountCode, repo.storage[to].accountCode, "p2p",
                        ClientId(clientTxId, generated), amount))
    case TopUp(wallet, amount, clientTxId, generated, card, authorised) =>
      if !ValidCard(card) || amount <= 0 then Answer(Rejected)
      else if wallet !in repo.storage then Answer(UnknownWallet)
      else if !authorised then Answer(Declined)
      else Ask(CardIn(repo.storage[wallet].accountCode, ClientId(clientTxId, generated), amount))
    case Withdraw(wallet, amount, clientTxId, generated, card, authorised) =>
      if !ValidCard(card) || amount <= 0 then Answer(Rejected)
      else if wallet !in repo.storage then Answer(UnknownWallet)
      else if !authorised then Answer(Declined)
      else Ask(CardOut(repo.storage[wallet].accountCode, ClientId(clientTxId, generated), amount))
  }

  function Perform(s: System, op: Op): (System, Result) {
    if op.CreateWallet? then
      if !op.parses then (s, Rejected)
      else
        // The account is provisioned first, and stays when the wallet record is refused.
        (System(Provision(s.mem, AccountCode(op.uuid)), W.Insert(s.repo, NewWallet(op))),
         if op.uuid in s.repo.storage then Rejected else Created(NewWallet(op)))
    else
      match PlanOf(s.repo, op)
      case Answer(result) => (s, result)
      case Ask(req) => (s.(mem := Step(s.mem, req).0), Ledger(Step(s.mem, req).1))
  }

  function RunOps(ops: seq<Op>): System {
    if |ops| == 0 then BOOT else Perform(RunOps(ops[..|ops| - 1]), ops[|ops| - 1]).0
  }

  /** The ledger calls a service call makes. */
  function CallsIn(s: System, op: Op): seq<Call> {
    if op.CreateWallet? then if op.parses then [EnsureAccount(AccountCode(op.uuid))] else []
    else if PlanOf(s.repo, op).Ask? then [Post(PlanOf(s.repo, op).req)] else []
  }

  function CallsOf(ops: seq<Op>): seq<Call> {
    if |ops| == 0 then []
    else CallsOf(ops[..|ops| - 1]) + CallsIn(RunOps(ops[..|ops| - 1]), ops[|ops| - 1])
  }

  // ---- Coherence of the wallet store and the ledger ----

  /** Every stored wallet has its own account, named after it, and the ledger has it. */
  ghost predicate Coherent(s: System) {
    && SUSPENSE in s.mem.balances
    && forall id :: id in s.repo.storage ==>
         && s.repo.storage[id].id == id
         && s.repo.storage[id].accountCode == AccountCode(id)
         && AccountCode(id) in s.mem.balances
  }

  lemma CodesDistinct(id: string, id': string)
    ensures AccountCode(id) == AccountCode(id') ==> id == id'
    ensures AccountCode(id) != SUSPENSE
  {
    assert AccountCode(id)[0] == 'w' && SUSPENSE[0] == 's';
    assert AccountCode(id)[|"wallet:"|..] == id && AccountCode(id')[|"wallet:"|..] == id';
  }

  lemma PerformKeepsCoherent(s: System, op: Op)
    requires Coherent(s)
    ensures Coherent(Perform(s, op).0)
  {
    if !op.CreateWallet? && PlanOf(s.repo, op).Ask? {
      StepKeepsAccounts(s.mem, PlanOf(s.repo, op).req);
    }
  }

  lemma StepKeepsAccounts(m: Mem, r: Request)
    ensures m.balances.Keys <= Step(m, r).0.balances.Keys
  {
  }

  /** In every reachable state each stored wallet's account is its own, exists, and is not
      suspense. */
  lemma {:induction false} RunCoherent(ops: seq<Op>)
    ensures Coherent(RunOps(ops))
  {
    if |ops| > 0 {
      RunCoherent(ops[..|ops| - 1]);
      PerformKeepsCoherent(RunOps(ops[..|ops| - 1]), ops[|ops| - 1]);
    }
  }

  /** A payment's result, each with its exact cause: it posts exactly when the amount is positive,
      both wallets are stored, the same one or not, the requestor owns the source, the client id is
      new and the money is there. */
  lemma PaymentCanOnlyFailOn(ops: seq<Op>, op: Op)
    requires op.Pay?
    ensures var s := RunOps(ops);
            var key := "p2p:" + if op.clientTxId != "" then op.clientTxId else op.generated;
            var mine := op.from in s.repo.storage
                        && (op.requestor == "" || s.repo.storage[op.from].ownerId == op.requestor);
            var sent := op.amount > 0 && mine && op.to in s.repo.storage;
            var result := Perform(s, op).1;
            && (result == Rejected <==> op.amount <= 0)
            && (result == NotOwner <==> op.amount > 0 && op.from in s.repo.storage && !mine)
            && (result == UnknownWallet <==>
                  op.amount > 0 && (op.from !in s.repo.storage || (mine && op.to !in s.repo.storage)))
            && ((result.Ledger? && result.reply.DuplicateOf?) <==> sent && key in s.mem.transactions)
            && (result == Ledger(Refused) <==>
                  sent && key !in s.mem.transactions && s.mem.At("wallet:" + op.from) < op.amount)
            && ((result.Ledger? && result.reply.Accepted?) <==>
                  sent && key !in s.mem.transactions && s.mem.At("wallet:" + op.from) >= op.amount)
  {
    var s := RunOps(ops);
    RunCoherent(ops);
    var id := ClientId(op.clientTxId, op.generated);
    assert "p2p" + ":" + id == "p2p:" + id;
    if PlanOf(s.repo, op).Ask? {
      TransferReplies(s.mem, AccountCode(op.from), AccountCode(op.to), "p2p", id, op.amount);
    }
  }

  // ---- Service runs are ledger runs ----

  /** No payment from a wallet to itself. */
  predicate DistinctPayments(ops: seq<Op>) { forall op :: op in ops && op.Pay? ==> op.from != op.to }

  lemma PlansSpareSuspense(s: System, op: Op)
    requires Coherent(s) && !op.CreateWallet? && PlanOf(s.repo, op).Ask?
    ensures WalletsOnly(Post(PlanOf(s.repo, op).req))
    ensures (op.Pay? ==> op.from != op.to) ==> Admissible(PlanOf(s.repo, op).req)
  {
    match op
    case Pay(from, to, _, _, _, _) => CodesDistinct(from, to); CodesDistinct(to, from);
    case TopUp(wallet, _, _, _, _, _) => CodesDistinct(wallet, wallet);
    case Withdraw(wallet, _, _, _, _, _) => CodesDistinct(wallet, wallet);
  }

  lemma RunMemAppend(calls: seq<Call>, more: seq<Call>)
    requires |more| <= 1
    ensures RunMem(calls + more) == if |more| == 0 then RunMem(calls) else MemCall(RunMem(calls), more[0])
  {
    if |more| == 0 { assert calls + more == calls; } else { assert (calls + more)[..|calls|] == calls; }
  }

  /** The services drive the ledger through a run of its own calls that leaves suspense to the
      card postings, and that is admissible when no wallet pays itself. */
  lemma {:induction false} ServicesRunLedger(ops: seq<Op>)
    ensures RunOps(ops).mem == RunMem(CallsOf(ops))
    ensures WalletRun(CallsOf(ops))
    ensures DistinctPayments(ops) ==> AdmissibleRun(CallsOf(ops))
  {
    if |ops| > 0 {
      var before, op := ops[..|ops| - 1], ops[|ops| - 1];
      var s := RunOps(before);
      ServicesRunLedger(before);
      RunCoherent(before);
      RunMemAppend(CallsOf(before), CallsIn(s, op));
      assert op in ops;
      if !op.CreateWallet? && PlanOf(s.repo, op).Ask? { PlansSpareSuspense(s, op); }
    }
  }

  // ---- Where the money is ----

  /** What one service call brings in by card, pays out by card, or makes by paying a wallet
      from itself. */
  function OpFlow(s: System, op: Op): Flows {
    var result := Perform(s, op).1;
    if !result.Ledger? || !result.reply.Accepted? then NO_FLOWS
    else match op
      case Pay(from, to, amount, _, _, _) => if from == to then Flows(0, 0, amount) else NO_FLOWS
      case TopUp(_, amount, _, _, _, _) => Flows(amount, 0, 0)
      case Withdraw(_, amount, _, _, _, _) => Flows(0, amount, 0)
      case CreateWallet(_, _, _, _) => NO_FLOWS
  }

  function OpFlows(ops: seq<Op>): Flows {
    if |ops| == 0 then NO_FLOWS
    else
      var before := ops[..|ops| - 1];
      Plus(OpFlows(before), OpFlow(RunOps(before), ops[|ops| - 1]))
  }

  /** The flows of a service call are those of the posting it asks for, if any. */
  lemma OpFlowIsCallFlow(s: System, op: Op)
    requires Coherent(s)
    ensures OpFlow(s, op) == if |CallsIn(s, op)| == 0 then NO_FLOWS else FlowOf(s.mem, CallsIn(s, op)[0])
  {
    if op.Pay? { CodesDistinct(op.from, op.to); }
  }

  /** One service call makes at most one ledger call. */
  lemma PerformCalls(s: System, op: Op)
    requires Coherent(s)
    ensures Perform(s, op).0.mem == if |CallsIn(s, op)| == 0 then s.mem else MemCall(s.mem, CallsIn(s, op)[0])
    ensures |CallsIn(s, op)| == 1 ==> WalletsOnly(CallsIn(s, op)[0])
  {
    if !op.CreateWallet? && PlanOf(s.repo, op).Ask? { PlansSpareSuspense(s, op); }
  }

  lemma PerformExact(s: System, op: Op, f: Flows)
    requires Coherent(s) && Exact(s.mem, f) && InRange(Plus(f, OpFlow(s, op)))
    ensures Exact(Perform(s, op).0.mem, Plus(f, OpFlow(s, op)))
    ensures !op.CreateWallet? && PlanOf(s.repo, op).Ask? ==> NoWrap(s.mem, PlanOf(s.repo, op).req)
  {
    PerformCalls(s, op);
    OpFlowIsCallFlow(s, op);
    if |CallsIn(s, op)| == 1 { CallExact(s.mem, CallsIn(s, op)[0], f); }
  }

  /** What is outstanding fits in 64 bits after every call of the run. */
  predicate AlwaysFits(ops: seq<Op>) { forall n: nat :: n <= |ops| ==> InRange(OpFlows(ops[..n])) }

  lemma FitsBefore(ops: seq<Op>, n: nat)
    requires AlwaysFits(ops) && n <= |ops|
    ensures AlwaysFits(ops[..n])
  {
    forall k: nat | k <= n ensures InRange(OpFlows(ops[..n][..k])) {
      assert ops[..n][..k] == ops[..k];
    }
  }

  lemma FlowsAppend(ops: seq<Op>, op: Op)
    ensures OpFlows(ops + [op]) == Plus(OpFlows(ops), OpFlow(RunOps(ops), op))
  {
    assert (ops + [op])[..|ops|] == ops;
  }

  /** The run before the last call, and its flows with the last call. */
  lemma FitsAppend(ops: seq<Op>, op: Op)
    requires AlwaysFits(ops + [op])
    ensures AlwaysFits(ops) && InRange(Plus(OpFlows(ops), OpFlow(RunOps(ops), op)))
  {
    var more := ops + [op];
    FitsBefore(more, |ops|);
    assert more[..|ops|] == ops && more[..|more|] == more;
    FlowsAppend(ops, op);
  }

  lemma {:induction false} RunOpsExact(ops: seq<Op>)
    requires AlwaysFits(ops)
    ensures Exact(RunOps(ops).mem, OpFlows(ops))
  {
    if |ops| == 0 {
      EmptyIsExact(MEM0);
    } else {
      var before, op := ops[..|ops| - 1], ops[|ops| - 1];
      assert ops == before + [op];
      FitsAppend(before, op);
      RunOpsExact(before);
      RunCoherent(before);
      PerformExact(RunOps(before), op, OpFlows(before));
    }
  }

  /** Over every run of the services, as long as what is outstanding fits: suspense is what was
      paid out by card minus what came in, no wallet is in the red, all balances add up to the
      accepted self-payments, and suspense mirrors the wallets exactly when there were none. Then
      nothing can be paid out of suspense. */
  lemma ServicesBalance(ops: seq<Op>, r: Request)
    requires AlwaysFits(ops)
    ensures var balances, f := RunOps(ops).mem.balances, OpFlows(ops);
            && SUSPENSE in balances && Solvent(balances)
            && balances[SUSPENSE] == f.cardOut - f.cardIn
            && Total(balances) == f.self
            && (balances[SUSPENSE] == -Total(balances - {SUSPENSE}) <==> f.self == 0)
            && (f.self == 0 ==> balances[SUSPENSE] <= 0)
    ensures OpFlows(ops).self == 0 && r.ChecksFunds() && r.First() == SUSPENSE ==>
              !Step(RunOps(ops).mem, r).1.Accepted?
  {
    RunCoherent(ops);
    RunOpsExact(ops);
    ExactMirror(RunOps(ops).mem, OpFlows(ops));
    if r.ChecksFunds() && r.First() == SUSPENSE { RefusedBelowZero(RunOps(ops).mem, r); }
  }

  lemma RefusedBelowZero(m: Mem, r: Request)
    requires r.ChecksFunds()
    ensures m.At(r.First()) <= 0 ==> !Step(m, r).1.Accepted?
  {
  }

  /** One more call of the services does not wrap while that holds. */
  lemma NextFits(ops: seq<Op>, op: Op)
    requires !op.CreateWallet? && PlanOf(RunOps(ops).repo, op).Ask? && AlwaysFits(ops + [op])
    ensures NoWrap(RunOps(ops).mem, PlanOf(RunOps(ops).repo, op).req)
  {
    FitsAppend(ops, op);
    RunOpsExact(ops);
    RunCoherent(ops);
    PerformExact(RunOps(ops), op, OpFlows(ops));
  }

  /** What an accepted payment does: the amount moves between two different wallets, and appears
      from nothing when the wallet pays itself. */
  lemma PaymentMoves(ops: seq<Op>, op: Op)
    requires op.Pay? && AlwaysFits(ops + [op])
    requires Perform(RunOps(ops), op).1.Ledger? && Perform(RunOps(ops), op).1.reply.Accepted?
    ensures var before, after := RunOps(ops).mem.balances, Perform(RunOps(ops), op).0.mem.balances;
            after == if op.from == op.to then Gain(before, AccountCode(op.from), op.amount)
                     else Shift(before, AccountCode(op.from), AccountCode(op.to), -(op.amount as int))
  {
    var s := RunOps(ops);
    RunCoherent(ops);
    NextFits(ops, op);
    PayPlan(s, op);
    TransferMoves(s.mem, PlanOf(s.repo, op).req);
  }

  lemma PayPlan(s: System, op: Op)
    requires Coherent(s) && op.Pay? && PlanOf(s.repo, op).Ask?
    ensures var req := PlanOf(s.repo, op).req;
            && req.Transfer? && req.from == AccountCode(op.from) && req.to == AccountCode(op.to)
            && req.amount == op.amount && (req.from == req.to <==> op.from == op.to)
            && Perform(s, op) == (s.(mem := Step(s.mem, req).0), Ledger(Step(s.mem, req).1))
  {
    CodesDistinct(op.from, op.to);
  }

  // ---- Card calls ----

  /** 12 to 19 decimal digits, between which there may be spaces. */
  predicate GoodCard(card: string) {
    12 <= |card| - multiset(card)[' '] <= 19 && forall c :: c in card ==> c == ' ' || '0' <= c <= '9'
  }

  lemma {:induction false} SpacesGone(s: string)
    ensures |WithoutSpaces(s)| == |s| - multiset(s)[' ']
    ensures forall c :: c in WithoutSpaces(s) <==> c in s && c != ' '
  {
    if |s| > 0 {
      SpacesGone(s[1..]);
      assert s == [s[0]] + s[1..];
    }
  }

  lemma ValidCardMeans(card: string)
    ensures ValidCard(card) <==> GoodCard(card)
  {
    SpacesGone(card);
  }

  /** A card call's result, each with its exact cause: it posts exactly when the card number and the
      amount are good, the wallet is stored, the acquirer raised no error, the client id is new for
      its kind, and a withdrawal is covered. */
  lemma CardCallPostsIff(ops: seq<Op>, op: Op)
    requires op.TopUp? || op.Withdraw?
    ensures var s := RunOps(ops);
            var key := (if op.TopUp? then "card_in:" else "card_out:")
                       + if op.clientTxId != "" then op.clientTxId else op.generated;
            var good := GoodCard(op.card) && op.amount > 0;
            var sent := good && op.wallet in s.repo.storage && op.authorised;
            var covered := op.TopUp? || s.mem.At("wallet:" + op.wallet) >= op.amount;
            var result := Perform(s, op).1;
            && (result == Rejected <==> !good)
            && (result == UnknownWallet <==> good && op.wallet !in s.repo.storage)
            && (result == Declined <==> good && op.wallet in s.repo.storage && !op.authorised)
            && ((result.Ledger? && result.reply.DuplicateOf?) <==> sent && key in s.mem.fundingTx)
            && (result == Ledger(Refused) <==> sent && key !in s.mem.fundingTx && !covered)
            && ((result.Ledger? && result.reply.Accepted?) <==> sent && key !in s.mem.fundingTx && covered)
  {
    var s := RunOps(ops);
    RunCoherent(ops);
    ValidCardMeans(op.card);
    var id := ClientId(op.clientTxId, op.generated);
    assert CARD_IN + ":" + id == "card_in:" + id && CARD_OUT + ":" + id == "card_out:" + id;
    assert "card_in" + ":" + id == "card_in:" + id && "card_out" + ":" + id == "card_out:" + id;
    if PlanOf(s.repo, op).Ask? {
      if op.TopUp? { CardInReplies(s.mem, AccountCode(op.wallet), id, op.amount); }
      else { CardOutReplies(s.mem, AccountCode(op.wallet), id, op.amount); }
    }
  }

  // ---- A retry with the client's own id ----

  predicate AcceptedAt(ops: seq<Op>, n: nat)
    requires n < |ops|
  {
    var result := Perform(RunOps(ops[..n]), ops[n]).1; result.Ledger? && result.reply.Accepted?
  }

  lemma PerformKeepsResults(s: System, op: Op)
    ensures var m, m' := s.mem, Perform(s, op).0.mem;
            && (forall k :: k in m.transactions ==> k in m'.transactions)
            && (forall k :: k in m.fundingTx ==> k in m'.fundingTx)
  {
  }

  lemma {:induction false} ResultsStay(ops: seq<Op>, n: nat)
    requires n <= |ops|
    ensures var m, m' := RunOps(ops[..n]).mem, RunOps(ops).mem;
            && (forall k :: k in m.transactions ==> k in m'.transactions)
            && (forall k :: k in m.fundingTx ==> k in m'.fundingTx)
  {
    if n < |ops| {
      var before := ops[..|ops| - 1];
      ResultsStay(before, n);
      assert before[..n] == ops[..n];
      PerformKeepsResults(RunOps(before), ops[|ops| - 1]);
    } else {
      assert ops[..n] == ops;
    }
  }

  /** The key under which a call's result is remembered, if it has the client's own id. */
  function ClientKey(op: Op): string
    requires !op.CreateWallet?
  {
    (if op.Pay? then "p2p:" else if op.TopUp? then "card_in:" else "card_out:") + op.clientTxId
  }

  /** An accepted call leaves its result under its client's id. */
  lemma AcceptedRemembers(s: System, op: Op)
    requires var result := Perform(s, op).1; result.Ledger? && result.reply.Accepted?
    requires !op.CreateWallet? && op.clientTxId != ""
    ensures var m := Perform(s, op).0.mem; ClientKey(op) in if op.Pay? then m.transactions else m.fundingTx
  {
    var req := PlanOf(s.repo, op).req;
    assert MemKey(req) == ClientKey(op) by {
      var id := op.clientTxId;
      assert "p2p" + ":" + id == "p2p:" + id;
      assert CARD_IN + ":" + id == "card_in:" + id && CARD_OUT + ":" + id == "card_out:" + id;
    }
    StepRemembers(s.mem, req);
  }

  lemma StepRemembers(m: Mem, r: Request)
    requires Step(m, r).1.Accepted?
    ensures Step(m, r).0.Remembers(r)
  {
  }

  /** Two calls of one kind with the client's own id. */
  predicate SameClientCall(a: Op, b: Op) {
    match (a, b)
    case (Pay(_, _, _, id, _, _), Pay(_, _, _, other, _, _)) => id == other && id != ""
    case (TopUp(_, _, id, _, _, _), TopUp(_, _, other, _, _, _)) => id == other && id != ""
    case (Withdraw(_, _, id, _, _, _), Withdraw(_, _, other, _, _, _)) => id == other && id != ""
    case _ => false
  }

  /** Over every run of the services, two payments with the same id of the client are never both
      accepted, and no two top-ups or withdrawals, whatever ids the service would generate. */
  lemma RetriesPostOnce(ops: seq<Op>, i: nat, j: nat)
    requires i < j < |ops| && SameClientCall(ops[i], ops[j])
    ensures !(AcceptedAt(ops, i) && AcceptedAt(ops, j))
  {
    if AcceptedAt(ops, i) {
      AcceptedRemembers(RunOps(ops[..i]), ops[i]);
      assert ops[..i + 1][..i] == ops[..i];
      ResultsStay(ops[..j], i + 1);
      assert ops[..j][..i + 1] == ops[..i + 1];
      if ops[j].Pay? { PaymentCanOnlyFailOn(ops[..j], ops[j]); } else { CardCallPostsIff(ops[..j], ops[j]); }
    }
  }

  // ---- What card calls move ----

  /** What a card operation asks the ledger for. */
  lemma CardPlan(s: System, op: Op)
    requires Coherent(s) && (op.TopUp? || op.Withdraw?) && PlanOf(s.repo, op).Ask?
    ensures var req := PlanOf(s.repo, op).req;
            && !req.Transfer? && req.wallet == AccountCode(op.wallet) && req.wallet != SUSPENSE
            && req.FirstDelta() == (if op.TopUp? then op.amount as int else -(op.amount as int))
            && CallsIn(s, op) == [Post(req)]
  {
    CodesDistinct(op.wallet, op.wallet);
  }

  /** `gain` moves from suspense to the account, nothing else changes, and the receipt shows the
      account's new balance. */
  ghost predicate CardMoved(before: map<Code, int>, after: map<Code, int>, receipt: Receipt, code: Code, gain: int) {
    && code in before && SUSPENSE in before && code != SUSPENSE
    && after == before[code := before[code] + gain][SUSPENSE := before[SUSPENSE] - gain]
    && receipt.FundingResult? && receipt.walletBalance == before[code] + gain && receipt.status == PendingSettlement
  }

  lemma CardStep(m: Mem, r: Request)
    requires !r.Transfer? && r.wallet != SUSPENSE && SUSPENSE in m.balances && NoWrap(m, r) && Step(m, r).1.Accepted?
    ensures CardMoved(m.balances, Step(m, r).0.balances, Step(m, r).1.receipt, r.wallet, r.FirstDelta())
  {
  }

  /** What a card call posts: a top-up moves the amount from suspense to the wallet, and a
      withdrawal moves it back. */
  lemma CardCallMoves(ops: seq<Op>, op: Op)
    requires op.TopUp? || op.Withdraw?
    requires AlwaysFits(ops + [op])
    requires Perform(RunOps(ops), op).1.Ledger? && Perform(RunOps(ops), op).1.reply.Accepted?
    ensures CardMoved(RunOps(ops).mem.balances, Perform(RunOps(ops), op).0.mem.balances,
                      Perform(RunOps(ops), op).1.reply.receipt, AccountCode(op.wallet),
                      if op.TopUp? then op.amount as int else -(op.amount as int))
  {
    var s := RunOps(ops);
    var req := PlanOf(s.repo, op).req;
    assert Perform(s, op) == (s.(mem := Step(s.mem, req).0), Ledger(Step(s.mem, req).1));
    RunCoherent(ops);
    NextFits(ops, op);
    CardPlan(s, op);
    CardStep(s.mem, req);
  }

  /** A wallet is created exactly for an owner that parses and an id that is new; it is active, in
      francs unless another currency is asked for. Its account is there even if it is refused. */
  lemma CreatedIff(ops: seq<Op>, op: Op)
    requires op.CreateWallet?
    ensures var (s', result) := Perform(RunOps(ops), op);
            && (result.Created? <==> op.parses && op.uuid !in RunOps(ops).repo.storage)
            && (!result.Created? ==> result == Rejected && s'.repo == RunOps(ops).repo)
            && (result.Created? ==>
                  result.wallet == W.Wallet(op.uuid, op.ownerId, "wallet:" + op.uuid,
                                            if op.currency == "" then "XAF" else op.currency, "active"))
            && (op.parses ==> "wallet:" + op.uuid in s'.mem.balances)
            && (!op.parses ==> s' == RunOps(ops))
  {
  }

  /** A new wallet starts empty and becomes its owner's wallet. */
  lemma CreatedIsLatest(ops: seq<Op>, op: Op)
    requires op.CreateWallet? && Perform(RunOps(ops), op).1.Created?
    requires "wallet:" + op.uuid !in RunOps(ops).mem.balances
    ensures var s := Perform(RunOps(ops), op).0;
            && s.mem.balances == RunOps(ops).mem.balances["wallet:" + op.uuid := 0]
            && W.Lookup(s.repo, op.uuid) == Some(Perform(RunOps(ops), op).1.wallet)
            && (op.ownerId != "" ==> W.LookupOwner(s.repo, op.ownerId) == Some(Perform(RunOps(ops), op).1.wallet))
  {
    RunCoherent(ops);
  }
}
