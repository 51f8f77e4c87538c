/** Money in the in-memory ledger: where it comes from, and why its sums fit in 64 bits. */
module MoneySupply {
  import opened Int64
  import opened LedgerSpec
  import opened InMemoryLedgers
  import opened MapSums

  /** No intermediate value of an accepted call leaves the 64-bit range. */
  predicate NoWrap(m: Mem, r: Request) {
    Step(m, r).1.Accepted? ==>
      && Fits(m.balances[r.First()] + r.FirstDelta())
      && (r.Transfer? ==> Fits(m.At(r.to) - r.FirstDelta()))
      && (!r.Transfer? ==> Fits((if r.wallet == SUSPENSE then m.At(SUSPENSE) + r.FirstDelta() else m.At(SUSPENSE))
                                - r.FirstDelta()))
  }

  // ---- Runs ----

  datatype Call = EnsureAccount(code: Code) | Post(req: Request)

  function MemCall(m: Mem, c: Call): Mem {
    match c
    case EnsureAccount(code) => Provision(m, code)
    case Post(r) => Step(m, r).0
  }

  function RunFrom(m: Mem, calls: seq<Call>): Mem {
    if |calls| == 0 then m else MemCall(RunFrom(m, calls[..|calls| - 1]), calls[|calls| - 1])
  }

  /** What accepted calls bring in by card, pay out by card, and make out of nothing by paying
      an account from itself. */
  datatype Flows = Flows(cardIn: int, cardOut: int, self: int)

  const NO_FLOWS := Flows(0, 0, 0)

  function Plus(f: Flows, g: Flows): Flows { Flows(f.cardIn + g.cardIn, f.cardOut + g.cardOut, f.self + g.self) }

  function FlowOf(m: Mem, c: Call): Flows {
    if !c.Post? || !Step(m, c.req).1.Accepted? then NO_FLOWS
    else match c.req
      case CardIn(_, _, amount) => Flows(amount, 0, 0)
      case CardOut(_, _, amount) => Flows(0, amount, 0)
      case Transfer(from, to, _, _, amount) => if from == to then Flows(0, 0, amount) else NO_FLOWS
  }

  function FlowsOf(m: Mem, calls: seq<Call>): Flows {
    if |calls| == 0 then NO_FLOWS
    else
      var before := calls[..|calls| - 1];
      Plus(FlowsOf(m, before), FlowOf(RunFrom(m, before), calls[|calls| - 1]))
  }

  /** Calls that leave suspense to the card postings, as all calls of the services do. */
  predicate WalletsOnly(c: Call) {
    c.Post? ==> c.req.First() != SUSPENSE && (c.req.Transfer? ==> c.req.to != SUSPENSE)
  }

  predicate WalletRun(calls: seq<Call>) { forall c :: c in calls ==> WalletsOnly(c) }

  /** All money there is was made by self-transfers, no wallet is in the red, and suspense owes
      no more than what came in by card. */
  ghost predicate Kept(m: Mem, f: Flows) {
    && f.cardIn >= 0 && f.cardOut >= 0 && f.self >= 0
    && Total(m.balances) == f.self
    && Solvent(m.balances)
    && m.At(SUSPENSE) + f.cardIn >= 0
  }

  predicate Solvent(balances: map<Code, int64>) {
    forall c :: c in balances && c != SUSPENSE ==> balances[c] >= 0
  }

  // ---- Bounds ----

  function Wallets(m: Mem): map<Code, int> { m.balances - {SUSPENSE} }

  lemma WalletsTotal(m: Mem)
    requires Solvent(m.balances)
    ensures Total(Wallets(m)) == Total(m.balances) - m.At(SUSPENSE)
    ensures Total(Wallets(m)) >= 0
  {
    if SUSPENSE in m.balances { TotalRemove(m.balances, SUSPENSE); } else { assert Wallets(m) == m.balances; }
    TotalNonNegative(Wallets(m));
  }

  lemma PartBound<K>(sheet: map<K, int>, k: K)
    requires k in sheet && forall j :: j in sheet ==> sheet[j] >= 0
    ensures 0 <= sheet[k] <= Total(sheet)
  {
    TotalRemove(sheet, k);
    TotalNonNegative(sheet - {k});
  }

  /** Two different accounts hold no more than all of them. */
  lemma PairBound<K>(sheet: map<K, int>, j: K, k: K)
    requires j in sheet && k in sheet && j != k && forall i :: i in sheet ==> sheet[i] >= 0
    ensures sheet[j] + sheet[k] <= Total(sheet)
  {
    TotalRemove(sheet, j);
    PartBound(sheet - {j}, k);
  }

  lemma TransferFits(m: Mem, r: Request, f: Flows)
    requires Kept(m, f) && r.Transfer? && Step(m, r).1.Accepted?
    requires f.cardIn + f.self + FlowOf(m, Post(r)).self <= MAX
    ensures NoWrap(m, r)
  {
    WalletsTotal(m);
    if r.from != SUSPENSE { PartBound(Wallets(m), r.from); }
    if r.to != SUSPENSE { PartBound(Wallets(m), r.to); }
    if r.from != SUSPENSE && r.to != SUSPENSE && r.from != r.to { PairBound(Wallets(m), r.from, r.to); }
  }

  lemma CardFits(m: Mem, r: Request, f: Flows)
    requires Kept(m, f) && !r.Transfer? && Step(m, r).1.Accepted?
    requires f.cardIn + f.self + FlowOf(m, Post(r)).cardIn <= MAX
    ensures NoWrap(m, r)
  {
    WalletsTotal(m);
    if r.wallet != SUSPENSE { PartBound(Wallets(m), r.wallet); }
  }

  // ---- What one call keeps ----

  /** An accepted transfer moves the amount; one from an account to itself makes it. */
  lemma TransferMoves(m: Mem, r: Request)
    requires r.Transfer? && Step(m, r).1.Accepted? && NoWrap(m, r)
    ensures Step(m, r).0.balances ==
              if r.from == r.to then Gain(m.balances, r.from, r.amount)
              else Shift(m.balances, r.from, r.to, -(r.amount as int))
  {
  }

  lemma CardMoves(m: Mem, r: Request)
    requires !r.Transfer? && Step(m, r).1.Accepted? && NoWrap(m, r)
    ensures Step(m, r).0.balances ==
              if r.wallet == SUSPENSE then m.balances else Shift(m.balances, r.wallet, SUSPENSE, r.FirstDelta())
  {
  }

  /** Only self-transfers change the total, and no call puts a wallet into the red. */
  lemma CallTotal(m: Mem, c: Call)
    requires c.Post? ==> NoWrap(m, c.req)
    ensures Total(MemCall(m, c).balances) == Total(m.balances) + FlowOf(m, c).self
    ensures Solvent(m.balances) ==> Solvent(MemCall(m, c).balances)
  {
    match c
    case EnsureAccount(code) => if code !in m.balances { TotalUpdate(m.balances, code, 0); }
    case Post(r) =>
      if Step(m, r).1.Accepted? {
        if r.Transfer? { TransferTotal(m, r); } else { CardTotal(m, r); }
      }
  }

  lemma TransferTotal(m: Mem, r: Request)
    requires r.Transfer? && Step(m, r).1.Accepted? && NoWrap(m, r)
    ensures Total(Step(m, r).0.balances) == Total(m.balances) + FlowOf(m, Post(r)).self
    ensures Solvent(m.balances) ==> Solvent(Step(m, r).0.balances)
  {
    TransferMoves(m, r);
    if r.from == r.to { TotalGain(m.balances, r.from, r.amount); }
    else { TotalShift(m.balances, r.from, r.to, -(r.amount as int)); }
  }

  lemma CardTotal(m: Mem, r: Request)
    requires !r.Transfer? && Step(m, r).1.Accepted? && NoWrap(m, r)
    ensures Total(Step(m, r).0.balances) == Total(m.balances)
    ensures Solvent(m.balances) ==> Solvent(Step(m, r).0.balances)
  {
    CardMoves(m, r);
    TotalShift(m.balances, r.wallet, SUSPENSE, r.FirstDelta());
  }

  /** Suspense sinks only by what comes in by card, or pays out of what it has. */
  lemma SuspenseSinks(m: Mem, c: Call)
    requires c.Post? ==> NoWrap(m, c.req)
    ensures var at := MemCall(m, c).At(SUSPENSE); at >= 0 || at >= m.At(SUSPENSE) - FlowOf(m, c).cardIn
  {
  }

  lemma CallKept(m: Mem, c: Call, f: Flows)
    requires Kept(m, f)
    requires var g := Plus(f, FlowOf(m, c)); g.cardIn + g.self <= MAX
    ensures Kept(MemCall(m, c), Plus(f, FlowOf(m, c)))
    ensures c.Post? ==> NoWrap(m, c.req)
  {
    if c.Post? && Step(m, c.req).1.Accepted? {
      if c.req.Transfer? { TransferFits(m, c.req, f); } else { CardFits(m, c.req, f); }
    }
    OneMoreFlow(f, m, c);
    CallTotal(m, c);
    SuspenseSinks(m, c);
  }

  predicate AtMost(f: Flows, g: Flows) { f.cardIn <= g.cardIn && f.cardOut <= g.cardOut && f.self <= g.self }

  lemma OneMoreFlow(f: Flows, m: Mem, c: Call)
    ensures AtMost(f, Plus(f, FlowOf(m, c)))
  {
  }

  lemma {:induction false} FlowsGrow(m: Mem, calls: seq<Call>, n: nat)
    requires n <= |calls|
    ensures AtMost(FlowsOf(m, calls[..n]), FlowsOf(m, calls))
    decreases |calls|
  {
    if n < |calls| {
      var before := calls[..|calls| - 1];
      FlowsGrow(m, before, n);
      assert before[..n] == calls[..n];
      OneMoreFlow(FlowsOf(m, before), RunFrom(m, before), calls[|calls| - 1]);
    } else {
      assert calls[..n] == calls;
    }
  }

  /** Over every run, with any kinds and any transfers: as long as what came in by card and what
      self-transfers made total at most 2^63 - 1, the sum of all balances is what self-transfers
      made, and no wallet is in the red. */
  lemma {:induction false} RunKept(m: Mem, calls: seq<Call>)
    requires Kept(m, NO_FLOWS) && FlowsOf(m, calls).cardIn + FlowsOf(m, calls).self <= MAX
    ensures Kept(RunFrom(m, calls), FlowsOf(m, calls))
  {
    if |calls| > 0 {
      var before := calls[..|calls| - 1];
      FlowsGrow(m, calls, |calls| - 1);
      RunKept(m, before);
      CallKept(RunFrom(m, before), calls[|calls| - 1], FlowsOf(m, before));
    }
  }

  /** ... and no 64-bit addition or subtraction of any call wraps, from an empty ledger on. */
  lemma NothingWraps(calls: seq<Call>, n: nat)
    requires FlowsOf(NEW, calls).cardIn + FlowsOf(NEW, calls).self <= MAX
    requires n < |calls| && calls[n].Post?
    ensures NoWrap(RunFrom(NEW, calls[..n]), calls[n].req)
  {
    CallFits(NEW, calls, n);
  }

  lemma RunAppend(m: Mem, calls: seq<Call>, c: Call)
    ensures RunFrom(m, calls + [c]) == MemCall(RunFrom(m, calls), c)
    ensures FlowsOf(m, calls + [c]) == Plus(FlowsOf(m, calls), FlowOf(RunFrom(m, calls), c))
  {
    assert (calls + [c])[..|calls|] == calls;
  }

  lemma RunTwo(m: Mem, c: Call, d: Call)
    ensures RunFrom(m, [c, d]) == MemCall(MemCall(m, c), d)
    ensures FlowsOf(m, [c, d]) == Plus(FlowOf(m, c), FlowOf(MemCall(m, c), d))
  {
    assert [c, d] == [c] + [d] && [c] == [] + [c];
    RunAppend(m, [], c);
    RunAppend(m, [c], d);
  }

  /** A new wallet and all the money that fits. */
  function Full(wallet: Code): seq<Call> { [EnsureAccount(wallet), Post(CardIn(wallet, "a", MAX))] }

  /** The bound is tight: one unit above it, a sum can wrap. */
  lemma BoundIsTight(wallet: Code)
    requires wallet != SUSPENSE
    ensures var r := CardIn(wallet, "b", 1);
            && FlowsOf(NEW, Full(wallet) + [Post(r)]) == Flows(MAX + 1, 0, 0)
            && !NoWrap(RunFrom(NEW, Full(wallet)), r)
  {
    RunAppend(NEW, Full(wallet), Post(CardIn(wallet, "b", 1)));
    RunTwo(NEW, EnsureAccount(wallet), Post(CardIn(wallet, "a", MAX)));
    OneUnitMore(wallet);
  }

  lemma OneUnitMore(wallet: Code)
    requires wallet != SUSPENSE
    ensures var m, r := Provision(NEW, wallet), CardIn(wallet, "a", MAX);
            && FlowOf(m, Post(r)) == Flows(MAX, 0, 0)
            && FlowOf(Step(m, r).0, Post(CardIn(wallet, "b", 1))) == Flows(1, 0, 0)
            && !NoWrap(Step(m, r).0, CardIn(wallet, "b", 1))
  {
    var first, second := CARD_IN + ":" + "a", CARD_IN + ":" + "b";
    assert first[|first| - 1] != second[|second| - 1];
  }

  lemma CallFits(m: Mem, calls: seq<Call>, n: nat)
    requires Kept(m, NO_FLOWS) && FlowsOf(m, calls).cardIn + FlowsOf(m, calls).self <= MAX
    requires n < |calls| && calls[n].Post?
    ensures NoWrap(RunFrom(m, calls[..n]), calls[n].req)
  {
    FlowsGrow(m, calls, n);
    FlowsGrow(m, calls, n + 1);
    assert calls[..n + 1][..n] == calls[..n];
    RunKept(m, calls[..n]);
    CallKept(RunFrom(m, calls[..n]), calls[n], FlowsOf(m, calls[..n]));
  }

  // ---- The mirror ----

  predicate PaysItself(m: Mem, c: Call) {
    c.Post? && c.req.Transfer? && c.req.from == c.req.to && Step(m, c.req).1.Accepted?
  }

  /** Some account was paid from itself. */
  predicate SelfPaid(m: Mem, calls: seq<Call>) {
    |calls| > 0 &&
    var before := calls[..|calls| - 1];
    SelfPaid(m, before) || PaysItself(RunFrom(m, before), calls[|calls| - 1])
  }

  /** Money is made exactly by accepted self-transfers. */
  lemma {:induction false} MadeIff(m: Mem, calls: seq<Call>)
    ensures FlowsOf(m, calls).self >= 0
    ensures FlowsOf(m, calls).self > 0 <==> SelfPaid(m, calls)
  {
    if |calls| > 0 {
      MadeIff(m, calls[..|calls| - 1]);
    }
  }

  // ---- Suspense left to the card calls ----

  /** Suspense is what was paid out by card minus what came in, so the wallets hold what is
      outstanding: what came in minus what was paid out, and what self-transfers made. */
  ghost predicate Exact(m: Mem, f: Flows) {
    && Total(m.balances) == f.self && f.self >= 0
    && Solvent(m.balances)
    && m.At(SUSPENSE) == f.cardOut - f.cardIn
  }

  /** What is outstanding fits in 64 bits, and so does suspense if more was paid out. */
  predicate InRange(f: Flows) { f.cardIn - f.cardOut + f.self <= MAX && f.cardOut - f.cardIn <= MAX }

  lemma CallSuspense(m: Mem, c: Call)
    requires WalletsOnly(c) && (c.Post? ==> NoWrap(m, c.req))
    ensures var g := FlowOf(m, c); MemCall(m, c).At(SUSPENSE) == m.At(SUSPENSE) + g.cardOut - g.cardIn
  {
  }

  lemma ExactFits(m: Mem, r: Request, f: Flows)
    requires Exact(m, f) && WalletsOnly(Post(r)) && Step(m, r).1.Accepted?
    requires InRange(Plus(f, FlowOf(m, Post(r))))
    ensures NoWrap(m, r)
  {
    WalletsTotal(m);
    PartBound(Wallets(m), r.First());
    if r.Transfer? {
      PartBound(Wallets(m), r.to);
      if r.from != r.to { PairBound(Wallets(m), r.from, r.to); }
    }
  }

  lemma CallExact(m: Mem, c: Call, f: Flows)
    requires Exact(m, f) && WalletsOnly(c) && InRange(Plus(f, FlowOf(m, c)))
    ensures Exact(MemCall(m, c), Plus(f, FlowOf(m, c)))
    ensures c.Post? ==> NoWrap(m, c.req)
  {
    if c.Post? && Step(m, c.req).1.Accepted? { ExactFits(m, c.req, f); }
    OneMoreFlow(f, m, c);
    CallTotal(m, c);
    CallSuspense(m, c);
  }

  /** What is outstanding fits at every point of the run. */
  predicate AlwaysInRange(m: Mem, calls: seq<Call>) {
    forall n: nat :: n <= |calls| ==> InRange(FlowsOf(m, calls[..n]))
  }

  lemma RangeBefore(m: Mem, calls: seq<Call>, n: nat)
    requires AlwaysInRange(m, calls) && n <= |calls|
    ensures AlwaysInRange(m, calls[..n])
  {
    forall k: nat | k <= n ensures InRange(FlowsOf(m, calls[..n][..k])) {
      assert calls[..n][..k] == calls[..k];
    }
  }

  lemma NextInRange(m: Mem, calls: seq<Call>, n: nat)
    requires AlwaysInRange(m, calls) && n < |calls|
    ensures InRange(Plus(FlowsOf(m, calls[..n]), FlowOf(RunFrom(m, calls[..n]), calls[n])))
  {
    assert calls[..n + 1][..n] == calls[..n];
    assert InRange(FlowsOf(m, calls[..n + 1]));
  }

  lemma {:induction false} RunExact(m: Mem, calls: seq<Call>)
    requires Exact(m, NO_FLOWS) && WalletRun(calls) && AlwaysInRange(m, calls)
    ensures Exact(RunFrom(m, calls), FlowsOf(m, calls))
  {
    if |calls| > 0 {
      var n := |calls| - 1;
      RangeBefore(m, calls, n);
      RunExact(m, calls[..n]);
      NextInRange(m, calls, n);
      assert calls[n] in calls;
      CallExact(RunFrom(m, calls[..n]), calls[n], FlowsOf(m, calls[..n]));
    }
  }

  lemma ExactMirror(m: Mem, f: Flows)
    requires Exact(m, f)
    ensures Total(Wallets(m)) == f.self + f.cardIn - f.cardOut && Total(Wallets(m)) >= 0
    ensures m.At(SUSPENSE) == -Total(Wallets(m)) <==> f.self == 0
    ensures f.self == 0 ==> m.At(SUSPENSE) <= 0
  {
    WalletsTotal(m);
  }

  /** Over every run that leaves suspense to the card calls, however much passes through it in
      all: as long as what is outstanding fits at every point, nothing wraps. */
  lemma OutstandingNeverWraps(m: Mem, calls: seq<Call>, n: nat)
    requires Exact(m, NO_FLOWS) && WalletRun(calls) && AlwaysInRange(m, calls) && n < |calls| && calls[n].Post?
    ensures NoWrap(RunFrom(m, calls[..n]), calls[n].req)
  {
    RangeBefore(m, calls, n);
    RunExact(m, calls[..n]);
    NextInRange(m, calls, n);
    CallExact(RunFrom(m, calls[..n]), calls[n], FlowsOf(m, calls[..n]));
  }

  /** ... suspense is what was paid out by card minus what came in, and it mirrors the wallets
      exactly as long as no account was paid from itself. */
  lemma SuspenseMirror(m: Mem, calls: seq<Call>)
    requires Exact(m, NO_FLOWS) && WalletRun(calls) && AlwaysInRange(m, calls)
    ensures var m', f := RunFrom(m, calls), FlowsOf(m, calls);
            && Solvent(m'.balances)
            && m'.At(SUSPENSE) == f.cardOut - f.cardIn
            && Total(Wallets(m')) == f.self - m'.At(SUSPENSE)
            && (m'.At(SUSPENSE) == -Total(Wallets(m')) <==> !SelfPaid(m, calls))
  {
    RunExact(m, calls);
    ExactMirror(RunFrom(m, calls), FlowsOf(m, calls));
    MadeIff(m, calls);
  }

  /** A ledger with no money in it is such a start. */
  lemma EmptyIsExact(m: Mem)
    requires forall c :: c in m.balances ==> c == SUSPENSE && m.balances[c] == 0
    ensures Exact(m, NO_FLOWS)
  {
    if SUSPENSE in m.balances {
      TotalRemove(m.balances, SUSPENSE);
      assert m.balances - {SUSPENSE} == map[];
    } else {
      assert m.balances == map[];
    }
  }
}
