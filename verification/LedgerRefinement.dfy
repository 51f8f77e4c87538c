/** The in-memory ledger refines the entry log: running balances are the sums of the entries. */
module LedgerRefinement {
  import opened Int64
  import opened LedgerSpec
  import opened InMemoryLedgers
  import opened MoneySupply
  import opened MapSums

  /** Kinds for which kind + ":" + clientTxId names one row, outside the two card kinds, which
      live in a map of their own. */
  predicate Plain(kind: string) { ':' !in kind && kind != CARD_IN && kind != CARD_OUT }

  /** The calls on which the two ledgers agree. */
  predicate Admissible(r: Request) { r.Transfer? ==> r.from != r.to && Plain(r.kind) }

  ghost predicate SameKeys(m: Mem, t: Tables) {
    forall r: Request {:trigger m.Remembers(r)} | Admissible(r) :: m.Remembers(r) <==> r.PostingKey() in t.transactions
  }

  ghost predicate Refines(m: Mem, t: Tables) {
    m.balances == Sheet(t) && SameKeys(m, t)
  }

  /** Splitting at the first ':' recovers kind and id. */
  lemma KeyInjective(kind: string, id: string, kind': string, id': string)
    requires ':' !in kind && ':' !in kind'
    ensures kind + ":" + id == kind' + ":" + id' ==> kind == kind' && id == id'
  {
    var k, k' := kind + ":" + id, kind' + ":" + id';
    if k == k' {
      assert k[|kind|] == ':' && k'[|kind'|] == ':';
      assert forall i :: 0 <= i < |kind| ==> k[i] == kind[i];
      assert forall i :: 0 <= i < |kind'| ==> k'[i] == kind'[i];
      assert |kind| == |kind'|;
      assert kind == k[..|kind|] && kind' == k'[..|kind'|];
      assert id == k[|kind| + 1..] && id' == k'[|kind'| + 1..];
    }
  }

  /** Some ids make one key out of the two kinds. */
  ghost predicate Collide(kind: string, kind': string) {
    exists id: string, id': string :: kind + ":" + id == kind' + ":" + id'
  }

  /** Two different kinds can share a remembered result exactly when one of them, with its colon,
      begins the other. */
  lemma KeysCollideIff(kind: string, kind': string)
    requires kind != kind'
    ensures Collide(kind, kind') <==> kind + ":" <= kind' || kind' + ":" <= kind
  {
    if kind + ":" <= kind' { LongerKindCollides(kind, kind'); }
    if kind' + ":" <= kind {
      LongerKindCollides(kind', kind);
      var id, id' :| kind' + ":" + id == kind + ":" + id';
      assert kind + ":" + id' == kind' + ":" + id;
    }
    if id: string, id': string :| kind + ":" + id == kind' + ":" + id' {
      CollisionIsPrefix(kind, id, kind', id');
    }
  }

  lemma LongerKindCollides(kind: string, kind': string)
    requires kind + ":" <= kind'
    ensures Collide(kind, kind')
  {
    var id := kind'[|kind| + 1..] + ":";
    assert kind' == kind + ":" + kind'[|kind| + 1..];
    assert kind + ":" + id == kind' + ":" + "";
  }

  lemma CollisionIsPrefix(kind: string, id: string, kind': string, id': string)
    requires kind != kind' && kind + ":" + id == kind' + ":" + id'
    ensures kind + ":" <= kind' || kind' + ":" <= kind
  {
    var k := kind + ":" + id;
    assert k[..|kind| + 1] == kind + ":" && k[..|kind'| + 1] == kind' + ":";
    assert k[..|kind|] == kind && k[..|kind'|] == kind';
    if |kind| < |kind'| { assert k[..|kind| + 1] == kind'[..|kind| + 1]; }
    if |kind'| < |kind| { assert k[..|kind'| + 1] == kind[..|kind'| + 1]; }
  }

  lemma MemKeyAgrees(r: Request, s: Request)
    requires Admissible(r) && Admissible(s)
    ensures r.PostingKey() == s.PostingKey() <==> (r.Transfer? == s.Transfer? && MemKey(r) == MemKey(s))
  {
    KeyInjective(r.PostingKey().kind, r.PostingKey().clientTxId, s.PostingKey().kind, s.PostingKey().clientTxId);
  }

  /** Framing: an accepted call moves its two accounts by opposite amounts and no other, unless
      it is a self-transfer or wraps. */
  lemma StepMoves(m: Mem, r: Request)
    requires Step(m, r).1.Accepted? && SUSPENSE in m.balances
    requires NoWrap(m, r) && (r.Transfer? ==> r.from != r.to)
    ensures Step(m, r).0.balances == Moved(m.balances, r)
  {
  }

  /** A self-transfer credits after it read the old balance: money appears. It is the only
      accepted call on which the two ledgers part. */
  lemma SelfTransferMints(m: Mem, t: Tables, r: Request, id: Id)
    requires Refines(m, t) && Injective(t.accounts) && SUSPENSE in t.accounts
    requires Step(m, r).1.Accepted? && NoWrap(m, r) && Serve(t, r, id).1.Posted?
    ensures Step(m, r).0.balances == Sheet(Serve(t, r, id).0) <==> !(r.Transfer? && r.from == r.to)
    ensures r.Transfer? && r.from == r.to ==>
              Step(m, r).0.balances == m.balances[r.from := m.balances[r.from] + r.amount]
  {
    ServeMoves(t, r, id);
    if r.Transfer? && r.from == r.to {
      MovedToSelf(Sheet(t), r);
      assert Step(m, r).0.balances[r.from] != m.balances[r.from];
    } else {
      StepMoves(m, r);
    }
  }

  lemma SameVerdict(m: Mem, t: Tables, r: Request, id: Id)
    requires Refines(m, t) && SUSPENSE in t.accounts && Admissible(r)
    ensures Step(m, r).1.Accepted? <==> Serve(t, r, id).1.Posted?
    ensures Step(m, r).1.Accepted? || Step(m, r).0 == m
  {
    assert m.Remembers(r) <==> r.PostingKey() in t.transactions;
  }

  lemma StepKeys(m: Mem, t: Tables, r: Request, id: Id)
    requires Refines(m, t) && SUSPENSE in t.accounts && Admissible(r)
    requires Step(m, r).1.Accepted?
    ensures SameKeys(Step(m, r).0, Serve(t, r, id).0)
  {
    var m', t' := Step(m, r).0, Serve(t, r, id).0;
    SameVerdict(m, t, r, id);
    assert t'.transactions.Keys == t.transactions.Keys + {r.PostingKey()};
    forall s: Request | Admissible(s)
      ensures m'.Remembers(s) <==> s.PostingKey() in t'.transactions
    {
      MemKeyAgrees(r, s);
      assert m.Remembers(s) <==> s.PostingKey() in t.transactions;
      assert m'.Remembers(s) <==> m.Remembers(s) || (r.Transfer? == s.Transfer? && MemKey(r) == MemKey(s));
    }
  }

  /** One call, on related ledgers: the same verdict, related states, and the balances of a
      first-time success are those of the entries. */
  lemma StepRefines(m: Mem, t: Tables, r: Request, id: Id)
    requires Refines(m, t) && Injective(t.accounts) && SUSPENSE in t.accounts
    requires Admissible(r) && NoWrap(m, r)
    ensures Refines(Step(m, r).0, Serve(t, r, id).0)
    ensures Step(m, r).1.Accepted? <==> Serve(t, r, id).1 == Posted(id)
    ensures Step(m, r).1.Accepted? ==> ReceiptAgrees(Step(m, r).1.receipt, Sheet(Serve(t, r, id).0), r)
  {
    SameVerdict(m, t, r, id);
    if Step(m, r).1.Accepted? {
      ServeMoves(t, r, id);
      StepMoves(m, r);
      StepKeys(m, t, r, id);
    }
  }

  /** The receipt shows the balances after the posting. A card call on the suspense account
      itself is the exception: its receipt is taken before suspense is updated. */
  predicate ReceiptAgrees(receipt: Receipt, sheet: map<Code, int>, r: Request) {
    match receipt
    case TransactionResult(_, fromBalance, toBalance) =>
      && r.Transfer? && r.from in sheet && r.to in sheet
      && fromBalance == sheet[r.from] && toBalance == sheet[r.to]
    case FundingResult(_, walletBalance, status) =>
      && !r.Transfer? && r.wallet in sheet && status == r.RowStatus()
      && (walletBalance == sheet[r.wallet] <==> r.wallet != SUSPENSE)
  }

  // ---- Overflow ----

  /** As long as what is outstanding by card fits, no sum or difference wraps. */
  lemma OutstandingBoundsAll(m: Mem, t: Tables, r: Request)
    requires Refines(m, t) && Sound(t) && SUSPENSE in t.accounts && Admissible(r) && r.amount > 0
    requires -m.balances[SUSPENSE] + (if r.CardIn? then r.amount else 0) <= MAX
    ensures NoWrap(m, r)
  {
    var f := Flows(-m.balances[SUSPENSE], 0, 0);
    forall k | k in m.balances && k != SUSPENSE ensures m.balances[k] >= 0 {
      assert Sheet(t)[k] == Sum(t.entries, t.accounts[k]);
    }
    WalletsTotal(m);
    if Step(m, r).1.Accepted? {
      if r.Transfer? { TransferFits(m, r, f); } else { CardFits(m, r, f); }
    }
  }

  // ---- Runs ----

  /** An in-memory ledger whose suspense account has been ensured, as the funding service does. */
  const MEM0 := Provision(NEW, SUSPENSE)
  const LOG0 := Tables(map[SUSPENSE := 0], map[], [])

  function RunMem(calls: seq<Call>): Mem { RunFrom(MEM0, calls) }

  /** The same calls on the tables; the n-th call brings the UUID n. */
  function RunLog(calls: seq<Call>): Tables {
    if |calls| == 0 then LOG0
    else
      var t := RunLog(calls[..|calls| - 1]);
      match calls[|calls| - 1]
      case EnsureAccount(code) => Apply(t, Ensured(code, |calls|))
      case Post(r) => Serve(t, r, |calls|).0
  }

  /** The amount one call brings in, or takes out, by card. */
  function MintedBy(t: Tables, c: Call): int {
    if c.Post? && c.req.CardIn? && Serve(t, c.req, 0).1.Posted? then c.req.amount else 0
  }

  function PaidOutBy(t: Tables, c: Call): int {
    if c.Post? && c.req.CardOut? && Serve(t, c.req, 0).1.Posted? then c.req.amount else 0
  }

  /** The accepted CardIn amounts of a run, and its accepted CardOut amounts. */
  function Minted(calls: seq<Call>): int {
    if |calls| == 0 then 0
    else Minted(calls[..|calls| - 1]) + MintedBy(RunLog(calls[..|calls| - 1]), calls[|calls| - 1])
  }

  function PaidOut(calls: seq<Call>): int {
    if |calls| == 0 then 0
    else PaidOut(calls[..|calls| - 1]) + PaidOutBy(RunLog(calls[..|calls| - 1]), calls[|calls| - 1])
  }

  predicate AdmissibleRun(calls: seq<Call>) {
    forall c :: c in calls && c.Post? ==> Admissible(c.req)
  }

  ghost predicate OldIds(t: Tables, n: nat) {
    && (forall c :: c in t.accounts ==> t.accounts[c] < n)
    && (forall k :: k in t.transactions ==> t.transactions[k].id < n)
  }

  lemma CallSound(t: Tables, c: Call, n: nat)
    requires Sound(t) && OldIds(t, n)
    ensures var t' := if c.Post? then Serve(t, c.req, n).0 else Apply(t, Ensured(c.code, n));
            Sound(t') && OldIds(t', n + 1)
  {
    match c
    case Post(r) =>
      PostIds(t, r, n);
      if Serve(t, r, n).1.Posted? { ServeKeepsSound(t, r, n); }
    case EnsureAccount(code) =>
      if code !in t.accounts { EnsureKeepsSound(t, code, n); }
  }

  lemma PostIds(t: Tables, r: Request, n: nat)
    requires OldIds(t, n)
    ensures OldIds(Serve(t, r, n).0, n + 1) && FreshRow(t, n)
  {
  }

  lemma PostSuspense(t: Tables, r: Request, n: nat)
    requires Sound(t) && SUSPENSE in t.accounts && Serve(t, r, n).1.Posted?
    ensures var sheet, sheet' := Sheet(t), Sheet(Serve(t, r, n).0);
            var change := if r.CardOut? then r.amount else if r.CardIn? then -r.amount else 0;
            && SUSPENSE in sheet'
            && sheet'[SUSPENSE] >= sheet[SUSPENSE] + change
            && (WalletsOnly(Post(r)) ==> sheet'[SUSPENSE] == sheet[SUSPENSE] + change)
  {
    ServeMoves(t, r, n);
    SuspenseNeverPays(t, r, n);
    assert SUSPENSE in Sheet(t);
  }

  lemma LogSuspense(t: Tables, c: Call, n: nat)
    requires Sound(t) && OldIds(t, n) && SUSPENSE in t.accounts
    ensures var t' := if c.Post? then Serve(t, c.req, n).0 else Apply(t, Ensured(c.code, n));
            var change := PaidOutBy(t, c) - MintedBy(t, c);
            && SUSPENSE in t'.accounts
            && Sheet(t')[SUSPENSE] >= Sheet(t)[SUSPENSE] + change
            && (WalletsOnly(c) ==> Sheet(t')[SUSPENSE] == Sheet(t)[SUSPENSE] + change)
  {
    match c
    case Post(r) =>
      if Serve(t, r, n).1.Posted? { PostSuspense(t, r, n); }
    case EnsureAccount(code) =>
  }

  /** Over every run the log stays sound, and what is outstanding by card is at most what came
      in minus what was paid out; exactly that, when suspense is left to the card postings. */
  lemma {:induction false} LogSound(calls: seq<Call>)
    ensures Sound(RunLog(calls)) && OldIds(RunLog(calls), |calls| + 1)
    ensures SUSPENSE in RunLog(calls).accounts
    ensures -Sheet(RunLog(calls))[SUSPENSE] <= Minted(calls) - PaidOut(calls)
    ensures WalletRun(calls) ==> Sheet(RunLog(calls))[SUSPENSE] == PaidOut(calls) - Minted(calls)
  {
    if |calls| == 0 {
      assert Sheet(LOG0) == map[][SUSPENSE := 0];
      TotalUpdate(map[], SUSPENSE, 0);
    } else {
      var before, c := calls[..|calls| - 1], calls[|calls| - 1];
      LogSound(before);
      CallSound(RunLog(before), c, |calls|);
      LogSuspense(RunLog(before), c, |calls|);
      assert c in calls;
    }
  }

  /** Suspense identity: accepted CardOut minus accepted CardIn, minus the sum of all wallets,
      never positive; so a transfer or a withdrawal from suspense is refused. */
  lemma SuspenseIdentity(calls: seq<Call>, r: Request)
    requires WalletRun(calls)
    ensures var sheet := Sheet(RunLog(calls));
            && SUSPENSE in sheet && sheet[SUSPENSE] == PaidOut(calls) - Minted(calls)
            && sheet[SUSPENSE] == -Total(sheet - {SUSPENSE})
            && sheet[SUSPENSE] <= 0
    ensures r.ChecksFunds() && r.First() == SUSPENSE ==> !Serve(RunLog(calls), r, |calls|).1.Posted?
  {
    LogSound(calls);
    SuspenseNeverPays(RunLog(calls), r, |calls|);
  }

  lemma {:induction false} MintedGrows(calls: seq<Call>, n: nat)
    requires n <= |calls|
    ensures 0 <= Minted(calls[..n]) <= Minted(calls)
    ensures 0 <= PaidOut(calls[..n])
  {
    if n < |calls| {
      MintedGrows(calls[..|calls| - 1], n);
      assert calls[..|calls| - 1][..n] == calls[..n];
    } else {
      assert calls[..n] == calls;
      if n > 0 { MintedGrows(calls[..n - 1], n - 1); assert calls[..n - 1][..n - 1] == calls[..n - 1]; }
    }
  }

  /** Refinement over every run: if the accepted CardIn amounts total at most 2^63 - 1, the
      64-bit ledger has exactly the balances of the log. */
  lemma {:induction false} RunRefines(calls: seq<Call>)
    requires AdmissibleRun(calls) && Minted(calls) <= MAX
    ensures Refines(RunMem(calls), RunLog(calls))
  {
    if |calls| == 0 {
      assert Sheet(LOG0) == map[SUSPENSE := 0];
    } else {
      var before, c := calls[..|calls| - 1], calls[|calls| - 1];
      assert c in calls;
      MintedGrows(calls, |calls| - 1);
      RunRefines(before);
      LogSound(before);
      CallRefines(calls);
    }
  }

  /** The last call of a run: it does not wrap, both ledgers give it the same verdict, and a
      first-time success returns the same balances. */
  lemma CallRefines(calls: seq<Call>)
    requires |calls| > 0 && Minted(calls) <= MAX
    requires var c := calls[|calls| - 1]; c.Post? ==> Admissible(c.req)
    requires Refines(RunMem(calls[..|calls| - 1]), RunLog(calls[..|calls| - 1]))
    ensures Refines(RunMem(calls), RunLog(calls))
    ensures calls[|calls| - 1].Post? ==>
              SameReply(RunMem(calls[..|calls| - 1]), RunLog(calls[..|calls| - 1]), calls[|calls| - 1].req, |calls|)
  {
    var m, t := RunMem(calls[..|calls| - 1]), RunLog(calls[..|calls| - 1]);
    BeforeCall(calls);
    match calls[|calls| - 1]
    case Post(r) => PostRefines(m, t, r, |calls|, Minted(calls[..|calls| - 1]));
    case EnsureAccount(code) => ProvisionRefines(m, t, code, |calls|);
  }

  lemma BeforeCall(calls: seq<Call>)
    requires |calls| > 0
    ensures var t := RunLog(calls[..|calls| - 1]);
            && Sound(t) && OldIds(t, |calls|) && SUSPENSE in t.accounts
            && -Sheet(t)[SUSPENSE] <= Minted(calls[..|calls| - 1])
            && 0 <= Minted(calls[..|calls| - 1]) <= Minted(calls)
  {
    var before := calls[..|calls| - 1];
    LogSound(before);
    MintedGrows(calls, |before|);
    MintedGrows(before, |before|);
    assert before[..|before|] == before;
  }

  lemma ProvisionRefines(m: Mem, t: Tables, code: Code, id: Id)
    requires Refines(m, t) && Sound(t) && OldIds(t, id)
    ensures Refines(Provision(m, code), Apply(t, Ensured(code, id)))
  {
    if code !in t.accounts {
      EnsureSheet(t, code, id);
      forall r: Request | Admissible(r)
        ensures Provision(m, code).Remembers(r) <==> r.PostingKey() in t.transactions
      {
        assert m.Remembers(r) <==> r.PostingKey() in t.transactions;
      }
    }
  }

  ghost predicate SameReply(m: Mem, t: Tables, r: Request, id: Id) {
    && NoWrap(m, r)
    && (Step(m, r).1.Accepted? <==> Serve(t, r, id).1 == Posted(id))
    && (Step(m, r).1.Accepted? ==> ReceiptAgrees(Step(m, r).1.receipt, Sheet(Serve(t, r, id).0), r))
    && (!Step(m, r).1.Accepted? ==> Step(m, r).0 == m && Serve(t, r, id).0 == t)
  }

  lemma PostRefines(m: Mem, t: Tables, r: Request, id: Id, outstanding: int)
    requires Refines(m, t) && Sound(t) && SUSPENSE in t.accounts && Admissible(r)
    requires -Sheet(t)[SUSPENSE] <= outstanding
    requires 0 <= outstanding + MintedBy(t, Post(r)) <= MAX && outstanding <= MAX
    ensures Refines(Step(m, r).0, Serve(t, r, id).0)
    ensures SameReply(m, t, r, id)
  {
    SameVerdict(m, t, r, id);
    if Step(m, r).1.Accepted? { OutstandingBoundsAll(m, t, r); }
    StepRefines(m, t, r, id);
  }

  lemma PrefixAdmissible(calls: seq<Call>, n: nat)
    requires AdmissibleRun(calls) && n <= |calls|
    ensures AdmissibleRun(calls[..n]) && Minted(calls[..n]) <= Minted(calls)
  {
    MintedGrows(calls, n);
  }

  /** Every call of every such run: the two ledgers answer alike and nothing wraps. */
  lemma RunsAgree(calls: seq<Call>, n: nat)
    requires AdmissibleRun(calls) && Minted(calls) <= MAX && n < |calls| && calls[n].Post?
    ensures SameReply(RunMem(calls[..n]), RunLog(calls[..n]), calls[n].req, n + 1)
  {
    PrefixAdmissible(calls, n);
    PrefixAdmissible(calls, n + 1);
    assert calls[..n + 1][..n] == calls[..n];
    assert calls[n] in calls;
    RunRefines(calls[..n]);
    CallRefines(calls[..n + 1]);
  }

  // ---- Replay ----

  lemma StepKeepsRemembered(m: Mem, c: Call, r: Request)
    requires m.Remembers(r)
    ensures MemCall(m, c).Remembers(r) && MemCall(m, c).Remembered(r) == m.Remembered(r)
  {
  }

  lemma {:induction false} ReceiptKept(m: Mem, calls: seq<Call>, i: nat, n: nat)
    requires i < n <= |calls| && calls[i].Post?
    requires Step(RunFrom(m, calls[..i]), calls[i].req).1.Accepted?
    ensures var m' := RunFrom(m, calls[..n]);
            && m'.Remembers(calls[i].req)
            && m'.Remembered(calls[i].req) == Step(RunFrom(m, calls[..i]), calls[i].req).1.receipt
  {
    assert calls[..n][..n - 1] == calls[..n - 1];
    if i < n - 1 {
      ReceiptKept(m, calls, i, n - 1);
      StepKeepsRemembered(RunFrom(m, calls[..n - 1]), calls[n - 1], calls[i].req);
    }
  }

  /** Replay stability over every run, admissible or not, wrapping or not: a later call with
      the same key gets the first receipt and changes nothing. */
  lemma ReplayReturnsFirst(m: Mem, calls: seq<Call>, i: nat, j: nat)
    requires i < j < |calls| && calls[i].Post? && calls[j].Post?
    requires Step(RunFrom(m, calls[..i]), calls[i].req).1.Accepted?
    requires calls[i].req.Transfer? == calls[j].req.Transfer? && MemKey(calls[i].req) == MemKey(calls[j].req)
    ensures var m' := RunFrom(m, calls[..j]);
            Step(m', calls[j].req) ==
              (m', if calls[j].req.amount <= 0 then Refused
                  else DuplicateOf(Step(RunFrom(m, calls[..i]), calls[i].req).1.receipt))
  {
    ReceiptKept(m, calls, i, j);
  }
}
