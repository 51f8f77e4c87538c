/** The three services as objects that share one ledger and one wallet store. */
module ServiceObjects {
  import opened Options
  import opened Int64
  import opened LedgerSpec
  import opened InMemoryLedgers
  import opened Services
  import W = WalletRepositories

  datatype Message = Message(destination: string, amount: int64, fromWallet: string)

  /** A notifier remembers what it was asked to send. */
  class Notifier {
    var sent: seq<Message>

    constructor ()
      ensures sent == []
    {
      sent := [];
    }

    method Send(m: Message)
      modifies this
      ensures sent == old(sent) + [m]
    {
      sent := sent + [m];
    }
  }

  class WalletService {
    const repo: W.WalletRepository
    const ledger: InMemoryLedger

    constructor (repo: W.WalletRepository, ledger: InMemoryLedger)
      ensures this.repo == repo && this.ledger == ledger
    {
      this.repo, this.ledger := repo, ledger;
    }

    function State(): System
      reads repo, ledger
    {
      System(ledger.State(), repo.State())
    }

    method Create(uuid: string, ownerId: string, currency: string, parses: bool) returns (result: Result)
      requires repo.Valid()
      modifies repo, ledger
      ensures repo.Valid()
      ensures (State(), result) == Perform(old(State()), CreateWallet(uuid, ownerId, currency, parses))
    {
      var accountCode := "wallet:" + uuid;
      if !parses { return Rejected; }
      ledger.EnsureAccount(accountCode);
      var money := currency;
      if money == "" { money := "XAF"; }
      var wallet := W.Wallet(uuid, ownerId, accountCode, money, "active");
      W.RepoAnswersHistory(repo.history, uuid);
      var ok := repo.Create(wallet);
      return if ok then Created(wallet) else Rejected;
    }

    method Get(id: string) returns (wallet: Option<W.Wallet>)
      requires repo.Valid()
      ensures wallet == W.Lookup(State().repo, id)
    {
      wallet := repo.Get(id);
    }

    /** In a coherent state the balance of a stored wallet is always found. */
    method Balance(id: string) returns (ok: bool, amount: int64)
      requires repo.Valid()
      ensures Coherent(State()) ==> (ok <==> id in repo.storage)
      ensures Coherent(State()) && ok ==> amount == State().mem.balances[AccountCode(id)]
    {
      var wallet := repo.Get(id);
      if wallet.None? { return false, 0; }
      ok, amount := ledger.Balance(wallet.value.accountCode);
    }
  }

  class PaymentService {
    const ledger: InMemoryLedger
    const wallets: WalletService
    const notifier: Notifier?

    constructor (ledger: InMemoryLedger, wallets: WalletService, notifier: Notifier?)
      requires wallets.ledger == ledger
      ensures this.ledger == ledger && this.wallets == wallets && this.notifier == notifier
    {
      this.ledger, this.wallets, this.notifier := ledger, wallets, notifier;
    }

    /** The receiver is told about every posted payment, and about nothing else. */
    method Transfer(from: string, to: string, amount: int64, clientTxId: string, generated: string, requestor: string)
      returns (result: Result)
      requires wallets.repo.Valid() && wallets.ledger == ledger
      modifies ledger, notifier
      ensures wallets.repo.Valid()
      ensures (wallets.State(), result)
           == Perform(old(wallets.State()), Pay(from, to, amount, clientTxId, generated, requestor))
      ensures notifier != null && result.Ledger? && result.reply.Accepted? ==>
                && to in wallets.repo.storage
                && notifier.sent == old(notifier.sent) + [Message(wallets.repo.storage[to].ownerId, amount, from)]
      ensures notifier != null && !(result.Ledger? && result.reply.Accepted?) ==> notifier.sent == old(notifier.sent)
    {
      if amount <= 0 { return Rejected; }
      var id := clientTxId;
      if id == "" { id := generated; }

      var fromWallet := wallets.Get(from);
      if fromWallet.None? { return UnknownWallet; }
      if requestor != "" && fromWallet.value.ownerId != requestor { return NotOwner; }
      var toWallet := wallets.Get(to);
      if toWallet.None? { return UnknownWallet; }

      var reply := ledger.Transfer(fromWallet.value.accountCode, toWallet.value.accountCode, "p2p", id, amount);
      if !reply.Accepted? { return Ledger(reply); }
      if notifier != null {
        notifier.Send(Message(toWallet.value.ownerId, amount, from));
      }
      return Ledger(reply);
    }
  }

  /** strings.ReplaceAll(card, " ", ""). */
  method DropSpaces(card: string) returns (digits: string)
    ensures digits == WithoutSpaces(card)
  {
    digits := [];
    for i := 0 to |card|
      invariant digits + WithoutSpaces(card[i..]) == WithoutSpaces(card)
    {
      assert card[i..][1..] == card[i + 1..];
      if card[i] != ' ' { digits := digits + [card[i]]; }
    }
  }

  method AllDigits(s: string) returns (ok: bool)
    ensures ok <==> forall c :: c in s ==> '0' <= c <= '9'
  {
    for i := 0 to |s|
      invariant forall j :: 0 <= j < i ==> '0' <= s[j] <= '9'
    {
      if s[i] < '0' || s[i] > '9' {
        assert s[i] in s;
        return false;
      }
    }
    return true;
  }

  /** validateCardNumber: spaces go, and every remaining character is looked at. */
  method ValidateCardNumber(card: string) returns (ok: bool)
    ensures ok == ValidCard(card) && (ok <==> GoodCard(card))
  {
    ValidCardMeans(card);
    var digits := DropSpaces(card);
    if |digits| < 12 || |digits| > 19 { return false; }
    ok := AllDigits(digits);
  }

  class FundingService {
    const ledger: InMemoryLedger
    const wallets: WalletService

    /** The suspense account exists from here on. */
    constructor (ledger: InMemoryLedger, wallets: WalletService)
      requires wallets.ledger == ledger
      modifies ledger
      ensures this.ledger == ledger && this.wallets == wallets
      ensures ledger.State() == Provision(old(ledger.State()), SUSPENSE)
    {
      this.ledger, this.wallets := ledger, wallets;
      new;
      ledger.EnsureAccount(SUSPENSE);
    }

    method CardIn(walletId: string, amount: int64, clientTxId: string, generated: string, card: string, authorised: bool)
      returns (result: Result)
      requires wallets.repo.Valid() && wallets.ledger == ledger
      modifies ledger
      ensures (wallets.State(), result)
           == Perform(old(wallets.State()), TopUp(walletId, amount, clientTxId, generated, card, authorised))
    {
      var valid := ValidateCardNumber(card);
      if !valid || amount <= 0 { return Rejected; }
      var id := clientTxId;
      if id == "" { id := generated; }
      var w := wallets.Get(walletId);
      if w.None? { return UnknownWallet; }
      if !authorised { return Declined; }
      var reply := ledger.CardIn(w.value.accountCode, id, amount);
      return Ledger(reply);
    }

    method CardOut(walletId: string, amount: int64, clientTxId: string, generated: string, card: string, authorised: bool)
      returns (result: Result)
      requires wallets.repo.Valid() && wallets.ledger == ledger
      modifies ledger
      ensures (wallets.State(), result)
           == Perform(old(wallets.State()), Withdraw(walletId, amount, clientTxId, generated, card, authorised))
    {
      var valid := ValidateCardNumber(card);
      if !valid || amount <= 0 { return Rejected; }
      var id := clientTxId;
      if id == "" { id := generated; }
      var w := wallets.Get(walletId);
      if w.None? { return UnknownWallet; }
      if !authorised { return Declined; }
      var reply := ledger.CardOut(w.value.accountCode, id, amount);
      return Ledger(reply);
    }
  }
}
