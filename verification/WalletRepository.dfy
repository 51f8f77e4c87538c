/** The in-memory wallet store: wallets by id, and the latest wallet of each owner. */
module WalletRepositories {
  import opened Options

  datatype Wallet = Wallet(id: string, ownerId: string, accountCode: string, currency: string, status: string)

  datatype Repo = Repo(storage: map<string, Wallet>, byOwner: map<string, string>)

  const NEW_REPO := Repo(map[], map[])

  /** Create: refused when the id is taken; an empty owner is not indexed. */
  function Insert(repo: Repo, w: Wallet): Repo {
    if w.id in repo.storage then repo
    else Repo(repo.storage[w.id := w],
              if w.ownerId != "" then repo.byOwner[w.ownerId := w.id] else repo.byOwner)
  }

  /** All wallets handed to Create, in order. */
  function InsertAll(history: seq<Wallet>): Repo {
    if |history| == 0 then NEW_REPO
    else Insert(InsertAll(history[..|history| - 1]), history[|history| - 1])
  }

  /** Searching the history from its end: the wallet of this owner whose id was new when it was
      created. */
  function LatestOf(history: seq<Wallet>, owner: string): Option<Wallet> {
    if |history| == 0 || owner == "" then None
    else
      var before, w := history[..|history| - 1], history[|history| - 1];
      if w.ownerId == owner && FirstWith(before, w.id).None? then Some(w)
      else LatestOf(before, owner)
  }

  /** The first wallet that was created with this id. */
  function FirstWith(history: seq<Wallet>, id: string): Option<Wallet> {
    if |history| == 0 then None
    else if history[0].id == id then Some(history[0])
    else FirstWith(history[1..], id)
  }

  lemma {:induction false} FirstWithAppend(history: seq<Wallet>, w: Wallet, id: string)
    ensures FirstWith(history + [w], id) ==
              if FirstWith(history, id).Some? then FirstWith(history, id)
              else if w.id == id then Some(w) else None
  {
    if |history| == 0 {
      assert history + [w] == [w];
    } else {
      assert (history + [w])[1..] == history[1..] + [w];
      FirstWithAppend(history[1..], w, id);
    }
  }

  /** What the two maps answer. */
  function Lookup(repo: Repo, id: string): Option<Wallet> {
    if id in repo.storage then Some(repo.storage[id]) else None
  }

  function LookupOwner(repo: Repo, owner: string): Option<Wallet> {
    if owner in repo.byOwner then Lookup(repo, repo.byOwner[owner]) else None
  }

  /** The maps agree with the history: Get is the first wallet created with the id, the owner
      index is the latest wallet of the owner, and its second lookup never misses. */
  lemma {:induction false} RepoAnswersHistory(history: seq<Wallet>, key: string)
    ensures var repo := InsertAll(history);
            && Lookup(repo, key) == FirstWith(history, key)
            && LookupOwner(repo, key) == LatestOf(history, key)
            && (key in repo.byOwner ==> LookupOwner(repo, key).Some?)
  {
    if |history| > 0 {
      var before, w := history[..|history| - 1], history[|history| - 1];
      assert history == before + [w];
      RepoAnswersHistory(before, key);
      RepoAnswersHistory(before, w.id);
      FirstWithAppend(before, w, key);
      if key in InsertAll(before).byOwner { RepoAnswersHistory(before, InsertAll(before).byOwner[key]); }
    } else {
      assert history == [];
    }
  }

  class WalletRepository {
    var storage: map<string, Wallet>
    var byOwner: map<string, string>
    ghost var history: seq<Wallet>

    function State(): Repo
      reads this
    {
      Repo(storage, byOwner)
    }

    ghost predicate Valid()
      reads this
    {
      State() == InsertAll(history)
    }

    constructor ()
      ensures Valid() && history == [] && State() == NEW_REPO
    {
      storage, byOwner, history := map[], map[], [];
    }

    method Create(wallet: Wallet) returns (ok: bool)
      requires Valid()
      modifies this
      ensures Valid() && history == old(history) + [wallet]
      ensures ok <==> FirstWith(old(history), wallet.id).None?
      ensures State() == Insert(old(State()), wallet)
    {
      RepoAnswersHistory(history, wallet.id);
      assert (history + [wallet])[..|history|] == history;
      history := history + [wallet];
      if wallet.id in storage { return false; }
      storage := storage[wallet.id := wallet];
      if wallet.ownerId != "" {
        byOwner := byOwner[wallet.ownerId := wallet.id];
      }
      return true;
    }

    method Get(id: string) returns (wallet: Option<Wallet>)
      requires Valid()
      ensures wallet == FirstWith(history, id)
      ensures wallet == Lookup(State(), id)
    {
      RepoAnswersHistory(history, id);
      wallet := if id in storage then Some(storage[id]) else None;
    }

    method FindByOwner(ownerId: string) returns (wallet: Option<Wallet>)
      requires Valid()
      ensures wallet == LatestOf(history, ownerId)
    {
      RepoAnswersHistory(history, ownerId);
      if ownerId !in byOwner { return None; }
      var id := byOwner[ownerId];
      if id !in storage { return None; }
      return Some(storage[id]);
    }
  }
}
