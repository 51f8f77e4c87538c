/** Which client ids can succeed twice, and what other endpoints do under the same Idempotency-Key:
    runs of the whole system, from an empty one. */
module Repeats {
  import opened Options
  import opened ExactlyOnce
  import L = LedgerSpec
  import P = PostgresMachine
  import Lin = Linearizability
  import D = Deadlock
  import C = CardProgress
  import I = Idempotency

  // ---- One request, from its arrival to its response ----

  lemma RunMore(env: Env, schedule: seq<Action>, a: Action)
    ensures Run(env, schedule + [a]) == Exec(env, Run(env, schedule), a)
  {
    assert (schedule + [a])[..|schedule|] == schedule;
  }

  lemma PostIsUnsafe()
    ensures !I.Safe("POST")
  {
    assert I.ToUpper("POST")[0] == 'P';
  }

  /** A request that misses has reached its handler. */
  ghost predicate Reached(ttl: nat, w: I.World, w': I.World, r: nat, key: string) {
    w' == w.(reqs := w.reqs[r := I.Req(I.PREFIX + key, I.Running)],
             cache := w.cache[I.PREFIX + key := I.Slot(I.MARKER, w.now + ttl)])
  }

  lemma MissReaches(codec: I.Codec, ttl: nat, w: I.World, r: nat, key: string)
    requires r !in w.reqs && key != "" && !I.Live(w, I.PREFIX + key)
    ensures var w1 := I.Exec(codec, ttl, w, I.Arrive(r, "POST", key));
            var w2 := I.Exec(codec, ttl, w1, I.Get(r, true));
            Reached(ttl, w, I.Exec(codec, ttl, w2, I.SetNX(r, I.Works)), r, key)
  {
    PostIsUnsafe();
    var k := I.PREFIX + key;
    assert w.reqs[r := I.Req(k, I.Arrived)][r := I.Req(k, I.Missed)][r := I.Req(k, I.Running)]
        == w.reqs[r := I.Req(k, I.Running)];
  }

  function Arrival(schedule: seq<Action>, r: nat, key: string): seq<Action> {
    schedule + [Web(I.Arrive(r, "POST", key))] + [Web(I.Get(r, true))] + [Web(I.SetNX(r, I.Works))]
  }

  lemma Arrives(env: Env, schedule: seq<Action>, r: nat, key: string)
    requires var w := Run(env, schedule).web; r !in w.reqs && key != "" && !I.Live(w, I.PREFIX + key)
    ensures var s, s' := Run(env, schedule), Run(env, Arrival(schedule, r, key));
            s' == s.(web := s'.web) && Reached(env.ttl, s.web, s'.web, r, key)
  {
    RunMore(env, schedule, Web(I.Arrive(r, "POST", key)));
    RunMore(env, schedule + [Web(I.Arrive(r, "POST", key))], Web(I.Get(r, true)));
    RunMore(env, schedule + [Web(I.Arrive(r, "POST", key))] + [Web(I.Get(r, true))], Web(I.SetNX(r, I.Works)));
    MissReaches(env.codec, env.ttl, Run(env, schedule).web, r, key);
  }

  function Sqls(stmts: seq<P.Action>): seq<Action> { seq(|stmts|, i requires 0 <= i < |stmts| => Sql(stmts[i])) }

  lemma SqlsLast(schedule: seq<Action>, stmts: seq<P.Action>)
    requires |stmts| > 0
    ensures var n := |stmts| - 1;
            schedule + Sqls(stmts) == schedule + Sqls(stmts[..n]) + [Sql(stmts[n])] && stmts[..n] + [stmts[n]] == stmts
  {
  }

  lemma {:induction false} SqlRun(env: Env, schedule: seq<Action>, stmts: seq<P.Action>)
    ensures var s := Run(env, schedule); Run(env, schedule + Sqls(stmts)) == s.(sql := s.sql + stmts)
  {
    if |stmts| == 0 {
      assert schedule + Sqls(stmts) == schedule;
    } else {
      var n := |stmts| - 1;
      SqlsLast(schedule, stmts);
      SqlRun(env, schedule, stmts[..n]);
      RunMore(env, schedule + Sqls(stmts[..n]), Sql(stmts[n]));
    }
  }

  ghost predicate AnsweredWith(ttl: nat, w: I.World, w': I.World, r: nat, key: string, response: I.Response) {
    w' == w.(reqs := w.reqs[r := I.Req(I.PREFIX + key, I.Storing(response))],
             cache := w.cache[I.PREFIX + key := I.Slot(I.MARKER, w.now + ttl)],
             returned := w.returned[r := I.Returned(response, None)])
  }

  /** What a request that was answered by the handler of a posting has changed in the web, */
  ghost predicate Replies(env: Env, s: System, s': System, r: nat, key: string, a: Attempt, response: I.Response) {
    s'.attempts == s.attempts[r := a] && AnsweredWith(env.ttl, s.web, s'.web, r, key, response)
  }

  /** ... and in the database. */
  ghost predicate Answers(env: Env, s: System, s': System, r: nat, key: string, a: Attempt, response: I.Response) {
    Replies(env, s, s', r, key, a, response) && C.RanAlone(Db(s), Db(s'), a.tx, a.call)
  }

  /** The response is what the handler of the call answers when it runs now. */
  ghost predicate Fits(env: Env, s: System, a: Attempt, response: I.Response) {
    var answer := AnswerOf(a.call, P.Answered(L.Serve(Db(s).tables, a.call, a.tx).1));
    answer.Some? && Says(env, response, answer.value)
  }

  ghost predicate Ready(env: Env, s: System, r: nat, key: string, a: Attempt, response: I.Response) {
    && C.Quiet(Db(s)) && r !in s.web.reqs && r !in s.attempts && key != "" && !I.Live(s.web, I.PREFIX + key)
    && !a.call.Transfer? && a.call.amount > 0 && a.tx !in Db(s).ended && Fits(env, s, a, response)
  }

  /** A card request that runs alone is answered and has run its call. */
  lemma CardRequest(env: Env, schedule: seq<Action>, r: nat, key: string, a: Attempt, response: I.Response)
    returns (more: seq<Action>)
    requires Lawful(env) && Ready(env, Run(env, schedule), r, key, a, response)
    ensures Answers(env, Run(env, schedule), Run(env, more), r, key, a, response)
  {
    var s := Run(env, schedule);
    Arrives(env, schedule, r, key);
    var s1 := Run(env, Arrival(schedule, r, key));
    var begun := Starts(env, Arrival(schedule, r, key), r, a);
    var stmts := C.ServedAlone(Db(s), a.tx, a.call);
    SqlRun(env, begun, stmts);
    var ran := begun + Sqls(stmts);
    P.RunConcat(P.INIT, Run(env, begun).sql, stmts);
    RunMore(env, ran, EndHandler(r, response));
    more := ran + [EndHandler(r, response)];
    RanBacked(env, Db(s), Db(Run(env, ran)), a, response);
    Ends(env, s, s1.web, Run(env, ran), Db(Run(env, ran)), r, key, a, response);
  }

  lemma Starts(env: Env, schedule: seq<Action>, r: nat, a: Attempt) returns (more: seq<Action>)
    requires Lawful(env)
    requires var s := Run(env, schedule);
             && r in s.web.reqs && s.web.reqs[r].phase.Running? && r !in s.attempts
             && Db(s).active == map[] && a.tx !in Db(s).ended
    ensures var s, s' := Run(env, schedule), Run(env, more);
            && s' == s.(sql := s.sql + [P.Begin(a.tx, a.call)], attempts := s.attempts[r := a])
            && Db(s') == P.Exec(Db(s), P.Begin(a.tx, a.call))
  {
    var s := Run(env, schedule);
    RunKeepsInv(env, schedule);
    assert forall q :: q in s.attempts ==> Opened(Db(s), s.attempts[q]);
    more := schedule + [StartHandler(r, a.call, a.tx)];
    RunMore(env, schedule, StartHandler(r, a.call, a.tx));
    RunOneMore(s.sql, P.Begin(a.tx, a.call));
  }

  /** What the answer of the handler makes of the cache and the requests. */
  lemma HandlerReturns(codec: I.Codec, ttl: nat, w: I.World, w1: I.World, r: nat, key: string, response: I.Response)
    requires Reached(ttl, w, w1, r, key)
    ensures AnsweredWith(ttl, w, I.Exec(codec, ttl, w1, I.HandlerSucceeds(r, response)), r, key, response)
  {
    var k := I.PREFIX + key;
    assert w.reqs[r := I.Req(k, I.Running)][r := I.Req(k, I.Storing(response))] == w.reqs[r := I.Req(k, I.Storing(response))];
  }

  lemma EndAnswers(env: Env, s: System, db: P.Db, r: nat, a: Attempt, response: I.Response)
    requires r in s.web.reqs && s.web.reqs[r].phase.Running? && r in s.attempts && s.attempts[r] == a
    requires db == Db(s) && a.tx in db.ended && Backed(env, db, a, response)
    ensures var s' := Exec(env, s, EndHandler(r, response));
            && s'.web == I.Exec(env.codec, env.ttl, s.web, I.HandlerSucceeds(r, response))
            && s'.attempts == s.attempts && Db(s') == db
  {
  }

  lemma RanBacked(env: Env, db: P.Db, db': P.Db, a: Attempt, response: I.Response)
    requires C.RanAlone(db, db', a.tx, a.call)
    requires var answer := AnswerOf(a.call, P.Answered(L.Serve(db.tables, a.call, a.tx).1));
             answer.Some? && Says(env, response, answer.value)
    ensures a.tx in db'.ended && Backed(env, db', a, response)
  {
  }

  lemma Ends(env: Env, s: System, w1: I.World, s2: System, db2: P.Db, r: nat, key: string, a: Attempt, response: I.Response)
    requires db2 == Db(s2) && Backed(env, db2, a, response) && a.tx in db2.ended
    requires s2.web == w1 && s2.attempts == s.attempts[r := a] && Reached(env.ttl, s.web, w1, r, key)
    ensures var s3 := Exec(env, s2, EndHandler(r, response));
            && s3.attempts == s.attempts[r := a] && AnsweredWith(env.ttl, s.web, s3.web, r, key, response)
            && Db(s3) == db2
  {
    EndAnswers(env, s2, db2, r, a, response);
    HandlerReturns(env.codec, env.ttl, s.web, w1, r, key, response);
  }

  // ---- A card call that succeeds twice ----

  /** For every status and transaction there is a response that says so. */
  ghost predicate Expressive(env: Env) {
    forall status: int, tx: L.Id :: exists response :: Says(env, response, (status, tx))
  }

  /** What a first request meets: nothing is open, and these names are new. */
  ghost predicate Blank(s: System, r: nat, key: string, tx: L.Id) {
    && C.Quiet(Db(s)) && r !in s.web.reqs && r !in s.attempts && key != "" && !I.Live(s.web, I.PREFIX + key)
    && tx !in Db(s).ended
  }

  lemma Answerable(env: Env, s: System, r: nat, key: string, a: Attempt) returns (response: I.Response)
    requires Expressive(env) && Blank(s, r, key, a.tx) && !a.call.Transfer? && a.call.amount > 0
    requires AnswerOf(a.call, P.Answered(L.Serve(Db(s).tables, a.call, a.tx).1)).Some?
    ensures Ready(env, s, r, key, a, response)
  {
    var answer := AnswerOf(a.call, P.Answered(L.Serve(Db(s).tables, a.call, a.tx).1)).value;
    response :| Says(env, response, (answer.0, answer.1));
  }

  /** What was served once is a duplicate the next time. */
  lemma ServedIsDuplicate(t: L.Tables, call: L.Request, tx: L.Id, later: L.Id)
    requires L.Serve(t, call, tx).1 == L.Posted(tx)
    ensures var again := L.Serve(L.Serve(t, call, tx).0, call, later).1; again.Duplicate? && again.row.id == tx
  {
  }

  lemma KeysApart(key: string, other: string)
    requires key != other
    ensures I.PREFIX + key != I.PREFIX + other
  {
    assert (I.PREFIX + key)[|I.PREFIX|..] == key && (I.PREFIX + other)[|I.PREFIX|..] == other;
  }

  /** One request leaves the names of the next as new as they were. */
  lemma StillBlank(env: Env, s: System, s': System, r: nat, key: string, a: Attempt, response: I.Response,
                   q: nat, other: string, tx: L.Id)
    requires Answers(env, s, s', r, key, a, response) && Blank(s, q, other, tx)
    requires q != r && other != key && tx != a.tx
    ensures Blank(s', q, other, tx)
  {
    KeysApart(key, other);
  }

  /** A card call that posts now is answered. */
  lemma SentOnce(env: Env, schedule: seq<Action>, r: nat, key: string, a: Attempt)
    returns (more: seq<Action>, response: I.Response)
    requires Lawful(env) && Expressive(env) && !a.call.Transfer? && a.call.amount > 0
    requires Blank(Run(env, schedule), r, key, a.tx)
    requires AnswerOf(a.call, P.Answered(L.Serve(Db(Run(env, schedule)).tables, a.call, a.tx).1)).Some?
    ensures Answers(env, Run(env, schedule), Run(env, more), r, key, a, response)
  {
    response := Answerable(env, Run(env, schedule), r, key, a);
    more := CardRequest(env, schedule, r, key, a, response);
  }

  lemma FindsDuplicate(env: Env, s: System, s': System, r: nat, key: string, a: Attempt, response: I.Response, later: L.Id)
    requires Answers(env, s, s', r, key, a, response) && !a.call.Transfer?
    requires L.Serve(Db(s).tables, a.call, a.tx).1 == L.Posted(a.tx)
    ensures AnswerOf(a.call, P.Answered(L.Serve(Db(s').tables, a.call, later).1)) == Some((OK, a.tx))
  {
    ServedIsDuplicate(Db(s).tables, a.call, a.tx, later);
  }

  /** ... and sent again under another Idempotency-Key it is answered again. */
  lemma SentTwice(env: Env, schedule: seq<Action>, r: nat, key: string, other: string, a: Attempt)
    returns (more: seq<Action>)
    requires Lawful(env) && Expressive(env) && !a.call.Transfer? && a.call.amount > 0 && key != other
    requires var s := Run(env, schedule);
             && Blank(s, r, key, a.tx) && Blank(s, r + 1, other, a.tx + 1)
             && L.Serve(Db(s).tables, a.call, a.tx).1 == L.Posted(a.tx)
    ensures var s := Run(env, more);
            SameCall(s, r, r + 1) && s.attempts[r].call == a.call && s.attempts[r + 1].call == a.call
  {
    var once, response := SentOnce(env, schedule, r, key, a);
    var s, s1 := Run(env, schedule), Run(env, once);
    StillBlank(env, s, s1, r, key, a, response, r + 1, other, a.tx + 1);
    FindsDuplicate(env, s, s1, r, key, a, response, a.tx + 1);
    more := SentAgain(env, s, once, r, key, other, a, response);
  }

  lemma SentAgain(env: Env, s: System, once: seq<Action>, r: nat, key: string, other: string,
                  first: Attempt, response: I.Response)
    returns (more: seq<Action>)
    requires Lawful(env) && Expressive(env) && !first.call.Transfer? && first.call.amount > 0
    requires Replies(env, s, Run(env, once), r, key, first, response) && Blank(Run(env, once), r + 1, other, first.tx + 1)
    requires AnswerOf(first.call, P.Answered(L.Serve(Db(Run(env, once)).tables, first.call, first.tx + 1).1)).Some?
    ensures var s := Run(env, more);
            SameCall(s, r, r + 1) && s.attempts[r].call == first.call && s.attempts[r + 1].call == first.call
  {
    var second := Attempt(first.call, first.tx + 1);
    var answer;
    more, answer := SentOnce(env, once, r + 1, other, second);
    BothSucceeded(env, s, Run(env, once), Run(env, more), r, key, other, first, second, response, answer);
  }

  lemma BothSucceeded(env: Env, s: System, s1: System, s2: System, r: nat, key: string, other: string,
                      first: Attempt, second: Attempt, response: I.Response, answer: I.Response)
    requires Replies(env, s, s1, r, key, first, response) && Replies(env, s1, s2, r + 1, other, second, answer)
    requires first.call == second.call
    ensures SameCall(s2, r, r + 1) && s2.attempts[r] == first && s2.attempts[r + 1] == second
  {
  }

  const WALLET: L.Code := "wallet:w"

  /** The two accounts, and nothing else. */
  const OPENED := L.Tables(map[WALLET := 0][L.SUSPENSE := 1], map[], [])

  const SETUP := [P.Ensure(WALLET, 0), P.Ensure(L.SUSPENSE, 1)]

  ghost predicate JustSetUp(s: System) {
    && C.Quiet(Db(s)) && Db(s).ended == map[] && Db(s).tables == OPENED
    && s.web == I.START && s.attempts == map[]
  }

  /** Nobody has begun anything yet, and these are the accounts. */
  ghost predicate Unused(db: P.Db, accounts: map<L.Code, L.Id>) {
    && Lin.Inv(db) && db.active == map[] && db.ended == map[]
    && db.tables == L.Tables(accounts, map[], [])
  }

  lemma EnsureNew(db: P.Db, accounts: map<L.Code, L.Id>, code: L.Code, uuid: L.Id)
    requires Unused(db, accounts) && code !in accounts && uuid !in accounts.Values
    ensures Unused(P.Run(db, [P.Ensure(code, uuid)]), accounts[code := uuid])
  {
    D.RunSingle(db, P.Ensure(code, uuid));
    Lin.ExecKeepsInv(db, P.Ensure(code, uuid));
  }

  lemma SetupDb()
    ensures Unused(P.Run(P.INIT, SETUP), OPENED.accounts)
  {
    P.RunConcat(P.INIT, [P.Ensure(WALLET, 0)], [P.Ensure(L.SUSPENSE, 1)]);
    assert SETUP == [P.Ensure(WALLET, 0)] + [P.Ensure(L.SUSPENSE, 1)];
    Lin.InitInv();
    EnsureNew(P.INIT, map[], WALLET, 0);
    assert WALLET[0] != L.SUSPENSE[0];
    EnsureNew(P.Run(P.INIT, [P.Ensure(WALLET, 0)]), map[WALLET := 0], L.SUSPENSE, 1);
  }

  lemma Setup(env: Env) returns (schedule: seq<Action>)
    ensures JustSetUp(Run(env, schedule))
  {
    schedule := [] + Sqls(SETUP);
    SqlRun(env, [], SETUP);
    SetupDb();
    assert BOOT.sql + SETUP == SETUP;
  }

  lemma NothingTaken(s: System, r: nat, key: string, tx: L.Id)
    requires JustSetUp(s) && key != ""
    ensures Blank(s, r, key, tx)
  {
  }

  lemma CardInServes(id: string)
    ensures L.Serve(OPENED, L.CardIn(WALLET, id, 1), 0).1 == L.Posted(0)
  {
  }

  /** A system in which a top-up of one unit under this client id would post. */
  lemma ReadyForCardIn(env: Env, id: string) returns (schedule: seq<Action>, a: Attempt)
    ensures a == Attempt(L.CardIn(WALLET, id, 1), 0)
    ensures var s := Run(env, schedule);
            && Blank(s, 0, "a", 0) && Blank(s, 1, "b", 1) && Blank(s, 2, "c", 2)
            && Db(s).tables == OPENED && L.Serve(Db(s).tables, a.call, a.tx).1 == L.Posted(a.tx)
  {
    schedule := Setup(env);
    a := Attempt(L.CardIn(WALLET, id, 1), 0);
    CardInServes(id);
    NothingTaken(Run(env, schedule), 0, "a", 0);
    NothingTaken(Run(env, schedule), 1, "b", 1);
    NothingTaken(Run(env, schedule), 2, "c", 2);
  }

  lemma CardInTwice(env: Env, id: string) returns (schedule: seq<Action>)
    requires Lawful(env) && Expressive(env)
    ensures var s := Run(env, schedule);
            SameCall(s, 0, 1) && s.attempts[0].call.PostingKey() == L.Key(id, L.CARD_IN)
  {
    var ready, a := ReadyForCardIn(env, id);
    schedule := SentTwice(env, ready, 0, "a", "b", a);
  }

  /** One unit in the wallet. */
  const FUNDING := L.CardIn(WALLET, "", 1)

  lemma FundedServes(id: string)
    ensures L.Serve(OPENED, FUNDING, 0).1 == L.Posted(0)
    ensures L.Serve(L.Serve(OPENED, FUNDING, 0).0, L.CardOut(WALLET, id, 1), 1).1 == L.Posted(1)
  {
    assert WALLET[0] != L.SUSPENSE[0];
    var t := L.Serve(OPENED, FUNDING, 0).0;
    assert t.entries == [] + L.Postings(FUNDING, 0, 0, 1);
    L.SumPosting([], FUNDING, 0, 0, 1, 0);
    assert FUNDING.PostingKey() != L.CardOut(WALLET, id, 1).PostingKey() by { assert L.CARD_IN[5] != L.CARD_OUT[5]; }
  }

  lemma CardOutTwice(env: Env, id: string) returns (schedule: seq<Action>)
    requires Lawful(env) && Expressive(env)
    ensures var s := Run(env, schedule);
            SameCall(s, 1, 2) && s.attempts[1].call.PostingKey() == L.Key(id, L.CARD_OUT)
  {
    var ready, a := ReadyForCardIn(env, "");
    var s := Run(env, ready);
    FundedServes(id);
    var funded, response := SentOnce(env, ready, 0, "a", a);
    StillBlank(env, s, Run(env, funded), 0, "a", a, response, 1, "b", 1);
    StillBlank(env, s, Run(env, funded), 0, "a", a, response, 2, "c", 2);
    schedule := SentTwice(env, funded, 1, "b", "c", Attempt(L.CardOut(WALLET, id, 1), 1));
  }

  /** In no run does the key have two successes. */
  ghost predicate SucceedsOnce(env: Env, key: L.Key) {
    forall schedule, r, q ::
      SameCall(Run(env, schedule), r, q) && Run(env, schedule).attempts[r].call.PostingKey() == key ==> r == q
  }

  lemma OtherKindsOnce(env: Env, key: L.Key)
    requires Lawful(env) && key.kind != L.CARD_IN && key.kind != L.CARD_OUT
    ensures SucceedsOnce(env, key)
  {
    forall schedule, r, q |
      SameCall(Run(env, schedule), r, q) && Run(env, schedule).attempts[r].call.PostingKey() == key
      ensures r == q
    {
      SuccessesAgree(env, schedule, r, q);
    }
  }

  /** A client id can succeed at most once, whatever happens, exactly for the kinds other than those
      of the card calls, whose duplicates are answered as successes. */
  lemma SucceedsOnceIff(env: Env, key: L.Key)
    requires Lawful(env) && Expressive(env)
    ensures SucceedsOnce(env, key) <==> key.kind != L.CARD_IN && key.kind != L.CARD_OUT
  {
    if key.kind == L.CARD_IN {
      var schedule := CardInTwice(env, key.clientTxId);
      assert SameCall(Run(env, schedule), 0, 1);
    } else if key.kind == L.CARD_OUT {
      var schedule := CardOutTwice(env, key.clientTxId);
      assert SameCall(Run(env, schedule), 1, 2);
    } else {
      OtherKindsOnce(env, key);
    }
  }

  // ---- Another endpoint under the same key ----

  /** Somebody posts under a key that another endpoint, such as the login, was called with: the
      answer is that of the other endpoint, and nothing is posted. */
  lemma OtherAnswerReplayed(env: Env, key: string, response: I.Response) returns (schedule: seq<Action>)
    requires Lawful(env) && env.ttl > 0 && key != ""
    ensures var s := Run(env, schedule);
            && 0 in s.web.reqs && s.web.reqs[0] == I.Req(I.PREFIX + key, I.Answered(I.Fresh(response)))
            && 1 in s.web.reqs
            && s.web.reqs[1] == I.Req(I.PREFIX + key, I.Answered(I.Replayed(I.Replay(env.codec.seen(response)))))
            && s.attempts == map[] && Db(s).log == []
  {
    var arrived := Arrival([], 0, key);
    Arrives(env, [], 0, key);
    RunMore(env, arrived, Web(I.HandlerSucceeds(0, response)));
    var returned := arrived + [Web(I.HandlerSucceeds(0, response))];
    RunMore(env, returned, Web(I.Set(0, I.Works)));
    var stored := returned + [Web(I.Set(0, I.Works))];
    RunMore(env, stored, Web(I.Arrive(1, "POST", key)));
    RunMore(env, stored + [Web(I.Arrive(1, "POST", key))], Web(I.Get(1, true)));
    schedule := stored + [Web(I.Arrive(1, "POST", key))] + [Web(I.Get(1, true))];
    PostIsUnsafe();
    I.StoredIsNotMarker(env.codec, response);
  }
}
