/** The middleware over the Postgres ledger: requests whose handlers are postings, among any others,
    with every interleaving of cache operations, SQL statements, failures and expiries. */
module ExactlyOnce {
  import opened Options
  import L = LedgerSpec
  import P = PostgresMachine
  import Lin = Linearizability
  import T = PostgresTheorems
  import I = Idempotency

  /** A request that reached the handler of a posting: what it asks for, and its transaction. */
  datatype Attempt = Attempt(call: L.Request, tx: L.Id)

  /** `sql` is what the database has been asked to do so far. */
  datatype System = System(web: I.World, sql: seq<P.Action>, attempts: map<nat, Attempt>)

  /** `shows` reads the transaction id out of the body of a response. */
  datatype Env = Env(codec: I.Codec, ttl: nat, shows: I.Response -> Option<L.Id>)

  ghost predicate Lawful(env: Env) {
    && I.Lawful(env.codec)
    && forall r: I.Response, headers :: env.shows(r.(headers := headers)) == env.shows(r)
  }

  function Db(s: System): P.Db { P.Run(P.INIT, s.sql) }

  const BOOT := System(I.START, [], map[])

  const CREATED := 201
  const OK := 200

  /** The status and the transaction id that a handler answers with when its transaction ended
      so; None is an error. A duplicate is an error for a payment, and for a card call an answer
      with the row that is there. */
  function AnswerOf(call: L.Request, fate: P.Fate): Option<(int, L.Id)> {
    match fate
    case Answered(Posted(id)) => Some((CREATED, id))
    case Answered(Duplicate(row, _)) => if call.Transfer? then None else Some((OK, row.id))
    case _ => None
  }

  datatype Action =
    | Web(step: I.Action)
    | Sql(stmt: P.Action)
    | StartHandler(r: nat, call: L.Request, tx: L.Id)
    | EndHandler(r: nat, response: I.Response)

  /** The response says what the handler answers, in UTF-8. */
  predicate Says(env: Env, response: I.Response, answer: (int, L.Id)) {
    response.status == answer.0 && env.shows(response) == Some(answer.1) && env.codec.utf8(response)
  }

  /** Handlers of postings start only where the middleware calls them, on a transaction of their
      own, and end as their transaction ended; any of them may also end in an error, for instance
      when a reply from the database is lost. Handlers of other endpoints return what they like. */
  function Exec(env: Env, s: System, a: Action): System {
    match a
    case Web(step) =>
      if step.HandlerSucceeds? && step.r in s.attempts then s else s.(web := I.Exec(env.codec, env.ttl, s.web, step))
    case Sql(stmt) => s.(sql := s.sql + [stmt])
    case StartHandler(r, call, tx) =>
      if r !in s.web.reqs || !s.web.reqs[r].phase.Running? || r in s.attempts then s
      else if tx in Db(s).active || tx in Db(s).ended || (exists q :: q in s.attempts && s.attempts[q].tx == tx) then s
      else s.(sql := s.sql + [P.Begin(tx, call)], attempts := s.attempts[r := Attempt(call, tx)])
    case EndHandler(r, response) =>
      if r !in s.web.reqs || !s.web.reqs[r].phase.Running? || r !in s.attempts then s
      else if s.attempts[r].tx !in Db(s).ended then s
      else
        var answer := AnswerOf(s.attempts[r].call, Db(s).ended[s.attempts[r].tx].fate);
        if answer.None? then s.(web := I.Exec(env.codec, env.ttl, s.web, I.HandlerFails(r)))
        else if !Says(env, response, answer.value) then s
        else s.(web := I.Exec(env.codec, env.ttl, s.web, I.HandlerSucceeds(r, response)))
  }

  function Run(env: Env, schedule: seq<Action>): System {
    if |schedule| == 0 then BOOT
    else Exec(env, Run(env, schedule[..|schedule| - 1]), schedule[|schedule| - 1])
  }

  /** The request's handler is that of a posting, and returned a response. */
  predicate Succeeded(s: System, r: nat) { r in s.web.returned && r in s.attempts }

  /** The response is the answer of the attempt, whose transaction has ended. */
  ghost predicate Backed(env: Env, db: P.Db, a: Attempt, response: I.Response) {
    && a.tx in db.ended && db.ended[a.tx].req == a.call
    && var answer := AnswerOf(a.call, db.ended[a.tx].fate); answer.Some? && Says(env, response, answer.value)
  }

  ghost predicate Inv(env: Env, s: System) {
    && Lin.Inv(Db(s))
    && (forall r :: r in s.attempts ==> Opened(Db(s), s.attempts[r]))
    && (forall r, q | r in s.attempts && q in s.attempts :: s.attempts[r].tx == s.attempts[q].tx ==> r == q)
    && (forall r :: Succeeded(s, r) ==> Backed(env, Db(s), s.attempts[r], s.web.returned[r].response))
    && I.Honest(env.codec, s.web) && I.Accounted(s.web)
  }

  /** The attempt's transaction is, or was, one for its call. */
  ghost predicate Opened(db: P.Db, a: Attempt) {
    || (a.tx in db.active && db.active[a.tx].req == a.call)
    || (a.tx in db.ended && db.ended[a.tx].req == a.call)
  }

  lemma RunOneMore(sql: seq<P.Action>, stmt: P.Action)
    ensures P.Run(P.INIT, sql + [stmt]) == P.Exec(P.Run(P.INIT, sql), stmt)
  {
    assert (sql + [stmt])[..|sql|] == sql;
  }

  lemma StatementKeepsCall(db: P.Db, stmt: P.Action, a: Attempt)
    requires Lin.GlobalInv(db) && Opened(db, a)
    ensures Opened(P.Exec(db, stmt), a)
  {
    match stmt {
      case Statement(id) => if id in db.active { P.StatementFootprint(db, id); }
      case Abort(_) =>
      case Begin(_, _) =>
      case Ensure(_, _) =>
    }
  }

  /** SQL moves no request, and keeps every posting there is. */
  lemma SqlKeepsInv(env: Env, s: System, stmt: P.Action, attempts: map<nat, Attempt>)
    requires Inv(env, s)
    requires forall r :: r in s.attempts ==> r in attempts && attempts[r] == s.attempts[r]
    requires forall r, q | r in attempts && q in attempts :: attempts[r].tx == attempts[q].tx ==> r == q
    requires forall r :: r in attempts && r !in s.attempts ==>
               r !in s.web.returned && Opened(P.Exec(Db(s), stmt), attempts[r])
    ensures Inv(env, System(s.web, s.sql + [stmt], attempts))
  {
    var s' := System(s.web, s.sql + [stmt], attempts);
    RunOneMore(s.sql, stmt);
    Lin.ExecKeepsInv(Db(s), stmt);
    T.ExecExtends(Db(s), stmt);
    forall r | r in s'.attempts ensures Opened(Db(s'), s'.attempts[r]) {
      if r in s.attempts { StatementKeepsCall(Db(s), stmt, s.attempts[r]); }
    }
    forall r | Succeeded(s', r) ensures Backed(env, Db(s'), s'.attempts[r], s'.web.returned[r].response) {
      assert Succeeded(s, r) && Backed(env, Db(s), s.attempts[r], s.web.returned[r].response);
    }
  }

  lemma StepReturns(codec: I.Codec, ttl: nat, w: I.World, step: I.Action, r: nat)
    requires r in I.Exec(codec, ttl, w, step).returned && I.Accounted(w)
    ensures var w' := I.Exec(codec, ttl, w, step);
            || (r in w.returned && w'.returned[r].response == w.returned[r].response)
            || (step.HandlerSucceeds? && step.r == r && w'.returned[r].response == step.response)
  {
  }

  lemma WebKeepsInv(env: Env, s: System, step: I.Action)
    requires Lawful(env) && Inv(env, s)
    requires step.HandlerSucceeds? && step.r in s.attempts ==>
               Backed(env, Db(s), s.attempts[step.r], step.response)
    ensures Inv(env, s.(web := I.Exec(env.codec, env.ttl, s.web, step)))
  {
    var s' := s.(web := I.Exec(env.codec, env.ttl, s.web, step));
    I.ExecHonest(env.codec, env.ttl, s.web, step);
    I.ExecAccounted(env.codec, env.ttl, s.web, step);
    forall r | Succeeded(s', r) ensures Backed(env, Db(s'), s'.attempts[r], s'.web.returned[r].response) {
      StepReturns(env.codec, env.ttl, s.web, step, r);
    }
  }

  lemma EndKeepsInv(env: Env, s: System, r: nat, response: I.Response)
    requires Lawful(env) && Inv(env, s)
    ensures Inv(env, Exec(env, s, EndHandler(r, response)))
  {
    if Exec(env, s, EndHandler(r, response)) != s {
      assert Opened(Db(s), s.attempts[r]);
      if AnswerOf(s.attempts[r].call, Db(s).ended[s.attempts[r].tx].fate).None? {
        WebKeepsInv(env, s, I.HandlerFails(r));
      } else {
        WebKeepsInv(env, s, I.HandlerSucceeds(r, response));
      }
    }
  }

  lemma ExecKeepsInv(env: Env, s: System, a: Action)
    requires Lawful(env) && Inv(env, s)
    ensures Inv(env, Exec(env, s, a))
  {
    match a {
      case Web(step) => if !step.HandlerSucceeds? || step.r !in s.attempts { WebKeepsInv(env, s, step); }
      case Sql(stmt) => SqlKeepsInv(env, s, stmt, s.attempts);
      case StartHandler(r, call, tx) =>
        if Exec(env, s, a) != s {
          BeginOpens(Db(s), tx, call);
          SqlKeepsInv(env, s, P.Begin(tx, call), s.attempts[r := Attempt(call, tx)]);
        }
      case EndHandler(r, response) => EndKeepsInv(env, s, r, response);
    }
  }

  lemma BeginOpens(db: P.Db, tx: L.Id, call: L.Request)
    requires tx !in db.active && tx !in db.ended
    ensures Opened(P.Exec(db, P.Begin(tx, call)), Attempt(call, tx))
  {
  }

  lemma {:induction false} RunKeepsInv(env: Env, schedule: seq<Action>)
    requires Lawful(env)
    ensures Inv(env, Run(env, schedule))
  {
    if |schedule| == 0 {
      Lin.InitInv();
    } else {
      RunKeepsInv(env, schedule[..|schedule| - 1]);
      ExecKeepsInv(env, Run(env, schedule[..|schedule| - 1]), schedule[|schedule| - 1]);
    }
  }

  // ---- What every run guarantees ----

  /** Exactly once: however often a posting is sent, under whatever Idempotency-Keys, and
      however its attempts overlap, the log holds it at most once. */
  lemma AtMostOnePosting(env: Env, schedule: seq<Action>, i: nat, j: nat)
    requires Lawful(env)
    requires var log := Db(Run(env, schedule)).log;
             && i < |log| && j < |log| && log[i].Committed? && log[j].Committed?
             && log[i].req.PostingKey() == log[j].req.PostingKey()
    ensures i == j
  {
    RunKeepsInv(env, schedule);
    SameKeySameCommit(Db(Run(env, schedule)).log, i, j);
  }

  lemma SameKeySameCommit(log: seq<L.Event>, i: nat, j: nat)
    requires L.SerialLog(log) && i < |log| && j < |log| && log[i].Committed? && log[j].Committed?
    requires log[i].req.PostingKey() == log[j].req.PostingKey()
    ensures i == j
  {
    if i < j { T.OnePostingPerKey(log, i, j); }
    if j < i { T.OnePostingPerKey(log, j, i); }
  }

  /** The n-th commit is the posting that an answer to this attempt is about. The attempt made it
      itself, or is a card call that found it. */
  ghost predicate About(log: seq<L.Event>, n: nat, a: Attempt, status: int, shown: Option<L.Id>) {
    && n < |log| && log[n].Committed? && log[n].req.PostingKey() == a.call.PostingKey()
    && shown == Some(log[n].id)
    && (if log[n].id == a.tx then status == 201 && log[n].req == a.call
        else status == 200 && !a.call.Transfer?)
  }

  lemma AnswerIsAbout(env: Env, db: P.Db, a: Attempt, response: I.Response) returns (n: nat)
    requires Lin.Inv(db) && Backed(env, db, a, response)
    ensures About(db.log, n, a, response.status, env.shows(response))
  {
    var f := db.ended[a.tx];
    assert Lin.Linearized(db.log, a.tx, f);
    if f.fate.outcome.Posted? {
      n := f.at;
    } else {
      n := DuplicateIsAbout(db, a, f);
    }
  }

  lemma DuplicateIsAbout(db: P.Db, a: Attempt, f: P.Ended) returns (n: nat)
    requires Lin.Inv(db) && a.tx in db.ended && f == db.ended[a.tx] && f.req == a.call
    requires f.fate.Answered? && f.fate.outcome.Duplicate? && !a.call.Transfer?
    ensures About(db.log, n, a, OK, Some(f.fate.outcome.row.id))
  {
    assert Lin.Linearized(db.log, a.tx, f);
    var past := db.log[..f.at];
    PrefixSerial(db.log, f.at);
    var key := a.call.PostingKey();
    assert key in L.Replay(past).transactions && L.Replay(past).transactions[key] == f.fate.outcome.row;
    n := T.RowCommitted(past, key);
    assert db.log[n] == past[n];
    assert db.ended[db.log[n].id].fate == P.Answered(L.Posted(db.log[n].id));
  }

  lemma {:induction false} PrefixSerial(log: seq<L.Event>, n: nat)
    requires L.SerialLog(log) && n <= |log|
    ensures L.SerialLog(log[..n])
  {
    if n < |log| {
      PrefixSerial(log[..|log| - 1], n);
      assert log[..|log| - 1][..n] == log[..n];
    } else {
      assert log[..n] == log;
    }
  }

  /** Every handler that returned a response shows the one committed posting of its client id and
      kind: its own, with 201, or, for a card call only, the one that was there, with 200. */
  lemma SuccessShowsPosting(env: Env, schedule: seq<Action>, r: nat) returns (n: nat)
    requires Lawful(env) && Succeeded(Run(env, schedule), r)
    ensures var s := Run(env, schedule);
            var response := s.web.returned[r].response;
            About(Db(s).log, n, s.attempts[r], response.status, env.shows(response))
  {
    var s := Run(env, schedule);
    RunKeepsInv(env, schedule);
    n := AnswerIsAbout(env, Db(s), s.attempts[r], s.web.returned[r].response);
  }

  /** Two successes for one client id and kind. */
  ghost predicate SameCall(s: System, r: nat, q: nat) {
    && Succeeded(s, r) && Succeeded(s, q)
    && s.attempts[r].call.PostingKey() == s.attempts[q].call.PostingKey()
  }

  /** They show the same transaction, at most one of them made it, and if they are two, one is a
      card call that was told of a duplicate. */
  lemma SuccessesAgree(env: Env, schedule: seq<Action>, r: nat, q: nat)
    requires Lawful(env) && SameCall(Run(env, schedule), r, q)
    ensures var s := Run(env, schedule);
            var a, b := s.web.returned[r].response, s.web.returned[q].response;
            && env.shows(a) == env.shows(b) && env.shows(a).Some?
            && (a.status == 201 && b.status == 201 ==> r == q)
            && (r != q ==> !s.attempts[r].call.Transfer? || !s.attempts[q].call.Transfer?)
            && (s.attempts[r].call.Transfer? && s.attempts[q].call.Transfer? ==> r == q)
  {
    var s := Run(env, schedule);
    RunKeepsInv(env, schedule);
    var i := SuccessShowsPosting(env, schedule, r);
    var j := SuccessShowsPosting(env, schedule, q);
    SameKeySameCommit(Db(s).log, i, j);
  }

  /** What reached the caller of q is the response that the handler of r returned, under the same
      Idempotency-Key: the response itself for its own caller, and what was read back for others. */
  predicate From(env: Env, s: System, q: nat, r: nat) {
    && q in s.web.reqs && s.web.reqs[q].phase.Answered? && r in s.web.returned && r in s.web.reqs
    && s.web.reqs[r].key == s.web.reqs[q].key
    && match s.web.reqs[q].phase.reply
       case Fresh(response) => r == q && response == s.web.returned[r].response
       case Replayed(response) => response == I.Replay(env.codec.seen(s.web.returned[r].response))
       case _ => false
  }

  predicate Received(s: System, q: nat) {
    q in s.web.reqs && s.web.reqs[q].phase.Answered?
    && (s.web.reqs[q].phase.reply.Fresh? || s.web.reqs[q].phase.reply.Replayed?)
  }

  lemma SourceOf(env: Env, s: System, q: nat) returns (r: nat)
    requires Inv(env, s) && Received(s, q)
    ensures From(env, s, q, r)
  {
    var reply := s.web.reqs[q].phase.reply;
    if reply.Fresh? {
      r := q;
    } else {
      var k := s.web.reqs[q].key;
      assert I.ReplayedFrom(env.codec, s.web, k, reply.response);
      var response :| I.Made(s.web, k, response) && reply.response == I.Replay(env.codec.seen(response));
      r :| r in s.web.returned && r in s.web.reqs && s.web.reqs[r].key == k && s.web.returned[r].response == response;
    }
  }

  lemma SameShown(env: Env, s: System, q: nat, r: nat)
    requires Lawful(env) && From(env, s, q, r) && env.codec.utf8(s.web.returned[r].response)
    ensures var received, response := s.web.reqs[q].phase.reply.response, s.web.returned[r].response;
            env.shows(received) == env.shows(response) && received.status == response.status
  {
  }

  /** What reached the caller shows a committed posting, which an attempt under the same
      Idempotency-Key was about. */
  ghost predicate ShowsPosting(env: Env, s: System, q: nat) {
    && Received(s, q)
    && var received := s.web.reqs[q].phase.reply.response;
    && exists r, n :: PostingBehind(env, s, q, r, n, received.status, env.shows(received))
  }

  ghost predicate PostingBehind(env: Env, s: System, q: nat, r: nat, n: nat, status: int, shown: Option<L.Id>) {
    From(env, s, q, r) && r in s.attempts && About(Db(s).log, n, s.attempts[r], status, shown)
  }

  /** Fresh or replayed, every response that reaches a caller was returned by a handler under the same
      Idempotency-Key; and if that was the handler of a posting, it shows the committed posting. */
  lemma AnswersHaveSource(env: Env, schedule: seq<Action>, q: nat) returns (r: nat)
    requires Lawful(env) && Received(Run(env, schedule), q)
    ensures var s := Run(env, schedule);
            From(env, s, q, r) && (r in s.attempts ==> ShowsPosting(env, s, q))
  {
    var s := Run(env, schedule);
    RunKeepsInv(env, schedule);
    r := SourceOf(env, s, q);
    if r in s.attempts { PostingShown(env, schedule, q, r); }
  }

  lemma PostingShown(env: Env, schedule: seq<Action>, q: nat, r: nat)
    requires Lawful(env) && From(env, Run(env, schedule), q, r) && r in Run(env, schedule).attempts
    ensures ShowsPosting(env, Run(env, schedule), q)
  {
    var s := Run(env, schedule);
    RunKeepsInv(env, schedule);
    assert Succeeded(s, r);
    SameShown(env, s, q, r);
    var n := SuccessShowsPosting(env, schedule, r);
    var received := s.web.reqs[q].phase.reply.response;
    assert PostingBehind(env, s, q, r, n, received.status, env.shows(received));
  }

  /** No handler but those of postings returned a response under this key. */
  predicate PostingsOnly(s: System, key: string) {
    forall r :: r in s.web.returned && r in s.web.reqs && s.web.reqs[r].key == key ==> r in s.attempts
  }

  /** A caller who uses an Idempotency-Key for postings only gets nothing but postings. */
  lemma PostingsOnlyShown(env: Env, schedule: seq<Action>, key: string)
    requires Lawful(env) && PostingsOnly(Run(env, schedule), key)
    ensures var s := Run(env, schedule);
            forall q :: Received(s, q) && s.web.reqs[q].key == key ==> ShowsPosting(env, s, q)
  {
    var s := Run(env, schedule);
    forall q | Received(s, q) && s.web.reqs[q].key == key ensures ShowsPosting(env, s, q) {
      var r := AnswersHaveSource(env, schedule, q);
    }
  }

  /** Other endpoints show no transaction. */
  predicate OthersShowNone(env: Env, s: System) {
    forall r :: r in s.web.returned && r !in s.attempts ==>
      env.shows(s.web.returned[r].response).None? && env.codec.utf8(s.web.returned[r].response)
  }

  /** Exactly then: an answer shows a posting if and only if it does not come from the handler of
      another endpoint that was called under the same key. */
  lemma ShowsPostingIff(env: Env, schedule: seq<Action>, q: nat)
    requires Lawful(env) && Received(Run(env, schedule), q) && OthersShowNone(env, Run(env, schedule))
    ensures var s := Run(env, schedule);
            ShowsPosting(env, s, q) <==> forall r :: From(env, s, q, r) ==> r in s.attempts
  {
    var s := Run(env, schedule);
    var r := AnswersHaveSource(env, schedule, q);
    if other :| From(env, s, q, other) && other !in s.attempts {
      SameShown(env, s, q, other);
      assert env.shows(s.web.reqs[q].phase.reply.response).None?;
    }
  }

}
