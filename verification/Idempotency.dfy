/** The idempotency middleware as a protocol over a shared cache: requests, their cache
    operations and their handlers interleave, and time passes. */
module Idempotency {
  import opened Options

  const MARKER := "__in_progress__"
  const PREFIX := "idempotency:v1:"

  /** storedResponse. */
  datatype Response = Response(status: int, body: string, headers: map<string, string>)

  /** JSON marshalling of stored responses. `seen` is what a reader gets back: bytes of bodies
      and headers that are not UTF-8 come back as U+FFFD. */
  datatype Codec = Codec(
    enc: Response -> string, dec: string -> Option<Response>, seen: Response -> Response, utf8: Response -> bool)

  /** Unmarshal after Marshal, and Marshal writes an object. */
  ghost predicate Lawful(c: Codec) {
    forall r :: && c.dec(c.enc(r)) == Some(c.seen(r)) && |c.enc(r)| > 0 && c.enc(r)[0] == '{'
                && c.seen(r).status == r.status && (c.utf8(r) ==> c.seen(r) == r)
  }

  /** A stored response is never mistaken for a reservation. */
  lemma StoredIsNotMarker(c: Codec, r: Response)
    requires Lawful(c)
    ensures c.enc(r) != MARKER
  {
    assert c.enc(r)[0] == '{' && MARKER[0] == '_';
  }

  function Lower(ch: char): char {
    if 'A' <= ch <= 'Z' then ch - 'A' + 'a' else ch
  }

  /** strings.EqualFold against an ASCII name. */
  predicate EqualFold(a: string, b: string) {
    |a| == |b| && forall i :: 0 <= i < |a| ==> Lower(a[i]) == Lower(b[i])
  }

  predicate IsContentLength(header: string) { EqualFold(header, "Content-Length") }

  /** What a replay sends: everything stored but the Content-Length headers. */
  function Replay(r: Response): Response {
    r.(headers := map h | h in r.headers && !IsContentLength(h) :: r.headers[h])
  }

  /** The 14 letters, each in either case. */
  predicate SpellsContentLength(header: string) {
    |header| == 14 && forall i :: 0 <= i < 14 ==> header[i] == "content-length"[i] || header[i] == "CONTENT-LENGTH"[i]
  }

  lemma EitherCase(a: string, lower: string, upper: string, mixed: string)
    requires |lower| == |upper| == |mixed|
    requires forall i :: 0 <= i < |lower| ==>
               && lower[i] == Lower(lower[i]) && lower[i] == Lower(upper[i]) && lower[i] == Lower(mixed[i])
               && forall c :: Lower(c) == lower[i] ==> c == lower[i] || c == upper[i]
    ensures EqualFold(a, mixed) <==>
              |a| == |lower| && forall i :: 0 <= i < |a| ==> a[i] == lower[i] || a[i] == upper[i]
  {
  }

  lemma ContentLengthSpelt(header: string)
    ensures IsContentLength(header) <==> SpellsContentLength(header)
  {
    EitherCase(header, "content-length", "CONTENT-LENGTH", "Content-Length");
  }

  /** Of the stored headers exactly those are sent, with their values, that are not a spelling of
      Content-Length. */
  ghost predicate SentHeaders(stored: map<string, string>, sent: map<string, string>) {
    && (forall h :: h in sent <==> h in stored && !SpellsContentLength(h))
    && (forall h :: h in sent ==> sent[h] == stored[h])
  }

  /** What a replay of a stored response is. */
  ghost predicate Resent(stored: Response, sent: Response) {
    sent.status == stored.status && sent.body == stored.body && SentHeaders(stored.headers, sent.headers)
  }

  lemma ReplayIsResent(r: Response)
    ensures Resent(r, Replay(r))
  {
    forall h ensures IsContentLength(h) <==> SpellsContentLength(h) { ContentLengthSpelt(h); }
  }

  datatype Reply =
    | PassedThrough
    | MissingKey
    | Conflict
    | Corrupt
    | Replayed(response: Response)
    | StoreFailure
    | HandlerError
    | Fresh(response: Response)

  /** Where a request is in the middleware. In flight: reserved, and not done with the cache. */
  datatype Phase =
    | Arrived
    | Missed
    | Running
    | Storing(response: Response)
    | Cleaning(reply: Reply)
    | Answered(reply: Reply)

  datatype Req = Req(key: string, phase: Phase)

  predicate InFlight(p: Phase) { p.Running? || p.Storing? || p.Cleaning? }

  datatype Slot = Slot(value: string, expires: nat)

  /** How a write to the cache goes: done; not done, with an error; or done, but the reply is lost
      and the caller sees an error. */
  datatype Effect = Works | Fails | Lost

  /** History: what the handler of a request returned, and how storing it went. */
  datatype Returned = Returned(response: Response, saved: Option<Effect>)

  datatype World = World(now: nat, cache: map<string, Slot>, reqs: map<nat, Req>, returned: map<nat, Returned>)

  const START := World(0, map[], map[], map[])

  /** `ok` is false when the lookup fails; the reply to DEL is not looked at, so it is applied or
      it is not. */
  datatype Action =
    | Tick(d: nat)
    | Arrive(r: nat, httpMethod: string, key: string)
    | Get(r: nat, ok: bool)
    | SetNX(r: nat, effect: Effect)
    | HandlerFails(r: nat)
    | HandlerSucceeds(r: nat, response: Response)
    | Set(r: nat, effect: Effect)
    | Del(r: nat, applied: bool)

  predicate Live(w: World, k: string) { k in w.cache && w.now < w.cache[k].expires }

  /** strings.ToUpper, as far as it can make ASCII letters. */
  function ToUpper(s: string): string {
    if |s| == 0 then ""
    else
      var ch := s[0];
      [if 'a' <= ch <= 'z' then ch - 'a' + 'A'
       else if ch == '\U{131}' then 'I' else if ch == '\U{17F}' then 'S' else ch] + ToUpper(s[1..])
  }

  predicate Safe(httpMethod: string) { ToUpper(httpMethod) in {"GET", "HEAD", "OPTIONS"} }

  /** The letters, each in either case; a dotless i and a long s have the capitals I and S too. */
  predicate Spells(s: string, upper: string, lower: string)
    requires |upper| == |lower|
  {
    && |s| == |upper|
    && forall i :: 0 <= i < |s| ==>
         || s[i] == upper[i] || s[i] == lower[i]
         || (s[i] == '\U{131}' && upper[i] == 'I') || (s[i] == '\U{17F}' && upper[i] == 'S')
  }

  lemma {:induction false} UpperSpells(s: string, upper: string, lower: string)
    requires |upper| == |lower|
    requires forall i :: 0 <= i < |upper| ==> 'A' <= upper[i] <= 'Z' && lower[i] == upper[i] - 'A' + 'a'
    ensures ToUpper(s) == upper <==> Spells(s, upper, lower)
  {
    if |s| > 0 && |upper| > 0 {
      UpperSpells(s[1..], upper[1..], lower[1..]);
      assert s == [s[0]] + s[1..] && upper == [upper[0]] + upper[1..];
      SpellsRest(s, upper, lower);
    }
  }

  lemma SpellsRest(s: string, upper: string, lower: string)
    requires |upper| == |lower| > 0 && |s| > 0
    ensures Spells(s, upper, lower) <==> Spells(s[..1], upper[..1], lower[..1]) && Spells(s[1..], upper[1..], lower[1..])
  {
    if Spells(s[..1], upper[..1], lower[..1]) && Spells(s[1..], upper[1..], lower[1..]) {
      forall i | 0 <= i < |s|
        ensures || s[i] == upper[i] || s[i] == lower[i]
                || (s[i] == '\U{131}' && upper[i] == 'I') || (s[i] == '\U{17F}' && upper[i] == 'S')
      {
        if i > 0 { assert s[i] == s[1..][i - 1] && upper[i] == upper[1..][i - 1] && lower[i] == lower[1..][i - 1]; }
      }
    }
  }

  /** Three methods pass the middleware, in any spelling, and no other. */
  lemma SafeIff(httpMethod: string)
    ensures Safe(httpMethod) <==>
              || Spells(httpMethod, "GET", "get") || Spells(httpMethod, "HEAD", "head")
              || Spells(httpMethod, "OPTIONS", "options")
  {
    UpperSpells(httpMethod, "GET", "get");
    UpperSpells(httpMethod, "HEAD", "head");
    UpperSpells(httpMethod, "OPTIONS", "options");
  }

  function At(w: World, r: nat, p: Phase): World
    requires r in w.reqs
  {
    w.(reqs := w.reqs[r := w.reqs[r].(phase := p)])
  }

  /** The answer to a key that is in the cache. */
  function Hit(codec: Codec, value: string): Reply {
    if value == MARKER then Conflict
    else match codec.dec(value)
      case None => Corrupt
      case Some(stored) => Replayed(Replay(stored))
  }

  function Exec(codec: Codec, ttl: nat, w: World, a: Action): World {
    match a
    case Tick(d) => w.(now := w.now + d)
    case Arrive(r, httpMethod, key) =>
      if r in w.reqs then w
      else
        var phase := if Safe(httpMethod) then Answered(PassedThrough)
                     else if key == "" then Answered(MissingKey) else Arrived;
        w.(reqs := w.reqs[r := Req(PREFIX + key, phase)])
    case Get(r, ok) =>
      if r !in w.reqs || !w.reqs[r].phase.Arrived? then w
      else
        var k := w.reqs[r].key;
        At(w, r, if !ok then Answered(StoreFailure)
                 else if Live(w, k) then Answered(Hit(codec, w.cache[k].value))
                 else Missed)
    case SetNX(r, effect) =>
      // The reply to SETNX says whether the key was set; the middleware does not look.
      if r !in w.reqs || !w.reqs[r].phase.Missed? then w
      else
        var k := w.reqs[r].key;
        At(if effect.Fails? || Live(w, k) then w else w.(cache := w.cache[k := Slot(MARKER, w.now + ttl)]), r,
           if effect.Works? then Running else Answered(StoreFailure))
    case HandlerFails(r) =>
      if r !in w.reqs || !w.reqs[r].phase.Running? then w else At(w, r, Cleaning(HandlerError))
    case HandlerSucceeds(r, response) =>
      if r !in w.reqs || !w.reqs[r].phase.Running? then w
      else At(w.(returned := w.returned[r := Returned(response, None)]), r, Storing(response))
    case Set(r, effect) =>
      if r !in w.reqs || !w.reqs[r].phase.Storing? then w
      else
        var response := w.reqs[r].phase.response;
        var stored := Slot(codec.enc(response), w.now + ttl);
        At(w.(cache := if effect.Fails? then w.cache else w.cache[w.reqs[r].key := stored],
              returned := w.returned[r := Returned(response, Some(effect))]), r,
           if effect.Works? then Answered(Fresh(response)) else Cleaning(StoreFailure))
    case Del(r, applied) =>
      if r !in w.reqs || !w.reqs[r].phase.Cleaning? then w
      else At(if applied then w.(cache := w.cache - {w.reqs[r].key}) else w, r, Answered(w.reqs[r].phase.reply))
  }

  function Run(codec: Codec, ttl: nat, w: World, schedule: seq<Action>): World {
    if |schedule| == 0 then w
    else Exec(codec, ttl, Run(codec, ttl, w, schedule[..|schedule| - 1]), schedule[|schedule| - 1])
  }

  // ---- Under the two conditions the middleware relies on ----

  /** Reservations of one key do not overlap (nobody looks it up between a miss and its SETNX),
      and a reservation outlives its handler. */
  ghost predicate Polite(w: World, a: Action) {
    && (a.Get? && a.ok && a.r in w.reqs && w.reqs[a.r].phase.Arrived? ==>
          forall other | other in w.reqs && w.reqs[other].key == w.reqs[a.r].key :: !w.reqs[other].phase.Missed?)
    && (a.Tick? ==>
          forall r | r in w.reqs && InFlight(w.reqs[r].phase) && w.reqs[r].key in w.cache ::
            w.now + a.d < w.cache[w.reqs[r].key].expires)
  }

  ghost predicate PoliteRun(codec: Codec, ttl: nat, w: World, schedule: seq<Action>) {
    forall n | 0 <= n < |schedule| :: Polite(Run(codec, ttl, w, schedule[..n]), schedule[n])
  }

  /** Whoever is in flight is alone and its key is taken, by its reservation until it has a
      response to store; whoever missed finds the key free. */
  ghost predicate Exclusive(w: World) {
    && (forall r | r in w.reqs && InFlight(w.reqs[r].phase) ::
          Live(w, w.reqs[r].key) && (w.reqs[r].phase.Cleaning? || w.cache[w.reqs[r].key].value == MARKER))
    && (forall r | r in w.reqs && w.reqs[r].phase.Missed? :: !Live(w, w.reqs[r].key))
    && (forall r, q | r in w.reqs && q in w.reqs && r != q && w.reqs[r].key == w.reqs[q].key ::
          Busy(w.reqs[r].phase) ==> !Busy(w.reqs[q].phase))
  }

  predicate Busy(p: Phase) { p.Missed? || InFlight(p) }

  lemma GetKeepsExclusive(codec: Codec, ttl: nat, w: World, r: nat, ok: bool)
    requires Exclusive(w)
    ensures Exclusive(Exec(codec, ttl, w, Get(r, ok))) <==> Polite(w, Get(r, ok))
  {
    var w' := Exec(codec, ttl, w, Get(r, ok));
    if !Polite(w, Get(r, ok)) {
      var other :| other in w.reqs && w.reqs[other].key == w.reqs[r].key && w.reqs[other].phase.Missed?;
      assert w'.reqs[r].phase.Missed? && w'.reqs[other].phase.Missed?;
    }
  }

  lemma TickKeepsExclusive(codec: Codec, ttl: nat, w: World, d: nat)
    requires Exclusive(w)
    ensures Exclusive(Exec(codec, ttl, w, Tick(d))) <==> Polite(w, Tick(d))
  {
    var w' := Exec(codec, ttl, w, Tick(d));
    if !Polite(w, Tick(d)) {
      var r :| r in w.reqs && InFlight(w.reqs[r].phase) && w.reqs[r].key in w.cache
               && w.now + d >= w.cache[w.reqs[r].key].expires;
      assert !Live(w', w'.reqs[r].key);
    }
  }

  lemma SetNXKeepsExclusive(codec: Codec, ttl: nat, w: World, r: nat, effect: Effect)
    requires Exclusive(w) && ttl > 0
    ensures Exclusive(Exec(codec, ttl, w, SetNX(r, effect)))
  {
  }

  lemma SetKeepsExclusive(codec: Codec, ttl: nat, w: World, r: nat, effect: Effect)
    requires Exclusive(w) && ttl > 0
    ensures Exclusive(Exec(codec, ttl, w, Set(r, effect)))
  {
  }

  lemma DelKeepsExclusive(codec: Codec, ttl: nat, w: World, r: nat, applied: bool)
    requires Exclusive(w)
    ensures Exclusive(Exec(codec, ttl, w, Del(r, applied)))
  {
  }

  /** From a state in which handlers exclude each other, an action keeps that exactly when it
      meets the two conditions. */
  lemma ExclusiveIffPolite(codec: Codec, ttl: nat, w: World, a: Action)
    requires Exclusive(w) && ttl > 0
    ensures Exclusive(Exec(codec, ttl, w, a)) <==> Polite(w, a)
  {
    match a {
      case Get(r, ok) => GetKeepsExclusive(codec, ttl, w, r, ok);
      case Tick(d) => TickKeepsExclusive(codec, ttl, w, d);
      case SetNX(r, effect) => SetNXKeepsExclusive(codec, ttl, w, r, effect);
      case Set(r, effect) => SetKeepsExclusive(codec, ttl, w, r, effect);
      case Del(r, applied) => DelKeepsExclusive(codec, ttl, w, r, applied);
      case Arrive(_, _, _) =>
      case HandlerFails(_) =>
      case HandlerSucceeds(_, _) =>
    }
  }

  lemma PolitePrefix(codec: Codec, ttl: nat, w: World, schedule: seq<Action>)
    requires PoliteRun(codec, ttl, w, schedule) && |schedule| > 0
    ensures var before := schedule[..|schedule| - 1];
            && PoliteRun(codec, ttl, w, before)
            && Polite(Run(codec, ttl, w, before), schedule[|schedule| - 1])
  {
    var before := schedule[..|schedule| - 1];
    forall n | 0 <= n < |before| ensures Polite(Run(codec, ttl, w, before[..n]), before[n]) {
      assert before[..n] == schedule[..n];
    }
  }

  /** At most one handler per key is ever in flight, and it holds the reservation. */
  lemma {:induction false} OneInFlight(codec: Codec, ttl: nat, w: World, schedule: seq<Action>)
    requires Exclusive(w) && PoliteRun(codec, ttl, w, schedule) && ttl > 0
    ensures Exclusive(Run(codec, ttl, w, schedule))
  {
    if |schedule| > 0 {
      PolitePrefix(codec, ttl, w, schedule);
      OneInFlight(codec, ttl, w, schedule[..|schedule| - 1]);
      ExclusiveIffPolite(codec, ttl, Run(codec, ttl, w, schedule[..|schedule| - 1]), schedule[|schedule| - 1]);
    }
  }

  /** A key whose cached value is a response, with every request for it either waiting for its
      lookup or answered from that response, or in one of the ways that need no lookup. */
  ghost predicate Replaying(w: World, k: string, slot: Slot, hit: Reply, done: set<nat>) {
    && k in w.cache && w.cache[k] == slot
    && (forall r | r in done :: r in w.reqs && w.reqs[r].phase.Answered?)
    && (forall r | r in w.reqs && r !in done && w.reqs[r].key == k ::
          w.reqs[r].phase.Arrived? || w.reqs[r].phase in
            {Answered(hit), Answered(StoreFailure), Answered(PassedThrough), Answered(MissingKey)})
  }

  lemma ExecReplays(codec: Codec, ttl: nat, w: World, a: Action, k: string, slot: Slot, done: set<nat>)
    requires Replaying(w, k, slot, Hit(codec, slot.value), done)
    requires w.now < slot.expires
    ensures Replaying(Exec(codec, ttl, w, a), k, slot, Hit(codec, slot.value), done)
  {
    if a.Arrive? && a.r !in w.reqs { assert a.r !in done; }
  }

  lemma {:induction false} RunReplays(
    codec: Codec, ttl: nat, w: World, schedule: seq<Action>, k: string, slot: Slot, done: set<nat>)
    requires Replaying(w, k, slot, Hit(codec, slot.value), done)
    requires Run(codec, ttl, w, schedule).now < slot.expires
    ensures Replaying(Run(codec, ttl, w, schedule), k, slot, Hit(codec, slot.value), done)
  {
    if |schedule| > 0 {
      var before := schedule[..|schedule| - 1];
      RunReplays(codec, ttl, w, before, k, slot, done);
      ExecReplays(codec, ttl, Run(codec, ttl, w, before), schedule[|schedule| - 1], k, slot, done);
    }
  }

  lemma StorerIsAlone(w: World, r: nat)
    requires Exclusive(w) && r in w.reqs && w.reqs[r].phase.Storing?
    ensures forall q | q in w.reqs && q != r && w.reqs[q].key == w.reqs[r].key ::
              w.reqs[q].phase.Answered? || w.reqs[q].phase.Arrived?
  {
    assert Busy(w.reqs[r].phase);
  }

  /** Idempotent replay: from the moment the response of request `r` is stored until it
      expires, and whatever else happens, no handler runs for its key, and every later lookup
      is answered with the stored status, body and headers except Content-Length. */
  lemma StoredIsReplayed(codec: Codec, ttl: nat, w: World, r: nat, response: Response, schedule: seq<Action>)
    requires Lawful(codec) && Exclusive(w) && ttl > 0
    requires r in w.reqs && w.reqs[r].phase == Storing(response)
    requires var w1 := Exec(codec, ttl, w, Set(r, Works));
             Run(codec, ttl, w1, schedule).now < w.now + ttl
    ensures var w2 := Run(codec, ttl, Exec(codec, ttl, w, Set(r, Works)), schedule);
            forall q | q in w2.reqs && w2.reqs[q].key == w.reqs[r].key ::
              && !Busy(w2.reqs[q].phase)
              && (w2.reqs[q].phase.Answered? && (q !in w.reqs || w.reqs[q].phase.Arrived?) ==>
                    var reply := w2.reqs[q].phase.reply;
                    || reply in {StoreFailure, PassedThrough, MissingKey}
                    || (reply.Replayed? && Resent(codec.seen(response), reply.response)))
  {
    var w1 := Exec(codec, ttl, w, Set(r, Works));
    var k := w.reqs[r].key;
    var slot := Slot(codec.enc(response), w.now + ttl);
    StorerIsAlone(w, r);
    StoredIsNotMarker(codec, response);
    ReplayIsResent(codec.seen(response));
    assert Hit(codec, slot.value) == Replayed(Replay(codec.seen(response)));
    var done := set q | q in w1.reqs && w1.reqs[q].phase.Answered?;
    RunReplays(codec, ttl, w1, schedule, k, slot, done);
  }

  // ---- Under no condition ----

  /** Some request with this key has a handler that returned this response, and the cache took it. */
  ghost predicate Made(w: World, k: string, response: Response) {
    exists r | r in w.returned && r in w.reqs ::
      w.reqs[r].key == k && w.returned[r].response == response && Saved(w.returned[r])
  }

  predicate Saved(h: Returned) { h.saved.Some? && !h.saved.value.Fails? }

  /** Some request with this key was answered with the response of its own handler. */
  ghost predicate Given(w: World, k: string, response: Response) {
    exists r | r in w.reqs :: w.reqs[r] == Req(k, Answered(Fresh(response)))
  }

  /** Cached values are reservations or responses of handlers; so are replays. */
  ghost predicate Honest(codec: Codec, w: World) {
    && (forall k | k in w.cache :: w.cache[k].value == MARKER || StoredFrom(codec, w, k, w.cache[k].value))
    && (forall r | r in w.reqs && w.reqs[r].phase.Answered? && w.reqs[r].phase.reply.Replayed? ::
          ReplayedFrom(codec, w, w.reqs[r].key, w.reqs[r].phase.reply.response))
  }

  ghost predicate StoredFrom(codec: Codec, w: World, k: string, value: string) {
    exists response :: Made(w, k, response) && value == codec.enc(response)
  }

  ghost predicate ReplayedFrom(codec: Codec, w: World, k: string, sent: Response) {
    exists response :: Made(w, k, response) && sent == Replay(codec.seen(response))
  }

  lemma MadeForever(codec: Codec, ttl: nat, w: World, a: Action, k: string, response: Response)
    requires Made(w, k, response) && Accounted(w)
    ensures Made(Exec(codec, ttl, w, a), k, response)
  {
    var r :| r in w.returned && r in w.reqs
             && w.reqs[r].key == k && w.returned[r].response == response && Saved(w.returned[r]);
    var w' := Exec(codec, ttl, w, a);
    assert w'.returned[r] == w.returned[r] && w'.reqs[r].key == k;
  }

  lemma StoredFromForever(codec: Codec, ttl: nat, w: World, a: Action, k: string, value: string)
    requires StoredFrom(codec, w, k, value) && Accounted(w)
    ensures StoredFrom(codec, Exec(codec, ttl, w, a), k, value)
  {
    var response :| Made(w, k, response) && value == codec.enc(response);
    MadeForever(codec, ttl, w, a, k, response);
  }

  lemma ReplayedFromForever(codec: Codec, ttl: nat, w: World, a: Action, k: string, sent: Response)
    requires ReplayedFrom(codec, w, k, sent) && Accounted(w)
    ensures ReplayedFrom(codec, Exec(codec, ttl, w, a), k, sent)
  {
    var response :| Made(w, k, response) && sent == Replay(codec.seen(response));
    MadeForever(codec, ttl, w, a, k, response);
  }

  lemma ExecCacheHonest(codec: Codec, ttl: nat, w: World, a: Action, k: string)
    requires Honest(codec, w) && Accounted(w) && k in Exec(codec, ttl, w, a).cache
    requires Exec(codec, ttl, w, a).cache[k].value != MARKER
    ensures StoredFrom(codec, Exec(codec, ttl, w, a), k, Exec(codec, ttl, w, a).cache[k].value)
  {
    var w' := Exec(codec, ttl, w, a);
    if k in w.cache && w.cache[k] == w'.cache[k] {
      StoredFromForever(codec, ttl, w, a, k, w.cache[k].value);
    } else {
      assert a.Set? && w.reqs[a.r].key == k;
      assert w'.reqs[a.r].key == k && Saved(w'.returned[a.r]);
      assert Made(w', k, w.reqs[a.r].phase.response);
    }
  }

  lemma ExecReplyHonest(codec: Codec, ttl: nat, w: World, a: Action, r: nat)
    requires Lawful(codec) && Honest(codec, w) && Accounted(w) && r in Exec(codec, ttl, w, a).reqs
    requires var p := Exec(codec, ttl, w, a).reqs[r].phase; p.Answered? && p.reply.Replayed?
    ensures var w' := Exec(codec, ttl, w, a); ReplayedFrom(codec, w', w'.reqs[r].key, w'.reqs[r].phase.reply.response)
  {
    var w' := Exec(codec, ttl, w, a);
    if r in w.reqs && w.reqs[r] == w'.reqs[r] {
      ReplayedFromForever(codec, ttl, w, a, w.reqs[r].key, w.reqs[r].phase.reply.response);
    } else {
      var k := w.reqs[r].key;
      assert a.Get? && a.r == r && Live(w, k);
      var response :| Made(w, k, response) && w.cache[k].value == codec.enc(response);
      assert codec.dec(codec.enc(response)) == Some(codec.seen(response));
      MadeForever(codec, ttl, w, a, k, response);
    }
  }

  /** The history agrees with where each request is. */
  ghost predicate Accounted(w: World) {
    && (forall r :: r in w.reqs ==> Tallies(w.reqs[r].phase, if r in w.returned then Some(w.returned[r]) else None))
    && (forall r :: r in w.returned ==> r in w.reqs)
  }

  predicate Tallies(p: Phase, h: Option<Returned>) {
    match p
    case Storing(response) => h == Some(Returned(response, None))
    case Cleaning(StoreFailure) => h.Some? && h.value.saved in {Some(Fails), Some(Lost)}
    case Cleaning(reply) => reply == HandlerError && h.None?
    case Answered(Fresh(response)) => h == Some(Returned(response, Some(Works)))
    case Answered(StoreFailure) => h.Some? ==> h.value.saved in {Some(Fails), Some(Lost)}
    case _ => h.None?
  }

  lemma ExecAccounted(codec: Codec, ttl: nat, w: World, a: Action)
    requires Accounted(w)
    ensures Accounted(Exec(codec, ttl, w, a))
  {
  }

  lemma ExecHonest(codec: Codec, ttl: nat, w: World, a: Action)
    requires Lawful(codec) && Honest(codec, w) && Accounted(w)
    ensures Honest(codec, Exec(codec, ttl, w, a))
  {
    var w' := Exec(codec, ttl, w, a);
    forall k | k in w'.cache && w'.cache[k].value != MARKER ensures StoredFrom(codec, w', k, w'.cache[k].value) {
      ExecCacheHonest(codec, ttl, w, a, k);
    }
    forall r | r in w'.reqs && w'.reqs[r].phase.Answered? && w'.reqs[r].phase.reply.Replayed?
      ensures ReplayedFrom(codec, w', w'.reqs[r].key, w'.reqs[r].phase.reply.response)
    {
      ExecReplyHonest(codec, ttl, w, a, r);
    }
  }

  /** Whatever the interleaving, failures, lost replies, expiries and deletions: a replay is never
      anything but a response that some handler run under the same key returned and the cache took. */
  lemma {:induction false} ReplaysAreReal(codec: Codec, ttl: nat, schedule: seq<Action>)
    requires Lawful(codec)
    ensures var w := Run(codec, ttl, START, schedule); Honest(codec, w) && Accounted(w)
  {
    if |schedule| > 0 {
      var before, a := schedule[..|schedule| - 1], schedule[|schedule| - 1];
      ReplaysAreReal(codec, ttl, before);
      ExecHonest(codec, ttl, Run(codec, ttl, START, before), a);
      ExecAccounted(codec, ttl, Run(codec, ttl, START, before), a);
    }
  }

  /** The SET of such a handler run was acknowledged. */
  ghost predicate Acknowledged(w: World, k: string, response: Response) {
    exists r | r in w.returned && r in w.reqs ::
      w.reqs[r].key == k && w.returned[r] == Returned(response, Some(Works))
  }

  /** A caller was also answered with the response exactly if the SET of such a handler run was
      acknowledged. */
  lemma GivenIff(codec: Codec, ttl: nat, schedule: seq<Action>, k: string, response: Response)
    requires Lawful(codec)
    ensures var w := Run(codec, ttl, START, schedule); Given(w, k, response) <==> Acknowledged(w, k, response)
  {
    ReplaysAreReal(codec, ttl, schedule);
    GivenIfAcknowledged(Run(codec, ttl, START, schedule), k, response);
  }

  lemma GivenIfAcknowledged(w: World, k: string, response: Response)
    requires Accounted(w)
    ensures Given(w, k, response) <==> Acknowledged(w, k, response)
  {
    if Given(w, k, response) {
      var r :| r in w.reqs && w.reqs[r] == Req(k, Answered(Fresh(response)));
      assert r in w.returned && w.returned[r] == Returned(response, Some(Works));
    }
    if r :| r in w.returned && r in w.reqs && w.reqs[r].key == k
            && w.returned[r] == Returned(response, Some(Works)) {
      assert w.reqs[r] == Req(k, Answered(Fresh(response)));
    }
  }

  predicate NoneLost(w: World) { forall r :: r in w.returned ==> w.returned[r].saved != Some(Lost) }

  lemma ExecNoneLost(codec: Codec, ttl: nat, w: World, a: Action)
    requires NoneLost(w) && !(a.Set? && a.effect.Lost?)
    ensures NoneLost(Exec(codec, ttl, w, a))
  {
  }

  /** As long as no reply to a SET is lost, every replay is a response that some caller got. */
  lemma {:induction false} ReplaysWereGiven(codec: Codec, ttl: nat, schedule: seq<Action>)
    requires Lawful(codec) && forall a :: a in schedule ==> !(a.Set? && a.effect.Lost?)
    ensures var w := Run(codec, ttl, START, schedule);
            && NoneLost(w)
            && forall k, response :: Made(w, k, response) ==> Given(w, k, response)
  {
    var w := Run(codec, ttl, START, schedule);
    if |schedule| > 0 {
      assert schedule[|schedule| - 1] in schedule;
      ReplaysWereGiven(codec, ttl, schedule[..|schedule| - 1]);
      ExecNoneLost(codec, ttl, Run(codec, ttl, START, schedule[..|schedule| - 1]), schedule[|schedule| - 1]);
    }
    ReplaysAreReal(codec, ttl, schedule);
    forall k, response | Made(w, k, response) ensures Given(w, k, response) {
      var r :| r in w.returned && r in w.reqs
               && w.reqs[r].key == k && w.returned[r].response == response && Saved(w.returned[r]);
      assert w.returned[r] == Returned(response, Some(Works));
      GivenIfAcknowledged(w, k, response);
    }
  }

  // ---- Why the two conditions are there ----

  predicate BothRun(w: World, r: nat, q: nat) {
    && r in w.reqs && q in w.reqs && r != q && w.reqs[r].key == w.reqs[q].key
    && w.reqs[r].phase.Running? && w.reqs[q].phase.Running?
  }

  lemma RunTwo(codec: Codec, ttl: nat, w: World, a: Action, b: Action)
    ensures Run(codec, ttl, w, [a, b]) == Exec(codec, ttl, Exec(codec, ttl, w, a), b)
  {
    var two := [a, b];
    assert two[..1] == [a] && [a][..0] == [];
    assert Run(codec, ttl, w, [a]) == Exec(codec, ttl, w, a);
    assert Run(codec, ttl, w, two) == Exec(codec, ttl, Run(codec, ttl, w, two[..1]), two[1]);
  }

  /** Two requests that both miss both run: SETNX tells the second that it lost, and its answer
      is ignored. */
  lemma OverlapRunsTwice(codec: Codec, ttl: nat, w: World, r: nat, q: nat)
    requires r in w.reqs && q in w.reqs && r != q && w.reqs[r].key == w.reqs[q].key
    requires w.reqs[r].phase.Arrived? && w.reqs[q].phase.Arrived? && !Live(w, w.reqs[r].key)
    ensures BothRun(Run(codec, ttl, Run(codec, ttl, w, [Get(r, true), Get(q, true)]),
                        [SetNX(r, Works), SetNX(q, Works)]), r, q)
  {
    RunTwo(codec, ttl, w, Get(r, true), Get(q, true));
    BothReserve(codec, ttl, Run(codec, ttl, w, [Get(r, true), Get(q, true)]), r, q);
  }

  lemma BothReserve(codec: Codec, ttl: nat, w: World, r: nat, q: nat)
    requires r in w.reqs && q in w.reqs && r != q && w.reqs[r].key == w.reqs[q].key
    requires w.reqs[r].phase.Missed? && w.reqs[q].phase.Missed?
    ensures BothRun(Run(codec, ttl, w, [SetNX(r, Works), SetNX(q, Works)]), r, q)
  {
    RunTwo(codec, ttl, w, SetNX(r, Works), SetNX(q, Works));
  }

  /** A handler that outlives its reservation lets the next request run too. */
  lemma SlowHandlerRunsTwice(codec: Codec, ttl: nat, w: World, r: nat, q: nat)
    requires r in w.reqs && q in w.reqs && r != q && w.reqs[r].key == w.reqs[q].key
    requires w.reqs[r].phase.Running? && w.reqs[q].phase.Arrived? && !Live(w, w.reqs[r].key)
    ensures BothRun(Run(codec, ttl, w, [Get(q, true), SetNX(q, Works)]), r, q)
  {
    RunTwo(codec, ttl, w, Get(q, true), SetNX(q, Works));
  }

  /** When the reply to SET is lost and the DEL after it is not applied, the request is answered
      with an error, and the next one is replayed its response. */
  lemma LostReplyIsReplayed(codec: Codec, ttl: nat, w: World, r: nat, q: nat, response: Response)
    requires Lawful(codec) && ttl > 0
    requires r in w.reqs && q in w.reqs && w.reqs[r].key == w.reqs[q].key
    requires w.reqs[r].phase == Storing(response) && w.reqs[q].phase.Arrived?
    ensures var w' := Exec(codec, ttl, Run(codec, ttl, w, [Set(r, Lost), Del(r, false)]), Get(q, true));
            && r in w'.reqs && w'.reqs[r].phase == Answered(StoreFailure)
            && q in w'.reqs && w'.reqs[q].phase == Answered(Replayed(Replay(codec.seen(response))))
  {
    RunTwo(codec, ttl, w, Set(r, Lost), Del(r, false));
    StoredIsNotMarker(codec, response);
  }
}
