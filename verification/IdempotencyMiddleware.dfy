/** The middleware function itself, run statement by statement while other requests use the
    same cache. */
module IdempotencyMiddleware {
  import opened Options
  import opened Idempotency

  /** What the wrapped handler does when it is called. */
  datatype Outcome =
    | Fails
    | Succeeds(status: int, body: string, headers: seq<(string, string)>)

  /** What others do before one cache operation, and how the operation goes. */
  datatype Weather = Weather(others: seq<Action>, effect: Effect)

  const CALM := Weather([], Works)

  predicate Mine(a: Action, r: nat) { !a.Tick? && a.r == r }

  /** The last value a header was visited with. */
  function LastValue(pairs: seq<(string, string)>, header: string): Option<string> {
    if |pairs| == 0 then None
    else if pairs[|pairs| - 1].0 == header then Some(pairs[|pairs| - 1].1)
    else LastValue(pairs[..|pairs| - 1], header)
  }

  /** The value is that of the last pair with this header, if there is one. */
  ghost predicate LastIs(pairs: seq<(string, string)>, header: string, value: Option<string>) {
    match value
    case None => forall i :: 0 <= i < |pairs| ==> pairs[i].0 != header
    case Some(v) =>
      exists i :: 0 <= i < |pairs| && pairs[i] == (header, v) && forall j :: i < j < |pairs| ==> pairs[j].0 != header
  }

  ghost predicate LastWins(pairs: seq<(string, string)>, headers: map<string, string>) {
    forall h :: LastIs(pairs, h, if h in headers then Some(headers[h]) else None)
  }

  lemma {:induction false} LastValueIs(pairs: seq<(string, string)>, header: string)
    ensures LastIs(pairs, header, LastValue(pairs, header))
  {
    if |pairs| > 0 && pairs[|pairs| - 1].0 != header {
      var before := pairs[..|pairs| - 1];
      LastValueIs(before, header);
      if LastValue(before, header).Some? {
        var v := LastValue(before, header).value;
        var i :| 0 <= i < |before| && before[i] == (header, v) && forall j :: i < j < |before| ==> before[j].0 != header;
        assert pairs[i] == (header, v) && forall j :: i < j < |pairs| ==> pairs[j].0 != header;
      } else {
        assert forall i :: 0 <= i < |before| ==> pairs[i] == before[i];
      }
    } else if |pairs| > 0 {
      assert pairs[|pairs| - 1] == (header, pairs[|pairs| - 1].1);
    }
  }

  /** c.Response().Header.VisitAll: a header that is repeated keeps only its last value. */
  method CollectHeaders(pairs: seq<(string, string)>) returns (headers: map<string, string>)
    ensures forall h :: h in headers <==> LastValue(pairs, h).Some?
    ensures forall h :: h in headers ==> LastValue(pairs, h) == Some(headers[h])
    ensures LastWins(pairs, headers)
  {
    headers := map[];
    for i := 0 to |pairs|
      invariant forall h :: h in headers <==> LastValue(pairs[..i], h).Some?
      invariant forall h :: h in headers ==> LastValue(pairs[..i], h) == Some(headers[h])
    {
      assert pairs[..i + 1][..i] == pairs[..i];
      headers := headers[pairs[i].0 := pairs[i].1];
    }
    assert pairs[..|pairs|] == pairs;
    forall h ensures LastIs(pairs, h, if h in headers then Some(headers[h]) else None) { LastValueIs(pairs, h); }
  }

  /** The loop over the stored headers of a replay, in whatever order the map gives them. */
  method ResendHeaders(stored: map<string, string>) returns (sent: map<string, string>)
    ensures sent == Replay(Response(0, "", stored)).headers
    ensures SentHeaders(stored, sent)
  {
    ReplayIsResent(Response(0, "", stored));
    sent := map[];
    var left := stored.Keys;
    while left != {}
      invariant left <= stored.Keys
      invariant sent == map h | h in stored.Keys - left && !IsContentLength(h) :: stored[h]
      decreases |left|
    {
      var header :| header in left;
      left := left - {header};
      if !IsContentLength(header) {
        sent := sent[header := stored[header]];
      }
    }
    assert stored.Keys - {} == stored.Keys;
  }

  ghost predicate Calm(weather: nat -> Weather) { forall n :: weather(n) == CALM }

  lemma OthersLeaveRequest(codec: Codec, ttl: nat, w: World, a: Action, r: nat)
    requires r in w.reqs && !Mine(a, r)
    ensures r in Exec(codec, ttl, w, a).reqs && Exec(codec, ttl, w, a).reqs[r] == w.reqs[r]
  {
  }

  /** What a cached value is answered with: a conflict while a request holds the key or if it cannot be
      read, or the response that was stored, with its headers but Content-Length. */
  ghost predicate HitWith(codec: Codec, cached: string, reply: Reply) {
    if cached == "__in_progress__" then reply == Conflict
    else match codec.dec(cached)
      case None => reply == Corrupt
      case Some(stored) => reply.Replayed? && Resent(stored, reply.response)
  }

  class Middleware {
    const codec: Codec
    const ttl: nat
    var world: World
    ghost var history: seq<Action>

    ghost predicate Valid()
      reads this
    {
      world == Run(codec, ttl, START, history)
    }

    constructor (codec: Codec, ttl: nat)
      ensures Valid() && world == START && this.codec == codec && this.ttl == ttl
    {
      this.codec, this.ttl := codec, ttl;
      world, history := START, [];
    }

    method Do(a: Action)
      requires Valid()
      modifies this
      ensures Valid() && world == Exec(codec, ttl, old(world), a) && history == old(history) + [a]
    {
      world, history := Exec(codec, ttl, world, a), history + [a];
      assert history[..|history| - 1] == old(history);
    }

    method Others(actions: seq<Action>, r: nat)
      requires Valid() && r in world.reqs
      modifies this
      ensures Valid() && old(history) <= history
      ensures r in world.reqs && world.reqs[r] == old(world.reqs[r])
      ensures actions == [] ==> world == old(world)
    {
      for i := 0 to |actions|
        invariant Valid() && old(history) <= history
        invariant r in world.reqs && world.reqs[r] == old(world.reqs[r])
        invariant i == 0 ==> world == old(world)
      {
        if !Mine(actions[i], r) {
          OthersLeaveRequest(codec, ttl, world, actions[i], r);
          Do(actions[i]);
        }
      }
    }

    /** cache.Get: `err` is a failure of the cache, otherwise the live value if there is one. */
    method Lookup(r: nat, weather: Weather) returns (err: bool, cached: Option<string>)
      requires Valid() && r in world.reqs && world.reqs[r].phase.Arrived?
      modifies this
      ensures Valid() && old(history) <= history
      ensures r in world.reqs && err == !weather.effect.Works?
      ensures var k := old(world.reqs[r].key);
              if err then world.reqs[r] == Req(k, Answered(StoreFailure))
              else
                && cached == (if Live(world, k) then Some(world.cache[k].value) else None)
                && world.reqs[r] == Req(k, if cached.Some? then Answered(Hit(codec, cached.value)) else Missed)
      ensures weather.others == [] ==> world.cache == old(world).cache && world.now == old(world).now
    {
      Others(weather.others, r);
      var k := world.reqs[r].key;
      cached := if Live(world, k) then Some(world.cache[k].value) else None;
      Do(Get(r, weather.effect.Works?));
      err := !weather.effect.Works?;
    }

    /** cache.SetNX, looking at the error only. */
    method Reserve(r: nat, weather: Weather) returns (err: bool)
      requires Valid() && r in world.reqs && world.reqs[r].phase.Missed?
      modifies this
      ensures Valid() && old(history) <= history
      ensures r in world.reqs && err == !weather.effect.Works?
      ensures world.reqs[r] == old(world.reqs[r]).(phase := if err then Answered(StoreFailure) else Running)
      ensures var k := old(world.reqs[r].key);
              weather == CALM && !Live(old(world), k) ==>
                world.cache == old(world).cache[k := Slot(MARKER, old(world).now + ttl)] && world.now == old(world).now
    {
      Others(weather.others, r);
      Do(SetNX(r, weather.effect));
      err := !weather.effect.Works?;
    }

    /** cache.Del, best effort. */
    method Cleanup(r: nat, weather: Weather)
      requires Valid() && r in world.reqs && world.reqs[r].phase.Cleaning?
      modifies this
      ensures Valid() && old(history) <= history
      ensures r in world.reqs
      ensures world.reqs[r] == old(world.reqs[r]).(phase := Answered(old(world.reqs[r]).phase.reply))
      ensures weather == CALM ==> world.cache == old(world).cache - {old(world.reqs[r].key)}
    {
      Others(weather.others, r);
      Do(Del(r, !weather.effect.Fails?));
    }

    /** cache.Set, and the cleanup when it fails. */
    method Store(r: nat, stored: Response, weather: Weather, cleanup: Weather) returns (reply: Reply)
      requires Valid() && r in world.reqs && world.reqs[r].phase == Storing(stored)
      modifies this
      ensures Valid() && old(history) <= history
      ensures r in world.reqs && world.reqs[r] == old(world.reqs[r]).(phase := Answered(reply))
      ensures weather == CALM ==>
                && reply == Fresh(stored)
                && world.cache == old(world).cache[old(world.reqs[r].key) :=
                     Slot(codec.enc(stored), old(world).now + ttl)]
    {
      Others(weather.others, r);
      Do(Set(r, weather.effect));
      if !weather.effect.Works? {
        Cleanup(r, cleanup);
        return StoreFailure;
      }
      return Fresh(stored);
    }

    /** The answer to a key that is in the cache, and what that is. */
    method AnswerHit(cached: string) returns (reply: Reply)
      ensures reply == Hit(codec, cached) && HitWith(codec, cached, reply)
    {
      if cached == MARKER { return Conflict; }
      var decoded := codec.dec(cached);
      if decoded.None? { return Corrupt; }
      var sent := ResendHeaders(decoded.value.headers);
      return Replayed(Response(decoded.value.status, decoded.value.body, sent));
    }

    /** One pass of one request. It is one run of the protocol, and undisturbed it replays a
        stored answer, or runs the handler and stores or clears its key. */
    method Handle(r: nat, httpMethod: string, key: string, handler: Outcome, weather: nat -> Weather)
      returns (reply: Reply)
      requires Valid() && r !in world.reqs
      modifies this
      ensures Valid() && old(history) <= history
      ensures r in world.reqs && world.reqs[r] == Req("idempotency:v1:" + key, Answered(reply))
      ensures Calm(weather) && !Safe(httpMethod) && key != "" ==>
                if Live(old(world), "idempotency:v1:" + key) then
                  HitWith(codec, old(world).cache["idempotency:v1:" + key].value, reply) && world.cache == old(world).cache
                else Handled(old(world), world, "idempotency:v1:" + key, handler, reply)
      ensures Safe(httpMethod) ==> reply == PassedThrough && world.cache == old(world).cache
      ensures !Safe(httpMethod) && key == "" ==> reply == MissingKey && world.cache == old(world).cache
    {
      Do(Arrive(r, httpMethod, key));
      if Safe(httpMethod) { return PassedThrough; }
      if key == "" { return MissingKey; }

      reply := Guard(r, handler, weather);
    }

    /** From the lookup on. */
    method Guard(r: nat, handler: Outcome, weather: nat -> Weather) returns (reply: Reply)
      requires Valid() && r in world.reqs && world.reqs[r].phase.Arrived?
      modifies this
      ensures Valid() && old(history) <= history
      ensures r in world.reqs && world.reqs[r] == old(world.reqs[r]).(phase := Answered(reply))
      ensures var k := old(world.reqs[r].key);
              Calm(weather) ==>
                if Live(old(world), k) then
                  HitWith(codec, old(world).cache[k].value, reply) && world.cache == old(world).cache
                else Handled(old(world), world, k, handler, reply)
    {
      var err, cached := Lookup(r, weather(0));
      if err { return StoreFailure; }
      if cached.Some? {
        reply := AnswerHit(cached.value);
        return reply;
      }

      err := Reserve(r, weather(1));
      if err { return StoreFailure; }
      reply := CallHandler(r, handler, weather);
    }

    /** The handler ran once on w, and its outcome is what the caller and the cache got. */
    ghost predicate Handled(w: World, w': World, k: string, handler: Outcome, reply: Reply) {
      if handler.Fails? then reply == HandlerError && w'.cache == w.cache - {k}
      else
        && reply.Fresh? && reply.response.status == handler.status && reply.response.body == handler.body
        && LastWins(handler.headers, reply.response.headers)
        && w'.cache == w.cache[k := Slot(codec.enc(reply.response), w.now + ttl)]
    }

    method CallHandler(r: nat, handler: Outcome, weather: nat -> Weather) returns (reply: Reply)
      requires Valid() && r in world.reqs && world.reqs[r].phase.Running?
      modifies this
      ensures Valid() && old(history) <= history
      ensures r in world.reqs && world.reqs[r] == old(world.reqs[r]).(phase := Answered(reply))
      ensures Calm(weather) ==> Handled(old(world), world, old(world.reqs[r].key), handler, reply)
    {
      Others(weather(2).others, r);
      if handler.Fails? {
        Do(HandlerFails(r));
        Cleanup(r, weather(3));
        return HandlerError;
      }
      reply := KeepResponse(r, handler, weather);
    }

    /** The handler returned: its response is recorded with its headers, and stored. */
    method KeepResponse(r: nat, handler: Outcome, weather: nat -> Weather) returns (reply: Reply)
      requires Valid() && r in world.reqs && world.reqs[r].phase.Running? && handler.Succeeds?
      modifies this
      ensures Valid() && old(history) <= history
      ensures r in world.reqs && world.reqs[r] == old(world.reqs[r]).(phase := Answered(reply))
      ensures Calm(weather) ==> Handled(old(world), world, old(world.reqs[r].key), handler, reply)
    {
      var headers := CollectHeaders(handler.headers);
      var stored := Response(handler.status, handler.body, headers);
      Do(HandlerSucceeds(r, stored));
      reply := Store(r, stored, weather(3), weather(4));
    }
  }
}
