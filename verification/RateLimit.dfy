/** The login limiter: a Redis counter per phone or address, incremented by every attempt and
    given one minute to live by the first. */
module RateLimit {
  import opened Options
  import opened GoStrings

  const MINUTE := 60_000  // milliseconds
  const DEFAULT_MAX := 5

  /** One key of the cache: its count, and when it expires, once that is set. */
  datatype Counter = Counter(count: nat, expires: Option<int>)

  /** An attempt whose count was within the limit: when, and in which lifetime of the counter. */
  datatype Admission = Admission(time: int, life: nat)

  /** `births` and `admitted` are history: when each lifetime began, and whose count was within the
      limit. */
  datatype State = State(counter: Option<Counter>, now: int, births: seq<int>, admitted: seq<Admission>)

  /** Attempt is an INCR that is carried out, whether or not its reply arrives. Expire is an EXPIRE
      that the first attempt of some lifetime sent, whenever and however often it arrives. */
  datatype Action = Wait(d: nat) | Attempt | Expire

  function Init(now: int): State { State(None, now, [], []) }

  predicate Live(s: State) {
    s.counter.Some? && (s.counter.value.expires.Some? ==> s.now < s.counter.value.expires.value)
  }

  /** INCR: an expired or missing key starts again at one, without a time to live. */
  function Incr(s: State): State {
    if Live(s) then s.(counter := Some(s.counter.value.(count := s.counter.value.count + 1)))
    else s.(counter := Some(Counter(1, None)), births := s.births + [s.now])
  }

  /** The number of the current lifetime. */
  function Latest(births: seq<int>): nat { if |births| == 0 then 0 else |births| - 1 }

  function Exec(max: nat, s: State, a: Action): State {
    match a
    case Wait(d) => s.(now := s.now + d)
    case Attempt =>
      var s' := Incr(s);
      if s'.counter.value.count > max then s'
      else s'.(admitted := s'.admitted + [Admission(s'.now, Latest(s'.births))])
    case Expire =>
      if Live(s) then
        s.(counter := Some(s.counter.value.(expires := Some(s.now + MINUTE))))
      else s
  }

  function Run(max: nat, s: State, schedule: seq<Action>): State {
    if |schedule| == 0 then s
    else Exec(max, Run(max, s, schedule[..|schedule| - 1]), schedule[|schedule| - 1])
  }

  predicate InWindow(time: int, start: int) { start <= time < start + 60_000 }

  /** The attempts admitted in the half-open minute that begins at `start`. */
  function Admitted(admitted: seq<Admission>, start: int): nat {
    if |admitted| == 0 then 0
    else
      var last := admitted[|admitted| - 1];
      Admitted(admitted[..|admitted| - 1], start) + if InWindow(last.time, start) then 1 else 0
  }

  /** The attempts admitted in one lifetime. */
  function OfLife(admitted: seq<Admission>, life: nat): nat {
    if |admitted| == 0 then 0
    else
      var last := admitted[|admitted| - 1];
      OfLife(admitted[..|admitted| - 1], life) + if last.life == life then 1 else 0
  }

  // ---- What every schedule keeps ----

  /** Lifetimes last a minute at least, and admissions lie inside their lifetime. */
  ghost predicate Timed(s: State) {
    && (s.counter.Some? <==> |s.births| > 0)
    && (s.counter.Some? ==> s.counter.value.count > 0)
    && (forall l | 0 <= l < |s.births| - 1 :: s.births[l] + MINUTE <= s.births[l + 1])
    && (|s.births| > 0 ==> s.births[|s.births| - 1] <= s.now)
    && (|s.births| > 0 && s.counter.value.expires.Some? ==>
          s.births[|s.births| - 1] + MINUTE <= s.counter.value.expires.value)
    && (forall a | a in s.admitted :: Inside(s, a))
  }

  ghost predicate Inside(s: State, a: Admission) {
    && a.life < |s.births| && s.births[a.life] <= a.time <= s.now
    && (a.life < |s.births| - 1 ==> a.time < s.births[a.life + 1])
    && (a.life == |s.births| - 1 && s.counter.Some? && s.counter.value.expires.Some? ==>
          a.time < s.counter.value.expires.value)
  }

  /** No lifetime admits more than max, and each admits the attempt it was born with. */
  ghost predicate Counted(max: nat, s: State) {
    && (forall l: nat :: OfLife(s.admitted, l) <= max)
    && (|s.births| > 0 && s.counter.Some? ==> OfLife(s.admitted, |s.births| - 1) <= s.counter.value.count)
    && BornIn(s.births, s.admitted)
  }

  lemma {:induction false} OfLaterLife(admitted: seq<Admission>, life: nat)
    requires forall a | a in admitted :: a.life < life
    ensures OfLife(admitted, life) == 0
  {
    if |admitted| > 0 { OfLaterLife(admitted[..|admitted| - 1], life); }
  }

  lemma OfLifeAppend(admitted: seq<Admission>, a: Admission, life: nat)
    ensures OfLife(admitted + [a], life) == OfLife(admitted, life) + if a.life == life then 1 else 0
  {
    assert (admitted + [a])[..|admitted|] == admitted;
  }

  lemma IncrTimed(s: State)
    requires Timed(s)
    ensures Timed(Incr(s)) && Live(Incr(s)) && Incr(s).now == s.now && Incr(s).admitted == s.admitted
  {
    forall a | a in s.admitted ensures Inside(Incr(s), a) {
      assert Inside(s, a);
    }
  }

  lemma ExecTimed(max: nat, s: State, a: Action)
    requires Timed(s)
    ensures Timed(Exec(max, s, a))
  {
    var s' := Exec(max, s, a);
    if a.Attempt? { IncrTimed(s); }
    forall b | b in s'.admitted ensures Inside(s', b) {
      if b in s.admitted { assert Inside(s, b) && (a.Attempt? ==> Inside(Incr(s), b)); }
    }
  }

  /** Each lifetime was born with an attempt that was let through. */
  ghost predicate BornIn(births: seq<int>, admitted: seq<Admission>) {
    forall l | 0 <= l < |births| :: Admission(births[l], l) in admitted
  }

  lemma BornAppend(births: seq<int>, now: int, admitted: seq<Admission>)
    requires BornIn(births, admitted)
    ensures BornIn(births + [now], admitted + [Admission(now, |births|)])
  {
  }

  lemma BornMore(births: seq<int>, admitted: seq<Admission>, a: Admission)
    requires BornIn(births, admitted)
    ensures BornIn(births, admitted + [a])
  {
  }

  lemma OfLifeBounded(max: nat, admitted: seq<Admission>, a: Admission)
    requires forall l: nat :: OfLife(admitted, l) <= max
    requires OfLife(admitted, a.life) < max
    ensures forall l: nat :: OfLife(admitted + [a], l) <= max
  {
    forall l: nat ensures OfLife(admitted + [a], l) <= max {
      OfLifeAppend(admitted, a, l);
    }
  }

  /** An attempt on a counter that still lives. */
  lemma AttemptOnLive(max: nat, s: State)
    requires max > 0 && Timed(s) && Counted(max, s) && Live(s)
    ensures Counted(max, Exec(max, s, Attempt))
  {
    if s.counter.value.count + 1 <= max {
      var here := Admission(s.now, |s.births| - 1);
      OfLifeBounded(max, s.admitted, here);
      OfLifeAppend(s.admitted, here, |s.births| - 1);
      BornMore(s.births, s.admitted, here);
    }
  }

  /** An attempt that starts a new lifetime. */
  lemma AttemptOnNew(max: nat, s: State)
    requires max > 0 && Timed(s) && Counted(max, s) && !Live(s)
    ensures Counted(max, Exec(max, s, Attempt))
  {
    var here := Admission(s.now, |s.births|);
    forall a | a in s.admitted ensures a.life < |s.births| { assert Inside(s, a); }
    OfLaterLife(s.admitted, |s.births|);
    OfLifeBounded(max, s.admitted, here);
    OfLifeAppend(s.admitted, here, |s.births|);
    BornAppend(s.births, s.now, s.admitted);
  }

  lemma ExecCounted(max: nat, s: State, a: Action)
    requires max > 0 && Timed(s) && Counted(max, s)
    ensures Counted(max, Exec(max, s, a))
  {
    match a {
      case Attempt => if Live(s) { AttemptOnLive(max, s); } else { AttemptOnNew(max, s); }
      case Wait(_) =>
      case Expire =>
    }
  }

  ghost predicate Kept(max: nat, s: State) { max > 0 && Timed(s) && Counted(max, s) }

  lemma ExecKept(max: nat, s: State, a: Action)
    requires Kept(max, s)
    ensures Kept(max, Exec(max, s, a))
  {
    ExecTimed(max, s, a);
    ExecCounted(max, s, a);
  }

  lemma {:induction false} RunKeeps(max: nat, now: int, schedule: seq<Action>)
    requires max > 0
    ensures Kept(max, Run(max, Init(now), schedule))
  {
    if |schedule| > 0 {
      RunKeeps(max, now, schedule[..|schedule| - 1]);
      ExecKept(max, Run(max, Init(now), schedule[..|schedule| - 1]), schedule[|schedule| - 1]);
    }
  }

  // ---- The window ----

  lemma {:induction false} BirthsApart(s: State, l: nat, m: nat)
    requires Timed(s) && l < m < |s.births|
    ensures s.births[l] + MINUTE <= s.births[m]
  {
    if l < m - 1 { BirthsApart(s, l, m - 1); }
  }

  /** A minute meets at most two lifetimes, and they follow each other. */
  lemma TwoLives(s: State, start: int, a: Admission, b: Admission)
    requires Timed(s) && a in s.admitted && b in s.admitted
    requires InWindow(a.time, start) && InWindow(b.time, start)
    ensures b.life <= a.life + 1
    ensures b.life == a.life + 1 ==> s.births[a.life] < start
  {
    assert Inside(s, a) && Inside(s, b);
    if a.life + 1 < b.life { BirthsApart(s, a.life + 1, b.life); }
    if a.life < b.life { BirthsApart(s, a.life, b.life); }
  }

  /** One lifetime: all of its admissions, less one if one of them lies outside. */
  lemma {:induction false} OneLifeBound(admitted: seq<Admission>, start: int, life: nat, out: Option<Admission>)
    requires forall a | a in admitted && InWindow(a.time, start) :: a.life == life
    requires out.Some? ==> out.value in admitted && out.value.life == life && !InWindow(out.value.time, start)
    ensures Admitted(admitted, start) + (if out.Some? then 1 else 0) <= OfLife(admitted, life)
  {
    if |admitted| > 0 {
      var rest, last := admitted[..|admitted| - 1], admitted[|admitted| - 1];
      assert admitted == rest + [last];
      OneLifeBound(rest, start, life, if out.Some? && out.value in rest then out else None);
    }
  }

  /** Two lifetimes, the earlier of which was born before the window. */
  lemma {:induction false} TwoLivesBound(admitted: seq<Admission>, start: int, life: nat, out: Option<Admission>)
    requires forall a | a in admitted && InWindow(a.time, start) :: a.life == life || a.life == life + 1
    requires out.Some? ==> out.value in admitted && out.value.life == life && !InWindow(out.value.time, start)
    ensures Admitted(admitted, start) + (if out.Some? then 1 else 0)
            <= OfLife(admitted, life) + OfLife(admitted, life + 1)
  {
    if |admitted| > 0 {
      var rest, last := admitted[..|admitted| - 1], admitted[|admitted| - 1];
      assert admitted == rest + [last];
      TwoLivesBound(rest, start, life, if out.Some? && out.value in rest then out else None);
    }
  }

  /** Sliding window: whatever the arrivals, and however late EXPIRE comes if it comes at all,
      no minute admits more than 2 * max - 1 attempts. */
  lemma WindowBound(max: nat, now: int, schedule: seq<Action>, start: int)
    requires max > 0
    ensures Admitted(Run(max, Init(now), schedule).admitted, start) <= 2 * max - 1
  {
    RunKeeps(max, now, schedule);
    StateBound(max, Run(max, Init(now), schedule), start);
  }

  lemma StateBound(max: nat, s: State, start: int)
    requires Kept(max, s)
    ensures Admitted(s.admitted, start) <= 2 * max - 1
  {
    if Admitted(s.admitted, start) > 0 {
      var a := Earliest(s.admitted, start);
      forall c | c in s.admitted && InWindow(c.time, start)
        ensures c.life == a.life || (c.life == a.life + 1 && s.births[a.life] < start)
      {
        TwoLives(s, start, a, c);
      }
      assert Inside(s, a);
      if forall c | c in s.admitted && InWindow(c.time, start) :: c.life == a.life {
        OneLifeBound(s.admitted, start, a.life, None);
      } else {
        TwoLivesBound(s.admitted, start, a.life, Some(Admission(s.births[a.life], a.life)));
      }
    }
  }

  /** If anybody was admitted in the window, take somebody of the earliest lifetime. */
  lemma {:induction false} Earliest(admitted: seq<Admission>, start: int) returns (a: Admission)
    requires Admitted(admitted, start) > 0
    ensures a in admitted && InWindow(a.time, start)
    ensures forall b | b in admitted && InWindow(b.time, start) :: a.life <= b.life
  {
    var rest, last := admitted[..|admitted| - 1], admitted[|admitted| - 1];
    assert admitted == rest + [last];
    if Admitted(rest, start) > 0 {
      a := Earliest(rest, start);
      if InWindow(last.time, start) && last.life < a.life { a := last; }
    } else {
      NoneAdmitted(rest, start);
      a := last;
    }
  }

  lemma {:induction false} NoneAdmitted(admitted: seq<Admission>, start: int)
    requires Admitted(admitted, start) == 0
    ensures forall a | a in admitted :: !InWindow(a.time, start)
  {
    if |admitted| > 0 {
      NoneAdmitted(admitted[..|admitted| - 1], start);
      assert admitted == admitted[..|admitted| - 1] + [admitted[|admitted| - 1]];
    }
  }

  // ---- What a lost EXPIRE costs ----

  lemma RunOneMore(max: nat, s: State, schedule: seq<Action>, a: Action)
    ensures Run(max, s, schedule + [a]) == Exec(max, Run(max, s, schedule), a)
  {
    assert (schedule + [a])[..|schedule|] == schedule;
  }

  /** Neither an attempt nor time changes a full counter that never expires. */
  lemma {:induction false} FullForever(max: nat, s: State, schedule: seq<Action>)
    requires s.counter.Some? && s.counter.value.count >= max && s.counter.value.expires.None?
    requires Expire !in schedule
    ensures var s' := Run(max, s, schedule);
            && s'.admitted == s.admitted
            && s'.counter.Some? && s'.counter.value.count >= max && s'.counter.value.expires.None?
  {
    if |schedule| > 0 {
      assert schedule[|schedule| - 1] in schedule;
      FullForever(max, s, schedule[..|schedule| - 1]);
    }
  }

  /** The key can be let through again without a further EXPIRE. */
  ghost predicate Recovers(max: nat, s: State) {
    exists schedule :: Expire !in schedule && |Run(max, s, schedule).admitted| > |s.admitted|
  }

  /** A live counter at its limit lets somebody through again exactly if its EXPIRE has arrived. The
      middleware sends it once, with the first attempt, and does not look at the result: if it is
      lost, the key is locked out for good. */
  lemma LockedOutIff(max: nat, s: State)
    requires max > 0 && Live(s) && s.counter.value.count >= max
    ensures Recovers(max, s) <==> s.counter.value.expires.Some?
  {
    if s.counter.value.expires.Some? {
      var d := s.counter.value.expires.value - s.now;
      var schedule := [Wait(d)] + [Attempt];
      RunOneMore(max, s, [], Wait(d));
      assert [] + [Wait(d)] == [Wait(d)];
      RunOneMore(max, s, [Wait(d)], Attempt);
      assert Expire !in schedule;
      assert |Run(max, s, schedule).admitted| == |s.admitted| + 1;
    } else {
      forall schedule | Expire !in schedule ensures |Run(max, s, schedule).admitted| <= |s.admitted| {
        FullForever(max, s, schedule);
      }
    }
  }

  // ---- The bound is reached ----

  function Attempts(n: nat): seq<Action> { seq(n, i => Attempt) }

  lemma {:induction false} RunConcat(max: nat, s: State, before: seq<Action>, after: seq<Action>)
    ensures Run(max, s, before + after) == Run(max, Run(max, s, before), after)
  {
    if |after| == 0 {
      assert before + after == before;
    } else {
      assert (before + after)[..|before + after| - 1] == before + after[..|after| - 1];
      RunConcat(max, s, before, after[..|after| - 1]);
    }
  }

  lemma AdmittedAppend(admitted: seq<Admission>, a: Admission, start: int)
    ensures Admitted(admitted + [a], start) == Admitted(admitted, start) + if InWindow(a.time, start) then 1 else 0
  {
    assert (admitted + [a])[..|admitted|] == admitted;
  }

  /** n more attempts are counted and admitted, and nothing else changes. */
  ghost predicate Grown(s: State, s': State, n: nat, start: int) {
    && s.counter.Some? && s'.counter == Some(s.counter.value.(count := s.counter.value.count + n))
    && s'.now == s.now && s'.births == s.births
    && Admitted(s'.admitted, start) == Admitted(s.admitted, start) + n
  }

  lemma OneInBurst(max: nat, s: State, start: int)
    requires Live(s) && |s.births| > 0 && s.counter.value.count < max && InWindow(s.now, start)
    ensures Grown(s, Exec(max, s, Attempt), 1, start)
  {
    AdmittedAppend(s.admitted, Admission(s.now, |s.births| - 1), start);
  }

  /** n attempts at one moment on a live counter with room for them are all admitted. */
  lemma {:induction false} Burst(max: nat, s: State, n: nat, start: int)
    requires Live(s) && |s.births| > 0 && s.counter.value.count + n <= max && InWindow(s.now, start)
    ensures Grown(s, Run(max, s, Attempts(n)), n, start)
  {
    if n > 0 {
      Burst(max, s, n - 1, start);
      assert Attempts(n) == Attempts(n - 1) + [Attempt];
      RunOneMore(max, s, Attempts(n - 1), Attempt);
      OneInBurst(max, Run(max, s, Attempts(n - 1)), start);
    }
  }

  lemma RunFour(max: nat, s: State, a: seq<Action>, b: seq<Action>, c: seq<Action>, d: seq<Action>)
    ensures Run(max, s, a + b + c + d) == Run(max, Run(max, Run(max, Run(max, s, a), b), c), d)
  {
    RunConcat(max, s, a, b);
    RunConcat(max, s, a + b, c);
    RunConcat(max, s, a + b + c, d);
  }

  /** One early attempt, a burst at the end of its minute and a full burst in the next: the
      window bound cannot be lowered for any limit. */
  lemma WindowBoundTight(max: nat)
    requires max > 0
    ensures exists schedule ::
              Admitted(Run(max, Init(0), schedule).admitted, MINUTE - 1) == 2 * max - 1
  {
    var s1 := FirstMinute(max);
    Burst(max, s1, max - 1, MINUTE - 1);
    var s2 := Run(max, s1, Attempts(max - 1));
    var s3 := SecondMinute(max, s2);
    Burst(max, s3, max - 1, MINUTE - 1);
    RunFour(max, Init(0), FIRST, Attempts(max - 1), SECOND, Attempts(max - 1));
  }

  const FIRST: seq<Action> := [Attempt] + [Expire] + [Wait(MINUTE - 1)]
  const SECOND: seq<Action> := [Wait(1)] + [Attempt]

  lemma FirstMinute(max: nat) returns (s: State)
    requires max > 0
    ensures s == Run(max, Init(0), FIRST)
    ensures s == State(Some(Counter(1, Some(MINUTE))), MINUTE - 1, [0], [Admission(0, 0)])
    ensures Admitted(s.admitted, MINUTE - 1) == 0
  {
    RunOneMore(max, Init(0), [], Attempt);
    assert [] + [Attempt] == [Attempt];
    RunOneMore(max, Init(0), [Attempt], Expire);
    RunOneMore(max, Init(0), [Attempt] + [Expire], Wait(MINUTE - 1));
    s := Run(max, Init(0), [Attempt] + [Expire] + [Wait(MINUTE - 1)]);
    AdmittedAppend([], Admission(0, 0), MINUTE - 1);
    assert [] + [Admission(0, 0)] == [Admission(0, 0)];
  }

  lemma SecondMinute(max: nat, s: State) returns (s': State)
    requires max > 0 && s.now == MINUTE - 1 && s.counter.Some? && s.counter.value.expires == Some(MINUTE)
    ensures s' == Run(max, s, SECOND)
    ensures Live(s') && s'.now == MINUTE && s'.counter == Some(Counter(1, None)) && |s'.births| > 0
    ensures Admitted(s'.admitted, MINUTE - 1) == Admitted(s.admitted, MINUTE - 1) + 1
  {
    RunOneMore(max, s, [], Wait(1));
    assert [] + [Wait(1)] == [Wait(1)];
    RunOneMore(max, s, [Wait(1)], Attempt);
    s' := Run(max, s, [Wait(1)] + [Attempt]);
    AdmittedAppend(s.admitted, Admission(MINUTE, |s.births|), MINUTE - 1);
  }

  // ---- The handler ----

  /** maxPerMin as the constructor takes it. */
  function Limit(maxPerMin: int): (max: nat)
    ensures max > 0
    ensures if maxPerMin > 0 then max == maxPerMin else max == 5
  {
    if maxPerMin <= 0 then DEFAULT_MAX else maxPerMin
  }

  /** How a command to the cache goes: done; not done, with an error; or done, but the reply is lost
      and the middleware sees an error. */
  datatype Effect = Works | Fails | Lost

  /** What a counted attempt does to its counter. Only the first attempt of a lifetime sets an
      expiry, if its EXPIRE arrives. */
  ghost predicate Served(max: nat, s: State, s': State, expires: bool) {
    && s'.counter.Some? && s'.now == s.now
    && s'.counter.value == (if Live(s) then s.counter.value.(count := s.counter.value.count + 1)
                            else Counter(1, if expires then Some(s.now + 60_000) else None))
    && s'.births == (if Live(s) then s.births else s.births + [s.now])
    && s'.admitted == s.admitted
                    + (if s'.counter.value.count <= max then [Admission(s.now, Latest(s'.births))] else [])
  }

  lemma AttemptServed(max: nat, s: State, expires: bool)
    requires Kept(max, s)
    ensures var s1 := Exec(max, s, Attempt);
            var s2 := if s1.counter.value.count == 1 && expires then Exec(max, s1, Expire) else s1;
            Served(max, s, s2, expires)
  {
  }

  /** Every key has its own counter, and all counters keep what every schedule keeps. */
  ghost predicate AllKept(max: nat, keys: map<string, State>, now: int) {
    max > 0 && forall k :: k in keys ==> keys[k].now <= now && Kept(max, keys[k])
  }

  lemma KeyUpdated(max: nat, keys: map<string, State>, now: int, key: string, s: State)
    requires AllKept(max, keys, now) && s.now == now && Kept(max, s)
    ensures AllKept(max, keys[key := s], now)
  {
  }

  class LoginRateLimiter {
    const max: nat
    var keys: map<string, State>
    var now: int

    ghost predicate Valid()
      reads this
    {
      AllKept(max, keys, now)
    }

    constructor (maxPerMin: int, now: int)
      ensures Valid() && max == Limit(maxPerMin) && keys == map[] && this.now == now
    {
      max, keys, this.now := Limit(maxPerMin), map[], now;
    }

    method Pass(d: nat)
      requires Valid()
      modifies this`now
      ensures Valid() && now == old(now) + d
    {
      now := now + d;
    }

    /** The counter of a key as it is now. */
    method Counting(key: string) returns (s: State)
      requires Valid()
      ensures s.now == now && Kept(max, s)
      ensures if key in keys then s == keys[key].(now := now) else s == Init(now)
    {
      if key in keys {
        s := Exec(max, keys[key], Wait(now - keys[key].now));
        ExecKept(max, keys[key], Wait(now - keys[key].now));
      } else {
        s := Init(now);
        RunKeeps(max, now, []);
      }
    }

    /** INCR, and EXPIRE after the first. */
    method Count(before: State, expires: bool) returns (s: State)
      requires max > 0 && Kept(max, before)
      ensures Kept(max, s) && Served(max, before, s, expires)
    {
      AttemptServed(max, before, expires);
      ExecKept(max, before, Attempt);
      s := Exec(max, before, Attempt);
      if s.counter.value.count == 1 && expires {
        ExecKept(max, s, Expire);
        s := Exec(max, s, Expire);
      }
    }

    /** The counter of a key as an attempt finds it. */
    function Before(key: string): State
      reads this
    {
      if key in keys then keys[key].(now := now) else Init(now)
    }

    /** An attempt that is counted on its key. */
    method CountOn(key: string, expires: bool) returns (count: nat)
      requires Valid()
      modifies this`keys
      ensures Valid()
      ensures key in keys && keys == old(keys)[key := keys[key]]
      ensures Served(max, old(Before(key)), keys[key], expires) && count == keys[key].counter.value.count
    {
      var before := Counting(key);
      var s := Count(before, expires);
      KeyUpdated(max, keys, now, key, s);
      keys := keys[key := s];
      count := s.counter.value.count;
    }

    /** One login attempt. `incr` says how the INCR goes, and `expires` is false when the EXPIRE is
        lost; without a reply to INCR there is none, and the attempt is let through. */
    method Login(phone: string, ip: string, incr: Effect, expires: bool) returns (allowed: bool, key: string)
      requires Valid()
      modifies this`keys
      ensures Valid()
      ensures key == "rl:login:" + if TrimSpace(phone) == "" then ip else TrimSpace(phone)
      ensures incr.Fails? ==> allowed && keys == old(keys)
      ensures !incr.Fails? ==>
                && key in keys && keys == old(keys)[key := keys[key]]
                && Served(max, old(Before(key)), keys[key], expires && incr.Works?)
                && (allowed <==> incr.Lost? || keys[key].counter.value.count <= max)
    {
      var trimmed := TrimSpace(phone);
      key := "rl:login:" + if trimmed == "" then ip else trimmed;
      if incr.Fails? { return true, key; }
      var count := CountOn(key, expires && incr.Works?);
      allowed := incr.Lost? || count <= max;
    }

    /** The window bound, for every key at any time. */
    lemma KeyBound(key: string, start: int)
      requires Valid() && key in keys
      ensures Admitted(keys[key].admitted, start) <= 2 * max - 1
    {
      StateBound(max, keys[key], start);
    }
  }
}
