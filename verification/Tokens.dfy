/** Token versions over whole runs: registration, login, refresh and logout, with the version
    of a presented token read back from JSON as a float64. */
module Tokens {
  import opened Options
  import opened Identity

  const TWO_53 := 0x20_0000_0000_0000

  // ---- The float64 trip of a version number ----

  /** The distance of neighbouring doubles around v: 1 below 2^53, and twice as much for every
      further bit of v. */
  function Ulp(v: nat, u: nat): (r: nat)
    requires u > 0
    ensures r >= u
    ensures v < TWO_53 * u ==> r == u
    ensures v < TWO_53 * r
    ensures r > u ==> TWO_53 * (r / 2) <= v
    decreases if v > u then v - u else 0
  {
    if v < TWO_53 * u then u else Ulp(v, 2 * u)
  }

  /** int(float64(v)): the nearest double, and of two equally near ones the even one. */
  function Float(v: nat): (r: nat)
    ensures v < TWO_53 ==> r == v
  {
    var u := Ulp(v, 1);
    var below := v - v % u;
    if 2 * (v % u) < u || (2 * (v % u) == u && v / u % 2 == 0) then below else below + u
  }

  function Pow2(k: nat): (r: nat)
    ensures r > 0
  {
    if k == 0 then 1 else 2 * Pow2(k - 1)
  }

  /** A whole number that a float64 holds: 53 bits, and a power of two. */
  predicate IsDouble(w: nat, mantissa: nat, k: nat) { mantissa < TWO_53 && w == mantissa * Pow2(k) }

  lemma {:induction false} UlpIsPower(v: nat, k: nat) returns (n: nat)
    ensures Ulp(v, Pow2(k)) == Pow2(n) && n >= k
    decreases if v > Pow2(k) then v - Pow2(k) else 0
  {
    if v < TWO_53 * Pow2(k) {
      n := k;
    } else {
      assert Pow2(k + 1) == 2 * Pow2(k);
      n := UlpIsPower(v, k + 1);
    }
  }

  lemma {:induction false} PowersDivide(j: nat, k: nat) returns (q: nat)
    requires j <= k
    ensures q > 0 && Pow2(k) == q * Pow2(j)
  {
    if j == k {
      q := 1;
    } else {
      var h := PowersDivide(j, k - 1);
      q := 2 * h;
    }
  }

  lemma {:induction false} PowersGrow(j: nat, k: nat)
    requires j < k
    ensures 2 * Pow2(j) <= Pow2(k)
  {
    if j + 1 < k { PowersGrow(j, k - 1); }
  }

  /** No double lies strictly between the two neighbours of v. */
  lemma NoneBetween(v: nat, w: nat, mantissa: nat, k: nat)
    requires IsDouble(w, mantissa, k)
    ensures var u := Ulp(v, 1); w <= v - v % u || w >= v - v % u + u
  {
    var u := Ulp(v, 1);
    var n := UlpIsPower(v, 0);
    if n <= k {
      var q := PowersDivide(n, k);
      MultiplesApart(v, u, mantissa * q);
      assert w == mantissa * q * u by { Associate(mantissa, q, u); }
    } else {
      PowersGrow(k, n);
      SmallIsBelow(v, u, mantissa, Pow2(k));
    }
  }

  lemma Associate(a: nat, b: nat, c: nat)
    ensures a * (b * c) == a * b * c
  {
  }

  lemma MultiplesApart(v: nat, u: nat, q: nat)
    requires u > 0
    ensures q * u <= v - v % u || q * u >= v - v % u + u
  {
    var d := v / u;
    assert v - v % u == d * u;
    if q <= d { Monotone(q, d, u); } else { Monotone(d + 1, q, u); }
  }

  lemma Monotone(a: nat, b: nat, u: nat)
    requires a <= b
    ensures a * u <= b * u
  {
  }

  /** With a finer grain there are 53 bits only below the binade of v. */
  lemma SmallIsBelow(v: nat, u: nat, mantissa: nat, grain: nat)
    requires u == Ulp(v, 1) && mantissa < TWO_53 && 2 * grain <= u && u > 1
    ensures mantissa * grain <= v - v % u
  {
    Monotone(mantissa, TWO_53, grain);
    var half := TWO_53 / 2;
    assert TWO_53 * grain == half * (2 * grain) <= half * u;
    assert half * u == TWO_53 * (u / 2) || u % 2 == 1;
    var n := UlpIsPower(v, 0);
    assert half * u <= v;
    MultiplesApart(v, u, half);
  }

  function Abs(x: int): nat { if x < 0 then -x else x }

  /** The version that is read back is a double, no double is nearer, and it is the even one of two
      that are equally near. */
  lemma FloatIsNearest(v: nat, w: nat, mantissa: nat, k: nat)
    requires IsDouble(w, mantissa, k)
    ensures Abs(Float(v) - v) <= Abs(w - v)
    ensures Abs(Float(v) - v) == Abs(w - v) && Float(v) != w ==> Float(v) / Ulp(v, 1) % 2 == 0
  {
    NoneBetween(v, w, mantissa, k);
    TieIsEven(v);
  }

  lemma TieIsEven(v: nat)
    ensures var u := Ulp(v, 1); 2 * (v % u) == u ==> Float(v) / u % 2 == 0
  {
    var u := Ulp(v, 1);
    var d := v / u;
    if 2 * (v % u) == u {
      if d % 2 == 0 {
        Quotient(d, u, v - v % u);
      } else {
        Quotient(d + 1, u, v - v % u + u);
      }
    }
  }

  lemma Quotient(d: nat, u: nat, x: nat)
    requires u > 0 && x == d * u
    ensures x / u == d
  {
    var q := x / u;
    if q < d { Monotone(q + 1, d, u); }
    if q > d { Monotone(d + 1, q, u); }
  }

  /** What is read back is a double. */
  lemma FloatIsDouble(v: nat) returns (mantissa: nat, k: nat)
    ensures IsDouble(Float(v), mantissa, k)
  {
    var u := Ulp(v, 1);
    k := UlpIsPower(v, 0);
    var d := v / u;
    assert v - v % u == d * u && d < TWO_53 by { if d >= TWO_53 { Monotone(TWO_53, d, u); } }
    if Float(v) == d * u {
      mantissa := d;
    } else if d + 1 < TWO_53 {
      mantissa := d + 1;
    } else {
      mantissa, k := TWO_53 / 2, k + 1;
      assert TWO_53 * u == (TWO_53 / 2) * (2 * u);
    }
  }

  // ---- The machine ----

  datatype Kind = Access | Refresh

  /** The claims a token is signed over, as written. */
  datatype Token = Token(kind: Kind, sub: string, ver: nat)

  datatype State = State(users: Users, issued: set<Token>)

  const INIT := State(map[], {})

  /** Logout is one atomic step here. */
  datatype Action =
    | Register(creds: Credentials, uuid: string, hash: Option<string>)
    | Login(creds: Credentials)
    | RefreshWith(token: Token)
    | Logout(userId: string)

  ghost function VersionOf(users: Users, id: string): nat
    requires HasId(users, id)
  {
    users[PhoneOf(users, id)].tokenVersion
  }

  /** The test that Refresh and JWTAuth share, after the signature. */
  ghost predicate Accepts(users: Users, token: Token) {
    HasId(users, token.sub) && VersionOf(users, token.sub) == Float(token.ver)
  }

  ghost function Exec(check: Check, s: State, a: Action): State {
    match a
    case Register(creds, uuid, hash) =>
      if HasId(s.users, uuid) then s else s.(users := RegisterUser(s.users, creds, uuid, hash).0)
    case Login(creds) =>
      var (users, result) := AuthenticateUser(check, s.users, creds);
      if !result.Ok? then s.(users := users)
      else
        var user := result.value;
        State(users, s.issued + {Token(Access, user.id, user.tokenVersion), Token(Refresh, user.id, user.tokenVersion)})
    case RefreshWith(token) =>
      if token in s.issued && token.kind == Refresh && Accepts(s.users, token) then
        s.(issued := s.issued + {Token(Access, token.sub, Float(token.ver))})
      else s
    case Logout(id) =>
      if !HasId(s.users, id) then s
      else
        var p := PhoneOf(s.users, id);
        s.(users := s.users[p := s.users[p].(tokenVersion := s.users[p].tokenVersion + 1)])
  }

  ghost function Run(check: Check, s: State, schedule: seq<Action>): State {
    if |schedule| == 0 then s
    else Exec(check, Run(check, s, schedule[..|schedule| - 1]), schedule[|schedule| - 1])
  }

  // ---- What every run keeps ----

  /** Users stay, with their id and PIN; a bound device stays; versions never decrease. */
  ghost predicate Grows(users: Users, users': Users) {
    forall p :: p in users ==>
      && p in users' && users'[p].id == users[p].id && users'[p].pinHash == users[p].pinHash
      && (users[p].deviceId != "" ==> users'[p].deviceId == users[p].deviceId)
      && users[p].tokenVersion <= users'[p].tokenVersion
  }

  /** No issued token is ahead of its user. */
  ghost predicate Inv(s: State) {
    && WellFiled(s.users)
    && forall t | t in s.issued :: HasId(s.users, t.sub) && t.ver <= VersionOf(s.users, t.sub)
  }

  lemma FiledAt(users: Users, p: string)
    requires WellFiled(users) && p in users
    ensures HasId(users, users[p].id) && PhoneOf(users, users[p].id) == p
  {
  }

  lemma GrowsVersion(users: Users, users': Users, id: string)
    requires WellFiled(users') && Grows(users, users') && HasId(users, id)
    ensures HasId(users', id) && VersionOf(users, id) <= VersionOf(users', id)
  {
    FiledAt(users', PhoneOf(users, id));
  }

  lemma UpdateGrows(users: Users, p: string, user: User)
    requires WellFiled(users) && p in users
    requires user.id == users[p].id && user.phone == p && user.pinHash == users[p].pinHash
    requires users[p].deviceId != "" ==> user.deviceId == users[p].deviceId
    requires users[p].tokenVersion <= user.tokenVersion
    ensures WellFiled(users[p := user]) && Grows(users, users[p := user])
  {
  }

  lemma AddGrows(users: Users, user: User)
    requires WellFiled(users) && user.phone !in users && !HasId(users, user.id)
    ensures WellFiled(users[user.phone := user]) && Grows(users, users[user.phone := user])
  {
    assert forall p :: p in users ==> users[p].id != user.id;
  }

  lemma RegisterAdds(users: Users, creds: Credentials, uuid: string, hash: Option<string>)
    ensures var (users', result) := RegisterUser(users, creds, uuid, hash);
            if result.Ok? then
              && result.value.phone !in users && result.value.id == uuid
              && users' == users[result.value.phone := result.value]
            else users' == users
  {
  }

  lemma RegisterGrows(users: Users, creds: Credentials, uuid: string, hash: Option<string>)
    requires WellFiled(users) && !HasId(users, uuid)
    ensures var users' := RegisterUser(users, creds, uuid, hash).0; WellFiled(users') && Grows(users, users')
  {
    RegisterAdds(users, creds, uuid, hash);
    if RegisterUser(users, creds, uuid, hash).1.Ok? { AddGrows(users, RegisterUser(users, creds, uuid, hash).1.value); }
  }

  lemma ExecGrows(check: Check, s: State, a: Action)
    requires WellFiled(s.users)
    ensures WellFiled(Exec(check, s, a).users) && Grows(s.users, Exec(check, s, a).users)
  {
    match a {
      case Register(creds, uuid, hash) => if !HasId(s.users, uuid) { RegisterGrows(s.users, creds, uuid, hash); }
      case Login(creds) => LoginGrows(check, s.users, creds);
      case RefreshWith(_) =>
      case Logout(id) =>
        if HasId(s.users, id) {
          var p := PhoneOf(s.users, id);
          UpdateGrows(s.users, p, s.users[p].(tokenVersion := s.users[p].tokenVersion + 1));
        }
    }
  }

  lemma LoginGrows(check: Check, users: Users, creds: Credentials)
    requires WellFiled(users)
    ensures var users' := AuthenticateUser(check, users, creds).0; WellFiled(users') && Grows(users, users')
  {
    var users' := AuthenticateUser(check, users, creds).0;
    if users' != users {
      var p := NormalizePhone(creds.phone).value;
      UpdateGrows(users, p, users[p].(deviceId := creds.deviceId));
    }
  }

  /** A login answers with the stored user's id and version. */
  lemma LoginVersion(check: Check, users: Users, creds: Credentials)
    requires WellFiled(users) && AuthenticateUser(check, users, creds).1.Ok?
    ensures var (users', result) := AuthenticateUser(check, users, creds);
            HasId(users', result.value.id) && VersionOf(users', result.value.id) == result.value.tokenVersion
  {
    var (users', result) := AuthenticateUser(check, users, creds);
    var p := NormalizePhone(creds.phone).value;
    LoginGrows(check, users, creds);
    assert p in users' && users'[p].id == result.value.id && users'[p].tokenVersion == result.value.tokenVersion;
    FiledAt(users', p);
  }

  lemma KnownTokens(users: Users, users': Users, issued: set<Token>)
    requires Inv(State(users, issued)) && WellFiled(users') && Grows(users, users')
    ensures Inv(State(users', issued))
  {
    forall t | t in issued ensures HasId(users', t.sub) && t.ver <= VersionOf(users', t.sub) {
      GrowsVersion(users, users', t.sub);
    }
  }

  lemma ExecKeepsInv(check: Check, s: State, a: Action)
    requires Inv(s)
    ensures Inv(Exec(check, s, a))
  {
    var s' := Exec(check, s, a);
    ExecGrows(check, s, a);
    KnownTokens(s.users, s'.users, s.issued);
    if a.Login? && AuthenticateUser(check, s.users, a.creds).1.Ok? { LoginVersion(check, s.users, a.creds); }
  }

  /** Over every run: users stay, versions never decrease, a bound device never changes, and no
      issued token carries a version above its user's. */
  lemma {:induction false} RunKeeps(check: Check, s: State, schedule: seq<Action>)
    requires Inv(s)
    ensures Inv(Run(check, s, schedule)) && Grows(s.users, Run(check, s, schedule).users)
  {
    if |schedule| > 0 {
      var mid := Run(check, s, schedule[..|schedule| - 1]);
      RunKeeps(check, s, schedule[..|schedule| - 1]);
      ExecKeepsInv(check, mid, schedule[|schedule| - 1]);
      ExecGrows(check, mid, schedule[|schedule| - 1]);
    }
  }

  lemma LogoutBumps(check: Check, s: State, id: string)
    requires Inv(s) && HasId(s.users, id)
    ensures var s' := Exec(check, s, Logout(id));
            HasId(s'.users, id) && VersionOf(s'.users, id) == VersionOf(s.users, id) + 1
  {
    ExecGrows(check, s, Logout(id));
    FiledAt(Exec(check, s, Logout(id)).users, PhoneOf(s.users, id));
  }

  // ---- Invalidation ----

  /** Below 2^53 versions: a token issued before a logout is refused ever after. */
  lemma LoggedOutStaysOut(check: Check, s: State, token: Token, schedule: seq<Action>)
    requires Inv(s) && token in s.issued && token.ver < TWO_53
    ensures !Accepts(Run(check, Exec(check, s, Logout(token.sub)), schedule).users, token)
  {
    var s1 := Exec(check, s, Logout(token.sub));
    LogoutBumps(check, s, token.sub);
    ExecKeepsInv(check, s, Logout(token.sub));
    RunKeeps(check, s1, schedule);
    GrowsVersion(s1.users, Run(check, s1, schedule).users, token.sub);
  }

  function Logouts(id: string, n: nat): seq<Action> { seq(n, i => Logout(id)) }

  lemma {:induction false} ManyLogouts(check: Check, s: State, id: string, n: nat)
    requires Inv(s) && HasId(s.users, id)
    ensures var s' := Run(check, s, Logouts(id, n));
            Inv(s') && HasId(s'.users, id) && VersionOf(s'.users, id) == VersionOf(s.users, id) + n
  {
    if n > 0 {
      ManyLogouts(check, s, id, n - 1);
      assert Logouts(id, n)[..n - 1] == Logouts(id, n - 1);
      LogoutBumps(check, Run(check, s, Logouts(id, n - 1)), id);
      ExecKeepsInv(check, Run(check, s, Logouts(id, n - 1)), Logout(id));
    }
  }

  /** For any version: an issued token can be accepted again after a logout exactly when the
      float64 trip carries its version above the one its user had. */
  lemma RevivedIff(check: Check, s: State, token: Token)
    requires Inv(s) && token in s.issued
    ensures (exists schedule :: Accepts(Run(check, Exec(check, s, Logout(token.sub)), schedule).users, token))
            <==> Float(token.ver) > VersionOf(s.users, token.sub)
  {
    var s1 := Exec(check, s, Logout(token.sub));
    LogoutBumps(check, s, token.sub);
    ExecKeepsInv(check, s, Logout(token.sub));
    if Float(token.ver) > VersionOf(s.users, token.sub) {
      var n := Float(token.ver) - VersionOf(s1.users, token.sub);
      ManyLogouts(check, s1, token.sub, n);
      assert Accepts(Run(check, s1, Logouts(token.sub, n)).users, token);
    } else {
      forall schedule ensures !Accepts(Run(check, s1, schedule).users, token) {
        RunKeeps(check, s1, schedule);
        GrowsVersion(s1.users, Run(check, s1, schedule).users, token.sub);
      }
    }
  }

  /** Such versions exist: 2^53 + 3 lies between two doubles and is read as 2^53 + 4. */
  lemma LargeVersionMoves()
    ensures Float(TWO_53 + 3) == TWO_53 + 4
  {
    assert Ulp(TWO_53 + 3, 1) == Ulp(TWO_53 + 3, 2);
  }

  /** A login that succeeds issues tokens that are accepted until the next logout, whatever
      other users, logins and refreshes do, as long as the trip is exact. */
  lemma {:induction false} AcceptedUntilLogout(check: Check, s: State, token: Token, schedule: seq<Action>)
    requires Inv(s) && Accepts(s.users, token)
    requires forall a :: a in schedule ==> a != Logout(token.sub)
    ensures Accepts(Run(check, s, schedule).users, token)
  {
    if |schedule| > 0 {
      var before, a := schedule[..|schedule| - 1], schedule[|schedule| - 1];
      assert a in schedule && forall b :: b in before ==> b in schedule;
      AcceptedUntilLogout(check, s, token, before);
      RunKeeps(check, s, before);
      OtherActionsKeepVersion(check, Run(check, s, before), a, token.sub);
    }
  }

  lemma OtherActionsKeepVersion(check: Check, s: State, a: Action, id: string)
    requires Inv(s) && HasId(s.users, id) && a != Logout(id)
    ensures var s' := Exec(check, s, a); HasId(s'.users, id) && VersionOf(s'.users, id) == VersionOf(s.users, id)
  {
    var p := PhoneOf(s.users, id);
    var s' := Exec(check, s, a);
    ExecGrows(check, s, a);
    FiledAt(s'.users, p);
    if a.Logout? && HasId(s.users, a.userId) { assert PhoneOf(s.users, a.userId) != p; }
  }

  // ---- Reaching a revival ----

  lemma {:induction false} RunConcat(check: Check, s: State, before: seq<Action>, after: seq<Action>)
    ensures Run(check, s, before + after) == Run(check, Run(check, s, before), after)
  {
    if |after| == 0 {
      assert before + after == before;
    } else {
      assert (before + after)[..|before + after| - 1] == before + after[..|after| - 1];
      RunConcat(check, s, before, after[..|after| - 1]);
    }
  }

  /** Registering, 2^53 + 3 logouts and a login, from an empty store. */
  function TowardsRevival(creds: Credentials, uuid: string, hash: string): seq<Action> {
    [Register(creds, uuid, Some(hash))] + Logouts(uuid, TWO_53 + 3) + [Login(creds)]
  }

  /** So the token of that login can be accepted after the user's next logout. */
  lemma RevivalIsReachable(check: Check, creds: Credentials, uuid: string, hash: string)
    requires RegisterUser(map[], creds, uuid, Some(hash)).1.Ok? && creds.deviceId != "" && check(hash, creds.pin)
    ensures var s := Run(check, INIT, TowardsRevival(creds, uuid, hash));
            var token := Token(Access, uuid, TWO_53 + 3);
            && Inv(s) && token in s.issued
            && exists schedule :: Accepts(Run(check, Exec(check, s, Logout(uuid)), schedule).users, token)
  {
    var a := Register(creds, uuid, Some(hash));
    var s1, s2 := FirstUser(check, creds, uuid, hash);
    RunConcat(check, INIT, [a], Logouts(uuid, TWO_53 + 3));
    RunConcat(check, INIT, [a] + Logouts(uuid, TWO_53 + 3), [Login(creds)]);
    LoginIssues(check, s2, creds, uuid);
    RunSingle(check, s2, Login(creds));
    RunSingle(check, INIT, a);
    var s := Exec(check, s2, Login(creds));
    LargeVersionMoves();
    RevivedIff(check, s, Token(Access, uuid, TWO_53 + 3));
  }

  lemma RunSingle(check: Check, s: State, a: Action)
    ensures Run(check, s, [a]) == Exec(check, s, a)
  {
    assert [a][..0] == [];
  }

  /** The user after registration, and after the logouts. */
  lemma FirstUser(check: Check, creds: Credentials, uuid: string, hash: string) returns (s1: State, s2: State)
    requires RegisterUser(map[], creds, uuid, Some(hash)).1.Ok? && creds.deviceId != "" && check(hash, creds.pin)
    ensures s1 == Exec(check, INIT, Register(creds, uuid, Some(hash)))
    ensures s2 == Run(check, s1, Logouts(uuid, TWO_53 + 3)) && Inv(s2)
    ensures HasId(s2.users, uuid) && VersionOf(s2.users, uuid) == TWO_53 + 3
    ensures AuthenticateUser(check, s2.users, creds).1.Ok? && AuthenticateUser(check, s2.users, creds).1.value.id == uuid
  {
    s1 := Exec(check, INIT, Register(creds, uuid, Some(hash)));
    var phone := NormalizePhone(creds.phone).value;
    ExecKeepsInv(check, INIT, Register(creds, uuid, Some(hash)));
    assert phone in s1.users && s1.users[phone] == User(uuid, phone, TIER_ZERO, hash, creds.deviceId, 0);
    FiledAt(s1.users, phone);
    ManyLogouts(check, s1, uuid, TWO_53 + 3);
    s2 := Run(check, s1, Logouts(uuid, TWO_53 + 3));
    RunKeeps(check, s1, Logouts(uuid, TWO_53 + 3));
  }

  lemma LoginIssues(check: Check, s: State, creds: Credentials, uuid: string)
    requires Inv(s) && HasId(s.users, uuid)
    requires AuthenticateUser(check, s.users, creds).1.Ok? && AuthenticateUser(check, s.users, creds).1.value.id == uuid
    ensures var s' := Exec(check, s, Login(creds));
            && Inv(s') && HasId(s'.users, uuid) && VersionOf(s'.users, uuid) == VersionOf(s.users, uuid)
            && Token(Access, uuid, VersionOf(s.users, uuid)) in s'.issued
  {
    ExecKeepsInv(check, s, Login(creds));
    LoginVersion(check, s.users, creds);
    OtherActionsKeepVersion(check, s, Login(creds), uuid);
  }

  // ---- The tier ----

  predicate AllLowest(users: Users) { forall p :: p in users ==> users[p].tier == TIER_ZERO }

  lemma ExecKeepsTiers(check: Check, s: State, a: Action)
    requires AllLowest(s.users)
    ensures AllLowest(Exec(check, s, a).users)
  {
  }

  /** The promotion that a login returns is never stored: over every run users that are all in the
      lowest tier stay there. */
  lemma {:induction false} TiersStay(check: Check, s: State, schedule: seq<Action>)
    requires AllLowest(s.users)
    ensures AllLowest(Run(check, s, schedule).users)
  {
    if |schedule| > 0 {
      TiersStay(check, s, schedule[..|schedule| - 1]);
      ExecKeepsTiers(check, Run(check, s, schedule[..|schedule| - 1]), schedule[|schedule| - 1]);
    }
  }

  // ---- Login after registration ----

  /** The device a user with this PIN hash is bound to after a run: the one registered with, or
      else the first one that a login with the right PIN presented. */
  function BoundDevice(check: Check, phone: string, hash: string, registered: string, schedule: seq<Action>)
    : (device: string)
    ensures registered != "" ==> device == registered
  {
    if |schedule| == 0 then registered
    else
      var device := BoundDevice(check, phone, hash, registered, schedule[..|schedule| - 1]);
      var a := schedule[|schedule| - 1];
      if device == "" && a.Login? && NormalizePhone(a.creds.phone) == Ok(phone) && check(hash, a.creds.pin)
      then a.creds.deviceId else device
  }

  lemma OneMoreAction(check: Check, s: State, a: Action, phone: string)
    requires Inv(s) && phone in s.users
    ensures var s' := Exec(check, s, a);
            && phone in s'.users
            && s'.users[phone].deviceId ==
                 if s.users[phone].deviceId == "" && a.Login? && NormalizePhone(a.creds.phone) == Ok(phone)
                    && check(s.users[phone].pinHash, a.creds.pin)
                 then a.creds.deviceId else s.users[phone].deviceId
  {
    match a {
      case Register(creds, uuid, hash) => RegisterAdds(s.users, creds, uuid, hash);
      case Login(creds) =>
      case RefreshWith(_) =>
      case Logout(_) =>
    }
  }

  lemma {:induction false} BoundByHistory(check: Check, s: State, phone: string, schedule: seq<Action>)
    requires Inv(s) && phone in s.users
    ensures var users := Run(check, s, schedule).users;
            && phone in users
            && users[phone].deviceId ==
                 BoundDevice(check, phone, s.users[phone].pinHash, s.users[phone].deviceId, schedule)
  {
    if |schedule| > 0 {
      var before := schedule[..|schedule| - 1];
      BoundByHistory(check, s, phone, before);
      RunKeeps(check, s, before);
      OneMoreAction(check, Run(check, s, before), schedule[|schedule| - 1], phone);
    }
  }

  /** After a registration, and any run since: any spelling of the number authenticates exactly
      with a PIN that matches the stored hash and a device that is the bound one or none; or, as
      long as none is bound, with any device but none. */
  lemma LoginAfterRegister(
    check: Check, s: State, creds: Credentials, uuid: string, hash: string, schedule: seq<Action>, again: Credentials)
    requires Inv(s) && !HasId(s.users, uuid)
    requires RegisterUser(s.users, creds, uuid, Some(hash)).1.Ok?
    requires NormalizePhone(again.phone) == NormalizePhone(creds.phone)
    ensures var users := Run(check, Exec(check, s, Register(creds, uuid, Some(hash))), schedule).users;
            var bound := BoundDevice(check, NormalizePhone(creds.phone).value, hash, creds.deviceId, schedule);
            var result := AuthenticateUser(check, users, again).1;
            && (result.Ok? <==>
                  && check(hash, again.pin)
                  && if bound == "" then again.deviceId != "" else again.deviceId in {"", bound})
            && (result.Ok? ==> result.value.id == uuid)
  {
    var s1 := Exec(check, s, Register(creds, uuid, Some(hash)));
    var phone := NormalizePhone(creds.phone).value;
    ExecKeepsInv(check, s, Register(creds, uuid, Some(hash)));
    RunKeeps(check, s1, schedule);
    assert phone in s1.users && s1.users[phone].pinHash == hash && s1.users[phone].deviceId == creds.deviceId;
    BoundByHistory(check, s1, phone, schedule);
  }
}
