/** Users keyed by normalised phone number: registration, login and device binding. */
module Identity {
  import opened Options
  import opened GoStrings

  type Bytes = seq<bv8>

  /** bcrypt.CompareHashAndPassword, as the function it is. */
  type Check = (string, Bytes) -> bool

  datatype User = User(id: string, phone: string, tier: string, pinHash: string, deviceId: string, tokenVersion: nat)

  datatype Credentials = Credentials(phone: string, pin: Bytes, deviceId: string)

  datatype Result<T> =
    | Ok(value: T)
    | PhoneRequired
    | InvalidPhoneLength
    | PinTooShort
    | HashFailed
    | UserExists
    | UserNotFound
    | InvalidPin
    | DeviceRequired
    | DeviceMismatch

  const TIER_ZERO := "tier0"
  const TIER_ONE := "tier1"

  // ---- Phone numbers ----

  predicate PhoneChar(c: char) { '0' <= c <= '9' || c == '+' }

  /** phoneDigits.ReplaceAllString(p, ""). */
  function Keep(s: string): string {
    if |s| == 0 then "" else (if PhoneChar(s[0]) then [s[0]] else "") + Keep(s[1..])
  }

  function NormalizePhone(phone: string): Result<string> {
    var p := Keep(TrimSpace(phone));
    var digits := if |p| > 0 && p[0] == '+' then p[1..] else p;
    if p == "" then PhoneRequired
    else if |digits| < 8 || |digits| > 15 then InvalidPhoneLength
    else Ok(p)
  }

  lemma {:induction false} KeepConcat(a: string, b: string)
    ensures Keep(a + b) == Keep(a) + Keep(b)
  {
    if |a| == 0 {
      assert a + b == b;
    } else {
      var head := if PhoneChar(a[0]) then [a[0]] else "";
      KeepConcat(a[1..], b);
      assert (a + b)[0] == a[0] && (a + b)[1..] == a[1..] + b;
      assert Keep(a + b) == head + Keep(a[1..] + b);
      assert head + (Keep(a[1..]) + Keep(b)) == (head + Keep(a[1..])) + Keep(b);
    }
  }

  lemma {:induction false} KeepTrimLeft(s: string)
    ensures Keep(TrimLeft(s)) == Keep(s)
  {
    if |s| > 0 && IsSpace(s[0]) { KeepTrimLeft(s[1..]); }
  }

  lemma {:induction false} KeepTrimRight(s: string)
    ensures Keep(TrimRight(s)) == Keep(s)
  {
    if |s| > 0 && IsSpace(s[|s| - 1]) {
      var init, last := s[..|s| - 1], s[|s| - 1..];
      KeepTrimRight(init);
      KeepConcat(init, last);
      assert s == init + last;
      assert Keep(last) == "" by { assert last[1..] == ""; }
    }
  }

  lemma {:induction false} KeepKept(s: string)
    ensures Keep(Keep(s)) == Keep(s)
  {
    if |s| > 0 {
      KeepKept(s[1..]);
      if PhoneChar(s[0]) { assert Keep(s)[0] == s[0] && Keep(s)[1..] == Keep(s[1..]); }
      else { assert Keep(s) == Keep(s[1..]); }
    }
  }

  /** The digits and plus signs are all that matters: two spellings are the same number exactly
      when they agree on them, and a normal form is its own normal form. */
  lemma NormalForm(a: string, b: string)
    ensures Keep(a) == Keep(b) ==> NormalizePhone(a) == NormalizePhone(b)
    ensures NormalizePhone(a).Ok? && NormalizePhone(a) == NormalizePhone(b) ==> Keep(a) == Keep(b)
    ensures NormalizePhone(a).Ok? ==> NormalizePhone(NormalizePhone(a).value) == NormalizePhone(a)
  {
    KeepIsNormal(a);
    KeepIsNormal(b);
    if NormalizePhone(a).Ok? {
      KeepKept(a);
      KeepIsNormal(Keep(a));
    }
  }

  lemma KeepIsNormal(s: string)
    ensures Keep(TrimSpace(s)) == Keep(s)
    ensures NormalizePhone(s).Ok? ==> NormalizePhone(s).value == Keep(s)
  {
    KeepTrimLeft(s);
    KeepTrimRight(TrimLeft(s));
  }

  lemma {:induction false} KeepAll(s: string)
    requires forall c :: c in s ==> PhoneChar(c)
    ensures Keep(s) == s
  {
    if |s| > 0 {
      assert s[0] in s;
      KeepAll(s[1..]);
    }
  }

  predicate DigitOrPlus(c: char) { c in "0123456789+" }

  lemma DigitOrPlusIff(c: char)
    ensures PhoneChar(c) <==> DigitOrPlus(c)
  {
    if '0' <= c <= '9' { assert c == "0123456789+"[c as int - '0' as int]; }
    if c == '+' { assert c == "0123456789+"[10]; }
  }

  /** A number of digits and plus signs is accepted as it is if it has 8 to 15 of them, not counting
      a plus in front; any other plus counts, and three digits are too few. */
  lemma PlainNumber(s: string)
    requires forall c :: c in s ==> DigitOrPlus(c)
    ensures var n := |s| - if |s| > 0 && s[0] == '+' then 1 else 0;
            NormalizePhone(s) == if s == "" then PhoneRequired else if 8 <= n <= 15 then Ok(s) else InvalidPhoneLength
  {
    forall c | c in s ensures PhoneChar(c) { DigitOrPlusIff(c); }
    KeepIsNormal(s);
    KeepAll(s);
  }

  /** ... and any other character anywhere makes no difference. With that, the normal form of every
      text is determined. */
  lemma OthersIgnored(before: string, c: char, after: string)
    requires !DigitOrPlus(c)
    ensures NormalizePhone(before + [c] + after) == NormalizePhone(before + after)
  {
    DigitOrPlusIff(c);
    KeepConcat(before + [c], after);
    KeepConcat(before, [c]);
    KeepConcat(before, after);
    assert Keep([c]) == "" by { assert [c][1..] == ""; }
    NormalForm(before + [c] + after, before + after);
  }

  // ---- The store ----

  type Users = map<string, User>

  /** Each user is filed under its own phone, and UUIDs are unique. */
  ghost predicate WellFiled(users: Users) {
    && (forall p :: p in users ==> users[p].phone == p)
    && (forall p, q | p in users && q in users :: users[p].id == users[q].id ==> p == q)
  }

  predicate HasId(users: Users, id: string) { exists p | p in users :: users[p].id == id }

  /** The phone under which the user with this id is filed. */
  ghost function PhoneOf(users: Users, id: string): (p: string)
    requires HasId(users, id)
    ensures p in users && users[p].id == id
  {
    var p :| p in users && users[p].id == id;
    p
  }

  class UserRepository {
    var users: Users

    constructor ()
      ensures users == map[] && WellFiled(users)
    {
      users := map[];
    }

    /** A taken phone is refused; that a new user's UUID is new is the caller's part. */
    method Create(user: User) returns (ok: bool)
      modifies this
      ensures ok <==> user.phone !in old(users)
      ensures users == if ok then old(users)[user.phone := user] else old(users)
      ensures old(WellFiled(users) && !HasId(users, user.id)) ==> WellFiled(users)
    {
      if user.phone in users { return false; }
      users := users[user.phone := user];
      return true;
    }

    method FindByPhone(phone: string) returns (user: Option<User>)
      ensures user == if phone in users then Some(users[phone]) else None
    {
      user := if phone in users then Some(users[phone]) else None;
    }

    /** The scan by id, in whatever order the map gives its keys. */
    method Scan(id: string) returns (phone: Option<string>)
      ensures phone.None? <==> !HasId(users, id)
      ensures phone.Some? ==> phone.value in users && users[phone.value].id == id
      ensures WellFiled(users) && phone.Some? ==> phone.value == PhoneOf(users, id)
    {
      var left := users.Keys;
      while left != {}
        invariant left <= users.Keys
        invariant forall p | p in users && p !in left :: users[p].id != id
        decreases |left|
      {
        var p :| p in left;
        if users[p].id == id { return Some(p); }
        left := left - {p};
      }
      return None;
    }

    method FindByID(id: string) returns (user: Option<User>)
      ensures user.None? <==> !HasId(users, id)
      ensures WellFiled(users) && user.Some? ==> user.value == users[PhoneOf(users, id)]
    {
      var phone := Scan(id);
      if phone.None? { return None; }
      return Some(users[phone.value]);
    }

    method UpdateDevice(id: string, deviceId: string) returns (ok: bool)
      modifies this
      ensures ok <==> old(HasId(users, id))
      ensures !ok ==> users == old(users)
      ensures ok && old(WellFiled(users)) ==>
                WellFiled(users) && users == Bind(old(users), old(PhoneOf(users, id)), deviceId)
    {
      var phone := Scan(id);
      if phone.None? { return false; }
      users := users[phone.value := users[phone.value].(deviceId := deviceId)];
      return true;
    }

    method UpdateTokenVersion(id: string, version: nat) returns (ok: bool)
      modifies this
      ensures ok <==> old(HasId(users, id))
      ensures !ok ==> users == old(users)
      ensures ok && old(WellFiled(users)) ==>
                && WellFiled(users)
                && var p := old(PhoneOf(users, id)); users == old(users)[p := old(users)[p].(tokenVersion := version)]
    {
      var phone := Scan(id);
      if phone.None? { return false; }
      users := users[phone.value := users[phone.value].(tokenVersion := version)];
      return true;
    }
  }

  // ---- Registration and login ----

  function Bind(users: Users, phone: string, deviceId: string): Users
    requires phone in users
  {
    users[phone := users[phone].(deviceId := deviceId)]
  }

  /** `uuid` is the new id and `hash` what bcrypt returned for the PIN, if it did not fail. */
  function RegisterUser(users: Users, creds: Credentials, uuid: string, hash: Option<string>): (Users, Result<User>) {
    if |creds.pin| < 4 then (users, PinTooShort)
    else match NormalizePhone(creds.phone)
      case Ok(phone) =>
        if hash.None? then (users, HashFailed)
        else if phone in users then (users, UserExists)
        else
          var user := User(uuid, phone, TIER_ZERO, hash.value, creds.deviceId, 0);
          (users[phone := user], Ok(user))
      case PhoneRequired => (users, PhoneRequired)
      case _ => (users, InvalidPhoneLength)
  }

  /** A login checks the PIN, then binds an unbound user to the device or compares devices. The
      promotion to tier one is returned, not stored. */
  function AuthenticateUser(check: Check, users: Users, creds: Credentials): (Users, Result<User>) {
    match NormalizePhone(creds.phone)
    case Ok(phone) =>
      if phone !in users then (users, UserNotFound)
      else
        var user := users[phone];
        var promoted := if user.tier == TIER_ZERO then user.(tier := TIER_ONE) else user;
        if !check(user.pinHash, creds.pin) then (users, InvalidPin)
        else if user.deviceId == "" then
          if creds.deviceId == "" then (users, DeviceRequired)
          else (Bind(users, phone, creds.deviceId), Ok(promoted.(deviceId := creds.deviceId)))
        else if creds.deviceId != "" && user.deviceId != creds.deviceId then (users, DeviceMismatch)
        else (users, Ok(promoted))
    case PhoneRequired => (users, PhoneRequired)
    case _ => (users, InvalidPhoneLength)
  }

  /** A registration's result, each with its exact cause, and the user it stores. */
  ghost predicate RegisterSays(
    users: Users, creds: Credentials, uuid: string, hash: Option<string>, users': Users, result: Result<User>)
  {
    var long := |creds.pin| >= 4;
    var normal := NormalizePhone(creds.phone);
    var ready := long && normal.Ok? && hash.Some?;
    && (result == PinTooShort <==> !long)
    && (result == PhoneRequired <==> long && normal == PhoneRequired)
    && (result == InvalidPhoneLength <==> long && normal == InvalidPhoneLength)
    && (result == HashFailed <==> long && normal.Ok? && hash.None?)
    && (result == UserExists <==> ready && normal.value in users)
    && (result.Ok? <==> ready && normal.value !in users)
    && (result.Ok? ==>
          && result.value == User(uuid, normal.value, "tier0", hash.value, creds.deviceId, 0)
          && users' == users[normal.value := result.value])
    && (!result.Ok? ==> users' == users)
  }

  lemma PhoneResults(phone: string)
    ensures NormalizePhone(phone).Ok? || NormalizePhone(phone) in {PhoneRequired, InvalidPhoneLength}
  {
  }

  lemma RegisterMeans(users: Users, creds: Credentials, uuid: string, hash: Option<string>)
    ensures var (users', result) := RegisterUser(users, creds, uuid, hash);
            RegisterSays(users, creds, uuid, hash, users', result)
  {
    PhoneResults(creds.phone);
  }

  /** A login's result, each with its exact cause, the user it answers with, and what it stores: the
      device of a user that had none, and nothing else. */
  ghost predicate AuthenticateSays(
    check: Check, users: Users, creds: Credentials, users': Users, result: Result<User>)
  {
    var normal := NormalizePhone(creds.phone);
    if !normal.Ok? || normal.value !in users then
      && result == (if normal.Ok? then UserNotFound else if normal.PhoneRequired? then PhoneRequired else InvalidPhoneLength)
      && users' == users
    else
      var user := users[normal.value];
      var matches := check(user.pinHash, creds.pin);
      && (result == InvalidPin <==> !matches)
      && (result == DeviceRequired <==> matches && user.deviceId == "" && creds.deviceId == "")
      && (result == DeviceMismatch <==> matches && user.deviceId != "" && creds.deviceId !in {"", user.deviceId})
      && (result.Ok? <==> matches && (if user.deviceId == "" then creds.deviceId != "" else creds.deviceId in {"", user.deviceId}))
      && (result.Ok? ==>
            var device := if user.deviceId == "" then creds.deviceId else user.deviceId;
            && result.value == User(user.id, user.phone, if user.tier == "tier0" then "tier1" else user.tier,
                                    user.pinHash, device, user.tokenVersion)
            && users' == users[normal.value :=
                 User(user.id, user.phone, user.tier, user.pinHash, device, user.tokenVersion)])
      && (!result.Ok? ==> users' == users)
  }

  lemma AuthenticateMeans(check: Check, users: Users, creds: Credentials)
    ensures var (users', result) := AuthenticateUser(check, users, creds);
            AuthenticateSays(check, users, creds, users', result)
  {
    PhoneResults(creds.phone);
  }

  class IdentityService {
    const repo: UserRepository

    constructor (repo: UserRepository)
      ensures this.repo == repo
    {
      this.repo := repo;
    }

    method Register(creds: Credentials, uuid: string, hash: Option<string>) returns (result: Result<User>)
      requires WellFiled(repo.users) && !HasId(repo.users, uuid)
      modifies repo
      ensures WellFiled(repo.users)
      ensures (repo.users, result) == RegisterUser(old(repo.users), creds, uuid, hash)
      ensures RegisterSays(old(repo.users), creds, uuid, hash, repo.users, result)
    {
      RegisterMeans(repo.users, creds, uuid, hash);
      if |creds.pin| < 4 { return PinTooShort; }
      var normal := NormalizePhone(creds.phone);
      if !normal.Ok? { return if normal.PhoneRequired? then PhoneRequired else InvalidPhoneLength; }
      if hash.None? { return HashFailed; }
      var user := User(uuid, normal.value, TIER_ZERO, hash.value, creds.deviceId, 0);
      var ok := repo.Create(user);
      return if ok then Ok(user) else UserExists;
    }

    method Authenticate(check: Check, creds: Credentials) returns (result: Result<User>)
      requires WellFiled(repo.users)
      modifies repo
      ensures WellFiled(repo.users)
      ensures (repo.users, result) == AuthenticateUser(check, old(repo.users), creds)
      ensures AuthenticateSays(check, old(repo.users), creds, repo.users, result)
    {
      AuthenticateMeans(check, repo.users, creds);
      var normal := NormalizePhone(creds.phone);
      if !normal.Ok? { return if normal.PhoneRequired? then PhoneRequired else InvalidPhoneLength; }
      var found := repo.FindByPhone(normal.value);
      if found.None? { return UserNotFound; }
      var user := found.value;
      if !check(user.pinHash, creds.pin) { return InvalidPin; }
      if user.deviceId == "" {
        if creds.deviceId == "" { return DeviceRequired; }
        assert PhoneOf(repo.users, user.id) == normal.value;
        var ok := repo.UpdateDevice(user.id, creds.deviceId);
        if !ok { return UserNotFound; }
        user := user.(deviceId := creds.deviceId);
      } else if creds.deviceId != "" && user.deviceId != creds.deviceId {
        return DeviceMismatch;
      }
      if user.tier == TIER_ZERO { user := user.(tier := TIER_ONE); }
      return Ok(user);
    }
  }
}
