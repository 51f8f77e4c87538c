/** The auth service and the JWT middleware: the token machine on signed strings. */
module AuthService {
  import opened Options
  import opened GoStrings
  import opened Identity
  import opened Tokens
  import B = Base64Url
  import J = Jwt

  /** The claims of an access or refresh token; those a refreshed token lacks are empty. A claim
      that is missing or of another type reads as "" or 0. */
  datatype Claims = Claims(sub: string, phone: string, tier: string, ver: int, iat: int, exp: int)

  type Lib = J.Library<Claims>

  /** What encoding/json gives back: the strings as they were, the version as a double. */
  ghost predicate Faithful(lib: Lib) {
    && J.Lawful(lib)
    && forall c: Claims | c.ver >= 0 :: lib.seen(c).sub == c.sub && lib.seen(c).ver == Float(c.ver)
  }

  function ClaimsOf(user: User, iat: int, exp: int): Claims {
    Claims(user.id, user.phone, user.tier, user.tokenVersion, iat, exp)
  }

  // ---- JWTAuth ----

  /** strings.HasPrefix(strings.ToLower(authz), "bearer "). */
  predicate IsBearer(authz: string) {
    |authz| >= 7 && forall i :: 0 <= i < 7 ==> Lower(authz[i]) == "bearer "[i]
  }

  function Lower(c: char): char { if 'A' <= c <= 'Z' then c - 'A' + 'a' else c }

  /** The claims behind an Authorization header, if its token is well signed. */
  function Bearer(lib: Lib, authz: string, secret: seq<B.byte>): Option<Claims> {
    if !IsBearer(authz) then None
    else
      match J.Parse(lib, TrimSpace(authz[7..]), secret)
      case Valid(claims) => Some(claims)
      case _ => None
  }

  /** The user exists and still has the version of the claims. */
  ghost predicate Current(users: Users, claims: Claims) {
    HasId(users, claims.sub) && VersionOf(users, claims.sub) == claims.ver
  }

  ghost predicate JwtAuth(lib: Lib, users: Users, authz: string, secret: seq<B.byte>) {
    var claims := Bearer(lib, authz, secret);
    claims.Some? && Current(users, claims.value)
  }

  ghost predicate RefreshAccepts(lib: Lib, users: Users, token: string, secret: seq<B.byte>) {
    var parsed := J.Parse(lib, token, secret);
    parsed.Valid? && Current(users, parsed.claims)
  }

  lemma {:induction false} TrimPlain(s: string)
    requires forall c :: c in s ==> !IsSpace(c)
    ensures TrimSpace(s) == s
  {
    if |s| > 0 { assert s[0] in s && s[|s| - 1] in s; }
  }

  lemma EncodedHasNoSpace(b: seq<B.byte>)
    ensures forall c :: c in B.Encode(b) ==> !IsSpace(c)
  {
    B.DecodeEncode(b);
    forall c | c in B.Encode(b) ensures !IsSpace(c) {
      assert B.ToDigit(c).Some?;
    }
  }

  lemma SignedHasNoSpace(lib: Lib, claims: Claims, secret: seq<B.byte>)
    ensures forall c :: c in J.Sign(lib, claims, secret) ==> !IsSpace(c)
  {
    EncodedHasNoSpace(lib.header);
    EncodedHasNoSpace(lib.marshal(claims));
    EncodedHasNoSpace(lib.mac(secret, J.Unsigned(lib, claims)));
  }

  /** The header "Bearer" with a signed token shows the token to the parser as it is. */
  lemma BearerOfSigned(lib: Lib, claims: Claims, secret: seq<B.byte>, other: seq<B.byte>)
    requires J.Lawful(lib)
    ensures Bearer(lib, "Bearer " + J.Sign(lib, claims, secret), other) ==
              if lib.mac(other, J.Unsigned(lib, claims)) == lib.mac(secret, J.Unsigned(lib, claims))
              then Some(lib.seen(claims)) else None
  {
    var token := J.Sign(lib, claims, secret);
    var authz := "Bearer " + token;
    SignedHasNoSpace(lib, claims, secret);
    TrimPlain(token);
    assert authz[7..] == token;
    J.ParseSign(lib, claims, secret, other);
  }

  /** A signed token in a header is accepted exactly when the token machine accepts the claims
      it was signed over; and so is a signed token that is handed to Refresh. */
  lemma SignedIsAccepted(lib: Lib, users: Users, claims: Claims, kind: Kind, secret: seq<B.byte>)
    requires Faithful(lib) && claims.ver >= 0
    ensures JwtAuth(lib, users, "Bearer " + J.Sign(lib, claims, secret), secret)
            <==> Accepts(users, Token(kind, claims.sub, claims.ver))
    ensures RefreshAccepts(lib, users, J.Sign(lib, claims, secret), secret)
            <==> Accepts(users, Token(kind, claims.sub, claims.ver))
  {
    BearerOfSigned(lib, claims, secret, secret);
    J.ParseSign(lib, claims, secret, secret);
  }

  /** The seven characters, the letters in either case. */
  predicate SpellsBearer(prefix: string) {
    |prefix| == 7 && forall i :: 0 <= i < 7 ==> prefix[i] == "bearer "[i] || prefix[i] == "BEARER "[i]
  }

  lemma BearerIff(authz: string)
    ensures IsBearer(authz) <==> |authz| >= 7 && SpellsBearer(authz[..7])
  {
    var lower, upper := "bearer ", "BEARER ";
    forall i | 0 <= i < 7
      ensures forall c: char :: Lower(c) == lower[i] <==> c == lower[i] || c == upper[i]
    {
      assert lower[i] == ' ' || ('a' <= lower[i] <= 'z' && upper[i] == lower[i] - 'a' + 'A');
    }
  }

  lemma {:induction false} TrimLeftPadded(left: string, s: string)
    requires AllSpaces(left) && (s == "" || s[0] !in SPACES)
    ensures TrimLeft(left + s) == s
  {
    if |left| == 0 {
      assert left + s == s;
      if s != "" { SpaceIff(s[0]); }
    } else {
      assert left[0] in left;
      SpaceIff(left[0]);
      assert (left + s)[1..] == left[1..] + s;
      TrimLeftPadded(left[1..], s);
    }
  }

  lemma {:induction false} TrimRightPadded(s: string, right: string)
    requires AllSpaces(right) && (s == "" || s[|s| - 1] !in SPACES)
    ensures TrimRight(s + right) == s
  {
    if |right| == 0 {
      assert s + right == s;
      if s != "" { SpaceIff(s[|s| - 1]); }
    } else {
      var n := |right| - 1;
      assert right[n] in right;
      SpaceIff(right[n]);
      assert (s + right)[..|s| + n] == s + right[..n];
      TrimRightPadded(s, right[..n]);
    }
  }

  lemma TrimPadded(left: string, s: string, right: string)
    requires AllSpaces(left) && AllSpaces(right) && s != "" && forall c :: c in s ==> !IsSpace(c)
    ensures TrimSpace(left + s + right) == s
  {
    assert s[0] in s && s[|s| - 1] in s;
    SpaceIff(s[0]);
    SpaceIff(s[|s| - 1]);
    assert left + s + right == left + (s + right);
    assert (s + right)[0] == s[0];
    TrimLeftPadded(left, s + right);
    TrimRightPadded(s, right);
  }

  /** What the middleware finds in a header. */
  lemma TokenFound(prefix: string, left: string, token: string, right: string)
    requires SpellsBearer(prefix) && AllSpaces(left) && AllSpaces(right)
    requires token != "" && forall c :: c in token ==> !IsSpace(c)
    ensures var authz := prefix + left + token + right; IsBearer(authz) && TrimSpace(authz[7..]) == token
  {
    var authz := prefix + left + token + right;
    assert authz[7..] == left + token + right && authz[..7] == prefix;
    BearerIff(authz);
    TrimPadded(left, token, right);
  }

  /** A signed token is granted behind the word in any case, and with any white space around it,
      exactly when the token machine accepts its claims. */
  lemma AnyBearerIsAccepted(
    lib: Lib, users: Users, claims: Claims, kind: Kind, secret: seq<B.byte>, prefix: string, left: string, right: string)
    requires Faithful(lib) && claims.ver >= 0 && SpellsBearer(prefix) && AllSpaces(left) && AllSpaces(right)
    ensures JwtAuth(lib, users, prefix + left + J.Sign(lib, claims, secret) + right, secret)
            <==> Accepts(users, Token(kind, claims.sub, claims.ver))
  {
    var token := J.Sign(lib, claims, secret);
    SignedHasNoSpace(lib, claims, secret);
    TokenFound(prefix, left, token, right);
    J.ParseSign(lib, claims, secret, secret);
  }

  /** Any other header is refused. */
  lemma OtherHeadersRefused(lib: Lib, users: Users, authz: string, secret: seq<B.byte>)
    requires |authz| < 7 || !SpellsBearer(authz[..7])
    ensures !JwtAuth(lib, users, authz, secret)
  {
    BearerIff(authz);
  }

  /** A token signed with one of the two secrets is refused where the other is used, unless
      their MACs of it coincide. */
  lemma WrongSecretIsRefused(lib: Lib, users: Users, claims: Claims, secret: seq<B.byte>, other: seq<B.byte>)
    requires Faithful(lib)
    requires lib.mac(other, J.Unsigned(lib, claims)) != lib.mac(secret, J.Unsigned(lib, claims))
    ensures !JwtAuth(lib, users, "Bearer " + J.Sign(lib, claims, secret), other)
    ensures !RefreshAccepts(lib, users, J.Sign(lib, claims, secret), other)
  {
    BearerOfSigned(lib, claims, secret, other);
    J.ParseSign(lib, claims, secret, other);
  }

  datatype Refreshed = Issued(access: string, claims: Claims) | InvalidToken | UnknownUser | VersionInvalidated

  class Service {
    const repo: UserRepository
    const lib: Lib
    const jwtSecret: seq<B.byte>
    const refreshSecret: seq<B.byte>
    const accessTtl: nat
    const refreshTtl: nat

    constructor (repo: UserRepository, lib: Lib, jwtSecret: seq<B.byte>, refreshSecret: seq<B.byte>,
                 accessTtl: nat, refreshTtl: nat)
      ensures this.repo == repo && this.lib == lib
      ensures this.jwtSecret == jwtSecret && this.refreshSecret == refreshSecret
      ensures this.accessTtl == accessTtl && this.refreshTtl == refreshTtl
    {
      this.repo, this.lib := repo, lib;
      this.jwtSecret, this.refreshSecret := jwtSecret, refreshSecret;
      this.accessTtl, this.refreshTtl := accessTtl, refreshTtl;
    }

    /** Tokens for a user that the identity service let in: each is accepted where it belongs
        exactly if the stored version still is the user's and survives the float64 trip. */
    method Login(user: User, now: int) returns (access: string, refresh: string)
      requires Faithful(lib)
      ensures JwtAuth(lib, repo.users, "Bearer " + access, jwtSecret)
              <==> Accepts(repo.users, Token(Access, user.id, user.tokenVersion))
      ensures RefreshAccepts(lib, repo.users, refresh, refreshSecret)
              <==> Accepts(repo.users, Token(Kind.Refresh, user.id, user.tokenVersion))
      ensures access == J.Sign(
                lib, Claims(user.id, user.phone, user.tier, user.tokenVersion, now, now + accessTtl), jwtSecret)
      ensures refresh == J.Sign(
                lib, Claims(user.id, user.phone, user.tier, user.tokenVersion, now, now + refreshTtl), refreshSecret)
    {
      access := J.Sign(lib, ClaimsOf(user, now, now + accessTtl), jwtSecret);
      refresh := J.Sign(lib, ClaimsOf(user, now, now + refreshTtl), refreshSecret);
      SignedIsAccepted(lib, repo.users, ClaimsOf(user, now, now + accessTtl), Access, jwtSecret);
      SignedIsAccepted(lib, repo.users, ClaimsOf(user, now, now + refreshTtl), Kind.Refresh, refreshSecret);
    }

    /** Refresh: a new access token for the same user and version, or one of three errors. */
    method Refresh(token: string, now: int) returns (result: Refreshed)
      requires Faithful(lib) && WellFiled(repo.users)
      ensures result.Issued? <==> RefreshAccepts(lib, repo.users, token, refreshSecret)
      ensures result.InvalidToken? <==> !J.Parse(lib, token, refreshSecret).Valid?
      ensures result.UnknownUser? <==>
                var parsed := J.Parse(lib, token, refreshSecret);
                parsed.Valid? && !HasId(repo.users, parsed.claims.sub)
      ensures result.Issued? ==>
                && result.access == J.Sign(lib, result.claims, jwtSecret)
                && result.claims.sub == J.Parse(lib, token, refreshSecret).claims.sub
                && HasId(repo.users, result.claims.sub)
                && result.claims.ver == VersionOf(repo.users, result.claims.sub)
                && result.claims == Claims(result.claims.sub, "", "", result.claims.ver, now, now + accessTtl)
    {
      var parsed := J.Parse(lib, token, refreshSecret);
      if !parsed.Valid? { return InvalidToken; }
      var claims := parsed.claims;
      var user := repo.FindByID(claims.sub);
      if user.None? { return UnknownUser; }
      if user.value.tokenVersion != claims.ver { return VersionInvalidated; }
      var accessClaims := Claims(claims.sub, "", "", claims.ver, now, now + accessTtl);
      return Issued(J.Sign(lib, accessClaims, jwtSecret), accessClaims);
    }

    /** Logout, as one atomic step: the version goes up by one. */
    method Logout(userId: string) returns (ok: bool)
      requires WellFiled(repo.users)
      modifies repo
      ensures WellFiled(repo.users)
      ensures ok <==> HasId(old(repo.users), userId)
      ensures forall check: Check, issued: set<Token> ::
                State(repo.users, issued) == Exec(check, State(old(repo.users), issued), Action.Logout(userId))
    {
      var user := repo.FindByID(userId);
      if user.None? { return false; }
      assert user.value.id == userId;
      ok := repo.UpdateTokenVersion(user.value.id, user.value.tokenVersion + 1);
    }

    /** The middleware: the user id and version it sets, or a refusal. */
    method Authorize(authz: string) returns (granted: Option<(string, int)>)
      requires WellFiled(repo.users)
      ensures granted.Some? <==> JwtAuth(lib, repo.users, authz, jwtSecret)
      ensures granted.Some? ==> |authz| >= 7 && SpellsBearer(authz[..7])
      ensures granted.Some? ==> HasId(repo.users, granted.value.0) && granted.value.1 == VersionOf(repo.users, granted.value.0)
    {
      BearerIff(authz);
      if !IsBearer(authz) { return None; }
      var parsed := J.Parse(lib, TrimSpace(authz[7..]), jwtSecret);
      if !parsed.Valid? { return None; }
      var sub, ver := parsed.claims.sub, parsed.claims.ver;
      var user := repo.FindByID(sub);
      if user.None? || user.value.tokenVersion != ver { return None; }
      return Some((sub, ver));
    }
  }
}
