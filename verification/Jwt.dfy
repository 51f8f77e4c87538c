/** Compact HS256 tokens: printer and parser. */
module Jwt {
  import opened Options
  import opened Base64Url

  /** HMAC-SHA256 and encoding/json as the functions they are. `seen` is what a reader gets of
      claims that were written: JSON numbers come back as float64. */
  datatype Library<!C> = Library(
    mac: (seq<byte>, string) -> seq<byte>,
    header: seq<byte>,
    marshal: C -> seq<byte>,
    unmarshal: seq<byte> -> Option<C>,
    seen: C -> C)

  ghost predicate Lawful<C(!new)>(lib: Library<C>) {
    forall c :: lib.unmarshal(lib.marshal(c)) == Some(lib.seen(c))
  }

  datatype Parsed<C> =
    | Valid(claims: C)
    | InvalidFormat
    | InvalidSignatureEncoding
    | SignatureMismatch
    | InvalidPayloadEncoding
    | InvalidClaims

  /** strings.Split(s, "."). */
  function Split(s: string): (parts: seq<string>)
    ensures |parts| > 0
  {
    if |s| == 0 then [""]
    else
      var rest := Split(s[1..]);
      if s[0] == '.' then [""] + rest else [[s[0]] + rest[0]] + rest[1..]
  }

  function Join(parts: seq<string>): string
    requires |parts| > 0
  {
    if |parts| == 1 then parts[0] else parts[0] + "." + Join(parts[1..])
  }

  function Unsigned<C>(lib: Library<C>, claims: C): string {
    Encode(lib.header) + "." + Encode(lib.marshal(claims))
  }

  function Sign<C>(lib: Library<C>, claims: C, secret: seq<byte>): string {
    Unsigned(lib, claims) + "." + Encode(lib.mac(secret, Unsigned(lib, claims)))
  }

  function Parse<C>(lib: Library<C>, token: string, secret: seq<byte>): Parsed<C> {
    var parts := Split(token);
    if |parts| != 3 then InvalidFormat
    else
      var signed := parts[0] + "." + parts[1];
      match Decode(parts[2])
      case None => InvalidSignatureEncoding
      case Some(sig) =>
        if sig != lib.mac(secret, signed) then SignatureMismatch
        else match Decode(parts[1])
          case None => InvalidPayloadEncoding
          case Some(payload) =>
            match lib.unmarshal(payload)
            case None => InvalidClaims
            case Some(claims) => Valid(claims)
  }

  lemma {:induction false} SplitPlain(s: string)
    requires '.' !in s
    ensures Split(s) == [s]
  {
    if |s| > 0 {
      SplitPlain(s[1..]);
      assert [s[0]] + s[1..] == s;
    }
  }

  lemma {:induction false} SplitFirst(a: string, b: string)
    requires '.' !in a
    ensures Split(a + "." + b) == [a] + Split(b)
  {
    var s := a + "." + b;
    if |a| == 0 {
      assert s[1..] == b;
    } else {
      assert s[1..] == a[1..] + "." + b;
      SplitFirst(a[1..], b);
      assert [a[0]] + a[1..] == a;
    }
  }

  /** Splitting loses nothing, whatever the text. */
  lemma {:induction false} JoinSplit(s: string)
    ensures Join(Split(s)) == s
    ensures forall p :: p in Split(s) ==> '.' !in p
  {
    if |s| > 0 {
      var rest := Split(s[1..]);
      JoinSplit(s[1..]);
      if s[0] == '.' {
        assert ([""] + rest)[1..] == rest;
      } else {
        var first := [s[0]] + rest[0];
        assert Split(s) == [first] + rest[1..];
        assert ([first] + rest[1..])[1..] == rest[1..];
        if |rest| == 1 { assert Join(Split(s)) == first; }
        else { assert first + "." + Join(rest[1..]) == [s[0]] + (rest[0] + "." + Join(rest[1..])); }
      }
    }
  }

  /** The three-part split of section 7.1 of RFC 7515 recovers exactly the signed pieces. */
  lemma SplitSigned<C>(lib: Library<C>, claims: C, sig: seq<byte>)
    ensures Split(Unsigned(lib, claims) + "." + Encode(sig))
         == [Encode(lib.header), Encode(lib.marshal(claims)), Encode(sig)]
  {
    var h, p, s := Encode(lib.header), Encode(lib.marshal(claims)), Encode(sig);
    DecodeEncode(lib.header);
    DecodeEncode(lib.marshal(claims));
    DecodeEncode(sig);
    assert Unsigned(lib, claims) + "." + s == h + "." + (p + "." + s);
    SplitFirst(h, p + "." + s);
    SplitFirst(p, s);
    SplitPlain(s);
  }

  /** Three pieces without dots make up the token: the third is the MAC of the first two, the second
      the claims. */
  ghost predicate Reads<C>(lib: Library<C>, token: string, secret: seq<byte>, h: string, p: string, g: string, claims: C) {
    && '.' !in h && '.' !in p && '.' !in g && token == h + "." + p + "." + g
    && Decode(g) == Some(lib.mac(secret, h + "." + p))
    && Decode(p).Some? && lib.unmarshal(Decode(p).value) == Some(claims)
  }

  /** A text is a valid token for some claims exactly when it reads so. */
  lemma ValidIff<C(!new)>(lib: Library<C>, token: string, secret: seq<byte>, claims: C)
    ensures Parse(lib, token, secret) == Valid(claims) <==>
              exists h, p, g :: Reads(lib, token, secret, h, p, g, claims)
  {
    if Parse(lib, token, secret) == Valid(claims) {
      var parts := Split(token);
      JoinSplit(token);
      JoinThree(parts);
      assert Reads(lib, token, secret, parts[0], parts[1], parts[2], claims);
    }
    if h, p, g :| Reads(lib, token, secret, h, p, g, claims) { SplitThree(h, p, g); }
  }

  lemma JoinThree(parts: seq<string>)
    requires |parts| == 3
    ensures Join(parts) == parts[0] + "." + parts[1] + "." + parts[2]
  {
    assert parts[1..][1..] == [parts[2]];
    assert Join(parts[1..]) == parts[1] + "." + parts[2];
  }

  lemma SplitThree(h: string, p: string, g: string)
    requires '.' !in h && '.' !in p && '.' !in g
    ensures Split(h + "." + p + "." + g) == [h, p, g]
  {
    assert h + "." + p + "." + g == h + "." + (p + "." + g);
    SplitFirst(h, p + "." + g);
    SplitFirst(p, g);
    SplitPlain(g);
  }

  /** In particular a valid token has two dots. */
  lemma ValidHasTwoDots<C(!new)>(lib: Library<C>, token: string, secret: seq<byte>)
    requires Parse(lib, token, secret).Valid?
    ensures multiset(token)['.'] == 2
  {
    ValidIff(lib, token, secret, Parse(lib, token, secret).claims);
    var h, p, g :| Reads(lib, token, secret, h, p, g, Parse(lib, token, secret).claims);
    assert multiset(h)['.'] == 0 && multiset(p)['.'] == 0 && multiset(g)['.'] == 0 && multiset(".")['.'] == 1;
  }

  /** A signed token, read with some secret, is valid exactly when that secret gives the same
      MAC, and then it carries the claims that were signed; with its own secret it always is. */
  lemma ParseSign<C(!new)>(lib: Library<C>, claims: C, secret: seq<byte>, other: seq<byte>)
    requires Lawful(lib)
    ensures Parse(lib, Sign(lib, claims, secret), secret) == Valid(lib.seen(claims))
    ensures Parse(lib, Sign(lib, claims, secret), other) ==
              if lib.mac(other, Unsigned(lib, claims)) == lib.mac(secret, Unsigned(lib, claims))
              then Valid(lib.seen(claims)) else SignatureMismatch
  {
    SplitSigned(lib, claims, lib.mac(secret, Unsigned(lib, claims)));
    DecodeEncode(lib.mac(secret, Unsigned(lib, claims)));
    DecodeEncode(lib.marshal(claims));
  }

  /** Two different texts with the same MAC. */
  predicate Collision<C>(lib: Library<C>, secret: seq<byte>, a: string, b: string) {
    a != b && lib.mac(secret, a) == lib.mac(secret, b)
  }

  /** Whatever text is accepted: if its signature is the one made for some claims, it says those
      claims, unless its own signed text and theirs are a collision of the MAC. */
  lemma AcceptedSaysWhatWasSigned<C(!new)>(lib: Library<C>, token: string, claims: C, secret: seq<byte>)
    requires Lawful(lib)
    requires Parse(lib, token, secret).Valid?
    requires Decode(Split(token)[2]) == Some(lib.mac(secret, Unsigned(lib, claims)))
    ensures || Parse(lib, token, secret) == Valid(lib.seen(claims))
            || Collision(lib, secret, Split(token)[0] + "." + Split(token)[1], Unsigned(lib, claims))
  {
    var parts := Split(token);
    JoinSplit(token);
    DecodeEncode(lib.header);
    DecodeEncode(lib.marshal(claims));
    if parts[0] + "." + parts[1] == Unsigned(lib, claims) {
      SamePieces(parts[0], parts[1], Encode(lib.header), Encode(lib.marshal(claims)));
    }
  }

  /** Two pieces without separators are determined by their text. */
  lemma SamePieces(a: string, b: string, a': string, b': string)
    requires '.' !in a && '.' !in b && a + "." + b == a' + "." + b' && '.' !in a' && '.' !in b'
    ensures a == a' && b == b'
  {
    SplitFirst(a, b);
    SplitPlain(b);
    SplitFirst(a', b');
    SplitPlain(b');
    assert [a] + [b] == [a'] + [b'];
    assert ([a] + [b])[0] == a && ([a'] + [b'])[0] == a';
    assert ([a] + [b])[1] == b && ([a'] + [b'])[1] == b';
  }
}
