/**
 Signed gateway configurations (pkg/proxy/provider.go): signConfig and verifyConfigSignature. The
 hash, the MAC and JSON are parameters; what is assumed of them is said where it is needed.
 */
module ConfigSigning {
  import opened Bytes
  import opened Options
  import opened Text
  import opened Base64Url

  const DAY: int := 86_400  // seconds
  const ISSUER := "servconsole"

  datatype Claims = Claims(configHash: string, exp: int, iss: string)

  datatype Library<!Routes> = Library(
    routesJson: Routes -> Data,
    claimsJson: Claims -> Data,
    parseClaims: Data -> Option<Claims>,
    headerJson: Data,
    sha256: Data -> Data,
    hmac: (Data, string) -> Data)

  /** Marshalled claims unmarshal to the same claims. */
  ghost predicate ClaimsRoundTrip<Routes>(lib: Library<Routes>) {
    forall c :: lib.parseClaims(lib.claimsJson(c)) == Some(c)
  }

  /** Neither serialisation nor hashing confuses two values. */
  ghost predicate CollisionFree<Routes(!new)>(lib: Library<Routes>) {
    && (forall r, s :: lib.routesJson(r) == lib.routesJson(s) ==> r == s)
    && (forall x, y :: lib.sha256(x) == lib.sha256(y) ==> x == y)
  }

  function ConfigHash<Routes>(lib: Library<Routes>, routes: Routes): string {
    Encode(lib.sha256(lib.routesJson(routes)))
  }

  function SignedClaims<Routes>(lib: Library<Routes>, routes: Routes, now: int): Claims {
    Claims(ConfigHash(lib, routes), now + DAY, ISSUER)
  }

  function Token<Routes>(lib: Library<Routes>, routes: Routes, secret: Data, now: int): string {
    var body := Encode(lib.headerJson) + "." + Encode(lib.claimsJson(SignedClaims(lib, routes, now)));
    body + "." + Encode(lib.hmac(secret, body))
  }

  datatype Verdict =
    | Accepted
    | MissingSignature
    | InvalidFormat
    | InvalidSignature
    | UndecodableClaims
    | InvalidClaims
    | Expired
    | WrongIssuer
    | HashMismatch

  function Verify<Routes>(lib: Library<Routes>, routes: Routes, signature: string, secret: Data, now: int): Verdict {
    if signature == "" then MissingSignature
    else
      var parts := Split(signature, '.');
      if |parts| != 3 then InvalidFormat
      else if DecodeProvider(parts[2]) != Some(lib.hmac(secret, parts[0] + "." + parts[1])) then InvalidSignature
      else
        var payload := DecodeProvider(parts[1]);
        if payload.None? then UndecodableClaims
        else
          var claims := lib.parseClaims(payload.value);
          if claims.None? then InvalidClaims
          else if claims.value.exp > 0 && now > claims.value.exp then Expired
          else if claims.value.iss != ISSUER then WrongIssuer
          else if claims.value.configHash != ConfigHash(lib, routes) then HashMismatch
          else Accepted
  }

  class GatewayConfig<Routes> {
    var routes: Routes
    var signature: string

    constructor (routes: Routes)
      ensures this.routes == routes && signature == ""
    {
      this.routes := routes;
      signature := "";
    }

    method Sign(lib: Library<Routes>, secret: Data, now: int)
      modifies this`signature
      ensures signature == Token(lib, routes, secret, now)
    {
      var computedHash := Encode(lib.sha256(lib.routesJson(routes)));
      var claims := Claims(computedHash, now + DAY, ISSUER);
      var headerEnc := Encode(lib.headerJson);
      var claimsEnc := Encode(lib.claimsJson(claims));
      var sig := Encode(lib.hmac(secret, headerEnc + "." + claimsEnc));
      signature := headerEnc + "." + claimsEnc + "." + sig;
    }
  }

  lemma NoDotInEncoded(d: Data)
    ensures '.' !in Encode(d)
  {
    EncodedSymbols(d);
    assert !IsSymbol('.');
  }

  lemma SplitThree(h: string, c: string, s: string)
    requires '.' !in h && '.' !in c && '.' !in s
    ensures Split(h + "." + c + "." + s, '.') == [h, c, s]
  {
    SplitAtSeparator(h, '.', c + "." + s);
    SplitAtSeparator(c, '.', s);
    SplitOfPart(s, '.');
    assert h + "." + c + "." + s == h + ['.'] + (c + "." + s);
  }

  /** A signature always splits into its three parts. */
  lemma TokenHasThreeParts<Routes>(lib: Library<Routes>, routes: Routes, secret: Data, now: int)
    ensures var (h, c) := (Encode(lib.headerJson), Encode(lib.claimsJson(SignedClaims(lib, routes, now))));
            Split(Token(lib, routes, secret, now), '.') == [h, c, Encode(lib.hmac(secret, h + "." + c))]
  {
    var h, c := Encode(lib.headerJson), Encode(lib.claimsJson(SignedClaims(lib, routes, now)));
    NoDotInEncoded(lib.headerJson);
    NoDotInEncoded(lib.claimsJson(SignedClaims(lib, routes, now)));
    NoDotInEncoded(lib.hmac(secret, h + "." + c));
    SplitThree(h, c, Encode(lib.hmac(secret, h + "." + c)));
  }

  // ----- what verification says of any signature -----

  /** The MAC over the first two parts is the third part, decoded. */
  ghost predicate MacMatches<Routes>(lib: Library<Routes>, h: string, c: string, s: string, secret: Data) {
    DecodeProvider(s) == Some(lib.hmac(secret, h + "." + c))
  }

  /** The claims in the second part, if they decode and parse. */
  function ClaimsIn<Routes>(lib: Library<Routes>, c: string): Option<Claims> {
    if DecodeProvider(c).Some? then lib.parseClaims(DecodeProvider(c).value) else None
  }

  ghost predicate Unexpired(claims: Claims, now: int) { claims.exp > 0 ==> now <= claims.exp }

  /** Every signature of three parts is judged by the first check it fails, and accepted if it fails none. */
  lemma VerdictOnParts<Routes>(
      lib: Library<Routes>, routes: Routes, h: string, c: string, s: string, secret: Data, now: int)
    requires '.' !in h && '.' !in c && '.' !in s
    ensures var v := Verify(lib, routes, h + "." + c + "." + s, secret, now);
            var claims := ClaimsIn(lib, c);
            && (v.InvalidSignature? <==> !MacMatches(lib, h, c, s, secret))
            && (v.UndecodableClaims? <==> MacMatches(lib, h, c, s, secret) && DecodeProvider(c).None?)
            && (v.InvalidClaims? <==> MacMatches(lib, h, c, s, secret) && DecodeProvider(c).Some? && claims.None?)
            && (v.Expired? <==> MacMatches(lib, h, c, s, secret) && claims.Some? && !Unexpired(claims.value, now))
            && (v.WrongIssuer? <==>
                 && MacMatches(lib, h, c, s, secret) && claims.Some? && Unexpired(claims.value, now)
                 && claims.value.iss != "servconsole")
            && (v.HashMismatch? <==>
                 && MacMatches(lib, h, c, s, secret) && claims.Some? && Unexpired(claims.value, now)
                 && claims.value.iss == "servconsole"
                 && claims.value.configHash != Encode(lib.sha256(lib.routesJson(routes))))
            && !v.MissingSignature? && !v.InvalidFormat?
  {
    SplitThree(h, c, s);
  }

  /** A signature has three parts exactly if it has two dots; without, it is missing or malformed. */
  lemma VerdictOnFormat<Routes>(lib: Library<Routes>, routes: Routes, signature: string, secret: Data, now: int)
    ensures var v := Verify(lib, routes, signature, secret, now);
            && (v.MissingSignature? <==> signature == "")
            && (v.InvalidFormat? <==> signature != "" && multiset(signature)['.'] != 2)
  {
    SplitCounts(signature, '.');
  }

  lemma PartsOf(signature: string) returns (h: string, c: string, s: string)
    requires multiset(signature)['.'] == 2
    ensures signature == h + "." + c + "." + s && '.' !in h && '.' !in c && '.' !in s
  {
    SplitCounts(signature, '.');
    JoinOfSplit(signature, '.');
    var parts := Split(signature, '.');
    h, c, s := parts[0], parts[1], parts[2];
    assert h in parts && c in parts && s in parts;
    assert parts == [h, c, s];
    JoinThree(h, c, s);
  }

  lemma JoinThree(h: string, c: string, s: string)
    ensures Join([h, c, s], ".") == h + "." + c + "." + s
  {
    assert [h, c, s][1..] == [c, s] && [c, s][1..] == [s];
    assert Join([c, s], ".") == c + "." + s;
    assert h + "." + (c + "." + s) == h + "." + c + "." + s;
  }

  /** What a genuine signature of these routes is. */
  ghost predicate Genuine<Routes>(
      lib: Library<Routes>, routes: Routes, h: string, c: string, s: string, secret: Data, now: int)
  {
    && '.' !in h && '.' !in c && '.' !in s && MacMatches(lib, h, c, s, secret)
    && ClaimsIn(lib, c).Some? && Unexpired(ClaimsIn(lib, c).value, now)
    && ClaimsIn(lib, c).value.iss == "servconsole"
    && ClaimsIn(lib, c).value.configHash == Encode(lib.sha256(lib.routesJson(routes)))
  }

  /** Whatever the string: it is accepted exactly if it is a genuine signature, still in time, of these routes. */
  lemma AcceptedIffGenuine<Routes>(lib: Library<Routes>, routes: Routes, signature: string, secret: Data, now: int)
    ensures Verify(lib, routes, signature, secret, now).Accepted? <==>
              exists h, c, s :: signature == h + "." + c + "." + s && Genuine(lib, routes, h, c, s, secret, now)
  {
    VerdictOnFormat(lib, routes, signature, secret, now);
    if multiset(signature)['.'] == 2 {
      var h, c, s := PartsOf(signature);
      VerdictOnParts(lib, routes, h, c, s, secret, now);
      assert Verify(lib, routes, signature, secret, now).Accepted? ==> Genuine(lib, routes, h, c, s, secret, now);
    }
    if h, c, s :| signature == h + "." + c + "." + s && Genuine(lib, routes, h, c, s, secret, now) {
      VerdictOnParts(lib, routes, h, c, s, secret, now);
    }
  }

  /** A token signed under another secret is refused exactly if the MACs differ. */
  lemma OtherSecretIsRefused<Routes>(
      lib: Library<Routes>, signed: Routes, routes: Routes, secret: Data, other: Data, t: int, now: int)
    ensures var body := Encode(lib.headerJson) + "." + Encode(lib.claimsJson(SignedClaims(lib, signed, t)));
            Verify(lib, routes, Token(lib, signed, secret, t), other, now).InvalidSignature? <==>
              lib.hmac(secret, body) != lib.hmac(other, body)
  {
    var h, c := Encode(lib.headerJson), Encode(lib.claimsJson(SignedClaims(lib, signed, t)));
    var mac := lib.hmac(secret, h + "." + c);
    NoDotInEncoded(lib.headerJson);
    NoDotInEncoded(lib.claimsJson(SignedClaims(lib, signed, t)));
    NoDotInEncoded(mac);
    VerdictOnParts(lib, routes, h, c, Encode(mac), other, now);
    DecodeOfEncode(mac);
  }

  /** What verification says of a token made by signing, for whatever routes it is presented with. */
  lemma VerifyOfToken<Routes>(lib: Library<Routes>, signed: Routes, routes: Routes, secret: Data, t: int, now: int)
    requires ClaimsRoundTrip(lib)
    ensures Verify(lib, routes, Token(lib, signed, secret, t), secret, now) ==
              if t + 86_400 > 0 && now > t + 86_400 then Expired
              else if ConfigHash(lib, signed) != ConfigHash(lib, routes) then HashMismatch
              else Accepted
  {
    var claims := SignedClaims(lib, signed, t);
    TokenHasThreeParts(lib, signed, secret, t);
    DecodeOfEncode(lib.hmac(secret, Encode(lib.headerJson) + "." + Encode(lib.claimsJson(claims))));
    DecodeOfEncode(lib.claimsJson(claims));
    assert lib.parseClaims(lib.claimsJson(claims)) == Some(claims);
  }

  /** A day has not passed since the signing time t, or t is so long before 1970 that `exp` is not positive. */
  predicate InTime(t: int, now: int) { now <= t + 86_400 || t + 86_400 <= 0 }

  /** An unchanged configuration verifies exactly until 24 hours have passed. */
  lemma UnchangedVerifiesForADay<Routes>(lib: Library<Routes>, routes: Routes, secret: Data, t: int, now: int)
    requires ClaimsRoundTrip(lib)
    ensures Verify(lib, routes, Token(lib, routes, secret, t), secret, now).Accepted? <==> InTime(t, now)
  {
    VerifyOfToken(lib, routes, routes, secret, t, now);
  }

  lemma HashIdentifiesRoutes<Routes(!new)>(lib: Library<Routes>, r: Routes, s: Routes)
    requires CollisionFree(lib) && ConfigHash(lib, r) == ConfigHash(lib, s)
    ensures r == s
  {
    DecodeOfEncode(lib.sha256(lib.routesJson(r)));
    DecodeOfEncode(lib.sha256(lib.routesJson(s)));
  }

  /** A token is accepted exactly in time and for the routes that were signed. */
  lemma AcceptedRoutesAreTheSigned<Routes(!new)>(
      lib: Library<Routes>, signed: Routes, routes: Routes, secret: Data, t: int, now: int)
    requires ClaimsRoundTrip(lib) && CollisionFree(lib)
    ensures Verify(lib, routes, Token(lib, signed, secret, t), secret, now).Accepted? <==> routes == signed && InTime(t, now)
  {
    VerifyOfToken(lib, signed, routes, secret, t, now);
    if ConfigHash(lib, signed) == ConfigHash(lib, routes) { HashIdentifiesRoutes(lib, signed, routes); }
  }
}
