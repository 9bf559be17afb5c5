/**
 * The authentication helpers of src/routes/handlers/auth.rs. The crates they
 * call (argon2 for RFC 9106 password hashing, csrf for ChaCha20-Poly1305
 * tokens as in RFC 8439, data-encoding for base64 as in section 4 of RFC 4648)
 * are left uninterpreted: each entry point is a function-valued field, and
 * what those crates promise is stated as a predicate that a lemma assumes.
 */
module Auth {
  import opened Wrappers

  type byte = b: int | 0 <= b < 256

  /** The 32-byte `AEAD_KEY`. */
  type Key = k: seq<byte> | |k| == 32 witness seq(32, i => 0)

  /** An error reported by one of the crates. */
  datatype LibError = LibError(reason: string)

  /** A parsed PHC hash string: algorithm, parameters, salt and digest. */
  datatype PasswordHash = PasswordHash(algorithm: string, params: string, salt: string, digest: seq<byte>)

  /** `Argon2::default()` and `PasswordHash` from the argon2 crate. */
  datatype Argon2 = Argon2(
    hashPassword: (string, string) -> Result<PasswordHash, LibError>,    // (input, salt)
    render: PasswordHash -> string,                                       // `PasswordHash::to_string`
    parse: string -> Result<PasswordHash, LibError>,                      // `PasswordHash::new`
    verifyPassword: (string, PasswordHash) -> Result<(), LibError>)

  /**
   * `ChaCha20Poly1305CsrfProtection` from the csrf crate, keyed. Token
   * generation draws randomness and reads the clock; a value of this type
   * stands for one such run.
   */
  datatype CsrfCrate = CsrfCrate(
    generateTokenPair: (Key, int) -> Result<(seq<byte>, seq<byte>), LibError>,   // (key, ttl seconds) to (token, cookie)
    parseCookie: (Key, seq<byte>) -> Result<seq<byte>, LibError>)

  /** data-encoding's and the csrf crate's standard base64. */
  datatype Base64 = Base64(
    encode: seq<byte> -> string,
    decode: string -> Result<seq<byte>, LibError>)

  /** The process-wide secrets and the crates, as the helpers find them. */
  datatype Config = Config(pepper: string, aeadKey: Key, argon2: Argon2, csrf: CsrfCrate, base64: Base64)

  /** The lifetime requested for every token pair; 10 seconds despite the name. */
  const ONE_WEEK_SECONDS: int := 10

  /** sprinkle_pepper: the pepper immediately followed by the password. */
  function SprinklePepper(pepper: string, pwInput: string): (r: string)
    ensures |r| == |pepper| + |pwInput|
    ensures r[..|pepper|] == pepper && r[|pepper|..] == pwInput
  {
    pepper + pwInput
  }

  /** get_new_token_pair: a fresh (token, cookie) pair with the fixed lifetime, both base64 text. */
  function GetNewTokenPair(c: Config): (r: Result<(string, string), LibError>)
    ensures r.Ok? <==> c.csrf.generateTokenPair(c.aeadKey, ONE_WEEK_SECONDS).Ok?
    ensures r.Ok? ==> var raw := c.csrf.generateTokenPair(c.aeadKey, ONE_WEEK_SECONDS).value;
                      r.value == (c.base64.encode(raw.0), c.base64.encode(raw.1))
  {
    match c.csrf.generateTokenPair(c.aeadKey, ONE_WEEK_SECONDS)
    case Ok(pair) => Ok((c.base64.encode(pair.0), c.base64.encode(pair.1)))
    case Err(e) => Err(e)
  }

  /** verify_cookie: base64-decode the cookie, then have the AEAD accept it; fail at the first step that fails. */
  function VerifyCookie(c: Config, cookie: string): (r: Result<(), LibError>)
    ensures c.base64.decode(cookie).Err? ==> r == Err(c.base64.decode(cookie).error)
    ensures c.base64.decode(cookie).Ok? ==>
              (r.Ok? <==> c.csrf.parseCookie(c.aeadKey, c.base64.decode(cookie).value).Ok?)
  {
    match c.base64.decode(cookie)
    case Err(e) => Err(e)
    case Ok(cookieBytes) =>
      match c.csrf.parseCookie(c.aeadKey, cookieBytes)
      case Err(e) => Err(e)
      case Ok(_) => Ok(())
  }

  /** verify_token_pair: a stub that accepts every pair. */
  function VerifyTokenPair(c: Config, token: string, cookie: string): (r: Result<(), LibError>)
    ensures r.Ok?
  {
    Ok(())
  }

  /** get_new_hashed_password: the PHC string of the Argon2 hash of the peppered password. */
  function GetNewHashedPassword(c: Config, salt: string, pwInput: string): (r: Result<string, LibError>)
    ensures r.Ok? <==> c.argon2.hashPassword(SprinklePepper(c.pepper, pwInput), salt).Ok?
    ensures r.Ok? ==> r.value == c.argon2.render(c.argon2.hashPassword(SprinklePepper(c.pepper, pwInput), salt).value)
  {
    match c.argon2.hashPassword(SprinklePepper(c.pepper, pwInput), salt)
    case Ok(hashed) => Ok(c.argon2.render(hashed))
    case Err(e) => Err(e)
  }

  /** verify_password: parse the stored hash (failing before any comparison), then check the peppered candidate. */
  function VerifyPassword(c: Config, candidateHash: string, candidatePw: string): (r: Result<(), LibError>)
    ensures c.argon2.parse(candidateHash).Err? ==> r == Err(c.argon2.parse(candidateHash).error)
    ensures c.argon2.parse(candidateHash).Ok? ==>
              r == c.argon2.verifyPassword(SprinklePepper(c.pepper, candidatePw), c.argon2.parse(candidateHash).value)
  {
    match c.argon2.parse(candidateHash)
    case Err(e) => Err(e)
    case Ok(pwHash) => c.argon2.verifyPassword(SprinklePepper(c.pepper, candidatePw), pwHash)
  }

  /** What the argon2 crate promises: a hash it made renders to a string that parses back and verifies its input. */
  ghost predicate Argon2RoundTrips(a: Argon2)
  {
    forall input, salt :: a.hashPassword(input, salt).Ok? ==>
      && a.parse(a.render(a.hashPassword(input, salt).value)) == Ok(a.hashPassword(input, salt).value)
      && a.verifyPassword(input, a.hashPassword(input, salt).value).Ok?
  }

  /** The idealised strength of Argon2: only the hashed input verifies against a hash. */
  ghost predicate Argon2Binding(a: Argon2)
  {
    forall input, other, salt ::
      (a.hashPassword(input, salt).Ok? && a.verifyPassword(other, a.hashPassword(input, salt).value).Ok?)
      ==> other == input
  }

  /**
   * What the csrf crate promises: a cookie it generated parses under the same
   * key (if `parse_cookie` checks expiry, for a cookie presented within the
   * lifetime it was generated with).
   */
  ghost predicate CsrfRoundTrips(p: CsrfCrate)
  {
    forall key, ttl :: p.generateTokenPair(key, ttl).Ok? ==>
      p.parseCookie(key, p.generateTokenPair(key, ttl).value.1).Ok?
  }

  /** What a base64 codec promises: decoding inverts encoding. */
  ghost predicate Base64RoundTrips(b: Base64)
  {
    forall bytes :: b.decode(b.encode(bytes)) == Ok(bytes)
  }

  /** The standard base64 alphabet of section 4 of RFC 4648, with the `=` padding. */
  predicate IsBase64Char(c: char)
  {
    ('A' <= c <= 'Z') || ('a' <= c <= 'z') || ('0' <= c <= '9') || c == '+' || c == '/' || c == '='
  }

  predicate IsBase64Text(s: string)
  {
    forall i :: 0 <= i < |s| ==> IsBase64Char(s[i])
  }

  /** Peppering loses nothing: for one pepper, different passwords stay different. */
  lemma PepperIsInjective(pepper: string, a: string, b: string)
    requires SprinklePepper(pepper, a) == SprinklePepper(pepper, b)
    ensures a == b
  {
    assert a == SprinklePepper(pepper, a)[|pepper|..];
  }

  /** Hashing and verifying pepper alike, so a freshly hashed password verifies. */
  lemma HashedPasswordVerifies(c: Config, salt: string, pw: string)
    requires Argon2RoundTrips(c.argon2)
    requires GetNewHashedPassword(c, salt, pw).Ok?
    ensures VerifyPassword(c, GetNewHashedPassword(c, salt, pw).value, pw).Ok?
  {
    var input := SprinklePepper(c.pepper, pw);
    assert c.argon2.hashPassword(input, salt).Ok?;
  }

  /** With an ideal Argon2, no password other than the hashed one verifies against the hash. */
  lemma OnlyHashedPasswordVerifies(c: Config, salt: string, pw: string, other: string)
    requires Argon2RoundTrips(c.argon2) && Argon2Binding(c.argon2)
    requires GetNewHashedPassword(c, salt, pw).Ok?
    requires VerifyPassword(c, GetNewHashedPassword(c, salt, pw).value, other).Ok?
    ensures other == pw
  {
    var input := SprinklePepper(c.pepper, pw);
    assert c.argon2.hashPassword(input, salt).Ok?;
    var ph := c.argon2.hashPassword(input, salt).value;
    assert c.argon2.parse(c.argon2.render(ph)) == Ok(ph);
    assert c.argon2.verifyPassword(SprinklePepper(c.pepper, other), ph).Ok?;
    PepperIsInjective(c.pepper, other, pw);
  }

  /** A cookie from get_new_token_pair passes verify_cookie under the same key. */
  lemma IssuedCookieVerifies(c: Config)
    requires CsrfRoundTrips(c.csrf) && Base64RoundTrips(c.base64)
    requires GetNewTokenPair(c).Ok?
    ensures VerifyCookie(c, GetNewTokenPair(c).value.1).Ok?
  {
    var raw := c.csrf.generateTokenPair(c.aeadKey, ONE_WEEK_SECONDS).value;
    assert c.base64.decode(c.base64.encode(raw.1)) == Ok(raw.1);
  }
}
