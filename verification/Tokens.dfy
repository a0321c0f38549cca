/**
 * Secrets and passes as typed tokens: prefix, base64url body, Crockford checksum
 * (packages/clawsec/src/secret.ts, pass.ts, checksum.ts). SHA-256 is the parameter `sha256`.
 */
module Tokens {
  import opened Common
  import opened Text
  import Base64url

  const CHECKSUM_LEN := 4
  const SECRET_BYTES := 32
  const KEY_LEN := 32
  const IDENTITY_ID_LEN := 16
  const PASS_BYTES := 128

  /** "rc1_" and "rcp1_". */
  const SECRET_PREFIX: Utf16 := [0x72, 0x63, 0x31, 0x5F]
  const PASS_PREFIX: Utf16 := [0x72, 0x63, 0x70, 0x31, 0x5F]

  datatype Reason = BadPrefix | BadLength | BadEncoding | BadChecksum

  // ---------------------------------------------------------------------------------------------
  // The checksum
  // ---------------------------------------------------------------------------------------------

  type Quintet = v: int | 0 <= v < 32

  /** The alphabet without I, L, O and U. */
  function CrockfordLetter(v: Quintet): Unit {
    if v < 10 then 0x30 + v
    else if v < 18 then 0x41 + (v - 10)
    else if v < 20 then 0x4A + (v - 18)
    else if v < 22 then 0x4D + (v - 20)
    else if v < 27 then 0x50 + (v - 22)
    else 0x56 + (v - 27)
  }

  function DigestByte(digest: Bytes, i: nat): Byte { if i < |digest| then digest[i] else 0 }

  /** The top twenty bits of the digest, five at a time. */
  function Quintets(digest: Bytes): (g: seq<Quintet>)
    ensures |g| == CHECKSUM_LEN
  {
    var b0: int, b1: int, b2: int := DigestByte(digest, 0), DigestByte(digest, 1), DigestByte(digest, 2);
    var bits := b0 * 4096 + b1 * 16 + b2 / 16;
    [bits / 32768 % 32, bits / 1024 % 32, bits / 32 % 32, bits % 32]
  }

  function CrockfordChecksum(digest: Bytes): (s: Utf16)
    ensures |s| == CHECKSUM_LEN
  {
    var g := Quintets(digest);
    seq(|g|, i requires 0 <= i < |g| => CrockfordLetter(g[i]))
  }

  /**
   * Uppercasing, for a text of four units that has to match four letters: besides a-z only the dotless i
   * and the long s become a letter; characters that uppercase to several units never match.
   */
  function Upper(u: Unit): Unit {
    if 0x61 <= u <= 0x7A then u - 0x20 else if u == 0x131 then 0x49 else if u == 0x17F then 0x53 else u
  }

  /** O reads as 0, I and L as 1. */
  function NormalizeUnit(u: Unit): Unit {
    var c := Upper(u);
    if c == 0x4F then 0x30 else if c == 0x49 || c == 0x4C then 0x31 else c
  }

  function NormalizeChecksum(s: Utf16): Utf16 { seq(|s|, i requires 0 <= i < |s| => NormalizeUnit(s[i])) }

  /** The ways to write one checksum letter. */
  predicate Spells(u: Unit, letter: Unit) {
    || u == letter
    || (0x41 <= letter <= 0x5A && u == letter + 0x20)
    || (letter == 0x30 && u in {0x4F, 0x6F})
    || (letter == 0x31 && u in {0x49, 0x69, 0x4C, 0x6C, 0x131})
    || (letter == 0x53 && u == 0x17F)
  }

  lemma NormalizesToIff(u: Unit, v: Quintet)
    ensures NormalizeUnit(u) == CrockfordLetter(v) <==> Spells(u, CrockfordLetter(v))
  {
  }

  predicate SpellsChecksum(s: Utf16, checksum: Utf16) {
    |s| == |checksum| && forall i :: 0 <= i < |s| ==> Spells(s[i], checksum[i])
  }

  lemma ChecksumAcceptedIff(s: Utf16, digest: Bytes)
    ensures NormalizeChecksum(s) == CrockfordChecksum(digest) <==> SpellsChecksum(s, CrockfordChecksum(digest))
  {
    var c := CrockfordChecksum(digest);
    if |s| == 4 {
      forall i | 0 <= i < 4 ensures NormalizeChecksum(s)[i] == c[i] <==> Spells(s[i], c[i]) {
        NormalizesToIff(s[i], Quintets(digest)[i]);
      }
      if NormalizeChecksum(s) == c {
        assert forall i :: 0 <= i < 4 ==> NormalizeChecksum(s)[i] == c[i];
      }
    } else {
      assert |NormalizeChecksum(s)| == |s|;
    }
  }

  // ---------------------------------------------------------------------------------------------
  // Tokens
  // ---------------------------------------------------------------------------------------------

  function FormatToken(sha256: Bytes -> Bytes, prefix: Utf16, payload: Bytes): Utf16 {
    prefix + Base64url.Encode(payload) + CrockfordChecksum(sha256(payload))
  }

  /** The checks both parsers make, in their order. */
  function ParseToken(sha256: Bytes -> Bytes, prefix: Utf16, size: nat, token: Utf16): Result<Bytes, Reason> {
    if !(prefix <= token) then Err(BadPrefix)
    else ParseBody(sha256, size, token[|prefix|..])
  }

  function ParseBody(sha256: Bytes -> Bytes, size: nat, body: Utf16): Result<Bytes, Reason> {
    var n := Base64url.EncodedLength(size);
    if |body| != n + CHECKSUM_LEN then Err(BadLength)
    else
      var payload := Base64url.Decode(body[..n]);
      if payload.None? then Err(BadEncoding)
      else if |payload.value| != size then Err(BadLength)
      else if Base64url.Encode(payload.value) != body[..n] then Err(BadEncoding)
      else if NormalizeChecksum(body[n..]) != CrockfordChecksum(sha256(payload.value)) then Err(BadChecksum)
      else Ok(payload.value)
  }

  /** The token is the formatter's, up to the spelling of the checksum. */
  predicate SpellsToken(sha256: Bytes -> Bytes, prefix: Utf16, token: Utf16, payload: Bytes) {
    var head := prefix + Base64url.Encode(payload);
    head <= token && SpellsChecksum(token[|head|..], CrockfordChecksum(sha256(payload)))
  }

  lemma BodyAcceptedIff(sha256: Bytes -> Bytes, size: nat, body: Utf16, payload: Bytes)
    ensures ParseBody(sha256, size, body) == Ok(payload)
            <==> |payload| == size && Base64url.Encode(payload) <= body
                 && SpellsChecksum(body[|Base64url.Encode(payload)|..], CrockfordChecksum(sha256(payload)))
  {
    var e, n := Base64url.Encode(payload), Base64url.EncodedLength(size);
    Base64url.EncodeLength(payload);
    Base64url.DecodeInvertsEncode(payload);
    if |body| == n + CHECKSUM_LEN {
      ChecksumAcceptedIff(body[n..], sha256(payload));
    }
    if e <= body {
      assert body[..|e|] == e;
    }
  }

  lemma PrefixOfConcatenation(a: Utf16, b: Utf16, t: Utf16)
    ensures a + b <= t <==> a <= t && b <= t[|a|..]
    ensures a + b <= t ==> t[|a + b|..] == t[|a|..][|b|..]
  {
    if a <= t && b <= t[|a|..] {
      assert t == a + t[|a|..] == a + (b + t[|a|..][|b|..]);
    }
    if a + b <= t {
      assert t == (a + b) + t[|a + b|..];
      assert t == a + (b + t[|a + b|..]);
      assert t[|a|..] == b + t[|a + b|..];
    }
  }

  /** A token is accepted as a payload exactly when it is that payload's token up to checksum spelling. */
  lemma TokenAcceptedIff(sha256: Bytes -> Bytes, prefix: Utf16, size: nat, token: Utf16, payload: Bytes)
    ensures ParseToken(sha256, prefix, size, token) == Ok(payload)
            <==> |payload| == size && SpellsToken(sha256, prefix, token, payload)
  {
    PrefixOfConcatenation(prefix, Base64url.Encode(payload), token);
    if prefix <= token {
      BodyAcceptedIff(sha256, size, token[|prefix|..], payload);
    }
  }

  lemma FormatSpells(sha256: Bytes -> Bytes, prefix: Utf16, payload: Bytes)
    ensures SpellsToken(sha256, prefix, FormatToken(sha256, prefix, payload), payload)
  {
    var head := prefix + Base64url.Encode(payload);
    assert FormatToken(sha256, prefix, payload)[|head|..] == CrockfordChecksum(sha256(payload));
  }

  // ---------------------------------------------------------------------------------------------
  // Secrets
  // ---------------------------------------------------------------------------------------------

  function FormatSecret(sha256: Bytes -> Bytes, secret: Bytes): Result<Utf16, Reason> {
    if |secret| != SECRET_BYTES then Err(BadLength) else Ok(FormatToken(sha256, SECRET_PREFIX, secret))
  }

  function ParseSecret(sha256: Bytes -> Bytes, token: Utf16): Result<Bytes, Reason> {
    ParseToken(sha256, SECRET_PREFIX, SECRET_BYTES, token)
  }

  /** The parser inverts the formatter, and accepts nothing but its token with the checksum respelled. */
  lemma SecretRoundTrip(sha256: Bytes -> Bytes, secret: Bytes, token: Utf16)
    ensures FormatSecret(sha256, secret).Ok? ==> ParseSecret(sha256, FormatSecret(sha256, secret).value) == Ok(secret)
    ensures ParseSecret(sha256, token) == Ok(secret)
            <==> FormatSecret(sha256, secret).Ok? && SpellsToken(sha256, SECRET_PREFIX, token, secret)
  {
    FormatSpells(sha256, SECRET_PREFIX, secret);
    TokenAcceptedIff(sha256, SECRET_PREFIX, SECRET_BYTES, FormatToken(sha256, SECRET_PREFIX, secret), secret);
    TokenAcceptedIff(sha256, SECRET_PREFIX, SECRET_BYTES, token, secret);
  }

  /** Not one valid token per secret, as the parser's comment has it: a checksum letter may be in lowercase. */
  lemma ChecksumHasOtherSpellings(sha256: Bytes -> Bytes, secret: Bytes, i: nat)
    requires |secret| == SECRET_BYTES && i < CHECKSUM_LEN && 0x41 <= CrockfordChecksum(sha256(secret))[i] <= 0x5A
    ensures var head, c := SECRET_PREFIX + Base64url.Encode(secret), CrockfordChecksum(sha256(secret));
            var other := c[i := c[i] + 0x20];
            other != c && ParseSecret(sha256, head + other) == Ok(secret)
  {
    var head, c := SECRET_PREFIX + Base64url.Encode(secret), CrockfordChecksum(sha256(secret));
    var other := c[i := c[i] + 0x20];
    assert (head + other)[|head|..] == other && other[i] != c[i];
    SecretRoundTrip(sha256, secret, head + other);
  }

  // ---------------------------------------------------------------------------------------------
  // Passes
  // ---------------------------------------------------------------------------------------------

  datatype Identity = Identity(authToken: Bytes, identityId: Bytes, contentRoot: Bytes, controlKey: Bytes, kMeta: Bytes)

  predicate KeysFit(id: Identity) {
    |id.authToken| == KEY_LEN && |id.contentRoot| == KEY_LEN && |id.controlKey| == KEY_LEN && |id.kMeta| == KEY_LEN
  }

  function Payload(id: Identity): Bytes { id.authToken + id.contentRoot + id.controlKey + id.kMeta }

  function IdentityIdOf(sha256: Bytes -> Bytes, authToken: Bytes): Bytes {
    var d := sha256(authToken);
    if |d| <= IDENTITY_ID_LEN then d else d[..IDENTITY_ID_LEN]
  }

  function IdentityOf(sha256: Bytes -> Bytes, payload: Bytes): Identity
    requires |payload| == PASS_BYTES
  {
    Identity(payload[..32], IdentityIdOf(sha256, payload[..32]), payload[32..64], payload[64..96], payload[96..])
  }

  /** `payload.set(key, offset)` */
  method Set(payload: array<Byte>, key: Bytes, offset: nat)
    requires offset + |key| <= payload.Length
    modifies payload
    ensures payload[..] == old(payload[..offset]) + key + old(payload[offset + |key|..])
  {
    forall i | 0 <= i < |key| {
      payload[offset + i] := key[i];
    }
  }

  /** The four keys side by side, in a buffer filled in place. */
  method FormatPass(sha256: Bytes -> Bytes, id: Identity) returns (r: Result<Utf16, Reason>)
    ensures r == if KeysFit(id) then Ok(FormatToken(sha256, PASS_PREFIX, Payload(id))) else Err(BadLength)
  {
    if |id.authToken| != KEY_LEN || |id.contentRoot| != KEY_LEN || |id.controlKey| != KEY_LEN || |id.kMeta| != KEY_LEN {
      return Err(BadLength);
    }
    var payload := new Byte[PASS_BYTES];
    Set(payload, id.authToken, 0);
    Set(payload, id.contentRoot, KEY_LEN);
    Set(payload, id.controlKey, 2 * KEY_LEN);
    Set(payload, id.kMeta, 3 * KEY_LEN);
    assert payload[..] == Payload(id);
    return Ok(FormatToken(sha256, PASS_PREFIX, payload[..]));
  }

  function ParsePass(sha256: Bytes -> Bytes, token: Utf16): Result<Identity, Reason> {
    var payload := ParseToken(sha256, PASS_PREFIX, PASS_BYTES, token);
    if payload.Err? then Err(payload.error)
    else
      TokenAcceptedIff(sha256, PASS_PREFIX, PASS_BYTES, token, payload.value);
      Ok(IdentityOf(sha256, payload.value))
  }

  lemma PayloadHoldsKeys(sha256: Bytes -> Bytes, id: Identity, payload: Bytes)
    requires |payload| == PASS_BYTES
    ensures IdentityOf(sha256, payload) == id
            <==> KeysFit(id) && payload == Payload(id) && id.identityId == IdentityIdOf(sha256, id.authToken)
  {
    if KeysFit(id) && payload == Payload(id) {
      assert payload[..32] == id.authToken && payload[32..64] == id.contentRoot;
      assert payload[64..96] == id.controlKey && payload[96..] == id.kMeta;
    }
    var parsed := IdentityOf(sha256, payload);
    assert payload == Payload(parsed);
  }

  /**
   * A token parses as an identity exactly when it is the pass of its four keys, up to checksum spelling, and
   * the identity id is the one the auth token determines; so parsing inverts formatting.
   */
  lemma PassAcceptedIff(sha256: Bytes -> Bytes, token: Utf16, id: Identity)
    ensures ParsePass(sha256, token) == Ok(id)
            <==> KeysFit(id) && id.identityId == IdentityIdOf(sha256, id.authToken)
                 && SpellsToken(sha256, PASS_PREFIX, token, Payload(id))
  {
    TokenAcceptedIff(sha256, PASS_PREFIX, PASS_BYTES, token, Payload(id));
    var payload := ParseToken(sha256, PASS_PREFIX, PASS_BYTES, token);
    if payload.Ok? {
      TokenAcceptedIff(sha256, PASS_PREFIX, PASS_BYTES, token, payload.value);
      PayloadHoldsKeys(sha256, id, payload.value);
    }
    if KeysFit(id) {
      PayloadHoldsKeys(sha256, id.(identityId := IdentityIdOf(sha256, id.authToken)), Payload(id));
    }
  }

  /** Parsing a formatted pass gives the identity back exactly when its id is the derived one. */
  lemma PassRoundTrip(sha256: Bytes -> Bytes, id: Identity)
    requires KeysFit(id)
    ensures var token := FormatToken(sha256, PASS_PREFIX, Payload(id));
            && ParsePass(sha256, token) == Ok(id.(identityId := IdentityIdOf(sha256, id.authToken)))
            && (ParsePass(sha256, token) == Ok(id) <==> id.identityId == IdentityIdOf(sha256, id.authToken))
  {
    var derived := id.(identityId := IdentityIdOf(sha256, id.authToken));
    FormatSpells(sha256, PASS_PREFIX, Payload(id));
    PassAcceptedIff(sha256, FormatToken(sha256, PASS_PREFIX, Payload(id)), derived);
  }
}
