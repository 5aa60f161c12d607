/** Player tokens: a version byte, a big-endian expiry, a length byte and the player's
    identifier, authenticated and written in base64url. */
module PlayerToken {
  import opened Prelude
  import opened Identifier
  import opened Transcript
  import opened Base64

  datatype TokenError = ErrInvalid | ErrExpired

  datatype Claims = Claims(playerID: string, expiresUnixNano: int)

  const TOKEN_VERSION := 1
  const HEADER_SIZE := 10
  const TAG_SIZE := 32

  function FromAscii(b: Bytes): string { seq(|b|, i requires 0 <= i < |b| => b[i] as char) }

  lemma AsciiInverse(id: string)
    requires IsAscii(id)
    ensures FromAscii(Ascii(id)) == id
  {
  }

  lemma AsciiOfBytes(b: Bytes)
    ensures Ascii(FromAscii(b)) == b
  {
  }

  lemma ValidIsAscii(id: string)
    requires ValidID(id)
    ensures IsAscii(id) && 1 <= |id| <= MAX_ID_BYTES
  {
  }

  function Payload(c: Claims): Bytes {
    [TOKEN_VERSION] + BigEndian(8, Unsigned(c.expiresUnixNano)) + [|c.playerID| % 256] + Ascii(c.playerID)
  }

  /** The one text of these claims under `key`. */
  function TokenOf(hmac: Hmac, key: Bytes, c: Claims): string { Encode(Payload(c) + hmac(key, Payload(c))) }

  /** Claims that a token can carry. */
  predicate Issuable(c: Claims) { ValidID(c.playerID) && 0 < c.expiresUnixNano <= MAX_INT64 }

  /** Issue a token that expires at `unixNano`, counted without bound. */
  function Issue(hmac: Hmac, key: Bytes, playerID: string, unixNano: int): Result<(string, Claims), TokenError> {
    var wrapped := SignedWrap(unixNano);
    if !ValidID(playerID) || wrapped <= 0 || wrapped != unixNano then Err(ErrInvalid)
    else Ok((TokenOf(hmac, key, Claims(playerID, wrapped)), Claims(playerID, wrapped)))
  }

  /** The buffer is filled at fixed offsets, then the tag is appended. */
  method IssueToken(hmac: Hmac, key: Bytes, playerID: string, unixNano: int) returns (result: Result<(string, Claims),
      TokenError>)
    ensures result == Issue(hmac, key, playerID, unixNano)
  {
    var valid := CheckID(playerID);
    var wrapped := SignedWrap(unixNano);
    if !valid || wrapped <= 0 || wrapped != unixNano {
      return Err(ErrInvalid);
    }
    var payload := new byte[HEADER_SIZE + |playerID|];
    payload[0] := TOKEN_VERSION;
    ghost var expiry := BigEndian(8, Unsigned(wrapped));
    var rest := Unsigned(wrapped);
    for i := 0 to 8
      invariant payload[0] == TOKEN_VERSION
      invariant BigEndian(8 - i, rest) == expiry[..8 - i]
      invariant forall k | 8 - i <= k < 8 :: payload[1 + k] == expiry[k]
    {
      BigEndianLast(8 - i, rest);
      payload[8 - i] := rest % 256;
      rest := rest / 256;
    }
    payload[9] := |playerID| % 256;
    var id := Ascii(playerID);
    for i := 0 to |playerID|
      invariant payload[0] == TOKEN_VERSION && payload[9] == |playerID| % 256
      invariant forall k | 0 <= k < 8 :: payload[1 + k] == expiry[k]
      invariant forall k | 0 <= k < i :: payload[HEADER_SIZE + k] == id[k]
    {
      payload[HEADER_SIZE + i] := id[i];
    }
    assert payload[..] == Payload(Claims(playerID, wrapped));
    var tag := hmac(key, payload[..]);
    return Ok((Encode(payload[..] + tag), Claims(playerID, wrapped)));
  }

  lemma BigEndianLast(width: nat, n: nat)
    requires width > 0
    ensures BigEndian(width, n)[width - 1] == n % 256
      && BigEndian(width, n)[..width - 1] == BigEndian(width - 1, n / 256)
  {
  }

  /** The claims of a decoded token, or why there are none. */
  function Open(hmac: Hmac, key: Bytes, raw: Bytes, nowUnixNano: int): Result<Claims, TokenError>
    requires HEADER_SIZE + 1 + TAG_SIZE <= |raw|
  {
    var length := raw[9];
    if raw[0] != TOKEN_VERSION || length < 1 || length > MAX_ID_BYTES
      || |raw| != HEADER_SIZE + length + TAG_SIZE then Err(ErrInvalid)
    else
      var payload := raw[..|raw| - TAG_SIZE];
      if raw[|payload|..] != hmac(key, payload) then Err(ErrInvalid)
      else
        var claims := Claims(FromAscii(payload[HEADER_SIZE..]), SignedWrap(FromBigEndian(payload[1..9])));
        if !ValidID(claims.playerID) || claims.expiresUnixNano <= 0 then Err(ErrInvalid)
        else if nowUnixNano >= claims.expiresUnixNano then Err(ErrExpired)
        else Ok(claims)
  }

  const MIN_RAW := HEADER_SIZE + 1 + TAG_SIZE
  const MAX_RAW := HEADER_SIZE + MAX_ID_BYTES + TAG_SIZE

  function EncodedLen(n: nat): nat { (n * 8 + 5) / 6 }

  function Verify(hmac: Hmac, key: Bytes, token: string, nowUnixNano: int): Result<Claims, TokenError> {
    if |token| < EncodedLen(MIN_RAW) || |token| > EncodedLen(MAX_RAW) then Err(ErrInvalid)
    else match Decode(token)
      case None => Err(ErrInvalid)
      case Some(raw) =>
        if Encode(raw) != token || |raw| < MIN_RAW || |raw| > MAX_RAW then Err(ErrInvalid)
        else Open(hmac, key, raw, nowUnixNano)
  }

  // ---------------------------------------------------------------- properties

  ghost predicate TagsAre32(hmac: Hmac) { forall key, message :: |hmac(key, message)| == TAG_SIZE }

  lemma PayloadShape(c: Claims)
    requires Issuable(c)
    ensures var p := Payload(c);
      && |p| == HEADER_SIZE + |c.playerID| && p[0] == TOKEN_VERSION && p[9] == |c.playerID| && 1 <= |c.playerID| <= 64
      && p[1..9] == BigEndian(8, Unsigned(c.expiresUnixNano)) && p[HEADER_SIZE..] == Ascii(c.playerID)
      && SignedWrap(FromBigEndian(p[1..9])) == c.expiresUnixNano && FromAscii(p[HEADER_SIZE..]) == c.playerID
  {
    hide ValidID, BigEndian, FromBigEndian, Ascii, FromAscii, IsAscii, Pow256;
    Widths();
    BigEndianInverse(8, Unsigned(c.expiresUnixNano));
    ValidIsAscii(c.playerID);
    AsciiInverse(c.playerID);
    LayoutParts([TOKEN_VERSION], BigEndian(8, Unsigned(c.expiresUnixNano)), [|c.playerID| % 256], Ascii(c.playerID));
  }

  /** A payload is laid out at fixed offsets. */
  lemma LayoutParts(version: Bytes, expiry: Bytes, length: Bytes, id: Bytes)
    requires |version| == 1 && |expiry| == 8 && |length| == 1
    ensures var p := version + expiry + length + id;
      |p| == HEADER_SIZE + |id| && p[0] == version[0] && p[9] == length[0] && p[1..9] == expiry
        && p[HEADER_SIZE..] == id
  {
  }

  lemma ShapeDecides(raw: Bytes, c: Claims, tag: Bytes)
    requires |raw| >= MIN_RAW && raw[0] == TOKEN_VERSION && 1 <= raw[9] <= MAX_ID_BYTES
      && |raw| == HEADER_SIZE + raw[9] + TAG_SIZE
    requires c == Claims(FromAscii(raw[..|raw| - TAG_SIZE][HEADER_SIZE..]),
      SignedWrap(FromBigEndian(raw[..|raw| - TAG_SIZE][1..9])))
    ensures Payload(c) == raw[..|raw| - TAG_SIZE]
    ensures c.expiresUnixNano <= MAX_INT64
  {
    var payload := raw[..|raw| - TAG_SIZE];
    AsciiOfBytes(payload[HEADER_SIZE..]);
    Widths();
    FromBigEndianInverse(payload[1..9]);
    UnsignedOfSigned(FromBigEndian(payload[1..9]));
    assert payload == [payload[0]] + payload[1..9] + [payload[9]] + payload[HEADER_SIZE..];
  }

  lemma UnsignedOfSigned(n: nat)
    requires n < 0x1_0000_0000_0000_0000
    ensures Unsigned(SignedWrap(n)) == n && SignedWrap(n) <= MAX_INT64
  {
  }

  /** A token is accepted for claims exactly if it is the one text of those claims under the
      key and the claims are issuable; before expiry it yields them, from expiry on it is
      expired. */
  lemma VerifyExactly(hmac: Hmac, key: Bytes, token: string, now: int, c: Claims)
    requires TagsAre32(hmac)
    ensures Verify(hmac, key, token, now) == Ok(c) <==>
      Issuable(c) && token == TokenOf(hmac, key, c) && now < c.expiresUnixNano
    ensures Issuable(c) && token == TokenOf(hmac, key, c) && now >= c.expiresUnixNano ==>
      Verify(hmac, key, token, now) == Err(ErrExpired)
  {
    if Issuable(c) && token == TokenOf(hmac, key, c) {
      TokenVerifies(hmac, key, token, now, c);
    }
    if Verify(hmac, key, token, now) == Ok(c) {
      AcceptedIsCanonical(hmac, key, token, now);
    }
  }

  lemma TokenVerifies(hmac: Hmac, key: Bytes, token: string, now: int, c: Claims)
    requires TagsAre32(hmac) && Issuable(c) && token == TokenOf(hmac, key, c)
    ensures Verify(hmac, key, token, now) == if now < c.expiresUnixNano then Ok(c) else Err(ErrExpired)
  {
    var payload := Payload(c);
    var raw := payload + hmac(key, payload);
    PayloadShape(c);
    DecodeEncode(raw);
    EncodedLength(raw);
    assert raw[..|raw| - TAG_SIZE] == payload && raw[|payload|..] == hmac(key, payload);
    hide Payload, Decode, Encode;
  }

  lemma AcceptedIsCanonical(hmac: Hmac, key: Bytes, token: string, now: int)
    requires TagsAre32(hmac) && Verify(hmac, key, token, now).Ok?
    ensures var c := Verify(hmac, key, token, now).value;
      Issuable(c) && token == TokenOf(hmac, key, c) && now < c.expiresUnixNano
  {
    hide Decode, Encode, Payload;
    var raw := Decode(token).value;
    var c := Verify(hmac, key, token, now).value;
    var payload := raw[..|raw| - TAG_SIZE];
    ShapeDecides(raw, c, hmac(key, payload));
    assert raw == payload + raw[|payload|..];
  }

  /** Whatever `Issue` returns verifies to the issued claims at every time before expiry. */
  lemma IssuedVerifies(hmac: Hmac, key: Bytes, playerID: string, unixNano: int, now: int)
    requires TagsAre32(hmac) && Issue(hmac, key, playerID, unixNano).Ok?
    ensures var (token, claims) := Issue(hmac, key, playerID, unixNano).value;
      && claims == Claims(playerID, unixNano)
      && Verify(hmac, key, token, now) == if now < unixNano then Ok(claims) else Err(ErrExpired)
  {
    var (token, claims) := Issue(hmac, key, playerID, unixNano).value;
    TokenVerifies(hmac, key, token, now, claims);
  }

  /** Two tokens are the same only for the same claims. */
  lemma TokensDiffer(hmac: Hmac, key: Bytes, a: Claims, b: Claims)
    requires TagsAre32(hmac) && Issuable(a) && Issuable(b) && TokenOf(hmac, key, a) == TokenOf(hmac, key, b)
    ensures a == b
  {
    var now := Min(a.expiresUnixNano, b.expiresUnixNano) - 1;
    TokenVerifies(hmac, key, TokenOf(hmac, key, a), now, a);
    TokenVerifies(hmac, key, TokenOf(hmac, key, b), now, b);
  }
}
