/** Relay datagrams as abstract envelopes: which are accepted, which may be sent, and how many
    bytes they take in deterministic Protocol Buffers encoding. */
module Codec {
  import opened Prelude
  import opened Identifier

  const MAX_PAYLOAD_BYTES := 900
  const MIN_HELLO_BYTES := 256

  datatype Body =
    | Hello(grantID: Bytes, clientNonce: Bytes, padding: Bytes)
    | Challenge(candidateID: Bytes, serverNonce: Bytes, expiresUnixMS: int)
    | Auth(candidateID: Bytes)
    | Bound(bindingID: Bytes, expiresUnixMS: int)
    | ClientData(bindingID: Bytes, payload: Bytes)
    | ServerData(senderParticipantID: string, payload: Bytes)
    | Ping(bindingID: Bytes)

  /** The unknown fields of the envelope and of its body are kept by the parser. */
  datatype Envelope = Envelope(
    revision: nat, sequence: nat, authTag: Bytes, sessionID: string, roomID: string, body: Option<Body>,
    unknownFields: Bytes, unknownBodyFields: Bytes)

  datatype Failure = Malformed | Oversized | UnsupportedVersion

  type Parser = Bytes -> Option<Envelope>

  // ---------------------------------------------------------------- validation

  function ValidateEnvelope(e: Envelope): Option<Failure> {
    if e.unknownFields != [] then Some(Malformed)
    else if e.revision != REVISION then Some(UnsupportedVersion)
    else if !ValidID(e.roomID) || !ValidID(e.sessionID) then Some(Malformed)
    else None
  }

  function ValidateClient(e: Envelope, datagramBytes: nat): Option<Failure> {
    match e.body
    case Some(Hello(grantID, clientNonce, _)) =>
      if e.unknownBodyFields != [] || e.sequence != 0 || e.authTag != [] || |grantID| != 16 || |clientNonce| != 16
        || datagramBytes < MIN_HELLO_BYTES then Some(Malformed) else None
    case Some(Auth(candidateID)) =>
      if e.unknownBodyFields != [] || e.sequence != 0 || |e.authTag| != 32 || |candidateID| != 16 then Some(Malformed)
        else None
    case Some(ClientData(bindingID, payload)) =>
      if e.unknownBodyFields != [] || e.sequence == 0 || |e.authTag| != 32 || |bindingID| != 16 then Some(Malformed)
      else if |payload| > MAX_PAYLOAD_BYTES then Some(Oversized)
      else None
    case Some(Ping(bindingID)) =>
      if e.unknownBodyFields != [] || e.sequence == 0 || |e.authTag| != 32 || |bindingID| != 16 then Some(Malformed)
        else None
    case _ => Some(Malformed)
  }

  function ValidateServer(e: Envelope): Option<Failure> {
    match e.body
    case Some(Challenge(candidateID, serverNonce, expiresUnixMS)) =>
      if e.unknownBodyFields != [] || e.sequence != 0 || e.authTag != [] || |candidateID| != 16 || |serverNonce| != 32
        || expiresUnixMS <= 0 then Some(Malformed) else None
    case Some(Bound(bindingID, expiresUnixMS)) =>
      if e.unknownBodyFields != [] || e.sequence != 0 || |e.authTag| != 32 || |bindingID| != 16
        || expiresUnixMS <= 0 then Some(Malformed) else None
    case Some(ServerData(sender, payload)) =>
      if e.unknownBodyFields != [] || e.sequence == 0 || e.authTag != [] || !ValidID(sender) then Some(Malformed)
      else if |payload| > MAX_PAYLOAD_BYTES then Some(Oversized)
      else None
    case _ => Some(Malformed)
  }

  function DecodeClient(parse: Parser, datagram: Bytes): Result<Envelope, Failure> {
    if datagram == [] then Err(Malformed)
    else if |datagram| > MAX_DATAGRAM_BYTES then Err(Oversized)
    else match parse(datagram)
      case None => Err(Malformed)
      case Some(e) =>
        if ValidateEnvelope(e).Some? then Err(ValidateEnvelope(e).value)
        else if ValidateClient(e, |datagram|).Some? then Err(ValidateClient(e, |datagram|).value)
        else Ok(e)
  }

  // ---------------------------------------------------------------- sizes

  function VarintSize(n: nat): nat { if n < 128 then 1 else 1 + VarintSize(n / 128) }

  /** A scalar field in its one-byte tag; a zero is not written. */
  function ScalarField(n: nat): nat { if n == 0 then 0 else 1 + VarintSize(n) }

  /** A bytes or string field of some length; an empty one is not written. */
  function BytesField(length: nat): nat { if length == 0 then 0 else 1 + VarintSize(length) + length }

  function BodySize(b: Body): nat
    requires (b.Challenge? || b.Bound?) ==> b.expiresUnixMS >= 0
  {
    match b
    case Hello(grantID, clientNonce, padding) =>
      BytesField(|grantID|) + BytesField(|clientNonce|) + BytesField(|padding|)
    case Challenge(candidateID, serverNonce, expiresUnixMS) =>
      BytesField(|candidateID|) + BytesField(|serverNonce|) + ScalarField(expiresUnixMS)
    case Auth(candidateID) => BytesField(|candidateID|)
    case Bound(bindingID, expiresUnixMS) => BytesField(|bindingID|) + ScalarField(expiresUnixMS)
    case ClientData(bindingID, payload) => BytesField(|bindingID|) + BytesField(|payload|)
    case ServerData(sender, payload) => BytesField(|sender|) + BytesField(|payload|)
    case Ping(bindingID) => BytesField(|bindingID|)
  }

  /** The tag of the body's field takes two bytes for a ping, one for every other body. */
  function BodyField(b: Body): nat
    requires (b.Challenge? || b.Bound?) ==> b.expiresUnixMS >= 0
  {
    (if b.Ping? then 2 else 1) + VarintSize(BodySize(b)) + BodySize(b)
  }

  predicate Sizable(e: Envelope) {
    e.body.Some? && (e.body.value.Challenge? || e.body.value.Bound? ==> 0 <= e.body.value.expiresUnixMS <= MAX_INT64)
  }

  function EncodedSize(e: Envelope): nat
    requires Sizable(e)
  {
    ScalarField(e.revision) + ScalarField(e.sequence) + BytesField(|e.authTag|) + BytesField(|e.sessionID|)
    + BytesField(|e.roomID|)
    + BodyField(e.body.value)
  }

  /** The size of the encoded envelope, or why it is not sent. */
  function EncodeServer(e: Envelope): Result<nat, Failure>
    requires e.body.Some? && (e.body.value.Challenge? || e.body.value.Bound?) ==>
      e.body.value.expiresUnixMS <= MAX_INT64
  {
    if ValidateEnvelope(e).Some? then Err(ValidateEnvelope(e).value)
    else if ValidateServer(e).Some? then Err(ValidateServer(e).value)
    else if EncodedSize(e) > MAX_DATAGRAM_BYTES then Err(Oversized)
    else Ok(EncodedSize(e))
  }

  /** Only what a client may send is decoded, with a payload that may be relayed. */
  lemma DecodedIsClient(parse: Parser, datagram: Bytes)
    requires DecodeClient(parse, datagram).Ok?
    ensures var e := DecodeClient(parse, datagram).value;
      && ValidID(e.roomID) && ValidID(e.sessionID) && e.body.Some?
      && (e.body.value.Hello? || e.body.value.Auth? || e.body.value.ClientData? || e.body.value.Ping?)
      && (e.body.value.Hello? ==> MIN_HELLO_BYTES <= |datagram|)
      && (e.body.value.ClientData? ==> e.sequence > 0 && |e.body.value.payload| <= MAX_PAYLOAD_BYTES)
  {
    hide ValidID;
  }

  /** What a client may send in a datagram of some size. */
  predicate ClientOK(e: Envelope, datagramBytes: nat) {
    && e.unknownFields == [] && e.unknownBodyFields == [] && e.revision == 1
    && ValidID(e.roomID) && ValidID(e.sessionID)
    && match e.body
       case Some(Hello(grantID, clientNonce, _)) =>
         e.sequence == 0 && |e.authTag| == 0 && |grantID| == 16 && |clientNonce| == 16 && datagramBytes >= 256
       case Some(Auth(candidateID)) => e.sequence == 0 && |e.authTag| == 32 && |candidateID| == 16
       case Some(ClientData(bindingID, payload)) =>
         e.sequence > 0 && |e.authTag| == 32 && |bindingID| == 16 && |payload| <= 900
       case Some(Ping(bindingID)) => e.sequence > 0 && |e.authTag| == 32 && |bindingID| == 16
       case _ => false
  }

  /** ClientData that a client may send, but for a payload that is too long. */
  predicate OnlyTooLong(e: Envelope, datagramBytes: nat) {
    && e.body.Some? && e.body.value.ClientData? && |e.body.value.payload| > 900
    && ClientOK(e.(body := Some(ClientData(e.body.value.bindingID, []))), datagramBytes)
  }

  /** Which datagrams are decoded, and what is wrong with each other one. */
  lemma DecodesExactly(parse: Parser, datagram: Bytes, e: Envelope)
    ensures DecodeClient(parse, datagram) == Ok(e) <==>
      0 < |datagram| <= 1200 && parse(datagram) == Some(e) && ClientOK(e, |datagram|)
    ensures DecodeClient(parse, datagram) == Err(Oversized) <==>
      || |datagram| > 1200
      || (0 < |datagram| && parse(datagram).Some? && OnlyTooLong(parse(datagram).value, |datagram|))
    ensures DecodeClient(parse, datagram) == Err(UnsupportedVersion) <==>
      && 0 < |datagram| <= 1200 && parse(datagram).Some? && parse(datagram).value.unknownFields == []
      && parse(datagram).value.revision != 1
  {
    hide ValidID;
  }

  // ---------------------------------------------------------------- bounds

  function Pow128(k: nat): nat { if k == 0 then 1 else 128 * Pow128(k - 1) }

  lemma {:induction false} VarintBound(n: nat, k: nat)
    requires k > 0
    ensures VarintSize(n) <= k <==> n < Pow128(k)
    decreases k
  {
    if k > 1 {
      if n >= 128 { VarintBound(n / 128, k - 1); }
      assert n < 128 * Pow128(k - 1) <==> n / 128 < Pow128(k - 1);
      assert Pow128(k - 1) >= 1 by { Pow128Positive(k - 1); }
    }
  }

  lemma {:induction false} Pow128Positive(k: nat)
    ensures Pow128(k) >= 1
  {
    if k > 0 { Pow128Positive(k - 1); }
  }

  lemma Powers()
    ensures Pow128(1) == 0x80 && Pow128(2) == 0x4000 && Pow128(9) == 0x8000_0000_0000_0000
      && Pow128(10) == 0x40_0000_0000_0000_0000
  {
  }

  lemma SmallField(length: nat)
    requires 0 < length < 0x80
    ensures BytesField(length) == length + 2
  {
  }

  lemma IDField(id: string)
    requires ValidID(id)
    ensures 3 <= BytesField(|id|) <= 66
  {
    SmallField(|id|);
  }

  /** A challenge is strictly smaller than any hello that is accepted, so answering never
      amplifies and the guard before the answer always lets it through. */
  lemma ChallengeIsSmaller(roomID: string, sessionID: string, candidateID: Bytes, serverNonce: Bytes, expires: int)
    requires ValidID(roomID) && ValidID(sessionID) && |candidateID| == 16 && |serverNonce| == 32
      && 0 < expires <= MAX_INT64
    ensures var e := Envelope(REVISION, 0, [], sessionID, roomID, Some(Challenge(candidateID, serverNonce, expires)),
      [], []);
      EncodeServer(e).Ok? && EncodeServer(e).value <= 198 < MIN_HELLO_BYTES
  {
    Powers();
    VarintBound(expires, 9);
    IDField(roomID);
    IDField(sessionID);
    SmallField(16);
    SmallField(32);
    var b := Challenge(candidateID, serverNonce, expires);
    assert BodySize(b) <= 62;
    VarintBound(BodySize(b), 1);
    hide ValidID, VarintSize;
    assert ScalarField(REVISION) == 2 by { VarintBound(1, 1); VarintOne(1); }
  }

  /** A bound is always small enough to be sent. */
  lemma BoundFits(roomID: string, sessionID: string, bindingID: Bytes, authTag: Bytes, expires: int)
    requires ValidID(roomID) && ValidID(sessionID) && |bindingID| == 16 && |authTag| == 32 && 0 < expires <= MAX_INT64
    ensures var e := Envelope(REVISION, 0, authTag, sessionID, roomID, Some(Bound(bindingID, expires)), [], []);
      EncodeServer(e).Ok? && EncodeServer(e).value <= 198
  {
    Powers();
    VarintBound(expires, 9);
    IDField(roomID);
    IDField(sessionID);
    SmallField(16);
    SmallField(32);
    var b := Bound(bindingID, expires);
    assert BodySize(b) <= 28;
    VarintBound(BodySize(b), 1);
    hide ValidID, VarintSize;
    assert ScalarField(REVISION) == 2 by { VarintBound(1, 1); VarintOne(1); }
  }

  lemma VarintOne(n: nat)
    ensures VarintSize(n) >= 1
  {
  }

  /** Data relayed for an accepted ClientData always fits: at most 1117 bytes. */
  lemma ServerDataFits(roomID: string, sessionID: string, sender: string, sequence: nat, payload: Bytes)
    requires ValidID(roomID) && ValidID(sessionID) && ValidID(sender) && 0 < sequence <= MAX_UINT64
      && |payload| <= MAX_PAYLOAD_BYTES
    ensures var relayed := Envelope(REVISION, sequence, [], sessionID, roomID, Some(ServerData(sender, payload)), [],
      []);
      EncodeServer(relayed).Ok? && EncodeServer(relayed).value <= 1117 <= MAX_DATAGRAM_BYTES
  {
    Powers();
    VarintBound(sequence, 10);
    IDField(roomID);
    IDField(sessionID);
    IDField(sender);
    VarintBound(|payload|, 2);
    var b := ServerData(sender, payload);
    assert BodySize(b) <= 969;
    VarintBound(BodySize(b), 2);
    hide VarintSize;
    assert ScalarField(REVISION) == 2 by { VarintBound(1, 1); VarintOne(1); }
  }

  /** The bounds of a challenge and of a bound are met. */
  lemma LargestAnswers()
    ensures var id: string := seq(64, _ => 'a');
      var challenge := Challenge(seq(16, _ => 0), seq(32, _ => 0), MAX_INT64);
      var bound := Bound(seq(16, _ => 0), MAX_INT64);
      && ValidID(id) && EncodeServer(Envelope(REVISION, 0, [], id, id, Some(challenge), [], [])) == Ok(198)
      && EncodeServer(Envelope(REVISION, 0, seq(32, _ => 0), id, id, Some(bound), [], [])) == Ok(198)
  {
    var id: string := seq(64, _ => 'a');
    assert Alphanumeric(id[0]);
    Powers();
    VarintBound(MAX_INT64, 9);
    VarintBound(MAX_INT64, 8);
    assert Pow128(8) == 0x100_0000_0000_0000;
    VarintBound(62, 1);
    VarintBound(28, 1);
    SmallField(64);
    SmallField(16);
    SmallField(32);
    VarintOne(62);
    VarintOne(28);
    assert ScalarField(REVISION) == 2;
    hide VarintSize, ValidID;
    assert BodySize(Challenge(seq(16, _ => 0), seq(32, _ => 0), MAX_INT64)) == 62;
    assert BodySize(Bound(seq(16, _ => 0), MAX_INT64)) == 28;
  }

  /** The bound is met: identifiers of 64 bytes, the largest sequence, a full payload. */
  lemma LargestServerData()
    ensures var id: string := seq(64, _ => 'a');
      var e := Envelope(REVISION, MAX_UINT64, [], id, id, Some(ServerData(id, seq(900, _ => 0))), [], []);
      ValidID(id) && EncodeServer(e) == Ok(1117)
  {
    var id: string := seq(64, _ => 'a');
    assert Alphanumeric(id[0]);
    Powers();
    VarintBound(MAX_UINT64, 10);
    VarintBound(MAX_UINT64, 9);
    VarintBound(900, 2);
    VarintBound(900, 1);
    VarintBound(969, 2);
    VarintBound(969, 1);
    SmallField(64);
    assert ScalarField(REVISION) == 2;
    hide VarintSize, ValidID;
    assert BodySize(ServerData(id, seq(900, _ => 0))) == 969;
  }
}
