/** The length-prefixed transcripts under the relay's HMAC tags. HMAC itself (RFC 2104,
    section 2) is a parameter: any function of a key and a message. */
module Transcript {
  import opened Prelude

  /** Key and message to tag. */
  type Hmac = (Bytes, Bytes) -> Bytes

  /** `n` big-endian in `width` bytes, truncated to that width. */
  function BigEndian(width: nat, n: nat): (b: Bytes)
    ensures |b| == width
  {
    if width == 0 then [] else BigEndian(width - 1, n / 256) + [n % 256]
  }

  function FromBigEndian(b: Bytes): nat {
    if b == [] then 0 else FromBigEndian(b[..|b| - 1]) * 256 + b[|b| - 1]
  }

  function Pow256(width: nat): (p: nat)
    ensures p > 0
  {
    if width == 0 then 1 else 256 * Pow256(width - 1)
  }

  lemma {:induction false} BigEndianInverse(width: nat, n: nat)
    requires n < Pow256(width)
    ensures FromBigEndian(BigEndian(width, n)) == n
  {
    if width > 0 {
      BigEndianInverse(width - 1, n / 256);
      assert BigEndian(width, n)[..width - 1] == BigEndian(width - 1, n / 256);
    }
  }

  lemma {:induction false} FromBigEndianInverse(b: Bytes)
    ensures FromBigEndian(b) < Pow256(|b|) && BigEndian(|b|, FromBigEndian(b)) == b
  {
    if b != [] {
      var front, last := b[..|b| - 1], b[|b| - 1];
      FromBigEndianInverse(front);
      LastByte(FromBigEndian(front), last, Pow256(|front|));
      assert b == front + [last];
      hide Pow256;
    }
  }

  lemma LastByte(n: nat, last: byte, bound: nat)
    requires n < bound
    ensures (n * 256 + last) / 256 == n && (n * 256 + last) % 256 == last && n * 256 + last < 256 * bound
  {
  }

  lemma Widths()
    ensures Pow256(1) == 0x100 && Pow256(2) == 0x1_0000 && Pow256(4) == 0x1_0000_0000
    ensures Pow256(8) == 0x1_0000_0000_0000_0000
  {
  }

  /** The bytes of an ASCII identifier. */
  function Ascii(id: string): (b: Bytes)
    ensures |b| == |id|
  {
    seq(|id|, i requires 0 <= i < |id| => id[i] as int % 256)
  }

  predicate IsAscii(id: string) { forall i | 0 <= i < |id| :: id[i] as int < 128 }

  lemma AsciiInjective(a: string, b: string)
    requires IsAscii(a) && IsAscii(b) && Ascii(a) == Ascii(b)
    ensures a == b
  {
    forall i | 0 <= i < |a| ensures a[i] == b[i] {
      assert Ascii(a)[i] == Ascii(b)[i];
    }
  }

  // ---------------------------------------------------------------- framing

  function FrameFields(fields: seq<Bytes>): Bytes {
    if fields == [] then [] else BigEndian(4, |fields[0]|) + fields[0] + FrameFields(fields[1..])
  }

  function Frame(domain: Bytes, fields: seq<Bytes>): Bytes {
    BigEndian(2, |domain|) + domain + FrameFields(fields)
  }

  /** `transcriptHMAC`: the bytes written to the running MAC, field by field. */
  method WriteTranscript(domain: Bytes, fields: seq<Bytes>) returns (written: Bytes)
    ensures written == Frame(domain, fields)
  {
    written := BigEndian(2, |domain|);
    written := written + domain;
    for i := 0 to |fields|
      invariant written + FrameFields(fields[i..]) == Frame(domain, fields)
    {
      assert fields[i..][1..] == fields[i + 1..];
      written := written + BigEndian(4, |fields[i]|);
      written := written + fields[i];
    }
  }

  function ParseFields(b: Bytes): Option<seq<Bytes>>
    decreases |b|
  {
    if b == [] then Some([])
    else if |b| < 4 then None
    else
      var n := FromBigEndian(b[..4]);
      if |b| < 4 + n then None
      else match ParseFields(b[4 + n..])
        case None => None
        case Some(rest) => Some([b[4..4 + n]] + rest)
  }

  function Parse(b: Bytes): Option<(Bytes, seq<Bytes>)> {
    if |b| < 2 then None
    else
      var n := FromBigEndian(b[..2]);
      if |b| < 2 + n then None
      else match ParseFields(b[2 + n..])
        case None => None
        case Some(fields) => Some((b[2..2 + n], fields))
  }

  ghost predicate Framable(domain: Bytes, fields: seq<Bytes>) {
    |domain| < 0x1_0000 && forall i | 0 <= i < |fields| :: |fields[i]| < 0x1_0000_0000
  }

  lemma {:induction false} ParseFieldsRecovers(fields: seq<Bytes>)
    requires forall i | 0 <= i < |fields| :: |fields[i]| < 0x1_0000_0000
    ensures ParseFields(FrameFields(fields)) == Some(fields)
  {
    if fields != [] {
      var f, b := fields[0], FrameFields(fields);
      Widths();
      BigEndianInverse(4, |f|);
      assert b[..4] == BigEndian(4, |f|);
      assert b[4..4 + |f|] == f;
      assert b[4 + |f|..] == FrameFields(fields[1..]);
      ParseFieldsRecovers(fields[1..]);
      assert fields == [f] + fields[1..];
    }
  }

  /** A parser recovers the domain and the field list from the framed bytes. */
  lemma ParseRecovers(domain: Bytes, fields: seq<Bytes>)
    requires Framable(domain, fields)
    ensures Parse(Frame(domain, fields)) == Some((domain, fields))
  {
    var b := Frame(domain, fields);
    Widths();
    BigEndianInverse(2, |domain|);
    assert b[..2] == BigEndian(2, |domain|);
    assert b[2..2 + |domain|] == domain;
    assert b[2 + |domain|..] == FrameFields(fields);
    ParseFieldsRecovers(fields);
  }

  lemma FrameInjective(domain: Bytes, fields: seq<Bytes>, domain': Bytes, fields': seq<Bytes>)
    requires Framable(domain, fields) && Framable(domain', fields')
    requires Frame(domain, fields) == Frame(domain', fields')
    ensures domain == domain' && fields == fields'
  {
    ParseRecovers(domain, fields);
    ParseRecovers(domain', fields');
  }

  lemma {:induction false} EmptyFields(fields: seq<Bytes>)
    requires forall i | 0 <= i < |fields| :: fields[i] == []
    ensures |FrameFields(fields)| == 4 * |fields|
    ensures forall i | 0 <= i < |FrameFields(fields)| :: FrameFields(fields)[i] == 0
  {
    if fields != [] {
      EmptyFields(fields[1..]);
      assert BigEndian(4, 0) == [0, 0, 0, 0];
    }
  }

  /** The bound on the domain is needed: at 2^16 bytes its length prefix wraps to zero, and
      the rest reads as 2^14 empty fields. */
  lemma OverlongDomainCollides()
    ensures var domain: Bytes, fields: seq<Bytes> := seq(0x1_0000, _ => 0), seq(0x4000, _ => []);
      Frame(domain, []) == Frame([], fields)
  {
    var domain: Bytes, fields: seq<Bytes> := seq(0x1_0000, _ => 0), seq(0x4000, _ => []);
    EmptyFields(fields);
    BigEndianWraps();
    assert FrameFields(fields) == domain;
  }

  lemma BigEndianWraps()
    ensures BigEndian(2, 0x1_0000) == BigEndian(2, 0)
  {
    assert BigEndian(1, 0x100) == BigEndian(0, 1) + [0] == [0];
    assert BigEndian(1, 0) == BigEndian(0, 0) + [0] == [0];
  }

  // ---------------------------------------------------------------- the five transcripts

  /** What each tag authenticates. */
  datatype Message =
    | AuthMessage(revision: nat, room: string, session: string, grantID: Bytes, candidateID: Bytes, clientNonce: Bytes,
      serverNonce: Bytes)
    | BindingKeyMessage(revision: nat, room: string, session: string, grantID: Bytes, candidateID: Bytes,
      clientNonce: Bytes, serverNonce: Bytes)
    | BoundMessage(revision: nat, room: string, session: string, candidateID: Bytes, bindingID: Bytes,
      expiryUnixMS: int)
    | ClientDataMessage(revision: nat, room: string, session: string, bindingID: Bytes, sequence: nat, payload: Bytes)
    | PingMessage(revision: nat, room: string, session: string, bindingID: Bytes, sequence: nat)

  function Domain(m: Message): string {
    match m
    case AuthMessage(_, _, _, _, _, _, _) => "relay-auth-v1"
    case BindingKeyMessage(_, _, _, _, _, _, _) => "relay-binding-key-v1"
    case BoundMessage(_, _, _, _, _, _) => "relay-bound-v1"
    case ClientDataMessage(_, _, _, _, _, _) => "relay-client-data-v1"
    case PingMessage(_, _, _, _, _) => "relay-ping-v1"
  }

  /** The two's complement bits of a signed 64-bit value. */
  function Unsigned(n: int): nat { n % 0x1_0000_0000_0000_0000 }

  function Fields(m: Message): seq<Bytes> {
    [BigEndian(4, m.revision), Ascii(m.room), Ascii(m.session)] +
    match m
    case AuthMessage(_, _, _, grantID, candidateID, clientNonce, serverNonce) => [grantID, candidateID, clientNonce,
      serverNonce]
    case BindingKeyMessage(_, _, _, grantID, candidateID, clientNonce, serverNonce) => [grantID, candidateID,
      clientNonce, serverNonce]
    case BoundMessage(_, _, _, candidateID, bindingID, expiry) => [candidateID, bindingID,
      BigEndian(8, Unsigned(expiry))]
    case ClientDataMessage(_, _, _, bindingID, sequence, payload) => [bindingID, BigEndian(8, sequence), payload]
    case PingMessage(_, _, _, bindingID, sequence) => [bindingID, BigEndian(8, sequence)]
  }

  function Transcribe(m: Message): Bytes { Frame(Ascii(Domain(m)), Fields(m)) }

  function Tag(hmac: Hmac, key: Bytes, m: Message): Bytes { hmac(key, Transcribe(m)) }

  /** The ranges of the Go types, and ASCII identifiers. */
  ghost predicate InRange(m: Message) {
    && m.revision < 0x1_0000_0000
    && IsAscii(m.room) && IsAscii(m.session)
    && (forall i | 0 <= i < |Fields(m)| :: |Fields(m)[i]| < 0x1_0000_0000)
    && (m.BoundMessage? ==> MIN_INT64 <= m.expiryUnixMS <= MAX_INT64)
    && (m.ClientDataMessage? || m.PingMessage? ==> m.sequence <= MAX_UINT64)
  }

  /** The length of a domain and its seventh letter tell which it is. */
  function Mark(m: Message): (nat, char) {
    match m
    case AuthMessage(_, _, _, _, _, _, _) => (13, 'a')
    case BindingKeyMessage(_, _, _, _, _, _, _) => (20, 'b')
    case BoundMessage(_, _, _, _, _, _) => (14, 'b')
    case ClientDataMessage(_, _, _, _, _, _) => (20, 'c')
    case PingMessage(_, _, _, _, _) => (13, 'p')
  }

  lemma DomainMark(m: Message)
    ensures |Domain(m)| == Mark(m).0 && Domain(m)[6] == Mark(m).1 && IsAscii(Domain(m))
  {
  }

  lemma DomainsDiffer(a: Message, b: Message)
    requires Ascii(Domain(a)) == Ascii(Domain(b))
    ensures Domain(a) == Domain(b)
    ensures a.AuthMessage? == b.AuthMessage? && a.BindingKeyMessage? == b.BindingKeyMessage?
      && a.BoundMessage? == b.BoundMessage?
    ensures a.ClientDataMessage? == b.ClientDataMessage? && a.PingMessage? == b.PingMessage?
  {
    hide Ascii, Domain;
    DomainMark(a);
    DomainMark(b);
    AsciiInjective(Domain(a), Domain(b));
  }

  lemma Words()
    ensures forall n: nat {:trigger BigEndian(4, n)} | n < 0x1_0000_0000 :: FromBigEndian(BigEndian(4, n)) == n
    ensures forall n: nat {:trigger BigEndian(8, n)} | n <= MAX_UINT64 :: FromBigEndian(BigEndian(8, n)) == n
  {
    Widths();
    forall n: nat | n < 0x1_0000_0000 ensures FromBigEndian(BigEndian(4, n)) == n { BigEndianInverse(4, n); }
    forall n: nat | n <= MAX_UINT64 ensures FromBigEndian(BigEndian(8, n)) == n { BigEndianInverse(8, n); }
  }

  lemma FieldsInjective(a: Message, b: Message)
    requires InRange(a) && InRange(b) && Fields(a) == Fields(b)
    requires a.AuthMessage? == b.AuthMessage? && a.BindingKeyMessage? == b.BindingKeyMessage?
      && a.BoundMessage? == b.BoundMessage?
    requires a.ClientDataMessage? == b.ClientDataMessage?
    ensures a == b
  {
    Words();
    hide BigEndian, FromBigEndian, Ascii;
    var fa, fb := Fields(a), Fields(b);
    assert fa[0] == fb[0] && fa[1] == fb[1] && fa[2] == fb[2] && fa[3] == fb[3] && fa[4] == fb[4];
    AsciiInjective(a.room, b.room);
    AsciiInjective(a.session, b.session);
    if !a.PingMessage? { assert fa[5] == fb[5]; }
    if a.AuthMessage? || a.BindingKeyMessage? { assert fa[6] == fb[6]; }
  }

  /** Equal transcripts authenticate equal things: the five kinds never coincide, and every
      field is recovered. */
  lemma TranscribeInjective(a: Message, b: Message)
    requires InRange(a) && InRange(b) && Transcribe(a) == Transcribe(b)
    ensures a == b
  {
    FrameInjective(Ascii(Domain(a)), Fields(a), Ascii(Domain(b)), Fields(b));
    DomainsDiffer(a, b);
    FieldsInjective(a, b);
  }

  /** Unless the HMAC collides on the two transcripts, a matching tag was made for exactly
      this message. */
  lemma TagBindsMessage(hmac: Hmac, key: Bytes, a: Message, b: Message)
    requires InRange(a) && InRange(b)
    requires hmac(key, Transcribe(a)) == hmac(key, Transcribe(b)) ==> Transcribe(a) == Transcribe(b)
    ensures Tag(hmac, key, a) == Tag(hmac, key, b) <==> a == b
  {
    if Tag(hmac, key, a) == Tag(hmac, key, b) { TranscribeInjective(a, b); }
  }
}
