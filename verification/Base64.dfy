/** Unpadded base64url (RFC 4648, section 5), and its strict decoder, which like Go's skips
    line breaks. */
module Base64 {
  import opened Prelude

  type digit = x: int | 0 <= x < 64

  function CharOf(d: digit): char {
    if d < 26 then (d + 'A' as int) as char
    else if d < 52 then (d - 26 + 'a' as int) as char
    else if d < 62 then (d - 52 + '0' as int) as char
    else if d == 62 then '-' else '_'
  }

  function DigitOf(c: char): Option<digit> {
    if 'A' <= c <= 'Z' then Some(c as int - 'A' as int)
    else if 'a' <= c <= 'z' then Some(c as int - 'a' as int + 26)
    else if '0' <= c <= '9' then Some(c as int - '0' as int + 52)
    else if c == '-' then Some(62)
    else if c == '_' then Some(63)
    else None
  }

  lemma DigitInverse(d: digit)
    ensures DigitOf(CharOf(d)) == Some(d)
    ensures CharOf(d) != '\r' && CharOf(d) != '\n'
  {
  }

  lemma CharInverse(c: char)
    requires DigitOf(c).Some?
    ensures CharOf(DigitOf(c).value) == c
  {
  }

  function ToDigits(b: Bytes): seq<digit> {
    if b == [] then []
    else if |b| == 1 then [b[0] / 4, b[0] % 4 * 16]
    else if |b| == 2 then [b[0] / 4, b[0] % 4 * 16 + b[1] / 16, b[1] % 16 * 4]
    else [b[0] / 4, b[0] % 4 * 16 + b[1] / 16, b[1] % 16 * 4 + b[2] / 64, b[2] % 64] + ToDigits(b[3..])
  }

  /** The three bytes of four digits. */
  function First(a: digit, b: digit): byte { a as int * 4 + b as int / 16 }

  function Second(b: digit, c: digit): byte { b as int % 16 * 16 + c as int / 4 }

  function Third(c: digit, d: digit): byte { c as int % 4 * 64 + d as int }

  /** Nothing for an impossible length or non-zero trailing bits. */
  function FromDigits(d: seq<digit>): Option<Bytes> {
    if d == [] then Some([])
    else if |d| == 1 then None
    else if |d| == 2 then if d[1] % 16 != 0 then None else Some([First(d[0], d[1])])
    else if |d| == 3 then if d[2] % 4 != 0 then None else Some([First(d[0], d[1]), Second(d[1], d[2])])
    else match FromDigits(d[4..])
      case None => None
      case Some(rest) => Some([First(d[0], d[1]), Second(d[1], d[2]), Third(d[2], d[3])] + rest)
  }

  function Encode(b: Bytes): string { var d := ToDigits(b); seq(|d|, i requires 0 <= i < |d| => CharOf(d[i])) }

  /** Line breaks are skipped, anything else must be in the alphabet. */
  function Digits(token: string): Option<seq<digit>> {
    if token == [] then Some([])
    else if token[0] == '\r' || token[0] == '\n' then Digits(token[1..])
    else match DigitOf(token[0])
      case None => None
      case Some(d) => match Digits(token[1..])
        case None => None
        case Some(rest) => Some([d] + rest)
  }

  function Decode(token: string): Option<Bytes> {
    match Digits(token)
    case None => None
    case Some(d) => FromDigits(d)
  }

  predicate OneLine(token: string) { forall i | 0 <= i < |token| :: token[i] != '\r' && token[i] != '\n' }

  // ---------------------------------------------------------------- round trips

  lemma Recombine(a: byte, b: byte, c: byte)
    ensures First(a / 4, a % 4 * 16 + b / 16) == a && First(a / 4, a % 4 * 16) == a
    ensures Second(a % 4 * 16 + b / 16, b % 16 * 4 + c / 64) == b && Second(a % 4 * 16 + b / 16, b % 16 * 4) == b
    ensures Third(b % 16 * 4 + c / 64, c % 64) == c
    ensures a % 4 * 16 % 16 == 0 && b % 16 * 4 % 4 == 0
  {
  }

  lemma {:induction false} DigitsInverse(b: Bytes)
    ensures FromDigits(ToDigits(b)) == Some(b)
    decreases |b|
  {
    hide First, Second, Third;
    if |b| >= 3 {
      Recombine(b[0], b[1], b[2]);
      DigitsInverse(b[3..]);
      var d := ToDigits(b);
      assert d[4..] == ToDigits(b[3..]);
      assert b == [b[0], b[1], b[2]] + b[3..];
    } else if |b| == 2 {
      Recombine(b[0], b[1], 0);
      assert b == [b[0], b[1]];
    } else if |b| == 1 {
      Recombine(b[0], 0, 0);
      assert b == [b[0]];
    }
  }

  lemma Resplit(a: digit, b: digit, c: digit, d: digit)
    ensures First(a, b) / 4 == a && First(a, b) % 4 * 16 + Second(b, c) / 16 == b
    ensures Second(b, c) % 16 * 4 + Third(c, d) / 64 == c && Third(c, d) % 64 == d
    ensures b % 16 == 0 ==> First(a, b) % 4 * 16 == b
    ensures c % 4 == 0 ==> Second(b, c) % 16 * 4 == c
  {
  }

  lemma {:induction false} BytesInverse(d: seq<digit>)
    requires FromDigits(d).Some?
    ensures ToDigits(FromDigits(d).value) == d
    decreases |d|
  {
    hide First, Second, Third;
    if |d| >= 4 {
      Resplit(d[0], d[1], d[2], d[3]);
      BytesInverse(d[4..]);
      var b := FromDigits(d).value;
      assert b[3..] == FromDigits(d[4..]).value;
      assert d == [d[0], d[1], d[2], d[3]] + d[4..];
    } else if |d| == 3 {
      Resplit(d[0], d[1], d[2], 0);
      assert d == [d[0], d[1], d[2]];
    } else if |d| == 2 {
      Resplit(d[0], d[1], 0, 0);
      assert d == [d[0], d[1]];
    }
  }

  lemma {:induction false} DigitsOfEncoded(d: seq<digit>)
    ensures var token := seq(|d|, i requires 0 <= i < |d| => CharOf(d[i])); Digits(token) == Some(d) && OneLine(token)
    decreases |d|
  {
    if d != [] {
      var token := seq(|d|, i requires 0 <= i < |d| => CharOf(d[i]));
      var rest := d[1..];
      assert token[1..] == seq(|rest|, i requires 0 <= i < |rest| => CharOf(rest[i]));
      DigitsOfEncoded(rest);
      DigitInverse(d[0]);
      assert d == [d[0]] + rest;
      forall i | 0 <= i < |token| ensures token[i] != '\r' && token[i] != '\n' { DigitInverse(d[i]); }
    }
  }

  lemma {:induction false} EncodedOfDigits(token: string)
    requires Digits(token).Some? && OneLine(token)
    ensures var d := Digits(token).value; |d| == |token| && forall i | 0 <= i < |d| :: CharOf(d[i]) == token[i]
    decreases |token|
  {
    if token != [] {
      assert forall i | 0 <= i < |token[1..]| :: token[1..][i] == token[i + 1];
      EncodedOfDigits(token[1..]);
      CharInverse(token[0]);
    }
  }

  lemma DecodeEncode(b: Bytes)
    ensures Decode(Encode(b)) == Some(b) && OneLine(Encode(b))
  {
    DigitsInverse(b);
    DigitsOfEncoded(ToDigits(b));
  }

  /** The strict decoder is canonical up to line breaks: re-encoding what it accepts gives the
      token back exactly when the token holds no line break. */
  lemma EncodeDecode(token: string)
    requires Decode(token).Some?
    ensures Encode(Decode(token).value) == token <==> OneLine(token)
  {
    if OneLine(token) {
      EncodedOfDigits(token);
      BytesInverse(Digits(token).value);
    } else {
      DecodeEncode(Decode(token).value);
    }
  }

  lemma {:induction false} EncodedLength(b: Bytes)
    ensures |Encode(b)| == (|b| * 8 + 5) / 6
    decreases |b|
  {
    if |b| >= 3 { EncodedLength(b[3..]); }
  }

  /** Different bytes have different texts. */
  lemma EncodeInjective(a: Bytes, b: Bytes)
    requires Encode(a) == Encode(b)
    ensures a == b
  {
    DecodeEncode(a);
    DecodeEncode(b);
  }
}
