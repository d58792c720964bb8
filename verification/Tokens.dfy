/**
 * Client credentials (runtime/internal/permission/clients.go:36-50, 355-408): a token is a prefix, a client
 * id and the secret in unpadded base64url (RFC 4648, section 5), joined by underscores although the last
 * part may itself contain underscores. SHA-256 is a parameter.
 */
module Tokens {
  import opened Wrappers
  import opened Strings
  import opened Hexadecimal

  type Byte = b: int | 0 <= b < 256

  const SECRET_LENGTH: nat := 32

  // ---------------------------------------------------------------- base64url

  function Digit(n: nat): (c: char)
    requires n < 64
  {
    if n < 26 then ('A' as int + n) as char
    else if n < 52 then ('a' as int + (n - 26)) as char
    else if n < 62 then ('0' as int + (n - 52)) as char
    else if n == 62 then '-'
    else '_'
  }

  function DigitValue(c: char): (n: int)
    ensures -1 <= n < 64
  {
    if 'A' <= c <= 'Z' then c as int - 'A' as int
    else if 'a' <= c <= 'z' then c as int - 'a' as int + 26
    else if '0' <= c <= '9' then c as int - '0' as int + 52
    else if c == '-' then 62
    else if c == '_' then 63
    else -1
  }

  lemma DigitReads(n: nat)
    requires n < 64
    ensures DigitValue(Digit(n)) == n
  {
  }

  /** Three bytes make four digits; one or two left over make two or three. */
  function Encode(s: seq<Byte>): string {
    if s == [] then ""
    else if |s| == 1 then [Digit(s[0] / 4), Digit(s[0] % 4 * 16)]
    else if |s| == 2 then [Digit(s[0] / 4), Digit(s[0] % 4 * 16 + s[1] / 16), Digit(s[1] % 16 * 4)]
    else
      [Digit(s[0] / 4), Digit(s[0] % 4 * 16 + s[1] / 16), Digit(s[1] % 16 * 4 + s[2] / 64), Digit(s[2] % 64)]
      + Encode(s[3..])
  }

  /** The values of the digits; the decoder skips line ends and refuses every other character. */
  function DigitValues(t: string): Option<seq<nat>> {
    if t == "" then Some([])
    else if t[0] == '\r' || t[0] == '\n' then DigitValues(t[1..])
    else if DigitValue(t[0]) < 0 then None
    else
      match DigitValues(t[1..])
      case Some(rest) => Some([DigitValue(t[0])] + rest)
      case None => None
  }

  function FirstByte(d0: nat, d1: nat): Byte {
    (d0 * 4 + d1 / 16) % 256
  }

  function SecondByte(d1: nat, d2: nat): Byte {
    (d1 % 16 * 16 + d2 / 4) % 256
  }

  function ThirdByte(d2: nat, d3: nat): Byte {
    (d2 % 4 * 64 + d3) % 256
  }

  /** Spare bits of a last partial group are ignored; a single left-over digit is an error. */
  function DecodeValues(d: seq<nat>): Option<seq<Byte>> {
    if d == [] then Some([])
    else if |d| == 1 then None
    else if |d| == 2 then Some([FirstByte(d[0], d[1])])
    else if |d| == 3 then Some([FirstByte(d[0], d[1]), SecondByte(d[1], d[2])])
    else
      match DecodeValues(d[4..])
      case Some(rest) => Some([FirstByte(d[0], d[1]), SecondByte(d[1], d[2]), ThirdByte(d[2], d[3])] + rest)
      case None => None
  }

  function Decode(t: string): Option<seq<Byte>> {
    match DigitValues(t)
    case Some(values) => DecodeValues(values)
    case None => None
  }

  /** The digits of an encoding. */
  function EncodedValues(s: seq<Byte>): (d: seq<nat>)
    ensures forall i :: 0 <= i < |d| ==> d[i] < 64
  {
    if s == [] then []
    else if |s| == 1 then [s[0] / 4, s[0] % 4 * 16]
    else if |s| == 2 then [s[0] / 4, s[0] % 4 * 16 + s[1] / 16, s[1] % 16 * 4]
    else [s[0] / 4, s[0] % 4 * 16 + s[1] / 16, s[1] % 16 * 4 + s[2] / 64, s[2] % 64] + EncodedValues(s[3..])
  }

  function DigitsOf(d: seq<nat>): (t: string)
    requires forall i :: 0 <= i < |d| ==> d[i] < 64
    ensures |t| == |d| && forall i :: 0 <= i < |d| ==> t[i] == Digit(d[i])
  {
    seq(|d|, i requires 0 <= i < |d| => Digit(d[i]))
  }

  lemma {:induction false} EncodeIsDigits(s: seq<Byte>)
    ensures Encode(s) == DigitsOf(EncodedValues(s))
  {
    hide Digit;
    if |s| >= 3 {
      EncodeIsDigits(s[3..]);
    }
  }

  lemma {:induction false} DigitsRead(d: seq<nat>)
    requires forall i :: 0 <= i < |d| ==> d[i] < 64
    ensures DigitValues(DigitsOf(d)) == Some(d)
  {
    if d != [] {
      var t := DigitsOf(d);
      DigitReads(d[0]);
      assert t[0] != '\r' && t[0] != '\n' by {
        assert DigitValue('\r') == -1 && DigitValue('\n') == -1;
      }
      hide Digit, DigitValue;
      assert t[1..] == DigitsOf(d[1..]);
      DigitsRead(d[1..]);
      assert d == [d[0]] + d[1..];
    }
  }

  lemma FirstByteReads(a: Byte, b: Byte)
    ensures FirstByte(a / 4, a % 4 * 16 + b / 16) == a && FirstByte(a / 4, a % 4 * 16) == a
  {
  }

  lemma SecondByteReads(a: Byte, b: Byte, c: Byte)
    ensures SecondByte(a % 4 * 16 + b / 16, b % 16 * 4 + c / 64) == b && SecondByte(a % 4 * 16 + b / 16, b % 16 * 4) == b
  {
    assert (a % 4 * 16 + b / 16) % 16 == b / 16;
    assert (b % 16 * 4 + c / 64) / 4 == b % 16 && (b % 16 * 4) / 4 == b % 16;
  }

  lemma ThirdByteReads(b: Byte, c: Byte)
    ensures ThirdByte(b % 16 * 4 + c / 64, c % 64) == c
  {
  }

  lemma DecodeGroup(d0: nat, d1: nat, d2: nat, d3: nat, rest: seq<nat>)
    ensures DecodeValues([d0, d1, d2, d3] + rest) ==
            match DecodeValues(rest)
            case Some(bytes) => Some([FirstByte(d0, d1), SecondByte(d1, d2), ThirdByte(d2, d3)] + bytes)
            case None => None
  {
    hide FirstByte, SecondByte, ThirdByte;
    assert ([d0, d1, d2, d3] + rest)[4..] == rest;
  }

  lemma {:induction false} ValuesDecode(s: seq<Byte>)
    ensures DecodeValues(EncodedValues(s)) == Some(s)
  {
    hide FirstByte, SecondByte, ThirdByte;
    if |s| >= 3 {
      FirstByteReads(s[0], s[1]);
      SecondByteReads(s[0], s[1], s[2]);
      ThirdByteReads(s[1], s[2]);
      ValuesDecode(s[3..]);
      DecodeGroup(s[0] / 4, s[0] % 4 * 16 + s[1] / 16, s[1] % 16 * 4 + s[2] / 64, s[2] % 64, EncodedValues(s[3..]));
      hide DecodeValues;
      assert s == [s[0], s[1], s[2]] + s[3..];
    } else if |s| == 2 {
      FirstByteReads(s[0], s[1]);
      SecondByteReads(s[0], s[1], 0);
      assert s == [s[0], s[1]];
    } else if |s| == 1 {
      FirstByteReads(s[0], 0);
      assert s == [s[0]];
    }
  }

  /** Decoding undoes encoding, for every byte string. */
  lemma DecodeEncode(s: seq<Byte>)
    ensures Decode(Encode(s)) == Some(s)
  {
    EncodeIsDigits(s);
    DigitsRead(EncodedValues(s));
    ValuesDecode(s);
    hide Encode, DigitsOf, EncodedValues, DecodeValues, DigitValues;
  }

  // ---------------------------------------------------------------- tokens

  /** strings.SplitN: at most n parts, the last one with whatever separators are left. */
  function SplitN(s: string, c: char, n: nat): seq<string>
    requires n > 0
    decreases n
  {
    var k := IndexOf(s, c, 0);
    if n == 1 || k == |s| then [s] else [s[..k]] + SplitN(s[k + 1..], c, n - 1)
  }

  function AssembleToken(id: string, secret: seq<Byte>): string {
    "lck" + ("_" + (id + ("_" + Encode(secret))))
  }

  function SplitToken(token: string): Option<(string, seq<Byte>)> {
    var parts := SplitN(token, '_', 3);
    if |parts| != 3 then None
    else if parts[0] != "lck" then None
    else if !("cli-" <= parts[1]) then None
    else
      match Decode(parts[2])
      case None => None
      case Some(secret) => if |secret| != SECRET_LENGTH then None else Some((parts[1], secret))
  }

  lemma {:induction false} IndexIs(head: string, c: char, tail: string, i: nat)
    requires c !in head && i <= |head|
    ensures IndexOf(head + ([c] + tail), c, i) == |head|
    decreases |head| - i
  {
    if i < |head| {
      assert head[i] in head;
      IndexIs(head, c, tail, i + 1);
    }
  }

  lemma SplitStep(head: string, c: char, tail: string, n: nat)
    requires c !in head && n > 1
    ensures SplitN(head + ([c] + tail), c, n) == [head] + SplitN(tail, c, n - 1)
  {
    IndexIs(head, c, tail, 0);
    hide IndexOf;
    var s := head + ([c] + tail);
    assert s[..|head|] == head && s[|head| + 1..] == tail;
  }

  lemma TokenParts(id: string, secret: seq<Byte>)
    requires '_' !in id
    ensures SplitN(AssembleToken(id, secret), '_', 3) == ["lck", id, Encode(secret)]
  {
    hide Encode;
    var payload := Encode(secret);
    SplitStep("lck", '_', id + ("_" + payload), 3);
    SplitStep(id, '_', payload, 2);
    assert SplitN(payload, '_', 1) == [payload];
    hide SplitN;
  }

  /** The id a token is read as is its second part. */
  lemma SecondPartIsId(token: string, first: string, second: string, third: string)
    requires SplitN(token, '_', 3) == [first, second, third]
    ensures SplitToken(token).Some? ==> SplitToken(token).value.0 == second
  {
    hide Decode, SplitN;
  }

  lemma MisreadAt(head: string, more: string, secret: seq<Byte>)
    requires '_' !in head
    ensures var token := AssembleToken(head + ("_" + more), secret);
            SplitToken(token).Some? ==> SplitToken(token).value.0 == head
  {
    hide Encode, SplitToken, SplitN;
    var payload := Encode(secret);
    var tail, rest := (head + ("_" + more)) + ("_" + payload), more + ("_" + payload);
    assert tail == head + ("_" + rest);
    SplitStep("lck", '_', tail, 3);
    SplitStep(head, '_', rest, 2);
    LastPart(rest);
    SecondPartIsId(AssembleToken(head + ("_" + more), secret), "lck", head, rest);
  }

  /** With an underscore in the id, the second part of the token is not the id. */
  lemma TokenMisread(id: string, secret: seq<Byte>)
    requires '_' in id
    ensures SplitToken(AssembleToken(id, secret)).Some? ==> SplitToken(AssembleToken(id, secret)).value.0 != id
  {
    hide SplitToken, AssembleToken;
    var k := IndexOf(id, '_', 0);
    var head, more := id[..k], id[k + 1..];
    assert id == head + ("_" + more);
    hide IndexOf;
    MisreadAt(head, more, secret);
    assert |head| < |id|;
  }

  lemma LastPart(s: string)
    ensures SplitN(s, '_', 1) == [s]
  {
  }

  /**
   * Splitting undoes assembling exactly for client ids of the right shape without an underscore and secrets
   * of the right length, although the encoded secret may contain underscores.
   */
  lemma SplitAssemble(id: string, secret: seq<Byte>)
    ensures SplitToken(AssembleToken(id, secret)) == Some((id, secret))
            <==> '_' !in id && "cli-" <= id && |secret| == SECRET_LENGTH
  {
    if '_' in id {
      TokenMisread(id, secret);
    } else {
      TokenParts(id, secret);
      DecodeEncode(secret);
    }
    hide Encode, Decode, AssembleToken, SplitN;
  }

  /** Splitting in more than one part cuts at the first separator, if there is one. */
  lemma FirstCut(s: string, n: nat) returns (head: string, tail: string)
    requires n > 1
    ensures '_' !in head
    ensures SplitN(s, '_', n) == [s] || (s == head + ("_" + tail) && SplitN(s, '_', n) == [head] + SplitN(tail, '_', n - 1))
  {
    var k := IndexOf(s, '_', 0);
    head := s[..k];
    if k < |s| {
      tail := s[k + 1..];
      assert s == head + ("_" + tail);
    } else {
      tail := "";
    }
  }

  /** The parts of a text split at its first two underscores. */
  lemma ThreeParts(token: string)
    ensures |SplitN(token, '_', 3)| == 3 ==>
              var p := SplitN(token, '_', 3);
              '_' !in p[0] && '_' !in p[1] && token == p[0] + ("_" + (p[1] + ("_" + p[2])))
  {
    hide SplitN;
    var first, rest := FirstCut(token, 3);
    var second, last := FirstCut(rest, 2);
    LastPart(last);
    LastPart(rest);
  }

  /**
   * A text is a token exactly if it is the prefix, an id and a payload with an underscore between each two, the id
   * free of underscores and starting as client ids do, and the payload decoding to 32 bytes.
   */
  lemma SplitTokenIs(token: string, id: string, secret: seq<Byte>)
    ensures SplitToken(token) == Some((id, secret)) <==>
            exists payload ::
              && token == "lck" + ("_" + (id + ("_" + payload)))
              && '_' !in id && "cli-" <= id && Decode(payload) == Some(secret) && |secret| == 32
  {
    hide Decode, SplitN;
    if SplitToken(token) == Some((id, secret)) {
      ThreeParts(token);
      var payload := SplitN(token, '_', 3)[2];
      assert token == "lck" + ("_" + (id + ("_" + payload)));
    }
    forall payload | token == "lck" + ("_" + (id + ("_" + payload)))
                     && '_' !in id && "cli-" <= id && Decode(payload) == Some(secret) && |secret| == 32
      ensures SplitToken(token) == Some((id, secret))
    {
      SplitStep("lck", '_', id + ("_" + payload), 3);
      SplitStep(id, '_', payload, 2);
      LastPart(payload);
    }
  }

  /** Secrets of the full length do encode with underscores, so splitting at every one would lose them. */
  lemma UnderscoreInSecret()
    ensures exists secret: seq<Byte> :: |secret| == SECRET_LENGTH && '_' in Encode(secret)
  {
    var secret: seq<Byte> := seq(SECRET_LENGTH, i => 255);
    assert secret[0] == 255 && secret[1] == 255 && secret[2] == 255;
    assert Encode(secret)[3] == Digit(63) == '_';
  }

  // ---------------------------------------------------------------- hashes

  function Hex(s: seq<Byte>): string {
    if s == [] then "" else [HexDigit(s[0] / 16), HexDigit(s[0] % 16)] + Hex(s[1..])
  }

  function Unhex(t: string): Option<seq<Byte>> {
    if t == "" then Some([])
    else if |t| == 1 || HexValue(t[0]) < 0 || HexValue(t[1]) < 0 then None
    else
      match Unhex(t[2..])
      case Some(rest) => Some([HexValue(t[0]) * 16 + HexValue(t[1])] + rest)
      case None => None
  }

  lemma ByteReads(b: Byte)
    ensures HexValue(HexDigit(b / 16)) == b / 16 && HexValue(HexDigit(b % 16)) == b % 16
  {
    HexDigitReads(b / 16);
    HexDigitReads(b % 16);
    hide HexValue, HexDigit;
  }

  lemma {:induction false} UnhexHex(s: seq<Byte>)
    ensures Unhex(Hex(s)) == Some(s)
  {
    hide HexValue, HexDigit;
    if s != [] {
      UnhexHex(s[1..]);
      assert Hex(s)[2..] == Hex(s[1..]);
      ByteReads(s[0]);
      assert s == [s[0]] + s[1..];
    }
  }

  /** Equal as bytes; malformed text equals nothing, not even itself. */
  predicate EqualHex(a: string, b: string) {
    Unhex(a).Some? && Unhex(b).Some? && Unhex(a) == Unhex(b)
  }

  type Sha = seq<Byte> -> seq<Byte>

  function HashSecret(sha: Sha, secret: seq<Byte>): string {
    Hex(sha(secret))
  }

  /** Comparing stored and presented hashes compares the digests. */
  lemma HashesCompare(sha: Sha, a: seq<Byte>, b: seq<Byte>)
    ensures EqualHex(HashSecret(sha, a), HashSecret(sha, b)) <==> sha(a) == sha(b)
  {
    UnhexHex(sha(a));
    UnhexHex(sha(b));
    hide Unhex, Hex;
  }
}
