/**
 * ULID text, as far as the audit log depends on it: a 48-bit millisecond and 80 bits of entropy, printed
 * in Crockford base 32 at a fixed width, so that text order is the order of the pairs.
 */
module Ulid {
  import opened Json

  /** One past the largest millisecond a ULID can carry. */
  const MAX_MS: nat := 0x1_0000_0000_0000

  function Pow32(w: nat): (p: nat)
    ensures p > 0
  {
    if w == 0 then 1 else 32 * Pow32(w - 1)
  }

  /** Crockford's alphabet: the digits and the upper-case letters without I, L, O and U. */
  function Digit32(d: nat): char
    requires d < 32
  {
    if d < 10 then ('0' as int + d) as char
    else if d < 18 then ('A' as int + d - 10) as char
    else if d < 20 then ('J' as int + d - 18) as char
    else if d < 22 then ('M' as int + d - 20) as char
    else if d < 27 then ('P' as int + d - 22) as char
    else ('V' as int + d - 27) as char
  }

  lemma Digit32Is(d: nat)
    requires d < 32
    ensures Digit32(d) == "0123456789ABCDEFGHJKMNPQRSTVWXYZ"[d]
  {
  }

  /** The low w base-32 digits of v. */
  function Text32(v: nat, w: nat): (s: string)
    ensures |s| == w
  {
    if w == 0 then "" else Text32(v / 32, w - 1) + [Digit32(v % 32)]
  }

  lemma Digit32Order(c: nat, d: nat)
    requires c < 32 && d < 32
    ensures Digit32(c) < Digit32(d) <==> c < d
    ensures Digit32(c) == Digit32(d) <==> c == d
  {
  }

  lemma {:induction false} LessAppend(a: string, b: string, c: string, d: string)
    requires |a| == |b|
    ensures Less(a + c, b + d) <==> Less(a, b) || (a == b && Less(c, d))
  {
    if a == "" {
      assert a + c == c && b + d == d;
    } else {
      LessAppend(a[1..], b[1..], c, d);
      assert (a + c)[1..] == a[1..] + c && (b + d)[1..] == b[1..] + d;
      assert a == [a[0]] + a[1..] && b == [b[0]] + b[1..];
    }
  }

  /** Fixed-width text orders as the numbers do. */
  lemma {:induction false} Text32Order(u: nat, v: nat, w: nat)
    requires u < Pow32(w) && v < Pow32(w)
    ensures Less(Text32(u, w), Text32(v, w)) <==> u < v
    ensures Text32(u, w) == Text32(v, w) <==> u == v
  {
    if w > 0 {
      Text32Order(u / 32, v / 32, w - 1);
      Digit32Order(u % 32, v % 32);
      var a, b := Text32(u / 32, w - 1), Text32(v / 32, w - 1);
      LessAppend(a, b, [Digit32(u % 32)], [Digit32(v % 32)]);
      assert Text32(u, w)[..w - 1] == a && Text32(v, w)[..w - 1] == b;
      assert Text32(u, w)[w - 1] == Digit32(u % 32) && Text32(v, w)[w - 1] == Digit32(v % 32);
    }
  }

  /** A ULID before printing. */
  datatype Stamp = Stamp(ms: nat, entropy: nat)

  predicate Valid(x: Stamp) {
    x.ms < MAX_MS && x.entropy < Pow32(16)
  }

  predicate Before(x: Stamp, y: Stamp) {
    x.ms < y.ms || (x.ms == y.ms && x.entropy < y.entropy)
  }

  /** `aud-` and the 26 characters of the ULID. */
  function IdText(x: Stamp): string {
    "aud-" + (Text32(x.ms, 10) + Text32(x.entropy, 16))
  }

  lemma IdOrder(x: Stamp, y: Stamp)
    requires Valid(x) && Valid(y)
    ensures Less(IdText(x), IdText(y)) <==> Before(x, y)
    ensures IdText(x) == IdText(y) <==> x == y
  {
    assert Pow32(10) >= MAX_MS;
    Text32Order(x.ms, y.ms, 10);
    Text32Order(x.entropy, y.entropy, 16);
    var s, t := Text32(x.ms, 10) + Text32(x.entropy, 16), Text32(y.ms, 10) + Text32(y.entropy, 16);
    hide Text32;
    LessAppend(Text32(x.ms, 10), Text32(y.ms, 10), Text32(x.entropy, 16), Text32(y.entropy, 16));
    LessAppend("aud-", "aud-", s, t);
    assert !Less("aud-", "aud-") by { LessTotal("aud-", "aud-"); }
    assert IdText(x)[4..] == s && IdText(y)[4..] == t;
    assert s[..10] == Text32(x.ms, 10) && t[..10] == Text32(y.ms, 10);
    assert s[10..] == Text32(x.entropy, 16) && t[10..] == Text32(y.entropy, 16);
  }
}
