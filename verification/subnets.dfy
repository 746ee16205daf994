/**
 Address arithmetic: an address is a big-endian integer, subnet membership is
 equality of integer quotients and a range test is integer order. The byte-level
 loops of the matchers are proved to decide exactly these integer statements.
 */
module Subnets {
  import opened Text
  import opened Matchers

  function Pow2(n: nat): (p: nat)
    ensures p >= 1
  {
    if n == 0 then 1 else 2 * Pow2(n - 1)
  }

  /** The integer an address spells in network byte order. */
  function Num(bytes: seq<Byte>): nat {
    if bytes == [] then 0 else bytes[0] * Pow2(8 * (|bytes| - 1)) + Num(bytes[1..])
  }

  lemma {:induction false} Pow2Add(m: nat, n: nat)
    ensures Pow2(m + n) == Pow2(m) * Pow2(n)
  {
    if m > 0 {
      Pow2Add(m - 1, n);
      MulAssoc(2, Pow2(m - 1), Pow2(n));
    }
  }

  lemma {:induction false} MulAssoc(a: nat, b: nat, c: nat)
    ensures a * b * c == a * (b * c)
  {
  }

  lemma {:induction false} NumBound(bytes: seq<Byte>)
    ensures Num(bytes) < Pow2(8 * |bytes|)
  {
    if bytes != [] {
      NumBound(bytes[1..]);
      var unit := Pow2(8 * (|bytes| - 1));
      Pow2Add(8, 8 * (|bytes| - 1));
      Pow2Of8();
      MulMono(bytes[0], 255, unit);
    }
  }

  lemma {:induction false} Pow2Of8()
    ensures Pow2(8) == 256
  {
    assert Pow2(4) == 16;
  }

  lemma {:induction false} MulMono(a: nat, b: nat, k: nat)
    requires a <= b
    ensures a * k <= b * k
  {
  }

  // ---- order -----------------------------------------------------------------

  /** Sign of `memcmp` on equally long byte strings. */
  function Memcmp(a: seq<Byte>, b: seq<Byte>): int
    requires |a| == |b|
  {
    if a == [] then 0
    else if a[0] != b[0] then if a[0] < b[0] then -1 else 1
    else Memcmp(a[1..], b[1..])
  }

  lemma {:induction false} NumCons(bytes: seq<Byte>)
    requires bytes != []
    ensures Num(bytes) == bytes[0] * Pow2(8 * |bytes[1..]|) + Num(bytes[1..])
    ensures Num(bytes[1..]) < Pow2(8 * |bytes[1..]|)
  {
    NumBound(bytes[1..]);
  }

  /** Two-digit numbers compare by the high digit first. */
  lemma {:induction false} TwoDigits(x: nat, y: nat, u: nat, v: nat, m: nat)
    requires u < m && v < m
    ensures x * m + u < y * m + v <==> x < y || (x == y && u < v)
    ensures x * m + u == y * m + v <==> x == y && u == v
  {
    if x < y {
      MulMono(x + 1, y, m);
    } else if y < x {
      MulMono(y + 1, x, m);
    }
  }

  /** Byte comparison is numeric order. */
  lemma {:induction false} MemcmpIsOrder(a: seq<Byte>, b: seq<Byte>)
    requires |a| == |b|
    ensures Memcmp(a, b) < 0 <==> Num(a) < Num(b)
    ensures Memcmp(a, b) == 0 <==> Num(a) == Num(b)
    ensures Memcmp(a, b) == 0 <==> a == b
  {
    hide Pow2;
    if a != [] {
      MemcmpIsOrder(a[1..], b[1..]);
      NumCons(a);
      NumCons(b);
      TwoDigits(a[0], b[0], Num(a[1..]), Num(b[1..]), Pow2(8 * |a[1..]|));
      assert a == [a[0]] + a[1..] && b == [b[0]] + b[1..];
    }
  }

  // ---- prefixes --------------------------------------------------------------

  function BitAnd(x: nat, m: nat): nat {
    if x == 0 || m == 0 then 0 else x % 2 * (m % 2) + 2 * BitAnd(x / 2, m / 2)
  }

  /** `0xFF << (8 - bits)`, truncated to a byte. */
  function HighMask(bits: nat): nat
    requires bits <= 8
  {
    255 * Pow2(8 - bits) % 256
  }

  lemma {:induction false} AndAllOnes(x: nat, n: nat)
    requires x < Pow2(n)
    ensures BitAnd(x, Pow2(n) - 1) == x
  {
    if n > 0 {
      AndAllOnes(x / 2, n - 1);
      AndOdd(x, Pow2(n - 1) - 1);
    }
  }

  /** Masking with high ones drops the low bits. */
  lemma {:induction false} AndHighOnes(x: nat, n: nat, k: nat)
    requires k <= n && x < Pow2(n)
    ensures Pow2(k) <= Pow2(n)
    ensures BitAnd(x, Pow2(n) - Pow2(k)) == x / Pow2(k) * Pow2(k)
  {
    if k == 0 {
      AndAllOnes(x, n);
    } else {
      AndHighOnes(x / 2, n - 1, k - 1);
      DivDiv(x, 2, Pow2(k - 1));
      AndEven(x, Pow2(n - 1) - Pow2(k - 1));
      TwiceProduct(x / Pow2(k), Pow2(k - 1));
    }
  }

  lemma {:induction false} AndOdd(x: nat, half: nat)
    ensures BitAnd(x, 2 * half + 1) == x % 2 + 2 * BitAnd(x / 2, half)
  {
    assert (2 * half + 1) / 2 == half && (2 * half + 1) % 2 == 1;
  }

  lemma {:induction false} AndEven(x: nat, half: nat)
    ensures BitAnd(x, 2 * half) == 2 * BitAnd(x / 2, half)
  {
  }

  lemma {:induction false} TwiceProduct(q: nat, d: nat)
    ensures q * (2 * d) == 2 * (q * d)
  {
  }

  lemma {:induction false} SmallQuotient(x: nat, d: nat)
    requires x < d
    ensures x / d == 0
  {
  }

  lemma {:induction false} DivDiv(x: nat, a: nat, b: nat)
    requires a > 0 && b > 0
    ensures a * b > 0 && x / (a * b) == x / a / b
  {
    DivDivParts(x, a, b, x / a, x % a, x / a / b, x / a % b);
  }

  lemma {:induction false} DivDivParts(x: nat, a: nat, b: nat, y: nat, s: nat, q: nat, r: nat)
    requires a > 0 && b > 0 && x == y * a + s && s < a && y == q * b + r && r < b
    ensures a * b > 0 && x / (a * b) == q
  {
    Regroup(q, b, r, a, s);
    QuotientIs(x, a * b, q, r * a + s);
  }

  lemma {:induction false} Regroup(q: nat, b: nat, r: nat, a: nat, s: nat)
    requires a > 0 && b > 0 && r < b && s < a
    ensures (q * b + r) * a + s == q * (a * b) + (r * a + s)
    ensures r * a + s < a * b && a * b > 0
  {
    MulMono(r + 1, b, a);
    assert (q * b + r) * a == q * b * a + r * a;
    assert q * b * a == q * (a * b);
  }

  lemma {:induction false} QuotientIs(x: nat, d: nat, q: nat, r: nat)
    requires d > 0 && x == q * d + r && r < d
    ensures x / d == q
  {
    var p := x / d;
    if p < q {
      MulMono(p + 1, q, d);
    } else if p > q {
      MulMono(q + 1, p, d);
    }
  }

  /** The matcher's byte test: whole bytes equal, then the remaining high bits of one byte. */
  predicate SameLeadingBits(a: seq<Byte>, b: seq<Byte>, p: nat)
    requires |a| == |b| && p <= 8 * |a|
  {
    a[..p / 8] == b[..p / 8] &&
    (p % 8 != 0 ==> BitAnd(a[p / 8], HighMask(p % 8)) == BitAnd(b[p / 8], HighMask(p % 8)))
  }

  /** Masking a byte with its `bits` high ones compares the quotients. */
  lemma {:induction false} MaskedByte(x: Byte, y: Byte, bits: nat)
    requires 0 < bits < 8
    ensures BitAnd(x, HighMask(bits)) == BitAnd(y, HighMask(bits)) <==> x / Pow2(8 - bits) == y / Pow2(8 - bits)
  {
    hide BitAnd, HighMask, Pow2;
    Pow2Of8();
    AndHighOnes(x, 8, 8 - bits);
    AndHighOnes(y, 8, 8 - bits);
    HighMaskValue(bits);
    TwoDigits(x / Pow2(8 - bits), y / Pow2(8 - bits), 0, 0, Pow2(8 - bits));
  }

  lemma {:induction false} HighMaskValue(bits: nat)
    requires 0 < bits < 8
    ensures HighMask(bits) == 256 - Pow2(8 - bits)
  {
    assert Pow2(1) == 2 && Pow2(2) == 4 && Pow2(3) == 8;
    assert Pow2(4) == 16 && Pow2(5) == 32;
    assert Pow2(6) == 64 && Pow2(7) == 128;
  }

  /** Two addresses share `p` leading bits exactly when their quotients by `2^(w-p)` agree. */
  lemma {:induction false} LeadingBitsAreQuotient(a: seq<Byte>, b: seq<Byte>, p: nat)
    requires |a| == |b| && p <= 8 * |a|
    ensures SameLeadingBits(a, b, p) <==> Num(a) / Pow2(8 * |a| - p) == Num(b) / Pow2(8 * |a| - p)
  {
    hide Num, Pow2, SameLeadingBits;
    if p < 8 {
      ShortPrefix(a, b, p);
    } else {
      LeadingBitsAreQuotient(a[1..], b[1..], p - 8);
      LongPrefix(a, b, p, 8 * |a| - p);
    }
  }

  lemma {:induction false} LongPrefix(a: seq<Byte>, b: seq<Byte>, p: nat, k: nat)
    requires |a| == |b| && 8 <= p && p + k == 8 * |a|
    requires SameLeadingBits(a[1..], b[1..], p - 8) <==> Num(a[1..]) / Pow2(k) == Num(b[1..]) / Pow2(k)
    ensures SameLeadingBits(a, b, p) <==> Num(a) / Pow2(k) == Num(b) / Pow2(k)
  {
    hide Num, Pow2, SameLeadingBits;
    DropByte(a, b, p);
    TopDigits(a, b, k);
  }

  /** An address without its lowest `k` bits. */
  function Quotient(a: seq<Byte>, k: nat): nat {
    Whole(Num(a), Pow2(k))
  }

  function Whole(x: nat, d: nat): nat
    requires d > 0
  {
    x / d
  }

  /** Two quotients agree when their first bytes and the quotients of the rest do. */
  lemma {:induction false} TopDigits(a: seq<Byte>, b: seq<Byte>, k: nat)
    requires |a| == |b| && a != [] && k <= 8 * |a[1..]|
    ensures Quotient(a, k) == Quotient(b, k) <==> a[0] == b[0] && Quotient(a[1..], k) == Quotient(b[1..], k)
  {
    hide Quotient, Pow2;
    var m := Pow2(8 * |a[1..]| - k);
    QuotientTail(a, k, m);
    QuotientTail(b, k, m);
    SameDigits(a[0], b[0], Quotient(a[1..], k), Quotient(b[1..], k), m, Quotient(a, k), Quotient(b, k));
  }

  lemma {:induction false} QuotientTail(a: seq<Byte>, k: nat, m: nat)
    requires a != [] && k <= 8 * |a[1..]| && m == Pow2(8 * |a[1..]| - k)
    ensures Quotient(a, k) == a[0] * m + Quotient(a[1..], k) && Quotient(a[1..], k) < m
  {
    hide Num, Pow2;
    TailQuotient(a, k);
  }

  lemma {:induction false} SameDigits(x: nat, y: nat, u: nat, v: nat, m: nat, p: nat, q: nat)
    requires u < m && v < m && p == x * m + u && q == y * m + v
    ensures p == q <==> x == y && u == v
  {
    TwoDigits(x, y, u, v, m);
  }

  lemma {:induction false} ShortPrefix(a: seq<Byte>, b: seq<Byte>, p: nat)
    requires |a| == |b| && p <= 8 * |a| && p < 8
    ensures SameLeadingBits(a, b, p) <==> Num(a) / Pow2(8 * |a| - p) == Num(b) / Pow2(8 * |a| - p)
  {
    hide Num, Pow2, BitAnd, HighMask;
    if p == 0 {
      NumBound(a);
      NumBound(b);
      SmallQuotient(Num(a), Pow2(8 * |a|));
      SmallQuotient(Num(b), Pow2(8 * |a|));
    } else {
      FirstByteQuotient(a, p);
      FirstByteQuotient(b, p);
      MaskedByte(a[0], b[0], p);
    }
  }

  lemma {:induction false} DropByte(a: seq<Byte>, b: seq<Byte>, p: nat)
    requires |a| == |b| && 8 <= p <= 8 * |a|
    ensures SameLeadingBits(a, b, p) <==> a[0] == b[0] && SameLeadingBits(a[1..], b[1..], p - 8)
  {
    hide BitAnd, HighMask;
    assert (p - 8) / 8 == p / 8 - 1 && (p - 8) % 8 == p % 8;
    PrefixCons(a, b, p / 8);
  }

  lemma {:induction false} PrefixCons(a: seq<Byte>, b: seq<Byte>, n: nat)
    requires |a| == |b| && 0 < n <= |a|
    ensures a[..n] == b[..n] <==> a[0] == b[0] && a[1..][..n - 1] == b[1..][..n - 1]
  {
    assert a[..n] == [a[0]] + a[1..][..n - 1] && b[..n] == [b[0]] + b[1..][..n - 1];
  }

  lemma {:induction false} FirstByteQuotient(a: seq<Byte>, p: nat)
    requires a != [] && p < 8
    ensures Num(a) / Pow2(8 * |a| - p) == a[0] / Pow2(8 - p)
  {
    hide Num, Pow2;
    var unit := Pow2(8 * |a[1..]|);
    NumCons(a);
    Pow2Add(8 * |a[1..]|, 8 - p);
    DivDiv(Num(a), unit, Pow2(8 - p));
    QuotientIs(Num(a), unit, a[0], Num(a[1..]));
  }

  /** Dividing by a power below the first byte leaves the first byte on top. */
  lemma {:induction false} TailQuotient(a: seq<Byte>, k: nat)
    requires a != [] && k <= 8 * |a[1..]|
    ensures var m := Pow2(8 * |a[1..]| - k); var t := Num(a[1..]) / Pow2(k);
            Num(a) / Pow2(k) == a[0] * m + t && t < m
  {
    hide Num, Pow2;
    NumCons(a);
    Pow2Add(8 * |a[1..]| - k, k);
    CarryQuotient(a[0], Num(a[1..]), Pow2(8 * |a[1..]| - k), Pow2(k));
  }

  lemma {:induction false} CarryQuotient(x: nat, y: nat, m: nat, d: nat)
    requires d > 0 && y < m * d
    ensures (x * (m * d) + y) / d == x * m + y / d && y / d < m
  {
    var t, r := y / d, y % d;
    MulAssoc(x, m, d);
    assert (x * m + t) * d == x * m * d + t * d;
    QuotientIs(x * (m * d) + y, d, x * m + t, r);
    if t >= m {
      MulMono(m, t, d);
    }
  }

  lemma {:induction false} FloorFacts(n: nat, d: nat)
    requires d > 0
    ensures 0 <= n / d * d <= n < n / d * d + d
  {
  }

  /** First address of the block of `2^k` addresses around `n`. */
  function BlockBase(n: nat, k: nat): nat {
    FloorFacts(n, Pow2(k));
    n / Pow2(k) * Pow2(k)
  }

  lemma {:induction false} FloorInterval(x: nat, n: nat, d: nat)
    requires d > 0
    ensures x / d == n / d <==> n / d * d <= x <= n / d * d + d - 1
  {
    var q := n / d;
    FloorFacts(x, d);
    if q * d <= x < q * d + d {
      QuotientIs(x, d, q, x - q * d);
    }
  }

  /** Equal quotients mean membership in the interval `[base, base + 2^k - 1]`. */
  lemma {:induction false} QuotientIsInterval(x: nat, n: nat, k: nat)
    ensures x / Pow2(k) == n / Pow2(k) <==> BlockBase(n, k) <= x <= BlockBase(n, k) + Pow2(k) - 1
  {
    hide Pow2;
    FloorInterval(x, n, Pow2(k));
  }
}
