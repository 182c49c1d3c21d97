/**
 The integer types of the Go source that matter to the wire codec: bytes, 64-bit and
 32-bit two's-complement integers, the left shift and the bitwise or of a varint loop.
 */
module GoInts {
  type byte = b: int | 0 <= b < 256
  type bytes = seq<byte>

  const TWO_31 := 0x8000_0000
  const TWO_32 := 0x1_0000_0000
  const TWO_63 := 0x8000_0000_0000_0000
  const TWO_64 := 0x1_0000_0000_0000_0000

  /** The int64 with the bit pattern of the uint64 `u`. */
  function AsInt64(u: int): (r: int)
    requires 0 <= u < TWO_64
    ensures -TWO_63 <= r < TWO_63 && (r - u) % TWO_64 == 0
  {
    if u < TWO_63 then u else u - TWO_64
  }

  /** The int32 with the bit pattern of the uint32 `u`. */
  function AsInt32(u: int): (r: int)
    requires 0 <= u < TWO_32
    ensures -TWO_31 <= r < TWO_31 && (r - u) % TWO_32 == 0
  {
    if u < TWO_31 then u else u - TWO_32
  }

  /** The uint64 an int32 sign-extends to. */
  function SignExtend(i: int): (r: int)
    requires -TWO_31 <= i < TWO_31
    ensures 0 <= r < TWO_64 && AsInt64(r) == i
  {
    if i < 0 then i + TWO_64 else i
  }

  /** Addition of two non-negative int64 values, wrapping to a negative one on overflow. */
  function Add64(a: int, b: int): (r: int)
    requires 0 <= a < TWO_63 && 0 <= b < TWO_63
    ensures if a + b < TWO_63 then r == a + b else r < 0
  {
    if a + b < TWO_63 then a + b else a + b - TWO_64
  }

  function Pow2(k: nat): (p: nat)
    ensures p >= 1
  {
    if k == 0 then 1 else 2 * Pow2(k - 1)
  }

  /** Bitwise or. */
  function Or(x: nat, y: nat): nat {
    if x == 0 && y == 0 then 0
    else (if x % 2 == 1 || y % 2 == 1 then 1 else 0) + 2 * Or(x / 2, y / 2)
  }

  /** `d << shift` in an unsigned integer of the given width: high bits are lost. */
  function Shl(d: nat, shift: nat, width: nat): nat {
    (d * Pow2(shift)) % Pow2(width)
  }

  lemma {:induction false} Pow2Values()
    ensures Pow2(7) == 128 && Pow2(32) == TWO_32 && Pow2(63) == TWO_63 && Pow2(64) == TWO_64
  {
    assert Pow2(8) == 0x100;
    assert Pow2(16) == 0x1_0000 by { Pow2Add(8, 8); }
    assert Pow2(32) == TWO_32 by { Pow2Add(16, 16); }
    assert Pow2(64) == TWO_64 by { Pow2Add(32, 32); }
  }

  lemma {:induction false} Pow2Add(a: nat, b: nat)
    ensures Pow2(a + b) == Pow2(a) * Pow2(b)
  {
    if a > 0 {
      Pow2Add(a - 1, b);
      assert 2 * (Pow2(a - 1) * Pow2(b)) == (2 * Pow2(a - 1)) * Pow2(b);
    }
  }

  lemma {:induction false} Pow2Monotone(a: nat, b: nat)
    requires a <= b
    ensures Pow2(a) <= Pow2(b)
    decreases b
  {
    if a < b { Pow2Monotone(a, b - 1); }
  }

  lemma {:induction false} OrZero(x: nat)
    ensures Or(x, 0) == x && Or(0, x) == x
  {
    if x > 0 { OrZero(x / 2); }
  }

  /** On operands without a common bit, bitwise or is addition. */
  lemma {:induction false} OrDisjoint(x: nat, d: nat, shift: nat)
    requires x < Pow2(shift)
    ensures Or(x, d * Pow2(shift)) == x + d * Pow2(shift)
    decreases shift
  {
    if shift == 0 {
      OrZero(d);
    } else {
      var y := d * Pow2(shift - 1);
      assert d * Pow2(shift) == 2 * y;
      OrDisjoint(x / 2, d, shift - 1);
      OrEven(x, y);
    }
  }

  lemma {:induction false} OrEven(x: nat, y: nat)
    ensures Or(x, 2 * y) == x % 2 + 2 * Or(x / 2, y)
  {
    assert 2 * y % 2 == 0 && 2 * y / 2 == y;
  }

  lemma {:induction false} MulAssoc(a: int, b: int, c: int)
    ensures (a * b) * c == a * (b * c)
  {
  }

  lemma {:induction false} MulDistributes(a: int, b: int, c: int)
    ensures (a + b) * c == a * c + b * c
  {
  }

  lemma {:induction false} MulMonotone(a: int, b: int, c: int)
    requires a <= b && 0 <= c
    ensures a * c <= b * c
  {
  }

  lemma {:induction false} RemainderIs(n: int, m: int, q: int, r: int)
    requires m > 0 && n == q * m + r && 0 <= r < m
    ensures n % m == r
  {
    var q', r' := n / m, n % m;
    assert n == q' * m + r' by { assert n == m * q' + r'; }
    if q' > q {
      MulMonotone(q + 1, q', m);
      MulDistributes(q, 1, m);
    } else if q' < q {
      MulMonotone(q' + 1, q, m);
      MulDistributes(q', 1, m);
    }
  }

  /** What a left shift keeps: the low bits of `d` that still fit. */
  lemma {:induction false} ModOfMultiple(d: nat, s: nat, w: nat)
    requires s <= w
    ensures var q, r := d / Pow2(w - s), d % Pow2(w - s);
            && d * Pow2(s) == q * Pow2(w) + r * Pow2(s)
            && 0 <= r * Pow2(s) <= Pow2(w) - Pow2(s)
            && (d * Pow2(s)) % Pow2(w) == r * Pow2(s)
  {
    hide Pow2;
    Pow2Add(w - s, s);
    ModOfProduct(d, Pow2(w - s), Pow2(s));
  }

  lemma {:induction false} ModOfProduct(d: nat, m: nat, n: nat)
    requires m > 0 && n > 0 && m * n > 0
    ensures var q, r := d / m, d % m;
            && d * n == q * (m * n) + r * n
            && 0 <= r * n <= m * n - n
            && (d * n) % (m * n) == r * n
  {
    var q, r := d / m, d % m;
    assert d == q * m + r by { assert d == m * q + r; }
    MulDistributes(q * m, r, n);
    MulAssoc(q, m, n);
    MulMonotone(0, r, n);
    MulMonotone(r + 1, m, n);
    MulDistributes(r, 1, n);
    RemainderIs(d * n, m * n, q, r * n);
  }

  /** A shift past the width keeps nothing. */
  lemma {:induction false} ModOfLargeMultiple(d: nat, s: nat, w: nat)
    requires s >= w
    ensures d * Pow2(s) == (d * Pow2(s - w)) * Pow2(w) && (d * Pow2(s)) % Pow2(w) == 0
  {
    Pow2Add(s - w, w);
    MulAssoc(d, Pow2(s - w), Pow2(w));
    RemainderIs(d * Pow2(s), Pow2(w), d * Pow2(s - w), 0);
  }

  /** One step of the varint loop `acc |= d << shift`, in an integer of `w` bits. */
  lemma {:induction false} OrStep(x: nat, d: nat, s: nat, w: nat)
    requires x < Pow2(s)
    ensures Or(x % Pow2(w), Shl(d, s, w)) == (x + d * Pow2(s)) % Pow2(w)
  {
    if s >= w {
      OrStepLost(x, d, s, w);
    } else {
      ModOfMultiple(d, s, w);
      Pow2Monotone(s, w);
      RemainderIs(x, Pow2(w), 0, x);
      var q, r := d / Pow2(w - s), d % Pow2(w - s);
      OrDisjoint(x, r, s);
      RemainderIs(x + d * Pow2(s), Pow2(w), q, x + r * Pow2(s));
    }
  }

  lemma {:induction false} OrStepLost(x: nat, d: nat, s: nat, w: nat)
    requires s >= w
    ensures Or(x % Pow2(w), Shl(d, s, w)) == (x + d * Pow2(s)) % Pow2(w)
  {
    ModOfLargeMultiple(d, s, w);
    OrZero(x % Pow2(w));
    assert Or(x % Pow2(w), Shl(d, s, w)) == x % Pow2(w);
    AddMultiple(x, d * Pow2(s - w), Pow2(w));
  }

  lemma {:induction false} AddMultiple(x: nat, q: nat, m: nat)
    requires m > 0
    ensures (x + q * m) % m == x % m
  {
    var q0 := x / m;
    assert x == q0 * m + x % m by { assert x == m * q0 + x % m; }
    MulDistributes(q0, q, m);
    RemainderIs(x + q * m, m, q0 + q, x % m);
  }
}
