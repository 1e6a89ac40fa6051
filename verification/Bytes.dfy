/** Bytes, powers of two and fixed-width big-endian integers, shared by every codec. */
module Bytes {

  type byte = b: int | 0 <= b < 256

  const U16_MAX: nat := 0xffff
  const U32_MAX: nat := 0xffff_ffff

  datatype Option<+T> = None | Some(value: T)

  datatype Result<+T, +E> = Ok(value: T) | Err(error: E)

  function Pow2(n: nat): (p: nat)
    ensures p >= 1
  {
    if n == 0 then 1 else 2 * Pow2(n - 1)
  }

  lemma {:induction false} Pow2Add(a: nat, b: nat)
    ensures Pow2(a + b) == Pow2(a) * Pow2(b)
  {
    if b == 0 {
    } else {
      Pow2Add(a, b - 1);
      assert Pow2(a + b) == 2 * Pow2(a + (b - 1));
      assert Pow2(a) * (2 * Pow2(b - 1)) == 2 * (Pow2(a) * Pow2(b - 1));
    }
  }

  lemma {:induction false} Pow2Monotone(a: nat, b: nat)
    requires a <= b
    ensures Pow2(a) <= Pow2(b)
    ensures a < b ==> 2 * Pow2(a) <= Pow2(b)
    decreases b
  {
    if a < b {
      Pow2Monotone(a, b - 1);
    }
  }

  function Zeros(n: nat): (s: seq<byte>)
    ensures |s| == n && forall i :: 0 <= i < n ==> s[i] == 0
  {
    seq(n, _ => 0)
  }

  /** The low `8 * w` bits of `v`, most significant byte first: what `setUintN(off, v, false)` stores. */
  function BigEndian(v: nat, w: nat): (s: seq<byte>)
    ensures |s| == w
  {
    if w == 0 then [] else BigEndian(v / 256, w - 1) + [v % 256]
  }

  /** The number a big-endian read returns. */
  function FromBigEndian(s: seq<byte>): nat {
    if s == [] then 0 else FromBigEndian(s[..|s| - 1]) * 256 + s[|s| - 1]
  }

  lemma {:induction false} ReadAfterWrite(v: nat, w: nat)
    ensures FromBigEndian(BigEndian(v, w)) == v % Pow2(8 * w)
  {
    if w == 0 {
    } else {
      var p := Pow2(8 * (w - 1));
      ReadAfterWrite(v / 256, w - 1);
      assert BigEndian(v, w)[..w - 1] == BigEndian(v / 256, w - 1);
      Pow2Add(8 * (w - 1), 8);
      assert Pow2(8) == 256;
      ModOfProduct(v, p, 256);
    }
  }

  lemma {:induction false} WriteAfterRead(s: seq<byte>)
    ensures FromBigEndian(s) < Pow2(8 * |s|)
    ensures BigEndian(FromBigEndian(s), |s|) == s
  {
    if s == [] {
    } else {
      var init := s[..|s| - 1];
      WriteAfterRead(init);
      Pow2Add(8 * |init|, 8);
      assert Pow2(8) == 256;
      assert s == init + [s[|s| - 1]];
    }
  }

  /** `x mod (a * b)` from the quotient by `b`. */
  lemma ModOfProduct(x: int, a: nat, b: nat)
    requires a > 0 && b > 0
    ensures a * b > 0
    ensures x % (a * b) == (x / b % a) * b + x % b
  {
    var q, r := x / b / a, x / b % a;
    assert x == (q * a + r) * b + x % b;
    assert (q * a + r) * b == q * (a * b) + r * b by {
      assert (q * a) * b == q * (a * b);
    }
    assert 0 <= r * b + x % b < a * b by {
      assert (r + 1) * b <= a * b;
    }
    QuotientAndRemainder(x, a * b, q, r * b + x % b);
  }

  /** A quotient and remainder in range are the ones the operators return. */
  lemma QuotientAndRemainder(x: int, d: int, q: int, r: int)
    requires 0 <= r < d
    requires x == q * d + r
    ensures x / d == q && x % d == r
  {
    var q', r' := x / d, x % d;
    assert x == q' * d + r';
    if q < q' {
      ScaleMonotone(q + 1, q', d);
    } else if q' < q {
      ScaleMonotone(q' + 1, q, d);
    }
  }

  lemma ScaleMonotone(a: int, b: int, d: int)
    requires a <= b && 0 <= d
    ensures a * d <= b * d
  {
  }
}
