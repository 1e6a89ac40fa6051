/** `pad.ts`: fixed buckets for small frames, Padmé above 4096, with an integer floor-log. */
module Padding {
  import opened Bytes

  const LARGEST_FIXED_BUCKET: nat := 4096

  function FloorLog2(n: nat): (e: nat)
    requires n >= 1
    ensures Pow2(e) <= n < Pow2(e + 1)
  {
    if n == 1 then 0 else FloorLog2(n / 2) + 1
  }

  lemma FloorLog2Unique(n: nat, e: nat)
    requires Pow2(e) <= n < Pow2(e + 1)
    ensures FloorLog2(n) == e
  {
    var f := FloorLog2(n);
    if f < e {
      Pow2Monotone(f + 1, e);
    } else if e < f {
      Pow2Monotone(e + 1, f);
    }
  }

  /** `mantissaBits` for a length whose floor-log is `e`. */
  function MantissaBits(e: nat): nat
    requires e >= 1
  {
    FloorLog2(e) + 1
  }

  /** `Math.ceil(n / b) * b`. */
  function CeilTo(n: nat, b: nat): (r: nat)
    requires b > 0
    ensures n <= r < n + b && r % b == 0
  {
    CeilBounds(n, b);
    (n + b - 1) / b * b
  }

  lemma CeilBounds(n: nat, b: nat)
    requires b > 0
    ensures n <= (n + b - 1) / b * b < n + b
    ensures (n + b - 1) / b * b % b == 0
  {
    var q := (n + b - 1) / b;
    QuotientAndRemainder(q * b, b, q, 0);
  }

  function Padme(len: nat): nat
    requires len > LARGEST_FIXED_BUCKET
  {
    LogAboveBuckets(len);
    var exponent := FloorLog2(len);
    var mantissaBits := MantissaBits(exponent);
    var lastBits := exponent - mantissaBits;
    if lastBits <= 0 then len
    else CeilTo(len, Pow2(lastBits))
  }

  /** The smallest fixed bucket that fits, else Padmé; `None` is the error on a negative input. */
  function TargetPaddedLen(rawLen: int): (r: Option<nat>)
    ensures r.Some? <==> rawLen >= 0
  {
    if rawLen < 0 then None
    else if rawLen <= 256 then Some(256)
    else if rawLen <= 1024 then Some(1024)
    else if rawLen <= 4096 then Some(4096)
    else Some(Padme(rawLen))
  }

  function Padded(n: nat): nat {
    TargetPaddedLen(n).value
  }

  lemma LogAboveBuckets(len: nat)
    requires len > LARGEST_FIXED_BUCKET
    ensures FloorLog2(len) >= 12
  {
    var e := FloorLog2(len);
    if e < 12 {
      Pow2Monotone(e + 1, 12);
      Pow2Of12();
    }
  }

  lemma Pow2Of12()
    ensures Pow2(12) == 4096
  {
    Pow2Add(6, 6);
    assert Pow2(6) == 64;
  }

  /** The exponent always has more bits than its own logarithm, so a block has at least 2^8 bytes. */
  lemma MantissaIsShort(e: nat)
    requires e >= 12
    ensures e < Pow2(MantissaBits(e)) <= 2 * e
    ensures 4 <= MantissaBits(e) <= e - 8
  {
    var s := MantissaBits(e);
    assert Pow2(3) == 8;
    if s < 4 {
      Pow2Monotone(s, 3);
      assert false;
    }
    LinearBelowPower(s - 1);
  }

  lemma {:induction false} LinearBelowPower(k: nat)
    requires k >= 3
    ensures Pow2(k) >= k + 5
    ensures k >= 4 ==> Pow2(k) >= k + 9
  {
    if k == 3 {
      assert Pow2(3) == 8;
    } else {
      LinearBelowPower(k - 1);
      assert k == 4 ==> Pow2(3) == 8;
    }
  }

  // ---- what a padded length is --------------------------------------------------------------------

  /** The block size Padmé rounds to between 2^e and 2^(e+1). */
  function Block(e: nat): (b: nat)
    requires e >= 12
    ensures b >= 1
  {
    MantissaIsShort(e);
    Pow2(e - MantissaBits(e))
  }

  lemma PaddedAbove(n: nat)
    requires n > LARGEST_FIXED_BUCKET
    ensures FloorLog2(n) >= 12
    ensures Padded(n) == CeilTo(n, Block(FloorLog2(n)))
  {
    LogAboveBuckets(n);
    MantissaIsShort(FloorLog2(n));
  }

  /** A power of two is a whole number of its own blocks: 2^S of them. */
  lemma PowerIsBlocks(e: nat)
    requires e >= 12
    ensures Pow2(e) == Pow2(MantissaBits(e)) * Block(e)
    ensures Pow2(e) % Block(e) == 0 && Pow2(e + 1) % Block(e) == 0
  {
    MantissaIsShort(e);
    var s := MantissaBits(e);
    Pow2Add(s, e - s);
    Pow2Add(s + 1, e - s);
    QuotientAndRemainder(Pow2(e), Block(e), Pow2(s), 0);
    QuotientAndRemainder(Pow2(e + 1), Block(e), Pow2(s + 1), 0);
  }

  lemma CeilIsLeast(n: nat, b: nat, m: nat)
    requires b > 0 && m >= n && m % b == 0
    ensures CeilTo(n, b) <= m
  {
    hide CeilTo;
    var c := CeilTo(n, b);
    WholeMultiple(c, b);
    WholeMultiple(m, b);
    MultipleBelow(c / b, m / b, b);
  }

  lemma WholeMultiple(c: nat, b: nat)
    requires b > 0 && c % b == 0
    ensures c == c / b * b
  {
  }

  /** A multiple that is less than one block above another is not above it. */
  lemma MultipleBelow(i: nat, j: nat, b: nat)
    requires i * b < j * b + b
    ensures i * b <= j * b
  {
    if j < i {
      assert (j + 1) * b == j * b + b;
      ScaleMonotone(j + 1, i, b);
    } else {
      ScaleMonotone(i, j, b);
    }
  }

  /** Padding stays within the power-of-two range of the length. */
  lemma PaddedInRange(n: nat)
    requires n > LARGEST_FIXED_BUCKET
    ensures n <= Padded(n) <= Pow2(FloorLog2(n) + 1)
  {
    PaddedAbove(n);
    PowerIsBlocks(FloorLog2(n));
    CeilIsLeast(n, Block(FloorLog2(n)), Pow2(FloorLog2(n) + 1));
  }

  // ---- the promises of the padding policy ---------------------------------------------------------

  lemma NeverShorter(n: nat)
    ensures Padded(n) >= n && Padded(n) >= 256
  {
    if n > LARGEST_FIXED_BUCKET {
      PaddedInRange(n);
    }
  }

  /** Up to 4096 the padded length is the least of the three buckets that fits; above, the least multiple of the block. */
  lemma LeastThatFits(n: nat, m: nat)
    requires m >= n
    ensures n <= 4096 && m in {256, 1024, 4096} ==> Padded(n) <= m
    ensures n <= 4096 ==> Padded(n) in {256, 1024, 4096}
    ensures n > 4096 ==> FloorLog2(n) >= 12 && Padded(n) % Block(FloorLog2(n)) == 0
    ensures n > 4096 && m % Block(FloorLog2(n)) == 0 ==> Padded(n) <= m
  {
    if n > LARGEST_FIXED_BUCKET {
      PaddedAbove(n);
      if m % Block(FloorLog2(n)) == 0 {
        CeilIsLeast(n, Block(FloorLog2(n)), m);
      }
    }
  }

  lemma SameExponent(a: nat, b: nat)
    requires 1 <= a <= b
    ensures FloorLog2(a) <= FloorLog2(b)
    ensures FloorLog2(a) < FloorLog2(b) ==> Pow2(FloorLog2(a) + 1) <= b
  {
    var x, y := FloorLog2(a), FloorLog2(b);
    if x < y {
      Pow2Monotone(x + 1, y);
    } else if y < x {
      Pow2Monotone(y + 1, x);
    }
  }

  lemma Monotone(a: nat, b: nat)
    requires a <= b
    ensures Padded(a) <= Padded(b)
  {
    NeverShorter(b);
    if a > LARGEST_FIXED_BUCKET {
      hide Padme, CeilTo, Block, FloorLog2;
      SameExponent(a, b);
      PaddedAbove(a);
      PaddedAbove(b);
      PaddedInRange(a);
      if FloorLog2(a) == FloorLog2(b) {
        CeilIsLeast(a, Block(FloorLog2(a)), Padded(b));
      }
    }
  }

  /** A multiple of the block of its own range is a padded length already. */
  lemma MultiplesAreFixed(m: nat, e: nat)
    requires e >= 12 && LARGEST_FIXED_BUCKET < m && Pow2(e) <= m <= Pow2(e + 1) && m % Block(e) == 0
    ensures Padded(m) == m
  {
    hide Padme, CeilTo, Block, FloorLog2;
    PaddedAbove(m);
    if m == Pow2(e + 1) {
      assert Pow2(e + 1) < Pow2(e + 2);
      FloorLog2Unique(m, e + 1);
      PowerIsBlocks(e + 1);
      CeilIsLeast(m, Block(e + 1), m);
    } else {
      FloorLog2Unique(m, e);
      CeilIsLeast(m, Block(e), m);
    }
  }

  lemma Idempotent(n: nat)
    ensures Padded(Padded(n)) == Padded(n)
  {
    if n > LARGEST_FIXED_BUCKET {
      PaddedAbove(n);
      PaddedInRange(n);
      MultiplesAreFixed(Padded(n), FloorLog2(n));
    }
  }

  lemma LessThanBlock(o: nat, b: nat, p: nat)
    requires o < b && p >= 16
    ensures o * p < p * b
    ensures 16 * o <= o * p
  {
    ScaleMonotone(o, b - 1, p);
    ScaleMonotone(16, p, o);
  }

  /** Above the buckets the overhead is below one part in 2^S, and so below one part in sixteen. */
  lemma OverheadIsSmall(n: nat)
    requires n > LARGEST_FIXED_BUCKET
    ensures Padded(n) >= n && FloorLog2(n) >= 12
    ensures (Padded(n) - n) * Pow2(MantissaBits(FloorLog2(n))) < n
    ensures 16 * (Padded(n) - n) < n
  {
    hide Padme, Block, FloorLog2;
    var e := FloorLog2(n);
    PaddedAbove(n);
    PowerIsBlocks(e);
    MantissaIsShort(e);
    Pow2Monotone(4, MantissaBits(e));
    assert Pow2(4) == 16;
    LessThanBlock(Padded(n) - n, Block(e), Pow2(MantissaBits(e)));
  }

  // ---- how much a padded length tells -------------------------------------------------------------

  /** The padded lengths a reader of the store can see for inputs in (2^e, 2^(e+1)]. */
  ghost predicate Visible(m: nat, e: nat) {
    exists n: nat :: Pow2(e) < n <= Pow2(e + 1) && Padded(n) == m
  }

  function Step(e: nat, j: nat): nat
    requires e >= 12
  {
    ScaleMonotone(0, j, Block(e));
    Pow2(e) + j * Block(e)
  }

  function Steps(e: nat, k: nat): set<nat>
    requires e >= 12
  {
    set j: nat | 1 <= j <= k :: Step(e, j)
  }

  lemma PowersAboveBuckets(e: nat)
    requires e >= 12
    ensures Pow2(e) >= LARGEST_FIXED_BUCKET
  {
    Pow2Of12();
    Pow2Monotone(12, e);
  }

  /** The steps from 2^e to 2^(e+1) are its blocks, counted from the first one above 2^e. */
  lemma StepInRange(e: nat, j: nat)
    requires e >= 12
    ensures Step(e, j) == (Pow2(MantissaBits(e)) + j) * Block(e) && Step(e, j) % Block(e) == 0
    ensures 1 <= j <= Pow2(MantissaBits(e)) ==> Pow2(e) < Step(e, j) <= Pow2(e + 1)
  {
    hide Block, MantissaBits;
    var p, b := Pow2(MantissaBits(e)), Block(e);
    PowerIsBlocks(e);
    assert p * b + j * b == (p + j) * b;
    QuotientAndRemainder(Step(e, j), b, p + j, 0);
    if 1 <= j <= p {
      ScaleMonotone(1, j, b);
      ScaleMonotone(j, p, b);
    }
  }

  lemma StepIsVisible(e: nat, j: nat)
    requires e >= 12 && 1 <= j <= Pow2(MantissaBits(e))
    ensures Visible(Step(e, j), e)
  {
    StepInRange(e, j);
    PowersAboveBuckets(e);
    MultiplesAreFixed(Step(e, j), e);
  }

  lemma PaddedMultiple(n: nat, e: nat)
    requires e >= 12 && Pow2(e) < n <= Pow2(e + 1)
    ensures Pow2(e) < Padded(n) <= Pow2(e + 1) && Padded(n) % Block(e) == 0
  {
    hide Padme, CeilTo, Block, FloorLog2;
    PowersAboveBuckets(e);
    PowerIsBlocks(e);
    if n == Pow2(e + 1) {
      MultiplesAreFixed(n, e);
    } else {
      FloorLog2Unique(n, e);
      PaddedAbove(n);
      PaddedInRange(n);
    }
  }

  lemma VisibleIsStep(m: nat, e: nat)
    requires e >= 12 && Visible(m, e)
    ensures exists j: nat :: 1 <= j <= Pow2(MantissaBits(e)) && m == Step(e, j)
  {
    hide Padded, Block, MantissaBits;
    var n: nat :| Pow2(e) < n <= Pow2(e + 1) && Padded(n) == m;
    PaddedMultiple(n, e);
    hide Padded, Pow2;
    BlocksAbovePower(e, m);
  }

  lemma BlocksAbovePower(e: nat, m: nat)
    requires e >= 12 && Pow2(e) < m <= Pow2(e + 1) && m % Block(e) == 0
    ensures exists j: nat :: 1 <= j <= Pow2(MantissaBits(e)) && m == Step(e, j)
  {
    hide Block, MantissaBits, Step;
    var s, b := Pow2(MantissaBits(e)), Block(e);
    var q := m / b;
    PowerIsBlocks(e);
    WholeMultiple(m, b);
    assert Pow2(e + 1) == 2 * (s * b);
    hide Pow2;
    TwiceBlocks(s, b);
    BetweenMultiples(s, q, 2 * s, b);
    StepInRange(e, q - s);
    assert m == Step(e, q - s);
  }

  lemma TwiceBlocks(s: nat, b: nat)
    ensures 2 * (s * b) == 2 * s * b
  {
  }

  lemma BetweenMultiples(a: nat, q: nat, c: nat, b: nat)
    requires b > 0 && a * b < q * b <= c * b
    ensures a < q <= c
  {
    if q <= a {
      ScaleMonotone(q, a, b);
    } else if c < q {
      ScaleMonotone(c + 1, q, b);
    }
  }

  lemma StepsDiffer(e: nat, i: nat, j: nat)
    requires e >= 12 && i < j
    ensures Step(e, i) < Step(e, j)
  {
    hide Block;
    ScaleMonotone(i + 1, j, Block(e));
  }

  lemma {:induction false} CountSteps(e: nat, k: nat)
    requires e >= 12
    ensures |Steps(e, k)| == k
  {
    hide Step;
    if k == 0 {
    } else {
      CountSteps(e, k - 1);
      assert Steps(e, k) == Steps(e, k - 1) + {Step(e, k)};
      if Step(e, k) in Steps(e, k - 1) {
        var j: nat :| 1 <= j <= k - 1 && Step(e, j) == Step(e, k);
        StepsDiffer(e, j, k);
      }
    }
  }

  /** Between two powers of two exactly 2^S padded lengths are visible, and 2^S is between e and 2e. */
  lemma FewVisibleLengths(e: nat)
    requires e >= 12
    ensures var s := Pow2(MantissaBits(e));
            && |Steps(e, s)| == s && e < s <= 2 * e
            && forall m :: Visible(m, e) <==> m in Steps(e, s)
  {
    hide Step, MantissaBits, Padded;
    var s := Pow2(MantissaBits(e));
    MantissaIsShort(e);
    CountSteps(e, s);
    forall m ensures Visible(m, e) <==> m in Steps(e, s) {
      if Visible(m, e) {
        VisibleIsStep(m, e);
      } else if m in Steps(e, s) {
        var j: nat :| 1 <= j <= s && Step(e, j) == m;
        StepIsVisible(e, j);
      }
    }
  }
}
