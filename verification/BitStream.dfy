/** Numbers as bit strings, most significant bit first: the specification side of the radix codecs. */
module BitStream {
  import opened Bytes

  /** The low `w` bits of `v`. */
  function Bits(v: nat, w: nat): (s: seq<bool>)
    ensures |s| == w
  {
    if w == 0 then [] else Bits(v / 2, w - 1) + [v % 2 == 1]
  }

  function ZeroBits(n: nat): (s: seq<bool>)
    ensures |s| == n
  {
    seq(n, _ => false)
  }

  predicate Fits(digits: seq<nat>, w: nat) {
    forall i :: 0 <= i < |digits| ==> digits[i] < Pow2(w)
  }

  function Value(s: seq<bool>): nat {
    if s == [] then 0 else 2 * Value(s[..|s| - 1]) + (if s[|s| - 1] then 1 else 0)
  }

  lemma {:induction false} ValueOfBits(v: nat, w: nat)
    requires v < Pow2(w)
    ensures Value(Bits(v, w)) == v
  {
    if w > 0 {
      ValueOfBits(v / 2, w - 1);
      assert Bits(v, w)[..w - 1] == Bits(v / 2, w - 1);
    }
  }

  lemma {:induction false} BitsOfValue(s: seq<bool>)
    ensures Value(s) < Pow2(|s|)
    ensures Bits(Value(s), |s|) == s
  {
    if s != [] {
      BitsOfValue(s[..|s| - 1]);
      assert s == s[..|s| - 1] + [s[|s| - 1]];
    }
  }

  lemma {:induction false} BitsSplit(hi: nat, h: nat, lo: nat, l: nat)
    requires lo < Pow2(l)
    ensures Bits(hi * Pow2(l) + lo, h + l) == Bits(hi, h) + Bits(lo, l)
  {
    if l == 0 {
      assert Bits(hi, h) + [] == Bits(hi, h);
    } else {
      var v := hi * Pow2(l) + lo;
      assert v == 2 * (hi * Pow2(l - 1)) + lo;
      assert v / 2 == hi * Pow2(l - 1) + lo / 2 && v % 2 == lo % 2;
      BitsSplit(hi, h, lo / 2, l - 1);
    }
  }

  lemma {:induction false} BitsOfZero(w: nat)
    ensures Bits(0, w) == ZeroBits(w)
  {
    if w > 0 {
      BitsOfZero(w - 1);
    }
  }

  /** All digits in order, each on `w` bits. */
  function Stream(digits: seq<nat>, w: nat): (s: seq<bool>)
    ensures |s| == w * |digits|
  {
    if digits == [] then [] else Bits(digits[0], w) + Stream(digits[1..], w)
  }

  lemma {:induction false} StreamInjective(a: seq<nat>, b: seq<nat>, w: nat)
    requires |a| == |b|
    requires Fits(a, w) && Fits(b, w)
    requires Stream(a, w) == Stream(b, w)
    ensures a == b
  {
    if a != [] {
      assert Stream(a, w)[..w] == Bits(a[0], w) && Stream(a, w)[w..] == Stream(a[1..], w);
      assert Stream(b, w)[..w] == Bits(b[0], w) && Stream(b, w)[w..] == Stream(b[1..], w);
      ValueOfBits(a[0], w);
      ValueOfBits(b[0], w);
      StreamInjective(a[1..], b[1..], w);
      assert a == [a[0]] + a[1..] && b == [b[0]] + b[1..];
    }
  }

  lemma StreamUnfolds(digits: seq<nat>, w: nat)
    requires digits != []
    ensures Stream(digits, w) == Bits(digits[0], w) + Stream(digits[1..], w)
  {
    hide Bits;
  }

  lemma {:induction false} StreamConcat(a: seq<nat>, b: seq<nat>, w: nat)
    ensures Stream(a + b, w) == Stream(a, w) + Stream(b, w)
  {
    if a == [] {
      assert a + b == b;
      assert Stream(a, w) == [];
    } else {
      hide Stream, Bits;
      StreamConcat(a[1..], b, w);
      StreamUnfolds(a, w);
      StreamUnfolds(a + b, w);
      assert (a + b)[1..] == a[1..] + b;
      AppendAssociates(Bits(a[0], w), Stream(a[1..], w), Stream(b, w));
    }
  }

  lemma AppendAssociates<T>(x: seq<T>, y: seq<T>, z: seq<T>)
    ensures x + (y + z) == (x + y) + z
  {
  }

  /** Cuts a bit string into `k`-bit digits and fills the last one with zero bits on the right. */
  function Chunk(s: seq<bool>, k: nat): (digits: seq<nat>)
    requires k > 0
    decreases |s|
  {
    if s == [] then []
    else if |s| < k then [Value(s + ZeroBits(k - |s|))]
    else [Value(s[..k])] + Chunk(s[k..], k)
  }

  /** Cuts a bit string into `k`-bit digits and drops an incomplete last one. */
  function WholeChunks(s: seq<bool>, k: nat): (digits: seq<nat>)
    requires k > 0
    decreases |s|
  {
    if |s| < k then [] else [Value(s[..k])] + WholeChunks(s[k..], k)
  }

  /** How many zero bits `Chunk` adds. */
  function Fill(n: nat, k: nat): (f: nat)
    requires k > 0
    ensures f < k
  {
    if n % k == 0 then 0 else k - n % k
  }

  lemma LessByOneChunk(n: nat, k: nat)
    requires 0 < k <= n
    ensures n % k == (n - k) % k && n / k == (n - k) / k + 1
  {
    QuotientAndRemainder(n, k, (n - k) / k + 1, (n - k) % k);
  }

  lemma StreamOfShortChunk(s: seq<bool>, k: nat)
    requires |s| < k
    ensures Fill(|s|, k) == if s == [] then 0 else k - |s|
    ensures Stream(Chunk(s, k), k) == s + ZeroBits(Fill(|s|, k))
    ensures Fits(Chunk(s, k), k)
  {
    QuotientAndRemainder(|s|, k, 0, |s|);
    if s != [] {
      var t := s + ZeroBits(k - |s|);
      var d := Value(t);
      assert Bits(d, k) == t && d < Pow2(k) by { BitsOfValue(t); }
      assert Chunk(s, k) == [d] == [d] + [];
      StreamOfCons(d, [], k);
      assert t + [] == t;
    }
  }

  lemma FitsCons(d: nat, ds: seq<nat>, w: nat)
    requires d < Pow2(w) && Fits(ds, w)
    ensures Fits([d] + ds, w)
  {
    hide Pow2;
  }

  lemma PrependStream(head: seq<bool>, ds: seq<nat>, rest: seq<bool>, k: nat)
    requires |head| == k && Stream(ds, k) == rest && Fits(ds, k)
    ensures Stream([Value(head)] + ds, k) == head + rest && Fits([Value(head)] + ds, k)
  {
    hide Stream, Bits, Value, Fits, Pow2;
    BitsOfValue(head);
    StreamOfCons(Value(head), ds, k);
    FitsCons(Value(head), ds, k);
  }

  lemma SplitWithFill(s: seq<bool>, k: nat, fill: seq<bool>)
    requires k <= |s|
    ensures s[..k] + (s[k..] + fill) == s + fill
  {
    assert s == s[..k] + s[k..];
  }

  lemma ChunkUnfolds(s: seq<bool>, k: nat)
    requires 0 < k <= |s|
    ensures Chunk(s, k) == [Value(s[..k])] + Chunk(s[k..], k)
    ensures WholeChunks(s, k) == [Value(s[..k])] + WholeChunks(s[k..], k)
  {
    hide Value;
  }

  lemma {:induction false} StreamOfChunk(s: seq<bool>, k: nat)
    requires k > 0
    ensures Stream(Chunk(s, k), k) == s + ZeroBits(Fill(|s|, k))
    ensures Fits(Chunk(s, k), k)
    decreases |s|
  {
    hide Chunk, Stream, Bits, Fits, Value, Pow2;
    if |s| < k {
      StreamOfShortChunk(s, k);
    } else {
      LessByOneChunk(|s|, k);
      StreamOfChunk(s[k..], k);
      PrependStream(s[..k], Chunk(s[k..], k), s[k..] + ZeroBits(Fill(|s|, k)), k);
      SplitWithFill(s, k, ZeroBits(Fill(|s|, k)));
      ChunkUnfolds(s, k);
    }
  }

  lemma StreamOfCons(d: nat, ds: seq<nat>, w: nat)
    ensures Stream([d] + ds, w) == Bits(d, w) + Stream(ds, w)
  {
    assert ([d] + ds)[1..] == ds;
  }

  lemma WholeChunksStep(s: seq<bool>, k: nat, m: nat)
    requires 0 < k <= m <= |s|
    requires Stream(WholeChunks(s[k..], k), k) == s[k..][..m - k] && Fits(WholeChunks(s[k..], k), k)
    ensures Stream(WholeChunks(s, k), k) == s[..m] && Fits(WholeChunks(s, k), k)
    ensures |WholeChunks(s, k)| == |WholeChunks(s[k..], k)| + 1
  {
    hide WholeChunks, Stream, Bits, Value, Fits, Pow2;
    ChunkUnfolds(s, k);
    PrependStream(s[..k], WholeChunks(s[k..], k), s[k..][..m - k], k);
    PrefixSplit(s, k, m);
  }

  /** A whole number of chunks, and less than one left over. */
  lemma WholePart(n: nat, k: nat)
    requires k > 0
    ensures 0 <= n - n % k <= n
    ensures n >= k ==> n - n % k >= k && (n - k) - (n - k) % k == n - n % k - k && n / k == (n - k) / k + 1
    ensures n < k ==> n % k == n && n / k == 0
  {
    if n >= k {
      LessByOneChunk(n, k);
    } else {
      QuotientAndRemainder(n, k, 0, n);
    }
  }

  lemma {:induction false} StreamOfWholeChunks(s: seq<bool>, k: nat)
    requires k > 0
    ensures 0 <= |s| - |s| % k <= |s|
    ensures Stream(WholeChunks(s, k), k) == s[..|s| - |s| % k]
    ensures |WholeChunks(s, k)| == |s| / k
    ensures Fits(WholeChunks(s, k), k)
    decreases |s|
  {
    WholePart(|s|, k);
    if |s| < k {
      assert WholeChunks(s, k) == [] && s[..0] == [];
    } else {
      hide WholeChunks, Stream, Fits;
      StreamOfWholeChunks(s[k..], k);
      WholeChunksStep(s, k, |s| - |s| % k);
    }
  }

  lemma PrefixSplit(s: seq<bool>, k: nat, n: nat)
    requires k <= n <= |s|
    ensures s[..n] == s[..k] + s[k..][..n - k]
  {
  }

  lemma {:induction false} ChunkLength(s: seq<bool>, k: nat)
    requires k > 0
    ensures |Chunk(s, k)| == (|s| + k - 1) / k
    decreases |s|
  {
    if s == [] {
      QuotientAndRemainder(k - 1, k, 0, k - 1);
    } else if |s| < k {
      QuotientAndRemainder(|s| + k - 1, k, 1, |s| - 1);
    } else {
      ChunkLength(s[k..], k);
      LessByOneChunk(|s| + k - 1, k);
    }
  }
}
