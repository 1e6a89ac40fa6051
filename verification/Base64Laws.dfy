/** What RFC 4648 promises of the codecs: the group-wise definition, the inverse, and where it stops. */
module Base64Laws {
  import opened Bytes
  import opened BitStream
  import opened Base64

  // ---- decode after encode ------------------------------------------------------------------------

  lemma DigitsOfRender(digits: seq<nat>, a: Alphabet)
    requires Fits(digits, a.Width())
    ensures Readable(Render(digits, a), a) && Digits(Render(digits, a), a) == digits
  {
    forall i | 0 <= i < |digits| ensures a.Digit(Render(digits, a)[i]) == Some(digits[i]) {
      DigitOfSymbol(a, digits[i]);
    }
  }

  lemma RenderOfDigits(text: string, a: Alphabet)
    requires Readable(text, a)
    ensures Render(Digits(text, a), a) == text
  {
  }

  lemma {:induction false} BytesFit(bytes: seq<byte>)
    ensures Fits(bytes, 8)
  {
    assert Pow2(8) == 256;
  }

  lemma WholeBytesOfFilled(bytes: seq<byte>, f: nat)
    requires f < 8
    ensures WholeChunks(Stream(bytes, 8) + ZeroBits(f), 8) == bytes
  {
    var s := Stream(bytes, 8) + ZeroBits(f);
    StreamOfWholeChunks(s, 8);
    QuotientAndRemainder(|s|, 8, |bytes|, f);
    assert s[..8 * |bytes|] == Stream(bytes, 8);
    BytesFit(bytes);
    StreamInjective(WholeChunks(s, 8), bytes, 8);
  }

  lemma DecodeAfterEncode(bytes: seq<byte>, a: Alphabet)
    ensures Readable(Encoded(bytes, a), a)
    ensures Decoded(Encoded(bytes, a), a) == bytes
  {
    var s := Stream(bytes, 8);
    StreamOfChunk(s, a.Width());
    DigitsOfRender(Chunk(s, a.Width()), a);
    WholeBytesOfFilled(bytes, Fill(|s|, a.Width()));
  }

  lemma EncodeInjective(x: seq<byte>, y: seq<byte>, a: Alphabet)
    requires Encoded(x, a) == Encoded(y, a)
    ensures x == y
  {
    DecodeAfterEncode(x, a);
    DecodeAfterEncode(y, a);
  }

  // ---- encode after decode ------------------------------------------------------------------------

  /** No dangling single digit, and the bits of the last digit that no byte uses are zero (RFC 4648, section 3.5). */
  predicate Canonical(text: string, a: Alphabet)
    requires Readable(text, a)
  {
    var n := |text|;
    match n % 4
    case 0 => true
    case 1 => false
    case 2 => Digits(text, a)[n - 1] % 16 == 0
    case _ => Digits(text, a)[n - 1] % 4 == 0
  }

  function Unused(n: nat): (u: nat)
  {
    6 * n % 8
  }

  lemma UnusedByLength(n: nat)
    ensures Unused(n) == match n % 4 case 0 => 0 case 1 => 6 case 2 => 4 case _ => 2
    ensures n % 4 != 0 ==> n > 0
  {
    UnusedOf(n, n / 4, n % 4);
  }

  lemma UnusedOf(n: nat, q: nat, r: nat)
    requires n == 4 * q + r && r < 4
    ensures 6 * n % 8 == match r case 0 => 0 case 1 => 6 case 2 => 4 case _ => 2
  {
    var u := match r case 0 => 0 case 1 => 6 case 2 => 4 case _ => 2;
    var b := 3 * q + (match r case 0 => 0 case 1 => 0 case 2 => 1 case _ => 2);
    QuotientAndRemainder(6 * n, 8, b, u);
  }

  /** Two numbers written side by side, with the power of two spelled out. */
  lemma Join(hi: nat, h: nat, lo: nat, l: nat, p: nat, v: nat)
    requires p == Pow2(l) && lo < p && v == hi * p + lo
    ensures Bits(v, h + l) == Bits(hi, h) + Bits(lo, l)
  {
    BitsSplit(hi, h, lo, l);
  }

  lemma SmallPowers()
    ensures Pow2(2) == 4 && Pow2(4) == 16 && Pow2(6) == 64 && Pow2(8) == 256
  {
  }

  lemma LowBits(d: nat, u: nat, p: nat)
    requires u <= 6 && p == Pow2(u) && (p == 4 || p == 16 || p == 64)
    ensures Bits(d, 6)[6 - u..] == Bits(d % p, u)
  {
    Join(d / p, 6 - u, d % p, u, p, d);
  }

  lemma TailOfStream(digits: seq<nat>, u: nat, p: nat)
    requires digits != [] && u <= 6 && p == Pow2(u) && (p == 4 || p == 16 || p == 64)
    ensures Stream(digits, 6)[6 * |digits| - u..] == Bits(digits[|digits| - 1] % p, u)
  {
    hide Stream, Bits, Pow2;
    var init, d := digits[..|digits| - 1], digits[|digits| - 1];
    LowBits(d, u, p);
    StreamOfSnoc(init, d, 6);
    assert digits == init + [d];
    SuffixOfAppend(Stream(init, 6), Bits(d, 6), u);
  }

  lemma StreamOfSnoc(init: seq<nat>, d: nat, w: nat)
    ensures Stream(init + [d], w) == Stream(init, w) + Bits(d, w)
  {
    StreamConcat(init, [d], w);
    StreamOfCons(d, [], w);
    assert [d] + [] == [d] && Bits(d, w) + [] == Bits(d, w);
  }

  lemma SuffixOfAppend<T>(x: seq<T>, y: seq<T>, u: nat)
    requires u <= |y|
    ensures (x + y)[|x| + |y| - u..] == y[|y| - u..]
  {
  }

  lemma ZeroTail(s: seq<bool>, v: nat, w: nat)
    requires v < Pow2(w) && s == Bits(v, w)
    ensures s == ZeroBits(w) <==> v == 0
  {
    BitsOfZero(w);
    ValueOfBits(v, w);
    ValueOfBits(0, w);
  }

  lemma ZeroTailByDigit(digits: seq<nat>, u: nat, p: nat)
    requires digits != [] && u <= 6 && p == Pow2(u) && (p == 4 || p == 16 || p == 64)
    ensures Stream(digits, 6)[6 * |digits| - u..] == ZeroBits(u) <==> digits[|digits| - 1] % p == 0
  {
    TailOfStream(digits, u, p);
    ZeroTail(Stream(digits, 6)[6 * |digits| - u..], digits[|digits| - 1] % p, u);
  }

  predicate ZeroTailed(digits: seq<nat>) {
    var n := |digits|;
    n % 4 != 1 && Stream(digits, 6)[6 * n - Unused(n)..] == ZeroBits(Unused(n))
  }

  lemma CanonicalIsZeroTail(text: string, a: Alphabet)
    requires !a.Base32Lower? && Readable(text, a)
    ensures Canonical(text, a) <==> ZeroTailed(Digits(text, a))
  {
    hide Unused, Digits, Stream, Readable;
    var digits, u := Digits(text, a), Unused(|text|);
    UnusedByLength(|text|);
    if u == 0 {
      assert Stream(digits, 6)[6 * |text|..] == ZeroBits(0);
    } else {
      LastDigitTells(digits, u);
    }
  }

  lemma LastDigitTells(digits: seq<nat>, u: nat)
    requires digits != [] && u <= 6
    ensures u == 4 ==> (Stream(digits, 6)[6 * |digits| - u..] == ZeroBits(u) <==> digits[|digits| - 1] % 16 == 0)
    ensures u == 2 ==> (Stream(digits, 6)[6 * |digits| - u..] == ZeroBits(u) <==> digits[|digits| - 1] % 4 == 0)
  {
    SmallPowers();
    if u == 4 {
      ZeroTailByDigit(digits, 4, 16);
    } else if u == 2 {
      ZeroTailByDigit(digits, 2, 4);
    }
  }

  /** The bits of the re-encoded text: the whole bytes of the text, filled up again with zeros. */
  lemma BitsAfterRoundTrip(text: string, a: Alphabet)
    requires !a.Base32Lower? && Readable(text, a)
    ensures var n := |text|; var s := Stream(Digits(text, a), 6); var t := Encoded(Decoded(text, a), a);
            && Readable(t, a) && |t| == (8 * (6 * n / 8) + 5) / 6
            && Stream(Digits(t, a), 6) == s[..6 * n - Unused(n)] + ZeroBits(Fill(6 * n - Unused(n), 6))
  {
    var s := Stream(Digits(text, a), 6);
    DecodedBits(text, a);
    var bits := Stream(Decoded(text, a), 8);
    EncodedDigits(Decoded(text, a), a);
    StreamOfChunk(bits, 6);
    ChunkLength(bits, 6);
    hide Encoded, Decoded, Digits, Stream, Chunk, Readable;
    assert |bits| == 6 * |text| - Unused(|text|) == 8 * (6 * |text| / 8);
  }

  lemma DecodedBits(text: string, a: Alphabet)
    requires !a.Base32Lower? && Readable(text, a)
    ensures 0 <= 6 * |text| - Unused(|text|)
    ensures Stream(Decoded(text, a), 8) == Stream(Digits(text, a), 6)[..6 * |text| - Unused(|text|)]
  {
    var s := Stream(Digits(text, a), 6);
    StreamOfWholeChunks(s, 8);
    assert Pow2(8) == 256;
    hide Stream, Digits;
    assert Decoded(text, a) == WholeChunks(s, 8);
  }

  lemma EncodedDigits(bytes: seq<byte>, a: Alphabet)
    requires !a.Base32Lower?
    ensures var t := Encoded(bytes, a);
            Readable(t, a) && Digits(t, a) == Chunk(Stream(bytes, 8), 6)
  {
    StreamOfChunk(Stream(bytes, 8), 6);
    DigitsOfRender(Chunk(Stream(bytes, 8), 6), a);
    hide Stream, Chunk, Readable, Digits;
  }

  lemma SameDigitsSameText(x: string, y: string, a: Alphabet)
    requires Readable(x, a) && Readable(y, a) && |x| == |y|
    requires Stream(Digits(x, a), a.Width()) == Stream(Digits(y, a), a.Width())
    ensures x == y
  {
    hide Stream, Readable, Digits;
    StreamInjective(Digits(x, a), Digits(y, a), a.Width());
    RenderOfDigits(x, a);
    RenderOfDigits(y, a);
  }

  lemma CanonicalSurvives(text: string, a: Alphabet)
    requires !a.Base32Lower? && Readable(text, a) && Canonical(text, a)
    ensures Encoded(Decoded(text, a), a) == text
  {
    hide Stream, Digits, Readable, Encoded, Decoded, Canonical, ZeroBits;
    var k, u, s, t := 6 * |text| - Unused(|text|), Unused(|text|), Stream(Digits(text, a), 6), Encoded(Decoded(text, a), a);
    BitsAfterRoundTrip(text, a);
    CanonicalIsZeroTail(text, a);
    UnusedByLength(|text|);
    assert Fill(k, 6) == u;
    assert s == s[..k] + s[k..];
    SameDigitsSameText(t, text, a);
  }

  lemma OnlyCanonicalSurvives(text: string, a: Alphabet)
    requires !a.Base32Lower? && Readable(text, a)
    requires Encoded(Decoded(text, a), a) == text
    ensures Canonical(text, a)
  {
    hide Stream, Digits, Readable, Encoded, Decoded, Canonical;
    var k, u, s := 6 * |text| - Unused(|text|), Unused(|text|), Stream(Digits(text, a), 6);
    BitsAfterRoundTrip(text, a);
    CanonicalIsZeroTail(text, a);
    UnusedByLength(|text|);
    assert Fill(k, 6) == u;
    assert s[k..] == ZeroBits(u);
  }

  /** Encoding what was decoded gives the text back exactly for canonical texts. */
  lemma EncodeAfterDecode(text: string, a: Alphabet)
    requires !a.Base32Lower? && Readable(text, a)
    ensures Encoded(Decoded(text, a), a) == text <==> Canonical(text, a)
  {
    if Canonical(text, a) {
      CanonicalSurvives(text, a);
    } else if Encoded(Decoded(text, a), a) == text {
      OnlyCanonicalSurvives(text, a);
    }
  }

  // ---- the group-wise definition ------------------------------------------------------------------

  /** Sections 4 and 5 of RFC 4648: three bytes make four digits. */
  function FourDigits(x: nat, y: nat, z: nat): (d: seq<nat>)
    ensures |d| == 4
  {
    [x / 4, x % 4 * 16 + y / 16, y % 16 * 4 + z / 64, z % 64]
  }

  /** A final group of one or two bytes is filled with zeros and keeps only the digits its bytes reach. */
  function Group(b: seq<byte>): (digits: seq<nat>)
    requires 1 <= |b| <= 3
    ensures |digits| == |b| + 1
  {
    var full := b + Zeros(3 - |b|);
    FourDigits(full[0], full[1], full[2])[..|b| + 1]
  }

  function Groupwise(b: seq<byte>): (digits: seq<nat>)
    ensures |digits| == (8 * |b| + 5) / 6
  {
    if b == [] then []
    else if |b| <= 3 then Group(b)
    else Group(b[..3]) + Groupwise(b[3..])
  }

  lemma {:induction false} StreamOfFour(d: seq<nat>, w: nat)
    requires 1 <= |d| <= 4
    ensures |d| == 1 ==> Stream(d, w) == Bits(d[0], w)
    ensures |d| == 2 ==> Stream(d, w) == Bits(d[0], w) + Bits(d[1], w)
    ensures |d| == 3 ==> Stream(d, w) == Bits(d[0], w) + Bits(d[1], w) + Bits(d[2], w)
    ensures |d| == 4 ==> Stream(d, w) == Bits(d[0], w) + Bits(d[1], w) + Bits(d[2], w) + Bits(d[3], w)
  {
    if |d| == 1 {
      assert Bits(d[0], w) + [] == Bits(d[0], w);
    } else {
      StreamOfFour(d[1..], w);
      if |d| == 3 {
        AppendAssociates(Bits(d[0], w), Bits(d[1], w), Bits(d[2], w));
      } else if |d| == 4 {
        AppendAssociates(Bits(d[0], w), Bits(d[1], w), Bits(d[2], w));
        AppendAssociates(Bits(d[0], w), Bits(d[1], w) + Bits(d[2], w), Bits(d[3], w));
      }
    }
  }

  lemma Regroup<T>(p0: seq<T>, p1: seq<T>, p2: seq<T>, p3: seq<T>, p4: seq<T>, p5: seq<T>)
    ensures p0 + (p1 + p2) + (p3 + p4) + p5 == (p0 + p1) + (p2 + p3) + (p4 + p5)
  {
  }

  /** Four digits and three bytes cut the same six pieces at different places. */
  lemma SixPieces(x: nat, y: nat, z: nat, d1: nat, d2: nat, p0: nat, p1: nat, p2: nat, p3: nat, p4: nat, p5: nat)
    requires p1 < 4 && p2 < 16 && p3 < 16 && p4 < 4 && p5 < 64
    requires x == p0 * 4 + p1 && y == p2 * 16 + p3 && z == p4 * 64 + p5
    requires d1 == p1 * 16 + p2 && d2 == p3 * 4 + p4
    ensures Stream([p0, d1, d2, p5], 6) == Stream([x, y, z], 8)
  {
    SmallPowers();
    StreamOfFour([x, y, z], 8);
    StreamOfFour([p0, d1, d2, p5], 6);
    Join(p0, 6, p1, 2, 4, x);
    Join(p2, 4, p3, 4, 16, y);
    Join(p4, 2, p5, 6, 64, z);
    Join(p1, 2, p2, 4, 16, d1);
    Join(p3, 4, p4, 2, 4, d2);
    Regroup(Bits(p0, 6), Bits(p1, 2), Bits(p2, 4), Bits(p3, 4), Bits(p4, 2), Bits(p5, 6));
  }

  lemma ThreeNumbers(x: nat, y: nat, z: nat)
    requires x < 256 && y < 256 && z < 256
    ensures Stream(FourDigits(x, y, z), 6) == Stream([x, y, z], 8)
  {
    SixPieces(x, y, z, x % 4 * 16 + y / 16, y % 16 * 4 + z / 64, x / 4, x % 4, y / 16, y % 16, z / 64, z % 64);
  }

  lemma ThreeBytes(b: seq<nat>)
    requires |b| == 3 && b[0] < 256 && b[1] < 256 && b[2] < 256
    ensures Stream(FourDigits(b[0], b[1], b[2]), 6) == Stream(b, 8)
  {
    hide FourDigits;
    ThreeNumbers(b[0], b[1], b[2]);
    assert b == [b[0], b[1], b[2]];
  }

  lemma GroupIsFilled(b: seq<byte>, full: seq<nat>)
    requires 1 <= |b| <= 3 && full == b + Zeros(3 - |b|)
    ensures FourDigits(full[0], full[1], full[2]) == Group(b) + Zeros(3 - |b|)
  {
  }

  lemma GroupBits(b: seq<byte>)
    requires 1 <= |b| <= 3
    ensures Stream(Group(b), 6) == Stream(b, 8) + ZeroBits(2 * (3 - |b|))
  {
    var n := 3 - |b|;
    var full: seq<nat> := b + Zeros(n);
    GroupIsFilled(b, full);
    ThreeBytes(full);
    DropZeros(b, Group(b), n);
  }

  lemma DropZeros(b: seq<nat>, g: seq<nat>, n: nat)
    requires Stream(g + Zeros(n), 6) == Stream(b + Zeros(n), 8)
    ensures Stream(g, 6) == Stream(b, 8) + ZeroBits(2 * n)
  {
    StreamConcat(b, Zeros(n), 8);
    StreamConcat(g, Zeros(n), 6);
    StreamOfZeros(n, 8);
    StreamOfZeros(n, 6);
    StripZeros(Stream(g, 6), Stream(b, 8), 6 * n, 8 * n);
  }

  lemma {:induction false} StreamOfZeros(n: nat, w: nat)
    ensures Stream(Zeros(n), w) == ZeroBits(w * n)
  {
    BitsOfZero(w);
    if n > 0 {
      StreamOfZeros(n - 1, w);
      assert Zeros(n)[1..] == Zeros(n - 1);
      assert w * n == w + w * (n - 1);
    }
  }

  lemma StripZeros(x: seq<bool>, y: seq<bool>, p: nat, q: nat)
    requires p <= q && x + ZeroBits(p) == y + ZeroBits(q)
    ensures x == y + ZeroBits(q - p)
  {
    assert |x| + p == |y| + q;
    assert x == (x + ZeroBits(p))[..|x|];
    assert (y + ZeroBits(q))[..|x|] == y + ZeroBits(q - p);
  }

  lemma GroupFits(b: seq<byte>)
    requires 1 <= |b| <= 3
    ensures Fits(Group(b), 6)
  {
    SmallPowers();
    var full: seq<nat> := b + Zeros(3 - |b|);
    assert Fits(FourDigits(full[0], full[1], full[2]), 6);
  }

  lemma {:induction false} GroupwiseFits(b: seq<byte>)
    ensures Fits(Groupwise(b), 6)
  {
    if 0 < |b| <= 3 {
      GroupFits(b);
    } else if b != [] {
      GroupFits(b[..3]);
      GroupwiseFits(b[3..]);
    }
  }

  function GroupFill(n: nat): nat {
    match n % 3 case 0 => 0 case 1 => 4 case _ => 2
  }

  lemma FullGroupBits(b: seq<byte>)
    requires |b| == 3
    ensures Stream(Group(b), 6) == Stream(b, 8)
  {
    GroupBits(b);
    assert Stream(b, 8) + ZeroBits(0) == Stream(b, 8);
  }

  lemma GroupFillByThree(n: nat)
    ensures GroupFill(n + 3) == GroupFill(n)
  {
    LessByOneChunk(n + 3, 3);
  }

  lemma LastGroupFill(n: nat)
    requires 1 <= n <= 3
    ensures GroupFill(n) == 2 * (3 - n)
  {
  }

  lemma NothingGrouped()
    ensures Stream([], 6) == Stream([], 8) + ZeroBits(GroupFill(0))
  {
  }

  lemma {:induction false} GroupwiseBits(b: seq<byte>)
    ensures Stream(Groupwise(b), 6) == Stream(b, 8) + ZeroBits(GroupFill(|b|))
  {
    hide Group, GroupFill, Stream;
    if b == [] {
      NothingGrouped();
    } else if |b| <= 3 {
      GroupBits(b);
      LastGroupFill(|b|);
    } else {
      var head, rest := b[..3], b[3..];
      FullGroupBits(head);
      GroupwiseBits(rest);
      GroupFillByThree(|rest|);
      assert b == head + rest;
      ConcatFilled(head, rest, Group(head), Groupwise(rest), GroupFill(|rest|));
    }
  }

  lemma ConcatFilled(b: seq<nat>, b': seq<nat>, d: seq<nat>, d': seq<nat>, f: nat)
    requires Stream(d, 6) == Stream(b, 8)
    requires Stream(d', 6) == Stream(b', 8) + ZeroBits(f)
    ensures Stream(d + d', 6) == Stream(b + b', 8) + ZeroBits(f)
  {
    StreamConcat(b, b', 8);
    StreamConcat(d, d', 6);
    AppendAssociates(Stream(b, 8), Stream(b', 8), ZeroBits(f));
  }

  lemma GroupFillIsFill(n: nat)
    ensures GroupFill(n) == Fill(8 * n, 6)
  {
    var q, r := n / 3, n % 3;
    QuotientAndRemainder(8 * n, 6, 4 * q + 8 * r / 6, 8 * r % 6);
  }

  /** The accumulator loop writes exactly the digits of the group-wise definition. */
  lemma EncodeIsGroupwise(b: seq<byte>)
    ensures Chunk(Stream(b, 8), 6) == Groupwise(b)
  {
    GroupwiseFits(b);
    GroupwiseBits(b);
    GroupFillIsFill(|b|);
    StreamOfChunk(Stream(b, 8), 6);
    ChunkLength(Stream(b, 8), 6);
    StreamInjective(Chunk(Stream(b, 8), 6), Groupwise(b), 6);
  }
}
