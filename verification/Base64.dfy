/**
 * The radix codecs of `wire.ts` and `base64.ts`. The loops shift bytes through one accumulator that is
 * never masked, so it overflows 32 bits; only its low `bits` bits mean anything. The 32-bit operators are
 * written as arithmetic on signed integers: `>>` is floor division by a power of two, `&` with a mask of
 * `m` ones is the remainder by `Pow2(m)`, and `|` of disjoint bit ranges is addition.
 */
module Base64 {
  import opened Bytes
  import opened BitStream

  /** Section 5 and section 4 of RFC 4648, and the lower-case alphabet of `base32EncodeLower`. */
  datatype Alphabet = Base64Url | Base64Standard | Base32Lower {
    function Width(): (k: nat)
      ensures 5 <= k <= 6
    {
      if Base32Lower? then 5 else 6
    }

    function Symbol(d: nat): char
      requires d < Pow2(Width())
    {
      assert Pow2(5) == 32 && Pow2(6) == 64;
      if Base32Lower? then
        if d < 26 then 'a' + d as char else '2' + (d - 26) as char
      else if d < 26 then 'A' + d as char
      else if d < 52 then 'a' + (d - 26) as char
      else if d < 62 then '0' + (d - 52) as char
      else if d == 62 then (if Base64Url? then '-' else '+')
      else (if Base64Url? then '_' else '/')
    }

    /** The decode table; `None` is the `undefined` entry. */
    function Digit(c: char): (d: Option<nat>)
      ensures d.Some? ==> d.value < Pow2(Width()) && Symbol(d.value) == c
    {
      assert Pow2(5) == 32 && Pow2(6) == 64;
      if Base32Lower? then
        if 'a' <= c <= 'z' then Some((c - 'a') as nat)
        else if '2' <= c <= '7' then Some((c - '2') as nat + 26)
        else None
      else if 'A' <= c <= 'Z' then Some((c - 'A') as nat)
      else if 'a' <= c <= 'z' then Some((c - 'a') as nat + 26)
      else if '0' <= c <= '9' then Some((c - '0') as nat + 52)
      else if c == (if Base64Url? then '-' else '+') then Some(62)
      else if c == (if Base64Url? then '_' else '/') then Some(63)
      else None
    }
  }

  lemma DigitOfSymbol(a: Alphabet, d: nat)
    requires d < Pow2(a.Width())
    ensures a.Digit(a.Symbol(d)) == Some(d)
  {
    assert Pow2(5) == 32 && Pow2(6) == 64;
  }

  // ---- specification ------------------------------------------------------------------------------

  function Render(digits: seq<nat>, a: Alphabet): (text: string)
    requires Fits(digits, a.Width())
    ensures |text| == |digits|
  {
    seq(|digits|, i requires 0 <= i < |digits| => a.Symbol(digits[i]))
  }

  predicate Readable(text: string, a: Alphabet) {
    forall i :: 0 <= i < |text| ==> a.Digit(text[i]).Some?
  }

  function Digits(text: string, a: Alphabet): (digits: seq<nat>)
    requires Readable(text, a)
    ensures |digits| == |text| && Fits(digits, a.Width())
  {
    seq(|text|, i requires 0 <= i < |text| => a.Digit(text[i]).value)
  }

  /** The bytes as one bit string, cut into digits, the last one filled with zero bits. */
  function Encoded(bytes: seq<byte>, a: Alphabet): string {
    Cut(Stream(bytes, 8), a)
  }

  function Cut(s: seq<bool>, a: Alphabet): string {
    StreamOfChunk(s, a.Width());
    Render(Chunk(s, a.Width()), a)
  }

  /** The digits as one bit string, cut into bytes, the incomplete last one dropped. */
  function Decoded(text: string, a: Alphabet): (bytes: seq<byte>)
    requires Readable(text, a)
  {
    var s := Stream(Digits(text, a), a.Width());
    assert Pow2(8) == 256;
    StreamOfWholeChunks(s, 8);
    AsBytes(WholeChunks(s, 8))
  }

  function AsBytes(digits: seq<nat>): (bytes: seq<byte>)
    requires Fits(digits, 8)
    ensures |bytes| == |digits| && bytes == digits
  {
    assert Pow2(8) == 256;
    seq(|digits|, i requires 0 <= i < |digits| => digits[i] as byte)
  }

  // ---- the accumulator ----------------------------------------------------------------------------

  const INT32_RANGE: nat := 0x1_0000_0000

  function ToInt32(n: int): (r: int)
    ensures -0x8000_0000 <= r < 0x8000_0000
  {
    (n + 0x8000_0000) % INT32_RANGE - 0x8000_0000
  }

  /** `(value << m) | v` for a `v` below `2^m`. */
  function Push(value: int, m: nat, v: nat): int
    requires m < 32 && v < Pow2(m)
  {
    ToInt32(value * Pow2(m)) + v
  }

  /** `(value >> s) & (2^k - 1)`. */
  function Peek(value: int, s: nat, k: nat): (d: nat)
    ensures d < Pow2(k)
  {
    value / Pow2(s) % Pow2(k)
  }

  /** The bits not yet written: the low `bits` bits of the accumulator. */
  function Pending(value: int, bits: nat): (s: seq<bool>)
    ensures |s| == bits
  {
    Bits(value % Pow2(bits), bits)
  }

  lemma ModOfMod(x: int, m: nat, w: nat)
    requires m <= w
    ensures x % Pow2(w) % Pow2(m) == x % Pow2(m)
  {
    Pow2Add(w - m, m);
    ModOfProduct(x, Pow2(w - m), Pow2(m));
    var q, r := x / Pow2(m) % Pow2(w - m), x % Pow2(m);
    QuotientAndRemainder(q * Pow2(m) + r, Pow2(m), q, r);
  }

  lemma ToInt32Congruent(n: int)
    ensures Pow2(32) == INT32_RANGE
    ensures ToInt32(n) % INT32_RANGE == n % INT32_RANGE
  {
    assert Pow2(8) == 256;
    hide Pow2;
    Pow2Add(8, 8);
    Pow2Add(16, 16);
    var q, r := (n + 0x8000_0000) / INT32_RANGE, n % INT32_RANGE;
    QuotientAndRemainder(n - q * INT32_RANGE, INT32_RANGE, n / INT32_RANGE - q, r);
  }

  lemma ToInt32Low(n: int, w: nat)
    requires w <= 32
    ensures ToInt32(n) % Pow2(w) == n % Pow2(w)
  {
    ToInt32Congruent(n);
    ModOfMod(ToInt32(n), w, 32);
    ModOfMod(n, w, 32);
  }

  lemma ShiftLow(value: int, bits: nat, m: nat)
    ensures value * Pow2(m) % Pow2(bits + m) == value % Pow2(bits) * Pow2(m)
  {
    var x, p := value * Pow2(m), Pow2(m);
    Pow2Add(bits, m);
    ModOfProduct(x, Pow2(bits), p);
    QuotientAndRemainder(x, p, value, 0);
  }

  lemma AddLow(t: int, w: nat, u: nat, v: nat)
    requires t % Pow2(w) == u && u + v < Pow2(w)
    ensures (t + v) % Pow2(w) == u + v
  {
    QuotientAndRemainder(t + v, Pow2(w), t / Pow2(w), u + v);
  }

  lemma DigitInRange(r: nat, b: nat, p: nat, v: nat)
    requires r < b && v < p
    ensures r * p + v < b * p
  {
    ScaleMonotone(r + 1, b, p);
  }

  lemma PushLow(value: int, bits: nat, m: nat, v: nat)
    requires m < 32 && bits + m <= 32 && v < Pow2(m)
    ensures Push(value, m, v) % Pow2(bits + m) == value % Pow2(bits) * Pow2(m) + v
  {
    var u := value % Pow2(bits) * Pow2(m);
    ToInt32Low(value * Pow2(m), bits + m);
    ShiftLow(value, bits, m);
    Pow2Add(bits, m);
    DigitInRange(value % Pow2(bits), Pow2(bits), Pow2(m), v);
    AddLow(ToInt32(value * Pow2(m)), bits + m, u, v);
  }

  lemma PushAppends(value: int, bits: nat, m: nat, v: nat)
    requires m < 32 && bits + m <= 32 && v < Pow2(m)
    ensures Pending(Push(value, m, v), bits + m) == Pending(value, bits) + Bits(v, m)
  {
    PushLow(value, bits, m, v);
    BitsSplit(value % Pow2(bits), bits, v, m);
  }

  lemma PeekRemoves(value: int, bits: nat, k: nat)
    requires k <= bits
    ensures Pending(value, bits) == Bits(Peek(value, bits - k, k), k) + Pending(value, bits - k)
  {
    Pow2Add(k, bits - k);
    ModOfProduct(value, Pow2(k), Pow2(bits - k));
    BitsSplit(Peek(value, bits - k, k), k, value % Pow2(bits - k), bits - k);
  }

  lemma PeekIsFirst(value: int, bits: nat, rest: seq<bool>, k: nat)
    requires 0 < k <= bits
    ensures |Pending(value, bits) + rest| >= k
    ensures Value((Pending(value, bits) + rest)[..k]) == Peek(value, bits - k, k)
    ensures (Pending(value, bits) + rest)[k..] == Pending(value, bits - k) + rest
  {
    var d := Peek(value, bits - k, k);
    PeekRemoves(value, bits, k);
    ValueOfBits(d, k);
    assert (Pending(value, bits) + rest)[..k] == Bits(d, k);
  }

  lemma EmitOne(value: int, bits: nat, rest: seq<bool>, a: Alphabet)
    requires a.Width() <= bits
    ensures Cut(Pending(value, bits) + rest, a)
         == [a.Symbol(Peek(value, bits - a.Width(), a.Width()))] + Cut(Pending(value, bits - a.Width()) + rest, a)
  {
    PeekIsFirst(value, bits, rest, a.Width());
    CutCons(Pending(value, bits) + rest, a);
  }

  lemma CutCons(s: seq<bool>, a: Alphabet)
    requires a.Width() <= |s|
    ensures Value(s[..a.Width()]) < Pow2(a.Width())
    ensures Cut(s, a) == [a.Symbol(Value(s[..a.Width()]))] + Cut(s[a.Width()..], a)
  {
    BitsOfValue(s[..a.Width()]);
  }

  lemma EmitLast(value: int, bits: nat, a: Alphabet)
    requires 0 < bits < a.Width()
    ensures Cut(Pending(value, bits), a) == [a.Symbol(Peek(Push(value, a.Width() - bits, 0), 0, a.Width()))]
  {
    var k := a.Width();
    var v := Push(value, k - bits, 0);
    PushAppends(value, bits, k - bits, 0);
    BitsOfZero(k - bits);
    assert Pending(v, k) == Bits(Peek(v, 0, k), k) + Pending(v, 0) by { PeekRemoves(v, k, k); }
    ValueOfBits(Peek(v, 0, k), k);
    assert Pending(v, k) == Bits(Peek(v, 0, k), k);
    assert Chunk(Pending(value, bits), k) == [Peek(v, 0, k)];
  }

  lemma PushNext(value: int, bits: nat, digits: seq<nat>, i: nat, m: nat)
    requires i < |digits| && m < 32 && bits + m <= 32 && digits[i] < Pow2(m)
    ensures Pending(Push(value, m, digits[i]), bits + m) + Stream(digits[i + 1..], m)
         == Pending(value, bits) + Stream(digits[i..], m)
  {
    PushAppends(value, bits, m, digits[i]);
    assert digits[i..][1..] == digits[i + 1..];
    StreamUnfolds(digits[i..], m);
    hide Pending, Push, Bits, Stream;
    AppendAssociates(Pending(value, bits), Bits(digits[i], m), Stream(digits[i + 1..], m));
  }

  // ---- the loops ----------------------------------------------------------------------------------

  /** The text still to come when the accumulator holds `bits` bits and `i` bytes have been read. */
  ghost function Unwritten(value: int, bits: nat, bytes: seq<byte>, i: nat, a: Alphabet): string
    requires i <= |bytes|
  {
    Cut(Pending(value, bits) + Stream(bytes[i..], 8), a)
  }

  lemma WriteStarts(bytes: seq<byte>, a: Alphabet)
    ensures Unwritten(0, 0, bytes, 0, a) == Encoded(bytes, a)
  {
    assert Pending(0, 0) + Stream(bytes[0..], 8) == Stream(bytes, 8);
  }

  lemma WriteEnds(value: int, bits: nat, bytes: seq<byte>, a: Alphabet)
    requires bits < a.Width()
    ensures Unwritten(value, bits, bytes, |bytes|, a)
         == if bits > 0 then [a.Symbol(Peek(Push(value, a.Width() - bits, 0), 0, a.Width()))] else ""
  {
    assert Pending(value, bits) + Stream(bytes[|bytes|..], 8) == Pending(value, bits);
    if bits > 0 {
      EmitLast(value, bits, a);
    }
  }

  lemma WriteByte(value: int, bits: nat, bytes: seq<byte>, i: nat, a: Alphabet)
    requires i < |bytes| && bits < 8 && bytes[i] < Pow2(8)
    ensures Unwritten(value, bits, bytes, i, a) == Unwritten(Push(value, 8, bytes[i]), bits + 8, bytes, i + 1, a)
  {
    PushNext(value, bits, bytes, i, 8);
  }

  /** `base64urlEncode`, `base32EncodeLower` and the unpadded part of `bytesToBase64`: one loop, three alphabets. */
  method EncodeRadix(bytes: seq<byte>, a: Alphabet) returns (text: string)
    ensures text == Encoded(bytes, a)
  {
    var bits, value := 0, 0;
    text := "";
    WriteStarts(bytes, a);
    for i := 0 to |bytes|
      invariant 0 <= bits < a.Width()
      invariant text + Unwritten(value, bits, bytes, i, a) == Encoded(bytes, a)
    {
      text, value, bits := WriteOne(text, value, bits, bytes, i, a);
    }
    WriteEnds(value, bits, bytes, a);
    if bits > 0 {
      text := text + [a.Symbol(Peek(Push(value, a.Width() - bits, 0), 0, a.Width()))];
    }
  }

  /** One iteration of the encoding loop; its inner loop writes digits while the accumulator holds a whole one. */
  method WriteOne(text0: string, value0: int, bits0: nat, bytes: seq<byte>, i: nat, a: Alphabet)
    returns (text: string, value: int, bits: nat)
    requires i < |bytes| && bits0 < a.Width()
    ensures bits < a.Width()
    ensures text + Unwritten(value, bits, bytes, i + 1, a) == text0 + Unwritten(value0, bits0, bytes, i, a)
  {
    var k := a.Width();
    ghost var rest := Stream(bytes[i + 1..], 8);
    assert Pow2(8) == 256;
    WriteByte(value0, bits0, bytes, i, a);
    text, value, bits := text0, Push(value0, 8, bytes[i]), bits0 + 8;
    while bits >= k
      invariant text + Cut(Pending(value, bits) + rest, a) == text0 + Cut(Pending(value, bits0 + 8) + rest, a)
    {
      EmitOne(value, bits, rest, a);
      bits := bits - k;
      text := text + [a.Symbol(Peek(value, bits, k))];
    }
  }

  /** The bytes written and those the rest of the text adds are the result, if the text is readable at all. */
  ghost predicate ReadSoFar(out: seq<byte>, value: int, bits: nat, text: string, i: nat, a: Alphabet)
    requires i <= |text|
  {
    Readable(text, a) ==>
      out + WholeChunks(Pending(value, bits) + Stream(Digits(text, a)[i..], a.Width()), 8) == Decoded(text, a)
  }

  lemma ReadStarts(text: string, a: Alphabet)
    ensures ReadSoFar([], 0, 0, text, 0, a)
  {
    if Readable(text, a) {
      assert Pending(0, 0) + Stream(Digits(text, a)[0..], a.Width()) == Stream(Digits(text, a), a.Width());
    }
  }

  lemma ReadShort(out: seq<byte>, value: int, bits: nat, text: string, i: nat, a: Alphabet)
    requires i < |text| && a.Digit(text[i]).Some? && bits + a.Width() < 8
    requires ReadSoFar(out, value, bits, text, i, a)
    ensures ReadSoFar(out, Push(value, a.Width(), a.Digit(text[i]).value), bits + a.Width(), text, i + 1, a)
  {
    if Readable(text, a) {
      PushNext(value, bits, Digits(text, a), i, a.Width());
    }
  }

  lemma ReadWhole(out: seq<byte>, value: int, bits: nat, text: string, i: nat, a: Alphabet, b: byte)
    requires i < |text| && a.Digit(text[i]).Some? && bits < 8 <= bits + a.Width()
    requires b == Peek(Push(value, a.Width(), a.Digit(text[i]).value), bits + a.Width() - 8, 8)
    requires ReadSoFar(out, value, bits, text, i, a)
    ensures ReadSoFar(out + [b], Push(value, a.Width(), a.Digit(text[i]).value), bits + a.Width() - 8, text, i + 1, a)
  {
    if Readable(text, a) {
      var k, value' := a.Width(), Push(value, a.Width(), a.Digit(text[i]).value);
      PushNext(value, bits, Digits(text, a), i, k);
      TakeByte(value', bits + k, Stream(Digits(text, a)[i + 1..], k));
      hide Pending, Push, Peek, Stream, Digits, Decoded, WholeChunks;
      AppendOne(out, b, WholeChunks(Pending(value', bits + k - 8) + Stream(Digits(text, a)[i + 1..], k), 8));
    }
  }

  lemma AppendOne(out: seq<nat>, b: nat, rest: seq<nat>)
    ensures out + ([b] + rest) == out + [b] + rest
  {
  }

  lemma TakeByte(value: int, bits: nat, rest: seq<bool>)
    requires 8 <= bits
    ensures WholeChunks(Pending(value, bits) + rest, 8)
         == [Peek(value, bits - 8, 8)] + WholeChunks(Pending(value, bits - 8) + rest, 8)
  {
    PeekIsFirst(value, bits, rest, 8);
  }

  lemma ReadEnds(out: seq<byte>, value: int, bits: nat, text: string, a: Alphabet)
    requires bits < 8 && Readable(text, a) && ReadSoFar(out, value, bits, text, |text|, a)
    ensures out == Decoded(text, a)
  {
    assert Digits(text, a)[|text|..] == [];
    hide Digits, Decoded, Readable;
    assert Pending(value, bits) + [] == Pending(value, bits);
    assert WholeChunks(Pending(value, bits), 8) == [];
  }

  lemma ReadableSnoc(text: string, i: nat, a: Alphabet)
    requires i < |text| && Readable(text[..i], a) && a.Digit(text[i]).Some?
    ensures Readable(text[..i + 1], a)
  {
    assert text[..i + 1] == text[..i] + [text[i]];
  }

  lemma NotReadable(text: string, i: nat, a: Alphabet)
    requires i < |text| && a.Digit(text[i]).None?
    ensures !Readable(text, a)
  {
  }

  /** `base64urlDecode` and the loop of `base64ToBytes`: fails exactly on a character outside the alphabet. */
  method DecodeRadix(text: string, a: Alphabet) returns (r: Result<seq<byte>, ()>)
    ensures r.Ok? <==> Readable(text, a)
    ensures r.Ok? ==> r.value == Decoded(text, a)
  {
    var bits, value := 0, 0;
    var out: seq<byte> := [];
    ReadStarts(text, a);
    assert Readable(text[..0], a);
    hide Readable, ReadSoFar, Decoded, Digits, Alphabet.Digit;
    for i := 0 to |text|
      invariant 0 <= bits < 8
      invariant Readable(text[..i], a)
      invariant ReadSoFar(out, value, bits, text, i, a)
    {
      if a.Digit(text[i]).None? {
        NotReadable(text, i, a);
        return Err(());
      }
      ReadableSnoc(text, i, a);
      out, value, bits := ReadDigit(out, value, bits, text, i, a);
    }
    assert text[..|text|] == text;
    ReadEnds(out, value, bits, text, a);
    return Ok(out);
  }

  /** One iteration of the decoding loop. */
  method ReadDigit(out0: seq<byte>, value0: int, bits0: nat, text: string, i: nat, a: Alphabet)
    returns (out: seq<byte>, value: int, bits: nat)
    requires i < |text| && a.Digit(text[i]).Some? && bits0 < 8
    requires ReadSoFar(out0, value0, bits0, text, i, a)
    ensures bits < 8 && ReadSoFar(out, value, bits, text, i + 1, a)
  {
    value := Push(value0, a.Width(), a.Digit(text[i]).value);
    bits := bits0 + a.Width();
    out := out0;
    if bits >= 8 {
      bits := bits - 8;
      assert Pow2(8) == 256;
      ReadWhole(out, value0, bits0, text, i, a, Peek(value, bits, 8));
      out := out + [Peek(value, bits, 8)];
    } else {
      ReadShort(out, value0, bits0, text, i, a);
    }
  }
}
