/** `wire.ts` and `fingerprint.ts`: the public-key string, how many strings name one key, and its fingerprint. */
module Pubkey {
  import opened Bytes
  import opened BitStream
  import opened Base64
  import opened Base64Laws

  const PREFIX := "amk1:"
  const WIRE_VERSION: byte := 1
  const SUITE: byte := 1
  const RAW_LEN: nat := 32
  const CANONICAL_LEN: nat := 34

  datatype Decoded = DecodedKey(rawKey: seq<byte>, canonical: seq<byte>)

  datatype FormatError = WrongLength | MissingPrefix | BadCharacter | UnknownVersion | UnknownSuite

  function EncodePubkey(rawKey: seq<byte>): Result<string, FormatError> {
    if |rawKey| != RAW_LEN then Err(WrongLength)
    else Ok(PREFIX + Encoded(CanonicalBytes(rawKey), Base64Url))
  }

  function CanonicalBytes(rawKey: seq<byte>): seq<byte> {
    [WIRE_VERSION, SUITE] + rawKey
  }

  function DecodePubkey(s: string): (r: Result<Decoded, FormatError>) {
    if !(PREFIX <= s) then Err(MissingPrefix)
    else
      var body := s[|PREFIX|..];
      if !Readable(body, Base64Url) then Err(BadCharacter)
      else
        var canonical := Base64.Decoded(body, Base64Url);
        if |canonical| != CANONICAL_LEN then Err(WrongLength)
        else if canonical[0] != WIRE_VERSION then Err(UnknownVersion)
        else if canonical[1] != SUITE then Err(UnknownSuite)
        else Ok(DecodedKey(canonical[2..], canonical))
  }

  /** The string names the key. */
  predicate Names(s: string, rawKey: seq<byte>) {
    DecodePubkey(s).Ok? && DecodePubkey(s).value.rawKey == rawKey
  }

  lemma NamesByBody(s: string, rawKey: seq<byte>)
    requires |rawKey| == RAW_LEN
    ensures Names(s, rawKey) <==>
            PREFIX <= s && Readable(s[|PREFIX|..], Base64Url)
            && Base64.Decoded(s[|PREFIX|..], Base64Url) == CanonicalBytes(rawKey)
  {
    if PREFIX <= s && Readable(s[|PREFIX|..], Base64Url) {
      var c := Base64.Decoded(s[|PREFIX|..], Base64Url);
      if Names(s, rawKey) {
        assert c == [c[0], c[1]] + c[2..];
      }
    }
  }

  lemma DecodeAfterEncodePubkey(rawKey: seq<byte>)
    requires |rawKey| == RAW_LEN
    ensures EncodePubkey(rawKey).Ok?
    ensures DecodePubkey(EncodePubkey(rawKey).value) == Ok(DecodedKey(rawKey, CanonicalBytes(rawKey)))
  {
    var body := Encoded(CanonicalBytes(rawKey), Base64Url);
    DecodeAfterEncode(CanonicalBytes(rawKey), Base64Url);
    assert (PREFIX + body)[|PREFIX|..] == body;
    assert CanonicalBytes(rawKey)[2..] == rawKey;
  }

  // ---- sixteen strings for every key --------------------------------------------------------------

  function KeyDigits(rawKey: seq<byte>): (d: seq<nat>)
    requires |rawKey| == RAW_LEN
    ensures |d| == 46 && Fits(d, 6)
  {
    StreamOfChunk(Stream(CanonicalBytes(rawKey), 8), 6);
    ChunkLength(Stream(CanonicalBytes(rawKey), 8), 6);
    Chunk(Stream(CanonicalBytes(rawKey), 8), 6)
  }

  /** The digits of a key string agree with the canonical ones except in the last four bits. */
  predicate SameKey(t: seq<nat>, d: seq<nat>)
    requires |d| == 46
  {
    |t| == 46 && t[..45] == d[..45] && t[45] / 16 == d[45] / 16
  }

  lemma FirstBits(t: seq<nat>, n: nat)
    requires |t| == n + 1
    ensures |Stream(t, 6)| == 6 * n + 6
    ensures Stream(t, 6)[..6 * n + 2] == Stream(t[..n] , 6) + Bits(t[n] / 16, 2)
  {
    hide Bits, Stream;
    assert t == t[..n] + [t[n]];
    StreamOfSnoc(t[..n], t[n], 6);
    SmallPowers();
    Join(t[n] / 16, 2, t[n] % 16, 4, 16, t[n]);
    PrefixOfThree(Stream(t[..n], 6), Bits(t[n] / 16, 2), Bits(t[n] % 16, 4));
  }

  lemma PrefixOfThree<T>(x: seq<T>, y: seq<T>, z: seq<T>)
    ensures (x + (y + z))[..|x| + |y|] == x + y
  {
  }

  lemma SameBitsSameKey(t: seq<nat>, d: seq<nat>)
    requires |t| == 46 && |d| == 46 && Fits(t, 6) && Fits(d, 6)
    ensures Stream(t, 6)[..272] == Stream(d, 6)[..272] <==> SameKey(t, d)
  {
    FirstBits(t, 45);
    FirstBits(d, 45);
    SmallPowers();
    var x, y, p, q := Stream(t[..45], 6), Stream(d[..45], 6), Bits(t[45] / 16, 2), Bits(d[45] / 16, 2);
    assert |x| == 270 && |y| == 270;
    if x + p == y + q {
      assert x == (x + p)[..270] == y && p == (x + p)[270..] == q;
      StreamInjective(t[..45], d[..45], 6);
      ValueOfBits(t[45] / 16, 2);
      ValueOfBits(d[45] / 16, 2);
    }
  }

  lemma DecodesByBits(text: string, bytes: seq<byte>)
    requires Readable(text, Base64Url)
    ensures Base64.Decoded(text, Base64Url) == bytes <==>
            6 * |text| / 8 == |bytes| && Stream(Digits(text, Base64Url), 6)[..8 * |bytes|] == Stream(bytes, 8)
  {
    var s := Stream(Digits(text, Base64Url), 6);
    StreamOfWholeChunks(s, 8);
    BytesFit(bytes);
    BytesFit(Base64.Decoded(text, Base64Url));
    if 6 * |text| / 8 == |bytes| {
      assert |s| - |s| % 8 == 8 * |bytes|;
      if s[..8 * |bytes|] == Stream(bytes, 8) {
        StreamInjective(WholeChunks(s, 8), bytes, 8);
      }
    }
  }

  lemma AcceptedByDigits(text: string, rawKey: seq<byte>)
    requires |rawKey| == RAW_LEN && Readable(text, Base64Url)
    ensures Base64.Decoded(text, Base64Url) == CanonicalBytes(rawKey)
            <==> SameKey(Digits(text, Base64Url), KeyDigits(rawKey))
  {
    var c, d, t := CanonicalBytes(rawKey), KeyDigits(rawKey), Digits(text, Base64Url);
    DecodesByBits(text, c);
    StreamOfChunk(Stream(c, 8), 6);
    assert Stream(d, 6)[..272] == Stream(c, 8);
    if |t| == 46 {
      SameBitsSameKey(t, d);
    }
  }

  /** The canonical string with the four unused bits of its last digit set to `j`. */
  function Variant(rawKey: seq<byte>, j: nat): string
    requires |rawKey| == RAW_LEN && j < 16
  {
    PREFIX + Render(VariantDigits(rawKey, j), Base64Url)
  }

  function VariantDigits(rawKey: seq<byte>, j: nat): (d: seq<nat>)
    requires |rawKey| == RAW_LEN && j < 16
    ensures |d| == 46 && Fits(d, 6)
  {
    SmallPowers();
    KeyDigits(rawKey)[45 := KeyDigits(rawKey)[45] / 16 * 16 + j]
  }

  lemma VariantNames(rawKey: seq<byte>, j: nat)
    requires |rawKey| == RAW_LEN && j < 16
    ensures Names(Variant(rawKey, j), rawKey)
  {
    var d := VariantDigits(rawKey, j);
    DigitsOfRender(d, Base64Url);
    AcceptedByDigits(Render(d, Base64Url), rawKey);
    NamesByBody(Variant(rawKey, j), rawKey);
    assert d[..45] == KeyDigits(rawKey)[..45];
    assert Variant(rawKey, j)[|PREFIX|..] == Render(d, Base64Url);
  }

  lemma NamedByVariant(s: string, rawKey: seq<byte>)
    requires |rawKey| == RAW_LEN && Names(s, rawKey)
    ensures exists j :: 0 <= j < 16 && s == Variant(rawKey, j)
  {
    NamesByBody(s, rawKey);
    var body := s[|PREFIX|..];
    AcceptedByDigits(body, rawKey);
    hide Names, Digits, KeyDigits, Render, Alphabet.Digit;
    var t, d := Digits(body, Base64Url), KeyDigits(rawKey);
    var j := t[45] % 16;
    assert t == t[..45] + [t[45]] && VariantDigits(rawKey, j) == d[..45] + [d[45] / 16 * 16 + j];
    RenderOfDigits(body, Base64Url);
    assert s == PREFIX + body == Variant(rawKey, j);
  }

  function Variants(rawKey: seq<byte>, n: nat): set<string>
    requires |rawKey| == RAW_LEN && n <= 16
  {
    set j: nat | j < n :: Variant(rawKey, j)
  }

  lemma VariantsDiffer(rawKey: seq<byte>, i: nat, j: nat)
    requires |rawKey| == RAW_LEN && i < 16 && j < 16
    requires Variant(rawKey, i) == Variant(rawKey, j)
    ensures i == j
  {
    var x, y := VariantDigits(rawKey, i), VariantDigits(rawKey, j);
    assert Variant(rawKey, i)[|PREFIX|..] == Render(x, Base64Url);
    assert Variant(rawKey, j)[|PREFIX|..] == Render(y, Base64Url);
    DigitsOfRender(x, Base64Url);
    DigitsOfRender(y, Base64Url);
    assert x[45] == y[45];
  }

  lemma {:induction false} CountVariants(rawKey: seq<byte>, n: nat)
    requires |rawKey| == RAW_LEN && n <= 16
    ensures |Variants(rawKey, n)| == n
  {
    hide Variant;
    if n == 0 {
    } else {
      CountVariants(rawKey, n - 1);
      var v := Variant(rawKey, n - 1);
      assert Variants(rawKey, n) == Variants(rawKey, n - 1) + {v};
      if v in Variants(rawKey, n - 1) {
        var j: nat :| j < n - 1 && Variant(rawKey, j) == v;
        VariantsDiffer(rawKey, j, n - 1);
      }
    }
  }

  /** Exactly sixteen strings name a key, and all sixteen decode to the same canonical bytes. */
  lemma SixteenStrings(rawKey: seq<byte>)
    requires |rawKey| == RAW_LEN
    ensures |Variants(rawKey, 16)| == 16
    ensures forall s :: Names(s, rawKey) <==> s in Variants(rawKey, 16)
    ensures forall s :: Names(s, rawKey) ==> DecodePubkey(s).value.canonical == CanonicalBytes(rawKey)
  {
    CountVariants(rawKey, 16);
    forall s | Names(s, rawKey)
      ensures s in Variants(rawKey, 16) && DecodePubkey(s).value.canonical == CanonicalBytes(rawKey)
    {
      NamedByVariant(s, rawKey);
      NamesByBody(s, rawKey);
    }
    forall j: nat | j < 16 ensures Names(Variant(rawKey, j), rawKey) {
      VariantNames(rawKey, j);
    }
  }

  // ---- fingerprints -------------------------------------------------------------------------------

  const FINGERPRINT_BYTES: nat := 16

  function HexDigit(d: nat): char
    requires d < 16
  {
    if d < 10 then '0' + d as char else 'A' + (d - 10) as char
  }

  function Hex(bytes: seq<byte>): (s: string)
    ensures |s| == 2 * |bytes|
  {
    if bytes == [] then "" else Hex(bytes[..|bytes| - 1]) + HexByte(bytes[|bytes| - 1])
  }

  function HexByte(b: byte): (s: string)
    ensures |s| == 2
  {
    [HexDigit(b / 16), HexDigit(b % 16)]
  }

  method BytesToUpperHex(bytes: seq<byte>) returns (s: string)
    ensures s == Hex(bytes)
  {
    s := "";
    for i := 0 to |bytes|
      invariant s == Hex(bytes[..i])
    {
      assert bytes[..i + 1][..i] == bytes[..i];
      s := s + [HexDigit(bytes[i] / 16)];
      s := s + [HexDigit(bytes[i] % 16)];
    }
    assert bytes[..|bytes|] == bytes;
  }

  lemma {:induction false} HexInjective(a: seq<byte>, b: seq<byte>)
    requires Hex(a) == Hex(b)
    ensures a == b
  {
    if a != [] && b != [] {
      var x, y := a[..|a| - 1], b[..|b| - 1];
      assert Hex(x) == Hex(a)[..|Hex(a)| - 2] && HexByte(a[|a| - 1]) == Hex(a)[|Hex(a)| - 2..];
      assert Hex(y) == Hex(b)[..|Hex(b)| - 2] && HexByte(b[|b| - 1]) == Hex(b)[|Hex(b)| - 2..];
      HexInjective(x, y);
      HexDigitInjective(a[|a| - 1], b[|b| - 1]);
      assert a == x + [a[|a| - 1]] && b == y + [b[|b| - 1]];
    }
  }

  lemma HexDigitInjective(a: byte, b: byte)
    requires HexByte(a) == HexByte(b)
    ensures a == b
  {
    assert HexByte(a)[0] == HexByte(b)[0] && HexByte(a)[1] == HexByte(b)[1];
    assert a / 16 == b / 16 && a % 16 == b % 16;
  }

  const HEX_DIGITS := "0123456789ABCDEF"

  /** Byte `i` is shown by its high digit and then its low one, in upper case. */
  lemma {:induction false} HexReads(bytes: seq<byte>, i: nat)
    requires i < |bytes|
    ensures Hex(bytes)[2 * i] == HEX_DIGITS[bytes[i] / 16] && Hex(bytes)[2 * i + 1] == HEX_DIGITS[bytes[i] % 16]
  {
    var init, last := bytes[..|bytes| - 1], bytes[|bytes| - 1];
    if i < |init| {
      HexReads(init, i);
    } else {
      DigitsInTable(last / 16);
      DigitsInTable(last % 16);
    }
  }

  lemma DigitsInTable(d: nat)
    requires d < 16
    ensures HexDigit(d) == HEX_DIGITS[d]
  {
  }

  /** Groups of four separated by single characters. */
  function Grouped(hex: string, sep: char): (s: string)
    decreases |hex|
  {
    if |hex| <= 4 then hex else hex[..4] + [sep] + Grouped(hex[4..], sep)
  }

  lemma {:induction false} GroupedInjective(x: string, y: string, sep: char)
    requires |x| == |y| && Grouped(x, sep) == Grouped(y, sep)
    ensures x == y
    decreases |x|
  {
    if |x| > 4 {
      var gx, gy := Grouped(x, sep), Grouped(y, sep);
      assert gx[..4] == x[..4] && gx[5..] == Grouped(x[4..], sep);
      assert gy[..4] == y[..4] && gy[5..] == Grouped(y[4..], sep);
      GroupedInjective(x[4..], y[4..], sep);
      assert x == x[..4] + x[4..] && y == y[..4] + y[4..];
    }
  }

  /** The loop of `fingerprint`: eight slices of four digits joined with the separator. */
  method GroupHex(hex: string, sep: char) returns (s: string)
    requires |hex| == 32
    ensures s == Grouped(hex, sep)
  {
    s := "";
    assert hex[0..] == hex;
    for i := 0 to 8
      invariant if i < 8 then s + Grouped(hex[4 * i..], sep) == Grouped(hex, sep) else s == Grouped(hex, sep)
    {
      assert hex[4 * i..][4..] == hex[4 * (i + 1)..] && hex[4 * i..][..4] == hex[4 * i..4 * (i + 1)];
      s := s + hex[4 * i..4 * (i + 1)] + if i < 7 then [sep] else "";
    }
  }

  function FormatFingerprint(digest: seq<byte>): string
    requires |digest| >= FINGERPRINT_BYTES
  {
    "AM-" + Grouped(Hex(digest[..FINGERPRINT_BYTES]), '-')
  }

  /** `fingerprint(pk)` over a given hash. */
  function Fingerprint(hash: seq<byte> -> seq<byte>, s: string): Result<string, FormatError> {
    var d := DecodePubkey(s);
    if d.Err? then Err(d.error)
    else if |hash(d.value.canonical)| < FINGERPRINT_BYTES then Err(WrongLength)
    else Ok(FormatFingerprint(hash(d.value.canonical)))
  }

  /** Equal fingerprints mean equal first sixteen digest bytes. */
  lemma FingerprintShowsDigest(x: seq<byte>, y: seq<byte>)
    requires |x| >= FINGERPRINT_BYTES && |y| >= FINGERPRINT_BYTES
    requires FormatFingerprint(x) == FormatFingerprint(y)
    ensures x[..FINGERPRINT_BYTES] == y[..FINGERPRINT_BYTES]
  {
    var hx, hy := Hex(x[..FINGERPRINT_BYTES]), Hex(y[..FINGERPRINT_BYTES]);
    assert FormatFingerprint(x)[3..] == Grouped(hx, '-') && FormatFingerprint(y)[3..] == Grouped(hy, '-');
    GroupedInjective(hx, hy, '-');
    HexInjective(x[..FINGERPRINT_BYTES], y[..FINGERPRINT_BYTES]);
  }

  function RemoveChar(s: string, c: char): string {
    if s == "" then "" else (if s[0] == c then "" else [s[0]]) + RemoveChar(s[1..], c)
  }

  function TruncateFingerprint(fp: string, groups: int): Result<string, ()>
    requires |fp| >= 3
  {
    if groups < 1 || groups > 8 then Err(())
    else
      var body := RemoveChar(fp[3..], '-');
      Ok(Grouped(if |body| < 4 * groups then body else body[..4 * groups], ' '))
  }

  lemma {:induction false} RemoveNothing(s: string, t: string, c: char)
    requires forall i :: 0 <= i < |s| ==> s[i] != c
    ensures RemoveChar(s + t, c) == s + RemoveChar(t, c)
  {
    if s == "" {
      assert s + t == t;
    } else {
      assert (s + t)[1..] == s[1..] + t;
      RemoveNothing(s[1..], t, c);
    }
  }

  lemma {:induction false} UngroupGrouped(hex: string, sep: char)
    requires forall i :: 0 <= i < |hex| ==> hex[i] != sep
    ensures RemoveChar(Grouped(hex, sep), sep) == hex
    decreases |hex|
  {
    if |hex| <= 4 {
      RemoveNothing(hex, "", sep);
      assert hex + "" == hex;
    } else {
      var rest := Grouped(hex[4..], sep);
      UngroupGrouped(hex[4..], sep);
      RemoveNothing(hex[..4], [sep] + rest, sep);
      assert ([sep] + rest)[1..] == rest;
      AppendAssociates(hex[..4], [sep], rest);
    }
  }

  lemma {:induction false} HexPrefix(bytes: seq<byte>, n: nat)
    requires n <= |bytes|
    ensures Hex(bytes)[..2 * n] == Hex(bytes[..n])
    ensures forall i :: 0 <= i < |Hex(bytes)| ==> Hex(bytes)[i] != '-'
  {
    if bytes != [] {
      var init := bytes[..|bytes| - 1];
      if n == |bytes| {
        assert bytes[..n] == bytes;
        HexPrefix(init, n - 1);
      } else {
        HexPrefix(init, n);
        assert init[..n] == bytes[..n];
      }
    }
  }

  /** A truncated fingerprint shows the first `2 * groups` digest bytes and nothing else. */
  lemma TruncateShowsPrefix(digest: seq<byte>, groups: nat)
    requires |digest| >= FINGERPRINT_BYTES && 1 <= groups <= 8
    ensures TruncateFingerprint(FormatFingerprint(digest), groups) == Ok(Grouped(Hex(digest[..2 * groups]), ' '))
    ensures forall n :: n < 1 || n > 8 ==> TruncateFingerprint(FormatFingerprint(digest), n).Err?
  {
    var d := digest[..FINGERPRINT_BYTES];
    HexPrefix(d, 2 * groups);
    UngroupGrouped(Hex(d), '-');
    assert FormatFingerprint(digest)[3..] == Grouped(Hex(d), '-');
    assert d[..2 * groups] == digest[..2 * groups];
  }

  /** Whichever of its sixteen strings names a key, the fingerprint is the same. */
  lemma OneFingerprintPerKey(hash: seq<byte> -> seq<byte>, rawKey: seq<byte>, s: string, t: string)
    requires |rawKey| == RAW_LEN && Names(s, rawKey) && Names(t, rawKey)
    ensures Fingerprint(hash, s) == Fingerprint(hash, t)
    ensures |hash([1, 1] + rawKey)| >= FINGERPRINT_BYTES ==>
              Fingerprint(hash, s) == Ok("AM-" + Grouped(Hex(hash([1, 1] + rawKey)[..16]), '-'))
  {
    SixteenStrings(rawKey);
    if |hash([1, 1] + rawKey)| >= FINGERPRINT_BYTES {
      ShownAs(hash, rawKey, s);
    }
  }

  /** A fingerprint shows the first sixteen bytes of the digest of the key's canonical bytes, and nothing else. */
  lemma FingerprintIsOfKey(hash: seq<byte> -> seq<byte>, rawKey: seq<byte>, s: string)
    requires |rawKey| == RAW_LEN && Names(s, rawKey) && |hash(CanonicalBytes(rawKey))| >= FINGERPRINT_BYTES
    ensures var fp := Fingerprint(hash, s);
            && fp.Ok? && |fp.value| == 42 && fp.value[..3] == "AM-"
            && RemoveChar(fp.value[3..], '-') == Hex(hash([1, 1] + rawKey)[..16])
  {
    var digest := hash(CanonicalBytes(rawKey));
    var d := digest[..FINGERPRINT_BYTES];
    assert DecodePubkey(s).value.canonical == CanonicalBytes(rawKey) by {
      SixteenStrings(rawKey);
    }
    HexPrefix(d, 16);
    UngroupGrouped(Hex(d), '-');
    GroupedLength(Hex(d), '-');
    assert FormatFingerprint(digest)[3..] == Grouped(Hex(d), '-');
  }

  lemma {:induction false} GroupedLength(hex: string, sep: char)
    requires hex != []
    ensures |Grouped(hex, sep)| == |hex| + (|hex| - 1) / 4
    decreases |hex|
  {
    if |hex| > 4 {
      GroupedLength(hex[4..], sep);
    }
  }

  /** Two strings have one fingerprint exactly when the digests of their keys begin with the same sixteen bytes. */
  lemma FingerprintTellsKeys(hash: seq<byte> -> seq<byte>, x: seq<byte>, y: seq<byte>, s: string, t: string)
    requires |x| == |y| == RAW_LEN && Names(s, x) && Names(t, y) && forall k :: |hash(k)| >= FINGERPRINT_BYTES
    ensures Fingerprint(hash, s) == Fingerprint(hash, t) <==> hash([1, 1] + x)[..16] == hash([1, 1] + y)[..16]
    ensures hash([1, 1] + x)[..16] != hash([1, 1] + y)[..16] || x == y ==>
              (Fingerprint(hash, s) == Fingerprint(hash, t) <==> x == y)
  {
    FingerprintIsOfKey(hash, x, s);
    FingerprintIsOfKey(hash, y, t);
    if Fingerprint(hash, s) == Fingerprint(hash, t) {
      HexInjective(hash([1, 1] + x)[..16], hash([1, 1] + y)[..16]);
    }
    if hash([1, 1] + x)[..16] == hash([1, 1] + y)[..16] {
      ShownAs(hash, x, s);
      ShownAs(hash, y, t);
    }
    hide Fingerprint, Names, RemoveChar, Hex;
  }

  lemma ShownAs(hash: seq<byte> -> seq<byte>, rawKey: seq<byte>, s: string)
    requires |rawKey| == RAW_LEN && Names(s, rawKey) && |hash([1, 1] + rawKey)| >= FINGERPRINT_BYTES
    ensures Fingerprint(hash, s) == Ok("AM-" + Grouped(Hex(hash([1, 1] + rawKey)[..16]), '-'))
  {
    SixteenStrings(rawKey);
    assert CanonicalBytes(rawKey) == [1, 1] + rawKey;
    hide Names, Hex, Grouped;
  }

  /** The constant-time comparison over UTF-16 code units accumulates differences with OR of XOR. */
  method CompareFingerprint(a: seq<bv16>, b: seq<bv16>) returns (same: bool)
    ensures same <==> a == b
  {
    if |a| != |b| {
      return false;
    }
    hide OrOfXor;
    var diff: bv16 := 0;
    for i := 0 to |a|
      invariant diff == 0 <==> a[..i] == b[..i]
    {
      assert a[..i + 1] == a[..i] + [a[i]] && b[..i + 1] == b[..i] + [b[i]];
      diff := OrOfXor(diff, a[i], b[i]);
    }
    assert a[..|a|] == a && b[..|b|] == b;
    return diff == 0;
  }

  function OrOfXor(d: bv16, x: bv16, y: bv16): (r: bv16)
    ensures r == 0 <==> d == 0 && x == y
  {
    d | (x ^ y)
  }
}
