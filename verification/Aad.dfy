/** `aad.ts`: the canonical bytes a message is bound to. */
module Aad {
  import opened Buffer
  import opened Bytes
  import opened Payload
  import opened Pubkey

  const AAD_VERSION: byte := 1
  const AAD_VERSION_V2: byte := 2
  const LINK_ID_BYTES_EXACT: nat := 16
  const RECIP_HASH_LEN: nat := 32
  const MAX_SAFE_INTEGER: nat := 0x1f_ffff_ffff_ffff

  /** `createdAtMs` is present for legacy links only; its presence selects the version. */
  datatype Context = Context(
    linkId: seq<byte>,
    recipientPublicKey: string,
    createdAtMs: Option<int>,
    expiresAtMs: int,
    maxOpens: int)

  datatype AadError =
    | BadCreatedAt
    | BadExpiresAt
    | BadMaxOpens
    | ExpiryNotAfterCreation
    | ExpiryNotPositive
    | BadLinkIdLength
    | BadRecipient(error: FormatError)

  /** SHA-256 as an ideal function: always 32 bytes, and never one digest for two raw public keys. */
  ghost predicate IdealHash(hash: seq<byte> -> seq<byte>) {
    && (forall x :: |hash(x)| == RECIP_HASH_LEN)
    && (forall x, y :: |x| == |y| == RAW_LEN && hash(x) == hash(y) ==> x == y)
  }

  /** Such functions exist: the claims that assume one are about something. */
  lemma IdealHashExists()
    ensures exists hash: seq<byte> -> seq<byte> :: IdealHash(hash)
  {
    var hash := (x: seq<byte>) => if |x| == RAW_LEN then x else Zeros(RECIP_HASH_LEN);
    assert IdealHash(hash);
  }

  predicate SafeInstant(ms: int) {
    0 <= ms <= MAX_SAFE_INTEGER
  }

  /** The guards of `encodeAad` in the order of the source. */
  function FirstAadError(ctx: Context): Option<AadError> {
    if ctx.createdAtMs.Some? && !SafeInstant(ctx.createdAtMs.value) then Some(BadCreatedAt)
    else if !SafeInstant(ctx.expiresAtMs) then Some(BadExpiresAt)
    else if ctx.maxOpens <= 0 && ctx.maxOpens != -1 then Some(BadMaxOpens)
    else if ctx.createdAtMs.Some? && ctx.expiresAtMs <= ctx.createdAtMs.value then Some(ExpiryNotAfterCreation)
    else if ctx.createdAtMs.None? && ctx.expiresAtMs <= 0 then Some(ExpiryNotPositive)
    else if |ctx.linkId| != LINK_ID_BYTES_EXACT then Some(BadLinkIdLength)
    else if DecodePubkey(ctx.recipientPublicKey).Err? then Some(BadRecipient(DecodePubkey(ctx.recipientPublicKey).error))
    else None
  }

  predicate Valid(ctx: Context) {
    FirstAadError(ctx).None?
  }

  function RecipientKey(ctx: Context): (raw: seq<byte>)
    requires Valid(ctx)
    ensures |raw| == RAW_LEN
  {
    DecodePubkey(ctx.recipientPublicKey).value.rawKey
  }

  /** What `setInt32` keeps of a number: its value modulo 2^32. */
  function Int32Bits(n: int): (r: nat)
    ensures r <= U32_MAX
  {
    n % (U32_MAX + 1)
  }

  function Header(ctx: Context): (h: seq<byte>)
    ensures |h| == 3
  {
    [if ctx.createdAtMs.Some? then AAD_VERSION else AAD_VERSION_V2, WIRE_VERSION, SUITE]
  }

  function CreatedAtBytes(ctx: Context): (s: seq<byte>)
    requires Valid(ctx)
    ensures |s| == if ctx.createdAtMs.Some? then 8 else 0
  {
    if ctx.createdAtMs.Some? then BigEndian(ctx.createdAtMs.value, 8) else []
  }

  function AadBytes(hash: seq<byte> -> seq<byte>, ctx: Context): seq<byte>
    requires Valid(ctx)
  {
    Header(ctx) + Field(2, ctx.linkId) + hash(RecipientKey(ctx)) + CreatedAtBytes(ctx)
    + BigEndian(ctx.expiresAtMs, 8) + BigEndian(Int32Bits(ctx.maxOpens), 4)
  }

  /** `encodeAad`: fills a buffer of the computed size and ends exactly at its end. */
  method EncodeAad(hash: seq<byte> -> seq<byte>, ctx: Context) returns (r: Result<array<byte>, AadError>)
    requires forall x :: |hash(x)| == RECIP_HASH_LEN
    ensures r.Err? <==> !Valid(ctx)
    ensures r.Err? ==> FirstAadError(ctx) == Some(r.error)
    ensures r.Ok? ==> fresh(r.value) && r.value[..] == AadBytes(hash, ctx)
  {
    var problem := FirstAadError(ctx);
    if problem.Some? {
      return Err(problem.value);
    }
    var isV1 := ctx.createdAtMs.Some?;
    var recipHash := hash(RecipientKey(ctx));
    var total := 3 + 2 + |ctx.linkId| + RECIP_HASH_LEN + (if isV1 then 8 else 0) + 8 + 4;
    var out := new byte[total](_ => 0);
    assert Written(out, 0, []);
    var off := WriteBytes(out, 0, Header(ctx), []);
    ghost var done := Header(ctx);
    assert [] + done == done;
    off := WriteLinkAndHash(out, off, ctx.linkId, recipHash, done);
    done := done + Field(2, ctx.linkId) + recipHash;
    if isV1 {
      off := WriteUint(out, off, ctx.createdAtMs.value, 8, done);
    }
    assert Written(out, off, done + CreatedAtBytes(ctx)) by {
      assert done + [] == done;
    }
    off := WriteUint(out, off, ctx.expiresAtMs, 8, done + CreatedAtBytes(ctx));
    off := WriteUint(out, off, Int32Bits(ctx.maxOpens), 4, done + CreatedAtBytes(ctx) + BigEndian(ctx.expiresAtMs, 8));
    assert off == total && out[..off] == out[..];
    return Ok(out);
  }

  method WriteLinkAndHash(out: array<byte>, off: nat, linkId: seq<byte>, recipHash: seq<byte>, ghost prefix: seq<byte>)
    returns (next: nat)
    requires Written(out, off, prefix) && off + 2 + |linkId| + |recipHash| <= out.Length
    modifies out
    ensures next == off + 2 + |linkId| + |recipHash|
    ensures Written(out, next, prefix + Field(2, linkId) + recipHash)
  {
    next := WriteUint(out, off, |linkId|, 2, prefix);
    next := WriteBytes(out, next, linkId, prefix + BigEndian(|linkId|, 2));
    assert prefix + BigEndian(|linkId|, 2) + linkId == prefix + Field(2, linkId);
    next := WriteBytes(out, next, recipHash, prefix + Field(2, linkId));
  }

  // ---- binding ------------------------------------------------------------------------------------

  /** The two contexts agree, as far as a 32-bit `maxOpens` can tell. */
  predicate SameBinding(a: Context, b: Context)
    requires Valid(a) && Valid(b)
  {
    && a.linkId == b.linkId
    && RecipientKey(a) == RecipientKey(b)
    && a.createdAtMs == b.createdAtMs
    && a.expiresAtMs == b.expiresAtMs
    && Int32Bits(a.maxOpens) == Int32Bits(b.maxOpens)
  }

  lemma InstantFits()
    ensures MAX_SAFE_INTEGER < Pow2(64)
    ensures Pow2(32) == U32_MAX + 1
  {
    FieldWidths();
    Pow2Add(32, 32);
  }

  lemma BigEndianInjective(x: nat, y: nat, w: nat)
    requires x < Pow2(8 * w) && y < Pow2(8 * w)
    requires BigEndian(x, w) == BigEndian(y, w)
    ensures x == y
  {
    ReadAfterWrite(x, w);
    ReadAfterWrite(y, w);
    QuotientAndRemainder(x, Pow2(8 * w), 0, x);
    QuotientAndRemainder(y, Pow2(8 * w), 0, y);
  }

  /** Pieces of equal lengths make equal strings only when they are equal one by one. */
  lemma SameLengthsSamePieces<T>(a: seq<T>, b: seq<T>, a': seq<T>, b': seq<T>)
    requires |a| == |a'| && a + b == a' + b'
    ensures a == a' && b == b'
  {
    assert a == (a + b)[..|a|] == (a' + b')[..|a'|] == a';
    assert b == (a + b)[|a|..] == (a' + b')[|a'|..] == b';
  }

  /** The fixed-width pieces behind the version byte, read off two equal encodings from the back. */
  lemma PiecesAgree(hash: seq<byte> -> seq<byte>, a: Context, b: Context)
    requires IdealHash(hash) && Valid(a) && Valid(b)
    requires AadBytes(hash, a) == AadBytes(hash, b)
    ensures Header(a) == Header(b) && a.linkId == b.linkId && hash(RecipientKey(a)) == hash(RecipientKey(b))
    ensures CreatedAtBytes(a) == CreatedAtBytes(b)
    ensures BigEndian(a.expiresAtMs, 8) == BigEndian(b.expiresAtMs, 8)
    ensures BigEndian(Int32Bits(a.maxOpens), 4) == BigEndian(Int32Bits(b.maxOpens), 4)
  {
    hide BigEndian, RecipientKey, CreatedAtBytes, Int32Bits;
    var (a1, b1) := (Header(a) + Field(2, a.linkId), Header(b) + Field(2, b.linkId));
    var (a2, b2) := (a1 + hash(RecipientKey(a)), b1 + hash(RecipientKey(b)));
    var (a3, b3) := (a2 + CreatedAtBytes(a), b2 + CreatedAtBytes(b));
    var (a4, b4) := (a3 + BigEndian(a.expiresAtMs, 8), b3 + BigEndian(b.expiresAtMs, 8));
    assert |a2| == |b2|;
    assert |CreatedAtBytes(a)| == |CreatedAtBytes(b)|;
    SameLengthsSamePieces(a4, BigEndian(Int32Bits(a.maxOpens), 4), b4, BigEndian(Int32Bits(b.maxOpens), 4));
    SameLengthsSamePieces(a3, BigEndian(a.expiresAtMs, 8), b3, BigEndian(b.expiresAtMs, 8));
    SameLengthsSamePieces(a2, CreatedAtBytes(a), b2, CreatedAtBytes(b));
    SameLengthsSamePieces(a1, hash(RecipientKey(a)), b1, hash(RecipientKey(b)));
    SameLengthsSamePieces(Header(a), Field(2, a.linkId), Header(b), Field(2, b.linkId));
    SameLengthsSamePieces(BigEndian(16, 2), a.linkId, BigEndian(16, 2), b.linkId);
  }

  /** Two contexts have one encoding exactly when they agree in every field, the key and the version included. */
  lemma AadBinds(hash: seq<byte> -> seq<byte>, a: Context, b: Context)
    requires IdealHash(hash) && Valid(a) && Valid(b)
    ensures AadBytes(hash, a) == AadBytes(hash, b) <==> SameBinding(a, b)
  {
    if AadBytes(hash, a) == AadBytes(hash, b) {
      PiecesAgree(hash, a, b);
      InstantFits();
      assert Header(a)[0] == Header(b)[0];
      if a.createdAtMs.Some? {
        BigEndianInjective(a.createdAtMs.value, b.createdAtMs.value, 8);
      }
      BigEndianInjective(a.expiresAtMs, b.expiresAtMs, 8);
      BigEndianInjective(Int32Bits(a.maxOpens), Int32Bits(b.maxOpens), 4);
    }
  }

  /** Within the range of an int32 the number of opens is bound exactly. */
  lemma AadInjective(hash: seq<byte> -> seq<byte>, a: Context, b: Context)
    requires IdealHash(hash) && Valid(a) && Valid(b)
    requires a.maxOpens < 0x8000_0000 && b.maxOpens < 0x8000_0000
    ensures AadBytes(hash, a) == AadBytes(hash, b) <==>
            a == b.(recipientPublicKey := a.recipientPublicKey) && RecipientKey(a) == RecipientKey(b)
  {
    hide AadBytes;
    AadBinds(hash, a, b);
    Int32Injective(a.maxOpens, b.maxOpens);
  }

  lemma Int32Injective(m: int, n: int)
    requires -1 <= m < 0x8000_0000 && -1 <= n < 0x8000_0000
    ensures Int32Bits(m) == Int32Bits(n) ==> m == n
  {
  }

  /** Beyond it, it is not: "unlimited" and 2^32 - 1 opens share one encoding. */
  lemma UnlimitedCollides(hash: seq<byte> -> seq<byte>, a: Context)
    requires Valid(a) && a.maxOpens == -1
    ensures var b := a.(maxOpens := 0xffff_ffff); Valid(b) && AadBytes(hash, b) == AadBytes(hash, a)
  {
    var b := a.(maxOpens := 0xffff_ffff);
    assert Valid(b);
    assert Int32Bits(b.maxOpens) == Int32Bits(a.maxOpens);
    hide BigEndian, Field, Valid, Int32Bits;
    assert RecipientKey(b) == RecipientKey(a) && CreatedAtBytes(b) == CreatedAtBytes(a) && Header(b) == Header(a);
  }

  /** The two versions differ in the first byte and in length, so no encoding belongs to both. */
  lemma VersionsDisjoint(hash: seq<byte> -> seq<byte>, a: Context, b: Context)
    requires IdealHash(hash) && Valid(a) && Valid(b) && a.createdAtMs.Some? && b.createdAtMs.None?
    ensures |AadBytes(hash, a)| == 73 && |AadBytes(hash, b)| == 65
    ensures AadBytes(hash, a)[0] != AadBytes(hash, b)[0]
  {
  }
}
