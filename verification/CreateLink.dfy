/** The guards of the create handler in `messages-handler.ts`, and what passes through them end to end. */
module CreateLink {
  import opened Aad
  import opened Base64
  import opened Base64Laws
  import opened Base64Text
  import opened BitStream
  import opened Bytes
  import opened Payload
  import opened Seal
  import Padding
  import Pubkey

  const MIB: nat := 0x10_0000
  const MAX_BODY_BYTES: nat := 37 * MIB
  const MAX_CIPHERTEXT_BYTES: nat := 26 * MIB
  const MIN_CIPHERTEXT_BYTES: nat := 32
  const DEFAULT_MAX_RETENTION_MS: nat := 365 * 24 * 60 * 60 * 1000
  const RETENTION_GRACE_MS: nat := 60 * 60 * 1000
  const RATE_LIMIT_MAX: nat := 30
  /** The largest instant a date can hold. */
  const MAX_DATE_MS: nat := 8_640_000_000_000_000

  /** The parsed body; `expiresAt` is `None` for a date that does not parse. */
  datatype Request = Request(id: string, ciphertext: string, expiresAt: Option<int>, maxOpens: int)

  datatype Refusal = RateLimited | BadRequest

  /** A date that parses is an instant no later than the last one. */
  predicate IsDate(ms: int) {
    -(MAX_DATE_MS as int) <= ms <= MAX_DATE_MS
  }

  /** `BASE64_REGEX`: alphabet characters and at most two trailing `=`. */
  predicate LooksBase64(s: string) {
    var t := StripEquals(s);
    Readable(t, Base64Standard) && |s| - |t| <= 2
  }

  /** `atob` on a string of that shape: padding counts only when it completes a group of four. */
  function Atob(s: string): Option<seq<byte>> {
    var t := if |s| % 4 == 0 then StripEquals(s) else s;
    if |t| % 4 == 1 || !Readable(t, Base64Standard) then None else Some(Decoded(t, Base64Standard))
  }

  function DecodeBody(s: string): Option<seq<byte>> {
    if !LooksBase64(s) then None else Atob(s)
  }

  /** The handler up to the store: `rateCount` and `now` are what the injected stores and clock return. */
  function CheckCreate(rateCount: nat, bodyLength: nat, body: Option<Request>, now: int, maxRetentionMs: nat)
    : Result<seq<byte>, Refusal>
  {
    if rateCount > RATE_LIMIT_MAX then Err(RateLimited)
    else if bodyLength > MAX_BODY_BYTES || body.None? then Err(BadRequest)
    else
      var b := body.value;
      if !IsLinkId(b.id) then Err(BadRequest)
      else if b.maxOpens <= 0 && b.maxOpens != -1 then Err(BadRequest)
      else if b.expiresAt.None? || b.expiresAt.value <= now then Err(BadRequest)
      else if b.expiresAt.value - now > maxRetentionMs + RETENTION_GRACE_MS then Err(BadRequest)
      else
        match DecodeBody(b.ciphertext)
        case None => Err(BadRequest)
        case Some(blob) =>
          if |blob| < MIN_CIPHERTEXT_BYTES || |blob| > MAX_CIPHERTEXT_BYTES then Err(BadRequest) else Ok(blob)
  }

  /** A text the server decodes: alphabet characters, unpadded or filled with `=` to a multiple of four, none left over. */
  predicate IsBase64Text(s: string) {
    var t := StripEquals(s);
    Readable(t, Base64Standard) && (if |t| == |s| then |s| % 4 != 1 else |s| % 4 == 0 && |s| - |t| <= 2)
  }

  /** The body decodes exactly for such texts, to the whole bytes of the alphabet characters. */
  lemma DecodeBodyIsExact(s: string)
    ensures DecodeBody(s) == if IsBase64Text(s) then Some(Decoded(StripEquals(s), Base64Standard)) else None
  {
    hide Decoded;
    var t := StripEquals(s);
    if |t| < |s| && |s| % 4 != 0 {
      assert s[|s| - 1] == '=' && Base64Standard.Digit('=').None?;
    }
  }

  /** What a create must satisfy, rate limit and store apart. */
  predicate Acceptable(b: Request, bodyLength: nat, now: int, maxRetentionMs: nat) {
    && bodyLength <= 37 * 1024 * 1024
    && IsLinkId(b.id) && (b.maxOpens >= 1 || b.maxOpens == -1)
    && b.expiresAt.Some? && now < b.expiresAt.value <= now + maxRetentionMs + 3_600_000
    && IsBase64Text(b.ciphertext)
    && 32 <= |Decoded(StripEquals(b.ciphertext), Base64Standard)| <= 26 * 1024 * 1024
  }

  /** The guards let through exactly the acceptable creates within the rate limit, and hand on the decoded blob. */
  lemma CheckCreateIsExact(rateCount: nat, bodyLength: nat, b: Request, now: int, maxRetentionMs: nat)
    ensures CheckCreate(rateCount, bodyLength, Some(b), now, maxRetentionMs)
         == if rateCount > 30 then Err(RateLimited)
            else if Acceptable(b, bodyLength, now, maxRetentionMs) then Ok(Decoded(StripEquals(b.ciphertext), Base64Standard))
            else Err(BadRequest)
    ensures Acceptable(b, bodyLength, now, maxRetentionMs) ==>
              DecodeBody(b.ciphertext) == Some(Decoded(StripEquals(b.ciphertext), Base64Standard))
  {
    DecodeBodyIsExact(b.ciphertext);
    hide DecodeBody, Decoded, IsLinkId, StripEquals, IsBase64Text;
  }

  // ---- what the server accepts can be sealed ------------------------------------------------------

  function AsciiBytes(s: string): (b: seq<byte>)
    requires IsLinkId(s)
    ensures |b| == |s|
  {
    seq(|s|, i requires 0 <= i < |s| => s[i] as byte)
  }

  /** Every create the server accepts is a context the version-2 AAD encoder accepts, for any well-formed key. */
  lemma AcceptedCreateCanBeBound(rateCount: nat, bodyLength: nat, body: Request, now: nat, maxRetentionMs: nat, key: string)
    requires CheckCreate(rateCount, bodyLength, Some(body), now, maxRetentionMs).Ok?
    requires IsDate(body.expiresAt.value) && Pubkey.DecodePubkey(key).Ok?
    ensures Valid(Context(AsciiBytes(body.id), key, None, body.expiresAt.value, body.maxOpens))
  {
  }

  // ---- what the client sends is decoded to what it sealed -----------------------------------------

  lemma PaddingIsShort(blob: seq<byte>)
    ensures StripEquals(Base64Text.Padded(blob)) == Encoded(blob, Base64Standard)
    ensures |Base64Text.Padded(blob)| - |Encoded(blob, Base64Standard)| <= 2
  {
    hide Encoded, StripEquals;
    var text := Encoded(blob, Base64Standard);
    DecodeAfterEncode(blob, Base64Standard);
    NoEqualsSign(text, Base64Standard);
    StripPadding(text, (4 - |text| % 4) % 4);
    EncodedLength(blob);
  }

  lemma ServerDecodesPadded(blob: seq<byte>)
    ensures DecodeBody(Base64Text.Padded(blob)) == Some(blob)
  {
    hide Encoded, Decoded, StripEquals, Base64Text.Padded, Readable;
    DecodeAfterPadded(blob);
    PaddingIsShort(blob);
    EncodedLength(blob);
  }

  lemma EncodedLength(blob: seq<byte>)
    ensures |Encoded(blob, Base64Standard)| == (8 * |blob| + 5) / 6
    ensures |Encoded(blob, Base64Standard)| % 4 != 1
  {
    ChunkLength(Stream(blob, 8), 6);
    QuotientAndRemainder(|blob|, 3, |blob| / 3, |blob| % 3);
  }

  // ---- end-to-end size budget ---------------------------------------------------------------------

  /** Wire header, encapsulated key and AEAD tag around a frame. */
  const OVERHEAD: nat := 50

  /** The blob a frame becomes: version, suite, 32 bytes of key, the frame and a 16-byte tag. */
  ghost predicate BlobOf(blob: seq<byte>, p: Payload) {
    exists b: Blob :: |b.aeadOutput| == |Frame(p)| + 16 && EncodeCiphertextBlob(b) == Ok(blob)
  }

  /** The largest minimal frame length whose blob the server still takes: 26 MiB less one Padmé block. */
  const LARGEST_MIN_LEN: nat := 51 * 0x8_0000

  lemma BlockNearTheLimit()
    ensures Pow2(24) == 0x100_0000 && Pow2(25) == 0x200_0000
    ensures Padding.FloorLog2(24) == 4 && Padding.Block(24) == 0x8_0000
  {
    Pow2Add(12, 12);
    Padding.Pow2Of12();
    Padding.FloorLog2Unique(24, 4);
    Pow2Add(12, 7);
    assert Pow2(4) == 16 && Pow2(5) == 32 && Pow2(7) == 128;
  }

  lemma PaddedNearTheLimit(n: nat)
    requires 0x100_0000 <= n < 0x200_0000
    ensures Padding.Padded(n) == Padding.CeilTo(n, 0x8_0000)
  {
    BlockNearTheLimit();
    Padding.FloorLog2Unique(n, 24);
    Padding.PaddedAbove(n);
  }

  lemma CeilNearTheLimit()
    ensures Padding.CeilTo(LARGEST_MIN_LEN, 0x8_0000) == LARGEST_MIN_LEN
    ensures Padding.CeilTo(LARGEST_MIN_LEN + 1, 0x8_0000) == MAX_CIPHERTEXT_BYTES
  {
  }

  lemma PaddedAtTheLimit()
    ensures Padding.Padded(LARGEST_MIN_LEN) == LARGEST_MIN_LEN
    ensures Padding.Padded(LARGEST_MIN_LEN + 1) == MAX_CIPHERTEXT_BYTES
  {
    hide Padding.Padded;
    PaddedNearTheLimit(LARGEST_MIN_LEN);
    PaddedNearTheLimit(LARGEST_MIN_LEN + 1);
    CeilNearTheLimit();
  }

  /** Exactly the frames of minimal length up to 25.5 MiB pass the server's size checks. */
  lemma BlobFitsExactly(blob: seq<byte>, p: Payload)
    requires BlobOf(blob, p)
    ensures MIN_CIPHERTEXT_BYTES <= |blob|
    ensures |blob| <= MAX_CIPHERTEXT_BYTES <==> MinLen(p) <= LARGEST_MIN_LEN
  {
    hide Padding.Padded;
    Padding.NeverShorter(MinLen(p));
    PaddedAtTheLimit();
    assert |blob| == Padding.Padded(MinLen(p)) + OVERHEAD;
    if MinLen(p) <= LARGEST_MIN_LEN {
      Padding.Monotone(MinLen(p), LARGEST_MIN_LEN);
    } else {
      Padding.Monotone(LARGEST_MIN_LEN + 1, MinLen(p));
    }
  }

  lemma OneAttachmentLength(p: Payload)
    requires |p.attachments| == 1
    ensures var a := p.attachments[0];
            MinLen(p) == 19 + |p.text| + |a.filename| + |a.mimetype| + |a.content|
  {
    assert AttachmentsBytes(p.attachments[1..]) == [];
  }

  /**
   * One attachment of up to 25 MiB with up to 2^19 - 32 bytes of text, name and mimetype makes a blob the server
   * takes, and its base64 leaves a mebibyte of the body cap for the rest of the request.
   */
  lemma SizeBudget(blob: seq<byte>, p: Payload)
    requires BlobOf(blob, p) && |p.attachments| == 1
    requires |p.attachments[0].content| <= 25 * MIB
    requires |p.text| + |p.attachments[0].filename| + |p.attachments[0].mimetype| <= 0x8_0000 - 32
    ensures MIN_CIPHERTEXT_BYTES <= |blob| <= MAX_CIPHERTEXT_BYTES
    ensures DecodeBody(Base64Text.Padded(blob)) == Some(blob)
    ensures |Base64Text.Padded(blob)| + MIB <= MAX_BODY_BYTES
  {
    hide Base64Text.Padded, DecodeBody, MinLen;
    OneAttachmentLength(p);
    BlobFitsExactly(blob, p);
    ServerDecodesPadded(blob);
    PaddedTextLength(blob);
  }

  lemma PaddedTextLength(blob: seq<byte>)
    ensures |Base64Text.Padded(blob)| <= (8 * |blob| + 5) / 6 + 3
  {
    EncodedLength(blob);
  }
}
