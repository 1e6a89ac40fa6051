/** Where every field of the wire formats stands, by offset, and which error each malformed input gets. */
module WireFormat {
  import opened Aad
  import opened Base64
  import opened Base64Laws
  import opened Base64Text
  import opened BitStream
  import opened Bytes
  import opened Payload
  import opened Pubkey
  import opened Seal
  import Padding
  import PayloadCodec

  // ---- numbers and symbols ------------------------------------------------------------------------

  /** The byte with the highest weight comes first. */
  lemma BigEndianDigits(v: nat)
    ensures BigEndian(v, 2) == [v / 0x100 % 0x100, v % 0x100]
    ensures BigEndian(v, 4) == [v / 0x100_0000 % 0x100, v / 0x1_0000 % 0x100, v / 0x100 % 0x100, v % 0x100]
  {
    DivideAgain(v);
    BigEndianUnfolds(v, 3);
    BigEndianUnfolds(v / 0x100, 2);
    BigEndianUnfolds(v / 0x1_0000, 1);
    BigEndianUnfolds(v / 0x100_0000, 0);
    BigEndianUnfolds(v, 1);
    BigEndianUnfolds(v / 0x100, 0);
    hide BigEndian;
    NoDigits(v);
  }

  lemma NoDigits(v: nat)
    ensures forall u: nat :: BigEndian(u, 0) == []
  {
  }

  lemma BigEndianUnfolds(v: nat, w: nat)
    ensures BigEndian(v, w + 1) == BigEndian(v / 0x100, w) + [v % 0x100]
  {
  }

  lemma DivideAgain(v: nat)
    ensures v / 0x100 / 0x100 == v / 0x1_0000 && v / 0x1_0000 / 0x100 == v / 0x100_0000
  {
  }

  const UPPER := "ABCDEFGHIJKLMNOPQRSTUVWXYZ"
  const LOWER := "abcdefghijklmnopqrstuvwxyz"

  lemma LettersInOrder(d: nat)
    requires d < 26
    ensures UPPER[d] == 'A' + d as char && LOWER[d] == 'a' + d as char
  {
  }

  lemma DecimalInOrder(d: nat)
    requires d < 10
    ensures "0123456789"[d] == '0' + d as char
  {
  }

  /** The symbol tables of RFC 4648: sections 4 and 5, and section 6 in lower case. */
  lemma SymbolTables(d: nat)
    ensures d < Pow2(Base64Standard.Width()) ==>
              d < 64 && Base64Standard.Symbol(d) == (UPPER + LOWER + "0123456789" + "+/")[d]
    ensures d < Pow2(Base64Url.Width()) ==> d < 64 && Base64Url.Symbol(d) == (UPPER + LOWER + "0123456789" + "-_")[d]
    ensures d < Pow2(Base32Lower.Width()) ==> d < 32 && Base32Lower.Symbol(d) == (LOWER + "234567")[d]
  {
    assert Pow2(5) == 32 && Pow2(6) == 64;
    assert |UPPER| == 26 && |LOWER| == 26;
    if d < 26 {
      LettersInOrder(d);
    } else if d < 52 {
      LettersInOrder(d - 26);
    } else if d < 62 {
      DecimalInOrder(d - 52);
    }
  }

  /** The ids the server takes are exactly what the clients make of twelve bytes. */
  lemma LinkIdsAreTwelveBytes(id: string)
    ensures IsLinkId(id) <==> exists bytes: seq<byte> :: |bytes| == 12 && id == BytesToBase64Url(bytes)
  {
    if IsLinkId(id) {
      IdIsReadable(id);
      EncodeAfterDecode(id, Base64Url);
      var bytes := Base64.Decoded(id, Base64Url);
      UrlIsSection5(bytes);
      ChunkLength(Stream(bytes, 8), 6);
      assert |Encoded(bytes, Base64Url)| == (8 * |bytes| + 5) / 6;
      assert |bytes| == 12;
      assert id == BytesToBase64Url(bytes);
    }
    if bytes: seq<byte> :| |bytes| == 12 && id == BytesToBase64Url(bytes) {
      TwelveBytesMakeALinkId(bytes);
    }
  }

  lemma IdIsReadable(id: string)
    requires IsLinkId(id)
    ensures Readable(id, Base64Url) && Canonical(id, Base64Url)
  {
  }

  // ---- public keys --------------------------------------------------------------------------------

  /** What is not a key string is told apart: the prefix, then the characters, then length, version and suite. */
  lemma PubkeyErrors(s: string, c: seq<byte>)
    ensures |c| != 32 ==> EncodePubkey(c) == Err(WrongLength)
    ensures DecodePubkey(s) == Err(MissingPrefix) <==> !("amk1:" <= s)
    ensures DecodePubkey(s) == Err(BadCharacter) <==> "amk1:" <= s && !Readable(s[5..], Base64Url)
    ensures DecodePubkey("amk1:" + Encoded(c, Base64Url))
         == if |c| != 34 then Err(WrongLength)
            else if c[0] != 1 then Err(FormatError.UnknownVersion)
            else if c[1] != 1 then Err(UnknownSuite)
            else Ok(DecodedKey(c[2..], c))
  {
    DecodeAfterEncode(c, Base64Url);
    hide Encoded, Base64.Decoded;
    assert ("amk1:" + Encoded(c, Base64Url))[5..] == Encoded(c, Base64Url);
  }

  // ---- the AAD ------------------------------------------------------------------------------------

  /** 65 bytes, or 73 with the time of creation: every field at its offset. */
  ghost predicate IsAadOf(s: seq<byte>, ctx: Context, digest: seq<byte>) {
    var c := if ctx.createdAtMs.Some? then 8 else 0;
    && |s| == 65 + c && s[..3] == [if ctx.createdAtMs.Some? then 1 else 2, 1, 1]
    && StoredAt(s, 3, 2, ctx.linkId) && s[21..53] == digest
    && (ctx.createdAtMs.Some? ==> 0 <= ctx.createdAtMs.value && NumberAt(s, 53, 8, ctx.createdAtMs.value))
    && 0 <= ctx.expiresAtMs && NumberAt(s, 53 + c, 8, ctx.expiresAtMs)
    && NumberAt(s, 61 + c, 4, ctx.maxOpens % 0x1_0000_0000)
  }

  lemma AadLayout(hash: seq<byte> -> seq<byte>, ctx: Context)
    requires Valid(ctx) && |hash(RecipientKey(ctx))| == 32
    ensures IsAadOf(AadBytes(hash, ctx), ctx, hash(RecipientKey(ctx)))
  {
    hide BigEndian, FromBigEndian, RecipientKey, Pow2, Field, StoredAt, NumberAt, DecodePubkey;
    var s, digest, created := AadBytes(hash, ctx), hash(RecipientKey(ctx)), CreatedAtBytes(ctx);
    var link, expires, opens := Field(2, ctx.linkId), BigEndian(ctx.expiresAtMs, 8), BigEndian(Int32Bits(ctx.maxOpens), 4);
    InstantFits();
    FieldLength(2, ctx.linkId);
    Regrouped(Header(ctx), link, digest, created, expires, opens);
    assert s == Header(ctx) + link + digest + created + expires + opens;
    hide AadBytes;
    LinkIdField(s, Header(ctx), ctx.linkId, digest + created + expires + opens);
    CountStored(s, Header(ctx) + link + digest + created, ctx.expiresAtMs, 8, opens);
    CountStored(s, Header(ctx) + link + digest + created + expires, Int32Bits(ctx.maxOpens), 4, []);
    if ctx.createdAtMs.Some? {
      CountStored(s, Header(ctx) + link + digest, ctx.createdAtMs.value, 8, expires + opens);
    }
  }

  lemma FieldLength(w: nat, x: seq<byte>)
    ensures |Field(w, x)| == w + |x|
  {
  }

  lemma Regrouped(a: seq<byte>, b: seq<byte>, c: seq<byte>, d: seq<byte>, e: seq<byte>, f: seq<byte>)
    ensures var s := a + b + c + d + e + f;
            && s == a + (b + (c + d + e + f)) && s == a + b + c + (d + (e + f)) && s == a + b + c + d + (e + f)
            && s == a + b + c + d + e + (f + []) && s[..|a|] == a && s[|a| + |b|..|a| + |b| + |c|] == c
  {
  }

  lemma LinkIdField(s: seq<byte>, head: seq<byte>, linkId: seq<byte>, rest: seq<byte>)
    requires |head| == 3 && |linkId| == 16 && s == head + (Field(2, linkId) + rest)
    ensures StoredAt(s, 3, 2, linkId)
  {
    FieldWidths();
    FieldStored(s, head, 2, linkId, rest);
  }

  lemma Reads(v: nat, w: nat)
    requires v < Pow2(8 * w)
    ensures FromBigEndian(BigEndian(v, w)) == v
  {
    ReadAfterWrite(v, w);
    QuotientAndRemainder(v, Pow2(8 * w), 0, v);
  }

  lemma FieldAt(s: seq<byte>, off: nat, w: nat, x: seq<byte>)
    requires off + w + |x| <= |s| && s[off..off + w + |x|] == Field(w, x)
    ensures s[off..off + w] == BigEndian(|x|, w) && s[off + w..off + w + |x|] == x
  {
    hide BigEndian;
    assert s[off..off + w] == s[off..off + w + |x|][..w];
    assert s[off + w..off + w + |x|] == s[off..off + w + |x|][w..];
  }

  /** A context is refused exactly for one of its fields, and the error names one that is wrong. */
  lemma AadGuards(ctx: Context)
    ensures Valid(ctx) <==>
            && (ctx.createdAtMs.Some? ==> 0 <= ctx.createdAtMs.value < ctx.expiresAtMs)
            && 1 <= ctx.expiresAtMs < 0x20_0000_0000_0000 && (ctx.maxOpens >= 1 || ctx.maxOpens == -1)
            && |ctx.linkId| == 16 && DecodePubkey(ctx.recipientPublicKey).Ok?
    ensures match FirstAadError(ctx)
            case None => true
            case Some(BadCreatedAt) =>
              ctx.createdAtMs.Some? && (ctx.createdAtMs.value < 0 || ctx.createdAtMs.value >= 0x20_0000_0000_0000)
            case Some(BadExpiresAt) => ctx.expiresAtMs < 0 || ctx.expiresAtMs >= 0x20_0000_0000_0000
            case Some(BadMaxOpens) => ctx.maxOpens == 0 || ctx.maxOpens < -1
            case Some(ExpiryNotAfterCreation) => ctx.createdAtMs.Some? && ctx.expiresAtMs <= ctx.createdAtMs.value
            case Some(ExpiryNotPositive) => ctx.createdAtMs.None? && ctx.expiresAtMs <= 0
            case Some(BadLinkIdLength) => |ctx.linkId| != 16
            case Some(BadRecipient(e)) => DecodePubkey(ctx.recipientPublicKey) == Err(e)
  {
    hide DecodePubkey;
  }

  /** A key that does not match its context is refused before the context is looked at, and then the context's own error. */
  lemma SealErrors(hash: seq<byte> -> seq<byte>, log: HpkeLog, b: Blob, plaintext: seq<byte>, raw: seq<byte>, ctx: Context)
    ensures var r, key := SealMessage(hash, log, b, plaintext, raw, ctx), DecodePubkey(ctx.recipientPublicKey);
            && (key.Err? ==> r == Err(BadContextKey(key.error)))
            && (key.Ok? && key.value.rawKey != raw ==> r == Err(RecipientMismatch))
            && (key.Ok? && key.value.rawKey == raw && !Valid(ctx) ==> r == Err(BadContext(FirstAadError(ctx).value)))
  {
    hide DecodePubkey, AadBytes;
  }

  /** A blob that does not parse is too short, or else of another version, or else of another suite. */
  lemma BlobErrors(blob: seq<byte>, b: Blob)
    ensures DecodeCiphertextBlob(blob) == Err(TooShort) <==> |blob| < 34
    ensures DecodeCiphertextBlob(blob) == Err(BadVersion) <==> |blob| >= 34 && blob[0] != 1
    ensures DecodeCiphertextBlob(blob) == Err(BadSuite) <==> |blob| >= 34 && blob[0] == 1 && blob[1] != 1
    ensures |b.enc| != 32 ==> EncodeCiphertextBlob(b) == Err(BadKeyLength)
  {
  }

  /** The blob: version, suite, the encapsulated key, and the rest. */
  lemma BlobLayout(b: Blob, s: seq<byte>)
    requires EncodeCiphertextBlob(b) == Ok(s)
    ensures |b.enc| == 32 && s[..2] == [1, 1] && s[2..34] == b.enc && s[34..] == b.aeadOutput
  {
  }

  // ---- the payload --------------------------------------------------------------------------------

  /** The number stored in `w` bytes at `off`. */
  ghost predicate NumberAt(s: seq<byte>, off: nat, w: nat, n: nat) {
    off + w <= |s| && FromBigEndian(s[off..off + w]) == n
  }

  /** A length on `w` bytes and the bytes behind it. */
  ghost predicate StoredAt(s: seq<byte>, off: nat, w: nat, x: seq<byte>) {
    NumberAt(s, off, w, |x|) && off + w + |x| <= |s| && s[off + w..off + w + |x|] == x
  }

  function AttachmentEnd(off: nat, a: Attachment): nat {
    off + 2 + |a.filename| + 2 + |a.mimetype| + 4 + |a.content|
  }

  /** Name, then mimetype, then content. */
  ghost predicate AttachmentAt(s: seq<byte>, off: nat, a: Attachment) {
    && StoredAt(s, off, 2, a.filename)
    && StoredAt(s, off + 2 + |a.filename|, 2, a.mimetype)
    && StoredAt(s, off + 2 + |a.filename| + 2 + |a.mimetype|, 4, a.content)
  }

  function AttachmentsEnd(off: nat, list: seq<Attachment>): nat
    decreases list
  {
    if list == [] then off else AttachmentsEnd(AttachmentEnd(off, list[0]), list[1..])
  }

  ghost predicate AttachmentsAt(s: seq<byte>, off: nat, list: seq<Attachment>)
    decreases list
  {
    list == [] || (AttachmentAt(s, off, list[0]) && AttachmentsAt(s, AttachmentEnd(off, list[0]), list[1..]))
  }

  lemma FieldStored(s: seq<byte>, head: seq<byte>, w: nat, x: seq<byte>, rest: seq<byte>)
    requires s == head + (Field(w, x) + rest) && |x| < Pow2(8 * w)
    ensures StoredAt(s, |head|, w, x) && |Field(w, x)| == w + |x|
  {
    Reads(|x|, w);
    hide BigEndian, FromBigEndian, Pow2;
    assert s[|head|..|head| + w + |x|] == Field(w, x);
    FieldAt(s, |head|, w, x);
  }

  lemma AttachmentStored(s: seq<byte>, head: seq<byte>, a: Attachment, rest: seq<byte>)
    requires s == head + (AttachmentBytes(a) + rest) && FitsAttachment(a)
    ensures AttachmentAt(s, |head|, a) && |AttachmentBytes(a)| == AttachmentEnd(0, a)
  {
    FieldWidths();
    hide Field, BigEndian, FromBigEndian, Pow2, StoredAt;
    var f1, f2, f3 := Field(2, a.filename), Field(2, a.mimetype), Field(4, a.content);
    assert s == head + (f1 + (f2 + f3 + rest));
    FieldStored(s, head, 2, a.filename, f2 + f3 + rest);
    assert s == head + f1 + (f2 + (f3 + rest));
    FieldStored(s, head + f1, 2, a.mimetype, f3 + rest);
    assert s == head + f1 + f2 + (f3 + rest);
    FieldStored(s, head + f1 + f2, 4, a.content, rest);
  }

  lemma {:induction false} AttachmentsStored(s: seq<byte>, head: seq<byte>, list: seq<Attachment>, rest: seq<byte>)
    requires s == head + (AttachmentsBytes(list) + rest) && AllFit(list)
    ensures AttachmentsAt(s, |head|, list) && |head| + |AttachmentsBytes(list)| == AttachmentsEnd(|head|, list)
    decreases list
  {
    hide AttachmentBytes, AttachmentAt, FitsAttachment;
    if list != [] {
      var a, more := list[0], list[1..];
      var one, others := AttachmentBytes(a), AttachmentsBytes(more);
      assert AttachmentsBytes(list) == one + others;
      assert one + others + rest == one + (others + rest);
      AttachmentStored(s, head, a, others + rest);
      assert s == head + one + (others + rest);
      AttachmentsStored(s, head + one, more, rest);
    }
  }

  /**
   * The frame by offsets: the version, the text, the number of attachments, each of them, then the pad length and nothing
   * but zeros up to the padded length.
   */
  ghost predicate IsFrameOf(f: seq<byte>, p: Payload) {
    var n := |p.text|;
    var end := AttachmentsEnd(7 + n, p.attachments);
    && |f| == Padding.Padded(end + 4) && |f| >= end + 4 && f[0] == 2
    && StoredAt(f, 1, 4, p.text) && NumberAt(f, 5 + n, 2, |p.attachments|)
    && AttachmentsAt(f, 7 + n, p.attachments)
    && NumberAt(f, end, 4, |f| - end - 4) && forall i :: end + 4 <= i < |f| ==> f[i] == 0
  }

  lemma FrameLayout(p: Payload)
    requires Encodable(p) && PadLen(p) <= U32_MAX
    ensures IsFrameOf(Frame(p), p)
  {
    hide AttachmentsBytes, Pow2, Padding.Padded, AttachmentsAt, Field, BigEndian, FromBigEndian, PadLen, StoredAt, NumberAt;
    FieldWidths();
    FieldLength(4, p.text);
    FrameInPieces(p);
    hide Frame, MinLen;
    var pad := PadLen(p);
    var text, count, list := Field(4, p.text), BigEndian(|p.attachments|, 2), AttachmentsBytes(p.attachments);
    FramePieces(Frame(p), p, [2] + text, count, list, pad);
  }

  lemma FrameInPieces(p: Payload)
    ensures Frame(p) == [2] + Field(4, p.text) + BigEndian(|p.attachments|, 2) + AttachmentsBytes(p.attachments)
                        + (BigEndian(PadLen(p), 4) + Zeros(PadLen(p)))
    ensures |Frame(p)| == Padding.Padded(|[2] + Field(4, p.text) + BigEndian(|p.attachments|, 2)
                                          + AttachmentsBytes(p.attachments)| + 4)
  {
    hide AttachmentsBytes, BigEndian, Padding.Padded;
    var head := [2] + Field(4, p.text) + BigEndian(|p.attachments|, 2) + AttachmentsBytes(p.attachments);
    assert Body(PAYLOAD_VERSION, p) == head;
  }

  lemma FramePieces(f: seq<byte>, p: Payload, text: seq<byte>, count: seq<byte>, list: seq<byte>, pad: nat)
    requires Encodable(p) && pad <= U32_MAX && text == [2] + Field(4, p.text) && |text| == 5 + |p.text|
    requires count == BigEndian(|p.attachments|, 2) && list == AttachmentsBytes(p.attachments)
    requires f == text + count + list + (BigEndian(pad, 4) + Zeros(pad))
    requires |f| == Padding.Padded(|text + count + list| + 4)
    ensures IsFrameOf(f, p)
  {
    hide AttachmentsBytes, Pow2, Padding.Padded, AttachmentsAt, Field, BigEndian, FromBigEndian, PadLen, StoredAt, NumberAt;
    FieldWidths();
    var trailer := BigEndian(pad, 4) + Zeros(pad);
    assert f == text + (count + list + trailer) && f == text + (count + (list + trailer));
    assert f == text + count + (list + trailer) && f == text + count + list + BigEndian(pad, 4) + Zeros(pad);
    TextStored(f, p.text, count + list + trailer);
    CountStored(f, text, |p.attachments|, 2, list + trailer);
    AttachmentsStored(f, text + count, p.attachments, trailer);
    CountStored(f, text + count + list, pad, 4, Zeros(pad));
    ZerosAtEnd(f, text + count + list + BigEndian(pad, 4), pad);
  }

  lemma TextStored(f: seq<byte>, text: seq<byte>, rest: seq<byte>)
    requires f == [2] + Field(4, text) + rest && |text| <= U32_MAX
    ensures StoredAt(f, 1, 4, text) && f[0] == 2
  {
    FieldWidths();
    assert f == [2] + (Field(4, text) + rest);
    FieldStored(f, [2], 4, text, rest);
  }

  lemma CountStored(f: seq<byte>, head: seq<byte>, n: nat, w: nat, rest: seq<byte>)
    requires f == head + (BigEndian(n, w) + rest) && n < Pow2(8 * w)
    ensures NumberAt(f, |head|, w, n)
  {
    Reads(n, w);
    hide BigEndian, FromBigEndian, Pow2;
    assert f[|head|..|head| + w] == BigEndian(n, w);
  }

  lemma ZerosAtEnd(f: seq<byte>, head: seq<byte>, n: nat)
    requires f == head + Zeros(n)
    ensures forall i :: |head| <= i < |f| ==> f[i] == 0
  {
  }

  /** The reason is the first length in the order of the text, the number of attachments, and each attachment's fields. */
  lemma EncodeErrors(p: Payload)
    ensures PayloadCodec.FirstError(p) == Some(TextTooLong) <==> |p.text| > 0xffff_ffff
    ensures PayloadCodec.FirstError(p) == Some(TooManyAttachments) <==> |p.text| <= 0xffff_ffff && |p.attachments| > 0xffff
    ensures PayloadCodec.FirstError(p) == Some(PadOutOfRange) <==> Encodable(p) && PadLen(p) > 0xffff_ffff
    ensures forall i :: 0 <= i < |p.attachments| && FirstUnfit(p, i) ==>
              var a := p.attachments[i];
              PayloadCodec.FirstError(p)
              == Some(if |a.filename| > 0xffff then FilenameTooLong else if |a.mimetype| > 0xffff then MimetypeTooLong
                      else AttachmentTooLong)
  {
    hide PadLen;
    PayloadCodec.NoAttachmentError(p.attachments);
    NotTheOthers(p.attachments);
    forall i | 0 <= i < |p.attachments| && FirstUnfit(p, i)
      ensures PayloadCodec.FirstAttachmentError(p.attachments) == PayloadCodec.AttachmentError(p.attachments[i])
    {
      FirstOne(p.attachments, i);
    }
  }

  /** Everything before attachment `i` fits, and that one does not. */
  ghost predicate FirstUnfit(p: Payload, i: nat)
    requires i < |p.attachments|
  {
    && |p.text| <= U32_MAX && |p.attachments| <= U16_MAX
    && AllFit(p.attachments[..i]) && !FitsAttachment(p.attachments[i])
  }

  lemma {:induction false} FirstOne(list: seq<Attachment>, i: nat)
    requires i < |list| && AllFit(list[..i]) && !FitsAttachment(list[i])
    ensures PayloadCodec.FirstAttachmentError(list) == PayloadCodec.AttachmentError(list[i])
  {
    if i > 0 {
      assert FitsAttachment(list[..i][0]);
      assert AllFit(list[1..][..i - 1]) by {
        var before := list[1..][..i - 1];
        forall j | 0 <= j < |before| ensures FitsAttachment(before[j]) {
          assert list[..i][j + 1] == before[j];
        }
      }
      FirstOne(list[1..], i - 1);
    }
  }

  lemma {:induction false} NotTheOthers(list: seq<Attachment>)
    ensures var e := PayloadCodec.FirstAttachmentError(list);
            e != Some(TextTooLong) && e != Some(TooManyAttachments) && e != Some(PadOutOfRange)
  {
    if list != [] {
      NotTheOthers(list[1..]);
    }
  }

  // ---- what a strict parse rejects ----------------------------------------------------------------

  /** The parse came as far as the end of the attachments. */
  lemma BodyUpToEnd(s: seq<byte>, hasPadTrailer: bool)
    requires ParseBody(s, hasPadTrailer) == Err(TrailingBytes)
    ensures exists p, tail :: Encodable(p) && s == Content(p) + tail && Finish(tail, hasPadTrailer, p) == Err(TrailingBytes)
  {
    hide TakeField, Field, TakeAttachments, AttachmentsBytes, FitsAttachment, Finish;
    FieldWidths();
    var (text, s1) := TakeField(s, 4).value;
    FieldWroteWhatTakes(s, 4);
    WriteAfterRead(s1[..2]);
    var (list, tail) := TakeAttachments(s1[2..], FromBigEndian(s1[..2])).value;
    AttachmentsWroteWhatTakes(s1[2..], FromBigEndian(s1[..2]));
    var p := Payload(text, list);
    AppendFour(Field(4, text), BigEndian(|list|, 2), AttachmentsBytes(list), tail);
    assert s1 == s1[..2] + s1[2..];
    assert s == Content(p) + tail;
  }

  lemma TrailingHasLayout(bytes: seq<byte>)
    requires ParseStrict(bytes) == Err(TrailingBytes)
    ensures exists p, k :: 0 <= k < |bytes| && Layout(bytes[..k], p)
  {
    hide ParseBody, Field, Content, Encodable, TakeField, Finish;
    var padded := bytes[0] == PAYLOAD_VERSION;
    BodyUpToEnd(bytes[1..], padded);
    var p, tail :| Encodable(p) && bytes[1..] == Content(p) + tail && Finish(tail, padded, p) == Err(TrailingBytes);
    var body := Body(bytes[0], p);
    assert bytes == [bytes[0]] + bytes[1..] == body + tail;
    EndsBefore(tail, padded, p);
    if padded {
      var pad: seq<byte>, end :| |pad| <= U32_MAX && end != [] && tail == Field(4, pad) + end;
      PrefixLayout(bytes, body, Field(4, pad), end);
      assert Layout(bytes[..|body + Field(4, pad)|], p);
    } else {
      PrefixLayout(bytes, body, [], tail);
      assert bytes[..|body|] == body;
      assert Layout(bytes[..|body|], p);
    }
  }

  /** What is left over lies behind the trailer that is due. */
  lemma EndsBefore(tail: seq<byte>, hasPadTrailer: bool, p: Payload)
    requires Finish(tail, hasPadTrailer, p) == Err(TrailingBytes)
    ensures if hasPadTrailer then exists pad: seq<byte>, end :: |pad| <= U32_MAX && end != [] && tail == Field(4, pad) + end
            else tail != []
  {
    FieldWidths();
    if hasPadTrailer {
      FieldWroteWhatTakes(tail, 4);
    }
    hide Field;
  }

  lemma PrefixLayout(bytes: seq<byte>, body: seq<byte>, pad: seq<byte>, end: seq<byte>)
    requires bytes == body + (pad + end) && end != []
    ensures |body + pad| < |bytes| && bytes[..|body + pad|] == body + pad
  {
  }

  lemma OldAndMore(p: Payload, more: seq<byte>)
    requires Encodable(p) && more != []
    ensures ParseStrict(Body(PAYLOAD_VERSION_V1, p) + more) == Err(TrailingBytes)
  {
    hide ParseBody, Content, TakeField, Encodable;
    ParseBodyOf(p, more, false);
    assert (Body(PAYLOAD_VERSION_V1, p) + more)[1..] == Content(p) + more;
  }

  lemma PaddedAndMore(p: Payload, pad: seq<byte>, more: seq<byte>)
    requires Encodable(p) && |pad| <= U32_MAX && more != []
    ensures ParseStrict(Body(PAYLOAD_VERSION, p) + Field(4, pad) + more) == Err(TrailingBytes)
  {
    hide ParseBody, Content, TakeField, Encodable, Field;
    var tail := Field(4, pad) + more;
    ParseBodyOf(p, tail, true);
    FieldWidths();
    TakeWhatFieldWrote(4, pad, more);
    assert (Body(PAYLOAD_VERSION, p) + Field(4, pad) + more)[1..] == Content(p) + tail;
  }

  lemma LayoutAndMore(bytes: seq<byte>, p: Payload, k: nat)
    requires k < |bytes| && Layout(bytes[..k], p)
    ensures ParseStrict(bytes) == Err(TrailingBytes)
  {
    var more := bytes[k..];
    assert bytes == bytes[..k] + more && more != [];
    hide ParseStrict, Encodable, Body, Field;
    if bytes[..k] == Body(PAYLOAD_VERSION_V1, p) {
      OldAndMore(p, more);
    } else {
      var pad: seq<byte> :| |pad| <= U32_MAX && bytes[..k] == Body(PAYLOAD_VERSION, p) + Field(4, pad);
      PaddedAndMore(p, pad, more);
    }
  }

  /**
   * What is rejected is told apart exactly: no known version, a valid payload with something behind it, or else an input that
   * breaks off.
   */
  lemma ParseErrors(bytes: seq<byte>)
    ensures ParseStrict(bytes) == Err(DecodeError.UnknownVersion) <==> bytes == [] || (bytes[0] != 1 && bytes[0] != 2)
    ensures ParseStrict(bytes) == Err(TrailingBytes) <==> exists p, k :: 0 <= k < |bytes| && Layout(bytes[..k], p)
  {
    if ParseStrict(bytes) == Err(TrailingBytes) {
      TrailingHasLayout(bytes);
    }
    if p, k :| 0 <= k < |bytes| && Layout(bytes[..k], p) {
      LayoutAndMore(bytes, p, k);
    }
    hide TakeField, TakeAttachments, Layout;
  }
}
