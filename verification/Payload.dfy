/**
 * The plaintext envelope of `payload.ts`: its layout, the frames the encoder emits, and what a strict parse
 * accepts. Text, names and mimetypes are byte strings here; the UTF-8 layer is not modelled.
 */
module Payload {
  import opened Bytes
  import Padding

  const PAYLOAD_VERSION: byte := 2
  const PAYLOAD_VERSION_V1: byte := 1
  const PAD_LEN_FIELD_BYTES: nat := 4

  datatype Attachment = Attachment(filename: seq<byte>, mimetype: seq<byte>, content: seq<byte>)

  datatype Payload = Payload(text: seq<byte>, attachments: seq<Attachment>)

  datatype EncodeError =
    | TextTooLong
    | TooManyAttachments
    | FilenameTooLong
    | MimetypeTooLong
    | AttachmentTooLong
    | PadOutOfRange

  datatype DecodeError = UnknownVersion | Truncated | TrailingBytes

  // ---- layout -------------------------------------------------------------------------------------

  /** A length on `w` bytes followed by that many bytes. */
  function Field(w: nat, s: seq<byte>): seq<byte> {
    BigEndian(|s|, w) + s
  }

  function AttachmentBytes(a: Attachment): seq<byte> {
    Field(2, a.filename) + Field(2, a.mimetype) + Field(4, a.content)
  }

  function AttachmentsBytes(list: seq<Attachment>): seq<byte> {
    if list == [] then [] else AttachmentBytes(list[0]) + AttachmentsBytes(list[1..])
  }

  /** Everything between the version byte and the pad trailer. */
  function Content(p: Payload): seq<byte> {
    Field(4, p.text) + BigEndian(|p.attachments|, 2) + AttachmentsBytes(p.attachments)
  }

  function Body(version: byte, p: Payload): seq<byte> {
    [version] + Content(p)
  }

  predicate FitsAttachment(a: Attachment) {
    |a.filename| <= U16_MAX && |a.mimetype| <= U16_MAX && |a.content| <= U32_MAX
  }

  /** The length fields can hold every length. */
  predicate Encodable(p: Payload) {
    && |p.text| <= U32_MAX
    && |p.attachments| <= U16_MAX
    && forall i :: 0 <= i < |p.attachments| ==> FitsAttachment(p.attachments[i])
  }

  /** The documented layout: a version-1 body, or a version-2 body with any pad bytes behind it. */
  ghost predicate Layout(bytes: seq<byte>, p: Payload) {
    && Encodable(p)
    && (|| bytes == Body(PAYLOAD_VERSION_V1, p)
        || exists pad: seq<byte> :: |pad| <= U32_MAX && bytes == Body(PAYLOAD_VERSION, p) + Field(4, pad))
  }

  // ---- frames -------------------------------------------------------------------------------------

  function MinLen(p: Payload): nat {
    |Body(PAYLOAD_VERSION, p)| + PAD_LEN_FIELD_BYTES
  }

  function PadLen(p: Payload): nat {
    Padding.NeverShorter(MinLen(p));
    Padding.Padded(MinLen(p)) - MinLen(p)
  }

  function Frame(p: Payload): (f: seq<byte>)
    ensures |f| == Padding.Padded(MinLen(p))
  {
    Padding.NeverShorter(MinLen(p));
    Body(PAYLOAD_VERSION, p) + Field(4, Zeros(PadLen(p)))
  }

  // ---- strict parse -------------------------------------------------------------------------------

  /** A length-prefixed field and the bytes behind it; `None` where the source runs out of input. */
  function TakeField(s: seq<byte>, w: nat): Option<(seq<byte>, seq<byte>)> {
    if |s| < w then None
    else
      var n := FromBigEndian(s[..w]);
      if |s| < w + n then None else Some((s[w..w + n], s[w + n..]))
  }

  function TakeAttachment(s: seq<byte>): Option<(Attachment, seq<byte>)> {
    match TakeField(s, 2)
    case None => None
    case Some((name, s1)) =>
      match TakeField(s1, 2)
      case None => None
      case Some((mime, s2)) =>
        match TakeField(s2, 4)
        case None => None
        case Some((content, s3)) => Some((Attachment(name, mime, content), s3))
  }

  function TakeAttachments(s: seq<byte>, n: nat): Option<(seq<Attachment>, seq<byte>)>
    decreases n
  {
    if n == 0 then Some(([], s))
    else
      match TakeAttachment(s)
      case None => None
      case Some((a, rest)) => Prepend([a], TakeAttachments(rest, n - 1))
  }

  function Prepend(done: seq<Attachment>, r: Option<(seq<Attachment>, seq<byte>)>)
    : Option<(seq<Attachment>, seq<byte>)>
  {
    match r
    case None => None
    case Some((list, rest)) => Some((done + list, rest))
  }

  /** What is left after the attachments must be nothing, or exactly one field when a trailer is due. */
  function Finish(rest: seq<byte>, hasPadTrailer: bool, p: Payload): Result<Payload, DecodeError> {
    if !hasPadTrailer then if rest == [] then Ok(p) else Err(TrailingBytes)
    else
      match TakeField(rest, 4)
      case None => Err(Truncated)
      case Some((pad, end)) => if end == [] then Ok(p) else Err(TrailingBytes)
  }

  function ParseBody(s: seq<byte>, hasPadTrailer: bool): Result<Payload, DecodeError> {
    match TakeField(s, 4)
    case None => Err(Truncated)
    case Some((text, s1)) =>
      if |s1| < 2 then Err(Truncated)
      else
        match TakeAttachments(s1[2..], FromBigEndian(s1[..2]))
        case None => Err(Truncated)
        case Some((list, rest)) => Finish(rest, hasPadTrailer, Payload(text, list))
  }

  function ParseStrict(bytes: seq<byte>): Result<Payload, DecodeError> {
    if bytes == [] || (bytes[0] != PAYLOAD_VERSION && bytes[0] != PAYLOAD_VERSION_V1) then Err(UnknownVersion)
    else ParseBody(bytes[1..], bytes[0] == PAYLOAD_VERSION)
  }

  /** The public entry point: a legacy message is raw text. */
  function Parse(bytes: seq<byte>): Payload {
    match ParseStrict(bytes)
    case Ok(p) => p
    case Err(_) => Payload(bytes, [])
  }

  // ---- the parse is exactly the layout ------------------------------------------------------------

  lemma FieldWidths()
    ensures Pow2(16) == U16_MAX + 1 && Pow2(32) == U32_MAX + 1
  {
    assert Pow2(8) == 256;
    hide Pow2;
    Pow2Add(8, 8);
    Pow2Add(16, 16);
  }

  lemma SliceField(head: seq<byte>, x: seq<byte>, rest: seq<byte>)
    ensures var s := head + x + rest;
            s[..|head|] == head && s[|head|..|head| + |x|] == x && s[|head| + |x|..] == rest
  {
  }

  lemma TakeWhatFieldWrote(w: nat, x: seq<byte>, rest: seq<byte>)
    requires |x| < Pow2(8 * w)
    ensures TakeField(Field(w, x) + rest, w) == Some((x, rest))
  {
    var s, n := Field(w, x) + rest, |x|;
    ReadAfterWrite(n, w);
    QuotientAndRemainder(n, Pow2(8 * w), 0, n);
    SliceField(BigEndian(n, w), x, rest);
  }

  lemma FieldWroteWhatTakes(s: seq<byte>, w: nat)
    requires TakeField(s, w).Some?
    ensures var (x, rest) := TakeField(s, w).value; |x| < Pow2(8 * w) && s == Field(w, x) + rest
  {
    WriteAfterRead(s[..w]);
    var n := FromBigEndian(s[..w]);
    assert s == s[..w] + s[w..w + n] + s[w + n..];
  }

  lemma TakeWhatAttachmentWrote(a: Attachment, rest: seq<byte>)
    requires FitsAttachment(a)
    ensures TakeAttachment(AttachmentBytes(a) + rest) == Some((a, rest))
  {
    hide TakeField, Field;
    FieldWidths();
    var f1, f2, f3 := Field(2, a.filename), Field(2, a.mimetype), Field(4, a.content);
    assert AttachmentBytes(a) + rest == f1 + (f2 + (f3 + rest));
    TakeWhatFieldWrote(2, a.filename, f2 + (f3 + rest));
    TakeWhatFieldWrote(2, a.mimetype, f3 + rest);
    TakeWhatFieldWrote(4, a.content, rest);
  }

  lemma AttachmentWroteWhatTakes(s: seq<byte>)
    requires TakeAttachment(s).Some?
    ensures var (a, rest) := TakeAttachment(s).value; FitsAttachment(a) && s == AttachmentBytes(a) + rest
  {
    hide TakeField, Field;
    FieldWidths();
    var (name, s1) := TakeField(s, 2).value;
    var (mime, s2) := TakeField(s1, 2).value;
    var (content, s3) := TakeField(s2, 4).value;
    FieldWroteWhatTakes(s, 2);
    FieldWroteWhatTakes(s1, 2);
    FieldWroteWhatTakes(s2, 4);
    assert Field(2, name) + (Field(2, mime) + (Field(4, content) + s3))
        == Field(2, name) + Field(2, mime) + Field(4, content) + s3;
  }

  predicate AllFit(list: seq<Attachment>) {
    forall i :: 0 <= i < |list| ==> FitsAttachment(list[i])
  }

  lemma {:induction false} TakeWhatAttachmentsWrote(list: seq<Attachment>, rest: seq<byte>)
    requires AllFit(list)
    ensures TakeAttachments(AttachmentsBytes(list) + rest, |list|) == Some((list, rest))
  {
    hide TakeAttachment, AttachmentBytes;
    if list == [] {
      assert [] + rest == rest;
    } else {
      var a, more := list[0], list[1..];
      assert AttachmentsBytes(list) + rest == AttachmentBytes(a) + (AttachmentsBytes(more) + rest);
      TakeWhatAttachmentWrote(a, AttachmentsBytes(more) + rest);
      TakeWhatAttachmentsWrote(more, rest);
      assert list == [a] + more;
    }
  }

  lemma {:induction false} AttachmentsWroteWhatTakes(s: seq<byte>, n: nat)
    requires TakeAttachments(s, n).Some?
    ensures var (list, rest) := TakeAttachments(s, n).value;
            |list| == n && AllFit(list) && s == AttachmentsBytes(list) + rest
    decreases n
  {
    hide TakeAttachment, AttachmentBytes, FitsAttachment;
    if n == 0 {
    } else {
      var (a, more) := TakeAttachment(s).value;
      var (list, rest) := TakeAttachments(more, n - 1).value;
      AttachmentWroteWhatTakes(s);
      AttachmentsWroteWhatTakes(more, n - 1);
      assert ([a] + list)[1..] == list;
      assert AttachmentBytes(a) + (AttachmentsBytes(list) + rest) == AttachmentBytes(a) + AttachmentsBytes(list) + rest;
    }
  }

  lemma AppendFour(a: seq<byte>, b: seq<byte>, c: seq<byte>, d: seq<byte>)
    ensures a + (b + (c + d)) == a + b + c + d
  {
  }

  lemma ContentInPieces(p: Payload, tail: seq<byte>)
    ensures Content(p) + tail
         == Field(4, p.text) + (BigEndian(|p.attachments|, 2) + (AttachmentsBytes(p.attachments) + tail))
  {
    hide Field, AttachmentsBytes, BigEndian;
    AppendFour(Field(4, p.text), BigEndian(|p.attachments|, 2), AttachmentsBytes(p.attachments), tail);
  }

  lemma CountReads(n: nat, rest: seq<byte>)
    requires n <= U16_MAX
    ensures var s := BigEndian(n, 2) + rest; FromBigEndian(s[..2]) == n && s[2..] == rest
  {
    hide BigEndian, FromBigEndian, Pow2;
    FieldWidths();
    ReadAfterWrite(n, 2);
    QuotientAndRemainder(n, U16_MAX + 1, 0, n);
    assert (BigEndian(n, 2) + rest)[..2] == BigEndian(n, 2);
  }

  lemma ParseBodyOf(p: Payload, tail: seq<byte>, hasPadTrailer: bool)
    requires Encodable(p)
    ensures ParseBody(Content(p) + tail, hasPadTrailer) == Finish(tail, hasPadTrailer, p)
  {
    hide TakeField, Field, TakeAttachments, AttachmentsBytes, Finish, Content, BigEndian, FromBigEndian, FitsAttachment;
    FieldWidths();
    ContentInPieces(p, tail);
    var s2 := AttachmentsBytes(p.attachments) + tail;
    TakeWhatFieldWrote(4, p.text, BigEndian(|p.attachments|, 2) + s2);
    CountReads(|p.attachments|, s2);
    TakeWhatAttachmentsWrote(p.attachments, tail);
  }

  lemma BodyOfParse(s: seq<byte>, hasPadTrailer: bool)
    requires ParseBody(s, hasPadTrailer).Ok?
    ensures var p := ParseBody(s, hasPadTrailer).value;
            Encodable(p) && exists tail :: s == Content(p) + tail && Finish(tail, hasPadTrailer, p) == Ok(p)
  {
    hide TakeField, Field, TakeAttachments, AttachmentsBytes, FitsAttachment;
    FieldWidths();
    var (text, s1) := TakeField(s, 4).value;
    FieldWroteWhatTakes(s, 4);
    WriteAfterRead(s1[..2]);
    var (list, tail) := TakeAttachments(s1[2..], FromBigEndian(s1[..2])).value;
    AttachmentsWroteWhatTakes(s1[2..], FromBigEndian(s1[..2]));
    var p := Payload(text, list);
    AppendFour(Field(4, text), BigEndian(|list|, 2), AttachmentsBytes(list), tail);
    assert s1 == s1[..2] + s1[2..];
    assert s == Content(p) + tail;
  }

  lemma FinishedBy(tail: seq<byte>, hasPadTrailer: bool, p: Payload)
    ensures Finish(tail, hasPadTrailer, p) == Ok(p) <==>
            if hasPadTrailer then exists pad: seq<byte> :: |pad| <= U32_MAX && tail == Field(4, pad) else tail == []
  {
    FieldWidths();
    if hasPadTrailer {
      if Finish(tail, hasPadTrailer, p) == Ok(p) {
        FieldWroteWhatTakes(tail, 4);
        var (pad, end) := TakeField(tail, 4).value;
        assert Field(4, pad) + [] == Field(4, pad);
        assert tail == Field(4, pad);
      }
      if pad: seq<byte> :| |pad| <= U32_MAX && tail == Field(4, pad) {
        TakeWhatFieldWrote(4, pad, []);
        assert Field(4, pad) + [] == Field(4, pad);
      }
    }
  }

  lemma LayoutParses(bytes: seq<byte>, p: Payload)
    requires Layout(bytes, p)
    ensures ParseStrict(bytes) == Ok(p)
  {
    hide ParseBody, Finish, Field, Content;
    var tail: seq<byte> := [];
    if bytes == Body(PAYLOAD_VERSION_V1, p) {
      assert bytes[1..] == Content(p) + tail;
      ParseBodyOf(p, tail, false);
      FinishedBy(tail, false, p);
    } else {
      var pad: seq<byte> :| |pad| <= U32_MAX && bytes == Body(PAYLOAD_VERSION, p) + Field(4, pad);
      tail := Field(4, pad);
      assert bytes[1..] == Content(p) + tail;
      ParseBodyOf(p, tail, true);
      FinishedBy(tail, true, p);
    }
  }

  lemma ParsedIsLayout(bytes: seq<byte>)
    requires ParseStrict(bytes).Ok?
    ensures Layout(bytes, ParseStrict(bytes).value)
  {
    hide ParseBody, Finish, Field, Content;
    var p, padded := ParseStrict(bytes).value, bytes[0] == PAYLOAD_VERSION;
    BodyOfParse(bytes[1..], padded);
    var tail :| bytes[1..] == Content(p) + tail && Finish(tail, padded, p) == Ok(p);
    FinishedBy(tail, padded, p);
    assert bytes == [bytes[0]] + bytes[1..];
    assert bytes == Body(bytes[0], p) + tail;
  }

  /** The strict parse accepts exactly the documented layout, and reads it in one way only. */
  lemma ParseIsExact(bytes: seq<byte>, p: Payload)
    ensures ParseStrict(bytes) == Ok(p) <==> Layout(bytes, p)
  {
    if Layout(bytes, p) {
      LayoutParses(bytes, p);
    } else if ParseStrict(bytes) == Ok(p) {
      ParsedIsLayout(bytes);
    }
  }

  /** What the encoder wrote, and the older encoding of the same payload, both parse back to it. */
  lemma RoundTrip(p: Payload)
    requires Encodable(p)
    ensures PadLen(p) <= U32_MAX ==> ParseStrict(Frame(p)) == Ok(p) && Parse(Frame(p)) == p
    ensures ParseStrict(Body(PAYLOAD_VERSION_V1, p)) == Ok(p)
  {
    LayoutParses(Body(PAYLOAD_VERSION_V1, p), p);
    if PadLen(p) <= U32_MAX {
      assert Layout(Frame(p), p);
      LayoutParses(Frame(p), p);
    }
  }

  /** The raw-text reading appears exactly when the strict parse rejects. */
  lemma FallbackIsExact(bytes: seq<byte>)
    ensures Parse(bytes) == Payload(bytes, []) <==> forall p :: !Layout(bytes, p)
  {
    forall p ensures Layout(bytes, p) ==> ParseStrict(bytes) == Ok(p) && |p.text| < |bytes| {
      if Layout(bytes, p) {
        LayoutParses(bytes, p);
      }
    }
    if ParseStrict(bytes).Ok? {
      ParsedIsLayout(bytes);
    }
  }

  // ---- length hiding ------------------------------------------------------------------------------

  /** A pad fits its length field for every frame below sixteen times the field's range. */
  lemma PadFits(p: Payload)
    requires MinLen(p) <= 16 * U32_MAX
    ensures PadLen(p) <= U32_MAX
  {
    if MinLen(p) > Padding.LARGEST_FIXED_BUCKET {
      Padding.OverheadIsSmall(MinLen(p));
    }
  }

  /**
   * Two payloads cannot be told apart by length exactly when each one's minimal length fits the frame of the other: a
   * bucket is an interval, and a frame is its upper end.
   */
  lemma SameBucketSameLength(p: Payload, q: Payload)
    ensures |Frame(p)| == |Frame(q)| <==> MinLen(q) <= |Frame(p)| && MinLen(p) <= |Frame(q)|
  {
    hide Padding.Padded, MinLen, Frame;
    var m, n := MinLen(p), MinLen(q);
    Padding.NeverShorter(m);
    Padding.NeverShorter(n);
    if n <= Padding.Padded(m) && m <= Padding.Padded(n) {
      Padding.Monotone(n, Padding.Padded(m));
      Padding.Monotone(m, Padding.Padded(n));
      Padding.Idempotent(m);
      Padding.Idempotent(n);
    }
  }

  /** Some payload has a frame of this length and a minimal length in (2^e, 2^(e+1)]. */
  ghost predicate Observable(m: nat, e: nat) {
    exists p: Payload :: Encodable(p) && Pow2(e) < MinLen(p) <= Pow2(e + 1) && |Frame(p)| == m
  }

  function TextOnly(n: nat): Payload {
    Payload(Zeros(n), [])
  }

  lemma TextOnlyLength(n: nat)
    ensures MinLen(TextOnly(n)) == n + 11
  {
  }

  /**
   * Whatever is sent, the store sees at most 2^S different frame lengths between 2^e and 2^(e+1), and 2^S is at most
   * twice the exponent; up to the range of a length field it sees all of them.
   */
  lemma FewObservableLengths(e: nat)
    requires e >= 12
    ensures var s := Pow2(Padding.MantissaBits(e));
            && |Padding.Steps(e, s)| == s && s <= 2 * e
            && (forall m :: Observable(m, e) ==> m in Padding.Steps(e, s))
            && (e <= 31 ==> forall m :: m in Padding.Steps(e, s) ==> Observable(m, e))
  {
    hide Padding.Padded, Frame, MinLen, TextOnly, Padding.Step, Padding.MantissaBits;
    Padding.FewVisibleLengths(e);
    forall m ensures Observable(m, e) ==> Padding.Visible(m, e) {
      if Observable(m, e) {
        var p: Payload :| Encodable(p) && Pow2(e) < MinLen(p) <= Pow2(e + 1) && |Frame(p)| == m;
      }
    }
    if e <= 31 {
      forall m ensures Padding.Visible(m, e) ==> Observable(m, e) {
        if Padding.Visible(m, e) {
          var n: nat :| Pow2(e) < n <= Pow2(e + 1) && Padding.Padded(n) == m;
          TextOnlyObserved(n, e);
        }
      }
    }
  }

  lemma TextOnlyObserved(n: nat, e: nat)
    requires 12 <= e <= 31 && Pow2(e) < n <= Pow2(e + 1)
    ensures Observable(Padding.Padded(n), e)
  {
    hide Padding.Padded, Frame, MinLen;
    Padding.PowersAboveBuckets(e);
    var p := TextOnly(n - 11);
    assert Encodable(p) by {
      FieldWidths();
      Pow2Monotone(e + 1, 32);
    }
    TextOnlyLength(n - 11);
    assert |Frame(p)| == Padding.Padded(MinLen(p));
  }
}
