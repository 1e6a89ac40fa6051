/** The buffer-filling encoder and the offset-advancing decoder of `payload.ts`, proved against `Payload`. */
module PayloadCodec {
  import opened Buffer
  import opened Bytes
  import opened Payload
  import Padding

  // ---- encoding -----------------------------------------------------------------------------------

  method WriteField(out: array<byte>, off: nat, w: nat, bytes: seq<byte>, ghost prefix: seq<byte>)
    returns (next: nat)
    requires Written(out, off, prefix) && off + w + |bytes| <= out.Length
    modifies out
    ensures next == off + w + |bytes| && Written(out, next, prefix + Field(w, bytes))
  {
    next := WriteUint(out, off, |bytes|, w, prefix);
    next := WriteBytes(out, next, bytes, prefix + BigEndian(|bytes|, w));
    assert prefix + BigEndian(|bytes|, w) + bytes == prefix + Field(w, bytes);
  }

  /** The first check of `encodePayload` that fails, in the order of the source. */
  function FirstError(p: Payload): Option<EncodeError> {
    if |p.text| > U32_MAX then Some(TextTooLong)
    else if |p.attachments| > U16_MAX then Some(TooManyAttachments)
    else
      match FirstAttachmentError(p.attachments)
      case Some(e) => Some(e)
      case None => if PadLen(p) > U32_MAX then Some(PadOutOfRange) else None
  }

  function AttachmentError(a: Attachment): Option<EncodeError> {
    if |a.filename| > U16_MAX then Some(FilenameTooLong)
    else if |a.mimetype| > U16_MAX then Some(MimetypeTooLong)
    else if |a.content| > U32_MAX then Some(AttachmentTooLong)
    else None
  }

  function FirstAttachmentError(list: seq<Attachment>): Option<EncodeError> {
    if list == [] then None
    else if AttachmentError(list[0]).Some? then AttachmentError(list[0])
    else FirstAttachmentError(list[1..])
  }

  lemma {:induction false} NoAttachmentError(list: seq<Attachment>)
    ensures FirstAttachmentError(list).None? <==> AllFit(list)
  {
    if list != [] {
      NoAttachmentError(list[1..]);
      assert AllFit(list) <==> FitsAttachment(list[0]) && AllFit(list[1..]) by {
        if FitsAttachment(list[0]) && AllFit(list[1..]) {
          forall i | 0 <= i < |list| ensures FitsAttachment(list[i]) {
            assert i > 0 ==> list[i] == list[1..][i - 1];
          }
        }
      }
    }
  }

  /** The encoder succeeds exactly on payloads whose lengths and pad length fit their fields. */
  lemma ErrorIsExact(p: Payload)
    ensures FirstError(p).None? <==> Encodable(p) && PadLen(p) <= U32_MAX
  {
    NoAttachmentError(p.attachments);
  }

  lemma {:induction false} AttachmentsSnoc(list: seq<Attachment>, i: nat)
    requires i < |list|
    ensures AttachmentsBytes(list[..i + 1]) == AttachmentsBytes(list[..i]) + AttachmentBytes(list[i])
    decreases i
  {
    hide AttachmentBytes;
    if i == 0 {
      assert list[..1][1..] == [] && list[..1] == [list[0]];
      assert AttachmentBytes(list[0]) + [] == AttachmentBytes(list[0]);
    } else {
      AttachmentsSnoc(list[1..], i - 1);
      assert list[..i + 1][1..] == list[1..][..i] && list[..i][1..] == list[1..][..i - 1];
    }
  }

  lemma {:induction false} PrefixLength(list: seq<Attachment>, i: nat)
    requires i <= |list|
    ensures |AttachmentsBytes(list[..i])| <= |AttachmentsBytes(list)|
    decreases |list| - i
  {
    if i == |list| {
      assert list[..i] == list;
    } else {
      AttachmentsSnoc(list, i);
      PrefixLength(list, i + 1);
    }
  }

  method CheckAttachments(list: seq<Attachment>) returns (e: Option<EncodeError>)
    ensures e == FirstAttachmentError(list)
  {
    for i := 0 to |list|
      invariant FirstAttachmentError(list) == FirstAttachmentError(list[i..])
    {
      assert list[i..][1..] == list[i + 1..];
      var problem := AttachmentError(list[i]);
      if problem.Some? {
        return problem;
      }
    }
    return None;
  }

  method BodyLength(p: Payload) returns (bodyLen: nat)
    ensures bodyLen == |Body(PAYLOAD_VERSION, p)|
  {
    bodyLen := 1 + 4 + |p.text| + 2;
    for i := 0 to |p.attachments|
      invariant bodyLen == 1 + 4 + |p.text| + 2 + |AttachmentsBytes(p.attachments[..i])|
    {
      var f := p.attachments[i];
      AttachmentsSnoc(p.attachments, i);
      bodyLen := bodyLen + 2 + |f.filename| + 2 + |f.mimetype| + 4 + |f.content|;
    }
    assert p.attachments[..|p.attachments|] == p.attachments;
  }

  lemma AttachmentPieces(a: Attachment)
    ensures AttachmentBytes(a) == Field(2, a.filename) + Field(2, a.mimetype) + Field(4, a.content)
    ensures |Field(2, a.filename)| == 2 + |a.filename|
    ensures |Field(2, a.mimetype)| == 2 + |a.mimetype| && |Field(4, a.content)| == 4 + |a.content|
  {
  }

  method WriteAttachment(out: array<byte>, off: nat, a: Attachment, ghost prefix: seq<byte>) returns (next: nat)
    requires Written(out, off, prefix) && off + |AttachmentBytes(a)| <= out.Length
    modifies out
    ensures next == off + |AttachmentBytes(a)| && Written(out, next, prefix + AttachmentBytes(a))
  {
    AttachmentPieces(a);
    hide Field, AttachmentBytes;
    next := WriteField(out, off, 2, a.filename, prefix);
    next := WriteField(out, next, 2, a.mimetype, prefix + Field(2, a.filename));
    next := WriteField(out, next, 4, a.content, prefix + Field(2, a.filename) + Field(2, a.mimetype));
    assert prefix + Field(2, a.filename) + Field(2, a.mimetype) + Field(4, a.content) == prefix + AttachmentBytes(a);
  }

  method WriteAttachments(out: array<byte>, off: nat, list: seq<Attachment>, ghost prefix: seq<byte>)
    returns (next: nat)
    requires Written(out, off, prefix) && off + |AttachmentsBytes(list)| <= out.Length
    modifies out
    ensures next == off + |AttachmentsBytes(list)| && Written(out, next, prefix + AttachmentsBytes(list))
  {
    hide AttachmentBytes;
    next := off;
    assert prefix + [] == prefix;
    for i := 0 to |list|
      invariant next == off + |AttachmentsBytes(list[..i])|
      invariant Written(out, next, prefix + AttachmentsBytes(list[..i]))
    {
      AttachmentsSnoc(list, i);
      PrefixLength(list, i + 1);
      ghost var done := prefix + AttachmentsBytes(list[..i]);
      next := WriteAttachment(out, next, list[i], done);
      assert done + AttachmentBytes(list[i]) == prefix + AttachmentsBytes(list[..i + 1]);
    }
    assert list[..|list|] == list;
  }

  method WriteBody(out: array<byte>, p: Payload) returns (off: nat)
    requires out[..] == Zeros(out.Length) && |Body(PAYLOAD_VERSION, p)| <= out.Length
    modifies out
    ensures off == |Body(PAYLOAD_VERSION, p)| && Written(out, off, Body(PAYLOAD_VERSION, p))
  {
    hide AttachmentsBytes;
    assert Written(out, 0, []);
    off := WriteUint(out, 0, PAYLOAD_VERSION, 1, []);
    assert [] + BigEndian(PAYLOAD_VERSION, 1) == [PAYLOAD_VERSION];
    off := WriteField(out, off, 4, p.text, [PAYLOAD_VERSION]);
    off := WriteUint(out, off, |p.attachments|, 2, [PAYLOAD_VERSION] + Field(4, p.text));
    ghost var head := [PAYLOAD_VERSION] + Field(4, p.text) + BigEndian(|p.attachments|, 2);
    off := WriteAttachments(out, off, p.attachments, head);
    assert head + AttachmentsBytes(p.attachments) == Body(PAYLOAD_VERSION, p);
  }

  /**
   * `encodePayload`. The pad length is never negative and the final offset is always the buffer's end, so the
   * two internal checks of the source reduce to the pad length fitting its field.
   */
  method EncodePayload(p: Payload) returns (r: Result<array<byte>, EncodeError>)
    ensures r.Err? <==> FirstError(p).Some?
    ensures r.Err? ==> FirstError(p) == Some(r.error)
    ensures r.Ok? ==> fresh(r.value) && r.value[..] == Frame(p)
  {
    if |p.text| > U32_MAX {
      return Err(TextTooLong);
    }
    if |p.attachments| > U16_MAX {
      return Err(TooManyAttachments);
    }
    var problem := CheckAttachments(p.attachments);
    if problem.Some? {
      return Err(problem.value);
    }
    var bodyLen := BodyLength(p);
    var minLen := bodyLen + PAD_LEN_FIELD_BYTES;
    var total := Padding.Padded(minLen);
    Padding.NeverShorter(minLen);
    var padLen := total - minLen;
    assert padLen == PadLen(p);
    if padLen > U32_MAX {
      return Err(PadOutOfRange);
    }
    var out := FillFrame(p, total, padLen);
    return Ok(out);
  }

  method FillFrame(p: Payload, total: nat, padLen: nat) returns (out: array<byte>)
    requires total == MinLen(p) + padLen && padLen == PadLen(p)
    ensures fresh(out) && out[..] == Frame(p)
  {
    hide AttachmentsBytes, Padding.Padded, BigEndian, Content;
    out := new byte[total](_ => 0);
    var off := WriteBody(out, p);
    off := WriteUint(out, off, padLen, 4, Body(PAYLOAD_VERSION, p));
    off := off + padLen;
    assert off == total;
    assert out[..] == out[..total - padLen] + out[total - padLen..];
    assert Body(PAYLOAD_VERSION, p) + BigEndian(padLen, 4) + Zeros(padLen) == Frame(p);
  }

  // ---- decoding -----------------------------------------------------------------------------------

  /** `need`, the length, `need` again, and the slice: one length-prefixed field at `off`. */
  method ReadField(bytes: array<byte>, off: nat, w: nat) returns (r: Option<(seq<byte>, nat)>)
    requires off <= bytes.Length
    ensures r.Some? ==> off <= r.value.1 <= bytes.Length
    ensures TakeField(bytes[off..], w)
         == if r.Some? then Some((r.value.0, bytes[r.value.1..])) else None
  {
    if off + w > bytes.Length {
      return None;
    }
    var n := ReadUint(bytes, off, w);
    assert bytes[off..][..w] == bytes[off..off + w];
    var start := off + w;
    if start + n > bytes.Length {
      return None;
    }
    assert bytes[off..][w..w + n] == bytes[start..start + n];
    assert bytes[off..][w + n..] == bytes[start + n..];
    return Some((bytes[start..start + n], start + n));
  }

  method ReadAttachment(bytes: array<byte>, off: nat) returns (r: Option<(Attachment, nat)>)
    requires off <= bytes.Length
    ensures r.Some? ==> off <= r.value.1 <= bytes.Length
    ensures TakeAttachment(bytes[off..])
         == if r.Some? then Some((r.value.0, bytes[r.value.1..])) else None
  {
    hide TakeField;
    var name := ReadField(bytes, off, 2);
    if name.None? {
      return None;
    }
    var mime := ReadField(bytes, name.value.1, 2);
    if mime.None? {
      return None;
    }
    var content := ReadField(bytes, mime.value.1, 4);
    if content.None? {
      return None;
    }
    return Some((Attachment(name.value.0, mime.value.0, content.value.0), content.value.1));
  }

  lemma PrependStep(done: seq<Attachment>, s: seq<byte>, n: nat)
    requires n > 0
    ensures Prepend(done, TakeAttachments(s, n))
         == match TakeAttachment(s)
            case None => None
            case Some((a, rest)) => Prepend(done + [a], TakeAttachments(rest, n - 1))
  {
    match TakeAttachment(s)
    case None =>
    case Some((a, rest)) =>
      match TakeAttachments(rest, n - 1)
      case None =>
      case Some((list, end)) => assert done + ([a] + list) == done + [a] + list;
  }

  method ReadAttachments(bytes: array<byte>, start: nat, attCount: nat)
    returns (r: Option<(seq<Attachment>, nat)>)
    requires start <= bytes.Length
    ensures r.Some? ==> start <= r.value.1 <= bytes.Length
    ensures TakeAttachments(bytes[start..], attCount)
         == if r.Some? then Some((r.value.0, bytes[r.value.1..])) else None
  {
    hide TakeAttachment;
    var off, attachments := start, [];
    PrependNothing(TakeAttachments(bytes[start..], attCount));
    for i := 0 to attCount
      invariant start <= off <= bytes.Length
      invariant Prepend(attachments, TakeAttachments(bytes[off..], attCount - i))
             == TakeAttachments(bytes[start..], attCount)
    {
      PrependStep(attachments, bytes[off..], attCount - i);
      var one := ReadAttachment(bytes, off);
      if one.None? {
        return None;
      }
      attachments := attachments + [one.value.0];
      off := one.value.1;
    }
    assert attachments + [] == attachments;
    return Some((attachments, off));
  }

  lemma PrependNothing(r: Option<(seq<Attachment>, seq<byte>)>)
    ensures Prepend([], r) == r
  {
    if r.Some? {
      assert [] + r.value.0 == r.value.0;
    }
  }

  method ReadEnd(bytes: array<byte>, off: nat, hasPadTrailer: bool, p: Payload) returns (r: Result<Payload, DecodeError>)
    requires off <= bytes.Length
    ensures r == Finish(bytes[off..], hasPadTrailer, p)
  {
    var end := off;
    if hasPadTrailer {
      var pad := ReadField(bytes, off, 4);
      if pad.None? {
        return Err(Truncated);
      }
      end := pad.value.1;
    }
    assert bytes[end..] == [] <==> end == bytes.Length;
    if end != bytes.Length {
      return Err(TrailingBytes);
    }
    return Ok(p);
  }

  /** `decodeStrict`: the offset only moves forward, and no read goes past the end. */
  method DecodeStrict(bytes: array<byte>) returns (r: Result<Payload, DecodeError>)
    ensures r == ParseStrict(bytes[..])
  {
    hide TakeField, TakeAttachments, Finish;
    if bytes.Length < 1 || (bytes[0] != PAYLOAD_VERSION && bytes[0] != PAYLOAD_VERSION_V1) {
      return Err(UnknownVersion);
    }
    assert bytes[..][1..] == bytes[1..];
    var text := ReadField(bytes, 1, 4);
    if text.None? {
      return Err(Truncated);
    }
    var off := text.value.1;
    if off + 2 > bytes.Length {
      return Err(Truncated);
    }
    var attCount := ReadUint(bytes, off, 2);
    assert bytes[off..][..2] == bytes[off..off + 2] && bytes[off..][2..] == bytes[off + 2..];
    var list := ReadAttachments(bytes, off + 2, attCount);
    if list.None? {
      return Err(Truncated);
    }
    r := ReadEnd(bytes, list.value.1, bytes[0] == PAYLOAD_VERSION, Payload(text.value.0, list.value.0));
  }

  /** `decodePayload`: total, with the raw-text fallback. */
  method DecodePayload(bytes: array<byte>) returns (p: Payload)
    ensures p == Parse(bytes[..])
  {
    var strict := DecodeStrict(bytes);
    if strict.Ok? {
      return strict.value;
    }
    return Payload(bytes[..], []);
  }
}
