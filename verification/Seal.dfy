/**
 * `seal.ts` and the ciphertext blob of `wire.ts` over an ideal HPKE: a log that maps what was sealed to the
 * key, plaintext and AAD it was sealed with. Opening succeeds only for a log entry, its key and its AAD.
 */
module Seal {
  import opened Aad
  import opened Bytes
  import opened Payload
  import opened Pubkey

  const ENCAPSULATED_KEY_LEN: nat := 32
  const CIPHERTEXT_PREFIX_LEN: nat := 34

  // ---- the blob -----------------------------------------------------------------------------------

  datatype Blob = Blob(enc: seq<byte>, aeadOutput: seq<byte>)

  datatype BlobError = BadKeyLength | TooShort | BadVersion | BadSuite

  function EncodeCiphertextBlob(b: Blob): Result<seq<byte>, BlobError> {
    if |b.enc| != ENCAPSULATED_KEY_LEN then Err(BadKeyLength)
    else Ok([WIRE_VERSION, SUITE] + b.enc + b.aeadOutput)
  }

  function DecodeCiphertextBlob(blob: seq<byte>): Result<Blob, BlobError> {
    if |blob| < CIPHERTEXT_PREFIX_LEN then Err(TooShort)
    else if blob[0] != WIRE_VERSION then Err(BadVersion)
    else if blob[1] != SUITE then Err(BadSuite)
    else Ok(Blob(blob[2..CIPHERTEXT_PREFIX_LEN], blob[CIPHERTEXT_PREFIX_LEN..]))
  }

  /** Decoding undoes encoding, and accepts nothing else. */
  lemma BlobIsExact(blob: seq<byte>, b: Blob)
    ensures DecodeCiphertextBlob(blob) == Ok(b) <==> EncodeCiphertextBlob(b) == Ok(blob)
  {
    if EncodeCiphertextBlob(b) == Ok(blob) {
      assert blob[2..CIPHERTEXT_PREFIX_LEN] == b.enc && blob[CIPHERTEXT_PREFIX_LEN..] == b.aeadOutput;
    }
    if DecodeCiphertextBlob(blob) == Ok(b) {
      assert blob == [blob[0], blob[1]] + blob[2..CIPHERTEXT_PREFIX_LEN] + blob[CIPHERTEXT_PREFIX_LEN..];
    }
  }

  // ---- ideal HPKE ---------------------------------------------------------------------------------

  datatype Sealed = Sealed(recipientRaw: seq<byte>, plaintext: seq<byte>, aad: seq<byte>)

  /** Everything ever sealed, by what it looks like. */
  type HpkeLog = map<Blob, Sealed>

  /** A later log knows at least as much. */
  predicate Extends(later: HpkeLog, log: HpkeLog) {
    forall b :: b in log ==> b in later && later[b] == log[b]
  }

  function OpenHpke(log: HpkeLog, privateKeyOf: seq<byte>, b: Blob, aad: seq<byte>): Option<seq<byte>> {
    if b in log && log[b].recipientRaw == privateKeyOf && log[b].aad == aad then Some(log[b].plaintext) else None
  }

  // ---- seal and open ------------------------------------------------------------------------------

  datatype SealError = BadContextKey(error: FormatError) | RecipientMismatch | BadContext(reason: AadError) | BadBlob

  datatype OpenError = DecryptionError

  method BytesEqual(a: seq<byte>, b: seq<byte>) returns (equal: bool)
    ensures equal <==> a == b
  {
    if |a| != |b| {
      return false;
    }
    for i := 0 to |a|
      invariant a[..i] == b[..i]
    {
      if a[i] != b[i] {
        return false;
      }
    }
    return true;
  }

  /** `seal`: the HPKE output `b` is chosen by the primitive and has not been seen before. */
  function SealMessage(hash: seq<byte> -> seq<byte>, log: HpkeLog, b: Blob, plaintext: seq<byte>,
                       recipientRaw: seq<byte>, ctx: Context): Result<(seq<byte>, HpkeLog), SealError>
  {
    var key := DecodePubkey(ctx.recipientPublicKey);
    if key.Err? then Err(BadContextKey(key.error))
    else if recipientRaw != key.value.rawKey then Err(RecipientMismatch)
    else if FirstAadError(ctx).Some? then Err(BadContext(FirstAadError(ctx).value))
    else
      var blob := EncodeCiphertextBlob(b);
      if blob.Err? then Err(BadBlob)
      else Ok((blob.value, log[b := Sealed(recipientRaw, plaintext, AadBytes(hash, ctx))]))
  }

  /** `open`: every failure, the context guards included, ends in the one error. */
  function OpenMessage(hash: seq<byte> -> seq<byte>, log: HpkeLog, blob: seq<byte>, privateKeyOf: seq<byte>,
                       ctx: Context): Result<seq<byte>, OpenError>
  {
    if !Valid(ctx) then Err(DecryptionError)
    else
      var parsed := DecodeCiphertextBlob(blob);
      if parsed.Err? then Err(DecryptionError)
      else
        match OpenHpke(log, privateKeyOf, parsed.value, AadBytes(hash, ctx))
        case Some(m) => Ok(m)
        case None => Err(DecryptionError)
  }

  /**
   * A sealed message opens, at any later time, exactly for the private key it was sealed to and a context that
   * agrees with the one it was sealed under; everything else is a `DecryptionError`.
   */
  lemma OpensExactlyWhenBound(hash: seq<byte> -> seq<byte>, log: HpkeLog, b: Blob, plaintext: seq<byte>,
                              recipientRaw: seq<byte>, ctx: Context,
                              later: HpkeLog, privateKeyOf: seq<byte>, ctx': Context)
    requires IdealHash(hash)
    requires SealMessage(hash, log, b, plaintext, recipientRaw, ctx).Ok?
    requires Extends(later, SealMessage(hash, log, b, plaintext, recipientRaw, ctx).value.1)
    ensures Valid(ctx)
    ensures var blob := SealMessage(hash, log, b, plaintext, recipientRaw, ctx).value.0;
            OpenMessage(hash, later, blob, privateKeyOf, ctx')
            == if privateKeyOf == recipientRaw && Valid(ctx') && SameBinding(ctx, ctx') then Ok(plaintext)
               else Err(DecryptionError)
  {
    hide AadBytes, SameBinding, DecodeCiphertextBlob;
    var (blob, log') := SealMessage(hash, log, b, plaintext, recipientRaw, ctx).value;
    BlobIsExact(blob, b);
    assert later[b] == log'[b];
    if Valid(ctx') {
      AadBinds(hash, ctx, ctx');
    }
  }

  /** Sealing for one key under a context that names another is refused before anything is encrypted. */
  lemma NeverSealsToAnother(hash: seq<byte> -> seq<byte>, log: HpkeLog, b: Blob, plaintext: seq<byte>,
                            recipientRaw: seq<byte>, ctx: Context)
    ensures SealMessage(hash, log, b, plaintext, recipientRaw, ctx).Ok? <==>
            Valid(ctx) && Names(ctx.recipientPublicKey, recipientRaw) && |b.enc| == ENCAPSULATED_KEY_LEN
  {
  }
}
