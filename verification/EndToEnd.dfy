/** From the sender's text to the reader's screen: the codecs, the link protocol and the identity put together. */
module EndToEnd {
  import opened Aad
  import opened Base64
  import opened Base64Text
  import opened Bytes
  import opened CreateLink
  import opened DecryptKeys
  import opened IdentityBundle
  import opened Order
  import opened Payload
  import opened Pubkey
  import opened Seal
  import B = Base64Text
  import D = Identity
  import L = Links
  import H = LinkHandlers
  import LL = LinkLaws
  import M = IdentityMemory
  import R = IdentityRuns

  /** The raw public key of every keypair and a string that names it. */
  datatype Keyring = Keyring(raw: Key -> seq<byte>, name: Key -> string)

  /** Among the keys in question every string names its own key, and no two keypairs share one. */
  ghost predicate WellFormed(ring: Keyring, keys: set<Key>) {
    && (forall k :: k in keys ==> Names(ring.name(k), ring.raw(k)))
    && (forall j, k :: j in keys && k in keys && ring.raw(j) == ring.raw(k) ==> j == k)
  }

  /** The context a link is sealed under: version 1 with a time of creation, version 2 without. */
  function LinkContext(id: L.Id, name: string, createdAtMs: Option<int>, expiresAtMs: int, maxOpens: int): Context
    requires IsLinkId(id)
  {
    Context(AsciiBytes(id), name, createdAtMs, expiresAtMs, maxOpens)
  }

  /** `decryptOpenResponse` with one key: the context is rebuilt from the response and that key's own string. */
  function DecryptResponse(hash: seq<byte> -> seq<byte>, log: HpkeLog, id: L.Id, text: string, row: L.Row,
                           ring: Keyring, k: Key): Attempt<Payload>
    requires IsLinkId(id)
  {
    var clean := StripEquals(text);
    if !Readable(clean, Base64Standard) then OtherError(0)
    else
      match OpenMessage(hash, log, Base64.Decoded(clean, Base64Standard), ring.raw(k),
                        LinkContext(id, ring.name(k), row.createdAtMs, row.expiresAtMs, row.maxOpens))
      case Ok(plaintext) => Opened(Parse(plaintext))
      case Err(_) => Attempt.DecryptionError(1)
  }

  /**
   * What the sender posts: the frame, sealed to `recipient` under the link's own metadata. Today's sender gives no time of
   * creation; that of an earlier version did.
   */
  function Post(hash: seq<byte> -> seq<byte>, log: HpkeLog, b: Blob, p: Payload, id: L.Id, createdAtMs: Option<int>,
                expiresAtMs: int, maxOpens: int, ring: Keyring, recipient: Key): Result<(seq<byte>, HpkeLog), SealError>
    requires IsLinkId(id)
  {
    SealMessage(hash, log, b, Frame(p), ring.raw(recipient),
                LinkContext(id, ring.name(recipient), createdAtMs, expiresAtMs, maxOpens))
  }

  /** A posted message that the server accepts is stored as it was sealed, with the metadata it was sealed under. */
  lemma PostedIsStored(s: L.System, bodyLength: nat, body: CreateLink.Request, blob: seq<byte>, nowMs: int,
                       maxRetentionMs: nat, token: string, tokenHash: string -> L.TokenHash)
    requires body.id !in s.created && body.ciphertext == B.Padded(blob)
    requires H.CreateOutcome(s.store, 0, bodyLength, Some(body), nowMs, maxRetentionMs, token, tokenHash, false).1.Created?
    ensures IsLinkId(body.id) && body.expiresAt.Some?
    ensures var r := L.Record(body.id, body.expiresAt.value, body.maxOpens, Some(tokenHash(token)));
            && L.Allowed(s, L.Create(r, None, blob))
            && var s' := L.Next(s, L.Create(r, None, blob));
               && s'.store
                  == H.CreateOutcome(s.store, 0, bodyLength, Some(body), nowMs, maxRetentionMs, token, tokenHash, false).0
               && body.id in s'.created
               && s'.created[body.id] == L.Original(blob, None, body.expiresAt.value, body.maxOpens, Some(tokenHash(token)))
  {
    hide DecodeBody, B.Padded;
    ServerDecodesPadded(blob);
  }

  /** With one key: the sealed-to key reads the payload as it was sent, any other gets a decryption error. */
  lemma OneKey(hash: seq<byte> -> seq<byte>, log: HpkeLog, later: HpkeLog, b: Blob, p: Payload, id: L.Id, row: L.Row,
               ring: Keyring, recipient: Key, k: Key)
    requires IdealHash(hash) && WellFormed(ring, {recipient, k}) && IsLinkId(id) && Encodable(p) && PadLen(p) <= U32_MAX
    requires var posted := Post(hash, log, b, p, id, row.createdAtMs, row.expiresAtMs, row.maxOpens, ring, recipient);
             posted.Ok? && Extends(later, posted.value.1)
    ensures var blob := Post(hash, log, b, p, id, row.createdAtMs, row.expiresAtMs, row.maxOpens, ring, recipient).value.0;
            DecryptResponse(hash, later, id, B.Padded(blob), row, ring, k)
            == if k == recipient then Opened(p) else Attempt.DecryptionError(1)
  {
    var ctx := LinkContext(id, ring.name(recipient), row.createdAtMs, row.expiresAtMs, row.maxOpens);
    var ctx' := LinkContext(id, ring.name(k), row.createdAtMs, row.expiresAtMs, row.maxOpens);
    var blob := SealMessage(hash, log, b, Frame(p), ring.raw(recipient), ctx).value.0;
    assert Names(ring.name(k), ring.raw(k)) && Names(ring.name(recipient), ring.raw(recipient));
    DecodeAfterPadded(blob);
    OpensExactlyWhenBound(hash, log, b, Frame(p), ring.raw(recipient), ctx, later, ring.raw(k), ctx');
    hide SealMessage, OpenMessage, Frame, B.Padded, Base64.Decoded, PadLen, Encodable;
    RoundTrip(p);
    if k == recipient {
      assert Valid(ctx') && SameBinding(ctx, ctx');
    } else {
      assert ring.raw(k) != ring.raw(recipient);
    }
  }

  /** A text that is no base64 is not a decryption error: the first key tried reports it, and no other is tried. */
  lemma BadTextStops(hash: seq<byte> -> seq<byte>, log: HpkeLog, id: L.Id, text: string, row: L.Row, ring: Keyring,
                     keys: seq<Key>, lastError: nat)
    requires IsLinkId(id) && !Readable(StripEquals(text), Base64Standard) && keys != []
    ensures Fallback(keys, k => DecryptResponse(hash, log, id, text, row, ring, k), lastError).OtherError?
  {
    hide StripEquals, Readable;
  }

  /** The fallback over any list of keys: the payload as it was sent, exactly when the key is in the list. */
  lemma {:induction false} AnyKeys(hash: seq<byte> -> seq<byte>, log: HpkeLog, later: HpkeLog, b: Blob, p: Payload,
                                   id: L.Id, row: L.Row, ring: Keyring, recipient: Key, keys: seq<Key>, lastError: nat)
    requires IdealHash(hash) && WellFormed(ring, {recipient} + Elements(keys)) && IsLinkId(id)
    requires Encodable(p) && PadLen(p) <= U32_MAX
    requires var posted := Post(hash, log, b, p, id, row.createdAtMs, row.expiresAtMs, row.maxOpens, ring, recipient);
             posted.Ok? && Extends(later, posted.value.1)
    ensures var posted := Post(hash, log, b, p, id, row.createdAtMs, row.expiresAtMs, row.maxOpens, ring, recipient);
            var text := B.Padded(posted.value.0);
            recipient in keys <==>
            Fallback(keys, k => DecryptResponse(hash, later, id, text, row, ring, k), lastError) == Opened(p)
  {
    hide IdealHash, Encodable, PadLen, Extends, Post, DecryptResponse, B.Padded, IsLinkId;
    if keys != [] {
      assert WellFormed(ring, {recipient, keys[0]}) && WellFormed(ring, {recipient} + Elements(keys[1..]));
      hide WellFormed;
      OneKey(hash, log, later, b, p, id, row, ring, recipient, keys[0]);
      AnyKeys(hash, log, later, b, p, id, row, ring, recipient, keys[1..], 1);
    }
  }

  /**
   * However requests interleave, every 200 response for a posted message is decrypted to the payload that was sent by
   * exactly those readers that hold the key it was sealed to.
   */
  lemma EveryDeliveryDecrypts(hash: seq<byte> -> seq<byte>, log: HpkeLog, later: HpkeLog, b: Blob, p: Payload,
                              ring: Keyring, recipient: Key, s: L.System, i: nat, keys: seq<Key>)
    requires IdealHash(hash) && WellFormed(ring, {recipient} + Elements(keys)) && Encodable(p) && PadLen(p) <= U32_MAX
    requires LL.Reachable(s) && i < |s.log| && s.log[i].Delivered? && IsLinkId(s.log[i].id) && s.log[i].id in s.created
    requires var id, o := s.log[i].id, s.created[s.log[i].id];
             var posted := Post(hash, log, b, p, id, o.createdAtMs, o.expiresAtMs, o.maxOpens, ring, recipient);
             posted.Ok? && posted.value.0 == o.blob && Extends(later, posted.value.1)
    ensures var reply := s.log[i];
            recipient in keys <==>
            Fallback(keys, k => DecryptResponse(hash, later, reply.id, B.Padded(reply.bytes), reply.row, ring, k),
                     DEFAULT_REASON)
            == Opened(p)
  {
    var reply := s.log[i];
    LL.NeverMoreThanMaxOpens(s, reply.id);
    hide Post, DecryptResponse, LL.Reachable, IdealHash, WellFormed, Extends, Encodable, PadLen;
    AnyKeys(hash, log, later, b, p, reply.id, reply.row, ring, recipient, keys, DEFAULT_REASON);
  }

  /**
   * Whatever rotations, crashes and rejected calls lie between: an unlocked session reads a message sealed to a key of
   * its history as it was sent, from every 200 response, if and only if it holds that one key.
   */
  lemma MessageArrives(hash: seq<byte> -> seq<byte>, log: HpkeLog, later: HpkeLog, b: Blob, p: Payload,
                       ring: Keyring, recipient: Key, s: L.System, i: nat, w: D.World)
    requires IdealHash(hash) && WellFormed(ring, {recipient} + Elements(AllPrivateKeysForDecrypt(w.state)))
    requires Encodable(p) && PadLen(p) <= U32_MAX
    requires LL.Reachable(s) && i < |s.log| && s.log[i].Delivered? && IsLinkId(s.log[i].id) && s.log[i].id in s.created
    requires var id, o := s.log[i].id, s.created[s.log[i].id];
             var posted := Post(hash, log, b, p, id, o.createdAtMs, o.expiresAtMs, o.maxOpens, ring, recipient);
             posted.Ok? && posted.value.0 == o.blob && Extends(later, posted.value.1)
    requires R.Reachable(w) && w.state.Unlocked? && recipient in w.activated
    ensures var reply := s.log[i];
            M.Holds(w, recipient) <==>
            Fallback(AllPrivateKeysForDecrypt(w.state),
                     k => DecryptResponse(hash, later, reply.id, B.Padded(reply.bytes), reply.row, ring, k), DEFAULT_REASON)
            == Opened(p)
  {
    hide Post, DecryptResponse, LL.Reachable, R.Reachable, M.Holds, IdealHash, WellFormed, Extends, Encodable, PadLen;
    M.EveryMessageOpens(w, recipient, ());
    OpensIffHeld(AllPrivateKeysForDecrypt(w.state), recipient, ());
    EveryDeliveryDecrypts(hash, log, later, b, p, ring, recipient, s, i, AllPrivateKeysForDecrypt(w.state));
  }
}
