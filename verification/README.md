# Verification of the aesmsg protocol core

aesmsg seals a message to a recipient's public key, stores the opaque blob behind a link, and lets the link be
opened a limited number of times. This project models the parts of it where a mistake would lose a message, a key
or a count, and proves what they promise.

`dafny verify dfyconfig.toml` checks everything.

## What is modelled

**Codecs.** `BitStream` defines radix encodings as bit strings cut into digits. `Base64` holds the encoding and
decoding loops with their accumulator written as the signed 32-bit integer that it is, overflow included, and
`Base64Laws` and `Base64Text` relate them to RFC 4648. `Pubkey` covers public-key strings and fingerprints,
`Padding` the bucket and Padmé arithmetic, `Payload` and `PayloadCodec` the plaintext envelope with its
buffer-filling encoder and offset-advancing decoder, `Aad` the canonical bytes a message is bound to, and `Seal`
sealing and opening over an ideal HPKE. `WireFormat` says where every field of these formats stands, by offset, and
which error each malformed input gets. `CreateLink` has the guards of the create handler and the size budget from
attachment to request body.

**Identity.** `IdentityBundle` and `DecryptKeys` are the list transforms and the decryption fallback. `Identity` is
the identity machine as a transition system: an operation is a list of injected calls, each of which may reject
without effect, and the process may die at any boundary between two calls. A lock, a wipe or a rotation by another
caller may run while an unlock is in its tail. `IdentityLaws` proves the invariant, `IdentityRuns` which keys are on
disk over whole runs, `IdentityMemory` what an unlocked session holds against it, and `IdentityOutcomes` what each
operation leaves, wherever it is cut short. `IdentityMachine` is the machine itself, an object whose methods are proved
to be steps of the transition system.

**Links.** `Links` is the link lifecycle as a concurrent protocol: any number of open requests, each with its two
atomic steps, interleaved with create, revoke, the three statements of the sweep, and the operator purge. `LinkLaws`
proves what every interleaving keeps. `LinkHandlers` has the store as a mutable object and the create, open and
revoke handlers over it, and `LinkAnswers` what each of them answers and leaves in the store, for every request.

**End to end.** `EndToEnd` puts the codecs, the link protocol and the identity together: a payload sealed to any key
of an identity's history is read exactly as it was sent, by every session that holds that key. This covers today's
links and those of an earlier version, which are bound to their time of creation.

**Smaller machines.** `Migrations`, `MigrationLaws`, `MigrationFailures` and `MigrationRunner` are the migration
runner, as any number of concurrent clients and as the program of one; `Scheduler`, `SchedulerObject`, `Shutdown` and
`Worker` the sweep scheduler composed with the ordered shutdown; `MetricLabels`, `Metrics` and `HttpMetrics` the
metrics registry; `IdleLock` the idle-lock timer; `Contacts`, `ContactLaws` and `ContactOutcomes` the contact
directory, its key histories and its answers. `Order` has the default sort order that migrations and labels share,
`Buffer` the buffer writes that encoders share, and `Bytes` the integers under both.

## Where the code promises less, or other, than it says

- The AAD binds `maxOpens` as an int32. Within int32 it is bound exactly; beyond it two numbers collide exactly when
  they agree modulo 2^32, so "unlimited" (-1) and 4294967295 share one encoding (`Aad.AadBinds`,
  `Aad.UnlimitedCollides`). The create handler sets no upper limit.
- The open handler calls a live row without its blob something that should not happen. It happens exactly to a
  request that read before the link was created and consumed its open afterwards: such an open is counted and
  answered 410 (`LinkLaws.WinnerDelivers`, `LinkLaws.OpensAreConserved`, and `LinkLaws.EarlyReaderBurns` for a run).
- Between the first and the second statement of the sweep a link is expired while its blob is still stored
  (`LinkLaws.BlobIffActive`, and `LinkLaws.ExpiredBeforePurge` for a run).
- A wipe that fails after deleting the retired blob leaves an unlocked session whose retired keys are no longer on
  disk. A rotation then writes an identity back, and memory and disk differ exactly when the session held retired
  keys (`IdentityMemory.RotateAfterFailedWipe`). `IdentityMemory.PurgedExactlyByWipe` says when it happens.
- The re-check before the migration tail's save looks at the status only. A rotation that completes while the tail is
  pending is overwritten, and its new key lost, exactly when the tail saves: the envelope was heavy and neither the
  check, the wrap nor the save was stopped (`IdentityMemory.TailOverwritesRotation`, and
  `IdentityMemory.TailOverwritesRotationHappens` for a run). The session still holds the key, and only a further rotation
  in that session brings it back to disk (`IdentityRuns.RestoredExactlyByRotation`); once the session ends it is lost
  for good (`IdentityRuns.LostForGood`).
- `importIdentity` and `setupNew` assume that a wipe has purged the retired blob. After a process death inside a wipe
  it may still be there; its entries open under an earlier device secret only and never reach memory
  (`IdentityMemory.NoForeignKey`).
- `updateContactKey` does not look at other contacts, so two contacts can end up with one current key
  (`ContactLaws.UpdateCanShareAKey`); the exact condition is `ContactLaws.UpdateKeepsUniqueExactlyWhen`.
- Above 4096 bytes the padding overhead is below one part in sixteen, better than the 12 percent its comment names
  (`Padding.OverheadIsSmall`).

## Assumptions

- HPKE is ideal: opening succeeds only for an output that was sealed, with its key and its AAD. SHA-256 is a function
  with 32-byte results, without collisions on raw public keys where injectivity is claimed. A wrapped private key
  opens under its own device secret and no other.
- Generated keys, device secrets, link ids, contact ids and revocation tokens are fresh, as their generators promise.
- A keychain write and a database statement take effect entirely or not at all, and a rejected one has no effect.
- The clock, the timers, the rate limiter's counts and every injected failure are inputs of the model.

## Model

| member | source | states |
|---|---|---|
| Base64.EncodeRadix | packages/crypto/src/wire.ts:14-30 | For every byte string the loop writes the bytes as one bit string cut into digits, the last one filled with zero bits, although its accumulator overflows 32 bits |
| Base64.WriteOne | packages/crypto/src/wire.ts:18-25 | One turn of the encoding loop writes digits while it holds a whole one and leaves fewer bits than a digit, without changing the text still owed |
| Base64.DecodeRadix | packages/crypto/src/wire.ts:37-55 | Decoding fails exactly on a character outside the alphabet and otherwise gives the whole bytes of the digits' bit string |
| Base64.ReadDigit | packages/crypto/src/wire.ts:41-53 | One turn of the decoding loop keeps the bytes written and still to come, with fewer than eight bits pending |
| Base64.PushAppends | packages/crypto/src/wire.ts:19 | Shifting a byte into the overflowing signed accumulator appends exactly its bits to the pending ones |
| Base64.PeekIsFirst | packages/crypto/src/wire.ts:22-23 | The masked shift reads exactly the first pending bits and leaves the others |
| Base64.EmitLast | packages/crypto/src/wire.ts:26-28 | The final partial digit is the pending bits filled with zeros on the right |
| Base64Laws.DecodeAfterEncode | packages/crypto/src/wire.ts:14-55 | Decoding what was encoded gives the bytes back, for every length and every alphabet |
| Base64Laws.EncodeInjective | packages/crypto/src/wire.ts:14-30 | No two byte strings have one encoding |
| Base64Laws.EncodeAfterDecode | packages/crypto/src/wire.ts:37-55 | Encoding what was decoded gives the text back if and only if its length modulo 4 is not 1 and its unused trailing bits are zero (section 3.5 of RFC 4648) |
| Base64Laws.EncodeIsGroupwise | packages/crypto/src/wire.ts:14-30 | The accumulator loop writes the digits of the group-wise definition in sections 4 and 5 of RFC 4648 |
| Base64Text.BytesToBase64 | apps/mobile/src/lib/base64.ts:6-21 | The result is the encoding filled with `=` to a multiple of four |
| Base64Text.Base64ToBytes | apps/mobile/src/lib/base64.ts:28-44 | Trailing `=` are ignored, and decoding fails exactly on a foreign character |
| Base64Text.DecodeAfterPadded | apps/mobile/src/lib/base64.ts:6-44 | The padded variant decodes to what was encoded, for every length |
| Base64Text.UrlIsSection5 | apps/mobile/src/lib/base64.ts:24-26 | Replacing two symbols and stripping the padding is the url-safe encoding of section 5 of RFC 4648 |
| Base64Text.TwelveBytesMakeALinkId | apps/mobile/src/lib/link-id.ts:5-12 | Twelve bytes always give a 16-character id of the server's shape, and different bytes different ids |
| WireFormat.LinkIdsAreTwelveBytes | apps/mobile/src/lib/link-id.ts:5-12 | The ids the server takes are exactly what the clients make of twelve bytes |
| WireFormat.SymbolTables | packages/crypto/src/wire.ts:11-12 | Every digit has the symbol that the alphabet lists at its place, in both base64 variants and in base32 |
| Pubkey.DecodeAfterEncodePubkey | packages/crypto/src/wire.ts:75-106 | Every raw key survives the trip through its string, with its canonical bytes |
| Pubkey.SixteenStrings | packages/crypto/src/wire.ts:88-106 | Exactly sixteen strings are accepted for each key, and all of them give the same canonical bytes |
| WireFormat.PubkeyErrors | packages/crypto/src/wire.ts:75-106 | A string that is no key is told apart by prefix, characters, length, version and suite, in this order; only 32 bytes are encoded |
| Pubkey.BytesToUpperHex | packages/crypto/src/wire.ts:122-130 | The loop writes two upper-case digits for each byte, in order |
| Pubkey.HexInjective | packages/crypto/src/wire.ts:122-130 | Equal hex texts come from equal bytes |
| Pubkey.HexReads | packages/crypto/src/wire.ts:122-130 | Each byte is shown by its high digit and then its low one, taken from the sixteen upper-case digits |
| Pubkey.GroupHex | packages/crypto/src/fingerprint.ts:16-20 | The loop and the join give the eight groups of four with separators between them |
| Pubkey.FingerprintShowsDigest | packages/crypto/src/fingerprint.ts:9-21 | Equal fingerprints mean equal first sixteen digest bytes |
| Pubkey.OneFingerprintPerKey | packages/crypto/src/fingerprint.ts:9-21 | Whichever of its sixteen strings names a key, the fingerprint is the same: the grouped digits of the first sixteen bytes of the digest of its canonical bytes |
| Pubkey.FingerprintIsOfKey | packages/crypto/src/fingerprint.ts:9-21 | A fingerprint is 42 characters that show the first sixteen digest bytes of the canonical bytes of the whole key, and nothing else |
| Pubkey.FingerprintTellsKeys | packages/crypto/src/fingerprint.ts:9-21 | Two strings have one fingerprint if and only if the digests of their keys begin with the same sixteen bytes; where two keys differ there, that tells them apart |
| Pubkey.TruncateShowsPrefix | packages/crypto/src/fingerprint.ts:23-33 | A truncated fingerprint shows the first digest bytes and nothing else; fewer than one or more than eight groups are refused |
| Pubkey.CompareFingerprint | packages/crypto/src/fingerprint.ts:35-46 | OR-ing the XORs of all code units is equality |
| Padding.FloorLog2 | packages/crypto/src/pad.ts:28-29 | The exponent is the one whose powers of two enclose the length |
| Padding.CeilTo | packages/crypto/src/pad.ts:33 | Rounding up gives a multiple of the block less than one block above |
| Padding.NeverShorter | packages/crypto/src/pad.ts:43-51 | A padded length is at least the length and at least the smallest bucket |
| Padding.LeastThatFits | packages/crypto/src/pad.ts:43-51 | Up to 4096 it is the least bucket that fits, above it the least multiple of the block |
| Padding.Monotone | packages/crypto/src/pad.ts:26-51 | Longer lengths never have shorter padded lengths |
| Padding.Idempotent | packages/crypto/src/pad.ts:26-51 | A padded length is its own padded length |
| Padding.OverheadIsSmall | packages/crypto/src/pad.ts:26-34 | Above 4096 the overhead times 2^S is less than the length, and so below one part in sixteen |
| Padding.FewVisibleLengths | packages/crypto/src/pad.ts:26-51 | Between 2^E and 2^(E+1) exactly 2^S padded lengths occur, with E < 2^S <= 2E |
| Buffer.WriteUint | packages/crypto/src/payload.ts:48-61 | A big-endian store at the offset extends the written prefix and touches nothing behind it |
| WireFormat.BigEndianDigits | packages/crypto/src/payload.ts:48-61 | Two- and four-byte numbers are stored with the byte of the highest weight first |
| Buffer.WriteBytes | packages/crypto/src/payload.ts:63-66 | The bytes extend the written prefix, and the rest of the buffer stays zero |
| Buffer.ReadUint | packages/crypto/src/payload.ts:160 | A big-endian load within bounds returns the number those bytes encode |
| Payload.ParseIsExact | packages/crypto/src/payload.ts:143-212 | The strict parse accepts exactly the documented layouts of both versions, with any pad bytes, and reads each in one way |
| Payload.RoundTrip | packages/crypto/src/payload.ts:74-212 | What the encoder writes parses back to the payload, and so does the older trailer-free encoding of it |
| Payload.FallbackIsExact | packages/crypto/src/payload.ts:214-224 | The raw-text reading appears exactly when no payload has that layout |
| WireFormat.FrameLayout | packages/crypto/src/payload.ts:74-138 | The version, the text, the number of attachments, each name, mimetype and content, the pad length and the zeros stand in the frame at their offsets |
| WireFormat.ParseErrors | packages/crypto/src/payload.ts:143-212 | An input is refused for its version exactly when that is neither 1 nor 2, for trailing bytes exactly when a proper prefix of it is a valid payload, and otherwise as truncated |
| Payload.PadFits | packages/crypto/src/payload.ts:108-113 | The pad length fits its field for every frame below sixteen times the field's range |
| Payload.SameBucketSameLength | packages/crypto/src/payload.ts:99-115 | Two frames have one length if and only if each payload's minimal length fits the frame of the other: a bucket is an interval and its frame the upper end |
| Payload.FewObservableLengths | packages/crypto/src/payload.ts:99-115 | Whatever is sent, the store sees at most 2^S different frame lengths between 2^E and 2^(E+1), and up to the range of a length field exactly those |
| PayloadCodec.EncodePayload | packages/crypto/src/payload.ts:74-138 | The first failing check decides the error; otherwise a fresh buffer holds exactly the frame, and the two internal checks never fire but for a pad beyond its field |
| PayloadCodec.ErrorIsExact | packages/crypto/src/payload.ts:77-113 | Encoding succeeds exactly on payloads whose lengths and pad length fit their fields |
| WireFormat.EncodeErrors | packages/crypto/src/payload.ts:77-113 | The error names the first length that does not fit: text, number of attachments, then name, mimetype and content of each, then the pad |
| PayloadCodec.CheckAttachments | packages/crypto/src/payload.ts:84-97 | The first failing check of the first failing attachment is reported |
| PayloadCodec.BodyLength | packages/crypto/src/payload.ts:99-102 | The running sum is the length of the body that is then written |
| PayloadCodec.WriteField | packages/crypto/src/payload.ts:123-124 | A length and its bytes extend the written prefix by exactly that field |
| PayloadCodec.WriteAttachments | packages/crypto/src/payload.ts:122-129 | The attachment loop extends the written prefix by the layout of all attachments in order |
| PayloadCodec.WriteBody | packages/crypto/src/payload.ts:115-129 | Everything before the pad trailer is the version-2 body |
| PayloadCodec.FillFrame | packages/crypto/src/payload.ts:115-137 | The filled buffer is the frame and the final offset its end |
| PayloadCodec.ReadField | packages/crypto/src/payload.ts:159-164 | Bounds check, length, bounds check and slice take one field or report truncation, without reading past the end |
| PayloadCodec.ReadAttachments | packages/crypto/src/payload.ts:170-194 | The loop reads the announced number of attachments or reports truncation, moving the offset only forward |
| PayloadCodec.ReadEnd | packages/crypto/src/payload.ts:196-211 | After the trailer, where one is due, nothing may be left |
| PayloadCodec.DecodeStrict | packages/crypto/src/payload.ts:143-212 | The offset-advancing parser computes the strict parse of the whole buffer |
| PayloadCodec.DecodePayload | packages/crypto/src/payload.ts:214-224 | Decoding is total and falls back to raw text |
| Aad.EncodeAad | packages/crypto/src/aad.ts:79-142 | The first failing guard decides the error; otherwise the buffer is filled exactly to its end with the canonical bytes |
| WireFormat.AadLayout | packages/crypto/src/aad.ts:114-136 | Version, suite, link id, key digest, time of creation if any, expiry and opens stand in the AAD at their offsets |
| WireFormat.AadGuards | packages/crypto/src/aad.ts:82-112 | A context is accepted if and only if every field is in its range, and the error names one that is not |
| Aad.AadBinds | packages/crypto/src/aad.ts:79-142 | Two contexts encode alike if and only if they agree in every field, the version, the raw key and `maxOpens` modulo 2^32 included |
| Aad.AadInjective | packages/crypto/src/aad.ts:90-141 | Below 2^31 opens the encoding determines every field |
| Aad.UnlimitedCollides | packages/crypto/src/aad.ts:90-136 | Unlimited and 2^32 - 1 opens have one encoding |
| Aad.VersionsDisjoint | packages/crypto/src/aad.ts:114-136 | No encoding belongs to both versions |
| Seal.BlobIsExact | packages/crypto/src/wire.ts:108-149 | Decoding a ciphertext blob undoes encoding and accepts nothing else |
| WireFormat.BlobLayout | packages/crypto/src/wire.ts:108-120 | Version, suite, the 32 bytes of the encapsulated key and the rest stand in the blob in this order |
| WireFormat.BlobErrors | packages/crypto/src/wire.ts:108-149 | A blob is too short, of another version or of another suite, told apart exactly |
| Seal.BytesEqual | packages/crypto/src/seal.ts:10-16 | The scan decides equality |
| Seal.OpensExactlyWhenBound | packages/crypto/src/seal.ts:18-67 | A sealed message opens exactly for its key and an agreeing context; everything else ends in a decryption error |
| Seal.NeverSealsToAnother | packages/crypto/src/seal.ts:23-36 | Sealing succeeds exactly when the context is valid and names the recipient's key |
| WireFormat.SealErrors | packages/crypto/src/seal.ts:30-34 | A bad key string, then a mismatch of the two keys, then a bad context is reported |
| CreateLink.AcceptedCreateCanBeBound | apps/api/src/handlers/messages-handler.ts:154-171 | Every create the server accepts is a context the version-2 AAD encoder accepts |
| CreateLink.ServerDecodesPadded | apps/api/src/handlers/messages-handler.ts:126-136 | The server decodes the client's padded base64 to the blob that was encoded |
| CreateLink.DecodeBodyIsExact | apps/api/src/handlers/messages-handler.ts:126-136 | The body decodes exactly for alphabet characters, unpadded or filled with `=` to a multiple of four, with none left over |
| CreateLink.CheckCreateIsExact | apps/api/src/handlers/messages-handler.ts:146-177 | The guards let through exactly the creates within rate limit, body cap, id shape, opens, expiry, retention and blob size, and hand on the decoded blob |
| CreateLink.BlobFitsExactly | apps/api/src/handlers/messages-handler.ts:43-48 | The server's size checks pass exactly for frames of minimal length up to 25.5 MiB |
| CreateLink.SizeBudget | apps/api/src/handlers/messages-handler.ts:43-48 | One attachment of 25 MiB with up to 2^19 - 32 bytes of text, name and mimetype fits the blob limit and leaves a mebibyte of the body cap |
| IdentityBundle.DedupeRetired | apps/mobile/src/identity/identity-bundle.ts:90-99 | The loop over the seen set keeps the first entry of every public key, in order |
| IdentityBundle.DedupeMembers | apps/mobile/src/identity/identity-bundle.ts:90-99 | The result has no two entries of one key and invents none |
| IdentityBundle.DedupeKeepsKeys | apps/mobile/src/identity/identity-bundle.ts:90-113 | No public key disappears |
| IdentityBundle.DedupeKeepsFirsts | apps/mobile/src/identity/identity-bundle.ts:90-99 | What is kept is the first entry of every public key, in order |
| IdentityBundle.ParseAfterSerialize | apps/mobile/src/identity/identity-bundle.ts:58-83 | Reading back a saved list gives it deduplicated, and so unchanged when it had no duplicates |
| IdentityBundle.ParseIsDistinct | apps/mobile/src/identity/identity-bundle.ts:70-83 | No blob, however damaged, yields two entries of one key |
| IdentityBundle.ParseKeepsWellFormed | apps/mobile/src/identity/identity-bundle.ts:70-83 | The keys read are exactly those of the well-formed entries of a version-1 blob: a malformed entry costs no other |
| DecryptKeys.DecryptWithKeyFallback | apps/mobile/src/identity/decrypt-keys.ts:45-62 | The loop returns the first answer that is not a decryption error, else the last such error |
| DecryptKeys.FirstAnswerDecides | apps/mobile/src/identity/decrypt-keys.ts:50-60 | The first key that answers decides and no later key matters |
| DecryptKeys.ActiveKeyFirst | apps/mobile/src/identity/decrypt-keys.ts:32-62 | The active key is tried before the retired ones and those in their order; a session that is not unlocked has no key |
| DecryptKeys.AllKeysWrong | apps/mobile/src/identity/decrypt-keys.ts:49-61 | When every key is wrong the error of the last one tried is thrown |
| DecryptKeys.OpensIffHeld | apps/mobile/src/identity/decrypt-keys.ts:32-62 | A message opens exactly when its key is in the list, wherever it stands |
| IdentityLaws.RebuildWhileActive | apps/mobile/src/identity/identity-machine.ts:187 | An entry retained for the key that is still active does not change what an unlock rebuilds |
| IdentityLaws.RebuildAfterRetiring | apps/mobile/src/identity/identity-machine.ts:287-291 | Once the new key is active, an unlock rebuilds the old active key in front of everything retained before |
| IdentityLaws.RotateKeeps | apps/mobile/src/identity/identity-machine.ts:259-302 | A rotation with a failure or a crash at any boundary keeps the invariant: retained-first is crash-safe |
| IdentityLaws.WipeKeeps | apps/mobile/src/identity/identity-machine.ts:229-245 | A wipe that stops anywhere keeps the invariant |
| IdentityLaws.UnlockKeeps | apps/mobile/src/identity/identity-machine.ts:168-220 | An unlock, its migration tail and a lock, wipe or rotation during that tail keep the invariant |
| IdentityLaws.StepKeepsInv | apps/mobile/src/identity/identity-machine.ts:126-302 | Every operation with a rejected call or a process death at any boundary keeps the invariant of disk and memory |
| IdentityOutcomes.InitOutcome | apps/mobile/src/identity/identity-machine.ts:126-129 | The start decides between locked and no identity by the stored envelope alone, and writes nothing |
| IdentityOutcomes.SetupOutcome | apps/mobile/src/identity/identity-machine.ts:148-159 | From the clean slate a set-up writes secret and then envelope, as far as it gets, and when whole leaves the machine unlocked with the new key; otherwise it is refused |
| IdentityOutcomes.ImportOutcome | apps/mobile/src/identity/identity-machine.ts:161-166 | An import does the same with the given key |
| IdentityOutcomes.UnlockOutcome | apps/mobile/src/identity/identity-machine.ts:168-220 | An unlock without an envelope finds no identity; with one it opens it and the retired keys not skipped, and replaces a heavy envelope by a light one of the same key unless stopped |
| IdentityOutcomes.TailRespectsOverlap | apps/mobile/src/identity/identity-machine.ts:207-219 | After a lock or a wipe during the re-wrap nothing more is written, and the machine stays locked or wiped |
| IdentityOutcomes.LockOutcome | apps/mobile/src/identity/identity-machine.ts:222-227 | A lock drops the keys and leaves the disk alone |
| IdentityOutcomes.WipeOutcome | apps/mobile/src/identity/identity-machine.ts:229-245 | A wipe that is not stopped leaves no envelope, no retired key, no device secret and the clean slate; stopped anywhere, exactly the items it had not reached are still there |
| IdentityOutcomes.WipedForGood | apps/mobile/src/identity/identity-machine.ts:229-245 | After a wipe that reached the secret nothing is ever recoverable again, over any run without a new identity |
| IdentityOutcomes.RotateOutcome | apps/mobile/src/identity/identity-machine.ts:259-302 | A rotation puts the old key in front of the retired list, wrapped under the stored secret with its time, and then replaces the envelope, as far as it gets |
| IdentityRuns.RunKeepsInv | apps/mobile/src/identity/identity-machine.ts:126-302 | Every run of operations keeps it |
| IdentityRuns.NoKeyLost | apps/mobile/src/identity/identity-machine.ts:126-302 | While the device secret is stored, a key can be recovered from disk if and only if it was active since the secret was created and was neither deleted by a wipe nor overwritten; the retained keys stand in the order of their retirement |
| IdentityRuns.HistoryGrows | apps/mobile/src/identity/identity-machine.ts:126-302 | Over every run without a new identity the history of active keys only grows in front |
| IdentityRuns.OverwrittenExactlyByTail | apps/mobile/src/identity/identity-machine.ts:207-219 | In every reachable state an operation overwrites a key if and only if the tail of an unlock saves a heavy envelope again after a rotation ran in it, and then it is the new key of that rotation |
| IdentityRuns.RestoredExactlyByRotation | apps/mobile/src/identity/identity-machine.ts:259-302 | In every reachable state a deleted or overwritten key stops being so if and only if it is the identity of an unlocked session and a rotation reaches its first write, and then it can be recovered |
| IdentityRuns.NothingLostWithoutWipe | apps/mobile/src/identity/identity-machine.ts:168-302 | Over every run without a wipe or a new identity, what can be recovered at one moment can be recovered at every later one, whatever fails, crashes or rotates during an unlock |
| IdentityRuns.LostForGood | apps/mobile/src/identity/identity-machine.ts:126-302 | A deleted or overwritten key that is not the identity of the unlocked session is never recovered over any run without a new identity |
| IdentityRuns.RotateLosesNothing | apps/mobile/src/identity/identity-machine.ts:287-291 | A rotation stopped at any boundary leaves every key that was on disk recoverable |
| IdentityMemory.EveryMessageOpens | apps/mobile/src/identity/decrypt-keys.ts:32-62 | In every unlocked state a message to a key of the history opens if and only if the key is the identity, or it was not overwritten, the unlock did not skip it and no wipe had deleted it before the session |
| IdentityMemory.MemoryRefinesDisk | apps/mobile/src/identity/identity-machine.ts:168-197 | An unlock succeeds if and only if an identity is stored, and rebuilds the stored key and the retired keys in order without duplicates, but for the two active keys and the entries skipped or deleted in this session; memory and disk agree if and only if the active keys are one and there are no such entries |
| IdentityMemory.NoForeignKey | apps/mobile/src/identity/identity-machine.ts:181-195 | Every key in memory, purged ones included, belongs to the history that began with the current device secret, and those not purged are on disk under it |
| IdentityMemory.PurgedExactlyByWipe | apps/mobile/src/identity/identity-machine.ts:229-245 | A session that stays unlocked sees retired keys deleted if and only if a wipe deletes a retired blob with keys in it and then fails |
| IdentityMemory.RotateAfterFailedWipe | apps/mobile/src/identity/identity-machine.ts:229-302 | After such a wipe and a rotation, memory equals disk if and only if the session held no retired keys |
| IdentityMemory.RotateAfterFailedWipeHappens | apps/mobile/src/identity/identity-machine.ts:229-302 | A reachable session shows it |
| IdentityMemory.TailOverwritesRotation | apps/mobile/src/identity/identity-machine.ts:207-219 | A rotation during the tail of an unlock leaves its new key on disk if and only if the tail saves nothing: the envelope is not heavy, or the check, the wrap or the save is stopped; every other key stays |
| IdentityMemory.TailOverwritesRotationHappens | apps/mobile/src/identity/identity-machine.ts:207-219 | Over a heavy envelope with nothing failing, the machine is unlocked with a key that is gone from disk |
| IdentityMachine.DeviceStore.LoadRetiredKeys | apps/mobile/src/identity/identity-bundle.ts:70-83 | Loading gives the stored entries deduplicated |
| IdentityMachine.Machine.Init | apps/mobile/src/identity/identity-machine.ts:126-129 | The whole new disk and memory is the transition system's step, with any fault |
| IdentityMachine.Machine.PersistAndUnlock | apps/mobile/src/identity/identity-machine.ts:134-146 | Secret, wrap, envelope and state in this order, stopping at any fault |
| IdentityMachine.Machine.SetupNew | apps/mobile/src/identity/identity-machine.ts:148-156 | A step of the transition system; refused outside the clean slate |
| IdentityMachine.Machine.ImportIdentity | apps/mobile/src/identity/identity-machine.ts:161-166 | A step of the transition system; refused outside the clean slate |
| IdentityMachine.Machine.Unlock | apps/mobile/src/identity/identity-machine.ts:168-220 | A step of the transition system; a rejected prompt or unwrap leaves the state as it was |
| IdentityMachine.Machine.UnlockWrapped | apps/mobile/src/identity/identity-machine.ts:187-219 | The same, from the unwrapped envelope on |
| IdentityMachine.Machine.UnwrapRetired | apps/mobile/src/identity/identity-machine.ts:188-195 | The loop yields the retained keys that unwrap, in order, skipping those that do not |
| IdentityMachine.Machine.Rewrap | apps/mobile/src/identity/identity-machine.ts:207-219 | The migration tail, with whatever runs meanwhile, saves only while unlocked and swallows every rejection |
| IdentityMachine.Machine.Overlap | apps/mobile/src/identity/identity-machine.ts:210-213 | A lock, a completed wipe or a completed rotation by another caller is the transition system's overlap |
| IdentityMachine.Machine.Lock | apps/mobile/src/identity/identity-machine.ts:222-227 | A step of the transition system; only an unlocked machine changes |
| IdentityMachine.Machine.Wipe | apps/mobile/src/identity/identity-machine.ts:229-245 | Envelope, retired blob, secret, storage and state in this order, stopping where a call does; a wipe that returns leaves the disk empty and the machine without identity |
| IdentityMachine.Machine.Rotate | apps/mobile/src/identity/identity-machine.ts:259-302 | A step of the transition system: the retained copy is written before the active envelope is replaced |
| LinkLaws.StepKeepsInv | packages/server-store/src/interfaces.ts:38-106 | Every step of every participant keeps the invariant of rows, blobs, requests and answers |
| LinkLaws.WinnerHoldsTheBytes | apps/api/src/handlers/messages-handler.ts:274-285 | A request that wins an open holds the created bytes exactly when it read after the create |
| LinkLaws.NeverMoreThanMaxOpens | packages/server-store/src/interfaces.ts:51-52 | Under every interleaving a link with a positive limit is delivered at most that often, and every delivery carries the created bytes and metadata |
| LinkLaws.OpensAreConserved | packages/server-store/src/interfaces.ts:51-52 | The stored count is the deliveries plus the opens burned by requests that read before the create |
| LinkLaws.WinnerDelivers | apps/api/src/handlers/messages-handler.ts:274-305 | A request that read after the create and gets a row answers 200 with exactly the created bytes, the purging final open included |
| LinkLaws.BlobIffActive | packages/server-store/src/interfaces.ts:54-79 | A blob is stored if and only if its link is active, or expired and not yet reached by the purge |
| LinkLaws.EarlyReaderBurns | apps/api/src/handlers/messages-handler.ts:283-291 | A reader before the create that consumes after it is answered 410 although the row was live, and its open is counted |
| LinkLaws.ExpiredBeforePurge | packages/server-store/src/interfaces.ts:65-70 | Between two statements of the sweep an expired link still has its blob |
| LinkLaws.EndedForGood | packages/server-store/src/interfaces.ts:51-95 | An ended link stays ended and is never delivered again, whatever runs afterwards |
| LinkLaws.RevokeNeedsToken | packages/server-store/src/interfaces.ts:53-64 | A revoke ends an active link if and only if it brings the token hash the link was created with, or the link was created without one; otherwise it changes nothing |
| LinkHandlers.LinkStore.CreateWithCiphertext | packages/server-store/src/interfaces.ts:41-49 | Row and blob appear together or not at all; the row is active with no opens and carries the given expiry, limit and token hash |
| LinkHandlers.LinkStore.GetBlob | packages/server-store/src/interfaces.ts:97-99 | The stored blob, or nothing |
| LinkHandlers.LinkStore.IncrementOpens | packages/server-store/src/interfaces.ts:51-52 | One open is consumed exactly for an active link before its expiry, and the last one ends the link and deletes its blob |
| LinkHandlers.LinkStore.Revoke | packages/server-store/src/interfaces.ts:53-64 | The whole store changes as the documented semantics say |
| LinkHandlers.LinkStore.ExpirePastDue | packages/server-store/src/interfaces.ts:65-70 | Rows past due expire, the blobs of all terminal rows go and are counted, rows past retention are dropped |
| LinkHandlers.LinkStore.PruneTerminal | packages/server-store/src/interfaces.ts:71-78 | Exactly the terminal rows from before the instant are deleted and counted |
| LinkHandlers.LinkStore.AdminPurge | packages/server-store/src/interfaces.ts:85-94 | The link ends and its blob goes regardless of tokens, and the report says what was there |
| LinkHandlers.HandleCreate | apps/api/src/handlers/messages-handler.ts:138-205 | Reply and store are those of the guards in their order, the conflict check and the atomic create |
| LinkHandlers.HandleOpen | apps/api/src/handlers/messages-handler.ts:253-307 | Reply and store of one undisturbed open, the blob read before the open is consumed |
| LinkHandlers.HandleRevoke | apps/api/src/handlers/messages-handler.ts:376-413 | Every accepted request has the same reply, and the store changes as the revoke contract says |
| LinkHandlers.CreateIsAllOrNothing | apps/api/src/handlers/messages-handler.ts:179-203 | A 201 is a create the protocol allows and leaves a live link with its blob; every other reply leaves the store as it was |
| LinkHandlers.OpenIsTwoSteps | apps/api/src/handlers/messages-handler.ts:283-305 | Undisturbed, the handler is the protocol's two atomic steps and its reply the protocol's answer |
| LinkHandlers.OpenReturnsWhatWasPosted | apps/api/src/handlers/messages-handler.ts:138-307 | A fresh link opened before its expiry answers with the text that was posted, and a view-once link does so once |
| LinkHandlers.OnlyTheTokenRevokes | apps/api/src/handlers/messages-handler.ts:395-411 | The link ends exactly for the holder of the token, and the reply never tells |
| LinkHandlers.SweepLeavesNothingDue | packages/server-store/src/interfaces.ts:65-78 | After a sweep nothing active is past due, no ended link keeps its blob, and live links are untouched |
| LinkAnswers.OpenAnswers | apps/api/src/handlers/messages-handler.ts:253-307 | An open is answered 200 if and only if the request is well-formed and admitted, the link is active and before its expiry, and its blob is there; 400, 429 and 410 otherwise; an open is counted exactly for an active link before its expiry, and nothing else changes |
| LinkAnswers.OpenableIsAnswered | apps/api/src/handlers/messages-handler.ts:283-305 | In every reachable state an undisturbed open is answered 200, with the created blob, if and only if the link is active and before its expiry |
| LinkAnswers.ConsumeCounts | packages/server-store/src/interfaces.ts:51-52 | Under every interleaving an open is consumed if and only if the link is active and the expiry it was created with lies ahead |
| LinkAnswers.CreateAnswers | apps/api/src/handlers/messages-handler.ts:138-205 | A create is answered 201 if and only if its fields are acceptable, its id is free and the transaction goes through; the stored row and blob are those of the request; 429, 400, 409 and 500 otherwise, with nothing changed |
| LinkAnswers.TokenProtects | apps/api/src/handlers/messages-handler.ts:183-203 | The stored row carries the hash of the token handed out: a revoke under that token ends the new link, and one under any other or none leaves the store as it was |
| LinkAnswers.RevokeAnswers | apps/api/src/handlers/messages-handler.ts:376-413 | A revoke ends exactly an active link whose hash is that of the non-empty token given, or that has none; row and blob, and nothing else |
| LinkAnswers.PurgeEndsAny | packages/server-store/src/interfaces.ts:85-94 | The operator purge ends an active link whatever its token, and leaves no blob of that id |
| LinkAnswers.PurgeStepEnds | packages/server-store/src/interfaces.ts:85-94 | In every reachable state the operator purge leaves the link ended and touches no request |
| LinkAnswers.SweepIsExact | packages/server-store/src/interfaces.ts:65-78 | A sweep expires exactly the active links whose expiry has come, removes exactly the blobs of ended links, and forgets exactly those that ended before the retention limit |
| LinkAnswers.SweepIsThreeSteps | packages/server-store/src/interfaces.ts:65-78 | The three statements of the protocol, undisturbed, are the sweep of the store |
| LinkAnswers.SweepCounts | packages/server-store/src/interfaces.ts:65-70 | The number reported is that of the blobs removed |
| EndToEnd.PostedIsStored | apps/mobile/src/create/create-and-seal.ts:65-101 | A posted message that the server accepts is stored as it was sealed, with the metadata it was sealed under |
| EndToEnd.OneKey | apps/mobile/src/reader/fetch-and-open.ts:46-82 | The sealed-to key reads the payload as it was sent, any other key gets a decryption error; the response carries a time of creation or none, and the context is rebuilt in version 1 or 2 accordingly |
| EndToEnd.AnyKeys | apps/mobile/src/reader/fetch-and-open.ts:46-82 | The fallback over any list of keys reads the payload exactly when the key is in the list |
| EndToEnd.BadTextStops | apps/mobile/src/reader/fetch-and-open.ts:66 | A text that is no base64 is reported at the first key, as no decryption error |
| EndToEnd.EveryDeliveryDecrypts | apps/mobile/src/reader/fetch-and-open.ts:39-82 | Under every interleaving each 200 response, of an earlier version's link too, is decrypted to what was sent by exactly the readers holding the key |
| EndToEnd.MessageArrives | apps/mobile/src/identity/decrypt-keys.ts:32-62 | From every 200 response an unlocked session reads a message to a key of its history as it was sent, if and only if it holds that one key |
| Order.SortSorts | packages/server-store/src/migrate.ts:35 | Sorting orders the members and neither adds nor loses one |
| Order.AtMostIsLexicographic | packages/server-store/src/migrate.ts:35 | The first difference decides, and a text comes before its continuations |
| Order.SortCanonical | apps/api/src/metrics/registry.ts:83 | The order in which keys were written does not matter |
| MigrationLaws.StepKeepsInv | packages/server-store/src/migrate.ts:20-65 | Every query, failure, session death and lost commit reply of any client keeps the invariant |
| MigrationLaws.CommittedOnceWithItsRow | packages/server-store/src/migrate.ts:44-52 | Each file's SQL commits at most once, and exactly when its row does |
| MigrationLaws.OneAtATime | packages/server-store/src/migrate.ts:25 | Two live sessions never both hold the lock, and the insert of a row never meets one already there |
| MigrationLaws.ReturnedRunReports | packages/server-store/src/migrate.ts:34-56 | A run that returns leaves every listed `.sql` file applied and reports exactly those it applied itself, in sorted order |
| MigrationLaws.LaterRunReportsNone | packages/server-store/src/migrate.ts:37-56 | A later run over files that were applied when it started reports none, whatever runs beside it |
| MigrationLaws.UndisturbedRunSucceeds | packages/server-store/src/migrate.ts:20-65 | Whenever the lock is free, however earlier runs ended, an undisturbed run returns and completes the listing |
| MigrationFailures.ListingIsExact | packages/server-store/src/migrate.ts:34-35 | The files of a run are exactly the names ending in `.sql`, each once, in order |
| MigrationFailures.FailedRunUnlocks | packages/server-store/src/migrate.ts:49-64 | Wherever a query fails, the run rolls back an open transaction, frees the lock and throws, and the database is as it was |
| MigrationFailures.DeathFreesLock | packages/server-store/src/migrate.ts:57-64 | A session that dies frees its lock and undoes its open transaction only |
| MigrationFailures.DeadClientThrows | packages/server-store/src/migrate.ts:49-64 | The client of a dead session throws at its next query, and leaves the database and the lock alone |
| MigrationFailures.LostReplyIsCommitted | packages/server-store/src/migrate.ts:46-52 | A commit whose reply is lost has recorded its file, once |
| MigrationRunner.RunMigrations | packages/server-store/src/migrate.ts:20-65 | All missing files are applied in order, or the first failing one stops the run with exactly those before it applied; the lock is released |
| SchedulerObject.Scheduler.Execute | apps/worker/src/scheduler.ts:41-65 | A run is launched exactly when none of its name is in flight |
| SchedulerObject.Scheduler.Start | apps/worker/src/scheduler.ts:68-84 | The loop is the scheduler's start over all jobs; a second start changes nothing |
| SchedulerObject.Scheduler.Stop | apps/worker/src/scheduler.ts:85-93 | Every timer is cleared, and the promise waits for everything in flight |
| SchedulerObject.Scheduler.OnCleared | apps/worker/src/scheduler.ts:60-62 | A run leaves the map only after it has ended |
| Scheduler.StepKeepsInv | apps/worker/src/scheduler.ts:41-93 | The in-flight map is exact: each entry is a launched run of its name and each active run has its entry |
| Scheduler.OneActiveRunPerName | apps/worker/src/scheduler.ts:41-65 | However starts, ticks and stops interleave, no job name has two active runs |
| Scheduler.StartArms | apps/worker/src/scheduler.ts:68-84 | A start, the first or one after a stop with runs still in flight, gives every enabled job its timer and runs at once exactly the jobs that ask for it and are not in flight |
| Scheduler.EveryTickRuns | apps/worker/src/scheduler.ts:41-84 | From a start to the next stop, whatever happens in between, every enabled job has its own live timer, and each tick of it launches one run exactly when none of that name is in flight; after the run has ended and is cleared the next tick does again |
| Scheduler.TickLaunches | apps/worker/src/scheduler.ts:82 | The tick of a live timer adds exactly one active run, in flight under its job's name, if none was; any other tick changes nothing |
| Scheduler.ClearFrees | apps/worker/src/scheduler.ts:60-62 | A name stays in flight until its run has ended, and then is freed, it alone |
| Scheduler.SecondStartIgnored | apps/worker/src/scheduler.ts:69-72 | A second start changes nothing |
| Scheduler.StopDrains | apps/worker/src/scheduler.ts:85-93 | After a stop nothing is launched, and once everything waited for is cleared nothing is active |
| Shutdown.Controller.RunStep | apps/worker/src/shutdown.ts:70-80 | One turn of the loop records the step and its error, whether or not the deadline passes meanwhile |
| Shutdown.Controller.RequestShutdown | apps/worker/src/shutdown.ts:60-103 | The first request runs every step and exits; a later one changes nothing |
| Shutdown.EachStepOnceInOrder | apps/worker/src/shutdown.ts:70-80 | Steps run in order, none twice, and all of them before an orderly exit, however many signals arrive |
| Shutdown.SignalBegins | apps/worker/src/shutdown.ts:60-70 | The first signal begins the first step |
| Shutdown.ExitCode | apps/worker/src/shutdown.ts:63-90 | The first exit code is 0 if and only if every step succeeded before the deadline |
| Shutdown.SettlingGoesOn | apps/worker/src/shutdown.ts:70-90 | A step that settles, well or not, is followed by the next one, and the last by the exit |
| Shutdown.DeadlineEndsIt | apps/worker/src/shutdown.ts:63-67 | While a step hangs the deadline exits with 1, once; at any other time it does nothing |
| Shutdown.FirstExitStands | apps/worker/src/shutdown.ts:63-90 | Nothing later changes it |
| Worker.DrainBeforeClose | apps/worker/src/index.ts:52-60 | Once the pool begins to close no sweep runs, no timer is live, and none is ever launched again |
| Worker.CleanExitAbandonsNothing | apps/worker/src/index.ts:48-60 | Exit code 0 means that every run had ended and the pool had closed in time |
| Worker.UndisturbedExitsAreClean | apps/worker/src/index.ts:48-60 | In every run without the deadline and without a failing pool each exit is with 0 |
| Worker.OrderlyExit | apps/worker/src/index.ts:48-60 | At every moment of every run the process can still exit 0 if and only if the deadline has not come and no step has failed |
| Worker.SweepsUntilSignal | apps/worker/src/index.ts:32-42 | From the boot to the signal every enabled sweep has its timer, and a tick of it launches a run exactly when none of its name is in flight |
| MetricLabels.EscapeIsOnePass | apps/api/src/metrics/registry.ts:77-80 | The three sequential replacements are one pass |
| MetricLabels.UnescapeInverts | apps/api/src/metrics/registry.ts:77-80 | Escaping has an inverse |
| MetricLabels.EscapedIsQuotable | apps/api/src/metrics/registry.ts:77-80 | No escaped value contains a raw newline or an unescaped quote |
| MetricLabels.SerializeIsInjective | apps/api/src/metrics/registry.ts:82-87 | Two label objects have one text if and only if they have the same entries, in whatever order |
| Metrics.IncrementMovesOnlyItsOwn | apps/api/src/metrics/registry.ts:125-136 | An increment moves its own counter and no other |
| Metrics.CounterIsSumOfIncrements | apps/api/src/metrics/registry.ts:89-161 | After any run of increments, sets, clears and resets each counter is the sum of its own increments |
| Metrics.GaugeIsLastSet | apps/api/src/metrics/registry.ts:89-161 | After any run of increments, sets, clears and resets each gauge reports the value it was last set to, and a cleared one nothing |
| Metrics.SeriesKeepLabels | apps/api/src/metrics/registry.ts:125-147 | After any run each series carries labels that serialize to its own key |
| Metrics.FreshSeries | apps/api/src/metrics/registry.ts:98-109 | A fresh registry reports four zero series and no other |
| Metrics.Declared | apps/api/src/metrics/registry.ts:20-66 | Six counters and three gauges, three of them with labels |
| Metrics.Refusals | apps/api/src/metrics/registry.ts:115-147 | A wrong type is refused before a wrong label, and neither changes anything |
| Metrics.MetricsRegistry.Reset | apps/api/src/metrics/registry.ts:98-109 | Every metric is empty but for the four series that always report zero |
| Metrics.MetricsRegistry.ValidateLabels | apps/api/src/metrics/registry.ts:115-122 | Exactly the labels a metric declares are accepted |
| Metrics.MetricsRegistry.Increment | apps/api/src/metrics/registry.ts:125-136 | A wrong type or label throws and changes nothing; otherwise one series changes |
| Metrics.MetricsRegistry.Set | apps/api/src/metrics/registry.ts:139-147 | The same for a gauge |
| Metrics.MetricsRegistry.ClearMetric | apps/api/src/metrics/registry.ts:159-161 | All series of one metric go and no other |
| HttpMetrics.RecordHttp | apps/api/src/metrics/http-metrics.ts:25-50 | One request makes exactly the increments its route, method and status ask for |
| HttpMetrics.DigitsInjective | apps/api/src/metrics/http-metrics.ts:15-17 | Different status classes have different names |
| HttpMetrics.RequestsAreCounted | apps/api/src/metrics/http-metrics.ts:28 | Summed over its classes, a route's counters are the requests it had |
| HttpMetrics.DependencyErrorsAreServerErrors | apps/api/src/metrics/http-metrics.ts:35-40 | Per route the dependency-error counter is the sum of the request counters of class 5 and above |
| HttpMetrics.RateLimitedCounted | apps/api/src/metrics/http-metrics.ts:30-33 | The rate-limited counter of a route is the number of its requests answered 429 |
| HttpMetrics.BusinessCounted | apps/api/src/metrics/http-metrics.ts:42-49 | Created, opened and revoked messages are exactly the POST requests of their routes answered 201, 200 and 200 |
| HttpMetrics.RateLimitedAreClientErrors | apps/api/src/metrics/http-metrics.ts:30-33 | The rate-limited counter is part of the route's 4xx requests |
| HttpMetrics.BusinessWithinSuccesses | apps/api/src/metrics/http-metrics.ts:42-49 | Created, opened and revoked counts never exceed the 2xx responses of their route |
| IdleLock.ExpiresOnTime | apps/mobile/src/identity/idle-lock-timer.ts:41-51 | Every lock comes at least the timeout after the last reset with no stop between, and exactly then if timeouts are exact |
| IdleLock.NeverOverdue | apps/mobile/src/identity/idle-lock-timer.ts:41-66 | A countdown that is on never outlives its time without a lock |
| IdleLock.OneTimeoutBeforeTheDeadline | apps/mobile/src/identity/idle-lock-timer.ts:54-61 | At most one timeout is outstanding, exactly while a countdown is on, and never due after the deadline |
| IdleLock.NoTimerChurn | apps/mobile/src/identity/idle-lock-timer.ts:22-30 | The timeouts asked for, reschedules included, never outnumber the resets |
| IdleLock.IdleLockTimer.ResetCountdown | apps/mobile/src/identity/idle-lock-timer.ts:54-61 | Moves the deadline, and schedules only when nothing is in flight |
| IdleLock.IdleLockTimer.StopCountdown | apps/mobile/src/identity/idle-lock-timer.ts:62-67 | Clears the outstanding timeout, if any |
| IdleLock.IdleLockTimer.Fire | apps/mobile/src/identity/idle-lock-timer.ts:41-51 | Locks when the deadline is reached, else waits out the remainder |
| Contacts.Directory.AddContact | apps/mobile/src/contacts/contacts-store.ts:87-121 | The first contact that has or had the key is reported; otherwise one record is appended |
| Contacts.Directory.UpdateContactKey | apps/mobile/src/contacts/contacts-store.ts:134-161 | Not found, invalid, same and rotated-away keys are refused in this order; otherwise one record takes the new key |
| Contacts.Directory.SetContactVerified | apps/mobile/src/contacts/contacts-store.ts:163-176 | One record changes its flag, or nothing changes |
| Contacts.Directory.RenameContact | apps/mobile/src/contacts/contacts-store.ts:178-192 | One record takes the trimmed label, or nothing changes |
| Contacts.Directory.DeleteContact | apps/mobile/src/contacts/contacts-store.ts:194-199 | The records of that id go, the others stay in order |
| Contacts.NothingDeleted | apps/mobile/src/contacts/contacts-store.ts:197 | Skipping the write when no length changed loses nothing |
| ContactOutcomes.TrimIsExact | apps/mobile/src/contacts/contacts-store.ts:69 | Trimming takes white space off both ends and nothing else, and leaves none there |
| ContactOutcomes.SpacesAreListed | apps/mobile/src/contacts/contacts-store.ts:69 | White space is what the language's standard lists as white space and line terminators |
| ContactOutcomes.UnitsAreUtf16 | apps/mobile/src/contacts/contacts-store.ts:70-71 | A label is measured in UTF-16 units |
| ContactOutcomes.AddOutcome | apps/mobile/src/contacts/contacts-store.ts:87-121 | A contact is added if and only if its trimmed label has 1 to 80 units, its key decodes and no contact has or had it; it is new, unverified and as given, and otherwise the error names the reason and the first contact that clashes |
| ContactOutcomes.UpdateOutcome | apps/mobile/src/contacts/contacts-store.ts:134-161 | An update replaces the key, drops the flag, keeps the old key last among the previous ones and leaves label and creation alone; the same key and a previous one are refused |
| ContactOutcomes.VerifyOutcome | apps/mobile/src/contacts/contacts-store.ts:163-176 | Marking sets the flag and the time of one record |
| ContactOutcomes.RenameOutcome | apps/mobile/src/contacts/contacts-store.ts:178-192 | A rename sets the trimmed label and the time of one record, or is refused |
| ContactOutcomes.NoSuchContact | apps/mobile/src/contacts/contacts-store.ts:134-199 | Without a contact of that id every change is refused and nothing changes |
| ContactLaws.StepKeepsInv | apps/mobile/src/contacts/contacts-store.ts:87-199 | Every operation keeps the invariant of records and history |
| ContactLaws.KeyHistory | apps/mobile/src/contacts/contacts-store.ts:87-199 | Previous keys and current key are, in order and without repetition, all keys the contact ever had, and it is verified exactly when marked so after the last of them |
| ContactLaws.UpdateIffChanged | apps/mobile/src/contacts/key-change.ts:35-48 | An update passes the store's guards if and only if the classifier says changed, and each refusal matches its class |
| ContactLaws.SameKeyHoweverWritten | apps/mobile/src/contacts/contacts-store.ts:142-145 | None of the sixteen strings of the current key gets past the store |
| ContactLaws.RotatedAwayForGood | apps/mobile/src/contacts/contacts-store.ts:146-148 | A key rotated away stays refused, whatever happens in between |
| ContactLaws.NoClash | apps/mobile/src/contacts/contacts-store.ts:91-106 | Adding finds no clash exactly when no contact has or had the key |
| ContactLaws.AddKeepsUnique | apps/mobile/src/contacts/contacts-store.ts:91-119 | Adding keeps every key to one contact |
| ContactLaws.UpdateKeepsUniqueExactlyWhen | apps/mobile/src/contacts/contacts-store.ts:141-160 | An update does so if and only if no other contact has or had the new key |
| ContactLaws.UpdateCanShareAKey | apps/mobile/src/contacts/contacts-store.ts:141-160 | Three operations leave two contacts with one current key |

## Left out

- Cryptographic primitives and backends: ideal, as listed under the assumptions.
- The UTF-8 layer around text, names and mimetypes: byte strings stand for them, because decoding drops a byte-order mark and replaces ill-formed input.
- FloorLog2: an integer floor-log stands for `Math.floor(Math.log2(n))`; floating-point rounding is not modelled.
- JSON parsing, and numbers that are not integers: `CreateLink` starts from the parsed body, with an optional date.
- EncodeRadix: one method with an alphabet parameter stands for the encoding loops of `base64urlEncode`, `base32EncodeLower` and `bytesToBase64`, which differ in alphabet and digit width only; DecodeRadix does so for the two decoding loops.
- EncodeAfterDecode: states the exact inverse set for the two base64 alphabets; base32 has no decoder in the source.
- OpensExactlyWhenBound: `seal` and `open` are modelled on values, as the source computes them; the HPKE output is a parameter.
- Overlapping identity operations other than a lock, a completed wipe or a completed rotation during the migration tail.
- The create handler of the earlier server version: its links enter the protocol as a create with a timestamp, and the earlier sender seals like today's but with that timestamp.
- Corrupt active envelopes, state listeners, and the storage wipe's own contents.
- The get and list handlers, the rate limiter's store, aggregate statistics, and the memory and Redis stores: flat reads, or not part of the protocol's steps.
- HandleOpen: runs undisturbed, since a method has no other requests beside it; all interleavings are the business of `LinkLaws`, and `OpenIsTwoSteps` ties the two.
- Migration files whose SQL itself begins or ends transactions, and a pooled session that keeps its advisory lock after a failed unlock and is used again by another run.
- DrainBeforeClose: the scheduler's `stop` is taken not to reject, which it can do only if clearing a timer throws.
- Log output of the scheduler, the shutdown and the idle-lock timer, and the rendering order of metrics.
- `new Date`, locale-aware sorting of contacts, and listing: reads without guarantees to prove.
- Lost updates between overlapping read-modify-write operations on one blob: each contact operation is atomic.
- Strings outside the basic plane sort and measure by code point here, except contact labels, whose length is counted in UTF-16 units.
