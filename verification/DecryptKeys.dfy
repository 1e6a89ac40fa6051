/** `decrypt-keys.ts`: the active key first, then the retired ones, until one decrypts. */
module DecryptKeys {
  import opened IdentityBundle
  import opened Identity

  /** What decrypting with one key gives; only a `DecryptionError` moves on to the next key. */
  datatype Attempt<T> = Opened(value: T) | DecryptionError(reason: nat) | OtherError(reason: nat)

  const DEFAULT_REASON: nat := 0

  function AllPrivateKeysForDecrypt(state: State): seq<Key> {
    if !state.Unlocked? then [] else [state.identity] + state.retiredKeys
  }

  /** The loop from `lastError` on. */
  function Fallback<T>(keys: seq<Key>, attempt: Key -> Attempt<T>, lastError: nat): Attempt<T> {
    if keys == [] then DecryptionError(lastError)
    else
      match attempt(keys[0])
      case DecryptionError(reason) => Fallback(keys[1..], attempt, reason)
      case answer => answer
  }

  method DecryptWithKeyFallback<T>(keys: seq<Key>, attempt: Key -> Attempt<T>) returns (r: Attempt<T>)
    ensures r == Fallback(keys, attempt, DEFAULT_REASON)
  {
    var lastError := DEFAULT_REASON;
    assert keys[0..] == keys;
    for i := 0 to |keys|
      invariant lastError >= 0
      invariant Fallback(keys, attempt, DEFAULT_REASON) == Fallback(keys[i..], attempt, lastError)
    {
      assert keys[i..][1..] == keys[i + 1..];
      var answer := attempt(keys[i]);
      if !answer.DecryptionError? {
        return answer;
      }
      lastError := answer.reason;
    }
    return DecryptionError(lastError);
  }

  /** The first key that answers with anything but a decryption error decides, and no later key matters. */
  lemma {:induction false} FirstAnswerDecides<T>(keys: seq<Key>, attempt: Key -> Attempt<T>, lastError: nat, i: nat)
    requires i < |keys| && !attempt(keys[i]).DecryptionError?
    requires forall j :: 0 <= j < i ==> attempt(keys[j]).DecryptionError?
    ensures Fallback(keys, attempt, lastError) == attempt(keys[i])
  {
    if i > 0 {
      FirstAnswerDecides(keys[1..], attempt, attempt(keys[0]).reason, i - 1);
    }
  }

  /** The active key is tried before any retired one, and those in their order; a session that is not unlocked has none. */
  lemma ActiveKeyFirst<T>(state: State, attempt: Key -> Attempt<T>)
    ensures Fallback(AllPrivateKeysForDecrypt(state), attempt, DEFAULT_REASON)
         == if !state.Unlocked? then DecryptionError(DEFAULT_REASON)
            else
              match attempt(state.identity)
              case DecryptionError(reason) => Fallback(state.retiredKeys, attempt, reason)
              case answer => answer
  {
    if state.Unlocked? {
      assert ([state.identity] + state.retiredKeys)[1..] == state.retiredKeys;
    }
  }

  /** If no key answers, the error of the last one tried is the result. */
  lemma {:induction false} AllKeysWrong<T>(keys: seq<Key>, attempt: Key -> Attempt<T>, lastError: nat)
    requires forall j :: 0 <= j < |keys| ==> attempt(keys[j]).DecryptionError?
    ensures Fallback(keys, attempt, lastError)
         == if keys == [] then DecryptionError(lastError) else attempt(keys[|keys| - 1])
  {
    if |keys| > 1 {
      AllKeysWrong(keys[1..], attempt, attempt(keys[0]).reason);
    }
  }

  /** Ideal encryption: a message sealed to `sealedTo` opens under that key only. */
  function OpenWith<T>(sealedTo: Key, m: T): Key -> Attempt<T> {
    k => if k == sealedTo then Opened(m) else DecryptionError(1)
  }

  /** A message opens through the fallback exactly when its key is held, wherever in the list it stands. */
  lemma OpensIffHeld<T>(keys: seq<Key>, sealedTo: Key, m: T)
    ensures Fallback(keys, OpenWith(sealedTo, m), DEFAULT_REASON) == Opened(m) <==> sealedTo in keys
  {
    if sealedTo in keys {
      var i := FirstIndex(keys, sealedTo);
      FirstAnswerDecides(keys, OpenWith(sealedTo, m), DEFAULT_REASON, i);
    } else {
      AllKeysWrong(keys, OpenWith(sealedTo, m), DEFAULT_REASON);
    }
  }

  function FirstIndex(keys: seq<Key>, k: Key): (i: nat)
    requires k in keys
    ensures i < |keys| && keys[i] == k && k !in keys[..i]
  {
    if keys[0] == k then 0
    else
      assert keys == [keys[0]] + keys[1..];
      var i := FirstIndex(keys[1..], k) + 1;
      assert keys[..i] == [keys[0]] + keys[1..][..i - 1];
      i
  }
}
