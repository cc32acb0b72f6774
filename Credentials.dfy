/**
 * The API-key lookup of the front end: the key is read from the browser's
 * local storage and, when none is stored, asked of the user and remembered.
 *
 * The storage is a class with a map field that the lookup updates in place;
 * the user's answer to the prompt dialog is a parameter (`None` stands for the
 * dialog being cancelled, which the browser reports as `null`).
 */
module Credentials {
  import opened Wrappers

  /** The local-storage key under which the API key is remembered. */
  const StorageKey: string := "geminiApiKey"

  /** The message of the error raised when no key is stored and none is given. */
  const MissingKeyMessage: string := "API key is required to use this application."

  /** JavaScript truthiness of a value that is `null` or a string: `null` and "" are falsy. */
  predicate Truthy(v: Option<string>)
  {
    v.Some? && v.value != ""
  }

  /**
   * What one lookup does: the key it returns (or the error it raises), whether
   * it asked the user, and what is stored under StorageKey afterwards.
   */
  datatype KeyOutcome = KeyOutcome(result: Result<string, string>, prompted: bool, stored: Option<string>)

  /**
   * The lookup as a function of what was stored under StorageKey and of the
   * answer the user would give if asked.
   */
  function ResolveKey(stored: Option<string>, answer: Option<string>): (o: KeyOutcome)
    ensures o.prompted <==> !Truthy(stored)
    ensures o.result.Failure? <==> !Truthy(stored) && !Truthy(answer)
    ensures o.result.Failure? ==> o.result.error == MissingKeyMessage && o.stored == stored
    ensures o.result.Success? ==> o.result.value != "" && o.stored == Some(o.result.value)
    ensures Truthy(stored) ==> o == KeyOutcome(Success(stored.value), false, stored)
    ensures !Truthy(stored) && Truthy(answer) ==> o.result == Success(answer.value)
  {
    if Truthy(stored) then
      KeyOutcome(Success(stored.value), false, stored)
    else if Truthy(answer) then
      KeyOutcome(Success(answer.value), true, answer)
    else
      KeyOutcome(Failure(MissingKeyMessage), true, stored)
  }

  /**
   * A key once obtained is remembered: the next lookup returns the same key
   * without asking, whatever the user would answer then.
   */
  lemma ResolvedKeyIsRemembered(stored: Option<string>, answer: Option<string>, later: Option<string>)
    requires ResolveKey(stored, answer).result.Success?
    ensures var first := ResolveKey(stored, answer);
            ResolveKey(first.stored, later) == KeyOutcome(first.result, false, first.stored)
  {
    var first := ResolveKey(stored, answer);
    assert Truthy(first.stored);
  }

  /**
   * A failed lookup leaves the store as it was, so the next lookup asks again
   * and succeeds exactly when the new answer is a non-empty string.
   */
  lemma FailedLookupAsksAgain(stored: Option<string>, answer: Option<string>, later: Option<string>)
    requires ResolveKey(stored, answer).result.Failure?
    ensures var second := ResolveKey(ResolveKey(stored, answer).stored, later);
            second.prompted && (second.result.Success? <==> Truthy(later))
  {
  }

  /** The browser's local storage, reduced to the string map it holds. */
  class KeyStore {
    var items: map<string, string>

    /** An empty storage. */
    constructor ()
      ensures items == map[]
    {
      items := map[];
    }

    /** `localStorage.getItem(key)`: the stored string, or `None` for `null`. */
    function GetItem(key: string): (r: Option<string>)
      reads this
      ensures r.Some? <==> key in items
      ensures r.Some? ==> r.value == items[key]
    {
      if key in items then Some(items[key]) else None
    }

    /** `localStorage.setItem(key, value)`. */
    method SetItem(key: string, value: string)
      modifies this
      ensures items == old(items)[key := value]
    {
      items := items[key := value];
    }

    /**
     * `getApiKey()`: returns the stored key when it is non-empty; otherwise
     * asks the user, stores a non-empty answer and returns it, and raises
     * MissingKeyMessage when the answer is empty or the dialog is cancelled.
     * Only the entry under StorageKey may change, and only when the user was
     * asked and gave a key.
     */
    method GetApiKey(answer: Option<string>) returns (r: Result<string, string>, prompted: bool)
      modifies this
      ensures KeyOutcome(r, prompted, GetItem(StorageKey)) == ResolveKey(old(GetItem(StorageKey)), answer)
      ensures prompted && r.Success? ==> items == old(items)[StorageKey := r.value]
      ensures !(prompted && r.Success?) ==> items == old(items)
    {
      var key := GetItem(StorageKey);
      prompted := false;
      if !Truthy(key) {
        key := answer;
        prompted := true;
        if Truthy(key) {
          SetItem(StorageKey, key.value);
        } else {
          r := Failure(MissingKeyMessage);
          return;
        }
      }
      r := Success(key.value);
    }
  }
}
