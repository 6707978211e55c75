/**
 The first-run screen that stores the app password.
 */
module PasswordSetup {
  import opened Types

  /** The shortest password accepted, in UTF-16 code units. */
  const MinPasswordLength: nat := 4

  const TooShortError: string := "Password must be at least 4 characters long."
  const SaveFailedError: string := "Could not save password. Please ensure localStorage is enabled."

  datatype SetupState = SetupState(password: string, error: string)

  /** The state after a submit, the storage after it, and whether `onPasswordSet` was called. */
  datatype SetupTrace = SetupTrace(state: SetupState, storage: Storage, passwordSetCalled: bool)

  /**
   `handleSetPassword`: a password shorter than four code units is refused;
   otherwise it is stored under `app-password` and then `onPasswordSet` runs,
   unless `setItem` throws (`storageThrows`).
   */
  function HandleSetPassword(st: SetupState, storage: Storage, storageThrows: bool): (t: SetupTrace)
    ensures JsLength(st.password) < MinPasswordLength ==>
      t == SetupTrace(st.(error := TooShortError), storage, false)
    ensures JsLength(st.password) >= MinPasswordLength && storageThrows ==>
      t == SetupTrace(st.(error := SaveFailedError), storage, false)
    ensures t.passwordSetCalled <==> JsLength(st.password) >= MinPasswordLength && !storageThrows
    ensures t.passwordSetCalled ==>
      && PasswordKey in t.storage && t.storage[PasswordKey] == st.password
      && (forall k :: k in storage && k != PasswordKey ==> k in t.storage && t.storage[k] == storage[k])
      && t.storage.Keys == storage.Keys + {PasswordKey}
      && t.state == st
  {
    if JsLength(st.password) < MinPasswordLength then
      SetupTrace(st.(error := TooShortError), storage, false)
    else if storageThrows then
      SetupTrace(st.(error := SaveFailedError), storage, false)
    else
      SetupTrace(st, storage[PasswordKey := st.password], true)
  }

  /** Exactly four characters is enough. */
  lemma FourCharactersAccepted(storage: Storage)
    ensures HandleSetPassword(SetupState("abcd", ""), storage, false).passwordSetCalled
  {
    assert JsLength("abcd") == 4 by {
      assert "abcd"[1..] == "bcd" && "bcd"[1..] == "cd" && "cd"[1..] == "d" && "d"[1..] == "";
    }
  }

  /** Three characters is not. */
  lemma ThreeCharactersRefused(storage: Storage)
    ensures HandleSetPassword(SetupState("abc", ""), storage, false).state.error == TooShortError
  {
    assert JsLength("abc") == 3 by {
      assert "abc"[1..] == "bc" && "bc"[1..] == "c" && "c"[1..] == "";
    }
  }

  /** Length counts UTF-16 code units: two characters outside the basic plane make four, and pass. */
  lemma TwoAstralCharactersAccepted(storage: Storage)
    ensures HandleSetPassword(SetupState("\U{1F511}\U{1F511}", ""), storage, false).passwordSetCalled
  {
    var s := "\U{1F511}\U{1F511}";
    assert s[1..][1..] == "";
    assert JsLength(s) == 4;
  }

  /** An accepted password is never empty. */
  lemma AcceptedPasswordNonEmpty(st: SetupState, storage: Storage, storageThrows: bool)
    requires HandleSetPassword(st, storage, storageThrows).passwordSetCalled
    ensures st.password != ""
  {
  }
}
