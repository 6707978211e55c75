/**
 The application shell: the stored list of submissions, the key shown once in
 the modal, and the password gate. Each handler is one atomic transition on
 `AppState`; the random key material, the IV, the clock and the UUID it reads
 from the environment are inputs.
 */
module App {
  import opened Wrappers
  import opened Base64
  import opened Types
  import opened CryptoService

  datatype AppState = AppState(
    submissions: seq<Submission>,
    generatedKey: Option<string>,
    isKeyModalOpen: bool,
    passwordIsSet: bool)

  /**
   What one `handleFormSubmit` call reads from outside: the foreign
   primitives, the key generator's bytes (`None` when it fails), the IV drawn by
   `encryptData`, `new Date().toISOString()` and `crypto.randomUUID()`.
   */
  datatype Environment = Environment(
    platform: Platform,
    json: JsonCodec,
    keyMaterial: Option<KeyMaterial>,
    iv: IvBytes,
    now: string,
    uuid: string)

  /**
   The state on load: submissions come from storage and the gate is open when
   `app-password` holds a non-empty string (`!!` of the stored value).
   */
  function InitialState(stored: seq<Submission>, storage: Storage): (st: AppState)
    ensures st.submissions == stored
    ensures st.generatedKey.None? && !st.isKeyModalOpen
    ensures st.passwordIsSet <==> PasswordKey in storage && storage[PasswordKey] != ""
  {
    AppState(stored, None, false, match GetItem(storage, PasswordKey) case Some(p) => p != "" case None => false)
  }

  /**
   Whether the `try` in `handleFormSubmit` completes: the key generator
   delivers bytes and the platform seals the serialised payload under them.
   */
  predicate Encrypts(env: Environment, name: string, message: string, signature: Option<string>) {
    && env.keyMaterial.Some?
    && env.platform.seal(
         env.keyMaterial.value, env.iv,
         env.platform.encodeUtf8(env.json.stringify(Payload(name, message, signature, env.now)))).Some?
  }

  /**
   The body of the `try` in `handleFormSubmit`: generate a key, export it,
   serialise the payload, encrypt it, and build the record. Returns the record
   and the exported key.
   */
  function CreateSubmission(env: Environment, name: string, message: string, signature: Option<string>)
    : (r: Result<(Submission, string), Exception>)
    ensures r.Ok? <==> Encrypts(env, name, message, signature)
    ensures r.Err? ==> r.error == OperationError
    ensures r.Ok? ==>
      var key := GenerateKey(env.keyMaterial).value;
      var enc := EncryptData(env.platform, env.json.stringify(Payload(name, message, signature, env.now)), key, env.iv);
      && enc.Ok?
      && r.value.0 == Submission(env.uuid, enc.value.encryptedData, enc.value.iv)
      && ExportKey(key) == Ok(r.value.1)
  {
    match GenerateKey(env.keyMaterial)
    case Err(e) => Err(e)
    case Ok(key) =>
      match ExportKey(key)
      case Err(e) => Err(e)
      case Ok(exportedKey) =>
        var dataToEncrypt := env.json.stringify(Payload(name, message, signature, env.now));
        match EncryptData(env.platform, dataToEncrypt, key, env.iv)
        case Err(e) => Err(e)
        case Ok(encryptedResult) =>
          Ok((Submission(env.uuid, encryptedResult.encryptedData, encryptedResult.iv), exportedKey))
  }

  /** The state after `handleFormSubmit`, and whether its `catch` ran (the alert). */
  datatype SubmitResult = SubmitResult(state: AppState, failed: bool)

  /**
   `handleFormSubmit`: on success one record is appended and the modal opens on
   the exported key; on any failure nothing changes. It never rethrows.
   */
  function HandleFormSubmit(st: AppState, env: Environment, name: string, message: string, signature: Option<string>)
    : (r: SubmitResult)
    ensures r.failed <==> !Encrypts(env, name, message, signature)
    ensures r.failed ==> r.state == st
    ensures !r.failed ==>
      && |r.state.submissions| == |st.submissions| + 1
      && r.state.submissions[..|st.submissions|] == st.submissions
      && r.state.submissions[|st.submissions|].id == env.uuid
      && r.state.isKeyModalOpen
      && r.state.generatedKey == Some(ArrayBufferToBase64(env.keyMaterial.value))
    ensures r.state.passwordIsSet == st.passwordIsSet
  {
    match CreateSubmission(env, name, message, signature)
    case Err(_) => SubmitResult(st, true)
    case Ok((newSubmission, exportedKey)) =>
      var submissions := st.submissions + [newSubmission];
      assert submissions[..|st.submissions|] == st.submissions;
      SubmitResult(st.(submissions := submissions, generatedKey := Some(exportedKey), isKeyModalOpen := true), false)
  }

  /** `handleCloseModal`: the modal closes and the shown key is forgotten; nothing else changes. */
  function HandleCloseModal(st: AppState): (r: AppState)
    ensures !r.isKeyModalOpen && r.generatedKey.None?
    ensures r.submissions == st.submissions && r.passwordIsSet == st.passwordIsSet
  {
    st.(isKeyModalOpen := false, generatedKey := None)
  }

  /** What the shell renders. */
  datatype View =
    | PasswordSetupView
    | MainView(submissions: seq<Submission>, modalOpen: bool, modalKey: Option<string>)

  function Render(st: AppState): (v: View)
    ensures v.PasswordSetupView? <==> !st.passwordIsSet
    ensures v.MainView? ==> v.submissions == st.submissions && v.modalOpen == st.isKeyModalOpen && v.modalKey == st.generatedKey
  {
    if !st.passwordIsSet then PasswordSetupView
    else MainView(st.submissions, st.isKeyModalOpen, st.generatedKey)
  }

  /** The events the shell reacts to. */
  datatype Event =
    | PasswordSet
    | FormSubmitted(env: Environment, name: string, message: string, signature: Option<string>)
    | ModalClosed

  /**
   One transition. While the gate is closed only the password-setup screen is
   mounted, so the form and the modal cannot raise events.
   */
  function Step(st: AppState, e: Event): (r: AppState)
    ensures !st.passwordIsSet && !e.PasswordSet? ==> r == st
    ensures st.passwordIsSet ==> r.passwordIsSet
  {
    match e
    case PasswordSet => st.(passwordIsSet := true)
    case FormSubmitted(env, name, message, signature) =>
      if st.passwordIsSet then HandleFormSubmit(st, env, name, message, signature).state else st
    case ModalClosed =>
      if st.passwordIsSet then HandleCloseModal(st) else st
  }

  /**
   Over any sequence of events the gate never closes again once open, and a
   closed gate ends open only if the setup callback was among the events.
   */
  lemma {:induction false} GateOpensOnlyOnSetup(st: AppState, events: seq<Event>)
    ensures st.passwordIsSet ==> Run(st, events).passwordIsSet
    ensures !st.passwordIsSet && Run(st, events).passwordIsSet ==>
      exists i :: 0 <= i < |events| && events[i].PasswordSet?
    decreases |events|
  {
    if |events| > 0 {
      var next := Step(st, events[0]);
      GateOpensOnlyOnSetup(next, events[1..]);
      if events[0].PasswordSet? {
        assert 0 < |events| && events[0].PasswordSet?;
      } else if !st.passwordIsSet && Run(st, events).passwordIsSet {
        assert next == st;
        var i :| 0 <= i < |events[1..]| && events[1..][i].PasswordSet?;
        assert events[i + 1].PasswordSet?;
      }
    }
  }

  /** One step keeps the stored list as a prefix of the new one. */
  lemma StepKeepsPrefix(st: AppState, e: Event)
    ensures |st.submissions| <= |Step(st, e).submissions|
    ensures Step(st, e).submissions[..|st.submissions|] == st.submissions
  {
  }

  /** Records are only ever appended: each step keeps the earlier list as a prefix. */
  lemma {:induction false} SubmissionsOnlyGrow(st: AppState, events: seq<Event>)
    ensures |st.submissions| <= |Run(st, events).submissions|
    ensures Run(st, events).submissions[..|st.submissions|] == st.submissions
    decreases |events|
  {
    if |events| > 0 {
      var next := Step(st, events[0]);
      StepKeepsPrefix(st, events[0]);
      SubmissionsOnlyGrow(next, events[1..]);
      var final := Run(next, events[1..]).submissions;
      assert final[..|next.submissions|] == next.submissions;
      assert final[..|st.submissions|] == final[..|next.submissions|][..|st.submissions|];
    }
  }

  /** The state after a sequence of events. */
  function Run(st: AppState, events: seq<Event>): (r: AppState)
    decreases |events|
  {
    if |events| == 0 then st else Run(Step(st, events[0]), events[1..])
  }

  /**
   The key shown in the modal is the export of the key that encrypted the new
   record: imported again and used on that record's own ciphertext and IV, it
   yields the serialised payload, which parses back to name, message,
   signature and timestamp.
   */
  lemma ShownKeyOpensNewRecord(st: AppState, env: Environment, name: string, message: string, signature: Option<string>)
    requires env.platform.Valid() && env.json.Valid()
    requires Encrypts(env, name, message, signature)
    ensures var r := HandleFormSubmit(st, env, name, message, signature).state;
      var rec := r.submissions[|r.submissions| - 1];
      var key := ImportKey(r.generatedKey.value);
      var payload := Payload(name, message, signature, env.now);
      && key.Ok?
      && DecryptData(env.platform, rec.encryptedData, rec.iv, key.value) == Ok(env.json.stringify(payload))
      && env.json.parse(env.json.stringify(payload)) == Some(payload)
  {
    var key := GenerateKey(env.keyMaterial).value;
    var data := env.json.stringify(Payload(name, message, signature, env.now));
    GeneratedKeyRoundTrip(env.keyMaterial.value);
    EncryptDecryptRoundTrip(env.platform, data, key, env.iv);
  }

  /** The new record's IV field is 16 base64 characters and its fields are those `encryptData` returned. */
  lemma NewRecordFields(st: AppState, env: Environment, name: string, message: string, signature: Option<string>)
    requires Encrypts(env, name, message, signature)
    ensures var r := HandleFormSubmit(st, env, name, message, signature).state;
      var rec := r.submissions[|r.submissions| - 1];
      var key := GenerateKey(env.keyMaterial).value;
      var enc := EncryptData(env.platform, env.json.stringify(Payload(name, message, signature, env.now)), key, env.iv);
      && enc.Ok?
      && rec.encryptedData == enc.value.encryptedData && rec.iv == enc.value.iv
      && |rec.iv| == 16
      && |r.generatedKey.value| == 44
  {
    var key := GenerateKey(env.keyMaterial).value;
    var enc := EncryptData(env.platform, env.json.stringify(Payload(name, message, signature, env.now)), key, env.iv);
    IvStringShape(env.platform, env.json.stringify(Payload(name, message, signature, env.now)), key, env.iv);
    ExportedKeyShape(env.keyMaterial.value);
  }

  /** With a working generator, any payload whose UTF-8 form is within AES-GCM's limit is stored. */
  lemma SmallPayloadEncrypts(env: Environment, name: string, message: string, signature: Option<string>)
    requires env.platform.Valid()
    requires env.keyMaterial.Some?
    requires |env.platform.encodeUtf8(env.json.stringify(Payload(name, message, signature, env.now)))| <= MaxPlaintextBytes
    ensures Encrypts(env, name, message, signature)
    ensures !HandleFormSubmit(AppState([], None, false, true), env, name, message, signature).failed
  {
  }
}
