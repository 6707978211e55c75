/**
 The submission form: validation of the fields and the password before the
 submit callback, and the reset after it.
 */
module SubmissionForm {
  import opened Wrappers
  import opened Types

  const MissingFieldsError: string := "Please fill out all fields including signature."
  const WrongPasswordError: string := "Incorrect password. Please try again."

  /** The form's local state. `signature` is `None` for `null`, otherwise a data URL. */
  datatype FormState = FormState(
    name: string,
    message: string,
    password: string,
    signature: Option<string>,
    isSubmitting: bool,
    error: Option<string>)

  function InitialForm(): (f: FormState) {
    FormState("", "", "", None, false, None)
  }

  /** JavaScript truthiness of `string | null`: `null` and `""` are falsy. */
  predicate Truthy(s: Option<string>) {
    s.Some? && s.value != ""
  }

  /** The arguments passed to `onSubmit`. The password is not among them. */
  datatype SubmitCall = SubmitCall(name: string, message: string, signature: Option<string>)

  /**
   One submit: the state after it, the `onSubmit` call made (if any), and
   whether the handler's promise rejects because `onSubmit` threw.
   */
  datatype SubmitTrace = SubmitTrace(state: FormState, call: Option<SubmitCall>, rejected: bool)

  /** The two checks in order: missing fields first, then the stored password. */
  function Validate(form: FormState, storage: Storage): (r: Option<string>)
    ensures r.None? <==>
      form.name != "" && form.message != "" && form.password != "" && Truthy(form.signature)
      && PasswordKey in storage && storage[PasswordKey] == form.password
    ensures r.Some? ==> r.value == MissingFieldsError || r.value == WrongPasswordError
  {
    if form.name == "" || form.message == "" || form.password == "" || !Truthy(form.signature) then
      Some(MissingFieldsError)
    else if GetItem(storage, PasswordKey) != Some(form.password) then
      Some(WrongPasswordError)
    else
      None
  }

  /**
   `handleSubmit`. `onSubmitThrows` says whether the awaited callback rejects.
   On success the fields reset; `isSubmitting` ends false either way.
   */
  function HandleSubmit(form: FormState, storage: Storage, onSubmitThrows: bool): (t: SubmitTrace)
    ensures Validate(form, storage).Some? ==>
      && t.call.None? && !t.rejected
      && t.state == form.(error := Validate(form, storage))
    ensures Validate(form, storage).None? ==>
      && t.call == Some(SubmitCall(form.name, form.message, form.signature))
      && t.state.error.None? && !t.state.isSubmitting
      && t.rejected == onSubmitThrows
      && (onSubmitThrows ==> t.state == form.(error := None, isSubmitting := false))
      && (!onSubmitThrows ==> t.state == InitialForm())
  {
    var cleared := form.(error := None);
    match Validate(form, storage)
    case Some(message) => SubmitTrace(cleared.(error := Some(message)), None, false)
    case None =>
      var call := SubmitCall(form.name, form.message, form.signature);
      var submitting := cleared.(isSubmitting := true);
      var settled :=
        if onSubmitThrows then submitting
        else submitting.(name := "", message := "", password := "", signature := None);
      SubmitTrace(settled.(isSubmitting := false), Some(call), onSubmitThrows)
  }

  /** A missing field is reported even when the password is also wrong or none is stored. */
  lemma MissingFieldsFirst(form: FormState, storage: Storage)
    requires form.name == "" || form.message == "" || form.password == "" || !Truthy(form.signature)
    ensures HandleSubmit(form, storage, false).state.error == Some(MissingFieldsError)
    ensures HandleSubmit(form, storage, false).call.None?
  {
  }

  /** With every field filled, any password other than the stored one, or no stored password, is refused. */
  lemma WrongPasswordRefused(form: FormState, storage: Storage, onSubmitThrows: bool)
    requires form.name != "" && form.message != "" && form.password != "" && Truthy(form.signature)
    requires GetItem(storage, PasswordKey) != Some(form.password)
    ensures HandleSubmit(form, storage, onSubmitThrows).state.error == Some(WrongPasswordError)
    ensures HandleSubmit(form, storage, onSubmitThrows).call.None?
  {
  }

  /** A signature that is an empty string counts as missing, like `null`. */
  lemma EmptySignatureIsMissing(form: FormState, storage: Storage)
    requires form.signature == Some("")
    ensures HandleSubmit(form, storage, false).call.None?
  {
  }
}
