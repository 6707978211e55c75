/**
 The components wired together as the shell wires them: the form's `onSubmit`
 is the shell's `handleFormSubmit`, the setup screen's `onPasswordSet` opens
 the gate, and the list renders the shell's submissions.
 */
module Lifecycle {
  import opened Wrappers
  import opened Types
  import opened CryptoService
  import App
  import SubmissionsList
  import SubmissionForm
  import PasswordSetup

  /**
   A submit from the form: validation, then the shell's handler with the
   form's values. The handler catches every failure, so its promise always
   resolves: the form's `onSubmitThrows` is `false` here by construction, and
   `!r.1.rejected` records that choice rather than proving it.
   */
  function SubmitFromForm(app: App.AppState, form: SubmissionForm.FormState, storage: Storage, env: App.Environment)
    : (r: (App.AppState, SubmissionForm.SubmitTrace))
    ensures r.1.call.None? ==> r.0 == app
    ensures r.1.call.Some? ==> r.0 == App.HandleFormSubmit(app, env, form.name, form.message, form.signature).state
    ensures !r.1.rejected
  {
    var trace := SubmissionForm.HandleSubmit(form, storage, false);
    match trace.call
    case None => (app, trace)
    case Some(call) => (App.HandleFormSubmit(app, env, call.name, call.message, call.signature).state, trace)
  }

  /**
   When key generation or encryption fails the shell only alerts and stores
   nothing, yet the form still clears every field: the typed message is lost.
   */
  lemma FormClearsEvenWhenEncryptionFails(app: App.AppState, form: SubmissionForm.FormState, storage: Storage, env: App.Environment)
    requires SubmissionForm.Validate(form, storage).None?
    requires !App.Encrypts(env, form.name, form.message, form.signature)
    ensures SubmitFromForm(app, form, storage, env).0 == app
    ensures SubmitFromForm(app, form, storage, env).1.state == SubmissionForm.InitialForm()
  {
  }

  /**
   After the setup screen stores a password, a reload finds the gate open, and
   the form accepts that same password.
   */
  lemma SetupOpensGateAndForm(
    setup: PasswordSetup.SetupState, storage: Storage, stored: seq<Submission>,
    form: SubmissionForm.FormState)
    requires PasswordSetup.HandleSetPassword(setup, storage, false).passwordSetCalled
    requires form.name != "" && form.message != "" && SubmissionForm.Truthy(form.signature)
    requires form.password == setup.password
    ensures var after := PasswordSetup.HandleSetPassword(setup, storage, false).storage;
      && App.InitialState(stored, after).passwordIsSet
      && SubmissionForm.Validate(form, after).None?
  {
    PasswordSetup.AcceptedPasswordNonEmpty(setup, storage, false);
  }

  /**
   The whole round: a valid form submit appends a record that is shown first
   in the list; typing the key shown in the modal into that card and clicking
   Decrypt displays exactly the name, message, signature and timestamp that
   were submitted.
   */
  lemma SubmitThenDecrypt(
    app: App.AppState, form: SubmissionForm.FormState, storage: Storage, env: App.Environment,
    card: SubmissionsList.CardState)
    requires env.platform.Valid() && env.json.Valid()
    requires App.Encrypts(env, form.name, form.message, form.signature)
    requires SubmissionForm.Validate(form, storage).None?
    ensures var after := SubmitFromForm(app, form, storage, env).0;
      var view := SubmissionsList.RenderList(after.submissions);
      && view.Cards?
      && view.cards[0] == after.submissions[|after.submissions| - 1]
      && after.generatedKey.Some?
      && var shown := after.generatedKey.value;
         SubmissionsList.HandleDecrypt(card.(decryptionKey := shown), env.platform, env.json, view.cards[0]).final.content
           == Some(Payload(form.name, form.message, form.signature, env.now))
  {
    var after := SubmitFromForm(app, form, storage, env).0;
    assert after == App.HandleFormSubmit(app, env, form.name, form.message, form.signature).state;
    App.ShownKeyOpensNewRecord(app, env, form.name, form.message, form.signature);
    SubmissionsList.AppendShowsFirst(app.submissions, after.submissions[|after.submissions| - 1]);
    assert after.submissions == app.submissions + [after.submissions[|after.submissions| - 1]];
    var shown := after.generatedKey.value;
    assert |shown| == 44 by {
      App.NewRecordFields(app, env, form.name, form.message, form.signature);
    }
  }
}
