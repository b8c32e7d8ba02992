/** The sign-in form of components/Auth.tsx: field validation before the
    store is consulted, the error and loading flags, and the guard in front
    of the Google flow. The Google popup itself is outside the model; its
    outcome is an input. */
module AuthForm {
  import opened Types
  import Text
  import AuthStore

  const FieldsRequired := "All fields required"
  const AuthFailed := "Authentication failed"
  const LoginCancelled := "Login cancelled."
  const GoogleFailed := "Google Login Failed. Check console/config."
  /** The placeholder a client id still contains when it was never configured. */
  const Placeholder := "YOUR_CLIENT_ID"

  datatype Form = Form(
    isRegistering: bool, email: string, password: string, name: string, loading: bool, error: string)

  /** The form after a submission, the store, and the user handed to `onLogin`
      (None when it was not called). */
  datatype Submitted = Submitted(form: Form, store: AuthStore.Store, loggedIn: Option<User>)

  /** The store call the form makes, or the validation error that precedes it. */
  function Attempt(f: Form, st: AuthStore.Store, now: int): Result<(AuthStore.Store, User)> {
    if f.isRegistering then
      if f.name == "" || f.email == "" || f.password == "" then Err(FieldsRequired)
      else AuthStore.Register(st, f.name, f.email, now)
    else
      if f.email == "" || f.password == "" then Err(FieldsRequired)
      else AuthStore.Login(st, f.email)
  }

  /** `handleSubmit`: the error is cleared and loading set; on success
      `onLogin` receives the user, on failure loading returns to false and the
      error shows the thrown message, or the generic text for an empty one. */
  function HandleSubmit(f: Form, st: AuthStore.Store, now: int): (r: Submitted)
    ensures r.loggedIn.Some? ==> r.form == f.(error := "", loading := true)
    ensures r.loggedIn.None? ==> !r.form.loading && r.form.error != "" && r.store == st
    ensures r.form.isRegistering == f.isRegistering && r.form.email == f.email
    ensures f.isRegistering && (f.name == "" || f.email == "" || f.password == "") ==>
      r.loggedIn.None? && r.form.error == FieldsRequired
    ensures !f.isRegistering && (f.email == "" || f.password == "") ==>
      r.loggedIn.None? && r.form.error == FieldsRequired
  {
    var f1 := f.(error := "", loading := true);
    match Attempt(f, st, now)
    case Ok((st', u)) => Submitted(f1, st', Some(u))
    case Err(msg) => Submitted(f1.(error := if msg != "" then msg else AuthFailed, loading := false), st, None)
  }

  /** With the fields filled, a submission does exactly what the store
      operation does: a registration succeeds unless the email is taken, a
      login exactly when the email is stored. */
  lemma SubmitDelegates(f: Form, st: AuthStore.Store, now: int)
    requires f.email != "" && f.password != "" && (f.isRegistering ==> f.name != "")
    ensures var r := HandleSubmit(f, st, now);
      && (f.isRegistering ==> (r.loggedIn.None? <==> AuthStore.FindByEmail(st.users, f.email).Some?))
      && (f.isRegistering && r.loggedIn.None? ==> r.form.error == AuthStore.UserExists)
      && (!f.isRegistering ==> (r.loggedIn.Some? <==> exists i :: 0 <= i < |st.users| && st.users[i].email == f.email))
      && (!f.isRegistering && r.loggedIn.None? ==> r.form.error == AuthStore.InvalidCredentials)
      && (!f.isRegistering && r.loggedIn.Some? ==> r.loggedIn.value.email == f.email)
  {
  }

  /** The password is checked for presence only and never reaches the store:
      two non-empty passwords lead to the same store and the same user. */
  lemma PasswordIgnored(f: Form, p1: string, p2: string, st: AuthStore.Store, now: int)
    requires p1 != "" && p2 != ""
    ensures HandleSubmit(f.(password := p1), st, now).store == HandleSubmit(f.(password := p2), st, now).store
    ensures HandleSubmit(f.(password := p1), st, now).loggedIn == HandleSubmit(f.(password := p2), st, now).loggedIn
  {
  }

  /** What the Google popup produced. */
  datatype GoogleOutcome = SignedIn(user: User) | PopupClosed | GoogleError

  /** `handleGoogle`: with an unconfigured client id only the alert is shown
      and the form is untouched; otherwise a cancelled popup and any other
      failure get their own messages, and loading returns to false. */
  function HandleGoogle(f: Form, clientId: string, outcome: GoogleOutcome): (r: (Form, Option<User>, bool))
    ensures Text.Includes(clientId, Placeholder) <==> r.2
    ensures r.2 ==> r.0 == f && r.1.None?
    ensures !r.2 && outcome.SignedIn? ==> r.1 == Some(outcome.user) && r.0 == f.(error := "", loading := true)
    ensures !r.2 && outcome.PopupClosed? ==> r.1.None? && r.0.error == LoginCancelled && !r.0.loading
    ensures !r.2 && outcome.GoogleError? ==> r.1.None? && r.0.error == GoogleFailed && !r.0.loading
  {
    if Text.Includes(clientId, Placeholder) then (f, None, true)
    else
      var f1 := f.(error := "", loading := true);
      match outcome
      case SignedIn(u) => (f1, Some(u), false)
      case PopupClosed => (f1.(error := LoginCancelled, loading := false), None, false)
      case GoogleError => (f1.(error := GoogleFailed, loading := false), None, false)
  }
}
