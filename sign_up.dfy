/** The sign-up page: two ordered checks on the password, then the account
    creation call with four of the form's fields. */
module SignUp {
  import opened Common

  /** The form fields as typed. */
  datatype Form = Form(
    fullName: string,
    email: string,
    password: string,
    confirmPassword: string,
    companyName: string,
    phone: string)

  /** The arguments of one `signUp(email, password, fullName, companyName)`
      call. */
  datatype SignUpCall = SignUpCall(email: string, password: string, fullName: string, companyName: string)

  datatype Rejection = PasswordsDiffer | PasswordTooShort

  const MinPasswordLength: nat := 6

  /** The guards of `handleSubmit`, in their order: first the confirmation
      must match, then the password must be at least six long. */
  function Validate(f: Form): (v: Option<Rejection>)
    ensures v == None <==> f.password == f.confirmPassword && |f.password| >= MinPasswordLength
  {
    if f.password != f.confirmPassword then Some(PasswordsDiffer)
    else if |f.password| < MinPasswordLength then Some(PasswordTooShort)
    else None
  }

  /** A mismatch is what gets reported whenever there is one, however short
      the password; the length is reported only for a matching pair. */
  lemma MismatchReportedFirst(f: Form)
    ensures f.password != f.confirmPassword ==> Validate(f) == Some(PasswordsDiffer)
    ensures Validate(f) == Some(PasswordTooShort) <==>
      f.password == f.confirmPassword && |f.password| < MinPasswordLength
  {
  }

  function Message(r: Rejection): string {
    match r
    case PasswordsDiffer => "As senhas não coincidem"
    case PasswordTooShort => "A senha deve ter pelo menos 6 caracteres"
  }

  const Created: string := "Conta criada com sucesso! Verifique seu email."
  const CreateFailed: string := "Erro ao criar conta"

  class SignUpPage {
    var form: Form
    var loading: bool
    var route: Option<Route>
    var toast: Option<Toast>
    /** The `signUp` calls made so far, oldest first. */
    var calls: seq<SignUpCall>

    constructor ()
      ensures form == Form("", "", "", "", "", "") && !loading
      ensures route == None && toast == None && calls == []
    {
      form := Form("", "", "", "", "", "");
      loading := false;
      route := None;
      toast := None;
      calls := [];
    }

    /** Editing the form. */
    method SetForm(f: Form)
      modifies this
      ensures form == f
      ensures loading == old(loading) && route == old(route) && toast == old(toast) && calls == old(calls)
    {
      form := f;
    }

    /** `handleSubmit`. A rejected form toasts the first failing check and
        touches nothing else: no call, no loading. An accepted one calls
        `signUp` with email, password, name and company (not the phone); on
        success the page toasts and goes to the login page, on failure
        (`failure` holds the error's message) it toasts the error and stays.
        Loading is off when the call ends. */
    method HandleSubmit(failure: Option<string>)
      modifies this
      ensures form == old(form)
      ensures Validate(form).Some? ==>
        && toast == Some(Error(Message(Validate(form).value)))
        && calls == old(calls) && loading == old(loading) && route == old(route)
      ensures Validate(form) == None ==>
        && calls == old(calls) + [SignUpCall(form.email, form.password, form.fullName, form.companyName)]
        && !loading
      ensures Validate(form) == None && failure.None? ==>
        route == Some(Login) && toast == Some(Success(Created))
      ensures Validate(form) == None && failure.Some? ==>
        route == old(route) && toast == Some(Error(MessageOr(failure.value, CreateFailed)))
    {
      if form.password != form.confirmPassword {
        toast := Some(Error(Message(PasswordsDiffer)));
        return;
      }

      if |form.password| < MinPasswordLength {
        toast := Some(Error(Message(PasswordTooShort)));
        return;
      }

      loading := true;
      calls := calls + [SignUpCall(form.email, form.password, form.fullName, form.companyName)];
      if failure.None? {
        toast := Some(Success(Created));
        route := Some(Login);
      } else {
        toast := Some(Error(MessageOr(failure.value, CreateFailed)));
      }
      loading := false;
    }
  }
}
