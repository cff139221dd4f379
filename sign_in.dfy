/** The login page: sign in, then send the admin address to the admin
    console and everyone else to the client dashboard. */
module SignIn {
  import opened Common
  import opened AdminConsole

  /** How `signIn` ended: with a user, or with an error carrying a
      message. */
  datatype SignInReply = SignedIn(user: User) | Refused(message: string)

  /** Where a signed-in user is sent. */
  function LoginRoute(u: User): (r: Route)
    ensures r == Admin <==> IsAdmin(u.email)
    ensures r != Login
  {
    if IsAdmin(u.email) then Admin else Dashboard
  }

  /** Whoever the login page sends to the admin console gets through that
      page's gate, and whoever it sends to the dashboard is sent back to the
      dashboard by that gate: both pages use the same admin predicate. */
  lemma LoginAgreesWithAdminGate(u: User)
    ensures LoginRoute(u) == Admin <==> AdminGate(Some(u)) == Enter
    ensures LoginRoute(u) == Dashboard <==> AdminGate(Some(u)) == Redirect(Dashboard)
  {
  }

  /** The admin predicate is exact: a user whose address differs from the
      admin address in any way goes to the client dashboard. */
  lemma AdminEmailIsExact(u: User)
    requires u.email != AdminEmail
    ensures LoginRoute(u) == Dashboard
  {
  }

  /** Letter case counts: the admin address with a capital first letter is
      sent to the client dashboard. */
  lemma AdminEmailCaseMatters(id: string)
    ensures LoginRoute(User(id, "Admin@techgarantias.com.br")) == Dashboard
  {
    assert "Admin@techgarantias.com.br"[0] != AdminEmail[0];
  }

  /** The form fields as typed. */
  datatype Form = Form(email: string, password: string)

  /** The arguments of one `signIn(email, password)` call. */
  datatype SignInCall = SignInCall(email: string, password: string)

  const SignedInMessage: string := "Login realizado com sucesso!"
  const SignInFailed: string := "Erro ao fazer login"

  class LoginPage {
    var form: Form
    var loading: bool
    var route: Option<Route>
    var toast: Option<Toast>
    /** The `signIn` calls made so far, oldest first. */
    var calls: seq<SignInCall>

    constructor ()
      ensures form == Form("", "") && !loading && route == None && toast == None && calls == []
    {
      form := Form("", "");
      loading := false;
      route := None;
      toast := None;
      calls := [];
    }

    /** Editing the form. */
    method SetForm(f: Form)
      modifies this
      ensures form == f
      ensures loading == old(loading) && route == old(route) && toast == old(toast) && calls == old(calls)
    {
      form := f;
    }

    /** `handleSubmit`: calls `signIn` with the form's email and password;
        `reply` is how that call ended. A signed-in user is toasted and
        routed by the admin predicate; a refusal is toasted and the page
        stays. Loading is off afterwards either way. */
    method HandleSubmit(reply: SignInReply)
      modifies this
      ensures form == old(form) && !loading
      ensures calls == old(calls) + [SignInCall(form.email, form.password)]
      ensures reply.SignedIn? ==>
        route == Some(LoginRoute(reply.user)) && toast == Some(Success(SignedInMessage))
      ensures reply.Refused? ==>
        route == old(route) && toast == Some(Error(MessageOr(reply.message, SignInFailed)))
    {
      loading := true;
      calls := calls + [SignInCall(form.email, form.password)];
      match reply {
        case SignedIn(user) =>
          toast := Some(Success(SignedInMessage));
          var isAdmin := IsAdmin(user.email);
          if isAdmin {
            route := Some(Admin);
          } else {
            route := Some(Dashboard);
          }
        case Refused(message) =>
          toast := Some(Error(MessageOr(message, SignInFailed)));
      }
      loading := false;
    }
  }
}
