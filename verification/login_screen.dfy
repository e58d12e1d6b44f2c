/**
 * The sign-in form: the one check a submit goes through, the arguments
 * handed to `login`, and the loading flag around the call. The call itself
 * belongs to the authentication context, which is not part of this model;
 * its outcome comes back through `Settled`.
 */
module LoginScreen {
  import opened Wrappers
  import opened Text
  import opened SignupScreen

  /** What a submit does: an "Error" alert with a message, or `login(email, password)`. */
  datatype LoginOutcome =
    | Refused(message: string)
    | Login(email: string, password: string)

  /** The check of `handleLogin`: both fields must hold more than spaces. */
  function CheckLogin(email: string, password: string): (r: LoginOutcome)
    ensures r.Login? <==> !IsBlank(email) && !IsBlank(password)
    ensures r.Refused? ==> r.message == FILL_ALL_FIELDS
    ensures r.Login? ==> r.email == Trim(email) && r.email != "" && IsTrimmed(r.email)
    ensures r.Login? ==> r.password == password && !IsBlank(r.password)
  {
    TrimEmptyIffBlank(email);
    TrimEmptyIffBlank(password);
    if Trim(email) == "" || Trim(password) == "" then Refused(FILL_ALL_FIELDS)
    else Login(Trim(email), password)
  }

  /** Spaces around the email do not change the sign-in request. */
  lemma LoginIgnoresSurroundingSpaces(email: string, password: string)
    requires CheckLogin(email, password).Login?
    ensures CheckLogin(Trim(email), password) == CheckLogin(email, password)
  {
    TrimKeepsTrimmed(Trim(email));
  }

  class LoginForm {
    var email: string
    var password: string
    var loading: bool

    constructor ()
      ensures email == "" && password == "" && !loading
    {
      email, password, loading := "", "", false;
    }

    /** `handleLogin` up to the call: the check, then the loading flag and `login`. */
    method HandleLogin() returns (r: LoginOutcome)
      modifies this
      ensures r == CheckLogin(email, password)
      ensures loading == (old(loading) || r.Login?)
      ensures email == old(email) && password == old(password)
    {
      r := CheckLogin(email, password);
      if r.Login? {
        loading := true;
      }
    }

    /**
     * The `catch` and `finally` of `handleLogin`: a failed sign-in is reported
     * under "Login Failed" with its message, and the loading flag is cleared
     * whether the call succeeded or failed.
     */
    method Settled(error: Option<string>) returns (alert: Option<(string, string)>)
      modifies this
      ensures !loading
      ensures error.None? <==> alert.None?
      ensures error.Some? ==> alert == Some(("Login Failed", error.value))
      ensures email == old(email) && password == old(password)
    {
      alert := None;
      if error.Some? {
        alert := Some(("Login Failed", error.value));
      }
      loading := false;
    }
  }

  /** A whole attempt that passes the check ends with the loading flag cleared, whatever `login` answers. */
  method Attempt(form: LoginForm, error: Option<string>) returns (r: LoginOutcome, alert: Option<(string, string)>)
    modifies form
    ensures r == CheckLogin(old(form.email), old(form.password))
    ensures r.Login? ==> !form.loading && (error.Some? <==> alert.Some?)
    ensures r.Refused? ==> form.loading == old(form.loading) && alert.None?
  {
    r := form.HandleLogin();
    alert := None;
    if r.Login? {
      alert := form.Settled(error);
    }
  }
}
