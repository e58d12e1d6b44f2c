/**
 * The sign-up form: the checks a submit goes through before anything is
 * sent, the arguments handed to `register`, and the loading flag around the
 * call. The call itself belongs to the authentication context, which is not
 * part of this model; its outcome comes back through `Settled`.
 */
module SignupScreen {
  import opened Wrappers
  import opened Text

  const FILL_ALL_FIELDS: string := "Please fill in all fields"
  const PASSWORDS_DIFFER: string := "Passwords do not match"
  const PASSWORD_TOO_SHORT: string := "Password must be at least 6 characters"
  const MIN_PASSWORD_LENGTH: nat := 6

  /** What a submit does: an "Error" alert with a message, or `register(email, password, username)`. */
  datatype SignupOutcome =
    | Rejected(message: string)
    | Register(email: string, password: string, username: string)

  /**
   * The check chain of `handleSignup`: the first check that fails alone
   * decides the message, and `register` is reached only when all pass.
   */
  function CheckSignup(username: string, email: string, password: string, confirmPassword: string): (r: SignupOutcome)
    ensures r.Register? <==>
      && !IsBlank(username) && !IsBlank(email) && !IsBlank(password) && !IsBlank(confirmPassword)
      && password == confirmPassword && |password| >= MIN_PASSWORD_LENGTH
    ensures IsBlank(username) || IsBlank(email) || IsBlank(password) || IsBlank(confirmPassword) ==>
      r == Rejected(FILL_ALL_FIELDS)
    ensures r == Rejected(PASSWORDS_DIFFER) <==>
      && !IsBlank(username) && !IsBlank(email) && !IsBlank(password) && !IsBlank(confirmPassword)
      && password != confirmPassword
    ensures r == Rejected(PASSWORD_TOO_SHORT) <==>
      && !IsBlank(username) && !IsBlank(email) && !IsBlank(password) && !IsBlank(confirmPassword)
      && password == confirmPassword && |password| < MIN_PASSWORD_LENGTH
    ensures r.Register? ==> r == Register(Trim(email), password, Trim(username))
  {
    TrimEmptyIffBlank(username);
    TrimEmptyIffBlank(email);
    TrimEmptyIffBlank(password);
    TrimEmptyIffBlank(confirmPassword);
    if Trim(username) == "" || Trim(email) == "" || Trim(password) == "" || Trim(confirmPassword) == "" then
      Rejected(FILL_ALL_FIELDS)
    else if password != confirmPassword then
      Rejected(PASSWORDS_DIFFER)
    else if |password| < MIN_PASSWORD_LENGTH then
      Rejected(PASSWORD_TOO_SHORT)
    else
      Register(Trim(email), password, Trim(username))
  }

  /**
   * What `register` receives is usable: a non-empty trimmed email and
   * username, and the password exactly as typed, which is at least six
   * characters long and not only spaces.
   */
  lemma RegisteredArguments(username: string, email: string, password: string, confirmPassword: string)
    requires CheckSignup(username, email, password, confirmPassword).Register?
    ensures var r := CheckSignup(username, email, password, confirmPassword);
      && r.email != "" && IsTrimmed(r.email) && r.username != "" && IsTrimmed(r.username)
      && r.password == password == confirmPassword && |r.password| >= MIN_PASSWORD_LENGTH && !IsBlank(r.password)
  {
    TrimEmptyIffBlank(username);
    TrimEmptyIffBlank(email);
  }

  class SignupForm {
    var username: string
    var email: string
    var password: string
    var confirmPassword: string
    var loading: bool

    constructor ()
      ensures username == "" && email == "" && password == "" && confirmPassword == "" && !loading
    {
      username, email, password, confirmPassword := "", "", "", "";
      loading := false;
    }

    /**
     * `handleSignup` up to the call: the checks decide the outcome; when all
     * pass the loading flag is set and `register` is called.
     */
    method HandleSignup() returns (r: SignupOutcome)
      modifies this
      ensures r == CheckSignup(username, email, password, confirmPassword)
      ensures loading == (old(loading) || r.Register?)
      ensures username == old(username) && email == old(email)
      ensures password == old(password) && confirmPassword == old(confirmPassword)
    {
      r := CheckSignup(username, email, password, confirmPassword);
      if r.Register? {
        loading := true;
      }
    }

    /**
     * The `catch` and `finally` of `handleSignup`: a failed registration is
     * reported under "Registration Failed" with its message, and the loading
     * flag is cleared whatever the outcome.
     */
    method Settled(error: Option<string>) returns (alert: Option<(string, string)>)
      modifies this
      ensures !loading
      ensures error.None? <==> alert.None?
      ensures error.Some? ==> alert == Some(("Registration Failed", error.value))
      ensures username == old(username) && email == old(email)
      ensures password == old(password) && confirmPassword == old(confirmPassword)
    {
      alert := None;
      if error.Some? {
        alert := Some(("Registration Failed", error.value));
      }
      loading := false;
    }
  }
}
