/**
 * The sign-in form of `Login.tsx`: both fields must be non-empty, then the
 * store's `login` runs with the text exactly as entered.
 */
module LoginPage {
  import opened Common
  import AuthContext

  const FillAllFields := "Please fill in all fields"
  const LoginFailed := "Login failed. Please try again."

  datatype Check = MissingField | Accepted

  /** `!email || !password`: only the empty string counts as missing. */
  function CheckForm(email: string, password: string): (c: Check)
    ensures c == Accepted <==> (|email| > 0 && |password| > 0)
  {
    if email == "" || password == "" then MissingField else Accepted
  }

  /** The page's state. */
  class LoginForm {
    var email: string
    var password: string
    var error: string
    var isLoading: bool

    constructor ()
      ensures email == "" && password == "" && error == "" && !isLoading
    {
      email, password := "", "";
      error := "";
      isLoading := false;
    }

    /** `handleSubmit`: an empty field shows the message without loading or
        calling the store; otherwise `login(email, password)` runs on the
        untrimmed text, and a rejection shows its message (or the fallback)
        and ends loading. */
    method HandleSubmit(auth: AuthContext.AuthStore)
      modifies this, auth
      ensures email == old(email) && password == old(password)
      ensures CheckForm(old(email), old(password)) == MissingField ==>
        error == FillAllFields && isLoading == old(isLoading) && auth.State() == old(auth.State())
      ensures CheckForm(old(email), old(password)) == Accepted ==>
        var st := AuthContext.LoginStep(old(auth.State()), old(email), old(password));
        && auth.State() == st.next
        && (st.outcome.Resolved? ==> error == "" && isLoading)
        && (st.outcome.Rejected? ==>
              error == OrElse(st.outcome.message, LoginFailed) && error == AuthContext.InvalidCredentials && !isLoading)
    {
      error := "";
      if CheckForm(email, password) == MissingField {
        error := FillAllFields;
        return;
      }
      isLoading := true;
      var r := auth.Login(email, password);
      if r.Rejected? {
        error := OrElse(r.message, LoginFailed);
        isLoading := false;
      }
    }
  }
}
