/**
 * The sign-up form of `Register.tsx`: three ordered checks on the four
 * fields (all filled, password long enough, confirmation equal), and only
 * then a call to the store's `register`.
 */
module RegisterPage {
  import opened Common
  import AuthContext

  const FillAllFields := "Please fill in all fields"
  const PasswordTooShort := "Password must be at least 8 characters long"
  const PasswordsDiffer := "Passwords do not match"
  const RegistrationFailed := "Registration failed. Please try again."

  /** `validatePassword`: a length rule only (no character classes), so a
      valid password is never empty. */
  predicate ValidatePassword(password: string)
    ensures ValidatePassword(password) ==> password != ""
  {
    |password| >= 8
  }

  /** `passwordsMatch`: exact equality, so a matching confirmation has the
      same length and meets the length rule exactly when the password does. */
  predicate PasswordsMatch(password: string, confirmPassword: string)
    ensures PasswordsMatch(password, confirmPassword) ==> |password| == |confirmPassword|
    ensures PasswordsMatch(password, confirmPassword) ==>
      (ValidatePassword(password) <==> ValidatePassword(confirmPassword))
  {
    password == confirmPassword
  }

  /** Which check stops a submit, or `Accepted` when none does. */
  datatype Check = MissingField | ShortPassword | Mismatch | Accepted

  /** The checks of `handleSubmit`, in their order; a field is filled when
      it is not the empty string (there is no trim). */
  function CheckForm(name: string, email: string, password: string, confirmPassword: string): (c: Check)
    ensures c == MissingField <==> (name == "" || email == "" || password == "" || confirmPassword == "")
    ensures c == ShortPassword <==>
      (name != "" && email != "" && password != "" && confirmPassword != "" && |password| < 8)
    ensures c == Mismatch <==>
      (name != "" && email != "" && confirmPassword != "" && |password| >= 8 && password != confirmPassword)
    ensures c == Accepted <==>
      (name != "" && email != "" && |password| >= 8 && password == confirmPassword)
  {
    if name == "" || email == "" || password == "" || confirmPassword == "" then MissingField
    else if !ValidatePassword(password) then ShortPassword
    else if !PasswordsMatch(password, confirmPassword) then Mismatch
    else Accepted
  }

  /** The message a failed check shows. */
  function CheckMessage(c: Check): string
    requires c != Accepted
  {
    match c
    case MissingField => FillAllFields
    case ShortPassword => PasswordTooShort
    case Mismatch => PasswordsDiffer
  }

  /** Whitespace-only fields count as filled. */
  lemma WhitespaceCountsAsFilled()
    ensures CheckForm(" ", " ", "        ", "        ") == Accepted
    ensures CheckForm(" ", " ", "        ", "       ") == Mismatch
  {
  }

  /** The page's state. */
  class RegisterForm {
    var name: string
    var email: string
    var password: string
    var confirmPassword: string
    var error: string
    var isLoading: bool

    constructor ()
      ensures name == "" && email == "" && password == "" && confirmPassword == ""
      ensures error == "" && !isLoading
    {
      name, email, password, confirmPassword := "", "", "", "";
      error := "";
      isLoading := false;
    }

    /** `handleSubmit`: a failed check shows its message and leaves the
        store alone; otherwise `register(name, email, password)` runs, and a
        rejection shows its message (or the fallback) and ends loading. */
    method HandleSubmit(auth: AuthContext.AuthStore)
      modifies this, auth
      ensures name == old(name) && email == old(email)
      ensures password == old(password) && confirmPassword == old(confirmPassword)
      ensures CheckForm(old(name), old(email), old(password), old(confirmPassword)) != Accepted ==>
        && error == CheckMessage(CheckForm(old(name), old(email), old(password), old(confirmPassword)))
        && isLoading == old(isLoading)
        && auth.State() == old(auth.State())
      ensures CheckForm(old(name), old(email), old(password), old(confirmPassword)) == Accepted ==>
        var st := AuthContext.RegisterStep(old(auth.State()), old(name), old(email), old(password));
        && auth.State() == st.next
        && (st.outcome.Resolved? ==> error == "" && isLoading)
        && (st.outcome.Rejected? ==>
              error == OrElse(st.outcome.message, RegistrationFailed) && error == AuthContext.EmailInUse && !isLoading)
    {
      error := "";
      var c := CheckForm(name, email, password, confirmPassword);
      if c != Accepted {
        error := CheckMessage(c);
        return;
      }
      isLoading := true;
      var r := auth.Register(name, email, password);
      if r.Rejected? {
        error := OrElse(r.message, RegistrationFailed);
        isLoading := false;
      }
    }
  }
}
