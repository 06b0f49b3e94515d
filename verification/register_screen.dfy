/** The registration form (`RegisterScreen`): the register button checks
    for blank fields, then for a password mismatch, and only then asks the
    account repository to register. The repository's callback is taken to
    run before the next event. */
module Registration {
  import opened Wrappers
  import Text
  import Auth

  const BlankMessage := "用户名和密码不能为空"
  const MismatchMessage := "两次输入的密码不一致"
  const TakenMessage := "用户名已存在"

  /** The button's checks before any registration: the message to show, or
      `None` when the form may be submitted. */
  function FormError(username: string, password: string, confirmPassword: string): (error: Option<string>)
    ensures error == None <==>
      !Text.IsBlank(username) && !Text.IsBlank(password) && !Text.IsBlank(confirmPassword) && password == confirmPassword
    ensures error.Some? ==> error.value == BlankMessage || error.value == MismatchMessage
  {
    if Text.IsBlank(username) || Text.IsBlank(password) || Text.IsBlank(confirmPassword) then Some(BlankMessage)
    else if password != confirmPassword then Some(MismatchMessage)
    else None
  }

  /** A blank field is reported as such even when the passwords also
      differ; the mismatch is reported only when nothing is blank. */
  lemma BlankTakesPrecedence(username: string, password: string, confirmPassword: string)
    ensures FormError(username, password, confirmPassword) == Some(BlankMessage)
      <==> Text.IsBlank(username) || Text.IsBlank(password) || Text.IsBlank(confirmPassword)
    ensures FormError(username, password, confirmPassword) == Some(MismatchMessage)
      <==> !Text.IsBlank(username) && !Text.IsBlank(password) && !Text.IsBlank(confirmPassword) && password != confirmPassword
  {
  }

  class RegisterScreen {
    var username: string
    var password: string
    var confirmPassword: string
    var errorMessage: Option<string>
    /** The name handed to `onRegisterSuccess`, once it has been called. */
    var registeredAs: Option<string>

    constructor ()
      ensures username == "" && password == "" && confirmPassword == ""
      ensures errorMessage == None && registeredAs == None
    {
      username := "";
      password := "";
      confirmPassword := "";
      errorMessage := None;
      registeredAs := None;
    }

    /** The register button. A form error is shown without touching the
        accounts; otherwise success clears the error and reports the name,
        and a taken name shows "用户名已存在". */
    method ClickRegister(auth: Auth.AuthRepository)
      modifies this, auth.dao
      ensures username == old(username) && password == old(password) && confirmPassword == old(confirmPassword)
      ensures FormError(username, password, confirmPassword).Some? ==>
        errorMessage == FormError(username, password, confirmPassword)
        && auth.dao.accounts == old(auth.dao.accounts) && registeredAs == old(registeredAs)
      ensures FormError(username, password, confirmPassword).None? && username !in old(auth.dao.accounts) ==>
        errorMessage == None && registeredAs == Some(username)
        && auth.dao.accounts == old(auth.dao.accounts)[username := password]
      ensures FormError(username, password, confirmPassword).None? && username in old(auth.dao.accounts) ==>
        errorMessage == Some(TakenMessage) && registeredAs == old(registeredAs)
        && auth.dao.accounts == old(auth.dao.accounts)
    {
      if Text.IsBlank(username) || Text.IsBlank(password) || Text.IsBlank(confirmPassword) {
        errorMessage := Some(BlankMessage);
      } else if password != confirmPassword {
        errorMessage := Some(MismatchMessage);
      } else {
        var success := auth.Register(username, password);
        if success {
          errorMessage := None;
          registeredAs := Some(username);
        } else {
          errorMessage := Some(TakenMessage);
        }
      }
    }
  }
}
