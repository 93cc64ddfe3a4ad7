/** The state and event handlers of the login/register page
    (front/src/pages/Login.tsx). Each React state hook is a field, each
    setter an assignment, and each handler a method; the server's answer
    to a request is a parameter, and the requests a handler sends are
    returned. Rendering is not modelled. */
module LoginPage {
  import opened Common
  import opened LoginRules

  /** The two values of `shownSide`. */
  datatype Side = LoginSide | RegisterSide

  /** The other side. */
  function Flip(s: Side): (r: Side)
    ensures r != s
  {
    if s == LoginSide then RegisterSide else LoginSide
  }

  /** A request the page posts to the backend. */
  datatype Request =
    | RegisterRequest(username: string, email: string, password: string)
    | LoginRequest(email: string, password: string)

  /** What an awaited api.post settles with: a response with its status,
      or no response at all (a network error). */
  datatype Response = Answered(status: int) | NoResponse

  /** axios resolves for a 2xx status and rejects otherwise. */
  predicate Resolves(r: Response) {
    r.Answered? && 200 <= r.status < 300
  }

  const WrongCredentialsMessage: string := "Mauvais email ou mot de passe"
  const UnexpectedLoginMessage: string := "Une erreur est survenue"
  const AccountExistsMessage: string := "Ce compte existe déjà !"
  const RequestFailedMessage: string := "La requête n'a pas pu aboutir"

  class Page {
    var shownSide: Side
    var errorValue: string
    var passwordError: Option<PasswordRule>
    var emailError: bool
    var username: string
    var email: string
    var password: string
    var confirmPassword: string
    var loginEmail: string
    var loginPassword: string
    /** Whether the user context received a logged-in user. */
    var signedIn: bool
    /** The route the page navigated to, if any. */
    var navigatedTo: Option<string>

    constructor ()
      ensures shownSide == RegisterSide && errorValue == "" && passwordError.None? && !emailError
      ensures username == "" && email == "" && password == "" && confirmPassword == ""
      ensures loginEmail == "" && loginPassword == ""
      ensures !signedIn && navigatedTo.None?
    {
      shownSide, errorValue, passwordError, emailError := RegisterSide, "", None, false;
      username, email, password, confirmPassword := "", "", "", "";
      loginEmail, loginPassword := "", "";
      signedIn, navigatedTo := false, None;
    }

    /** checkEmailValidity: clears the error for an empty email, otherwise
        flags the email exactly when the regular expression rejects it. */
    method CheckEmailValidity(value: string)
      modifies this`emailError
      ensures emailError == EmailError(value)
      ensures |value| == 0 ==> !emailError
      ensures |value| > 0 ==> (emailError <==> !EmailShape(value))
    {
      EmailErrorExactly(value);
      if |value| == 0 {
        emailError := false;
        return;
      }
      emailError := !MatchesEmailRegex(value);
    }

    /** checkPasswordStrength: walks the rules in order with a `valid`
        flag; the first failing rule is stored and later failures are
        skipped; when none fails the error is cleared. */
    method CheckPasswordStrength(value: string)
      modifies this`passwordError
      ensures passwordError == StrengthError(value)
      ensures |value| == 0 ==> passwordError.None?
      ensures |value| > 0 && passwordError.Some? ==>
                exists k :: 0 <= k < |PasswordRules| && passwordError == Some(PasswordRules[k])
                            && !Test(PasswordRules[k].pattern, value)
                            && forall j :: 0 <= j < k ==> Test(PasswordRules[j].pattern, value)
      ensures |value| > 0 ==>
                (passwordError.None? <==> forall k :: 0 <= k < |PasswordRules| ==> Test(PasswordRules[k].pattern, value))
    {
      FirstFailingIsLowest(PasswordRules, value);
      if |value| == 0 {
        passwordError := None;
        return;
      }
      var valid := true;
      for i := 0 to |PasswordRules|
        invariant valid <==> forall j :: 0 <= j < i ==> Test(PasswordRules[j].pattern, value)
        invariant !valid ==> passwordError == FirstFailing(PasswordRules, value)
      {
        var rule := PasswordRules[i];
        if !Test(rule.pattern, value) {
          if !valid {
            continue;
          }
          passwordError := Some(rule);
          valid := false;
        }
      }
      if valid {
        passwordError := None;
      }
    }

    /** handleInputChange: stores the value in the field the input names and
        runs the matching validator; an unknown name changes nothing. */
    method HandleInputChange(name: string, value: string)
      modifies this
      ensures name == "username" ==> username == value
      ensures name == "email" ==> email == value && emailError == EmailError(value)
      ensures name == "password" ==> password == value && passwordError == StrengthError(value)
      ensures name == "confirmPassword" ==> confirmPassword == value
      ensures name == "loginEmail" ==> loginEmail == value
      ensures name == "loginPassword" ==> loginPassword == value
      ensures name != "username" ==> username == old(username)
      ensures name != "email" ==> email == old(email) && emailError == old(emailError)
      ensures name != "password" ==> password == old(password) && passwordError == old(passwordError)
      ensures name != "confirmPassword" ==> confirmPassword == old(confirmPassword)
      ensures name != "loginEmail" ==> loginEmail == old(loginEmail)
      ensures name != "loginPassword" ==> loginPassword == old(loginPassword)
      ensures shownSide == old(shownSide) && errorValue == old(errorValue)
      ensures signedIn == old(signedIn) && navigatedTo == old(navigatedTo)
    {
      if name == "username" {
        username := value;
      } else if name == "email" {
        email := value;
        CheckEmailValidity(value);
      } else if name == "password" {
        password := value;
        CheckPasswordStrength(value);
      } else if name == "confirmPassword" {
        confirmPassword := value;
      } else if name == "loginEmail" {
        loginEmail := value;
      } else if name == "loginPassword" {
        loginPassword := value;
      }
    }

    /** loginUser: posts the credentials; a 200 answer signs the user in and
        navigates home, a 403 rejection shows the wrong-credentials message,
        any other rejection the generic one. */
    method LoginUser(withEmail: string, withPassword: string, answer: Response) returns (sent: Request)
      modifies this`signedIn, this`navigatedTo, this`errorValue
      ensures sent == LoginRequest(withEmail, withPassword)
      ensures Resolves(answer) && answer.status == 200 ==>
                signedIn && navigatedTo == Some("/") && errorValue == old(errorValue)
      ensures Resolves(answer) && answer.status != 200 ==>
                signedIn == old(signedIn) && navigatedTo == old(navigatedTo) && errorValue == old(errorValue)
      ensures !Resolves(answer) ==>
                signedIn == old(signedIn) && navigatedTo == old(navigatedTo)
                && errorValue == (if answer == Answered(403) then WrongCredentialsMessage else UnexpectedLoginMessage)
    {
      sent := LoginRequest(withEmail, withPassword);
      if Resolves(answer) {
        if answer.status == 200 {
          signedIn := true;
          navigatedTo := Some("/");
        }
      } else if answer == Answered(403) {
        errorValue := WrongCredentialsMessage;
      } else {
        errorValue := UnexpectedLoginMessage;
      }
    }

    /** handleRegister: when the password and its confirmation differ, it
        alerts and sends nothing; otherwise it posts the registration and,
        on a 200 answer, clears the error and logs in with the same
        credentials. */
    method HandleRegister(registerAnswer: Response, loginAnswer: Response)
      returns (sent: seq<Request>, alerted: bool)
      modifies this`signedIn, this`navigatedTo, this`errorValue
      ensures alerted <==> password != confirmPassword
      ensures password != confirmPassword ==>
                sent == [] && errorValue == old(errorValue)
                && signedIn == old(signedIn) && navigatedTo == old(navigatedTo)
      ensures password == confirmPassword ==> |sent| >= 1 && sent[0] == RegisterRequest(username, email, password)
      ensures password == confirmPassword && Resolves(registerAnswer) && registerAnswer.status == 200 ==>
                && sent == [RegisterRequest(username, email, password), LoginRequest(email, password)]
                && (Resolves(loginAnswer) ==> errorValue == "")
                && (Resolves(loginAnswer) && loginAnswer.status == 200 ==> signedIn && navigatedTo == Some("/"))
                && (!(Resolves(loginAnswer) && loginAnswer.status == 200) ==>
                      signedIn == old(signedIn) && navigatedTo == old(navigatedTo))
                && (!Resolves(loginAnswer) ==>
                      errorValue == (if loginAnswer == Answered(403) then WrongCredentialsMessage else UnexpectedLoginMessage))
      ensures password == confirmPassword && Resolves(registerAnswer) && registerAnswer.status != 200 ==>
                sent == [RegisterRequest(username, email, password)]
                && signedIn == old(signedIn) && navigatedTo == old(navigatedTo) && errorValue == old(errorValue)
      ensures password == confirmPassword && !Resolves(registerAnswer) ==>
                sent == [RegisterRequest(username, email, password)]
                && signedIn == old(signedIn) && navigatedTo == old(navigatedTo)
                && errorValue == (if registerAnswer == Answered(400) then AccountExistsMessage else RequestFailedMessage)
    {
      if password != confirmPassword {
        return [], true;
      }
      alerted := false;
      sent := [RegisterRequest(username, email, password)];
      if Resolves(registerAnswer) {
        if registerAnswer.status == 200 {
          errorValue := "";
          var login := LoginUser(email, password, loginAnswer);
          sent := sent + [login];
        }
      } else if registerAnswer == Answered(400) {
        errorValue := AccountExistsMessage;
      } else {
        errorValue := RequestFailedMessage;
      }
    }

    /** handleLogin: clears the error, then logs in with the login fields. */
    method HandleLogin(answer: Response) returns (sent: Request)
      modifies this`signedIn, this`navigatedTo, this`errorValue
      ensures sent == LoginRequest(loginEmail, loginPassword)
      ensures Resolves(answer) ==> errorValue == ""
      ensures Resolves(answer) && answer.status == 200 ==> signedIn && navigatedTo == Some("/")
      ensures !(Resolves(answer) && answer.status == 200) ==>
                signedIn == old(signedIn) && navigatedTo == old(navigatedTo)
      ensures !Resolves(answer) ==>
                errorValue == (if answer == Answered(403) then WrongCredentialsMessage else UnexpectedLoginMessage)
    {
      errorValue := "";
      sent := LoginUser(loginEmail, loginPassword, answer);
    }

    /** handleToggle: clears the error and shows the other side. */
    method HandleToggle()
      modifies this`errorValue, this`shownSide
      ensures errorValue == "" && shownSide == Flip(old(shownSide))
    {
      errorValue := "";
      shownSide := Flip(shownSide);
    }
  }

  /** Toggling twice shows the original side again, with no error. */
  method ToggleTwice(page: Page)
    modifies page
    ensures page.shownSide == old(page.shownSide) && page.errorValue == ""
    ensures page.password == old(page.password) && page.passwordError == old(page.passwordError)
  {
    page.HandleToggle();
    page.HandleToggle();
  }
}
