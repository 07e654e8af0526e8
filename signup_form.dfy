/** The signup page: the form fields, the client-side checks run before anything is sent,
 *  the payload without the confirmation field, and what the page does with the reply. */
module SignupForm {
  import opened Common
  import Store
  import AuthRoutes

  const MsgPasswordsDiffer := "Passwords do not match"
  const MsgPasswordTooShort := "Password must be at least 6 characters"
  const MsgUsernameTooShort := "Username must be at least 3 characters"
  const MsgSignupFailed := "Signup failed. Please try again."

  datatype FormData = FormData(username: string, email: string, password: string, confirmPassword: string)

  /** The input names `handleChange` dispatches on. */
  datatype Field = UsernameField | EmailField | PasswordField | ConfirmPasswordField

  /** The body POST /api/auth/signup receives. */
  datatype SignupData = SignupData(username: string, email: string, password: string)

  /** The first failing check: confirmation, then password length, then the username
   *  length, which is taken on the untrimmed value. */
  function FormError(f: FormData): (r: Option<string>)
    ensures r.None? <==> f.password == f.confirmPassword && |f.password| >= 6 && |f.username| >= 3
    ensures f.password != f.confirmPassword ==> r == Some(MsgPasswordsDiffer)
    ensures f.password == f.confirmPassword && |f.password| < 6 ==> r == Some(MsgPasswordTooShort)
    ensures f.password == f.confirmPassword && |f.password| >= 6 && |f.username| < 3 ==> r == Some(MsgUsernameTooShort)
  {
    if f.password != f.confirmPassword then Some(MsgPasswordsDiffer)
    else if |f.password| < 6 then Some(MsgPasswordTooShort)
    else if |f.username| < 3 then Some(MsgUsernameTooShort)
    else None
  }

  /** `const { confirmPassword, ...signupData } = formData`. */
  function Stripped(f: FormData): (d: SignupData)
    ensures d.username == f.username && d.email == f.email && d.password == f.password
  {
    SignupData(f.username, f.email, f.password)
  }

  /** `{ ...formData, [name]: value }`: only the named field changes. */
  function WithField(f: FormData, field: Field, value: string): (r: FormData)
    ensures r.username == (if field == UsernameField then value else f.username)
    ensures r.email == (if field == EmailField then value else f.email)
    ensures r.password == (if field == PasswordField then value else f.password)
    ensures r.confirmPassword == (if field == ConfirmPasswordField then value else f.confirmPassword)
  {
    match field
    case UsernameField => f.(username := value)
    case EmailField => f.(email := value)
    case PasswordField => f.(password := value)
    case ConfirmPasswordField => f.(confirmPassword := value)
  }

  /** A form the page lets through always satisfies the server's password rule. */
  lemma {:induction false} ClientPasswordCheckImpliesServer(f: FormData)
    requires FormError(f).None?
    ensures |Stripped(f).password| >= AuthRoutes.MinPasswordLength
  {
  }

  /** The page counts the username untrimmed, the server trims first: a username of
   *  three spaces passes the page and is refused by the server. */
  lemma {:induction false} BlankUsernameReachesServer(isEmail: string -> bool)
    requires isEmail("ann@example.com")
    ensures var f := FormData("   ", "ann@example.com", "secret1", "secret1");
            && FormError(f).None?
            && AuthRoutes.SignupInputError(f.username, f.email, f.password, isEmail) == Some(Store.MsgUsernameLength)
  {
    assert IsBlank("   ") by {
      assert IsJsSpace(' ');
    }
  }

  class SignupPage {
    var form: FormData
    var error: string
    var loading: bool

    constructor ()
      ensures form == FormData("", "", "", "") && error == "" && !loading
    {
      form, error, loading := FormData("", "", "", ""), "", false;
    }

    /** `handleChange`: the named field takes the value and the error is cleared. */
    method HandleChange(field: Field, value: string)
      modifies this
      ensures form == WithField(old(form), field, value) && error == ""
      ensures loading == old(loading)
    {
      form := WithField(form, field, value);
      error := "";
    }

    /** `handleSubmit`: a failed check sets its message and sends nothing; otherwise the
     *  form without `confirmPassword` is sent. `respond` is the server (None: no reply).
     *  A 2xx reply logs the user in with the returned session; an error reply shows its
     *  message, or a generic one. */
    method Submit(respond: SignupData -> Option<Store.Reply<AuthRoutes.Session>>)
      returns (sent: Option<SignupData>, session: Option<AuthRoutes.Session>)
      modifies this
      ensures form == old(form)
      ensures FormError(old(form)).Some? ==>
                sent == None && session == None && error == FormError(old(form)).value && loading == old(loading)
      ensures FormError(old(form)).None? ==>
                var reply := respond(Stripped(old(form)));
                && sent == Some(Stripped(old(form)))
                && !loading
                && (reply.Some? && reply.value.Ok? ==> session == Some(reply.value.body) && error == "")
                && (reply.Some? && reply.value.Err? ==>
                      && session == None
                      && error == (if reply.value.message != "" then reply.value.message else MsgSignupFailed))
                && (reply.None? ==> session == None && error == MsgSignupFailed)
    {
      error := "";
      var problem := FormError(form);
      if problem.Some? {
        error := problem.value;
        return None, None;
      }
      loading := true;
      var data := Stripped(form);
      sent := Some(data);
      var reply := respond(data);
      if reply.Some? && reply.value.Ok? {
        session := Some(reply.value.body);
      } else if reply.Some? && reply.value.message != "" {
        session := None;
        error := reply.value.message;
      } else {
        session := None;
        error := MsgSignupFailed;
      }
      loading := false;
    }
  }
}
