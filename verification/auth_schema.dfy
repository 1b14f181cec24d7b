/** The request payloads of the authentication routes and their validation
    rules. Validation yields the set of fields that break a rule; a payload is
    valid when that set is empty. Lengths count characters, as the validator's
    `length` rule does. The e-mail format check is a parameter. */
module AuthSchema {
  import opened Wrappers

  type EmailCheck = string -> bool

  datatype Login = Login(email: string, password: string)

  datatype Register = Register(username: string, email: string, phone: string,
                               password: string, confirm: string)

  datatype Resend = Resend(email: string, forget: Option<bool>)

  datatype ResetPwd = ResetPwd(password: string, confirm: string)

  const LOGIN_PASSWORD_MIN: nat := 3
  const USERNAME_MIN: nat := 4
  const PASSWORD_MIN: nat := 6

  /** `Login::validate`: an e-mail address and a password of at least three
      characters. */
  function ValidateLogin(l: Login, isEmail: EmailCheck): (errors: set<string>)
    ensures errors <= {"email", "password"}
    ensures "email" in errors <==> !isEmail(l.email)
    ensures "password" in errors <==> |l.password| < LOGIN_PASSWORD_MIN
  {
    (if isEmail(l.email) then {} else {"email"})
      + (if |l.password| >= LOGIN_PASSWORD_MIN then {} else {"password"})
  }

  /** The rule shared by `Register` and `ResetPwd`: the password equals its
      confirmation and has at least six characters. */
  predicate GoodNewPassword(password: string, confirm: string) {
    password == confirm && |password| >= PASSWORD_MIN
  }

  /** `Register::validate`: username of at least four characters, an e-mail
      address, and a password that matches `confirm` and has at least six
      characters; `phone` and `confirm` have no rule of their own. */
  function ValidateRegister(r: Register, isEmail: EmailCheck): (errors: set<string>)
    ensures errors <= {"username", "email", "password"}
    ensures "username" in errors <==> |r.username| < USERNAME_MIN
    ensures "email" in errors <==> !isEmail(r.email)
    ensures "password" in errors <==> !GoodNewPassword(r.password, r.confirm)
  {
    (if |r.username| >= USERNAME_MIN then {} else {"username"})
      + (if isEmail(r.email) then {} else {"email"})
      + (if GoodNewPassword(r.password, r.confirm) then {} else {"password"})
  }

  /** `Resend::validate`: declared, but the resend route never calls it. */
  function ValidateResend(r: Resend, isEmail: EmailCheck): (errors: set<string>)
    ensures errors == {} <==> isEmail(r.email)
    ensures errors <= {"email"}
  {
    if isEmail(r.email) then {} else {"email"}
  }

  /** `ResetPwd::validate`: the new password matches `confirm` and has at least
      six characters. */
  function ValidateResetPwd(r: ResetPwd): (errors: set<string>)
    ensures errors == {} <==> GoodNewPassword(r.password, r.confirm)
    ensures errors <= {"password"}
  {
    if GoodNewPassword(r.password, r.confirm) then {} else {"password"}
  }

  /** The phone number never affects validation, and neither does `forget`. */
  lemma UnconstrainedFields(r: Register, phone: string, s: Resend, forget: Option<bool>, isEmail: EmailCheck)
    ensures ValidateRegister(r.(phone := phone), isEmail) == ValidateRegister(r, isEmail)
    ensures ValidateResend(s.(forget := forget), isEmail) == ValidateResend(s, isEmail)
  {
  }
}
