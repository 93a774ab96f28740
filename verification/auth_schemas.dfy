/**
 * `signUpSchema`, `signInSchema` and `changePasswordSchema`. zod's email
 * check is passed in as `emailOk`, since its pattern is library-internal.
 */
module AuthSchemas {
  import opened Optional
  import opened Schema
  import opened AuthModels
  import ValidateSchema

  /** The shortest password any of the forms accepts. */
  const MinPasswordLength: nat := 6

  const PasswordTooShort := "Password must be at least 6 characters"
  const NewPasswordTooShort := "New password must be at least 6 characters"
  const PasswordsDiffer := "Passwords do not match"
  const NewPasswordsDiffer := "New passwords do not match"

  /** Raw form values; a field the form did not supply is None. */
  datatype SignUpInput = SignUpInput(email: Option<string>, password: Option<string>, confirmPassword: Option<string>)
  datatype SignInInput = SignInInput(email: Option<string>, password: Option<string>)
  datatype ChangePasswordInput = ChangePasswordInput(newPassword: Option<string>, confirmNewPassword: Option<string>)

  predicate EmailOk(emailOk: string -> bool, e: Option<string>) {
    e.Some? && emailOk(e.value)
  }

  /** `z.string({ required_error: "Email is required" }).email("Invalid email")`. */
  function EmailIssues(emailOk: string -> bool, e: Option<string>): (r: seq<Issue>)
    ensures r == [] <==> EmailOk(emailOk, e)
    ensures AllOnField(r, "email")
  {
    match e
    case None => [FieldIssue("email", "Email is required")]
    case Some(s) => if emailOk(s) then [] else [FieldIssue("email", "Invalid email")]
  }

  function PasswordIssues(p: Option<string>): seq<Issue> {
    MinLengthIssues("password", p, MinPasswordLength, "Password is required", PasswordTooShort)
  }

  function ConfirmPasswordIssues(p: Option<string>): seq<Issue> {
    MinLengthIssues("confirmPassword", p, MinPasswordLength, "Please confirm your password", PasswordTooShort)
  }

  /** Every field is present, so the object-level `.refine` runs, and the two passwords differ. */
  predicate SignUpMismatch(x: SignUpInput) {
    x.email.Some? && x.password.Some? && x.confirmPassword.Some?
    && x.password.value != x.confirmPassword.value
  }

  /**
   * The object-level `.refine` runs only once every field has the right
   * type (here: is present); a failed equality is reported on
   * `confirmPassword`.
   */
  function SignUpRefineIssues(x: SignUpInput): seq<Issue> {
    if SignUpMismatch(x)
    then [FieldIssue("confirmPassword", PasswordsDiffer)]
    else []
  }

  predicate SignUpAccepts(emailOk: string -> bool, x: SignUpInput) {
    && EmailOk(emailOk, x.email)
    && MinLengthOk(x.password, MinPasswordLength)
    && MinLengthOk(x.confirmPassword, MinPasswordLength)
    && x.password.value == x.confirmPassword.value
  }

  function SignUpIssues(emailOk: string -> bool, x: SignUpInput): seq<Issue> {
    EmailIssues(emailOk, x.email) + PasswordIssues(x.password) + ConfirmPasswordIssues(x.confirmPassword)
    + SignUpRefineIssues(x)
  }

  /** `signUpSchema.safeParse`. */
  function ParseSignUp(emailOk: string -> bool, x: SignUpInput): (r: ParseResult<SignUpData>)
    ensures r.Parsed? <==> SignUpAccepts(emailOk, x)
    ensures r.Parsed? ==> r.value == SignUpData(x.email.value, x.password.value, x.confirmPassword.value)
    ensures r.Failed? ==> |r.issues| > 0
  {
    var issues := SignUpIssues(emailOk, x);
    if issues == [] then Parsed(SignUpData(x.email.value, x.password.value, x.confirmPassword.value))
    else Failed(issues)
  }

  predicate SignInAccepts(emailOk: string -> bool, x: SignInInput) {
    EmailOk(emailOk, x.email) && MinLengthOk(x.password, MinPasswordLength)
  }

  function SignInIssues(emailOk: string -> bool, x: SignInInput): seq<Issue> {
    EmailIssues(emailOk, x.email) + PasswordIssues(x.password)
  }

  /** `signInSchema.safeParse`. */
  function ParseSignIn(emailOk: string -> bool, x: SignInInput): (r: ParseResult<SignInData>)
    ensures r.Parsed? <==> SignInAccepts(emailOk, x)
    ensures r.Parsed? ==> r.value == SignInData(x.email.value, x.password.value)
    ensures r.Failed? ==> |r.issues| > 0
  {
    var issues := SignInIssues(emailOk, x);
    if issues == [] then Parsed(SignInData(x.email.value, x.password.value))
    else Failed(issues)
  }

  function NewPasswordIssues(p: Option<string>): seq<Issue> {
    MinLengthIssues("newPassword", p, MinPasswordLength, "New password is required", NewPasswordTooShort)
  }

  function ConfirmNewPasswordIssues(p: Option<string>): seq<Issue> {
    MinLengthIssues("confirmNewPassword", p, MinPasswordLength, "Please confirm your new password", NewPasswordTooShort)
  }

  function ChangePasswordRefineIssues(x: ChangePasswordInput): seq<Issue> {
    if x.newPassword.Some? && x.confirmNewPassword.Some?
       && x.newPassword.value != x.confirmNewPassword.value
    then [FieldIssue("confirmNewPassword", NewPasswordsDiffer)]
    else []
  }

  predicate ChangePasswordAccepts(x: ChangePasswordInput) {
    && MinLengthOk(x.newPassword, MinPasswordLength)
    && MinLengthOk(x.confirmNewPassword, MinPasswordLength)
    && x.newPassword.value == x.confirmNewPassword.value
  }

  function ChangePasswordIssues(x: ChangePasswordInput): seq<Issue> {
    NewPasswordIssues(x.newPassword) + ConfirmNewPasswordIssues(x.confirmNewPassword)
    + ChangePasswordRefineIssues(x)
  }

  /** `changePasswordSchema.safeParse`. */
  function ParseChangePassword(x: ChangePasswordInput): (r: ParseResult<ChangePasswordData>)
    ensures r.Parsed? <==> ChangePasswordAccepts(x)
    ensures r.Parsed? ==> r.value == ChangePasswordData(x.newPassword.value, x.confirmNewPassword.value)
    ensures r.Failed? ==> |r.issues| > 0
  {
    var issues := ChangePasswordIssues(x);
    if issues == [] then Parsed(ChangePasswordData(x.newPassword.value, x.confirmNewPassword.value))
    else Failed(issues)
  }

  /** The sign-in fields of a sign-up form. */
  function ToSignIn(x: SignUpInput): SignInInput {
    SignInInput(x.email, x.password)
  }

  /**
   * Whatever the sign-up schema accepts, the sign-in schema accepts on the
   * same email and password, because their rules for those fields coincide.
   */
  lemma SignUpImpliesSignIn(emailOk: string -> bool, x: SignUpInput)
    requires SignUpAccepts(emailOk, x)
    ensures ParseSignIn(emailOk, ToSignIn(x)) == Parsed(SignInData(x.email.value, x.password.value))
  {
  }

  /**
   * With the email present too, a mismatch between two present passwords is
   * reported as "Passwords do not match" on `confirmPassword`; that message never lands
   * on `password`, and an issue on `password` only comes from its own rule.
   */
  lemma {:induction false} SignUpMismatchOnConfirm(emailOk: string -> bool, x: SignUpInput)
    requires x.email.Some? && x.password.Some? && x.confirmPassword.Some?
    requires x.password.value != x.confirmPassword.value
    ensures ParseSignUp(emailOk, x).Failed?
    ensures FieldIssue("confirmPassword", PasswordsDiffer) in ParseSignUp(emailOk, x).issues
    ensures forall i | 0 <= i < |ParseSignUp(emailOk, x).issues| ::
      ParseSignUp(emailOk, x).issues[i].message == PasswordsDiffer ==>
        ParseSignUp(emailOk, x).issues[i].path == [Key("confirmPassword")]
    ensures forall i | 0 <= i < |ParseSignUp(emailOk, x).issues| ::
      ParseSignUp(emailOk, x).issues[i].path == [Key("password")] ==>
        ParseSignUp(emailOk, x).issues[i] == FieldIssue("password", PasswordTooShort)
  {
  }

  /**
   * Through `validateSchema`, with the email present too, a mismatch of two
   * present passwords leaves
   * "Passwords do not match" under `confirmPassword`, overwriting any length
   * message for that field, since the refinement's issue comes last.
   */
  lemma SignUpMismatchThroughValidate(emailOk: string -> bool, x: SignUpInput)
    requires x.email.Some? && x.password.Some? && x.confirmPassword.Some?
    requires x.password.value != x.confirmPassword.value
    ensures ValidateSchema.Validate(ParseSignUp(emailOk, x)).result
    ensures "confirmPassword" in ValidateSchema.Validate(ParseSignUp(emailOk, x)).errors
    ensures ValidateSchema.Validate(ParseSignUp(emailOk, x)).errors["confirmPassword"] == PasswordsDiffer
  {
    var all := SignUpIssues(emailOk, x);
    assert all[|all| - 1] == FieldIssue("confirmPassword", PasswordsDiffer);
    ValidateSchema.LastIssueWins(all, "confirmPassword");
  }

  /** The same for changing a password: the mismatch is reported on `confirmNewPassword`. */
  lemma {:induction false} ChangePasswordMismatchOnConfirm(x: ChangePasswordInput)
    requires x.newPassword.Some? && x.confirmNewPassword.Some?
    requires x.newPassword.value != x.confirmNewPassword.value
    ensures ParseChangePassword(x).Failed?
    ensures FieldIssue("confirmNewPassword", NewPasswordsDiffer) in ParseChangePassword(x).issues
    ensures forall i | 0 <= i < |ParseChangePassword(x).issues| ::
      ParseChangePassword(x).issues[i].message == NewPasswordsDiffer ==>
        ParseChangePassword(x).issues[i].path == [Key("confirmNewPassword")]
  {
  }

  /** Through `validateSchema`, a new-password mismatch leaves "New passwords do not match" under `confirmNewPassword`. */
  lemma ChangePasswordMismatchThroughValidate(x: ChangePasswordInput)
    requires x.newPassword.Some? && x.confirmNewPassword.Some?
    requires x.newPassword.value != x.confirmNewPassword.value
    ensures ValidateSchema.Validate(ParseChangePassword(x)).result
    ensures "confirmNewPassword" in ValidateSchema.Validate(ParseChangePassword(x)).errors
    ensures ValidateSchema.Validate(ParseChangePassword(x)).errors["confirmNewPassword"] == NewPasswordsDiffer
  {
    var all := ChangePasswordIssues(x);
    assert all[|all| - 1] == FieldIssue("confirmNewPassword", NewPasswordsDiffer);
    ValidateSchema.LastIssueWins(all, "confirmNewPassword");
  }

  /** Six characters pass the password length rule; five fail it with its message. */
  lemma PasswordLengthBoundary(six: string, five: string)
    requires |six| == 6 && |five| == 5
    ensures PasswordIssues(Some(six)) == []
    ensures PasswordIssues(Some(five)) == [FieldIssue("password", PasswordTooShort)]
    ensures NewPasswordIssues(Some(five)) == [FieldIssue("newPassword", NewPasswordTooShort)]
  {
  }

  /** A missing field is reported with its own "required" message. */
  lemma MissingFieldMessages(emailOk: string -> bool)
    ensures EmailIssues(emailOk, None) == [FieldIssue("email", "Email is required")]
    ensures PasswordIssues(None) == [FieldIssue("password", "Password is required")]
    ensures ConfirmPasswordIssues(None) == [FieldIssue("confirmPassword", "Please confirm your password")]
    ensures NewPasswordIssues(None) == [FieldIssue("newPassword", "New password is required")]
    ensures ConfirmNewPasswordIssues(None) == [FieldIssue("confirmNewPassword", "Please confirm your new password")]
  {
  }

  /**
   * Through `validateSchema`, sign-in errors name exactly the failing
   * fields, and `result` is true exactly when the form is rejected.
   */
  lemma {:induction false} SignInErrorsAreFailingFields(emailOk: string -> bool, x: SignInInput)
    ensures ValidateSchema.Validate(ParseSignIn(emailOk, x)).result <==> !SignInAccepts(emailOk, x)
    ensures ValidateSchema.Validate(ParseSignIn(emailOk, x)).errors.Keys
         == (if EmailOk(emailOk, x.email) then {} else {"email"})
          + (if MinLengthOk(x.password, MinPasswordLength) then {} else {"password"})
  {
    var e, p := EmailIssues(emailOk, x.email), PasswordIssues(x.password);
    ValidateSchema.KeysOfOneField(e, "email");
    ValidateSchema.KeysOfOneField(p, "password");
    ValidateSchema.KeysOfAppend(e, p);
    ValidateSchema.CollectKeys(e + p, map[]);
  }

  /** The sign-up issue list has a key for exactly each failing field. */
  lemma {:induction false} SignUpIssueKeys(emailOk: string -> bool, x: SignUpInput)
    ensures "email" in ValidateSchema.KeysOf(SignUpIssues(emailOk, x)) <==> !EmailOk(emailOk, x.email)
    ensures "password" in ValidateSchema.KeysOf(SignUpIssues(emailOk, x)) <==> !MinLengthOk(x.password, MinPasswordLength)
    ensures "confirmPassword" in ValidateSchema.KeysOf(SignUpIssues(emailOk, x))
        <==> !MinLengthOk(x.confirmPassword, MinPasswordLength) || SignUpMismatch(x)
    ensures ValidateSchema.KeysOf(SignUpIssues(emailOk, x)) <= {"email", "password", "confirmPassword"}
  {
    var e, p, c, rf := EmailIssues(emailOk, x.email), PasswordIssues(x.password),
      ConfirmPasswordIssues(x.confirmPassword), SignUpRefineIssues(x);
    ValidateSchema.KeysOfOneField(e, "email");
    ValidateSchema.KeysOfOneField(p, "password");
    ValidateSchema.KeysOfOneField(c, "confirmPassword");
    ValidateSchema.KeysOfOneField(rf, "confirmPassword");
    ValidateSchema.KeysOfAppend(e, p);
    ValidateSchema.KeysOfAppend(e + p, c);
    ValidateSchema.KeysOfAppend(e + p + c, rf);
  }

  /** `validateSchema` stores the sign-up form's errors under exactly the keys of its issue list. */
  lemma SignUpValidateKeys(emailOk: string -> bool, x: SignUpInput)
    ensures ValidateSchema.Validate(ParseSignUp(emailOk, x)).errors.Keys == ValidateSchema.KeysOf(SignUpIssues(emailOk, x))
  {
    var issues := SignUpIssues(emailOk, x);
    if issues != [] {
      ValidateSchema.CollectKeys(issues, map[]);
    }
  }

  /**
   * Through `validateSchema`, the sign-up error keys are exactly the failing
   * fields: `email` and `password` when their own rule fails, and
   * `confirmPassword` when its length fails or the refine reports a mismatch.
   */
  lemma {:induction false} SignUpErrorKeys(emailOk: string -> bool, x: SignUpInput)
    ensures "email" in ValidateSchema.Validate(ParseSignUp(emailOk, x)).errors <==> !EmailOk(emailOk, x.email)
    ensures "password" in ValidateSchema.Validate(ParseSignUp(emailOk, x)).errors
        <==> !MinLengthOk(x.password, MinPasswordLength)
    ensures "confirmPassword" in ValidateSchema.Validate(ParseSignUp(emailOk, x)).errors
        <==> !MinLengthOk(x.confirmPassword, MinPasswordLength) || SignUpMismatch(x)
    ensures ValidateSchema.Validate(ParseSignUp(emailOk, x)).errors.Keys <= {"email", "password", "confirmPassword"}
  {
    SignUpIssueKeys(emailOk, x);
    SignUpValidateKeys(emailOk, x);
  }

  /**
   * Through `validateSchema`, the change-password error keys are exactly the
   * failing fields: `newPassword` when its length fails, and
   * `confirmNewPassword` when its length fails or the refine reports a mismatch.
   */
  lemma {:induction false} ChangePasswordErrorKeys(x: ChangePasswordInput)
    ensures "newPassword" in ValidateSchema.Validate(ParseChangePassword(x)).errors
        <==> !MinLengthOk(x.newPassword, MinPasswordLength)
    ensures "confirmNewPassword" in ValidateSchema.Validate(ParseChangePassword(x)).errors
        <==> !MinLengthOk(x.confirmNewPassword, MinPasswordLength)
             || (x.newPassword.Some? && x.confirmNewPassword.Some?
                 && x.newPassword.value != x.confirmNewPassword.value)
    ensures ValidateSchema.Validate(ParseChangePassword(x)).errors.Keys <= {"newPassword", "confirmNewPassword"}
  {
    var p, c, rf := NewPasswordIssues(x.newPassword), ConfirmNewPasswordIssues(x.confirmNewPassword),
      ChangePasswordRefineIssues(x);
    ValidateSchema.KeysOfOneField(p, "newPassword");
    ValidateSchema.KeysOfOneField(c, "confirmNewPassword");
    ValidateSchema.KeysOfOneField(rf, "confirmNewPassword");
    ValidateSchema.KeysOfAppend(p, c);
    ValidateSchema.KeysOfAppend(p + c, rf);
    ValidateSchema.CollectKeys(ChangePasswordIssues(x), map[]);
  }

  /** Through `validateSchema`, `result` is true exactly when sign-up or change-password is rejected. */
  lemma PasswordFormsThroughValidate(emailOk: string -> bool, x: SignUpInput, y: ChangePasswordInput)
    ensures ValidateSchema.Validate(ParseSignUp(emailOk, x)).result <==> !SignUpAccepts(emailOk, x)
    ensures ValidateSchema.Validate(ParseChangePassword(y)).result <==> !ChangePasswordAccepts(y)
  {
  }
}
