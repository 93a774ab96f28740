/** The payloads of the three authentication forms, once validated. */
module AuthModels {

  datatype SignUpData = SignUpData(email: string, password: string, confirmPassword: string)

  datatype SignInData = SignInData(email: string, password: string)

  datatype ChangePasswordData = ChangePasswordData(newPassword: string, confirmNewPassword: string)
}
