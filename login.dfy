/** The login screen's credential check: both fields filled in, and an email
    that contains '@'. */
module Login {
  import opened Text

  datatype LoginResult = LoggedIn | LoginError(message: string)

  const BothRequired: string := "Please enter both email and password"
  const InvalidEmail: string := "Please enter a valid email"

  /** `handleLogin`: an empty email or password is refused first, then an
      email without '@'; anything else logs in. */
  function CheckLogin(email: string, password: string): (r: LoginResult)
    ensures r.LoggedIn? <==> email != [] && password != [] && '@' in email
    ensures email == [] || password == [] ==> r == LoginError(BothRequired)
    ensures email != [] && password != [] && '@' !in email ==> r == LoginError(InvalidEmail)
  {
    assert Contains(email, "@") <==> '@' in email by {
      assert forall i :: OccursAt(email, "@", i) <==> 0 <= i < |email| && email[i] == '@' by {
        forall i | 0 <= i < |email| ensures email[i..i + 1] == "@" <==> email[i] == '@' {
          assert email[i..i + 1] == [email[i]];
        }
      }
    }
    if email == [] || password == [] then LoginError(BothRequired)
    else if !Contains(email, "@") then LoginError(InvalidEmail)
    else LoggedIn
  }
}
