/** `handleLogin` of the ordering screen: a blank name is refused, the shop's prefix opens the admin view. */
module Login {
  import Text

  /** Names starting with this prefix belong to the shop owner. */
  const ADMIN_PREFIX: string := "阿嬌滷味"

  datatype View = LoginView | MenuView | AdminView

  datatype LoginState = LoginState(view: View, isAdmin: bool, isLoggedIn: bool)

  const INITIAL: LoginState := LoginState(LoginView, false, false)

  /**
   * A whitespace-only name changes nothing. Otherwise the user is logged in,
   * as admin exactly when the name as typed (not trimmed) starts with the
   * shop's prefix.
   */
  function HandleLogin(s: LoginState, username: string): (r: LoginState)
    ensures Text.IsBlank(username) ==> r == s
    ensures !Text.IsBlank(username) ==> r.isLoggedIn
    ensures !Text.IsBlank(username) ==> (r.isAdmin <==> Text.StartsWith(username, ADMIN_PREFIX))
    ensures !Text.IsBlank(username) ==> (r.view == AdminView <==> r.isAdmin) && r.view != LoginView
  {
    if |Text.Trim(username)| == 0 then s
    else if Text.StartsWith(username, ADMIN_PREFIX) then LoginState(AdminView, true, true)
    else LoginState(MenuView, false, true)
  }

  /** A leading space hides the prefix: such a name enters the ordinary menu view. */
  lemma LeadingSpaceIsNotAdmin(s: LoginState)
    ensures HandleLogin(s, " " + ADMIN_PREFIX) == LoginState(MenuView, false, true)
  {
    assert !Text.IsJsWhitespace((" " + ADMIN_PREFIX)[1]);
  }
}
