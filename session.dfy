/** The session state machine of the login and logout views: login_status is
    absent, "logged_in", or some other value ("logged_out" after a logout). */
module Session {
  import opened Types

  /** A view's response together with the session it leaves behind. */
  datatype SessionStep = SessionStep(response: Response, session: SessionBag)

  /** The guard of the views that need a login: login_status is present and
      "logged_in"; an absent key or "logged_out" does not pass. */
  predicate IsLoggedIn(s: SessionBag): (b: bool)
    ensures LOGIN_STATUS_KEY !in s ==> !b
    ensures LOGIN_STATUS_KEY in s && s[LOGIN_STATUS_KEY] == LOGGED_OUT ==> !b
    ensures b ==> LOGIN_STATUS_KEY in s && s[LOGIN_STATUS_KEY] != LOGGED_OUT
  {
    LOGIN_STATUS_KEY in s && s[LOGIN_STATUS_KEY] == LOGGED_IN
  }

  /** Every key other than login_status and username is as it was. */
  ghost predicate OthersUnchanged(s: SessionBag, t: SessionBag) {
    forall k :: k != LOGIN_STATUS_KEY && k != USERNAME_KEY ==>
      (k in s <==> k in t) && (k in s ==> s[k] == t[k])
  }

  predicate HasCredentials(form: Fields) {
    FORM_USERNAME in form && FORM_PASSWORD in form
  }

  /** The login view: missing credentials give 400, credentials the
      authentication backend rejects give 401, accepted ones log the session
      in under the supplied username. */
  function Login(s: SessionBag, form: Fields, authenticate: (string, string) -> bool): (r: SessionStep)
    ensures r.response.Message?
    ensures r.response.status == STATUS_BAD_REQUEST <==> !HasCredentials(form)
    ensures r.response.status == STATUS_UNAUTHORIZED <==>
              HasCredentials(form) && !authenticate(form[FORM_USERNAME], form[FORM_PASSWORD])
    ensures r.response.status == STATUS_OK <==>
              HasCredentials(form) && authenticate(form[FORM_USERNAME], form[FORM_PASSWORD])
    ensures r.response.status != STATUS_OK ==> r.session == s
    ensures r.response.status == STATUS_OK ==>
              && IsLoggedIn(r.session)
              && USERNAME_KEY in r.session && r.session[USERNAME_KEY] == form[FORM_USERNAME]
              && OthersUnchanged(s, r.session)
  {
    if !HasCredentials(form) then
      SessionStep(Message(STATUS_BAD_REQUEST), s)
    else
      var username, password := form[FORM_USERNAME], form[FORM_PASSWORD];
      if authenticate(username, password) then
        SessionStep(Message(STATUS_OK), s[LOGIN_STATUS_KEY := LOGGED_IN][USERNAME_KEY := username])
      else
        SessionStep(Message(STATUS_UNAUTHORIZED), s)
  }

  /** The logout view: no login_status gives 400, "logged_in" becomes
      "logged_out" with an empty username, any other value gives 401. */
  function Logout(s: SessionBag): (r: SessionStep)
    ensures r.response.Message?
    ensures r.response.status == STATUS_BAD_REQUEST <==> LOGIN_STATUS_KEY !in s
    ensures r.response.status == STATUS_OK <==> IsLoggedIn(s)
    ensures r.response.status == STATUS_UNAUTHORIZED <==>
              LOGIN_STATUS_KEY in s && s[LOGIN_STATUS_KEY] != LOGGED_IN
    ensures r.response.status != STATUS_OK ==> r.session == s
    ensures r.response.status == STATUS_OK ==>
              && LOGIN_STATUS_KEY in r.session && r.session[LOGIN_STATUS_KEY] == LOGGED_OUT
              && USERNAME_KEY in r.session && r.session[USERNAME_KEY] == ""
              && OthersUnchanged(s, r.session)
  {
    if LOGIN_STATUS_KEY !in s then
      SessionStep(Message(STATUS_BAD_REQUEST), s)
    else if s[LOGIN_STATUS_KEY] == LOGGED_IN then
      SessionStep(Message(STATUS_OK), s[LOGIN_STATUS_KEY := LOGGED_OUT][USERNAME_KEY := ""])
    else
      SessionStep(Message(STATUS_UNAUTHORIZED), s)
  }

  /** Whatever the session was, it is not logged in after a logout. */
  lemma LogoutLeavesLoggedOut(s: SessionBag)
    ensures !IsLoggedIn(Logout(s).session)
  {
  }

  /** A second logout is refused with 401 and changes nothing. */
  lemma LogoutTwice(s: SessionBag)
    requires IsLoggedIn(s)
    ensures Logout(s).response == Message(STATUS_OK)
    ensures Logout(Logout(s).session).response == Message(STATUS_UNAUTHORIZED)
    ensures Logout(Logout(s).session).session == Logout(s).session
  {
  }

  /** Login, logout, logout answers 200, 200, 401 from any starting session. */
  lemma LoginLogoutLogout(s: SessionBag, form: Fields, authenticate: (string, string) -> bool)
    requires HasCredentials(form) && authenticate(form[FORM_USERNAME], form[FORM_PASSWORD])
    ensures Login(s, form, authenticate).response == Message(STATUS_OK)
    ensures Logout(Login(s, form, authenticate).session).response == Message(STATUS_OK)
    ensures Logout(Logout(Login(s, form, authenticate).session).session).response
              == Message(STATUS_UNAUTHORIZED)
  {
    var s1 := Login(s, form, authenticate).session;
    assert IsLoggedIn(s1);
    LogoutTwice(s1);
  }

  /** Repeating a login leaves the same session as doing it once. */
  lemma LoginIdempotent(s: SessionBag, form: Fields, authenticate: (string, string) -> bool)
    ensures Login(Login(s, form, authenticate).session, form, authenticate)
            == Login(s, form, authenticate)
  {
    var once := Login(s, form, authenticate);
    var twice := Login(once.session, form, authenticate);
    if once.response.status == STATUS_OK {
      assert twice.session == once.session;
    }
  }
}
