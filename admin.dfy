/**
 * The admin side of frontend/admin.js: the fixed-credential login that sets
 * the `isAdmin` session flag, the page gate that sends a visitor without the
 * flag from an admin page to the login page, and the logout that clears it.
 */
module Admin {
  import opened Common
  import opened Text

  /** The browser's sessionStorage: string keys to string values, changed in place. */
  class SessionStorage {
    var items: map<string, string>

    constructor()
      ensures items == map[]
    {
      items := map[];
    }

    /** `getItem(key)`: null (None) for a key never set or removed. */
    function GetItem(key: string): (v: Option<string>)
      reads this
      ensures v.Some? <==> key in items
      ensures v.Some? ==> v.value == items[key]
    {
      if key in items then Some(items[key]) else None
    }

    method SetItem(key: string, value: string)
      modifies this
      ensures items == old(items)[key := value]
    {
      items := items[key := value];
    }

    method RemoveItem(key: string)
      modifies this
      ensures items == old(items) - {key}
    {
      items := items - {key};
    }
  }

  const AdminUsername := "admin"
  const AdminPassword := "admin123"
  const AdminFlag := "isAdmin"
  const AdminFlagSet := "true"
  const AdminHome := "admin-dashboard.html"
  const AdminLoginPage := "admin-login.html"
  const InvalidCredentials := "Invalid admin credentials"

  const AdminPages := ["admin-dashboard.html", "admin-users.html", "admin-content.html", "admin-analytics.html"]

  /** What submitting the admin login form does: navigate away, or show an alert. */
  datatype LoginOutcome = Navigate(page: string) | Alert(message: string)

  predicate CredentialsMatch(username: string, password: string)
  {
    username == AdminUsername && password == AdminPassword
  }

  /**
   * The login form: the exact default credentials set `isAdmin` to 'true' and
   * go to the admin dashboard; anything else alerts and leaves the session as
   * it was.
   */
  method SubmitAdminLogin(session: SessionStorage, username: string, password: string)
    returns (outcome: LoginOutcome)
    modifies session
    ensures outcome.Navigate? <==> CredentialsMatch(username, password)
    ensures CredentialsMatch(username, password) ==>
              outcome == Navigate(AdminHome) && session.items == old(session.items)[AdminFlag := AdminFlagSet]
    ensures CredentialsMatch(username, password) ==> forall pathname :: Gate(session, pathname) == None
    ensures !CredentialsMatch(username, password) ==>
              outcome == Alert(InvalidCredentials) && session.items == old(session.items)
  {
    if username == AdminUsername && password == AdminPassword {
      session.SetItem(AdminFlag, AdminFlagSet);
      outcome := Navigate(AdminHome);
    } else {
      outcome := Alert(InvalidCredentials);
    }
  }

  /**
   * `pathname.split('/').pop()`: the part of the path after its last '/', or
   * the whole path when it has none.
   */
  function CurrentPage(pathname: string): (page: string)
    ensures '/' !in page
    ensures |page| <= |pathname| && page == pathname[|pathname| - |page|..]
    ensures |page| < |pathname| ==> pathname[|pathname| - |page| - 1] == '/'
  {
    var parts := Split(pathname, '/');
    SplitLast(pathname, '/');
    parts[|parts| - 1]
  }

  /** The page of a path is its final file name, whatever the directories before it. */
  lemma CurrentPageOfJoined(dir: string, page: string)
    requires '/' !in page
    ensures CurrentPage(dir + "/" + page) == page
  {
    var path := dir + "/" + page;
    var current := CurrentPage(path);
    assert path[|path| - |page| - 1] == '/';
    if |current| > |page| {
      assert false;
    } else if |current| < |page| {
      assert false;
    }
    assert current == path[|path| - |page|..] == page;
  }

  /**
   * The gate run on every page load: on one of the four admin pages, a
   * redirect to the login page exactly when the flag is not exactly 'true';
   * elsewhere never.
   */
  function GateRedirect(pathname: string, flag: Option<string>): (redirect: Option<string>)
    ensures redirect.Some? <==> CurrentPage(pathname) in AdminPages && flag != Some(AdminFlagSet)
    ensures redirect.Some? ==> redirect.value == AdminLoginPage
  {
    if CurrentPage(pathname) in AdminPages && flag != Some(AdminFlagSet) then Some(AdminLoginPage) else None
  }

  /** The gate as the page sees it, reading the flag from the session. */
  function Gate(session: SessionStorage, pathname: string): (redirect: Option<string>)
    reads session
    ensures redirect.Some? <==>
              CurrentPage(pathname) in AdminPages && (AdminFlag !in session.items || session.items[AdminFlag] != AdminFlagSet)
  {
    GateRedirect(pathname, session.GetItem(AdminFlag))
  }

  /** The logout button: removes the flag and goes to the login page. */
  method Logout(session: SessionStorage) returns (page: string)
    modifies session
    ensures session.items == old(session.items) - {AdminFlag}
    ensures page == AdminLoginPage
    ensures forall pathname :: CurrentPage(pathname) in AdminPages ==> Gate(session, pathname) == Some(AdminLoginPage)
  {
    session.RemoveItem(AdminFlag);
    page := AdminLoginPage;
  }

  /**
   * Served from any directory, an admin page is redirected exactly when the
   * flag is not 'true'.
   */
  lemma GateOnAdminPage(dir: string, page: string, flag: Option<string>)
    requires page in AdminPages
    ensures GateRedirect(dir + "/" + page, flag) == if flag == Some(AdminFlagSet) then None else Some(AdminLoginPage)
  {
    CurrentPageOfJoined(dir, page);
  }
}
