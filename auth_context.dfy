/**
 * `AuthProvider`: whether the client believes a user is logged in. The belief persists in
 * `localStorage` under "isLogged", so it survives reloads; the access token is kept apart.
 */
module AuthContext {
  import opened Wrappers
  import opened Browser

  const LoggedKey: string := "isLogged"

  /** `localStorage.getItem("isLogged") === "true"`. */
  predicate StoredAsLogged(storage: map<string, string>) {
    GetItem(storage, LoggedKey) == Some("true")
  }

  class AuthProvider {
    var isAuthenticated: bool
    var isLoading: bool

    /** The first render: not authenticated, still loading. */
    constructor()
      ensures !isAuthenticated && isLoading
    {
      isAuthenticated := false;
      isLoading := true;
    }

    /** `checkAuth()`, run once after the first render: adopts the stored belief and stops loading. */
    method CheckAuth(window: Window)
      modifies this
      ensures isAuthenticated == StoredAsLogged(window.storage)
      ensures !isLoading
    {
      isAuthenticated := GetItem(window.storage, LoggedKey) == Some("true");
      isLoading := false;
    }

    /** `login()`: records the belief in storage and in the state. */
    method Login(window: Window)
      modifies this, window
      ensures window.storage == old(window.storage)[LoggedKey := "true"]
      ensures window.location == old(window.location)
      ensures isAuthenticated && isLoading == old(isLoading)
    {
      window.storage := window.storage[LoggedKey := "true"];
      isAuthenticated := true;
    }

    /** `logout()`: removes the belief from storage and from the state. */
    method Logout(window: Window)
      modifies this, window
      ensures window.storage == old(window.storage) - {LoggedKey}
      ensures window.location == old(window.location)
      ensures !isAuthenticated && isLoading == old(isLoading)
    {
      window.storage := window.storage - {LoggedKey};
      isAuthenticated := false;
    }
  }

  /** A login makes every later reload start authenticated, and a logout makes it start logged out. */
  lemma LoginSurvivesReload(storage: map<string, string>)
    ensures StoredAsLogged(storage[LoggedKey := "true"])
    ensures !StoredAsLogged(storage - {LoggedKey})
  {
  }

  /** Logging in, then reloading the page: the new provider ends up authenticated once it has checked. */
  method ReloadAfterLogin(window: Window) returns (reloaded: AuthProvider)
    modifies window
    ensures fresh(reloaded)
    ensures reloaded.isAuthenticated && !reloaded.isLoading
  {
    var current := new AuthProvider();
    current.Login(window);
    reloaded := new AuthProvider();
    reloaded.CheckAuth(window);
  }

  /** Logging out, then reloading the page: the new provider ends up logged out once it has checked. */
  method ReloadAfterLogout(window: Window) returns (reloaded: AuthProvider)
    modifies window
    ensures fresh(reloaded)
    ensures !reloaded.isAuthenticated && !reloaded.isLoading
  {
    var current := new AuthProvider();
    current.Logout(window);
    reloaded := new AuthProvider();
    reloaded.CheckAuth(window);
  }
}
