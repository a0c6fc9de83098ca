/**
 * The gate every admin page sits behind: a password form, a flag kept in the
 * browser's local storage so a login outlives a reload, and the screen shown
 * while that flag is being read.
 */
module AdminAuth {
  import opened Wrappers

  /** The password the gate accepts. */
  const AdminPassword := "admin123"

  /** The local-storage key that remembers a login. */
  const AuthKey := "admin-auth"

  const WrongPassword := "Wrong password! Please try again."

  /** The browser's local storage, shared by every mount of the gate. */
  type Storage = map<string, string>

  /** Local storage says an admin logged in before. */
  predicate Remembered(storage: Storage)
  {
    AuthKey in storage && storage[AuthKey] == "true"
  }

  /** What the gate renders: a spinner, the login form, or the admin pages. */
  datatype Screen = Spinner | LoginForm | Dashboard

  class Gate {
    var isAuthenticated: bool
    var password: string
    var loading: bool
    var storage: Storage

    /** A fresh mount: not logged in, nothing typed, local storage not yet read. */
    constructor(storage: Storage)
      ensures !isAuthenticated && password == "" && loading && this.storage == storage
    {
      isAuthenticated := false;
      password := "";
      loading := true;
      this.storage := storage;
    }

    /** The screen for the current state: the spinner while loading, then the form until logged in. */
    function View(): Screen
      reads this
    {
      if loading then Spinner
      else if !isAuthenticated then LoginForm
      else Dashboard
    }

    /** The effect run on mount: a remembered login is restored, and loading ends. */
    method Mount()
      modifies this
      ensures isAuthenticated == (old(isAuthenticated) || Remembered(storage))
      ensures !loading && password == old(password) && storage == old(storage)
    {
      if Remembered(storage) {
        isAuthenticated := true;
      }
      loading := false;
    }

    /** Typing in the password field. */
    method TypePassword(typed: string)
      modifies this
      ensures password == typed
      ensures isAuthenticated == old(isAuthenticated) && loading == old(loading) && storage == old(storage)
    {
      password := typed;
    }

    /**
     * `handleLogin`: the right password logs in and is remembered; a wrong one
     * raises the alert. Either way the field is cleared.
     */
    method Login() returns (alert: Option<string>)
      modifies this
      ensures old(password) == AdminPassword ==>
        isAuthenticated && storage == old(storage)[AuthKey := "true"] && alert == None
      ensures old(password) != AdminPassword ==>
        isAuthenticated == old(isAuthenticated) && storage == old(storage) && alert == Some(WrongPassword)
      ensures password == "" && loading == old(loading)
    {
      if password == AdminPassword {
        isAuthenticated := true;
        storage := storage[AuthKey := "true"];
        alert := None;
      } else {
        alert := Some(WrongPassword);
      }
      password := "";
    }

    /** `handleLogout`: logged out, and the remembered login is forgotten. */
    method Logout()
      modifies this
      ensures !isAuthenticated && storage == old(storage) - {AuthKey}
      ensures password == old(password) && loading == old(loading)
    {
      isAuthenticated := false;
      storage := storage - {AuthKey};
    }
  }

  /**
   * A first visit: the page mounts, the visitor types `typed` and submits,
   * then reloads. The admin pages show after the reload exactly when the
   * password was right or a login was already remembered.
   */
  method LoginThenReload(storage: Storage, typed: string) returns (before: Screen, after: Screen)
    ensures before == (if Remembered(storage) then Dashboard else LoginForm)
    ensures after == Dashboard <==> typed == AdminPassword || Remembered(storage)
    ensures after != Spinner
  {
    var page := new Gate(storage);
    page.Mount();
    before := page.View();
    page.TypePassword(typed);
    var _ := page.Login();
    var reloaded := new Gate(page.storage);
    reloaded.Mount();
    after := reloaded.View();
  }

  /** Logging out and reloading shows the login form, whatever was stored before. */
  method LogoutThenReload(storage: Storage) returns (after: Screen)
    ensures after == LoginForm
  {
    var page := new Gate(storage);
    page.Mount();
    page.Logout();
    var reloaded := new Gate(page.storage);
    reloaded.Mount();
    after := reloaded.View();
  }

  /** Only the admin pages are shown once a login is remembered; the spinner only before the mount effect. */
  method MountedView(storage: Storage) returns (first: Screen, mounted: Screen)
    ensures first == Spinner
    ensures mounted == Dashboard <==> Remembered(storage)
    ensures mounted != Spinner
  {
    var page := new Gate(storage);
    first := page.View();
    page.Mount();
    mounted := page.View();
  }
}
