/** The simulated authentication: a login flag kept as the string "true" or
    "false" in the tab's session storage, set by a login form that compares
    against one fixed pair of credentials. */
module Session {
  import opened Optional
  import opened Store

  /** The session storage: string keys to string values. */
  type Storage = map<string, string>

  const LoggedInKey: string := "isLoggedIn"
  const CorrectUsername: string := "admin"
  const CorrectPassword: string := "senha123"

  /** `setLoggedIn`: stores the flag as "true" or "false" and touches no other key. */
  function SetLoggedIn(storage: Storage, loggedIn: bool): (r: Storage)
    ensures LoggedInKey in r && (r[LoggedInKey] == "true" <==> loggedIn)
    ensures !loggedIn ==> r[LoggedInKey] == "false"
    ensures r.Keys == storage.Keys + {LoggedInKey}
    ensures forall k :: k in storage && k != LoggedInKey ==> r[k] == storage[k]
  {
    storage[LoggedInKey := if loggedIn then "true" else "false"]
  }

  /** `isLoggedIn`: true only when the flag is present and is the string "true";
      a missing flag (`getItem` returning null) reads as logged out. Put
      differently: logged in exactly when setting the flag would change nothing. */
  function IsLoggedIn(storage: Storage): (b: bool)
    ensures b ==> LoggedInKey in storage
    ensures b <==> SetLoggedIn(storage, true) == storage
  {
    LoggedInKey in storage && storage[LoggedInKey] == "true"
  }

  /** The flag reads back as whatever was last written. */
  lemma SetThenIsLoggedIn(storage: Storage, loggedIn: bool)
    ensures IsLoggedIn(SetLoggedIn(storage, loggedIn)) == loggedIn
  {
  }

  /** Writing the flag twice leaves what the second write leaves. */
  lemma SetLoggedInOverwrites(storage: Storage, first: bool, second: bool)
    ensures SetLoggedIn(SetLoggedIn(storage, first), second) == SetLoggedIn(storage, second)
  {
  }

  predicate CredentialsValid(username: string, password: string)
  {
    username == CorrectUsername && password == CorrectPassword
  }

  /** The login form: on the fixed credentials the flag is set and the
      result is true; otherwise the storage is left as it was. */
  function Login(storage: Storage, username: string, password: string): (r: (Storage, bool))
    ensures r.1 <==> username == "admin" && password == "senha123"
    ensures r.1 ==> IsLoggedIn(r.0)
    ensures r.1 ==> r.0 == SetLoggedIn(storage, true)
    ensures !r.1 ==> r.0 == storage
  {
    if CredentialsValid(username, password) then (SetLoggedIn(storage, true), true)
    else (storage, false)
  }

  /** After a login attempt the user is logged in exactly when they already
      were or the credentials were the fixed ones. */
  lemma LoginOutcome(storage: Storage, username: string, password: string)
    ensures IsLoggedIn(Login(storage, username, password).0)
      <==> IsLoggedIn(storage) || (username == "admin" && password == "senha123")
  {
  }

  /** The logout button clears the flag. */
  function Logout(storage: Storage): (r: Storage)
    ensures !IsLoggedIn(r)
    ensures LoggedInKey in r && r[LoggedInKey] == "false"
    ensures r.Keys == storage.Keys + {LoggedInKey}
    ensures forall k :: k in storage && k != LoggedInKey ==> r[k] == storage[k]
  {
    SetLoggedIn(storage, false)
  }

  /** Opening the admin page: logged-out visitors are sent to the login page
      (`None`); logged-in ones get the panel with freshly loaded data. */
  function OpenAdmin(storage: Storage, fetched: Option<Data>): (r: Option<Data>)
    ensures r.Some? <==> IsLoggedIn(storage)
    ensures r.Some? ==> r.value == InitializeData(fetched)
  {
    if !IsLoggedIn(storage) then None else Some(InitializeData(fetched))
  }

  /** A successful login opens the admin page; a logout closes it. */
  lemma LoginOpensAdmin(storage: Storage, fetched: Option<Data>)
    ensures OpenAdmin(Login(storage, "admin", "senha123").0, fetched).Some?
    ensures OpenAdmin(Logout(storage), fetched).None?
  {
  }
}
