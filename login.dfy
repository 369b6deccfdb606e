/** The admin login page: its four hook states and the credential check of its
    submit handler. */
module LoginPage {
  import Auth

  /** The fixed credentials the page compares against. */
  const AdminUsername: string := "admin"
  const AdminPassword: string := "password123"

  /** The one message shown for any rejected attempt. */
  const InvalidCredentials: string := "Invalid username or password"

  /** The check: exact equality of both fields, without trimming. */
  predicate CredentialsMatch(username: string, password: string) {
    username == AdminUsername && password == AdminPassword
  }

  /** The `Login` component. `submittedUsername` and `submittedPassword` are the
      values the timed callback's closure captured when `handleSubmit` ran. */
  class Login {
    var username: string
    var password: string
    var error: string
    var loading: bool
    var submittedUsername: string
    var submittedPassword: string

    constructor()
      ensures username == "" && password == "" && error == "" && !loading
    {
      username, password, error, loading := "", "", "", false;
      submittedUsername, submittedPassword := "", "";
    }

    method SetUsername(value: string)
      modifies this
      ensures username == value && password == old(password)
      ensures error == old(error) && loading == old(loading)
      ensures submittedUsername == old(submittedUsername) && submittedPassword == old(submittedPassword)
    {
      username := value;
    }

    method SetPassword(value: string)
      modifies this
      ensures password == value && username == old(username)
      ensures error == old(error) && loading == old(loading)
      ensures submittedUsername == old(submittedUsername) && submittedPassword == old(submittedPassword)
    {
      password := value;
    }

    /** The synchronous part of `handleSubmit`: the previous error is cleared, the page
        shows that it is working, and the timer's callback captures the fields. */
    method BeginSubmit()
      modifies this
      ensures error == "" && loading
      ensures username == old(username) && password == old(password)
      ensures submittedUsername == username && submittedPassword == password
    {
      error := "";
      loading := true;
      submittedUsername, submittedPassword := username, password;
    }

    /** The delayed part of `handleSubmit`, run as one step. It checks the captured
        pair, not the fields as they are now. On a match the flag is stored and `true`
        reported; otherwise the single message is shown, `false` reported and nothing
        stored. Either way the page stops working. */
    method CompleteSubmit(store: Auth.KeyValueStore) returns (success: bool)
      modifies this, store
      ensures success <==> CredentialsMatch(old(submittedUsername), old(submittedPassword))
      ensures success ==> store.items == Auth.MarkAuthenticated(old(store.items)) && error == old(error)
      ensures !success ==> store.items == old(store.items) && error == InvalidCredentials
      ensures !loading
      ensures username == old(username) && password == old(password)
      ensures submittedUsername == old(submittedUsername) && submittedPassword == old(submittedPassword)
    {
      if submittedUsername == AdminUsername && submittedPassword == AdminPassword {
        store.SetItem(Auth.AuthFlagKey, Auth.TrueText);
        success := true;
      } else {
        error := InvalidCredentials;
        success := false;
      }
      loading := false;
    }

    /** `handleSubmit` with the one-second timer taken as immediate: no edit can come
        between capture and check. */
    method HandleSubmit(store: Auth.KeyValueStore) returns (success: bool)
      modifies this, store
      ensures success <==> CredentialsMatch(old(username), old(password))
      ensures success ==> store.items == Auth.MarkAuthenticated(old(store.items)) && error == ""
      ensures !success ==> store.items == old(store.items) && error == InvalidCredentials
      ensures !loading
      ensures username == old(username) && password == old(password)
    {
      BeginSubmit();
      success := CompleteSubmit(store);
    }
  }
}
