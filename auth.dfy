/** The authentication context: a flag mirrored in the browser's key/value store, the
    start-up check that restores a stored session, and `login`/`logout`. */
module Auth {
  import opened Wrappers
  import opened JsString

  /** The store keys of a session. */
  const AuthFlagKey: string := "isAuthenticated"
  const TokenKey: string := "sessionToken"
  const ExpiryKey: string := "sessionExpiry"
  const TrueText: string := "true"
  const SessionKeys: set<string> := {AuthFlagKey, TokenKey, ExpiryKey}

  /** A session lasts one day, in milliseconds. */
  const SessionLength: nat := 24 * 60 * 60 * 1000

  /** `getItem(key)` on given items, `None` standing for `null`. */
  function Lookup(items: map<string, string>, key: string): (r: Option<string>)
    ensures r.Some? <==> key in items
    ensures r.Some? ==> r.value == items[key]
  {
    if key in items then Some(items[key]) else None
  }

  /** `localStorage`: string values under string keys. One store is shared by every
      component that holds a reference to it. */
  class KeyValueStore {
    var items: map<string, string>

    constructor(initial: map<string, string>)
      ensures items == initial
    {
      items := initial;
    }

    /** `getItem(key)`: the lookup in the current items. */
    function GetItem(key: string): (r: Option<string>)
      reads this
      ensures r.Some? <==> key in items
      ensures r.Some? ==> r.value == items[key]
    {
      Lookup(items, key)
    }

    /** `setItem(key, value)`. */
    method SetItem(key: string, value: string)
      modifies this
      ensures items == old(items)[key := value]
    {
      items := items[key := value];
    }

    /** `removeItem(key)`; removing an absent key does nothing. */
    method RemoveItem(key: string)
      modifies this
      ensures items == old(items) - {key}
    {
      items := items - {key};
    }
  }

  /** A stored value that JavaScript treats as true: present and non-empty. */
  predicate Truthy(v: Option<string>) {
    v.Some? && v.value != ""
  }

  /** What the start-up check does. */
  datatype StartUpOutcome =
    | Restore   // the session is still valid: authenticated
    | Expire    // a session is stored but over (or unreadable): `logout()`
    | Ignore    // no session is stored: nothing happens

  /** The start-up check on the stored items at time `now`: a stored session needs the
      flag `'true'` and a non-empty token and expiry; it is restored while `now` is
      before the expiry, and otherwise cleared, also when the expiry is not a number
      (`now < NaN` is false). */
  function StartUpDecision(items: map<string, string>, now: int): (r: StartUpOutcome)
    ensures r == Ignore <==>
              !(Lookup(items, AuthFlagKey) == Some(TrueText) &&
                Truthy(Lookup(items, TokenKey)) && Truthy(Lookup(items, ExpiryKey)))
    ensures r == Restore <==>
              Lookup(items, AuthFlagKey) == Some(TrueText) && Truthy(Lookup(items, TokenKey)) &&
              ExpiryKey in items && ParseInt(items[ExpiryKey]).Some? && now < ParseInt(items[ExpiryKey]).value
  {
    if Lookup(items, AuthFlagKey) == Some(TrueText) && Truthy(Lookup(items, TokenKey)) &&
       Truthy(Lookup(items, ExpiryKey)) then
      match ParseInt(items[ExpiryKey])
      case Some(expiryTime) => if now < expiryTime then Restore else Expire
      case None => Expire
    else Ignore
  }

  /** The store after `logout()`: the three session keys are gone and every other key
      keeps its value. */
  function ClearSession(items: map<string, string>): (r: map<string, string>)
    ensures r.Keys == items.Keys - SessionKeys
    ensures forall k :: k in r ==> r[k] == items[k]
  {
    items - SessionKeys
  }

  /** Logging out twice is logging out once. */
  lemma ClearSessionIdempotent(items: map<string, string>)
    ensures ClearSession(ClearSession(items)) == ClearSession(items)
  {
  }

  /** The store after `login()` as written: only the flag is set. */
  function MarkAuthenticated(items: map<string, string>): (r: map<string, string>)
    ensures r.Keys == items.Keys + {AuthFlagKey}
    ensures r[AuthFlagKey] == TrueText
    ensures forall k :: k in items && k != AuthFlagKey ==> r[k] == items[k]
  {
    items[AuthFlagKey := TrueText]
  }

  /** The store after a login that also records a session, as the start-up check
      expects: the flag, the token and the expiry one day after `now`, in decimal. */
  function StartSession(items: map<string, string>, token: string, now: nat): (r: map<string, string>)
    ensures r.Keys == items.Keys + SessionKeys
    ensures r[AuthFlagKey] == TrueText && r[TokenKey] == token
    ensures r[ExpiryKey] == DecimalString(now + SessionLength)
    ensures forall k :: k in items && k !in SessionKeys ==> r[k] == items[k]
  {
    items[AuthFlagKey := TrueText][TokenKey := token][ExpiryKey := DecimalString(now + SessionLength)]
  }

  /** No usable session token is stored. */
  predicate NoSessionToken(items: map<string, string>) {
    !Truthy(Lookup(items, TokenKey))
  }

  /** Without a token the start-up check never restores a session. */
  lemma NoTokenNoRestore(items: map<string, string>, now: int)
    requires NoSessionToken(items)
    ensures StartUpDecision(items, now) == Ignore
  {
  }

  /** As written, `login()` and `logout()` never store a token, so from a store
      without one, logging in and reloading the page finds no session to restore. */
  lemma LoginAsWrittenIsNotRestored(items: map<string, string>, now: int)
    requires NoSessionToken(items)
    ensures NoSessionToken(MarkAuthenticated(items))
    ensures NoSessionToken(ClearSession(items))
    ensures StartUpDecision(MarkAuthenticated(items), now) == Ignore
  {
    assert TokenKey != AuthFlagKey;
  }

  /** With a session recorded at login, the start-up check restores it until one day
      has passed and clears it from then on. */
  lemma StartedSessionRestoredUntilExpiry(items: map<string, string>, token: string, loginTime: nat, now: int)
    requires token != ""
    ensures StartUpDecision(StartSession(items, token, loginTime), now) ==
            if now < loginTime + SessionLength then Restore else Expire
  {
    var r := StartSession(items, token, loginTime);
    var expiry := DecimalString(loginTime + SessionLength);
    assert r[ExpiryKey] == expiry;
    assert r[TokenKey] == token;
    assert r[AuthFlagKey] == TrueText;
    ParseDecimalString(loginTime + SessionLength);
    assert expiry != "" by {
      RadixStringValue(loginTime + SessionLength, 10);
    }
  }

  /** The `AuthProvider`: the `isAuthenticated` state and the store it writes. */
  class AuthProvider {
    var isAuthenticated: bool
    const store: KeyValueStore

    /** Mounting the provider at time `now`: the state starts false and the start-up
        check runs once. */
    constructor(store: KeyValueStore, now: int)
      modifies store
      ensures this.store == store
      ensures isAuthenticated <==> StartUpDecision(old(store.items), now) == Restore
      ensures StartUpDecision(old(store.items), now) == Expire ==> store.items == ClearSession(old(store.items))
      ensures StartUpDecision(old(store.items), now) != Expire ==> store.items == old(store.items)
    {
      this.store := store;
      isAuthenticated := false;
      new;
      var authStatus := store.GetItem(AuthFlagKey);
      var sessionToken := store.GetItem(TokenKey);
      var sessionExpiry := store.GetItem(ExpiryKey);
      if authStatus == Some(TrueText) && Truthy(sessionToken) && Truthy(sessionExpiry) {
        var expiryTime := ParseInt(sessionExpiry.value);
        if expiryTime.Some? && now < expiryTime.value {
          isAuthenticated := true;
        } else {
          Logout();
        }
      }
    }

    /** `login()` as written: authenticated, and the flag stored; no token, no expiry. */
    method Login()
      modifies this, store
      ensures isAuthenticated
      ensures store.items == MarkAuthenticated(old(store.items))
    {
      isAuthenticated := true;
      store.SetItem(AuthFlagKey, TrueText);
    }

    /** A login that records the session the start-up check looks for. */
    method LoginWithSession(token: string, now: nat)
      modifies this, store
      ensures isAuthenticated
      ensures store.items == StartSession(old(store.items), token, now)
    {
      isAuthenticated := true;
      store.SetItem(AuthFlagKey, TrueText);
      store.SetItem(TokenKey, token);
      store.SetItem(ExpiryKey, DecimalString(now + SessionLength));
    }

    /** `logout()`: not authenticated, and exactly the three session keys removed. */
    method Logout()
      modifies this, store
      ensures !isAuthenticated
      ensures store.items == ClearSession(old(store.items))
    {
      isAuthenticated := false;
      store.RemoveItem(AuthFlagKey);
      store.RemoveItem(TokenKey);
      store.RemoveItem(ExpiryKey);
    }
  }
}
