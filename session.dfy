/** The tab-scoped `sessionStorage` the service keeps the logged-in student
    in: the key `user` holds the user record as JSON and the key
    `loginTime` the login instant in epoch milliseconds, as decimal text. */
module Session {
  import opened Common
  import opened JsText
  import opened Json

  const UserKey := "user"
  const LoginTimeKey := "loginTime"

  /** A session lasts 24 hours, in milliseconds. */
  const SessionCapMs := 24 * 60 * 60 * 1000

  /** The record `loginUser` builds and `getLoggedUser` returns. `nome` and
      `email` are copied from the backend's reply, which may omit them. */
  datatype UserData = UserData(nome: Option<string>, matricula: string, email: Option<string>, loginTime: string)

  /** The position of a key in the object literal `userData` is built from. */
  function InsertionRank(key: string): nat {
    if key == "nome" then 0
    else if key == "matricula" then 1
    else if key == "email" then 2
    else 3
  }

  /** The members of `userData` in insertion order; `JSON.stringify` drops a
      member whose value is `undefined`. */
  function UserMembers(u: UserData): (r: seq<(string, string)>)
    ensures forall i, j :: 0 <= i < j < |r| ==> InsertionRank(r[i].0) < InsertionRank(r[j].0)
    ensures |r| == 2 + (if u.nome.Some? then 1 else 0) + (if u.email.Some? then 1 else 0)
    ensures u.nome.Some? <==> r[0].0 == "nome"
    ensures u.email.Some? <==> r[|r| - 2].0 == "email"
    ensures r[|r| - 1] == (LoginTimeKey, u.loginTime)
  {
    (if u.nome.Some? then [("nome", u.nome.value)] else [])
    + [("matricula", u.matricula)]
    + (if u.email.Some? then [("email", u.email.value)] else [])
    + [("loginTime", u.loginTime)]
  }

  /** `JSON.stringify(userData)`: an object text that `JSON.parse` reads
      back as the record's members, in insertion order. */
  function SerializeUser(u: UserData): (r: string)
    ensures r != "" && r[0] == '{'
    ensures ParseObject(r) == Some(UserMembers(u))
  {
    ParseEncodedObject(UserMembers(u));
    EncodeObject(UserMembers(u))
  }

  /** The user record a parsed object describes; an object without a
      string `matricula` or `loginTime` is not one. */
  function UserOfMembers(ms: seq<(string, string)>): Option<UserData> {
    match (Lookup(ms, "matricula"), Lookup(ms, "loginTime"))
    case (Some(matricula), Some(loginTime)) =>
      Some(UserData(Lookup(ms, "nome"), matricula, Lookup(ms, "email"), loginTime))
    case _ => None
  }

  /** `JSON.parse(userStr)` read as a user record: text `JSON.parse` refuses
      gives none; an object gives the record whose fields are its last
      members with those keys, or none when `matricula` or `loginTime` is
      missing. */
  function ParseUser(s: string): (r: Option<UserData>)
    ensures ParseObject(s).None? ==> r.None?
    ensures ParseObject(s).Some? ==>
      var ms := ParseObject(s).value;
      && (r.Some? <==> Lookup(ms, "matricula").Some? && Lookup(ms, "loginTime").Some?)
      && (r.Some? ==> r.value == UserData(Lookup(ms, "nome"), Lookup(ms, "matricula").value, Lookup(ms, "email"), Lookup(ms, "loginTime").value))
  {
    match ParseObject(s)
    case None => None
    case Some(ms) => UserOfMembers(ms)
  }

  /** Each field of a record is the last member with its key. */
  lemma UserMembersLookup(u: UserData)
    ensures var ms := UserMembers(u);
      && Lookup(ms, "nome") == u.nome && Lookup(ms, "matricula") == Some(u.matricula)
      && Lookup(ms, "email") == u.email && Lookup(ms, "loginTime") == Some(u.loginTime)
  {
    var named := if u.nome.Some? then [("nome", u.nome.value)] else [];
    var withId := named + [("matricula", u.matricula)];
    var withEmail := withId + (if u.email.Some? then [("email", u.email.value)] else []);
    var ms := withEmail + [("loginTime", u.loginTime)];
    assert ms == UserMembers(u);
    LookupAppend(withEmail, ("loginTime", u.loginTime), "nome");
    LookupAppend(withEmail, ("loginTime", u.loginTime), "matricula");
    LookupAppend(withEmail, ("loginTime", u.loginTime), "email");
    LookupAppend(withEmail, ("loginTime", u.loginTime), "loginTime");
    if u.email.Some? {
      LookupAppend(withId, ("email", u.email.value), "matricula");
      LookupAppend(withId, ("email", u.email.value), "nome");
      LookupAppend(withId, ("email", u.email.value), "email");
    } else {
      assert withEmail == withId;
    }
    LookupAppend(named, ("matricula", u.matricula), "matricula");
    LookupAppend(named, ("matricula", u.matricula), "nome");
    LookupAppend(named, ("matricula", u.matricula), "email");
  }

  /** A stored user record reads back as the same record. */
  lemma ParseSerializedUser(u: UserData)
    ensures ParseUser(SerializeUser(u)) == Some(u)
  {
    UserMembersLookup(u);
  }

  /** The browser's `sessionStorage` for one tab: a string-to-string map,
      empty when the tab opens. */
  class SessionStorage {
    var items: map<string, string>

    constructor ()
      ensures items == map[]
    {
      items := map[];
    }

    /** `getItem(key)`: `null` when the key is absent. */
    function GetItem(key: string): (r: Option<string>)
      reads this
      ensures r.Some? <==> key in items
      ensures r.Some? ==> r.value == items[key]
    {
      if key in items then Some(items[key]) else None
    }

    /** `setItem(key, value)`. */
    method SetItem(key: string, value: string)
      modifies this
      ensures items == old(items)[key := value]
    {
      items := items[key := value];
    }

    /** `removeItem(key)`: removing an absent key does nothing. */
    method RemoveItem(key: string)
      modifies this
      ensures items == old(items) - {key}
    {
      items := items - {key};
    }
  }

  /** The storage with both session keys bound and every other key kept. */
  function WithEntries(items: map<string, string>, userText: string, timeText: string): (r: map<string, string>)
    ensures r.Keys == items.Keys + {UserKey, LoginTimeKey}
    ensures r[UserKey] == userText && r[LoginTimeKey] == timeText
    ensures forall k :: k in items && k != UserKey && k != LoginTimeKey ==> r[k] == items[k]
  {
    items[UserKey := userText][LoginTimeKey := timeText]
  }

  /** The storage after a login at `now` recorded `u`: both session keys
      are set and every other key is kept. */
  function WithSession(items: map<string, string>, u: UserData, now: nat): (r: map<string, string>)
    ensures r.Keys == items.Keys + {UserKey, LoginTimeKey}
    ensures r[UserKey] == SerializeUser(u) && r[LoginTimeKey] == NatToString(now)
    ensures forall k :: k in items && k != UserKey && k != LoginTimeKey ==> r[k] == items[k]
  {
    WithEntries(items, SerializeUser(u), NatToString(now))
  }

  /** The storage after a logout: both session keys are gone and every
      other key is kept. */
  function WithoutSession(items: map<string, string>): (r: map<string, string>)
    ensures r.Keys == items.Keys - {UserKey, LoginTimeKey}
    ensures forall k :: k in r ==> r[k] == items[k]
  {
    items - {UserKey, LoginTimeKey}
  }

  /** Logging out twice leaves the storage as logging out once. */
  lemma WithoutSessionIdempotent(items: map<string, string>)
    ensures WithoutSession(WithoutSession(items)) == WithoutSession(items)
  {
  }

  /** The `user` text is present, non-empty and `JSON.parse` accepts it,
      so `getLoggedUser` goes on to look at `loginTime`. */
  predicate UserReadable(items: map<string, string>) {
    UserKey in items && items[UserKey] != "" && ParseObject(items[UserKey]).Some?
  }

  /** The user record `getLoggedUser` reads: none when the key is absent,
      empty or not a user record. */
  function StoredUser(items: map<string, string>): (r: Option<UserData>)
    ensures UserKey !in items ==> r.None?
    ensures UserKey in items ==> r == ParseUser(items[UserKey])
    ensures r.Some? ==> UserReadable(items)
  {
    if UserKey !in items || items[UserKey] == "" then None
    else ParseUser(items[UserKey])
  }

  /** The session is past its cap: `loginTime` parses to an instant more
      than 24 hours before `now`. Exactly 24 hours is still valid, and an
      absent, empty or unparseable time never expires. */
  predicate IsExpired(items: map<string, string>, now: int): (r: bool)
    ensures LoginTimeKey in items && ParseInt(items[LoginTimeKey]).Some? ==>
      (r <==> now - ParseInt(items[LoginTimeKey]).value > SessionCapMs)
    ensures LoginTimeKey !in items || ParseInt(items[LoginTimeKey]).None? ==> !r
  {
    && LoginTimeKey in items && items[LoginTimeKey] != ""
    && var t := ParseInt(items[LoginTimeKey]);
       t.Some? && now - t.value > SessionCapMs
  }

  /** Whether `getLoggedUser` at `now` purges the session: when `JSON.parse`
      accepts the `user` text and the session is past its cap, whether or
      not that text is a user record. */
  predicate PurgedOnRead(items: map<string, string>, now: int): (r: bool)
    ensures r <==>
      && UserKey in items && items[UserKey] != "" && ParseObject(items[UserKey]).Some?
      && LoginTimeKey in items && ParseInt(items[LoginTimeKey]).Some?
      && now - ParseInt(items[LoginTimeKey]).value > SessionCapMs
  {
    UserReadable(items) && IsExpired(items, now)
  }

  /** What `getLoggedUser` returns at `now`: the stored record while the
      session is within its cap, and nothing once it has expired. */
  function LoggedUser(items: map<string, string>, now: int): (r: Option<UserData>)
    ensures IsExpired(items, now) ==> r.None?
    ensures !IsExpired(items, now) ==> r == StoredUser(items)
  {
    if PurgedOnRead(items, now) then None else StoredUser(items)
  }

  /** A `user` text that `JSON.parse` accepts but that is not a user record
      is still purged once the session has expired. */
  lemma ExpiredObjectPurged(now: int)
    requires now > SessionCapMs
    ensures var items := map[UserKey := "{}", LoginTimeKey := "0"];
      PurgedOnRead(items, now) && LoggedUser(items, now) == None
  {
    ParseIntOfDigits("0");
    assert DigitsValue("0", 10) == 0;
  }

  /** Saving then loading within 24 hours of the login gives back the
      saved record and purges nothing. */
  lemma SaveThenLoad(items: map<string, string>, u: UserData, loginAt: nat, now: int)
    requires now - loginAt <= SessionCapMs
    ensures LoggedUser(WithSession(items, u, loginAt), now) == Some(u)
    ensures !PurgedOnRead(WithSession(items, u, loginAt), now)
  {
    ParseSerializedUser(u);
    ParseIntOfNatToString(loginAt);
    var saved := WithSession(items, u, loginAt);
    assert SerializeUser(u)[0] == '{';
    assert StoredUser(saved) == Some(u);
  }

  /** Loading more than 24 hours after the login returns nothing and purges
      the session, after which nothing is logged in at any time. */
  lemma LoadAfterExpiry(items: map<string, string>, u: UserData, loginAt: nat, now: int, later: int)
    requires now - loginAt > SessionCapMs
    ensures LoggedUser(WithSession(items, u, loginAt), now) == None
    ensures PurgedOnRead(WithSession(items, u, loginAt), now)
    ensures LoggedUser(WithoutSession(WithSession(items, u, loginAt)), later) == None
  {
    ParseSerializedUser(u);
    ParseIntOfNatToString(loginAt);
    var saved := WithSession(items, u, loginAt);
    assert SerializeUser(u)[0] == '{';
    assert StoredUser(saved) == Some(u);
  }

  /** Without a `loginTime` key a stored user never expires, and reading it
      purges nothing. */
  lemma NoLoginTimeNeverExpires(items: map<string, string>, now: int)
    requires LoginTimeKey !in items
    ensures LoggedUser(items, now) == StoredUser(items)
    ensures !PurgedOnRead(items, now)
  {
  }
}
