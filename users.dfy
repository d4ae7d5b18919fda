/** The user routes: `/register`, `/login`, `/dashboard` and `/logout`,
    as methods of the users table.  Register and login reuse the caller's
    cookie token when there is one, so two rows can hold the same token;
    logout clears the token from every row that holds it. */
module Users {
  import opened Values
  import opened JsText
  import opened Store
  import opened Session

  /** The foreign collaborators of these routes: zod's email check and
      bcrypt's hash and compare, each taken as an arbitrary function. */
  datatype Deps = Deps(isEmail: string -> bool, hash: string -> string, compare: (string, string) -> bool)

  /** The one promise of bcrypt this model relies on: a password matches
      its own hash. */
  ghost predicate Sound(d: Deps)
  {
    forall p :: d.compare(p, d.hash(p))
  }

  const MIN_PASSWORD_LENGTH := 6

  /** A character of `[a-zA-Z0-9_-]`. */
  predicate NameChar(c: char)
  {
    'a' <= c <= 'z' || 'A' <= c <= 'Z' || IsDigit(c) || c == '_' || c == '-'
  }

  /** /^[a-zA-Z0-9_-]+$/: at least one character, all of them from the class. */
  predicate ValidUserName(s: string)
  {
    |s| > 0 && forall i :: 0 <= i < |s| ==> NameChar(s[i])
  }

  datatype Registration = Registration(name: string, email: string, password: string)

  /** `createUserBodySchema.parse`: the name pattern, the email check and a
      password of at least six UTF-16 code units. */
  function ParseRegistration(body: Body, isEmail: string -> bool): (r: Option<Registration>)
    ensures r.Some? <==>
      && StringField(body, "name").Some? && ValidUserName(StringField(body, "name").value)
      && StringField(body, "email").Some? && isEmail(StringField(body, "email").value)
      && StringField(body, "password").Some?
      && Utf16Length(StringField(body, "password").value) >= MIN_PASSWORD_LENGTH
    ensures r.Some? ==> r.value == Registration(StringField(body, "name").value,
                                                StringField(body, "email").value,
                                                StringField(body, "password").value)
  {
    match (StringField(body, "name"), StringField(body, "email"), StringField(body, "password"))
    case (Some(n), Some(e), Some(p)) =>
      if ValidUserName(n) && isEmail(e) && Utf16Length(p) >= MIN_PASSWORD_LENGTH
      then Some(Registration(n, e, p)) else None
    case _ => None
  }

  datatype Credentials = Credentials(email: string, password: string)

  /** `loginBodySchema.parse`: the email check, and any string as password. */
  function ParseLogin(body: Body, isEmail: string -> bool): (r: Option<Credentials>)
    ensures r.Some? <==>
      StringField(body, "email").Some? && isEmail(StringField(body, "email").value)
      && StringField(body, "password").Some?
    ensures r.Some? ==> r.value == Credentials(StringField(body, "email").value, StringField(body, "password").value)
  {
    match (StringField(body, "email"), StringField(body, "password"))
    case (Some(e), Some(p)) => if isEmail(e) then Some(Credentials(e, p)) else None
    case _ => None
  }

  function FindByEmail(users: seq<User>, email: string): Option<nat>
  {
    FirstMatch(users, (u: User) => u.email == email)
  }

  function FindByName(users: seq<User>, name: string): Option<nat>
  {
    FirstMatch(users, (u: User) => u.name == name)
  }

  /** The row a login with these credentials authenticates: the first row
      with that email, provided the password matches its stored hash. */
  function LoginTarget(users: seq<User>, c: Credentials, d: Deps): (r: Option<nat>)
    ensures r.Some? ==> r.value < |users| && users[r.value].email == c.email
    ensures r.Some? ==> d.compare(c.password, users[r.value].password)
    ensures r.Some? ==> forall j :: 0 <= j < r.value ==> users[j].email != c.email
    ensures r.None? <==> forall i :: 0 <= i < |users| && users[i].email == c.email
                                    && (forall j :: 0 <= j < i ==> users[j].email != c.email)
                                    ==> !d.compare(c.password, users[i].password)
  {
    match FindByEmail(users, c.email)
    case None => None
    case Some(i) =>
      assert forall k :: (0 <= k < |users| && users[k].email == c.email &&
                          forall j :: 0 <= j < k ==> users[j].email != c.email) ==> k == i;
      if d.compare(c.password, users[i].password) then Some(i) else None
  }

  /** The token a login or registration stores: the caller's cookie when it
      has one, otherwise the freshly generated one. */
  function ChosenToken(cookie: Option<string>, minted: string): string
  {
    if Presented(cookie).Some? then cookie.value else minted
  }

  /** The row a successful registration inserts. */
  function NewUser(reg: Registration, d: Deps, token: string, id: string, now: int): User
  {
    User(id, reg.name, reg.email, d.hash(reg.password), Some(token), now)
  }

  /** One row after `update({ session_id })` restricted to `id`. */
  function Stamp(u: User, id: string, t: string): User
  {
    if u.id == id then u.(session := Some(t)) else u
  }

  /** The statement at login: every row with the user's id gets token `t`. */
  function SetSession(users: seq<User>, id: string, t: string): seq<User>
  {
    UpdateWhere(users, (u: User) => Stamp(u, id, t))
  }

  /** One row after `update({ session_id: null })` restricted to token `t`. */
  function Unstamp(u: User, t: string): User
  {
    if u.session == Some(t) then u.(session := None) else u
  }

  /** The statement at logout: every row holding `t` loses it. */
  function ClearSession(users: seq<User>, t: string): seq<User>
  {
    UpdateWhere(users, (u: User) => Unstamp(u, t))
  }

  /** What the reply does to the `sessionId` cookie. */
  datatype CookieOut = Untouched | SetTo(token: string) | Cleared

  datatype RegisterReply = Created | EmailExists | UserNameExists | RegisterFailed
  {
    function Status(): int
    {
      match this
      case Created => 201
      case EmailExists => 409
      case UserNameExists => 409
      case RegisterFailed => 500
    }
  }

  datatype LoginReply = LoggedIn(user: Identity) | UnknownEmail | WrongPassword | LoginFailed
  {
    function Status(): int
    {
      match this
      case LoggedIn(_) => 200
      case UnknownEmail => 401
      case WrongPassword => 401
      case LoginFailed => 500
    }
  }

  datatype DashboardReply = Welcome(user: Identity) | DashboardRejected
  {
    function Status(): int
    {
      if Welcome? then 200 else 401
    }
  }

  datatype LogoutReply = LoggedOut | LogoutRejected | LogoutFailed
  {
    function Status(): int
    {
      match this
      case LoggedOut => 200
      case LogoutRejected => 401
      case LogoutFailed => 500
    }
  }

  /** The `users` table.  `fault` stands for the write statement of a route
      raising an exception, which the route's catch turns into 500. */
  class UsersTable {
    var rows: seq<User>

    constructor ()
      ensures rows == []
    {
      rows := [];
    }

    /** POST /register.  Validation failure gives 500; a taken email gives
        409 and is checked before the name; otherwise one row is inserted,
        holding the password's hash and the chosen token. */
    method Register(body: Body, cookie: Option<string>, deps: Deps, freshToken: string, freshId: string,
                    now: int, fault: bool)
      returns (reply: RegisterReply, setCookie: CookieOut)
      modifies this
      ensures ParseRegistration(body, deps.isEmail).None? ==>
        reply == RegisterFailed && setCookie == Untouched && rows == old(rows)
      ensures ParseRegistration(body, deps.isEmail).Some? ==>
        var reg := ParseRegistration(body, deps.isEmail).value;
        if FindByEmail(old(rows), reg.email).Some? then
          reply == EmailExists && setCookie == Untouched && rows == old(rows)
        else if FindByName(old(rows), reg.name).Some? then
          reply == UserNameExists && setCookie == Untouched && rows == old(rows)
        else
          && setCookie == (if Presented(cookie).None? then SetTo(freshToken) else Untouched)
          && (fault ==> reply == RegisterFailed && rows == old(rows))
          && (!fault ==> (reply == Created &&
                          rows == old(rows) + [NewUser(reg, deps, ChosenToken(cookie, freshToken), freshId, now)]))
    {
      var parsed := ParseRegistration(body, deps.isEmail);
      if parsed.None? {
        return RegisterFailed, Untouched;
      }
      var reg := parsed.value;
      if FindByEmail(rows, reg.email).Some? {
        return EmailExists, Untouched;
      }
      if FindByName(rows, reg.name).Some? {
        return UserNameExists, Untouched;
      }
      var hashed := deps.hash(reg.password);
      var token: string;
      match Presented(cookie) {
        case None =>
          token := freshToken;
          setCookie := SetTo(freshToken);
        case Some(t) =>
          token := t;
          setCookie := Untouched;
      }
      if fault {
        return RegisterFailed, setCookie;
      }
      rows := rows + [User(freshId, reg.name, reg.email, hashed, Some(token), now)];
      reply := Created;
    }

    /** POST /login.  An unknown email or a wrong password gives 401 and
        changes nothing; success stores the chosen token on every row with
        the user's id, overwriting what they held, sets the cookie and
        replies with the identity only. */
    method Login(body: Body, cookie: Option<string>, deps: Deps, freshToken: string, fault: bool)
      returns (reply: LoginReply, setCookie: CookieOut)
      modifies this
      ensures ParseLogin(body, deps.isEmail).None? ==>
        reply == LoginFailed && setCookie == Untouched && rows == old(rows)
      ensures ParseLogin(body, deps.isEmail).Some? ==>
        var c := ParseLogin(body, deps.isEmail).value;
        match FindByEmail(old(rows), c.email)
        case None => reply == UnknownEmail && setCookie == Untouched && rows == old(rows)
        case Some(i) =>
          if !deps.compare(c.password, old(rows)[i].password) then
            reply == WrongPassword && setCookie == Untouched && rows == old(rows)
          else if fault then
            && reply == LoginFailed && rows == old(rows)
            && setCookie == (if Presented(cookie).None? then SetTo(freshToken) else Untouched)
          else
            && reply == LoggedIn(IdentityOf(old(rows)[i]))
            && setCookie == SetTo(ChosenToken(cookie, freshToken))
            && rows == SetSession(old(rows), old(rows)[i].id, ChosenToken(cookie, freshToken))
      ensures ParseLogin(body, deps.isEmail).Some? && !fault ==>
        var target := LoginTarget(old(rows), ParseLogin(body, deps.isEmail).value, deps);
        && (reply.LoggedIn? <==> target.Some?)
        && (target.Some? ==> reply.user == IdentityOf(old(rows)[target.value]))
    {
      var parsed := ParseLogin(body, deps.isEmail);
      if parsed.None? {
        return LoginFailed, Untouched;
      }
      var c := parsed.value;
      var found := FindByEmail(rows, c.email);
      if found.None? {
        return UnknownEmail, Untouched;
      }
      var user := rows[found.value];
      if !deps.compare(c.password, user.password) {
        return WrongPassword, Untouched;
      }
      var token: string;
      match Presented(cookie) {
        case None =>
          token := freshToken;
          setCookie := SetTo(freshToken);
        case Some(t) =>
          token := t;
          setCookie := Untouched;
      }
      if fault {
        return LoginFailed, setCookie;
      }
      StoreSession(user.id, token);
      setCookie := SetTo(token);
      reply := LoggedIn(IdentityOf(user));
    }

    /** GET /dashboard: the identity the session resolves to, or 401. */
    function Dashboard(cookie: Option<string>): (reply: DashboardReply)
      reads this
      ensures reply.Welcome? <==> CheckSessionIdExists(rows, cookie).user.Some?
      ensures reply.Welcome? ==> Some(reply.user) == CheckSessionIdExists(rows, cookie).user
    {
      match CheckSessionIdExists(rows, cookie).user
      case None => DashboardRejected
      case Some(u) => Welcome(u)
    }

    /** POST /logout.  Behind the session middleware; clears the cookie and
        the token of every row holding the caller's token. */
    method Logout(cookie: Option<string>, fault: bool) returns (reply: LogoutReply, setCookie: CookieOut)
      modifies this
      ensures CheckSessionIdExists(old(rows), cookie).user.None? ==>
        reply == LogoutRejected && setCookie == Untouched && rows == old(rows)
      ensures CheckSessionIdExists(old(rows), cookie).user.Some? ==>
        && cookie.Some? && setCookie == Cleared
        && (fault ==> reply == LogoutFailed && rows == old(rows))
        && (!fault ==> reply == LoggedOut && rows == ClearSession(old(rows), cookie.value))
    {
      var guard := CheckSessionIdExists(rows, cookie);
      if guard.user.None? {
        return LogoutRejected, Untouched;
      }
      var token := cookie.value;
      setCookie := Cleared;
      if fault {
        return LogoutFailed, setCookie;
      }
      DropSession(token);
      reply := LoggedOut;
    }

    /** `update({ session_id: t })` on the rows whose id is `id`, row by row. */
    method StoreSession(id: string, t: string)
      modifies this
      ensures rows == SetSession(old(rows), id, t)
    {
      var i := 0;
      while i < |rows|
        invariant 0 <= i <= |rows| == |old(rows)|
        invariant forall k :: 0 <= k < i ==> rows[k] == Stamp(old(rows)[k], id, t)
        invariant forall k :: i <= k < |rows| ==> rows[k] == old(rows)[k]
      {
        if rows[i].id == id {
          rows := rows[i := rows[i].(session := Some(t))];
        }
        i := i + 1;
      }
    }

    /** `update({ session_id: null })` on the rows holding `t`, row by row. */
    method DropSession(t: string)
      modifies this
      ensures rows == ClearSession(old(rows), t)
    {
      var i := 0;
      while i < |rows|
        invariant 0 <= i <= |rows| == |old(rows)|
        invariant forall k :: 0 <= k < i ==> rows[k] == Unstamp(old(rows)[k], t)
        invariant forall k :: i <= k < |rows| ==> rows[k] == old(rows)[k]
      {
        if rows[i].session == Some(t) {
          rows := rows[i := rows[i].(session := None)];
        }
        i := i + 1;
      }
    }
  }

  /** A login with the credentials just registered authenticates the new
      row: its email was free, so it is the first row with it, and the
      stored hash matches the password. */
  lemma {:induction false} RegisterThenLogin(users: seq<User>, reg: Registration, d: Deps, token: string, id: string, now: int)
    requires Sound(d)
    requires FindByEmail(users, reg.email).None?
    ensures LoginTarget(users + [NewUser(reg, d, token, id, now)], Credentials(reg.email, reg.password), d) == Some(|users|)
  {
    var after := users + [NewUser(reg, d, token, id, now)];
    FirstMatchAppend(users, NewUser(reg, d, token, id, now), (u: User) => u.email == reg.email);
    assert FindByEmail(after, reg.email) == Some(|users|);
    assert d.compare(reg.password, d.hash(reg.password));
  }

  /** Once a registration with an email succeeded, that email is taken. */
  lemma RegisteredEmailIsTaken(users: seq<User>, reg: Registration, d: Deps, token: string, id: string, now: int)
    ensures FindByEmail(users + [NewUser(reg, d, token, id, now)], reg.email).Some?
  {
    var after := users + [NewUser(reg, d, token, id, now)];
    assert after[|users|].email == reg.email;
  }

  /** After logout, the caller's token resolves to nobody. */
  lemma LogoutRevokes(users: seq<User>, t: string)
    ensures CheckSessionIdExists(ClearSession(users, t), Some(t)).user.None?
  {
    var after := ClearSession(users, t);
    forall k | 0 <= k < |after| ensures after[k].session != Some(t) {
      assert after[k] == Unstamp(users[k], t);
    }
  }

  /** Logout leaves every other token resolving as before. */
  lemma LogoutSparesOtherTokens(users: seq<User>, t: string, other: string)
    requires other != t
    ensures CheckSessionIdExists(ClearSession(users, t), Some(other)) == CheckSessionIdExists(users, Some(other))
  {
    var after := ClearSession(users, t);
    forall k | 0 <= k < |after|
      ensures after[k].session == Some(other) <==> users[k].session == Some(other)
      ensures IdentityOf(after[k]) == IdentityOf(users[k])
    {
      assert after[k] == Unstamp(users[k], t);
    }
    ResolveAgrees(after, users, other);
  }

  /** A login that stores a token no row held yet makes that token resolve
      to the user who logged in, when no other row shares the user's id. */
  lemma {:induction false} LoginResolvesToUser(users: seq<User>, i: nat, t: string)
    requires i < |users| && t != ""
    requires forall k :: 0 <= k < |users| ==> users[k].session != Some(t)
    requires forall k :: 0 <= k < |users| && k != i ==> users[k].id != users[i].id
    ensures CheckSessionIdExists(SetSession(users, users[i].id, t), Some(t)) == Guard(Some(IdentityOf(users[i])), None)
  {
    var after := SetSession(users, users[i].id, t);
    assert after[i] == Stamp(users[i], users[i].id, t);
    forall j | 0 <= j < i ensures after[j].session != Some(t) {
      assert after[j] == Stamp(users[j], users[i].id, t);
    }
    FirstHolderWins(after, t, i);
  }

  /** A login from a browser that still carries another user's token gives
      that token to the user logging in as well; the token keeps resolving
      to whichever of the two rows comes first. */
  lemma {:induction false} ForeignCookieLogin(users: seq<User>, j: nat, i: nat, t: string)
    requires j < i < |users| && t != ""
    requires users[j].session == Some(t) && users[j].id != users[i].id
    requires forall k :: 0 <= k < j ==> users[k].session != Some(t) && users[k].id != users[i].id
    ensures SetSession(users, users[i].id, t)[i].session == Some(t)
    ensures CheckSessionIdExists(SetSession(users, users[i].id, t), Some(t)) == Guard(Some(IdentityOf(users[j])), None)
  {
    var after := SetSession(users, users[i].id, t);
    assert after[i] == Stamp(users[i], users[i].id, t);
    assert after[j] == Stamp(users[j], users[i].id, t);
    forall k | 0 <= k < j ensures after[k].session != Some(t) {
      assert after[k] == Stamp(users[k], users[i].id, t);
    }
    FirstHolderWins(after, t, j);
  }

  /** Login touches only the session column of the user's own rows. */
  lemma LoginTouchesOnlySession(users: seq<User>, id: string, t: string, k: nat)
    requires k < |users|
    ensures var after := SetSession(users, id, t);
      |after| == |users| && IdentityOf(after[k]) == IdentityOf(users[k])
      && after[k].password == users[k].password && after[k].createdAt == users[k].createdAt
      && (users[k].id == id ==> after[k].session == Some(t))
      && (users[k].id != id ==> after[k] == users[k])
  {
    assert SetSession(users, id, t)[k] == Stamp(users[k], id, t);
  }

  /** The name rule: one or more of letters, digits, `_` and `-`. */
  lemma UserNameExamples()
    ensures ValidUserName("alice") && ValidUserName("a_b-9") && ValidUserName("-")
    ensures !ValidUserName("") && !ValidUserName("al ice") && !ValidUserName("al!ce")
  {
    assert !NameChar(' ') && !NameChar('!');
    assert "al ice"[2] == ' ' && "al!ce"[2] == '!';
  }
}
