/** The session middleware `checkSessionIdExists`: it maps the `sessionId`
    cookie of a request to the identity of the first user row whose
    `session_id` equals it, or rejects the request with 401.  The lookup is
    a query: it leaves the users table as it is. */
module Session {
  import opened Values
  import opened Store

  const UNAUTHORIZED := 401

  /** The cookie as JavaScript's truthiness sees it: an absent cookie and an
      empty one both count as missing. */
  function Presented(cookie: Option<string>): (t: Option<string>)
    ensures t.Some? <==> cookie.Some? && cookie.value != ""
    ensures t.Some? ==> t == cookie
  {
    if cookie.Some? && cookie.value != "" then cookie else None
  }

  /** The first row holding token `t`, compared by exact equality; a row
      whose `session_id` is null holds no token. */
  function FirstHolder(users: seq<User>, t: string): Option<nat>
  {
    FirstMatch(users, (u: User) => u.session == Some(t))
  }

  /** What the middleware leaves behind: the identity it attached to the
      request, and the status it replied with when it rejected. */
  datatype Guard = Guard(user: Option<Identity>, rejected: Option<int>)

  function CheckSessionIdExists(users: seq<User>, cookie: Option<string>): (g: Guard)
    ensures g.user.None? <==> g.rejected == Some(UNAUTHORIZED)
    ensures g.user.Some? <==> g.rejected.None?
    ensures Presented(cookie).None? ==> g.user.None?
    ensures cookie.Some? && (forall i :: 0 <= i < |users| ==> users[i].session != cookie) ==> g.user.None?
    ensures g.user.Some? ==>
      cookie.Some? && cookie.value != "" &&
      exists i :: 0 <= i < |users| && users[i].session == cookie && g.user.value == IdentityOf(users[i])
        && forall j :: 0 <= j < i ==> users[j].session != cookie
  {
    match Presented(cookie)
    case None => Guard(None, Some(UNAUTHORIZED))
    case Some(t) =>
      match FirstHolder(users, t)
      case None => Guard(None, Some(UNAUTHORIZED))
      case Some(i) => Guard(Some(IdentityOf(users[i])), None)
  }

  /** A request without the cookie, or with an empty one, is refused with
      401 even when some row's `session_id` is the empty string. */
  lemma EmptyCookieRejected(users: seq<User>)
    ensures CheckSessionIdExists(users, None) == Guard(None, Some(UNAUTHORIZED))
    ensures CheckSessionIdExists(users, Some("")) == Guard(None, Some(UNAUTHORIZED))
  {
  }

  /** A presented token resolves as soon as some row holds it, and then to
      the first such row, whatever the rows after it hold. */
  lemma {:induction false} FirstHolderWins(users: seq<User>, t: string, i: nat)
    requires t != "" && i < |users| && users[i].session == Some(t)
    requires forall j :: 0 <= j < i ==> users[j].session != Some(t)
    ensures CheckSessionIdExists(users, Some(t)) == Guard(Some(IdentityOf(users[i])), None)
  {
    var f := FirstHolder(users, t);
    assert f.Some?;
    assert f.value == i;
  }

  /** The resolver looks at nothing but which rows hold the token and who
      they are: two tables that agree on that resolve the token alike. */
  lemma {:induction false} ResolveAgrees(a: seq<User>, b: seq<User>, t: string)
    requires |a| == |b|
    requires forall k :: 0 <= k < |a| ==> (a[k].session == Some(t) <==> b[k].session == Some(t))
    requires forall k :: 0 <= k < |a| && a[k].session == Some(t) ==> IdentityOf(a[k]) == IdentityOf(b[k])
    ensures CheckSessionIdExists(a, Some(t)) == CheckSessionIdExists(b, Some(t))
  {
    if t != "" {
      var fa, fb := FirstHolder(a, t), FirstHolder(b, t);
      if fa.Some? {
        assert fb.Some? && fb.value == fa.value;
      } else {
        assert fb.None?;
      }
    }
  }
}
