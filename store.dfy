/** The two tables and the three kinds of statement the route handlers run
    against them, over in-memory rows kept in storage order: a lookup of the
    first matching row (`.where(...).first()`), a filtering query or delete
    (`.where(...)`, `.where(...).del()`), and an update of every matching
    row (`.where(...).update(...)`). */
module Store {
  import opened Values

  /** A row of the `users` table; `password` holds the stored hash and
      `session` the `session_id` column, which may be null. */
  datatype User = User(id: string, name: string, email: string, password: string,
                       session: Option<string>, createdAt: int)

  /** What the session middleware attaches to a request and what login and
      the dashboard reply with: a user without password or session. */
  datatype Identity = Identity(id: string, name: string, email: string)

  function IdentityOf(u: User): Identity
  {
    Identity(u.id, u.name, u.email)
  }

  /** A row of the `meals` table. */
  datatype Meal = Meal(id: string, name: string, description: string, hour: string, date: string,
                       isOnDiet: bool, createdAt: int, userId: string)

  /** The position of the first row satisfying `p`, in storage order. */
  function FirstMatch<T>(rows: seq<T>, p: T -> bool): (r: Option<nat>)
    ensures r.Some? ==> r.value < |rows| && p(rows[r.value])
    ensures r.Some? ==> forall j :: 0 <= j < r.value ==> !p(rows[j])
    ensures r.None? <==> forall j :: 0 <= j < |rows| ==> !p(rows[j])
  {
    if |rows| == 0 then None
    else if p(rows[0]) then Some(0)
    else match FirstMatch(rows[1..], p)
      case None => None
      case Some(k) => Some(k + 1)
  }

  /** The rows satisfying `keep`, in storage order. */
  function Where<T>(rows: seq<T>, keep: T -> bool): (r: seq<T>)
    ensures forall k :: 0 <= k < |r| ==> r[k] in rows && keep(r[k])
    ensures forall k :: 0 <= k < |rows| && keep(rows[k]) ==> rows[k] in r
    ensures |r| <= |rows|
    ensures |r| == |rows| <==> forall k :: 0 <= k < |rows| ==> keep(rows[k])
  {
    if rows == [] then []
    else
      var init := rows[..|rows| - 1];
      var last := rows[|rows| - 1];
      assert rows == init + [last];
      var r := Where(init, keep) + if keep(last) then [last] else [];
      assert |r| == |rows| ==> keep(last) && |Where(init, keep)| == |init|;
      assert forall k :: 0 <= k < |init| ==> rows[k] == init[k];
      r
  }

  /** `rows` with `f` applied to every row; `f` leaves the rows the
      statement does not match as they are. */
  function UpdateWhere<T>(rows: seq<T>, f: T -> T): (r: seq<T>)
    ensures |r| == |rows|
    ensures forall k :: 0 <= k < |rows| ==> r[k] == f(rows[k])
  {
    if rows == [] then []
    else UpdateWhere(rows[..|rows| - 1], f) + [f(rows[|rows| - 1])]
  }

  /** Extending the rows by one extends the query result by that row or by nothing. */
  lemma WhereSnoc<T>(rows: seq<T>, x: T, keep: T -> bool)
    ensures Where(rows + [x], keep) == Where(rows, keep) + if keep(x) then [x] else []
  {
    assert (rows + [x])[..|rows + [x]| - 1] == rows;
  }

  /** Filtering twice, the second time by a condition that implies the
      first, is filtering once by the second. */
  lemma {:induction false} WhereWhere<T>(rows: seq<T>, p: T -> bool, q: T -> bool)
    requires forall x :: q(x) ==> p(x)
    ensures Where(Where(rows, p), q) == Where(rows, q)
  {
    if rows != [] {
      var init := rows[..|rows| - 1];
      var last := rows[|rows| - 1];
      assert rows == init + [last];
      WhereSnoc(init, last, p);
      WhereSnoc(init, last, q);
      WhereWhere(init, p, q);
      if p(last) {
        assert Where(rows, p) == Where(init, p) + [last];
        WhereSnoc(Where(init, p), last, q);
      } else {
        assert !q(last);
        assert Where(rows, p) == Where(init, p);
      }
    }
  }

  /** The rows an update keeps as they are, filtered by a condition that
      the update neither establishes nor destroys, come out unchanged. */
  lemma {:induction false} WhereUpdateWhere<T>(rows: seq<T>, f: T -> T, q: T -> bool)
    requires forall x :: q(x) ==> f(x) == x
    requires forall x :: !q(x) ==> !q(f(x))
    ensures Where(UpdateWhere(rows, f), q) == Where(rows, q)
  {
    if rows != [] {
      var init := rows[..|rows| - 1];
      var last := rows[|rows| - 1];
      assert rows == init + [last];
      assert UpdateWhere(rows, f) == UpdateWhere(init, f) + [f(last)];
      WhereUpdateWhere(init, f, q);
      WhereSnoc(UpdateWhere(init, f), f(last), q);
      WhereSnoc(init, last, q);
      assert q(f(last)) == q(last) && (q(last) ==> f(last) == last);
    }
  }

  /** A filter every row passes gives back the rows themselves. */
  lemma {:induction false} WhereKeepsAll<T>(rows: seq<T>, keep: T -> bool)
    requires forall k :: 0 <= k < |rows| ==> keep(rows[k])
    ensures Where(rows, keep) == rows
  {
    if rows != [] {
      var init := rows[..|rows| - 1];
      assert rows == init + [rows[|rows| - 1]];
      WhereKeepsAll(init, keep);
    }
  }

  /** A row satisfying `p` appended after rows that do not is the first match. */
  lemma {:induction false} FirstMatchAppend<T>(rows: seq<T>, x: T, p: T -> bool)
    requires forall j :: 0 <= j < |rows| ==> !p(rows[j])
    requires p(x)
    ensures FirstMatch(rows + [x], p) == Some(|rows|)
  {
    if rows != [] {
      assert (rows + [x])[1..] == rows[1..] + [x];
      FirstMatchAppend(rows[1..], x, p);
    }
  }
}
