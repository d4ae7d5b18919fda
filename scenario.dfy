/** A client session against both tables: register, log in with the cookie
    the registration set, create a meal, list, delete it, list again. */
module Scenario {
  import opened Values
  import opened JsText
  import opened Formats
  import opened Store
  import opened Session
  import opened Users
  import opened Meals

  function RegisterBody(name: string, email: string, password: string): (b: Body)
    ensures StringField(b, "name") == Some(name) && StringField(b, "email") == Some(email)
    ensures StringField(b, "password") == Some(password)
  {
    Object(map["name" := JString(name), "email" := JString(email), "password" := JString(password)])
  }

  function LoginBody(email: string, password: string): (b: Body)
    ensures StringField(b, "email") == Some(email) && StringField(b, "password") == Some(password)
  {
    Object(map["email" := JString(email), "password" := JString(password)])
  }

  /** The whole session on empty tables, with a fresh token and fresh ids:
      201, 200, 201, the new meal listed, 200, and an empty list. */
  method EndToEnd(deps: Deps, name: string, email: string, password: string, token: string, userId: string,
                  mealName: string, description: string, hour: string, date: string, isOnDiet: bool, mealId: string)
    returns (statuses: seq<int>, listed: seq<Meal>, relisted: seq<Meal>)
    requires Sound(deps) && deps.isEmail(email)
    requires ValidUserName(name) && Utf16Length(password) >= MIN_PASSWORD_LENGTH
    requires token != ""
    requires ValidHour(hour) && ValidDate(date)
    ensures statuses == [201, 200, 201, 200, 200, 200]
    ensures listed == [Meal(mealId, mealName, description, hour, date, isOnDiet, 1, userId)]
    ensures relisted == []
  {
    var signUp, user := SignUpAndLogIn(deps, name, email, password, token, userId);
    var mealStatuses;
    mealStatuses, listed, relisted := MealRoundTrip(user, mealName, description, hour, date, isOnDiet, mealId);
    statuses := signUp + mealStatuses;
  }

  /** Register on an empty users table, then log in presenting the cookie the
      registration set: the session middleware then resolves that cookie
      to the new user. */
  method SignUpAndLogIn(deps: Deps, name: string, email: string, password: string, token: string, userId: string)
    returns (statuses: seq<int>, user: Option<Identity>)
    requires Sound(deps) && deps.isEmail(email)
    requires ValidUserName(name) && Utf16Length(password) >= MIN_PASSWORD_LENGTH
    requires token != ""
    ensures statuses == [201, 200]
    ensures user == Some(Identity(userId, name, email))
  {
    var users := new UsersTable();
    var registered, cookie := users.Register(RegisterBody(name, email, password), None, deps, token, userId, 0, false);
    assert registered == Created && cookie == SetTo(token);
    var row := User(userId, name, email, deps.hash(password), Some(token), 0);
    assert users.rows == [row];

    assert deps.compare(password, deps.hash(password));
    assert FindByEmail(users.rows, email) == Some(0);
    var loggedIn, cookie2 := users.Login(LoginBody(email, password), Some(token), deps, "", false);
    assert loggedIn == LoggedIn(Identity(userId, name, email));
    assert users.rows == SetSession([row], userId, token);
    assert users.rows[0] == Stamp(row, userId, token) == row;
    FirstHolderWins(users.rows, token, 0);
    user := CheckSessionIdExists(users.rows, Some(token)).user;
    statuses := [registered.Status(), loggedIn.Status()];
  }

  /** On an empty meals table, as a resolved user: create a meal, list,
      delete it, list again. */
  method MealRoundTrip(user: Option<Identity>, mealName: string, description: string, hour: string, date: string,
                       isOnDiet: bool, mealId: string)
    returns (statuses: seq<int>, listed: seq<Meal>, relisted: seq<Meal>)
    requires user.Some?
    requires ValidHour(hour) && ValidDate(date)
    ensures statuses == [201, 200, 200, 200]
    ensures listed == [Meal(mealId, mealName, description, hour, date, isOnDiet, 1, user.value.id)]
    ensures relisted == []
  {
    var meals := new MealsTable();
    var uid := user.value.id;
    MealBodyParses(mealName, description, date, hour, JBool(isOnDiet));
    var created := meals.NewMeal(user, MealBody(mealName, description, date, hour, JBool(isOnDiet)), mealId, 1, false);
    var row := Meal(mealId, mealName, description, hour, date, isOnDiet, 1, uid);
    assert meals.rows == [] + [row];
    var first := meals.ListMeals(user);
    WhereSnoc([], row, (m: Meal) => m.userId == uid);
    listed := first.meals;

    var deleted := meals.DeleteMeal(user, mealId);
    assert Targets(row, mealId, uid);
    WhereSnoc([], row, (m: Meal) => !Targets(m, mealId, uid));
    assert meals.rows == [];
    var second := meals.ListMeals(user);
    relisted := second.meals;
    statuses := [created.Status(), first.Status(), deleted.Status(), second.Status()];
  }

  /** The inputs of the example session pass their validators. */
  lemma ExampleInputs()
    ensures ValidUserName("alice") && Utf16Length("secret1") >= MIN_PASSWORD_LENGTH
    ensures ValidHour("12:30") && ValidDate("01/01/2024")
  {
    DateExamples();
  }
}
