/** The meal routes `/new-meal`, `/meals`, `/delete/:id` and `/update/:id`,
    as methods of the meals table.  Each takes the identity the session
    middleware attached to the request and touches only rows whose
    `user_id` is that identity's id. */
module Meals {
  import opened Values
  import opened Formats
  import opened Store

  /** A body that passed `createMealBodySchema`. */
  datatype MealInput = MealInput(name: string, description: string, hour: string, date: string, isOnDiet: bool)

  /** `createMealBodySchema.parse`, the same schema for create and update:
      any strings as name and description (empty ones too), the HH:MM and
      DD/MM/YYYY patterns, and a JSON boolean. */
  function ParseMeal(body: Body): (r: Option<MealInput>)
    ensures r.Some? <==>
      && StringField(body, "name").Some? && StringField(body, "description").Some?
      && StringField(body, "meal_hour").Some? && ValidHour(StringField(body, "meal_hour").value)
      && StringField(body, "meal_date").Some? && ValidDate(StringField(body, "meal_date").value)
      && BoolField(body, "is_on_diet").Some?
    ensures r.Some? ==> r.value == MealInput(StringField(body, "name").value, StringField(body, "description").value,
                                          StringField(body, "meal_hour").value, StringField(body, "meal_date").value,
                                          BoolField(body, "is_on_diet").value)
  {
    match (StringField(body, "name"), StringField(body, "description"), StringField(body, "meal_hour"),
           StringField(body, "meal_date"), BoolField(body, "is_on_diet"))
    case (Some(n), Some(d), Some(h), Some(dt), Some(b)) =>
      if ValidHour(h) && ValidDate(dt) then Some(MealInput(n, d, h, dt, b)) else None
    case _ => None
  }

  /** A JSON object carrying the five fields of the meal schema under their
      keys; `isOnDiet` is whatever JSON value the client put there. */
  function MealBody(name: string, description: string, date: string, hour: string, isOnDiet: Json): Body
  {
    Object(map["name" := JString(name), "description" := JString(description),
               "meal_date" := JString(date), "meal_hour" := JString(hour), "is_on_diet" := isOnDiet])
  }

  /** Each field reads back as it was put in. */
  lemma MealBodyFields(name: string, description: string, date: string, hour: string, isOnDiet: Json)
    ensures var b := MealBody(name, description, date, hour, isOnDiet);
      && StringField(b, "name") == Some(name) && StringField(b, "description") == Some(description)
      && StringField(b, "meal_date") == Some(date) && StringField(b, "meal_hour") == Some(hour)
      && (BoolField(b, "is_on_diet").Some? <==> isOnDiet.JBool?)
      && (isOnDiet.JBool? ==> BoolField(b, "is_on_diet") == Some(isOnDiet.b))
  {
  }

  /** Such a body passes the schema exactly when its hour and date fit their
      patterns and its flag is a boolean, and then yields those fields. */
  lemma MealBodyParses(name: string, description: string, date: string, hour: string, isOnDiet: Json)
    ensures ParseMeal(MealBody(name, description, date, hour, isOnDiet)).Some?
      <==> ValidHour(hour) && ValidDate(date) && isOnDiet.JBool?
    ensures ValidHour(hour) && ValidDate(date) && isOnDiet.JBool? ==>
      ParseMeal(MealBody(name, description, date, hour, isOnDiet)) == Some(MealInput(name, description, hour, date, isOnDiet.b))
  {
    MealBodyFields(name, description, date, hour, isOnDiet);
  }

  /** The row `/new-meal` inserts. */
  function NewMealRow(input: MealInput, id: string, userId: string, now: int): Meal
  {
    Meal(id, input.name, input.description, input.hour, input.date, input.isOnDiet, now, userId)
  }

  /** The rows a delete or an update of meal `id` by user `userId` matches. */
  predicate Targets(m: Meal, id: string, userId: string)
  {
    m.id == id && m.userId == userId
  }

  /** `where({ user_id })`. */
  function MealsOf(rows: seq<Meal>, userId: string): seq<Meal>
  {
    Where(rows, (m: Meal) => m.userId == userId)
  }

  /** The rows no operation of `userId` may touch. */
  function OthersOf(rows: seq<Meal>, userId: string): seq<Meal>
  {
    Where(rows, (m: Meal) => m.userId != userId)
  }

  /** `where({ user_id }).andWhere({ id }).del()`. */
  function DeleteOwned(rows: seq<Meal>, id: string, userId: string): seq<Meal>
  {
    Where(rows, (m: Meal) => !Targets(m, id, userId))
  }

  /** One row after the update statement: the five edited columns replaced
      on a matching row; id, owner and creation time kept. */
  function Rewrite(m: Meal, id: string, userId: string, input: MealInput): Meal
  {
    if Targets(m, id, userId) then
      m.(name := input.name, description := input.description, hour := input.hour,
         date := input.date, isOnDiet := input.isOnDiet)
    else m
  }

  /** `where({ user_id }).andWhere({ id }).update({...})`. */
  function UpdateOwned(rows: seq<Meal>, id: string, userId: string, input: MealInput): seq<Meal>
  {
    UpdateWhere(rows, (m: Meal) => Rewrite(m, id, userId, input))
  }

  datatype CreateReply = MealCreated | CreateUnauthorized | CreateFailed
  {
    function Status(): int
    {
      match this
      case MealCreated => 201
      case CreateUnauthorized => 401
      case CreateFailed => 500
    }
  }

  datatype ListReply = Listed(meals: seq<Meal>) | ListUnauthorized
  {
    function Status(): int
    {
      if Listed? then 200 else 401
    }
  }

  datatype DeleteReply = MealDeleted | MealNotFound | DeleteUnauthorized
  {
    function Status(): int
    {
      match this
      case MealDeleted => 200
      case MealNotFound => 404
      case DeleteUnauthorized => 401
    }
  }

  datatype UpdateReply = MealUpdated | UpdateUnauthorized | UpdateFailed
  {
    function Status(): int
    {
      match this
      case MealUpdated => 200
      case UpdateUnauthorized => 401
      case UpdateFailed => 500
    }
  }

  /** The `meals` table.  `user` is the identity the session middleware
      attached to the request; `fault` stands for the write statement
      raising an exception, which the route's catch turns into 500. */
  class MealsTable {
    var rows: seq<Meal>

    constructor ()
      ensures rows == []
    {
      rows := [];
    }

    /** POST /new-meal.  The body is validated before the user is looked
        at; a success inserts one row owned by the user. */
    method NewMeal(user: Option<Identity>, body: Body, freshId: string, now: int, fault: bool)
      returns (reply: CreateReply)
      modifies this
      ensures ParseMeal(body).None? ==> reply == CreateFailed && rows == old(rows)
      ensures ParseMeal(body).Some? && user.None? ==> reply == CreateUnauthorized && rows == old(rows)
      ensures ParseMeal(body).Some? && user.Some? && fault ==> reply == CreateFailed && rows == old(rows)
      ensures ParseMeal(body).Some? && user.Some? && !fault ==>
        reply == MealCreated && rows == old(rows) + [NewMealRow(ParseMeal(body).value, freshId, user.value.id, now)]
    {
      var parsed := ParseMeal(body);
      if parsed.None? {
        return CreateFailed;
      }
      if user.None? {
        return CreateUnauthorized;
      }
      if fault {
        return CreateFailed;
      }
      var input := parsed.value;
      rows := rows + [Meal(freshId, input.name, input.description, input.hour, input.date, input.isOnDiet,
                           now, user.value.id)];
      reply := MealCreated;
    }

    /** GET /meals: exactly the user's rows, in storage order. */
    function ListMeals(user: Option<Identity>): (reply: ListReply)
      reads this
      ensures reply.Listed? <==> user.Some?
      ensures reply.Listed? ==> reply.meals == MealsOf(rows, user.value.id)
      ensures reply.Listed? ==> forall k :: 0 <= k < |reply.meals| ==>
        reply.meals[k] in rows && reply.meals[k].userId == user.value.id
      ensures reply.Listed? ==> forall k :: 0 <= k < |rows| && rows[k].userId == user.value.id ==>
        rows[k] in reply.meals
    {
      match user
      case None => ListUnauthorized
      case Some(u) => Listed(MealsOf(rows, u.id))
    }

    /** DELETE /delete/:id: removes the user's row with that id; 404 when
        the user has none, whether the id is unknown or someone else's. */
    method DeleteMeal(user: Option<Identity>, id: string) returns (reply: DeleteReply)
      modifies this
      ensures user.None? ==> reply == DeleteUnauthorized && rows == old(rows)
      ensures user.Some? ==> reply != DeleteUnauthorized
      ensures user.Some? ==>
        (reply == MealNotFound <==> forall k :: 0 <= k < |old(rows)| ==> !Targets(old(rows)[k], id, user.value.id))
      ensures user.Some? && reply == MealNotFound ==> rows == old(rows)
      ensures user.Some? && reply == MealDeleted ==> rows == DeleteOwned(old(rows), id, user.value.id)
    {
      if user.None? {
        return DeleteUnauthorized;
      }
      var deleted := DeleteWhere(id, user.value.id);
      if deleted == 0 {
        WhereKeepsAll(old(rows), (m: Meal) => !Targets(m, id, user.value.id));
        return MealNotFound;
      }
      reply := MealDeleted;
    }

    /** PUT /update/:id: the user is looked at before the body; the update
        statement's row count is not examined, so a success replies 200
        even when no row matched. */
    method UpdateMeal(user: Option<Identity>, id: string, body: Body, fault: bool) returns (reply: UpdateReply)
      modifies this
      ensures user.None? ==> reply == UpdateUnauthorized && rows == old(rows)
      ensures user.Some? && ParseMeal(body).None? ==> reply == UpdateFailed && rows == old(rows)
      ensures user.Some? && ParseMeal(body).Some? && fault ==> reply == UpdateFailed && rows == old(rows)
      ensures user.Some? && ParseMeal(body).Some? && !fault ==>
        reply == MealUpdated && rows == UpdateOwned(old(rows), id, user.value.id, ParseMeal(body).value)
    {
      if user.None? {
        return UpdateUnauthorized;
      }
      var parsed := ParseMeal(body);
      if parsed.None? || fault {
        return UpdateFailed;
      }
      RewriteWhere(id, user.value.id, parsed.value);
      reply := MealUpdated;
    }

    /** The delete statement, row by row; returns the number of rows removed. */
    method DeleteWhere(id: string, userId: string) returns (deleted: nat)
      modifies this
      ensures rows == DeleteOwned(old(rows), id, userId)
      ensures deleted == |old(rows)| - |rows|
    {
      var source := rows;
      var kept: seq<Meal> := [];
      var i := 0;
      while i < |source|
        invariant 0 <= i <= |source|
        invariant kept == DeleteOwned(source[..i], id, userId)
      {
        assert source[..i + 1] == source[..i] + [source[i]];
        DeleteOwnedSnoc(source[..i], source[i], id, userId);
        if !Targets(source[i], id, userId) {
          kept := kept + [source[i]];
        }
        i := i + 1;
      }
      assert source[..i] == source;
      deleted := |source| - |kept|;
      rows := kept;
    }

    /** The update statement, row by row. */
    method RewriteWhere(id: string, userId: string, input: MealInput)
      modifies this
      ensures rows == UpdateOwned(old(rows), id, userId, input)
    {
      var i := 0;
      while i < |rows|
        invariant 0 <= i <= |rows| == |old(rows)|
        invariant forall k :: 0 <= k < i ==> rows[k] == Rewrite(old(rows)[k], id, userId, input)
        invariant forall k :: i <= k < |rows| ==> rows[k] == old(rows)[k]
      {
        if Targets(rows[i], id, userId) {
          rows := rows[i := rows[i].(name := input.name, description := input.description, hour := input.hour,
                                     date := input.date, isOnDiet := input.isOnDiet)];
        }
        i := i + 1;
      }
    }
  }

  /** Appending a row extends the rows a delete keeps by that row, unless
      the delete targets it. */
  lemma DeleteOwnedSnoc(rows: seq<Meal>, m: Meal, id: string, userId: string)
    ensures DeleteOwned(rows + [m], id, userId) == DeleteOwned(rows, id, userId) + if Targets(m, id, userId) then [] else [m]
  {
    WhereSnoc(rows, m, (m: Meal) => !Targets(m, id, userId));
  }

  /** Creating a meal for `userId` leaves every other user's rows as they were. */
  lemma CreateIsolation(rows: seq<Meal>, input: MealInput, id: string, userId: string, now: int)
    ensures OthersOf(rows + [NewMealRow(input, id, userId, now)], userId) == OthersOf(rows, userId)
  {
    WhereSnoc(rows, NewMealRow(input, id, userId, now), (m: Meal) => m.userId != userId);
  }

  /** Deleting as `userId` leaves every other user's rows as they were. */
  lemma DeleteIsolation(rows: seq<Meal>, id: string, userId: string)
    ensures OthersOf(DeleteOwned(rows, id, userId), userId) == OthersOf(rows, userId)
  {
    WhereWhere(rows, (m: Meal) => !Targets(m, id, userId), (m: Meal) => m.userId != userId);
  }

  /** Updating as `userId` leaves every other user's rows as they were. */
  lemma UpdateIsolation(rows: seq<Meal>, id: string, userId: string, input: MealInput)
    ensures OthersOf(UpdateOwned(rows, id, userId, input), userId) == OthersOf(rows, userId)
  {
    WhereUpdateWhere(rows, (m: Meal) => Rewrite(m, id, userId, input), (m: Meal) => m.userId != userId);
  }

  /** A meal created by one user is listed for that user, after the meals
      already listed, and for no other user. */
  lemma CreateThenList(rows: seq<Meal>, input: MealInput, id: string, userId: string, now: int, other: string)
    requires other != userId
    ensures MealsOf(rows + [NewMealRow(input, id, userId, now)], userId) == MealsOf(rows, userId) + [NewMealRow(input, id, userId, now)]
    ensures MealsOf(rows + [NewMealRow(input, id, userId, now)], other) == MealsOf(rows, other)
  {
    WhereSnoc(rows, NewMealRow(input, id, userId, now), (m: Meal) => m.userId == userId);
    WhereSnoc(rows, NewMealRow(input, id, userId, now), (m: Meal) => m.userId == other);
  }

  /** Deleting a meal just created, under an id the user held no row with,
      gives back the table as it was before the creation. */
  lemma CreateThenDelete(rows: seq<Meal>, input: MealInput, id: string, userId: string, now: int)
    requires forall k :: 0 <= k < |rows| ==> !Targets(rows[k], id, userId)
    ensures DeleteOwned(rows + [NewMealRow(input, id, userId, now)], id, userId) == rows
  {
    WhereSnoc(rows, NewMealRow(input, id, userId, now), (m: Meal) => !Targets(m, id, userId));
    WhereKeepsAll(rows, (m: Meal) => !Targets(m, id, userId));
  }

  /** The update keeps every row's id, owner and creation time, rewrites the
      five edited columns of the matching rows and leaves the others alone. */
  lemma UpdateKeepsKeys(rows: seq<Meal>, id: string, userId: string, input: MealInput, k: nat)
    requires k < |rows|
    ensures var after := UpdateOwned(rows, id, userId, input);
      && |after| == |rows|
      && after[k].id == rows[k].id && after[k].userId == rows[k].userId && after[k].createdAt == rows[k].createdAt
      && (Targets(rows[k], id, userId) ==>
            after[k].name == input.name && after[k].description == input.description
            && after[k].hour == input.hour && after[k].date == input.date && after[k].isOnDiet == input.isOnDiet)
      && (!Targets(rows[k], id, userId) ==> after[k] == rows[k])
  {
    assert UpdateOwned(rows, id, userId, input)[k] == Rewrite(rows[k], id, userId, input);
  }

  /** The date of the examples below. */
  lemma ExampleDate()
    ensures ValidDate("01/01/2024")
  {
    assert "01/01/2024"[6..] == "2024";
  }

  /** The schema accepts empty names and descriptions. */
  lemma EmptyTextsAccepted()
    ensures ParseMeal(MealBody("", "", "01/01/2024", "12:30", JBool(true))).Some?
  {
    ExampleDate();
    MealBodyParses("", "", "01/01/2024", "12:30", JBool(true));
  }

  /** The schema refuses an hour past 23 and a one-digit hour. */
  lemma BadHoursRefused()
    ensures ParseMeal(MealBody("Lunch", "Salad", "01/01/2024", "25:00", JBool(true))).None?
    ensures ParseMeal(MealBody("Lunch", "Salad", "01/01/2024", "9:30", JBool(true))).None?
  {
    MealBodyParses("Lunch", "Salad", "01/01/2024", "25:00", JBool(true));
    MealBodyParses("Lunch", "Salad", "01/01/2024", "9:30", JBool(true));
  }

  /** The schema refuses a string where the boolean belongs, and a body
      without a description. */
  lemma BadShapesRefused()
    ensures ParseMeal(MealBody("Lunch", "Salad", "01/01/2024", "12:30", JString("true"))).None?
    ensures ParseMeal(Object(map["name" := JString("Lunch"), "meal_hour" := JString("12:30"),
                                 "meal_date" := JString("01/01/2024"), "is_on_diet" := JBool(false)])).None?
  {
    MealBodyParses("Lunch", "Salad", "01/01/2024", "12:30", JString("true"));
  }
}
