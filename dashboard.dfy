/** The new-meal form of the dashboard page: its state, the request body
    its submit builds, and the reset after a successful submit. */
module Dashboard {
  import opened Values
  import opened JsText
  import opened Formats
  import opened MealForm
  import Meals

  /** The JSON body of the POST to `/api/dashboard/new-meal`: the date
      reformatted, everything else as entered. */
  function NewMealBody(name: string, description: string, mealDate: string, mealHour: string, isOnDiet: bool): Body
  {
    Meals.MealBody(name, description, FormattedDate(mealDate), mealHour, JBool(isOnDiet))
  }

  /** The body carries the date reformatted and the other fields as entered,
      the hour exactly as typed. */
  lemma NewMealBodyFields(name: string, description: string, mealDate: string, mealHour: string, isOnDiet: bool)
    ensures var b := NewMealBody(name, description, mealDate, mealHour, isOnDiet);
      && StringField(b, "name") == Some(name) && StringField(b, "description") == Some(description)
      && StringField(b, "meal_date") == Some(FormattedDate(mealDate))
      && StringField(b, "meal_hour") == Some(mealHour)
      && BoolField(b, "is_on_diet") == Some(isOnDiet)
  {
    Meals.MealBodyFields(name, description, FormattedDate(mealDate), mealHour, JBool(isOnDiet));
  }

  /** A date picked with a four-digit year and a valid hour make a body the
      backend's meal schema accepts, with the date reordered and the hour
      as typed. */
  lemma NewMealBodyAccepted(name: string, description: string, mealDate: string, mealHour: string, isOnDiet: bool)
    requires DateInput(mealDate) && mealDate[0] != '0'
    requires 1 <= ValueOf(mealDate[8..]) <= 31 && 1 <= ValueOf(mealDate[5..7]) <= 12
    requires ValidHour(mealHour)
    ensures Meals.ParseMeal(NewMealBody(name, description, mealDate, mealHour, isOnDiet))
      == Some(Meals.MealInput(name, description, mealHour,
                              mealDate[8..] + "/" + mealDate[5..7] + "/" + mealDate[..4], isOnDiet))
  {
    PickedDateIsValid(mealDate);
    Meals.MealBodyParses(name, description, FormattedDate(mealDate), mealHour, JBool(isOnDiet));
  }

  /** The form's editable fields. */
  datatype Draft = Draft(name: string, description: string, date: string, hour: string, isOnDiet: bool)

  const EMPTY_DRAFT := Draft("", "", "", "", true)

  /** The component state of the new-meal form. */
  class NewMealForm {
    var name: string
    var description: string
    var date: string
    var hour: string
    var isOnDiet: bool
    var errorMessage: Option<string>
    var isOpen: bool

    function Fields(): Draft
      reads this
    {
      Draft(name, description, date, hour, isOnDiet)
    }

    constructor ()
      ensures Fields() == EMPTY_DRAFT && errorMessage.None? && !isOpen
    {
      name, description, date, hour, isOnDiet := "", "", "", "", true;
      errorMessage := None;
      isOpen := false;
    }

    /** `cleanMealFields`: empty texts and the on-diet option selected. */
    method CleanMealFields()
      modifies this
      ensures Fields() == EMPTY_DRAFT
      ensures errorMessage == old(errorMessage) && isOpen == old(isOpen)
    {
      name := "";
      description := "";
      date := "";
      hour := "";
      isOnDiet := true;
    }

    /** `handleSubmit`, given the current moment and how the request ends.
        It returns the body it sends, or None when the guard stops it. */
    method HandleSubmit(now: Instant, outcome: Outcome) returns (sent: Option<Body>)
      modifies this
      ensures sent.None? <==> IsFuture(old(date), old(hour), now)
      ensures sent.None? ==>
        errorMessage == Some(FUTURE_MESSAGE) && Fields() == old(Fields()) && isOpen == old(isOpen)
      ensures sent.Some? ==>
        sent.value == NewMealBody(old(name), old(description), old(date), old(hour), old(isOnDiet))
      ensures sent.Some? && outcome.Succeeded? ==>
        !isOpen && Fields() == EMPTY_DRAFT && errorMessage.None?
      ensures sent.Some? && !outcome.Succeeded? ==>
        errorMessage == Some(FailureMessage(outcome)) && Fields() == old(Fields()) && isOpen == old(isOpen)
    {
      var future := IsFuture(date, hour, now);
      var body := NewMealBody(name, description, date, hour, isOnDiet);
      errorMessage := None;
      if future {
        errorMessage := Some(FUTURE_MESSAGE);
        return None;
      }
      sent := Some(body);
      if outcome.Succeeded? {
        isOpen := false;
        CleanMealFields();
      } else {
        errorMessage := Some(FailureMessage(outcome));
      }
    }
  }
}
