/** The meal-details page: the stored meal it was opened with, the
    displayed on-diet flag, and the edit form whose submit merges the
    edited fields with the stored meal before the PUT to
    `/api/dashboard/update/:id`. */
module MealDetails {
  import opened Values
  import opened JsText
  import opened Formats
  import opened MealForm
  import Meals

  /** The meal handed over by the list page, as it came from `/meals`:
      `is_on_diet` arrives as the database stored it, a number or a boolean. */
  datatype StoredMeal = StoredMeal(id: string, name: string, description: string, hour: string, date: string,
                                   isOnDiet: Json)

  /** `meal.is_on_diet === 1 || meal.is_on_diet === true`. */
  predicate OnDietShown(flag: Json)
  {
    flag == JNumber(1.0) || flag == JBool(true)
  }

  /** `edited ? edited : stored` on strings: the empty string is falsy. */
  function Fallback(edited: string, stored: string): string
  {
    if edited != "" then edited else stored
  }

  /** `is_on_diet: mealIsOnDiet` in the JSON body: null when no option is chosen. */
  function DietJson(v: Option<bool>): (j: Json)
    ensures v.None? <==> j == JNull
    ensures v.Some? ==> j == JBool(v.value)
  {
    match v
    case None => JNull
    case Some(b) => JBool(b)
  }

  /** The flag the body carries reads back, under the schema's boolean
      field, as the option chosen: nothing when none is chosen. */
  lemma DietJsonReadBack(m: map<string, Json>, v: Option<bool>)
    ensures BoolField(Object(m["is_on_diet" := DietJson(v)]), "is_on_diet") == v
  {
    FieldPut(m, "is_on_diet", DietJson(v));
  }

  /** The edit body as the page builds it: `formattedDate ? formattedDate : meal.date`,
      whose test is on a template string. */
  function EditBodyAsWritten(meal: StoredMeal, name: string, description: string, mealDate: string,
                             mealHour: string, isOnDiet: Option<bool>): Body
  {
    Meals.MealBody(Fallback(name, meal.name), Fallback(description, meal.description),
                   Fallback(FormattedDate(mealDate), meal.date), Fallback(mealHour, meal.hour), DietJson(isOnDiet))
  }

  /** The edit body with the date falling back to the stored one when the
      date input is untouched, as the other three fields do. */
  function EditBody(meal: StoredMeal, name: string, description: string, mealDate: string,
                    mealHour: string, isOnDiet: Option<bool>): Body
  {
    Meals.MealBody(Fallback(name, meal.name), Fallback(description, meal.description),
                   if mealDate != "" then FormattedDate(mealDate) else meal.date, Fallback(mealHour, meal.hour),
                   DietJson(isOnDiet))
  }

  /** The displayed flag reads both encodings of a stored boolean back as
      that boolean, and nothing else counts as on diet. */
  lemma OnDietRoundTrip(b: bool, flag: Json)
    ensures OnDietShown(JBool(b)) == b
    ensures OnDietShown(JNumber(if b then 1.0 else 0.0)) == b
    ensures flag.JString? || flag.JNull? || flag.JNested? ==> !OnDietShown(flag)
  {
  }

  /** In the page as written the stored date is never used: the formatted
      date is a template string, never empty, so the fallback never fires,
      and an untouched date input sends `undefined/undefined/0`, which the
      backend's schema refuses. */
  lemma DateFallbackNeverFires(meal: StoredMeal, name: string, description: string, mealDate: string,
                               mealHour: string, isOnDiet: Option<bool>)
    ensures StringField(EditBodyAsWritten(meal, name, description, mealDate, mealHour, isOnDiet), "meal_date")
      == Some(FormattedDate(mealDate))
    ensures mealDate == "" ==>
      StringField(EditBodyAsWritten(meal, name, description, mealDate, mealHour, isOnDiet), "meal_date")
        == Some("undefined/undefined/0")
    ensures mealDate == "" ==>
      Meals.ParseMeal(EditBodyAsWritten(meal, name, description, mealDate, mealHour, isOnDiet)).None?
  {
    Meals.MealBodyFields(Fallback(name, meal.name), Fallback(description, meal.description),
                         Fallback(FormattedDate(mealDate), meal.date), Fallback(mealHour, meal.hour), DietJson(isOnDiet));
    if mealDate == "" {
      UntouchedDate();
      assert !ValidDate("undefined/undefined/0");
    }
  }

  /** The fields of the body as the page builds it: name, description and
      hour fall back to the stored meal when their input is empty, the date
      is always the formatted one, and the flag is sent as chosen. */
  lemma EditBodyAsWrittenFallbacks(meal: StoredMeal, name: string, description: string, mealDate: string,
                                   mealHour: string, isOnDiet: Option<bool>)
    ensures var b := EditBodyAsWritten(meal, name, description, mealDate, mealHour, isOnDiet);
      && StringField(b, "name") == Some(if name == "" then meal.name else name)
      && StringField(b, "description") == Some(if description == "" then meal.description else description)
      && StringField(b, "meal_date") == Some(FormattedDate(mealDate))
      && StringField(b, "meal_hour") == Some(if mealHour == "" then meal.hour else mealHour)
      && (BoolField(b, "is_on_diet").Some? <==> isOnDiet.Some?)
      && (isOnDiet.Some? ==> BoolField(b, "is_on_diet") == isOnDiet)
  {
    Meals.MealBodyFields(Fallback(name, meal.name), Fallback(description, meal.description),
                         Fallback(FormattedDate(mealDate), meal.date), Fallback(mealHour, meal.hour), DietJson(isOnDiet));
    assert FormattedDate(mealDate) != "";
  }

  /** Every field of the corrected body is the edited value when it is
      non-empty and the stored one otherwise; the flag is sent as chosen. */
  lemma EditBodyFallbacks(meal: StoredMeal, name: string, description: string, mealDate: string,
                          mealHour: string, isOnDiet: Option<bool>)
    ensures var b := EditBody(meal, name, description, mealDate, mealHour, isOnDiet);
      && StringField(b, "name") == Some(if name == "" then meal.name else name)
      && StringField(b, "description") == Some(if description == "" then meal.description else description)
      && StringField(b, "meal_date") == Some(if mealDate == "" then meal.date else FormattedDate(mealDate))
      && StringField(b, "meal_hour") == Some(if mealHour == "" then meal.hour else mealHour)
      && (BoolField(b, "is_on_diet").Some? <==> isOnDiet.Some?)
      && (isOnDiet.Some? ==> BoolField(b, "is_on_diet") == isOnDiet)
  {
    Meals.MealBodyFields(Fallback(name, meal.name), Fallback(description, meal.description),
                         if mealDate != "" then FormattedDate(mealDate) else meal.date, Fallback(mealHour, meal.hour),
                         DietJson(isOnDiet));
  }

  /** With no on-diet option chosen the body carries null, which the
      backend's schema refuses whatever the other fields are, in the body
      as the page builds it and in the corrected one alike. */
  lemma NullDietRejected(meal: StoredMeal, name: string, description: string, mealDate: string, mealHour: string)
    ensures Meals.ParseMeal(EditBodyAsWritten(meal, name, description, mealDate, mealHour, None)).None?
    ensures Meals.ParseMeal(EditBody(meal, name, description, mealDate, mealHour, None)).None?
  {
    assert BoolField(EditBodyAsWritten(meal, name, description, mealDate, mealHour, None), "is_on_diet").None?;
    assert BoolField(EditBody(meal, name, description, mealDate, mealHour, None), "is_on_diet").None?;
  }

  /** Submitting the editor with the date and hour inputs untouched sends
      the stored date and hour back, and the backend accepts them together
      with the texts and the flag (the name and description inputs are
      required, so the browser always has texts to send). */
  lemma UntouchedEditKeepsMeal(meal: StoredMeal, name: string, description: string, b: bool)
    requires ValidHour(meal.hour) && ValidDate(meal.date)
    ensures Meals.ParseMeal(EditBody(meal, name, description, "", "", Some(b)))
      == Some(Meals.MealInput(Fallback(name, meal.name), Fallback(description, meal.description),
                              meal.hour, meal.date, b))
  {
    EditBodyFallbacks(meal, name, description, "", "", Some(b));
  }

  /** Once a date is picked, the body as the page builds it and the
      corrected one are the same body. */
  lemma BodiesAgreeOnPickedDate(meal: StoredMeal, name: string, description: string, mealDate: string,
                                mealHour: string, isOnDiet: Option<bool>)
    requires mealDate != ""
    ensures EditBodyAsWritten(meal, name, description, mealDate, mealHour, isOnDiet)
      == EditBody(meal, name, description, mealDate, mealHour, isOnDiet)
  {
    assert FormattedDate(mealDate) != "";
  }

  /** A newly picked date and hour reach the backend reordered and as typed,
      and are accepted there; the page's body is that body. */
  lemma EditedDateAccepted(meal: StoredMeal, name: string, description: string, mealDate: string,
                           mealHour: string, b: bool)
    requires DateInput(mealDate) && mealDate[0] != '0'
    requires 1 <= ValueOf(mealDate[8..]) <= 31 && 1 <= ValueOf(mealDate[5..7]) <= 12
    requires ValidHour(mealHour)
    ensures Meals.ParseMeal(EditBodyAsWritten(meal, name, description, mealDate, mealHour, Some(b)))
      == Some(Meals.MealInput(Fallback(name, meal.name), Fallback(description, meal.description), mealHour,
                              mealDate[8..] + "/" + mealDate[5..7] + "/" + mealDate[..4], b))
  {
    PickedDateIsValid(mealDate);
    BodiesAgreeOnPickedDate(meal, name, description, mealDate, mealHour, Some(b));
    EditBodyFallbacks(meal, name, description, mealDate, mealHour, Some(b));
  }

  /** The edit form's fields; `isOnDiet` is null when no option is chosen. */
  datatype EditDraft = EditDraft(name: string, description: string, date: string, hour: string, isOnDiet: Option<bool>)

  const CLEARED := EditDraft("", "", "", "", None)

  /** The component state of the meal-details page. */
  class EditMealForm {
    const meal: StoredMeal
    var name: string
    var description: string
    var date: string
    var hour: string
    var isOnDiet: Option<bool>
    var errorMessage: Option<string>
    var editorOpen: bool
    var savedNotice: bool

    function Fields(): EditDraft
      reads this
    {
      EditDraft(name, description, date, hour, isOnDiet)
    }

    constructor (meal: StoredMeal)
      ensures this.meal == meal
      ensures Fields() == CLEARED && errorMessage.None? && !editorOpen && !savedNotice
    {
      this.meal := meal;
      name, description, date, hour, isOnDiet := "", "", "", "", None;
      errorMessage := None;
      editorOpen := false;
      savedNotice := false;
    }

    /** The effect run when the page receives the meal: the flag shown is
      the stored flag read as a boolean. */
    method LoadMeal()
      modifies this
      ensures isOnDiet == Some(OnDietShown(meal.isOnDiet))
      ensures name == old(name) && description == old(description) && date == old(date) && hour == old(hour)
      ensures errorMessage == old(errorMessage) && editorOpen == old(editorOpen) && savedNotice == old(savedNotice)
    {
      isOnDiet := Some(OnDietShown(meal.isOnDiet));
    }

    /** `cleanMealFields`: empty texts and no on-diet option chosen. */
    method CleanMealFields()
      modifies this
      ensures Fields() == CLEARED
      ensures errorMessage == old(errorMessage) && editorOpen == old(editorOpen) && savedNotice == old(savedNotice)
    {
      name := "";
      description := "";
      date := "";
      hour := "";
      isOnDiet := None;
    }

    /** The edit button: the fields are cleared before the editor opens, so
      the flag loaded from the meal is discarded. */
    method OpenEditor()
      modifies this
      ensures Fields() == CLEARED && editorOpen
      ensures errorMessage == old(errorMessage) && savedNotice == old(savedNotice)
    {
      CleanMealFields();
      editorOpen := true;
    }

    /** `handleSubmit`, given the current moment and how the request ends.
        It returns the body it sends, or None when the guard stops it. */
    method HandleSubmit(now: Instant, outcome: Outcome) returns (sent: Option<Body>)
      modifies this
      ensures Fields() == old(Fields())
      ensures sent.None? <==> IsFuture(old(date), old(hour), now)
      ensures sent.None? ==>
        errorMessage == Some(FUTURE_MESSAGE)
        && editorOpen == old(editorOpen) && savedNotice == old(savedNotice)
      ensures sent.Some? ==>
        sent.value == EditBodyAsWritten(meal, old(name), old(description), old(date), old(hour), old(isOnDiet))
      ensures sent.Some? && outcome.Succeeded? ==>
        !editorOpen && savedNotice && errorMessage.None?
      ensures sent.Some? && !outcome.Succeeded? ==>
        errorMessage == Some(FailureMessage(outcome)) && editorOpen == old(editorOpen) && savedNotice == old(savedNotice)
    {
      var future := IsFuture(date, hour, now);
      var body := EditBodyAsWritten(meal, name, description, date, hour, isOnDiet);
      errorMessage := None;
      if future {
        errorMessage := Some(FUTURE_MESSAGE);
        return None;
      }
      sent := Some(body);
      if outcome.Succeeded? {
        editorOpen := false;
        savedNotice := true;
      } else {
        errorMessage := Some(FailureMessage(outcome));
      }
    }
  }

  /** Opening the editor, typing the required name and description and
      submitting without choosing an on-diet option sends a body the
      backend refuses: the flag loaded from the meal was cleared. */
  method OpenedEditorNeedsFlag(meal: StoredMeal, name: string, description: string, now: Instant, outcome: Outcome)
    returns (sent: Option<Body>)
    ensures sent.Some?
    ensures Meals.ParseMeal(sent.value).None?
  {
    var form := new EditMealForm(meal);
    form.LoadMeal();
    form.OpenEditor();
    form.name, form.description := name, description;
    UntouchedDateNotFuture("", now);
    sent := form.HandleSubmit(now, outcome);
    NullDietRejected(meal, name, description, "", "");
  }

  /** Opening the editor, typing the required name and description,
      choosing an on-diet option and submitting with the date left as it
      is sends `undefined/undefined/0` as the date, which the backend
      refuses, whatever the stored meal holds. */
  method UntouchedDateEditRefused(meal: StoredMeal, name: string, description: string, hour: string, b: bool,
                                  now: Instant, outcome: Outcome)
    returns (sent: Option<Body>)
    ensures sent.Some?
    ensures StringField(sent.value, "meal_date") == Some("undefined/undefined/0")
    ensures Meals.ParseMeal(sent.value).None?
  {
    var form := new EditMealForm(meal);
    form.LoadMeal();
    form.OpenEditor();
    form.name, form.description, form.hour, form.isOnDiet := name, description, hour, Some(b);
    UntouchedDateNotFuture(hour, now);
    sent := form.HandleSubmit(now, outcome);
    DateFallbackNeverFires(meal, name, description, "", hour, Some(b));
  }
}
