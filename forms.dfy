/**
 * The catalog's forms. Binding follows Django's field cleaning: convert the
 * raw input, reject a missing required value, then run every validator of the
 * field and collect all of their messages. A form is valid when no field has
 * an error; its errors are keyed by field name.
 */
module Forms {
  import opened Wrappers
  import opened Dates
  import opened Validators
  import opened Models
  import Text
  import Sorting

  // Django's own messages for the conversion and required checks.
  const RequiredMessage: string := "This field is required."
  const InvalidDateMessage: string := "Enter a valid date."
  const InvalidChoiceMessage: string := "Select a valid choice. That choice is not one of the available choices."

  const NewDueDateField: string := "new_due_date"
  const NewBorrowerField: string := "new_borrower"

  /** The first entry of the borrower selector, standing for "no choice". */
  const EmptyLabel: string := "Select a user"

  /** What a date input can hold: nothing, text that is not a date, or a date. */
  datatype RawDate = Blank | Malformed | Entered(day: Date)

  /** One field's cleaned value, or its error messages. */
  datatype FieldResult<+T> = Cleaned(value: T) | FieldErrors(messages: seq<string>)

  // ---------------------------------------------------------------------------
  // The borrower selector

  /** `label_from_instance`: how a user is shown in the selector. */
  function LabelFromInstance(u: User): (caption: string)
    ensures |caption| == |u.lastName| + 2 + |u.firstName|
    ensures caption[..|u.lastName|] == u.lastName
    ensures caption[|u.lastName|..|u.lastName| + 2] == ", "
    ensures caption[|u.lastName| + 2..] == u.firstName
  {
    u.lastName + ", " + u.firstName
  }

  /**
   * When last names hold no comma, a label determines the names it shows:
   * the first comma of a label ends the last name.
   */
  lemma {:induction false} LabelIdentifiesNames(u: User, v: User)
    requires ',' !in u.lastName && ',' !in v.lastName
    ensures LabelFromInstance(u) == LabelFromInstance(v)
            <==> u.lastName == v.lastName && u.firstName == v.firstName
  {
    var lu, lv := u.lastName, v.lastName;
    var a, b := LabelFromInstance(u), LabelFromInstance(v);
    if a == b {
      assert a[|lu|] == ',';
      assert b[|lv|] == ',';
      if |lu| != |lv| {
        assert false;
      }
      assert lu == a[..|lu|] && lv == b[..|lv|];
      assert u.firstName == a[|lu| + 2..] && v.firstName == b[|lv| + 2..];
    }
  }

  /** The order of `order_by('last_name')` under a binary (code-point) collation. */
  predicate ByLastName(a: User, b: User) {
    Text.LexLe(a.lastName, b.lastName)
  }

  lemma ByLastNameIsTotalPreorder()
    ensures Sorting.IsTotalPreorder(ByLastName)
  {
    forall a: User, b: User ensures ByLastName(a, b) || ByLastName(b, a) {
      Text.LexLeTotal(a.lastName, b.lastName);
    }
    forall a: User, b: User, c: User | ByLastName(a, b) && ByLastName(b, c) ensures ByLastName(a, c) {
      Text.LexLeTransitive(a.lastName, b.lastName, c.lastName);
    }
  }

  /** `User.objects.all().order_by('last_name')`: every user, ascending by last name. */
  function UsersByLastName(users: seq<User>): (r: seq<User>)
    ensures Sorting.SortedBy(r, ByLastName)
    ensures multiset(r) == multiset(users)
    ensures |r| == |users|
  {
    ByLastNameIsTotalPreorder();
    Sorting.SortBy(users, ByLastName)
  }

  /** One entry of the selector: the key it submits and the caption it shows. */
  datatype Choice = Choice(key: Option<UserId>, caption: string)

  /** The entry of one user. */
  function UserChoice(u: User): Choice {
    Choice(Some(u.id), LabelFromInstance(u))
  }

  /** The entries of `users`, in their order. */
  function UserChoices(users: seq<User>): (r: seq<Choice>)
    ensures |r| == |users|
    ensures forall i :: 0 <= i < |users| ==> r[i] == UserChoice(users[i])
  {
    if users == [] then [] else [UserChoice(users[0])] + UserChoices(users[1..])
  }

  /**
   * The choices of `new_borrower`: the empty entry first, then one entry per
   * user, ascending by last name, each labelled "last, first".
   */
  function BorrowerChoices(users: seq<User>): (r: seq<Choice>)
    ensures |r| == |users| + 1
    ensures r[0] == Choice(None, EmptyLabel)
    ensures r[1..] == UserChoices(UsersByLastName(users))
    ensures forall u :: u in users ==> UserChoice(u) in r
  {
    var ordered := UsersByLastName(users);
    var rest := UserChoices(ordered);
    forall u | u in users ensures UserChoice(u) in rest {
      assert u in multiset(ordered);
      var k :| 0 <= k < |ordered| && ordered[k] == u;
      assert rest[k] == UserChoice(u);
    }
    [Choice(None, EmptyLabel)] + rest
  }

  // ---------------------------------------------------------------------------
  // Field cleaning

  /** A required `DateField` without validators: convert, then demand a value. */
  function CleanRequiredDate(raw: RawDate): (r: FieldResult<Date>)
    ensures r.Cleaned? <==> raw.Entered?
    ensures r.Cleaned? ==> r.value == raw.day
    ensures raw.Blank? ==> r == FieldErrors([RequiredMessage])
    ensures raw.Malformed? ==> r == FieldErrors([InvalidDateMessage])
  {
    match raw
    case Blank => FieldErrors([RequiredMessage])
    case Malformed => FieldErrors([InvalidDateMessage])
    case Entered(d) => Cleaned(d)
  }

  /** The two validators attached to `new_due_date`, with their messages. */
  const DueDateMin: MinDateValidator := MinDateValidator(Some(MinDateDefaultMessage))
  const DueDateMax: MaxDateValidator := MaxDateValidator(Some(MaxDateDefaultMessage))

  /** The message of a validation error, as a list of zero or one messages. */
  function MessagesOf(o: Outcome<()>): seq<string> {
    if o.Raises? && o.exception.ValidationError? then [o.exception.message] else []
  }

  /** `run_validators`: every validator runs and all messages are kept. */
  function RunDueDateValidators(d: Date, today: Date): (messages: seq<string>)
    ensures messages == [] <==> today <= d <= today + FourWeeks
    ensures d < today ==> messages == [MinDateDefaultMessage]
    ensures d > today + FourWeeks ==> messages == [MaxDateDefaultMessage]
  {
    MessagesOf(DueDateMin.Call(d, today)) + MessagesOf(DueDateMax.Call(d, today))
  }

  /** `new_due_date`: required, then not in the past and at most four weeks ahead. */
  function CleanNewDueDate(raw: RawDate, today: Date): (r: FieldResult<Date>)
    ensures r.Cleaned? <==> raw.Entered? && today <= raw.day <= today + FourWeeks
    ensures r.Cleaned? ==> r.value == raw.day
    ensures raw.Blank? ==> r == FieldErrors([RequiredMessage])
    ensures raw.Malformed? ==> r == FieldErrors([InvalidDateMessage])
    ensures raw.Entered? && raw.day < today ==> r == FieldErrors([MinDateDefaultMessage])
    ensures raw.Entered? && raw.day > today + FourWeeks ==> r == FieldErrors([MaxDateDefaultMessage])
  {
    match CleanRequiredDate(raw)
    case FieldErrors(m) => FieldErrors(m)
    case Cleaned(d) =>
      var messages := RunDueDateValidators(d, today);
      if messages == [] then Cleaned(d) else FieldErrors(messages)
  }

  /** `new_borrower`: required, and the key must belong to an existing user. */
  function CleanNewBorrower(raw: Option<UserId>, users: seq<User>): (r: FieldResult<User>)
    ensures r.Cleaned? <==> raw.Some? && exists u :: u in users && u.id == raw.value
    ensures r.Cleaned? ==> r.value in users && r.value.id == raw.value
    ensures raw.None? ==> r == FieldErrors([RequiredMessage])
    ensures raw.Some? && !r.Cleaned? ==> r == FieldErrors([InvalidChoiceMessage])
  {
    match raw
    case None => FieldErrors([RequiredMessage])
    case Some(key) =>
      match FindUser(users, key)
      case None => FieldErrors([InvalidChoiceMessage])
      case Some(u) => Cleaned(u)
  }

  // ---------------------------------------------------------------------------
  // The renewal form

  /** The cleaned data of a valid renewal form. */
  datatype RenewalData = RenewalData(newDueDate: Date, newBorrower: User)

  datatype FormResult = Valid(data: RenewalData) | Invalid(errors: map<string, seq<string>>)

  /** The errors of one field, as entries of the form's error map. */
  function FieldErrorEntry<T>(name: string, r: FieldResult<T>): map<string, seq<string>> {
    if r.FieldErrors? then map[name := r.messages] else map[]
  }

  /** A renewal date inside the window [today, today + 4 weeks]. */
  predicate InRenewalWindow(raw: RawDate, today: Date) {
    raw.Entered? && today <= raw.day <= today + FourWeeks
  }

  /** The submitted key names an existing user. */
  predicate NamesUser(raw: Option<UserId>, users: seq<User>) {
    raw.Some? && exists u :: u in users && u.id == raw.value
  }

  /**
   * Binding and `is_valid()` of `RenewBookForm`: valid exactly when the date
   * lies in the renewal window and the key names an existing user; otherwise
   * each failing field, and only those, has its messages under its name.
   */
  function RenewBookFormClean(rawDate: RawDate, rawBorrower: Option<UserId>,
                              users: seq<User>, today: Date): (r: FormResult)
    ensures r.Valid? <==> InRenewalWindow(rawDate, today) && NamesUser(rawBorrower, users)
    ensures r.Valid? ==> r.data.newDueDate == rawDate.day
                         && r.data.newBorrower in users && r.data.newBorrower.id == rawBorrower.value
    ensures r.Invalid? ==> r.errors != map[] && r.errors.Keys <= {NewDueDateField, NewBorrowerField}
    ensures r.Invalid? ==> (NewDueDateField in r.errors <==> !InRenewalWindow(rawDate, today))
    ensures r.Invalid? ==> (NewBorrowerField in r.errors <==> !NamesUser(rawBorrower, users))
    ensures r.Invalid? && NewDueDateField in r.errors ==>
              r.errors[NewDueDateField] == CleanNewDueDate(rawDate, today).messages
    ensures r.Invalid? && NewBorrowerField in r.errors ==>
              r.errors[NewBorrowerField] == CleanNewBorrower(rawBorrower, users).messages
  {
    var date := CleanNewDueDate(rawDate, today);
    var borrower := CleanNewBorrower(rawBorrower, users);
    if date.Cleaned? && borrower.Cleaned? then
      Valid(RenewalData(date.value, borrower.value))
    else
      var errors := FieldErrorEntry(NewDueDateField, date) + FieldErrorEntry(NewBorrowerField, borrower);
      assert date.FieldErrors? ==> NewDueDateField in errors;
      assert borrower.FieldErrors? ==> NewBorrowerField in errors;
      assert errors.Keys <= {NewDueDateField, NewBorrowerField};
      Invalid(errors)
  }

  // ---------------------------------------------------------------------------
  // The BookInstance create and update forms

  const CreateFormFields: seq<string> := ["id", "book", "imprint", "due_back", "borrower"]
  const UpdateFormFields: seq<string> := ["imprint", "due_back", "borrower"]

  /** The editable fields of a BookInstance, by their names in the model. */
  const ModelFieldNames: set<string> := {"id", "book", "imprint", "due_back", "borrower"}

  /** Cleaned values of a BookInstance form; `due_back` is a required date in both forms. */
  datatype InstanceFormData = InstanceFormData(
    id: Uuid, book: BookId, imprint: string, dueBack: Date, borrower: Option<UserId>)

  /** Saving a model form: each field the form lists is copied from the cleaned data. */
  function ConstructInstance(fields: seq<string>, base: BookInstance, data: InstanceFormData): (r: BookInstance)
    ensures r.status == base.status
    ensures "id" in fields ==> r.id == data.id
    ensures "book" in fields ==> r.book == data.book
    ensures "imprint" in fields ==> r.imprint == data.imprint
    ensures "due_back" in fields ==> r.dueBack == Some(data.dueBack)
    ensures "borrower" in fields ==> r.borrower == data.borrower
    ensures (forall f :: f in fields ==> f !in ModelFieldNames) ==> r == base
  {
    base.(
      id := if "id" in fields then data.id else base.id,
      book := if "book" in fields then data.book else base.book,
      imprint := if "imprint" in fields then data.imprint else base.imprint,
      dueBack := if "due_back" in fields then Some(data.dueBack) else base.dueBack,
      borrower := if "borrower" in fields then data.borrower else base.borrower)
  }

  /** The update form writes imprint, due date and borrower, and never the key, the book or the status. */
  lemma UpdateFormKeepsIdentity(inst: BookInstance, data: InstanceFormData)
    ensures var r := ConstructInstance(UpdateFormFields, inst, data);
            && r.id == inst.id && r.book == inst.book && r.status == inst.status
            && r.imprint == data.imprint && r.dueBack == Some(data.dueBack) && r.borrower == data.borrower
  {
  }

  /** Saving the same cleaned data a second time changes nothing. */
  lemma ConstructInstanceIdempotent(fields: seq<string>, base: BookInstance, data: InstanceFormData)
    ensures var once := ConstructInstance(fields, base, data);
            ConstructInstance(fields, once, data) == once
  {
  }

  /** The create form writes every listed field; the status keeps the value of the new record. */
  lemma CreateFormSetsListedFields(initial: BookInstance, data: InstanceFormData)
    ensures var r := ConstructInstance(CreateFormFields, initial, data);
            && r.id == data.id && r.book == data.book && r.imprint == data.imprint
            && r.dueBack == Some(data.dueBack) && r.borrower == data.borrower && r.status == initial.status
  {
  }
}
