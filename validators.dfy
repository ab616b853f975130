/**
 * The catalog's field validators. Each one either returns normally or raises
 * a Python exception; the model makes the raise an `Outcome` value. Calendar
 * dates are day numbers, and the clock reading `date.today()` is the
 * parameter `today`.
 */
/** Calendar dates. */
module Dates {

  /** A calendar date as a day number: `d + 1` is the next day. */
  type Date = int
}

module Validators {
  import opened Wrappers
  import opened Dates

  /** `timedelta(weeks=4)` in days: the renewal horizon. */
  const FourWeeks: int := 28

  const MinDateDefaultMessage: string := "Invalid date - renewal in past"
  const MaxDateDefaultMessage: string := "Invalid date - renewal more than 4 weeks ahead"
  const CompareDatesDefaultMessage: string := "Death Date is before Birth Date!"
  const CompareNamesDefaultMessage: string := "First name and last name can't be the same."

  /** The message both validator classes use when no message was configured. */
  const InvalidValueMessage: string := "Invalid value provided."
  /** The error code both validator classes attach to their errors. */
  const InvalidValueCode: string := "invalid_value"

  /** The Python exceptions a validator can raise. */
  datatype Exception =
    | ValidationError(message: string, code: Option<string>)
    | NameError(name: string)

  /** A call either returns a value or raises an exception. */
  datatype Outcome<+T> = Returns(value: T) | Raises(exception: Exception)

  /** The date is not before `today`; otherwise `errmsg` is raised. */
  function CheckMinDateValue(date: Date, today: Date, errmsg: string): (r: Outcome<bool>)
    ensures r == Returns(true) <==> today <= date
    ensures r != Returns(true) ==> r == Raises(ValidationError(errmsg, None))
  {
    if date < today then Raises(ValidationError(errmsg, None)) else Returns(true)
  }

  /** The date is at most four weeks after `today`; otherwise `errmsg` is raised. */
  function CheckMaxDateValue(date: Date, today: Date, errmsg: string): (r: Outcome<bool>)
    ensures r == Returns(true) <==> date <= today + FourWeeks
    ensures r != Returns(true) ==> r == Raises(ValidationError(errmsg, None))
  {
    if date > today + FourWeeks then Raises(ValidationError(errmsg, None)) else Returns(true)
  }

  /**
   * The message a validator object raises: `self.errmsg or "Invalid value provided."`.
   * Python's `or` skips both `None` and the empty string.
   */
  function ConfiguredMessage(errmsg: Option<string>): (m: string)
    ensures m != ""
    ensures errmsg.Some? && errmsg.value != "" ==> m == errmsg.value
    ensures errmsg.None? || errmsg.value == "" ==> m == InvalidValueMessage
  {
    if errmsg.Some? && errmsg.value != "" then errmsg.value else InvalidValueMessage
  }

  /** A rejection as the validator objects raise it. */
  function InvalidValue(message: string): Exception {
    ValidationError(message, Some(InvalidValueCode))
  }

  /**
   * `__call__` of both validator objects: it raises its own fallback only when
   * `is_valid` returns something other than `True`, and passes on whatever
   * `is_valid` raises.
   */
  function CallWith(verdict: Outcome<bool>): Outcome<()> {
    match verdict
    case Raises(e) => Raises(e)
    case Returns(ok) => if !ok then Raises(InvalidValue(InvalidValueMessage)) else Returns(())
  }

  /** A "not before today" validator; `errmsg` is fixed when it is built. */
  datatype MinDateValidator = MinDateValidator(errmsg: Option<string>) {

    function IsValid(value: Date, today: Date): (r: Outcome<bool>)
      ensures r == Returns(true) <==> today <= value
      ensures r != Returns(true) ==> r == Raises(InvalidValue(ConfiguredMessage(errmsg)))
    {
      if value < today then Raises(InvalidValue(ConfiguredMessage(errmsg))) else Returns(true)
    }

    /** `is_valid` never returns `False`, so the fallback raise of `__call__` is never reached. */
    function Call(value: Date, today: Date): (r: Outcome<()>)
      ensures r == Returns(()) <==> today <= value
      ensures r != Returns(()) ==> r == Raises(InvalidValue(ConfiguredMessage(errmsg)))
    {
      CallWith(IsValid(value, today))
    }
  }

  /** A "not after today plus four weeks" validator; `errmsg` is fixed when it is built. */
  datatype MaxDateValidator = MaxDateValidator(errmsg: Option<string>) {

    function IsValid(value: Date, today: Date): (r: Outcome<bool>)
      ensures r == Returns(true) <==> value <= today + FourWeeks
      ensures r != Returns(true) ==> r == Raises(InvalidValue(ConfiguredMessage(errmsg)))
    {
      if value > today + FourWeeks then Raises(InvalidValue(ConfiguredMessage(errmsg))) else Returns(true)
    }

    /** As for `MinDateValidator.Call`, the fallback raise is never reached. */
    function Call(value: Date, today: Date): (r: Outcome<()>)
      ensures r == Returns(()) <==> value <= today + FourWeeks
      ensures r != Returns(()) ==> r == Raises(InvalidValue(ConfiguredMessage(errmsg)))
    {
      CallWith(IsValid(value, today))
    }
  }

  /**
   * Together the two date checks accept exactly the renewal window
   * [today, today + 4 weeks], and no date fails both.
   */
  lemma RenewalWindow(date: Date, today: Date, lo: MinDateValidator, hi: MaxDateValidator)
    ensures (lo.Call(date, today).Returns? && hi.Call(date, today).Returns?)
            <==> today <= date <= today + FourWeeks
    ensures lo.Call(date, today).Returns? || hi.Call(date, today).Returns?
    ensures (CheckMinDateValue(date, today, MinDateDefaultMessage).Returns?
             && CheckMaxDateValue(date, today, MaxDateDefaultMessage).Returns?)
            <==> today <= date <= today + FourWeeks
  {
  }

  /** The death date is not before the birth date; equal dates pass. */
  function CompareDates(birthDate: Date, deathDate: Date, errmsg: string): (r: Outcome<bool>)
    ensures r == Returns(true) <==> birthDate <= deathDate
    ensures r != Returns(true) ==> r == Raises(ValidationError(errmsg, None))
  {
    if deathDate < birthDate then Raises(ValidationError(errmsg, None)) else Returns(true)
  }

  /**
   * `Compare_FirstLastName` as written: its rejection branch evaluates
   * `forms.ValidationError`, but the validators module never imports `forms`,
   * so the branch raises a `NameError` instead of a validation error.
   */
  function CompareFirstLastNameAsWritten(firstName: string, lastName: string, errmsg: string): (r: Outcome<bool>)
    ensures r.Raises? ==> r.exception == NameError("forms")
    ensures r.Raises? <==> firstName != "" && firstName == lastName
  {
    if firstName != "" && lastName != "" && firstName == lastName then Raises(NameError("forms"))
    else Returns(true)
  }

  /**
   * `Compare_FirstLastName` as intended: equal, non-empty names (compared
   * exactly, case included) are rejected with `errmsg`; an empty name passes.
   */
  function CompareFirstLastName(firstName: string, lastName: string, errmsg: string): (r: Outcome<bool>)
    ensures r == Returns(true) <==> firstName == "" || firstName != lastName
    ensures r != Returns(true) ==> r == Raises(ValidationError(errmsg, None))
  {
    if firstName != "" && lastName != "" && firstName == lastName then Raises(ValidationError(errmsg, None))
    else Returns(true)
  }

  /**
   * The as-written check never produces a validation error: exactly where the
   * intended check rejects, it crashes with a `NameError`, and elsewhere the two agree.
   */
  lemma CompareFirstLastNameCrashes(firstName: string, lastName: string, errmsg: string)
    ensures CompareFirstLastName(firstName, lastName, errmsg).Raises?
            <==> CompareFirstLastNameAsWritten(firstName, lastName, errmsg) == Raises(NameError("forms"))
    ensures !CompareFirstLastNameAsWritten(firstName, lastName, errmsg).Raises?
            ==> CompareFirstLastNameAsWritten(firstName, lastName, errmsg) == CompareFirstLastName(firstName, lastName, errmsg)
  {
  }

  /** A concrete input that shows the crash: the names "Ann" and "Ann". */
  lemma CompareFirstLastNameCrashExample()
    ensures CompareFirstLastNameAsWritten("Ann", "Ann", CompareNamesDefaultMessage) == Raises(NameError("forms"))
    ensures CompareFirstLastName("Ann", "Ann", CompareNamesDefaultMessage)
            == Raises(ValidationError(CompareNamesDefaultMessage, None))
  {
  }
}
