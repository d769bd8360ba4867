/** `IsAfterValidator`: the constraint behind `@IsAfter`, which accepts a
    date that is present and not before a configured floor. The annotation's
    `value` string and its `format` pattern are represented by the date they
    parse to. */
module IsAfterValidation {
  import opened Dates

  datatype Option<T> = None | Some(value: T)

  /** An `@IsAfter` annotation, with its `value` already parsed. */
  datatype IsAfter = IsAfter(floor: LocalDate)

  /** The first film screening, the floor the film tests pin. */
  const CINEMA_BIRTHDAY: LocalDate := Date(1895, 12, 28)

  /** What `isValid` answers for `date` under an annotation whose floor is
      `floor`; `None` stands for a null `LocalDate`. */
  predicate Admits(floor: LocalDate, date: Option<LocalDate>) {
    date.Some? && !IsBefore(date.value, floor)
  }

  class IsAfterValidator {
    /** The annotation recorded by `initialize`; `None` until then. */
    var isAfter: Option<IsAfter>

    constructor ()
      ensures isAfter == None
    {
      isAfter := None;
    }

    method Initialize(constraintAnnotation: IsAfter)
      modifies this
      ensures isAfter == Some(constraintAnnotation)
    {
      isAfter := Some(constraintAnnotation);
    }

    /** A null date is rejected before the annotation is consulted; any other
        date needs `initialize` to have run (the field is dereferenced). */
    method IsValid(date: Option<LocalDate>) returns (valid: bool)
      requires date.Some? ==> isAfter.Some?
      ensures date.None? ==> !valid
      ensures date.Some? ==> (valid <==> Admits(isAfter.value.floor, date))
      ensures date.Some? ==> (valid <==> EpochDay(isAfter.value.floor) <= EpochDay(date.value))
    {
      if date.None? {
        return false;
      }
      IsBeforeIffEarlierEpochDay(date.value, isAfter.value.floor);
      valid := !IsBefore(date.value, isAfter.value.floor);
    }
  }

  /** Validity is upward closed: a date no earlier than an admitted one is
      admitted too, so there is no upper bound. */
  lemma AdmitsUpwardClosed(floor: LocalDate, d: LocalDate, later: LocalDate)
    requires Admits(floor, Some(d))
    requires !IsBefore(later, d)
    ensures Admits(floor, Some(later))
  {
    IsBeforeIffEarlierEpochDay(d, floor);
    IsBeforeIffEarlierEpochDay(later, d);
    IsBeforeIffEarlierEpochDay(later, floor);
  }

  /** The boundary the film tests pin: 1895-12-28 itself is accepted, the day
      before and 1800-01-01 are not, later and far-future dates are, and a
      missing date never is. */
  lemma CinemaBirthdayBoundary()
    ensures Admits(CINEMA_BIRTHDAY, Some(Date(1895, 12, 28)))
    ensures !Admits(CINEMA_BIRTHDAY, Some(Date(1895, 12, 27)))
    ensures !Admits(CINEMA_BIRTHDAY, Some(Date(1800, 1, 1)))
    ensures Admits(CINEMA_BIRTHDAY, Some(Date(1995, 1, 14)))
    ensures Admits(CINEMA_BIRTHDAY, Some(Date(MAX_YEAR, 12, 31)))
    ensures !Admits(CINEMA_BIRTHDAY, None)
  {
  }

  /** Every date strictly before the floor is rejected and every other date
      is accepted: the floor is the least admitted date. */
  lemma FloorIsLeastAdmitted(floor: LocalDate, d: LocalDate)
    ensures Admits(floor, Some(floor))
    ensures Admits(floor, Some(d)) <==> EpochDay(d) >= EpochDay(floor)
    ensures Admits(floor, Some(d)) && EpochDay(d) == EpochDay(floor) ==> d == floor
  {
    IsBeforeIffEarlierEpochDay(d, floor);
    EpochDayInjective(d, floor);
  }
}
