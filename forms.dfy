/**
 * The renewal form's date check (`RenewMovieForm.clean_renewal_date`).
 * Dates are day numbers and "today" is passed in rather than read from the clock.
 */
module Forms {

  import opened Common

  /** The upper end of the renewal window: four weeks after today. */
  const RenewalWindowDays: int := 4 * 7

  /** The two ways a proposed renewal date is refused. */
  datatype RenewalError = RenewalInPast | MoreThanFourWeeksAhead {

    /** The message the form shows for the error. */
    function Message(): (m: string)
      ensures "Invalid date - renewal " <= m
    {
      match this
      case RenewalInPast => "Invalid date - renewal in past"
      case MoreThanFourWeeksAhead => "Invalid date - renewal more than 4 weeks ahead"
    }
  }

  /** The cleaned value of the form field, or the error it was refused with. */
  datatype Cleaned = Accepted(date: Date) | Refused(error: RenewalError)

  /**
   * Accepts a date from today up to four weeks ahead, both ends included,
   * and hands it back unchanged; the past-date check is made first.
   */
  function CleanRenewalDate(data: Date, today: Date): (r: Cleaned)
    ensures r.Accepted? <==> today <= data <= today + RenewalWindowDays
    ensures r.Accepted? ==> r.date == data
    ensures r == Refused(RenewalInPast) <==> data < today
    ensures r == Refused(MoreThanFourWeeksAhead) <==> today + RenewalWindowDays < data
  {
    if data < today then Refused(RenewalInPast)
    else if data > today + RenewalWindowDays then Refused(MoreThanFourWeeksAhead)
    else Accepted(data)
  }

  /** The edges of the window: today and today + 28 pass, the days just outside do not. */
  lemma RenewalWindowBoundaries(today: Date)
    ensures CleanRenewalDate(today, today) == Accepted(today)
    ensures CleanRenewalDate(today + 28, today) == Accepted(today + 28)
    ensures CleanRenewalDate(today - 1, today) == Refused(RenewalInPast)
    ensures CleanRenewalDate(today + 29, today) == Refused(MoreThanFourWeeksAhead)
  {
  }

  /** A refused date is refused for exactly one reason, and the two reasons read differently. */
  lemma RefusalReasonUnique(data: Date, today: Date)
    requires CleanRenewalDate(data, today).Refused?
    ensures (data < today) != (today + RenewalWindowDays < data)
    ensures RenewalInPast.Message() != MoreThanFourWeeksAhead.Message()
  {
  }
}
