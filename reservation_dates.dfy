/**
 * A reservation's stay: check-in and check-out dates and the checkout options.
 * A `LocalDate` is represented by its epoch day, the count `ChronoUnit.DAYS` measures.
 */
module StayDates {
  import opened Wrappers

  /** A calendar date, as its day number counted from 1970-01-01. */
  datatype LocalDate = LocalDate(epochDay: int)

  /** A time of day, as nanoseconds after midnight. */
  type LocalTime = n: int | 0 <= n < NanosPerDay

  const NanosPerHour: int := 3_600_000_000_000
  const NanosPerDay: int := 24 * NanosPerHour

  /** `ChronoUnit.DAYS.between(from, to)`: whole days from the first date to the second. */
  function DaysBetween(from: LocalDate, to: LocalDate): int
  {
    to.epochDay - from.epochDay
  }

  /** `totalNights` over the two (possibly missing) dates. */
  function Nights(checkIn: Option<LocalDate>, checkOut: Option<LocalDate>): (r: int)
    ensures checkIn.None? || checkOut.None? ==> r == 0
  {
    if checkIn.None? || checkOut.None? then 0 else DaysBetween(checkIn.value, checkOut.value)
  }

  /**
   * With both dates present the count is the day difference: zero for the same day,
   * negative when check-out comes first, and the nights of consecutive stays add up.
   */
  lemma NightsCount(checkIn: LocalDate, middle: LocalDate, checkOut: LocalDate)
    ensures Nights(Some(checkIn), Some(checkIn)) == 0
    ensures Nights(Some(checkIn), Some(checkOut)) < 0 <==> checkOut.epochDay < checkIn.epochDay
    ensures Nights(Some(checkIn), Some(checkOut)) == -Nights(Some(checkOut), Some(checkIn))
    ensures Nights(Some(checkIn), Some(middle)) + Nights(Some(middle), Some(checkOut)) ==
      Nights(Some(checkIn), Some(checkOut))
  {
  }

  class ReservationDates {
    var checkInDate: Option<LocalDate>
    var checkOutDate: Option<LocalDate>
    var estimatedCheckInTime: Option<LocalTime>
    var lateCheckout: bool
    var checkoutAcknowledged: bool

    /** No dates yet, and both checkout options off. */
    constructor()
      ensures checkInDate.None? && checkOutDate.None? && estimatedCheckInTime.None?
      ensures !lateCheckout && !checkoutAcknowledged
    {
      checkInDate := None;
      checkOutDate := None;
      estimatedCheckInTime := None;
      lateCheckout := false;
      checkoutAcknowledged := false;
    }

    method SetCheckInDate(date: Option<LocalDate>)
      modifies this
      ensures checkInDate == date && checkOutDate == old(checkOutDate)
      ensures estimatedCheckInTime == old(estimatedCheckInTime)
      ensures lateCheckout == old(lateCheckout) && checkoutAcknowledged == old(checkoutAcknowledged)
    {
      checkInDate := date;
    }

    method SetCheckOutDate(date: Option<LocalDate>)
      modifies this
      ensures checkOutDate == date && checkInDate == old(checkInDate)
      ensures estimatedCheckInTime == old(estimatedCheckInTime)
      ensures lateCheckout == old(lateCheckout) && checkoutAcknowledged == old(checkoutAcknowledged)
    {
      checkOutDate := date;
    }

    method SetEstimatedCheckInTime(time: Option<LocalTime>)
      modifies this
      ensures estimatedCheckInTime == time
      ensures checkInDate == old(checkInDate) && checkOutDate == old(checkOutDate)
      ensures lateCheckout == old(lateCheckout) && checkoutAcknowledged == old(checkoutAcknowledged)
    {
      estimatedCheckInTime := time;
    }

    method SetLateCheckout(value: bool)
      modifies this
      ensures lateCheckout == value && checkoutAcknowledged == old(checkoutAcknowledged)
      ensures checkInDate == old(checkInDate) && checkOutDate == old(checkOutDate)
      ensures estimatedCheckInTime == old(estimatedCheckInTime)
    {
      lateCheckout := value;
    }

    method SetCheckoutAcknowledged(value: bool)
      modifies this
      ensures checkoutAcknowledged == value && lateCheckout == old(lateCheckout)
      ensures checkInDate == old(checkInDate) && checkOutDate == old(checkOutDate)
      ensures estimatedCheckInTime == old(estimatedCheckInTime)
    {
      checkoutAcknowledged := value;
    }

    /** `totalNights`: 0 when a date is missing, otherwise the days from check-in to check-out. */
    function TotalNights(): (r: int)
      reads this
      ensures checkInDate.None? || checkOutDate.None? ==> r == 0
      ensures checkInDate.Some? && checkOutDate.Some? ==> r == checkOutDate.value.epochDay - checkInDate.value.epochDay
    {
      Nights(checkInDate, checkOutDate)
    }
  }
}
