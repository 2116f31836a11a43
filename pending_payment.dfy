/**
 * The payment form: the card details a guest enters, the expiry years and months the
 * form offers, and the completed payment that keeps only the card's last four digits.
 */
module Payments {
  import opened Wrappers
  import opened JavaStrings

  datatype CreditCardType = MasterCard | Visa
  {
    function Description(): string
    {
      match this
      case MasterCard => "Mastercard"
      case Visa => "Visa"
    }
  }

  /** The years `java.time.Year` can hold. */
  const MinYear: int := -999_999_999
  const MaxYear: int := 999_999_999
  type Year = y: int | MinYear <= y <= MaxYear

  /** A `java.time.Month`, as its value 1 (January) to 12 (December). */
  type MonthOfYear = m: int | 1 <= m <= 12 witness 1

  /** The year and month of the `LocalDateTime` a payment was created at; the rest of it is not used. */
  datatype CreatedTime = CreatedTime(year: Year, month: MonthOfYear)

  datatype YearMonth = YearMonth(year: Year, month: MonthOfYear)

  datatype CompletedPayment = CompletedPayment(creditCardType: Option<CreditCardType>, last4CreditCardDigits: string,
                                               cvv: Option<string>, cardExpiry: YearMonth)

  /**
   * `validExpiryYears`: the creation year and the ten after it; `plusYears` throws once a
   * year would pass the largest `Year`.
   */
  function ExpiryYearsFrom(created: Year): (r: Result<seq<Year>>)
    ensures r.Err? <==> created + 10 > MaxYear
    ensures r.Err? ==> r.error == DateTime
    ensures r.Ok? ==> |r.value| == 11 && forall i | 0 <= i < 11 :: r.value[i] == created + i
  {
    if created + 10 > MaxYear then Err(DateTime)
    else Ok(seq(11, i requires 0 <= i < 11 => created + i))
  }

  /** Every ten-year-later expiry year follows the one before it, so the list is strictly increasing. */
  lemma ExpiryYearsIncreasing(created: Year)
    requires created + 10 <= MaxYear
    ensures var years := ExpiryYearsFrom(created).value;
      years[0] == created && years[10] == created + 10 &&
      forall i, j | 0 <= i < j < 11 :: years[i] < years[j]
  {
  }

  /** `Month.values()`: January to December. */
  function AllMonths(): (r: seq<MonthOfYear>)
    ensures |r| == 12 && forall i | 0 <= i < 12 :: r[i] == i + 1
  {
    seq(12, i requires 0 <= i < 12 => i + 1)
  }

  /** The `filter(month -> month.getValue() >= current)` step, keeping the order. */
  function MonthsFrom(months: seq<MonthOfYear>, current: MonthOfYear): (r: seq<MonthOfYear>)
    ensures |r| <= |months|
    ensures forall m | m in r :: m in months && m >= current
    ensures forall m | m in months && m >= current :: m in r
    decreases |months|
  {
    if months == [] then []
    else (if months[0] >= current then [months[0]] else []) + MonthsFrom(months[1..], current)
  }

  /** `validExpiryMonths`: the months of the year from the creation month on. */
  function ExpiryMonthsFrom(current: MonthOfYear): seq<MonthOfYear>
  {
    MonthsFrom(AllMonths(), current)
  }

  /** Filtering the consecutive months `first..12` from `current` leaves exactly `max(first, current)..12`. */
  lemma {:induction false} MonthsFromConsecutive(months: seq<MonthOfYear>, first: int, current: MonthOfYear)
    requires 1 <= first <= 13 && |months| == 13 - first
    requires forall i | 0 <= i < |months| :: months[i] == first + i
    ensures var start := if first < current then current else first;
      var r := MonthsFrom(months, current);
      |r| == 13 - start && forall i | 0 <= i < |r| :: r[i] == start + i
    decreases |months|
  {
    if months != [] {
      MonthsFromConsecutive(months[1..], first + 1, current);
    }
  }

  /**
   * The months offered run from the creation month to December, in calendar order:
   * never empty, and always ending with December.
   */
  lemma ExpiryMonthsRange(current: MonthOfYear)
    ensures var r := ExpiryMonthsFrom(current);
      |r| == 13 - current && r[0] == current && r[|r| - 1] == 12 &&
      forall i | 0 <= i < |r| :: r[i] == current + i
  {
    MonthsFromConsecutive(AllMonths(), 1, current);
  }

  /**
   * `last4CardDigits`: the last four characters of the card number; `null` throws a
   * null pointer, a number shorter than four characters a string index error.
   */
  function Last4Of(creditCardNumber: Option<string>): (r: Result<string>)
    ensures r.Err? <==> creditCardNumber.None? || |creditCardNumber.value| < 4
    ensures creditCardNumber.None? ==> r == Err(NullPointer)
    ensures creditCardNumber.Some? && |creditCardNumber.value| < 4 ==> r == Err(IndexOutOfBounds)
    ensures r.Ok? ==> |r.value| == 4
    ensures r.Ok? ==> creditCardNumber.value == creditCardNumber.value[..|creditCardNumber.value| - 4] + r.value
  {
    if creditCardNumber.None? then Err(NullPointer)
    else
      var number := creditCardNumber.value;
      if |number| < 4 then Err(IndexOutOfBounds) else Ok(number[|number| - 4..])
  }

  /** The `[0-9]{10}` pattern the card number must match. */
  predicate IsValidCardNumber(number: string)
  {
    |number| == 10 && AllDigits(number)
  }

  /** The `[0-9]{3}` pattern the CVV must match. */
  predicate IsValidCvv(cvv: string)
  {
    |cvv| == 3 && AllDigits(cvv)
  }

  /** A card number the form accepts always yields four digits, the last six digits hidden. */
  lemma ValidNumberLast4(number: string)
    requires IsValidCardNumber(number)
    ensures Last4Of(Some(number)).Ok?
    ensures Last4Of(Some(number)).value == number[6..] && AllDigits(Last4Of(Some(number)).value)
  {
  }

  /** `getCardExpiry`: `YearMonth.of` of the chosen year and month; either missing throws a null pointer. */
  function ExpiryOf(year: Option<Year>, month: Option<MonthOfYear>): (r: Result<YearMonth>)
    ensures r.Err? <==> year.None? || month.None?
    ensures r.Err? ==> r.error == NullPointer
    ensures r.Ok? ==> r.value.year == year.value && r.value.month == month.value
  {
    if year.None? || month.None? then Err(NullPointer) else Ok(YearMonth(year.value, month.value))
  }

  class PendingPayment {
    var creditCardType: Option<CreditCardType>
    var creditCardNumber: Option<string>
    var cvv: Option<string>
    var cardHolderName: Option<string>
    var cardExpiryYear: Option<Year>
    var cardExpiryMonth: Option<MonthOfYear>
    var createdTime: Option<CreatedTime>

    /** Only the creation time is set; every card field starts out `null`. */
    constructor(createdTime: Option<CreatedTime>)
      ensures this.createdTime == createdTime
      ensures creditCardType.None? && creditCardNumber.None? && cvv.None? && cardHolderName.None?
      ensures cardExpiryYear.None? && cardExpiryMonth.None?
    {
      this.createdTime := createdTime;
      creditCardType := None;
      creditCardNumber := None;
      cvv := None;
      cardHolderName := None;
      cardExpiryYear := None;
      cardExpiryMonth := None;
    }

    method SetCreditCardType(value: Option<CreditCardType>)
      modifies this`creditCardType
      ensures creditCardType == value && CardNumberAndCvv() == old(CardNumberAndCvv()) && Expiry() == old(Expiry())
    {
      creditCardType := value;
    }

    method SetCreditCardNumber(value: Option<string>)
      modifies this`creditCardNumber
      ensures creditCardNumber == value && cvv == old(cvv) && creditCardType == old(creditCardType) && Expiry() == old(Expiry())
    {
      creditCardNumber := value;
    }

    method SetCvv(value: Option<string>)
      modifies this`cvv
      ensures cvv == value && creditCardNumber == old(creditCardNumber) && creditCardType == old(creditCardType)
      ensures Expiry() == old(Expiry())
    {
      cvv := value;
    }

    method SetCardHolderName(value: Option<string>)
      modifies this`cardHolderName
      ensures cardHolderName == value && creditCardType == old(creditCardType)
      ensures CardNumberAndCvv() == old(CardNumberAndCvv()) && Expiry() == old(Expiry())
    {
      cardHolderName := value;
    }

    method SetCardExpiryYear(value: Option<Year>)
      modifies this`cardExpiryYear
      ensures cardExpiryYear == value && cardExpiryMonth == old(cardExpiryMonth) && createdTime == old(createdTime)
      ensures creditCardType == old(creditCardType) && CardNumberAndCvv() == old(CardNumberAndCvv())
    {
      cardExpiryYear := value;
    }

    method SetCardExpiryMonth(value: Option<MonthOfYear>)
      modifies this`cardExpiryMonth
      ensures cardExpiryMonth == value && cardExpiryYear == old(cardExpiryYear) && createdTime == old(createdTime)
      ensures creditCardType == old(creditCardType) && CardNumberAndCvv() == old(CardNumberAndCvv())
    {
      cardExpiryMonth := value;
    }

    method SetCreatedTime(value: Option<CreatedTime>)
      modifies this`createdTime
      ensures createdTime == value && cardExpiryYear == old(cardExpiryYear) && cardExpiryMonth == old(cardExpiryMonth)
      ensures creditCardType == old(creditCardType) && CardNumberAndCvv() == old(CardNumberAndCvv())
    {
      createdTime := value;
    }

    function CardNumberAndCvv(): (Option<string>, Option<string>)
      reads this
    {
      (creditCardNumber, cvv)
    }

    function Expiry(): (Option<Year>, Option<MonthOfYear>, Option<CreatedTime>)
      reads this
    {
      (cardExpiryYear, cardExpiryMonth, createdTime)
    }

    /** The form's constraints: every field present, a ten-digit number, a three-digit CVV and a non-empty holder name. */
    predicate IsValid()
      reads this
    {
      creditCardType.Some? &&
      creditCardNumber.Some? && IsValidCardNumber(creditCardNumber.value) &&
      cvv.Some? && IsValidCvv(cvv.value) &&
      cardHolderName.Some? && cardHolderName.value != [] &&
      cardExpiryYear.Some? && cardExpiryMonth.Some?
    }

    function CardExpiry(): (r: Result<YearMonth>)
      reads this
      ensures r.Ok? <==> cardExpiryYear.Some? && cardExpiryMonth.Some?
    {
      ExpiryOf(cardExpiryYear, cardExpiryMonth)
    }

    /** `validExpiryYears`; a missing creation time throws a null pointer. */
    function ValidExpiryYears(): (r: Result<seq<Year>>)
      reads this
      ensures createdTime.None? ==> r == Err(NullPointer)
      ensures createdTime.Some? && createdTime.value.year + 10 <= MaxYear ==>
        r.Ok? && |r.value| == 11 && r.value[0] == createdTime.value.year
    {
      if createdTime.None? then Err(NullPointer) else ExpiryYearsFrom(createdTime.value.year)
    }

    /** `validExpiryMonths`; a missing creation time throws a null pointer. */
    function ValidExpiryMonths(): (r: Result<seq<MonthOfYear>>)
      reads this
      ensures r.Err? <==> createdTime.None?
      ensures r.Err? ==> r.error == NullPointer
      ensures r.Ok? ==> r.value != [] && r.value[0] == createdTime.value.month
    {
      if createdTime.None? then Err(NullPointer)
      else
        ExpiryMonthsRange(createdTime.value.month);
        Ok(ExpiryMonthsFrom(createdTime.value.month))
    }

    function Last4CardDigits(): (r: Result<string>)
      reads this
      ensures r.Ok? ==> |r.value| == 4
    {
      Last4Of(creditCardNumber)
    }

    /**
     * `toCompletedPayment`: the arguments are evaluated left to right, so a bad card
     * number fails before a missing expiry.
     */
    function ToCompletedPayment(): (r: Result<CompletedPayment>)
      reads this
      ensures Last4Of(creditCardNumber).Err? ==> r == Err(Last4Of(creditCardNumber).error)
      ensures Last4Of(creditCardNumber).Ok? && CardExpiry().Err? ==> r == Err(NullPointer)
      ensures r.Ok? <==> Last4Of(creditCardNumber).Ok? && CardExpiry().Ok?
      ensures r.Ok? ==> r.value.creditCardType == creditCardType && r.value.cvv == cvv
      ensures r.Ok? ==> r.value.last4CreditCardDigits == Last4CardDigits().value && r.value.cardExpiry == CardExpiry().value
    {
      var last4 := Last4CardDigits();
      if last4.Err? then Err(last4.error)
      else
        var expiry := CardExpiry();
        if expiry.Err? then Err(expiry.error)
        else Ok(CompletedPayment(creditCardType, last4.value, cvv, expiry.value))
    }
  }

  /**
   * A payment that passes the form's constraints always completes, keeping the card
   * type, the CVV and the chosen expiry, and of the number only its last four digits.
   */
  lemma ValidPaymentCompletes(p: PendingPayment)
    requires p.IsValid()
    ensures p.ToCompletedPayment().Ok?
    ensures var c := p.ToCompletedPayment().value;
      c.creditCardType == p.creditCardType && c.cvv == p.cvv &&
      c.last4CreditCardDigits == p.creditCardNumber.value[6..] && AllDigits(c.last4CreditCardDigits) &&
      c.cardExpiry == YearMonth(p.cardExpiryYear.value, p.cardExpiryMonth.value)
  {
    ValidNumberLast4(p.creditCardNumber.value);
  }
}
