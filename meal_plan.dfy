/**
 * A guest's meal plan on a reservation: the food extras chosen, the dietary
 * requirements, and the cost of the food over the stay with the child discount.
 */
module MealPlans {
  import opened Wrappers
  import opened Utils
  import opened Extras
  import opened Guests
  import opened StayDates
  import opened Bookings

  datatype DietaryRequirement = Vegan | Vegetarian | GlutenIntolerant | LactoseIntolerant
  {
    function Description(): string
    {
      match this
      case Vegan => "Vegan"
      case Vegetarian => "Vegetarian"
      case GlutenIntolerant => "Gluten Intolerant"
      case LactoseIntolerant => "Lactose Intolerant"
    }
  }

  /** The share of each meal's cost a child does not pay (`Reservation.CHILD_DISCOUNT_PERCENT`). */
  const ChildDiscountPercent: real := 0.60

  /**
   * `applyDiscounts` for one extra: its per-night price times the nights, less the
   * child discount when the guest is a child.
   */
  function ApplyDiscounts(perNightPrice: real, nights: int, child: bool): (r: real)
    ensures !child ==> r == PriceFor(perNightPrice, nights)
    ensures child ==> r == 0.4 * PriceFor(perNightPrice, nights)
  {
    var total := PriceFor(perNightPrice, nights);
    if child then total - total * ChildDiscountPercent else total
  }

  /** `reduce(BigDecimal.ZERO, BigDecimal::add)`, adding from the left. */
  function Sum(amounts: seq<real>): real
  {
    if amounts == [] then 0.0 else Sum(amounts[..|amounts| - 1]) + amounts[|amounts| - 1]
  }

  /** Each per-night price with its discount applied, in order. */
  function Discounted(prices: seq<real>, nights: int, child: bool): (r: seq<real>)
    ensures |r| == |prices|
    ensures forall i | 0 <= i < |prices| :: r[i] == ApplyDiscounts(prices[i], nights, child)
  {
    seq(|prices|, i requires 0 <= i < |prices| => ApplyDiscounts(prices[i], nights, child))
  }

  /** The meal plan's cost for these per-night prices: the sum of the discounted extras. */
  function TotalCost(prices: seq<real>, nights: int, child: bool): real
  {
    Sum(Discounted(prices, nights, child))
  }

  /**
   * Applying the discount to each extra and adding up gives the same amount as
   * applying it once to the summed per-night prices: in exact decimal arithmetic
   * the order the comment on `getTotalMealPlanCost` insists on makes no difference.
   */
  lemma {:induction false} TotalCostFactors(prices: seq<real>, nights: int, child: bool)
    ensures TotalCost(prices, nights, child) == ApplyDiscounts(Sum(prices), nights, child)
    decreases |prices|
  {
    if prices != [] {
      var init := prices[..|prices| - 1];
      var last := prices[|prices| - 1];
      TotalCostFactors(init, nights, child);
      assert Discounted(prices, nights, child)[..|prices| - 1] == Discounted(init, nights, child);
      assert PriceFor(Sum(init) + last, nights) == PriceFor(Sum(init), nights) + PriceFor(last, nights);
    }
  }

  /** A child pays 40% of what an adult pays for the same food over the same stay. */
  lemma ChildPaysFortyPercent(prices: seq<real>, nights: int)
    ensures TotalCost(prices, nights, true) == 0.4 * TotalCost(prices, nights, false)
  {
    TotalCostFactors(prices, nights, true);
    TotalCostFactors(prices, nights, false);
  }

  /** With non-negative prices and nights the cost is never negative, and never more than an adult's. */
  lemma {:induction false} TotalCostBounds(prices: seq<real>, nights: int, child: bool)
    requires nights >= 0
    requires forall i | 0 <= i < |prices| :: prices[i] >= 0.0
    ensures 0.0 <= TotalCost(prices, nights, child) <= TotalCost(prices, nights, false)
  {
    SumNonNegative(prices);
    TotalCostFactors(prices, nights, child);
    TotalCostFactors(prices, nights, false);
    assert Sum(prices) * nights as real >= 0.0;
  }

  lemma {:induction false} SumNonNegative(amounts: seq<real>)
    requires forall i | 0 <= i < |amounts| :: amounts[i] >= 0.0
    ensures Sum(amounts) >= 0.0
    decreases |amounts|
  {
    if amounts != [] {
      SumNonNegative(amounts[..|amounts| - 1]);
    }
  }

  /** The objects a list of extras refers to. */
  function ExtraObjects(extras: seq<Extra>): set<Extra>
  {
    set e | e in extras
  }

  /** The per-night price of each extra, in order. */
  function PerNightPrices(extras: seq<Extra>): (r: seq<real>)
    reads ExtraObjects(extras)
    ensures |r| == |extras|
    ensures forall i | 0 <= i < |extras| :: r[i] == extras[i].perNightPrice
  {
    seq(|extras|, i requires 0 <= i < |extras| reads ExtraObjects(extras) => extras[i].perNightPrice)
  }

  /** The description of each extra, in order. */
  function Descriptions(extras: seq<Extra>): (r: seq<string>)
    reads ExtraObjects(extras)
    ensures |r| == |extras|
    ensures forall i | 0 <= i < |extras| :: r[i] == extras[i].description
  {
    seq(|extras|, i requires 0 <= i < |extras| reads ExtraObjects(extras) => extras[i].description)
  }

  class MealPlan {
    var id: Option<int>
    /** A random id; the only thing equality looks at. A parameter here. */
    const mealPlanId: int
    var guest: Guest?
    var reservation: Reservation?
    var foodExtras: seq<Extra>
    var dietaryRequirements: seq<DietaryRequirement>

    constructor(guest: Guest?, reservation: Reservation?, foodExtras: seq<Extra>,
                dietaryRequirements: seq<DietaryRequirement>, mealPlanId: int)
      ensures this.guest == guest && this.reservation == reservation
      ensures this.foodExtras == foodExtras && this.dietaryRequirements == dietaryRequirements
      ensures this.mealPlanId == mealPlanId && id.None?
    {
      this.id := None;
      this.mealPlanId := mealPlanId;
      this.guest := guest;
      this.reservation := reservation;
      this.foodExtras := foodExtras;
      this.dietaryRequirements := dietaryRequirements;
    }

    method SetGuest(value: Guest?)
      modifies this`guest
      ensures guest == value && reservation == old(reservation)
      ensures foodExtras == old(foodExtras) && dietaryRequirements == old(dietaryRequirements)
    {
      guest := value;
    }

    method SetReservation(value: Reservation?)
      modifies this`reservation
      ensures reservation == value && guest == old(guest)
      ensures foodExtras == old(foodExtras) && dietaryRequirements == old(dietaryRequirements)
    {
      reservation := value;
    }

    method SetFoodExtras(value: seq<Extra>)
      modifies this`foodExtras
      ensures foodExtras == value && dietaryRequirements == old(dietaryRequirements)
      ensures guest == old(guest) && reservation == old(reservation)
    {
      foodExtras := value;
    }

    method SetDietaryRequirements(value: seq<DietaryRequirement>)
      modifies this`dietaryRequirements
      ensures dietaryRequirements == value && foodExtras == old(foodExtras)
      ensures guest == old(guest) && reservation == old(reservation)
    {
      dietaryRequirements := value;
    }

    /** `isEmpty`: no food extras and no dietary requirements. */
    predicate IsEmpty()
      reads this
    {
      foodExtras == [] && dietaryRequirements == []
    }

    predicate HasFoodExtras()
      reads this
    {
      foodExtras != []
    }

    predicate HasDietRequirements()
      reads this
    {
      dietaryRequirements != []
    }

    /**
     * `getTotalMealPlanCost`: fails with a null pointer when there is no reservation or
     * it has no dates, or when there is an extra to discount but no guest; otherwise the
     * discounted cost of every food extra over the stay's nights.
     */
    function TotalMealPlanCost(): (r: Result<real>)
      reads this, reservation, guest, ExtraObjects(foodExtras)
      reads if reservation == null then {} else {reservation.reservationDates}
      ensures r.Err? <==> reservation == null || reservation.reservationDates == null || (foodExtras != [] && guest == null)
      ensures r.Err? ==> r.error == NullPointer
      ensures r.Ok? ==> r.value == ApplyDiscounts(Sum(PerNightPrices(foodExtras)),
                                                  reservation.reservationDates.TotalNights(),
                                                  guest != null && guest.child)
    {
      if reservation == null || reservation.reservationDates == null then Err(NullPointer)
      else if foodExtras != [] && guest == null then Err(NullPointer)
      else
        var nights := reservation.reservationDates.TotalNights();
        TotalCostFactors(PerNightPrices(foodExtras), nights, guest != null && guest.child);
        Ok(TotalCost(PerNightPrices(foodExtras), nights, guest != null && guest.child))
    }

    /** `toFoodExtraCsv`: the extras' descriptions, comma separated. */
    function FoodExtraCsv(): (r: string)
      reads this, ExtraObjects(foodExtras)
      ensures foodExtras == [] ==> r == []
      ensures |foodExtras| == 1 ==> r == foodExtras[0].description
    {
      ToCsv(Descriptions(foodExtras), (s: string) => s)
    }

    /** `toDietRequirementsCsv`: the requirements' descriptions, comma separated. */
    function DietRequirementsCsv(): (r: string)
      reads this
      ensures dietaryRequirements == [] ==> r == []
      ensures |dietaryRequirements| == 1 ==> r == dietaryRequirements[0].Description()
    {
      ToCsv(dietaryRequirements, (d: DietaryRequirement) => d.Description())
    }

    /** `equals`: the same object, or the same `mealPlanId`. */
    predicate Equals(other: MealPlan?)
      reads this, other
    {
      this == other || (other != null && mealPlanId == other.mealPlanId)
    }
  }

  /** Adding a requirement to a non-empty list appends `", "` and its description to the CSV. */
  lemma DietRequirementsCsvAppend(requirements: seq<DietaryRequirement>, d: DietaryRequirement)
    requires requirements != []
    ensures ToCsv(requirements + [d], (x: DietaryRequirement) => x.Description()) ==
      ToCsv(requirements, (x: DietaryRequirement) => x.Description()) + ", " + d.Description()
  {
    ToCsvAppend(requirements, d, (x: DietaryRequirement) => x.Description());
  }
}
