/**
 * An optional extra on a reservation (general, or food for a meal plan) and its price.
 * `BigDecimal` amounts are exact, so they are `real` here.
 */
module Extras {
  import opened Wrappers
  import opened JavaStrings

  /** Pricing model. */
  datatype ExtraType = Premium | Basic

  /** General extras, or food extras that go into meal plans. */
  datatype Category = General | Food

  /** `perNightPrice × nights`. */
  function PriceFor(perNightPrice: real, nights: int): (r: real)
    ensures nights == 0 ==> r == 0.0
    ensures nights == 1 ==> r == perNightPrice
  {
    perNightPrice * nights as real
  }

  /** The price of a stay is the sum of the prices of its parts, and grows with the nights at a non-negative rate. */
  lemma PriceForAdditive(perNightPrice: real, nights: int, more: int)
    ensures PriceFor(perNightPrice, nights + more) == PriceFor(perNightPrice, nights) + PriceFor(perNightPrice, more)
    ensures perNightPrice >= 0.0 && more >= 0 ==> PriceFor(perNightPrice, nights) <= PriceFor(perNightPrice, nights + more)
  {
    assert (nights + more) as real == nights as real + more as real;
    assert perNightPrice * (nights as real + more as real) == perNightPrice * nights as real + perNightPrice * more as real;
    if perNightPrice >= 0.0 && more >= 0 {
      assert perNightPrice * more as real >= 0.0;
    }
  }

  /** What `equals` and `hashCode` look at: the description, type and category. */
  datatype ExtraKey = ExtraKey(description: string, extraType: ExtraType, category: Category)

  class Extra {
    var id: Option<int>
    var description: string
    var perNightPrice: real
    var extraType: ExtraType
    var category: Category

    constructor(description: string, perNightPrice: real, extraType: ExtraType, category: Category)
      ensures this.description == description && this.perNightPrice == perNightPrice
      ensures this.extraType == extraType && this.category == category && id.None?
    {
      this.id := None;
      this.description := description;
      this.perNightPrice := perNightPrice;
      this.extraType := extraType;
      this.category := category;
    }

    method SetId(value: Option<int>)
      modifies this
      ensures id == value && Key() == old(Key()) && perNightPrice == old(perNightPrice)
    {
      id := value;
    }

    method SetDescription(value: string)
      modifies this
      ensures description == value
      ensures extraType == old(extraType) && category == old(category)
      ensures perNightPrice == old(perNightPrice) && id == old(id)
    {
      description := value;
    }

    method SetPerNightPrice(value: real)
      modifies this
      ensures perNightPrice == value && Key() == old(Key()) && id == old(id)
    {
      perNightPrice := value;
    }

    method SetType(value: ExtraType)
      modifies this
      ensures extraType == value
      ensures description == old(description) && category == old(category)
      ensures perNightPrice == old(perNightPrice) && id == old(id)
    {
      extraType := value;
    }

    method SetCategory(value: Category)
      modifies this
      ensures category == value
      ensures description == old(description) && extraType == old(extraType)
      ensures perNightPrice == old(perNightPrice) && id == old(id)
    {
      category := value;
    }

    /** `getTotalPrice(totalNights)`. */
    function TotalPrice(nights: int): (r: real)
      reads this
      ensures nights == 0 ==> r == 0.0
    {
      PriceFor(perNightPrice, nights)
    }

    function Key(): ExtraKey
      reads this
    {
      ExtraKey(description, extraType, category)
    }

    /** `equals`: the same object, or the same description, type and category; `id` and the price do not count. */
    predicate Equals(other: Extra?)
      reads this, other
    {
      this == other || (other != null && Key() == other.Key())
    }

    /**
     * `hashCode`: `Objects.hash(description, type, category)`. Enum constants hash by
     * identity, so their hash codes are parameters.
     */
    function HashCode(typeHash: ExtraType -> int, categoryHash: Category -> int): int
      reads this
    {
      ExtraHash(Key(), typeHash, categoryHash)
    }
  }

  function ExtraHash(key: ExtraKey, typeHash: ExtraType -> int, categoryHash: Category -> int): (h: int)
    ensures IsInt32(h)
  {
    ObjectsHash([StringHash(key.description), typeHash(key.extraType), categoryHash(key.category)])
  }

  /** Equal extras have equal hash codes, whatever their ids and prices. */
  lemma EqualExtrasHashAlike(a: Extra, b: Extra, typeHash: ExtraType -> int, categoryHash: Category -> int)
    requires a.Equals(b)
    ensures a.HashCode(typeHash, categoryHash) == b.HashCode(typeHash, categoryHash)
  {
  }
}
