/**
 * The direction part of a Spring Data `sort=field,direction` parameter.
 */
module SortDirections {
  import opened JavaStrings

  datatype SortDirection = ASC | DESC | NONE
  {
    /** The text written after the comma: "asc", "desc", or nothing. */
    function Value(): (v: string)
      ensures (v == []) <==> this == NONE
    {
      match this
      case ASC => "asc"
      case DESC => "desc"
      case NONE => ""
    }

    /**
     * The direction after a toggle: ASC and DESC swap; a field with no direction
     * moves away from the default, to DESC when the default is ASC and to ASC otherwise.
     */
    function Toggle(defaultDirection: SortDirection): (r: SortDirection)
      ensures r != NONE
      ensures this != NONE ==> r != this
      ensures this == NONE ==> r != defaultDirection
      ensures this == NONE && defaultDirection != ASC ==> r == ASC
    {
      match this
      case ASC => DESC
      case DESC => ASC
      case NONE => if defaultDirection == ASC then DESC else ASC
    }

    /** The `field,direction` text Spring expects; just the field for NONE. */
    function WithSortField(field: string): string
    {
      if this == NONE then field else field + "," + Value()
    }
  }

  /** Reads a direction back from its text; any other text is NONE. */
  function From(value: string): (d: SortDirection)
    ensures d != NONE ==> d.Value() == value
  {
    if value == "asc" then ASC
    else if value == "desc" then DESC
    else NONE
  }

  /** Every direction survives being written out and read back. */
  lemma FromValue(d: SortDirection)
    ensures From(d.Value()) == d
  {
  }

  /** Toggling twice returns to where a set direction started, whatever the default. */
  lemma ToggleTwice(d: SortDirection, defaultDirection: SortDirection)
    requires d != NONE
    ensures d.Toggle(defaultDirection).Toggle(defaultDirection) == d
  {
  }

  /**
   * Splitting `WithSortField(field)` on commas gives back the field and, when there is
   * one, the direction text, so a sort value round-trips through its written form.
   */
  lemma SplitWithSortField(d: SortDirection, field: string)
    requires field != [] && NoneIn(field, {','})
    ensures d == NONE ==> Split(d.WithSortField(field), {','}) == [field]
    ensures d != NONE ==> Split(d.WithSortField(field), {','}) == [field, d.Value()]
  {
    if d == NONE {
      SplitOfPlain(field, {','});
    } else {
      assert Join([field, d.Value()], ",") == field + "," + d.Value();
      SplitOfJoin([field, d.Value()], ',', {','});
    }
  }
}
