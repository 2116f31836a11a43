/**
 * A guest on a reservation. Names are stored lower case so that equality, hashing
 * and ordering ignore the case a name was typed in.
 */
module Guests {
  import opened Wrappers
  import opened JavaStrings
  import opened Utils

  /** What `equals` and the comparator look at: the two names and the child flag. */
  datatype GuestKey = GuestKey(firstName: string, lastName: string, child: bool)

  /** `Boolean.compare`: `false` before `true`. */
  function CompareBooleans(x: bool, y: bool): (r: int)
    ensures r == 0 <==> x == y
    ensures r < 0 <==> !x && y
    ensures r > 0 <==> x && !y
  {
    if x == y then 0 else if x then 1 else -1
  }

  /** `Guest.comparator()`: adults first, then by first name, then by last name. */
  function Compare(a: GuestKey, b: GuestKey): int
  {
    var byChild := CompareBooleans(a.child, b.child);
    if byChild != 0 then byChild
    else
      var byFirst := CompareTo(a.firstName, b.firstName);
      if byFirst != 0 then byFirst else CompareTo(a.lastName, b.lastName)
  }

  /** The comparator is consistent with `equals`: it returns 0 exactly for equal guests. */
  lemma CompareZeroIff(a: GuestKey, b: GuestKey)
    ensures Compare(a, b) == 0 <==> a == b
  {
    CompareToZeroIff(a.firstName, b.firstName);
    CompareToZeroIff(a.lastName, b.lastName);
  }

  /** Swapping the guests flips the comparison. */
  lemma CompareAntisymmetric(a: GuestKey, b: GuestKey)
    ensures Compare(a, b) == -Compare(b, a)
  {
    CompareToAntisymmetric(a.firstName, b.firstName);
    CompareToAntisymmetric(a.lastName, b.lastName);
  }

  /** The ordering is transitive. */
  lemma CompareTransitive(a: GuestKey, b: GuestKey, c: GuestKey)
    requires Compare(a, b) < 0 && Compare(b, c) < 0
    ensures Compare(a, c) < 0
  {
    CompareToZeroIff(a.firstName, b.firstName);
    CompareToZeroIff(b.firstName, c.firstName);
    if a.child == b.child && b.child == c.child {
      if a.firstName == b.firstName && b.firstName == c.firstName {
        CompareToTransitive(a.lastName, b.lastName, c.lastName);
      } else if a.firstName == b.firstName {
        assert Compare(a, c) == CompareTo(b.firstName, c.firstName);
      } else if b.firstName == c.firstName {
        assert Compare(a, c) == CompareTo(a.firstName, b.firstName);
      } else {
        CompareToTransitive(a.firstName, b.firstName, c.firstName);
      }
    }
  }

  /** An adult comes before any child, whatever the names. */
  lemma AdultsFirst(adult: GuestKey, child: GuestKey)
    requires !adult.child && child.child
    ensures Compare(adult, child) < 0
  {
  }

  /** Lower-casing forgets the case the text was written in. */
  lemma LowerIgnoresCase(s: string)
    ensures ToLower(ToUpper(s)) == ToLower(s)
  {
    var a := ToLower(ToUpper(s));
    forall i | 0 <= i < |s|
      ensures a[i] == ToLower(s)[i]
    {
    }
  }

  /** `getFormattedFullName` for the stored names. */
  function FormattedName(firstName: string, lastName: string): string
  {
    CapitalizeWords(firstName) + " " + CapitalizeWords(lastName)
  }

  /**
   * For one-word names, the formatted name of the stored (lower-cased) names is each
   * name as typed, capitalised: the case it was typed in does not show.
   */
  lemma FormattedNameOfWords(firstName: string, lastName: string)
    requires NoneIn(firstName, Whitespace) && NoneIn(lastName, Whitespace)
    ensures FormattedName(ToLower(firstName), ToLower(lastName)) == Capitalize(firstName) + " " + Capitalize(lastName)
  {
    OneWord(firstName);
    OneWord(lastName);
  }

  /** A lower-cased word without whitespace is capitalised as the word itself is. */
  lemma OneWord(s: string)
    requires NoneIn(s, Whitespace)
    ensures CapitalizeWords(ToLower(s)) == Capitalize(s)
  {
    var lower := ToLower(s);
    forall i | 0 <= i < |s|
      ensures lower[i] !in Whitespace
    {
      CaseCharFacts(s[i]);
    }
    SplitOfPlain(lower, Whitespace);
    CapitalizeIgnoresCase(s);
  }

  class Guest {
    /** A random id the pages use to address the guest; not part of equality. */
    const tempId: int
    var id: Option<int>
    var firstName: string
    var lastName: string
    var child: bool

    /** The names are set through the lower-casing setters; the random `tempId` is a parameter. */
    constructor(firstName: string, lastName: string, child: bool, tempId: int)
      ensures this.firstName == ToLower(firstName) && this.lastName == ToLower(lastName)
      ensures this.child == child && this.tempId == tempId && id.None?
    {
      this.tempId := tempId;
      this.id := None;
      this.firstName := ToLower(firstName);
      this.lastName := ToLower(lastName);
      this.child := child;
    }

    /** Stores the name lower case. */
    method SetFirstName(name: string)
      modifies this
      ensures firstName == ToLower(name)
      ensures lastName == old(lastName) && child == old(child) && id == old(id)
    {
      firstName := ToLower(name);
    }

    /** Stores the name lower case. */
    method SetLastName(name: string)
      modifies this
      ensures lastName == ToLower(name)
      ensures firstName == old(firstName) && child == old(child) && id == old(id)
    {
      lastName := ToLower(name);
    }

    method SetChild(value: bool)
      modifies this
      ensures child == value
      ensures firstName == old(firstName) && lastName == old(lastName) && id == old(id)
    {
      child := value;
    }

    function Key(): GuestKey
      reads this
    {
      GuestKey(firstName, lastName, child)
    }

    /** `equals`: the same object, or the same names and child flag; `tempId` and `id` do not count. */
    predicate Equals(other: Guest?)
      reads this, other
    {
      this == other || (other != null && Key() == other.Key())
    }

    function FormattedFullName(): string
      reads this
    {
      FormattedName(firstName, lastName)
    }
  }

  /** `comparator().compare(a, b)`. */
  function CompareGuests(a: Guest, b: Guest): int
    reads a, b
  {
    Compare(a.Key(), b.Key())
  }

  /** Two guests are equal exactly when the comparator puts them level. */
  lemma ComparatorMatchesEquals(a: Guest, b: Guest)
    ensures CompareGuests(a, b) == 0 <==> a.Equals(b)
  {
    CompareZeroIff(a.Key(), b.Key());
  }

  /** Guests whose names differ only in case are duplicates. */
  lemma CaseVariantsEqual(a: Guest, b: Guest, firstName: string, lastName: string)
    requires a.firstName == ToLower(firstName) && a.lastName == ToLower(lastName)
    requires b.firstName == ToLower(ToUpper(firstName)) && b.lastName == ToLower(ToUpper(lastName))
    requires a.child == b.child
    ensures a.Equals(b)
  {
    LowerIgnoresCase(firstName);
    LowerIgnoresCase(lastName);
  }
}
