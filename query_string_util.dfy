/**
 * `QueryStringUtil`: building a query string from raw pairs, and reading the field
 * out of a Spring `field,direction` sort value.
 */
module QueryStringUtil {
  import opened Wrappers
  import opened JavaStrings
  import opened SortDirections
  import opened QueryStringState
  import opened QueryStringOps

  /** The pairs `KeyValue.fromPair` accepts, in the order they were supplied. */
  function ValidPairs(pairs: seq<seq<string>>): (r: seq<KeyValue>)
    ensures |r| <= |pairs|
    ensures forall i | 0 <= i < |r| :: !r[i].deleted && !IsBlank(r[i].key) && !IsBlank(r[i].value)
    decreases |pairs|
  {
    if pairs == [] then []
    else
      match FromPair(pairs[0])
      case None => ValidPairs(pairs[1..])
      case Some(kv) => [kv] + ValidPairs(pairs[1..])
  }

  /**
   * `toQueryString`: the accepted pairs written `key=value` and joined with `&`; the
   * codec is the identity. A `null` list is a NullPointerException.
   */
  function ToQueryString(keyValuePairs: Option<seq<seq<string>>>): (r: Result<string>)
    ensures r.Err? <==> keyValuePairs.None?
    ensures r.Err? ==> r.error == NullPointer
  {
    match keyValuePairs
    case None => Err(NullPointer)
    case Some(pairs) => Ok(Join(RenderAll(ValidPairs(pairs)), "&"))
  }

  /** A pair is kept exactly when `fromPair` accepts it, wherever it stands in the list. */
  lemma {:induction false} ValidPairsMembers(pairs: seq<seq<string>>, kv: KeyValue)
    ensures kv in ValidPairs(pairs) <==> FromSomePair(pairs, kv)
    decreases |pairs|
  {
    if pairs != [] {
      ValidPairsMembers(pairs[1..], kv);
      if FromSomePair(pairs, kv) && FromPair(pairs[0]) != Some(kv) {
        var i :| 0 <= i < |pairs| && FromPair(pairs[i]) == Some(kv);
        assert pairs[1..][i - 1] == pairs[i];
      }
      if FromSomePair(pairs[1..], kv) {
        var i :| 0 <= i < |pairs[1..]| && FromPair(pairs[1..][i]) == Some(kv);
        assert pairs[i + 1] == pairs[1..][i];
      }
    }
  }

  /** The pairs keep the order they were supplied in: filtering a concatenation concatenates. */
  lemma {:induction false} ValidPairsAppend(a: seq<seq<string>>, b: seq<seq<string>>)
    ensures ValidPairs(a + b) == ValidPairs(a) + ValidPairs(b)
    decreases |a|
  {
    if a != [] {
      assert (a + b)[1..] == a[1..] + b;
      ValidPairsAppend(a[1..], b);
    } else {
      assert a + b == b;
    }
  }

  /** An empty list, or one where every pair is rejected, gives the empty query string. */
  lemma {:induction false} ToQueryStringNoPairs(pairs: seq<seq<string>>)
    requires forall i | 0 <= i < |pairs| :: FromPair(pairs[i]).None?
    ensures ToQueryString(Some(pairs)) == Ok("")
    decreases |pairs|
  {
    if pairs != [] {
      assert forall i | 0 <= i < |pairs[1..]| :: pairs[1..][i] == pairs[i + 1];
      ToQueryStringNoPairs(pairs[1..]);
    }
  }

  /**
   * When the accepted pairs contain no `&` or `=`, the result has no leading, trailing or
   * doubled `&`: splitting it on `&` gives back one `key=value` piece per accepted pair,
   * in order, and parsing it as a query string gives back exactly those pairs.
   */
  lemma ToQueryStringRoundTrip(pairs: seq<seq<string>>)
    requires ValidPairs(pairs) != []
    requires forall i | 0 <= i < |ValidPairs(pairs)| ::
      NoneIn(ValidPairs(pairs)[i].key, {'&', '='}) && NoneIn(ValidPairs(pairs)[i].value, {'&', '='})
    ensures var r := ToQueryString(Some(pairs)).value;
      && Split(r, {'&'}) == RenderAll(ValidPairs(pairs))
      && HasAtLeastOneKeyValuePair(Some(r))
      && Parsed(r) == ValidPairs(pairs)
  {
    var kvs := ValidPairs(pairs);
    forall i | 0 <= i < |kvs|
      ensures IsCanonical(kvs[i]) && NoneIn(RenderAll(kvs)[i], {'&'}) && RenderAll(kvs)[i] != []
    {
      RenderSplits(kvs[i]);
    }
    SplitOfJoin(RenderAll(kvs), '&', {'&'});
    CanonicalRoundTrip(kvs);
  }

  /**
   * `extractSortField`: the text before the first comma of a Spring sort value; `null`
   * and the empty string give the empty string.
   */
  function ExtractSortField(value: Option<string>): (r: string)
    ensures value.None? || value.value == [] ==> r == []
  {
    if value.None? || value.value == [] then []
    else
      var tokens := Split(value.value, {','});
      if |tokens| > 0 then tokens[0] else []
  }

  /** Whatever the text, the field is the text before its first comma (so "," and ",b" give ""). */
  lemma ExtractSortFieldBeforeComma(value: string)
    ensures ExtractSortField(Some(value)) == BeforeFirst(value, {','})
  {
    SplitHead(value, {','});
  }

  /** Reading the field back out of a written sort value gives the field, for any field without a comma. */
  lemma ExtractSortFieldOfWithSortField(d: SortDirection, field: string)
    requires NoneIn(field, {','})
    ensures ExtractSortField(Some(d.WithSortField(field))) == field
  {
    var tail := if d == NONE then [] else "," + d.Value();
    assert d.WithSortField(field) == field + tail by {
      if d == NONE {
        assert field + [] == field;
      }
    }
    BeforeFirstOfConcat(field, tail, {','});
    ExtractSortFieldBeforeComma(field + tail);
  }
}
