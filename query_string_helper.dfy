/**
 * `QueryStringHelper`: the entry points a template calls. Each one parses its query
 * string afresh with `QueryString.of`, applies one or more operations and writes the
 * result out again; an exception is an `Err`.
 */
module QueryStringHelper {
  import opened Wrappers
  import opened JavaStrings
  import opened SortDirections
  import opened QueryStringState
  import opened QueryStringOps
  import opened QueryStringUtil

  // ---------------------------------------------------------------------------
  // The single-operation entry points the compound ones call
  // ---------------------------------------------------------------------------

  /** `getAllValues(queryString, key)`. */
  function AllValuesOf(queryString: Option<string>, key: string): (r: Result<seq<string>>)
    ensures r.Ok? <==> HasAtLeastOneKeyValuePair(queryString)
    ensures r.Err? ==> r.error == IllegalArgument
    ensures r.Ok? ==> r.value == ValuesOfKey(Parsed(queryString.value), key)
  {
    match Of(queryString)
    case Err(e) => Err(e)
    case Ok(s) =>
      GetValuesCreateState(queryString.value, key);
      Ok(GetAllValues(s, key))
  }

  /** `removeManyNth(queryString, key, relativeIndexes)`. */
  function RemoveManyNthOf(queryString: Option<string>, key: string, relativeIndexes: seq<int>): (r: Result<string>)
    ensures r.Ok? <==> HasAtLeastOneKeyValuePair(queryString)
    ensures r.Err? ==> r.error == IllegalArgument
  {
    match Of(queryString)
    case Err(e) => Err(e)
    case Ok(s) =>
      ReconstructCreateState(queryString.value);
      RemoveManyNthLive(s, key, relativeIndexes);
      Ok(Reconstruct(RemoveManyNth(s, key, relativeIndexes)))
  }

  /** `adjustNumericValueBy` with a predicate on the current value. */
  function AdjustNumericValueByOf(queryString: Option<string>, key: string, relativeIndexes: seq<int>,
                                  delta: int, accept: int -> bool): (r: Result<string>)
    ensures r.Ok? <==> HasAtLeastOneKeyValuePair(queryString)
    ensures r.Err? ==> r.error == IllegalArgument
  {
    match Of(queryString)
    case Err(e) => Err(e)
    case Ok(s) =>
      ReconstructCreateState(queryString.value);
      AdjustNumericValues(s, key, relativeIndexes, delta, accept);
      Ok(Reconstruct(AdjustNumericValueBy(s, key, relativeIndexes, delta, accept)))
  }

  /** `setSortDirection` of a parsed query string with the given mapper. */
  function SetSortDirectionOf(queryString: Option<string>, field: Option<string>,
                              mapper: SortDirection -> SortDirection): (r: Result<string>)
    ensures r.Ok? <==> HasAtLeastOneKeyValuePair(queryString)
    ensures r.Err? ==> r.error == IllegalArgument
  {
    match Of(queryString)
    case Err(e) => Err(e)
    case Ok(s) =>
      ReconstructCreateState(queryString.value);
      SetSortDirectionEffect(s, field, mapper);
      Ok(Reconstruct(SetSortDirection(s, field, mapper)))
  }

  // ---------------------------------------------------------------------------
  // removeAllAndAdd
  // ---------------------------------------------------------------------------

  /**
   * The `try` block both compound removals share: the string left after the removal is
   * parsed again and the pairs are added; when it does not parse (it is empty, say) the
   * `catch` joins the pairs on their own.
   */
  function AddAfterRemoval(afterRemoval: string, addPairs: Option<seq<seq<string>>>): (r: Result<string>)
    ensures r.Err? ==> r.error == NullPointer && addPairs.None?
  {
    match Of(Some(afterRemoval))
    case Err(_) => ToQueryString(addPairs)
    case Ok(s) =>
      ReconstructCreateState(afterRemoval);
      AddPairsKeeps(s, if addPairs.None? then [] else addPairs.value);
      Ok(Reconstruct(AddAll(s, addPairs)))
  }

  /** The parsed query string without the removed keys. */
  function RemovedAll(queryString: string, removeKeys: Option<seq<string>>): (t: State)
    ensures WellFormed(t)
  {
    var s := CreateState(queryString);
    ReconstructCreateState(queryString);
    if removeKeys.Some? then RemoveAllLive(s, removeKeys.value); RemoveAll(s, removeKeys) else s
  }

  /**
   * `removeAllAndAdd`: the removal runs outside the `try`, so a query string that does not
   * parse is an IllegalArgumentException; a `null` pair list can only fail in the `catch`.
   */
  function RemoveAllAndAdd(queryString: Option<string>, removeKeys: Option<seq<string>>,
                           addPairs: Option<seq<seq<string>>>): (r: Result<string>)
    ensures !HasAtLeastOneKeyValuePair(queryString) ==> r == Err(IllegalArgument)
    ensures HasAtLeastOneKeyValuePair(queryString) && addPairs.Some? ==> r.Ok?
    ensures r.Err? ==> r.error == IllegalArgument || (r.error == NullPointer && addPairs.None?)
  {
    match Of(queryString)
    case Err(e) => Err(e)
    case Ok(_) => AddAfterRemoval(Reconstruct(RemovedAll(queryString.value, removeKeys)), addPairs)
  }

  /** Every pair a parsed state writes out is one of the parsed pairs. */
  lemma LiveOfParsed(kvs: seq<KeyValue>)
    requires forall i | 0 <= i < |kvs| :: !kvs[i].deleted
    ensures forall x | x in LiveEntries(Collect(kvs)) :: x.keyValue in kvs
  {
    CollectOrdered(kvs);
    OrderedSpec(Collect(kvs));
  }

  /** A state with no live pair writes nothing out. */
  lemma NothingLive(t: State)
    requires WellFormed(t) && forall x :: x !in LiveEntries(t)
    ensures Ordered(t) == [] && Reconstruct(t) == []
  {
    OrderedSpec(t);
    HeadIsMember(Ordered(t));
  }

  lemma HeadIsMember<T>(q: seq<T>)
    ensures q != [] ==> q[0] in q
  {
  }

  /** No pair is written out for a state whose live pairs were all removed. */
  lemma RemovedEverything(queryString: string, removeKeys: seq<string>)
    requires forall i | 0 <= i < |Parsed(queryString)| :: Parsed(queryString)[i].key in removeKeys
    ensures Ordered(RemovedAll(queryString, Some(removeKeys))) == []
    ensures Reconstruct(RemovedAll(queryString, Some(removeKeys))) == []
  {
    var kvs := Parsed(queryString);
    var s := CreateState(queryString);
    LiveOfParsed(kvs);
    ReconstructCreateState(queryString);
    RemoveAllLive(s, removeKeys);
    NothingLive(RemovedAll(queryString, Some(removeKeys)));
  }

  /**
   * When the removal leaves no pair, `removeAllAndAdd` gives exactly what `toQueryString`
   * gives for the new pairs, as the fallback of its `catch`.
   */
  lemma RemoveAllAndAddEmptied(queryString: string, removeKeys: seq<string>, addPairs: Option<seq<seq<string>>>)
    requires HasAtLeastOneKeyValuePair(Some(queryString))
    requires forall i | 0 <= i < |Parsed(queryString)| :: Parsed(queryString)[i].key in removeKeys
    ensures RemoveAllAndAdd(Some(queryString), Some(removeKeys), addPairs) == ToQueryString(addPairs)
  {
    RemovedEverything(queryString, removeKeys);
    OfRejectsNullAndEmpty();
  }

  /** The pairs that survive a removal, written and parsed again, are exactly the surviving pairs. */
  lemma ReparseRemoved(queryString: string, removeKeys: Option<seq<string>>)
    requires Ordered(RemovedAll(queryString, removeKeys)) != []
    ensures var t := RemovedAll(queryString, removeKeys);
      && HasAtLeastOneKeyValuePair(Some(Reconstruct(t)))
      && Parsed(Reconstruct(t)) == KeyValues(Ordered(t))
      && WellFormed(CreateState(Reconstruct(t)))
      && Reconstruct(CreateState(Reconstruct(t))) == Reconstruct(t)
      && Ordered(CreateState(Reconstruct(t))) != []
  {
    var s := CreateState(queryString);
    var t := RemovedAll(queryString, removeKeys);
    CreateStateCanonical(queryString);
    if removeKeys.Some? {
      RemoveAllLive(s, removeKeys.value);
    }
    assert AllCanonical(t);
    ReconstructReparses(t);
    ReconstructCreateState(Reconstruct(t));
    CollectOrdered(Parsed(Reconstruct(t)));
    assert RenderAll(KeyValues(Ordered(t))) == Renders(Ordered(t));
  }

  /** Adding pairs to a state that writes something out only extends what it writes. */
  lemma AddPairsExtends(u: State, addPairs: seq<seq<string>>)
    requires WellFormed(u) && Ordered(u) != []
    ensures WellFormed(AddPairs(u, addPairs))
    ensures Reconstruct(u) <= Reconstruct(AddPairs(u, addPairs))
  {
    AddPairsKeeps(u, addPairs);
    OrderedPrefixReconstructs(Ordered(u), Ordered(AddPairs(u, addPairs)));
  }

  /** When one run of pairs begins another, its written form begins the other's. */
  lemma OrderedPrefixReconstructs(o: seq<KeyValueIndex>, ov: seq<KeyValueIndex>)
    requires o != [] && o <= ov
    ensures Join(Renders(o), "&") <= Join(Renders(ov), "&")
  {
    assert ov == o + ov[|o|..];
    assert Renders(ov) == Renders(o) + Renders(ov[|o|..]);
    JoinPrefix(Renders(o), Renders(ov[|o|..]), "&");
  }

  /**
   * When some pair survives the removal, `removeAllAndAdd` succeeds, and the surviving
   * pairs, written in their original order, begin the result; only added pairs follow.
   */
  lemma RemoveAllAndAddKeeps(queryString: string, removeKeys: Option<seq<string>>, addPairs: seq<seq<string>>)
    requires HasAtLeastOneKeyValuePair(Some(queryString))
    requires Ordered(RemovedAll(queryString, removeKeys)) != []
    ensures var r := RemoveAllAndAdd(Some(queryString), removeKeys, Some(addPairs));
      r.Ok? && Reconstruct(RemovedAll(queryString, removeKeys)) <= r.value
  {
    var t := RemovedAll(queryString, removeKeys);
    ReparseRemoved(queryString, removeKeys);
    AddPairsExtends(CreateState(Reconstruct(t)), addPairs);
  }

  /**
   * Adding one valid pair under a removed key: the result is the surviving pairs followed
   * by `key=value`, or `key=value` alone when nothing survived.
   */
  lemma RemoveAllAndAddOne(queryString: string, removeKeys: seq<string>, key: string, value: string)
    requires HasAtLeastOneKeyValuePair(Some(queryString))
    requires key in removeKeys && !IsBlank(key) && !IsBlank(value)
    ensures var t := RemovedAll(queryString, Some(removeKeys));
      RemoveAllAndAdd(Some(queryString), Some(removeKeys), Some([[key, value]])) ==
        Ok(if Ordered(t) == [] then key + "=" + value else Reconstruct(t) + "&" + key + "=" + value)
  {
    var t := RemovedAll(queryString, Some(removeKeys));
    if Ordered(t) == [] {
      OfRejectsNullAndEmpty();
      assert ValidPairs([[key, value]]) == [KeyValue(key, value, false)];
    } else {
      ReparseRemoved(queryString, Some(removeKeys));
      RemovedKeyAbsent(queryString, removeKeys, key);
      AddSinglePair(CreateState(Reconstruct(t)), key, value);
      AddOneAbsentKey(CreateState(Reconstruct(t)), key, value);
    }
  }

  /** A removed key has no values once the rest is written and parsed again. */
  lemma RemovedKeyAbsent(queryString: string, removeKeys: seq<string>, key: string)
    requires key in removeKeys
    requires Ordered(RemovedAll(queryString, Some(removeKeys))) != []
    ensures GetAllValues(CreateState(Reconstruct(RemovedAll(queryString, Some(removeKeys)))), key) == []
  {
    var t := RemovedAll(queryString, Some(removeKeys));
    ReparseRemoved(queryString, Some(removeKeys));
    OrderedSpec(t);
    ReconstructCreateState(queryString);
    RemoveAllLive(CreateState(queryString), removeKeys);
    forall i | 0 <= i < |Ordered(t)|
      ensures Ordered(t)[i].keyValue.key != key
    {
      assert Ordered(t)[i] in LiveEntries(t);
    }
    NoValuesOfAbsentKey(KeyValues(Ordered(t)), key);
    GetValuesCreateState(Reconstruct(t), key);
  }

  /** A valid pair under a key the state does not have is written after everything else. */
  lemma AddOneAbsentKey(u: State, key: string, value: string)
    requires WellFormed(u) && Ordered(u) != [] && GetAllValues(u, key) == []
    ensures WellFormed(AddKeyValue(u, KeyValue(key, value, false)))
    ensures Reconstruct(AddKeyValue(u, KeyValue(key, value, false))) == Reconstruct(u) + "&" + key + "=" + value
  {
    var kv := KeyValue(key, value, false);
    AddKeyValueAppends(u, kv);
    ReconstructAppend(u, AddKeyValue(u, kv), KeyValueIndex(NextOverallIndex(u), kv));
  }

  /** Adding a one-pair list that `fromPair` accepts is adding that pair. */
  lemma AddSinglePair(u: State, key: string, value: string)
    requires !IsBlank(key) && !IsBlank(value)
    ensures AddPairs(u, [[key, value]]) == AddKeyValue(u, KeyValue(key, value, false))
  {
    assert FromPair([key, value]) == Some(KeyValue(key, value, false));
    assert AddPairs(u, [[key, value]]) == AddPairs(AddPair(u, [key, value]), []);
  }

  /** A key no pair carries has no values. */
  lemma {:induction false} NoValuesOfAbsentKey(kvs: seq<KeyValue>, key: string)
    requires forall i | 0 <= i < |kvs| :: kvs[i].key != key
    ensures ValuesOfKey(kvs, key) == []
    decreases |kvs|
  {
    if kvs != [] {
      NoValuesOfAbsentKey(kvs[..|kvs| - 1], key);
    }
  }

  // ---------------------------------------------------------------------------
  // removeNthAndAdd
  // ---------------------------------------------------------------------------

  /**
   * The `reduce` of `removeNthAndAdd` as written: each entry of the instruction map, in
   * the map's iteration order, runs `removeManyNth` on what the previous entry left, and
   * each of them parses that string again, even when nothing is left of it.
   */
  function RemoveEachAsWritten(acc: string, instructions: seq<(string, seq<int>)>): (r: Result<string>)
    ensures r.Err? ==> r.error == IllegalArgument
    decreases |instructions|
  {
    if instructions == [] then Ok(acc)
    else
      match RemoveManyNthOf(Some(acc), instructions[0].0, instructions[0].1)
      case Err(e) => Err(e)
      case Ok(next) => RemoveEachAsWritten(next, instructions[1..])
  }

  /** The `reduce` as intended: once nothing is left, the remaining removals have nothing to do. */
  function RemoveEach(acc: string, instructions: seq<(string, seq<int>)>): (r: Result<string>)
    ensures r.Err? ==> r.error == IllegalArgument
    decreases |instructions|
  {
    if instructions == [] || acc == [] then Ok(acc)
    else
      match RemoveManyNthOf(Some(acc), instructions[0].0, instructions[0].1)
      case Err(e) => Err(e)
      case Ok(next) => RemoveEach(next, instructions[1..])
  }

  /**
   * `removeNthAndAdd` as written: a `null` or empty query string gives the empty string,
   * `null` instructions or pairs give the query string untouched, and otherwise the
   * removals run outside the `try` that adds the pairs.
   */
  function RemoveNthAndAddAsWritten(queryString: Option<string>, instructions: Option<seq<(string, seq<int>)>>,
                                    addPairs: Option<seq<seq<string>>>): (r: Result<string>)
    ensures queryString.None? || queryString.value == [] ==> r == Ok([])
    ensures queryString.Some? && queryString.value != [] && (instructions.None? || addPairs.None?) ==>
      r == Ok(queryString.value)
    ensures r.Err? ==> r.error == IllegalArgument
  {
    if queryString.None? || queryString.value == [] then Ok([])
    else if instructions.None? || addPairs.None? then Ok(queryString.value)
    else
      match RemoveEachAsWritten(queryString.value, instructions.value)
      case Err(e) => Err(e)
      case Ok(afterRemoval) => AddAfterRemoval(afterRemoval, addPairs)
  }

  /** `removeNthAndAdd` with the removals of the corrected `reduce`. */
  function RemoveNthAndAdd(queryString: Option<string>, instructions: Option<seq<(string, seq<int>)>>,
                           addPairs: Option<seq<seq<string>>>): (r: Result<string>)
    ensures queryString.None? || queryString.value == [] ==> r == Ok([])
    ensures queryString.Some? && queryString.value != [] && (instructions.None? || addPairs.None?) ==>
      r == Ok(queryString.value)
    ensures r.Err? ==> r.error == IllegalArgument
  {
    if queryString.None? || queryString.value == [] then Ok([])
    else if instructions.None? || addPairs.None? then Ok(queryString.value)
    else
      match RemoveEach(queryString.value, instructions.value)
      case Err(e) => Err(e)
      case Ok(afterRemoval) => AddAfterRemoval(afterRemoval, addPairs)
  }

  /** What one removal leaves of a valid query string is empty or valid again. */
  lemma RemoveManyNthReparses(queryString: string, key: string, relativeIndexes: seq<int>)
    requires HasAtLeastOneKeyValuePair(Some(queryString))
    ensures var r := RemoveManyNthOf(Some(queryString), key, relativeIndexes);
      r.Ok? && (r.value == [] || HasAtLeastOneKeyValuePair(Some(r.value)))
  {
    var s := CreateState(queryString);
    CreateStateCanonical(queryString);
    RemoveManyNthLive(s, key, relativeIndexes);
    var t := RemoveManyNth(s, key, relativeIndexes);
    assert AllCanonical(t);
    ReconstructReparses(t);
  }

  /** From a valid query string the corrected removals always succeed, leaving an empty or valid string. */
  lemma {:induction false} RemoveEachReparses(acc: string, instructions: seq<(string, seq<int>)>)
    requires acc == [] || HasAtLeastOneKeyValuePair(Some(acc))
    ensures RemoveEach(acc, instructions).Ok?
    ensures var after := RemoveEach(acc, instructions).value;
      after == [] || HasAtLeastOneKeyValuePair(Some(after))
    decreases |instructions|
  {
    if instructions != [] && acc != [] {
      RemoveManyNthReparses(acc, instructions[0].0, instructions[0].1);
      RemoveEachReparses(RemoveManyNthOf(Some(acc), instructions[0].0, instructions[0].1).value, instructions[1..]);
    }
  }

  /** The corrected `removeNthAndAdd` never fails on a valid query string. */
  lemma RemoveNthAndAddSucceeds(queryString: string, instructions: Option<seq<(string, seq<int>)>>,
                                addPairs: Option<seq<seq<string>>>)
    requires HasAtLeastOneKeyValuePair(Some(queryString))
    ensures RemoveNthAndAdd(Some(queryString), instructions, addPairs).Ok?
  {
    if queryString != [] && instructions.Some? && addPairs.Some? {
      RemoveEachReparses(queryString, instructions.value);
    }
  }

  /** When the removals leave nothing, the result is exactly `toQueryString` of the new pairs. */
  lemma RemoveNthAndAddEmptied(queryString: string, instructions: seq<(string, seq<int>)>,
                               addPairs: Option<seq<seq<string>>>)
    requires queryString != [] && addPairs.Some?
    requires RemoveEach(queryString, instructions) == Ok([])
    ensures RemoveNthAndAdd(Some(queryString), Some(instructions), addPairs) == ToQueryString(addPairs)
  {
    OfRejectsNullAndEmpty();
  }

  /**
   * The as-written `reduce` fails once a removal leaves nothing before the last
   * instruction: the next step parses the empty string. The corrected one gives the
   * new pairs on their own, as the `catch` intends.
   */
  lemma RemoveNthAndAddAsWrittenFails(queryString: string, instructions: seq<(string, seq<int>)>,
                                      addPairs: seq<seq<string>>)
    requires queryString != [] && |instructions| >= 2
    requires RemoveManyNthOf(Some(queryString), instructions[0].0, instructions[0].1) == Ok([])
    ensures RemoveNthAndAddAsWritten(Some(queryString), Some(instructions), Some(addPairs)) == Err(IllegalArgument)
    ensures RemoveNthAndAdd(Some(queryString), Some(instructions), Some(addPairs)) == ToQueryString(Some(addPairs))
  {
    OfRejectsNullAndEmpty();
    var rest := instructions[1..];
    assert RemoveManyNthOf(Some([]), rest[0].0, rest[0].1) == Err(IllegalArgument);
    assert RemoveEachAsWritten([], rest) == Err(IllegalArgument);
    assert RemoveEachAsWritten(queryString, instructions) == RemoveEachAsWritten([], rest);
    assert RemoveEach([], rest) == Ok([]);
  }

  /** The query string of a single canonical pair parses into that pair. */
  lemma SinglePairParses(key: string, value: string)
    requires NoneIn(key, {'&', '='}) && NoneIn(value, {'&', '='}) && !IsBlank(key) && !IsBlank(value)
    ensures HasAtLeastOneKeyValuePair(Some(key + "=" + value))
    ensures Parsed(key + "=" + value) == [KeyValue(key, value, false)]
  {
    var kv := KeyValue(key, value, false);
    CanonicalRoundTrip([kv]);
    assert Join(RenderAll([kv]), "&") == key + "=" + value;
  }

  lemma CollectOne(kv: KeyValue)
    ensures Collect([kv]) == map[kv.key := [KeyValueIndex(0, kv)]]
  {
    assert [kv][..0] == [];
  }

  /** Deleting the only occurrence of the only key leaves nothing to write out. */
  lemma DeleteOnlyOccurrence(e: KeyValueIndex)
    requires !e.keyValue.deleted && e.overallIndex >= 0
    ensures var t := RemoveManyNth(map[e.keyValue.key := [e]], e.keyValue.key, [0]);
      WellFormed(t) && Reconstruct(t) == []
  {
    var k := e.keyValue.key;
    var s := map[k := [e]];
    var t := RemoveManyNth(s, k, [0]);
    assert (set i | i in [0]) == {0};
    assert DeleteWhere([e], {0}) == [Delete(e)];
    assert t == map[k := [Delete(e)]];
    assert LiveEntries(t) == {};
    NothingLive(t);
  }

  /** Removing the only occurrence of the only pair leaves nothing. */
  lemma RemoveOnlyPair(key: string, value: string)
    requires NoneIn(key, {'&', '='}) && NoneIn(value, {'&', '='}) && !IsBlank(key) && !IsBlank(value)
    ensures RemoveManyNthOf(Some(key + "=" + value), key, [0]) == Ok([])
  {
    var kv := KeyValue(key, value, false);
    SinglePairParses(key, value);
    CollectOne(kv);
    DeleteOnlyOccurrence(KeyValueIndex(0, kv));
  }

  /** A one-pair list that `fromPair` accepts gives that pair written out. */
  lemma ToQueryStringOnePair(key: string, value: string)
    requires !IsBlank(key) && !IsBlank(value)
    ensures ToQueryString(Some([[key, value]])) == Ok(key + "=" + value)
  {
    assert ValidPairs([[key, value]]) == [KeyValue(key, value, false)];
  }

  /**
   * Removing the only pair first and then anything else (`a=1` with the instructions
   * `{a: [0], b: [0]}` and the pair `c=2`, say): as written this throws, while the
   * intended result is the new pair on its own.
   */
  lemma RemoveNthAndAddOnlyPair(key: string, value: string, next: (string, seq<int>), newKey: string, newValue: string)
    requires NoneIn(key, {'&', '='}) && NoneIn(value, {'&', '='}) && !IsBlank(key) && !IsBlank(value)
    requires !IsBlank(newKey) && !IsBlank(newValue)
    ensures var q := Some(key + "=" + value);
      var instructions := Some([(key, [0]), next]);
      && RemoveNthAndAddAsWritten(q, instructions, Some([[newKey, newValue]])) == Err(IllegalArgument)
      && RemoveNthAndAdd(q, instructions, Some([[newKey, newValue]])) == Ok(newKey + "=" + newValue)
  {
    RemoveOnlyPair(key, value);
    ToQueryStringOnePair(newKey, newValue);
    RemoveNthAndAddAsWrittenFails(key + "=" + value, [(key, [0]), next], [[newKey, newValue]]);
  }

  // ---------------------------------------------------------------------------
  // Paging (incrementPage, decrementPage)
  // ---------------------------------------------------------------------------

  predicate AnyPage(current: int)
  {
    true
  }

  predicate PositivePage(current: int)
  {
    current > 0
  }

  function BelowBound(maxBound: int): int -> bool
  {
    (current: int) => current < maxBound
  }

  /** `incrementPage`: the first `page` value gets one added, whatever it is. */
  function IncrementPage(queryString: Option<string>): (r: Result<string>)
    ensures r.Ok? <==> HasAtLeastOneKeyValuePair(queryString)
    ensures r.Err? ==> r.error == IllegalArgument
  {
    AdjustNumericValueByOf(queryString, "page", [0], 1, AnyPage)
  }

  /** `incrementPage(queryString, maxBound)`: one is added only to a first `page` value below the bound. */
  function IncrementPageBelow(queryString: Option<string>, maxBound: int): (r: Result<string>)
    ensures r.Ok? <==> HasAtLeastOneKeyValuePair(queryString)
    ensures r.Err? ==> r.error == IllegalArgument
  {
    AdjustNumericValueByOf(queryString, "page", [0], 1, BelowBound(maxBound))
  }

  /** `decrementPage`: one is taken only from a first `page` value above zero. */
  function DecrementPage(queryString: Option<string>): (r: Result<string>)
    ensures r.Ok? <==> HasAtLeastOneKeyValuePair(queryString)
    ensures r.Err? ==> r.error == IllegalArgument
  {
    AdjustNumericValueByOf(queryString, "page", [0], -1, PositivePage)
  }

  /**
   * The first `page` value after `decrementPage`'s adjustment of a parsed state: one less
   * when it was a positive number, unchanged otherwise, so a page that was not negative
   * does not become negative and page 0 stays 0.
   */
  lemma DecrementPageValue(s: State)
    requires WellFormed(s) && "page" in s && s["page"] != []
    ensures var before := s["page"][0].keyValue.value;
      var after := AdjustNumericValueBy(s, "page", [0], -1, PositivePage)["page"][0].keyValue.value;
      && (ParseInt(before).Some? && ParseInt(before).value > 0 ==> ParseInt(after) == Some(ParseInt(before).value - 1))
      && (ParseInt(before).None? || ParseInt(before).value <= 0 ==> after == before)
      && (ParseInt(before).Some? && ParseInt(before).value >= 0 ==> ParseInt(after).Some? && ParseInt(after).value >= 0)
  {
    FirstAdjusted(s, "page", -1, PositivePage);
    AdjustValueEffect(s["page"][0], -1, PositivePage);
  }

  /**
   * The first `page` value after the bounded increment: one more when it was a number
   * below the bound, unchanged otherwise, so a page at or below the bound stays there.
   */
  lemma IncrementPageBelowValue(s: State, maxBound: int)
    requires WellFormed(s) && "page" in s && s["page"] != [] && IsInt32(maxBound)
    ensures var before := s["page"][0].keyValue.value;
      var after := AdjustNumericValueBy(s, "page", [0], 1, BelowBound(maxBound))["page"][0].keyValue.value;
      && (ParseInt(before).Some? && ParseInt(before).value < maxBound ==> ParseInt(after) == Some(ParseInt(before).value + 1))
      && (ParseInt(before).None? || ParseInt(before).value >= maxBound ==> after == before)
      && (ParseInt(before).Some? && ParseInt(before).value <= maxBound ==> ParseInt(after).Some? && ParseInt(after).value <= maxBound)
  {
    FirstAdjusted(s, "page", 1, BelowBound(maxBound));
    AdjustValueEffect(s["page"][0], 1, BelowBound(maxBound));
  }

  /**
   * The first `page` value after the unbounded increment: one more, with Java's 32-bit
   * wrap-around, so the largest `int` becomes the smallest.
   */
  lemma IncrementPageValue(s: State)
    requires WellFormed(s) && "page" in s && s["page"] != []
    ensures var before := s["page"][0].keyValue.value;
      var after := AdjustNumericValueBy(s, "page", [0], 1, AnyPage)["page"][0].keyValue.value;
      && (ParseInt(before).Some? ==> ParseInt(after) == Some(Wrap32(ParseInt(before).value + 1)))
      && (ParseInt(before) == Some(MaxInt) ==> ParseInt(after) == Some(MinInt))
      && (ParseInt(before).None? ==> after == before)
  {
    FirstAdjusted(s, "page", 1, AnyPage);
    AdjustValueEffect(s["page"][0], 1, AnyPage);
    WrapPastMax();
  }

  /** Adjusting relative index 0 of a key adjusts its first occurrence. */
  lemma FirstAdjusted(s: State, key: string, delta: int, accept: int -> bool)
    requires key in s && s[key] != []
    ensures var t := AdjustNumericValueBy(s, key, [0], delta, accept);
      key in t && |t[key]| == |s[key]| && t[key][0] == AdjustValue(s[key][0], delta, accept)
  {
  }

  // ---------------------------------------------------------------------------
  // Sort directions (setSortDirectionAsc/Desc, toggleSortDefaultAsc/Desc)
  // ---------------------------------------------------------------------------

  function ConstantDirection(direction: SortDirection): SortDirection -> SortDirection
  {
    (current: SortDirection) => direction
  }

  /** The private `setSortDirection`: NONE is refused before anything is parsed. */
  function SetSortDirectionTo(queryString: Option<string>, field: Option<string>, direction: SortDirection): (r: Result<string>)
    ensures direction == NONE ==> r == Err(IllegalArgument)
    ensures direction != NONE ==> (r.Ok? <==> HasAtLeastOneKeyValuePair(queryString))
    ensures r.Err? ==> r.error == IllegalArgument
  {
    if direction == NONE then Err(IllegalArgument)
    else SetSortDirectionOf(queryString, field, ConstantDirection(direction))
  }

  function SetSortDirectionAsc(queryString: Option<string>, field: Option<string>): (r: Result<string>)
    ensures r.Ok? <==> HasAtLeastOneKeyValuePair(queryString)
  {
    SetSortDirectionTo(queryString, field, ASC)
  }

  function SetSortDirectionDesc(queryString: Option<string>, field: Option<string>): (r: Result<string>)
    ensures r.Ok? <==> HasAtLeastOneKeyValuePair(queryString)
  {
    SetSortDirectionTo(queryString, field, DESC)
  }

  /** `toggleSortDefaultAsc` and `toggleSortDefaultDesc`, by their default direction. */
  function ToggleSortOf(queryString: Option<string>, field: Option<string>, defaultDirection: SortDirection): (r: Result<string>)
    ensures r.Ok? <==> HasAtLeastOneKeyValuePair(queryString)
    ensures r.Err? ==> r.error == IllegalArgument
  {
    SetSortDirectionOf(queryString, field, (d: SortDirection) => d.Toggle(defaultDirection))
  }

  // ---------------------------------------------------------------------------
  // Reading the sort (isFieldSorted, getCurrentSortDirection, valueWhenMatchesSort)
  // ---------------------------------------------------------------------------

  /** `isFieldSorted`: some `sort` value's field, as `extractSortField` reads it, is the field. */
  function IsFieldSorted(queryString: Option<string>, field: Option<string>): (r: Result<bool>)
    ensures r.Ok? <==> HasAtLeastOneKeyValuePair(queryString)
    ensures r.Err? ==> r.error == IllegalArgument
  {
    match AllValuesOf(queryString, "sort")
    case Err(e) => Err(e)
    case Ok(values) =>
      Ok(field.Some? && exists i | 0 <= i < |values| :: ExtractSortField(Some(values[i])) == field.value)
  }

  /** The field each `sort` value names, in order. */
  function SortFields(values: seq<string>): (r: seq<string>)
    ensures |r| == |values|
    ensures forall i | 0 <= i < |values| :: r[i] == ExtractSortField(Some(values[i]))
  {
    seq(|values|, i requires 0 <= i < |values| => ExtractSortField(Some(values[i])))
  }

  /** The position of the first occurrence of `x`. */
  function IndexOf(xs: seq<string>, x: string): (r: Option<nat>)
    ensures r.Some? ==> r.value < |xs| && xs[r.value] == x
    ensures r.Some? ==> forall j | 0 <= j < r.value :: xs[j] != x
    ensures r.None? ==> forall j | 0 <= j < |xs| :: xs[j] != x
    decreases |xs|
  {
    if xs == [] then None
    else if xs[0] == x then Some(0)
    else
      match IndexOf(xs[1..], x)
      case None => None
      case Some(i) => Some(i + 1)
  }

  /** The position of the first `sort` value naming the field. */
  function FirstSorted(values: seq<string>, field: string): (r: Option<nat>)
    ensures r.Some? ==> r.value < |values| && ExtractSortField(Some(values[r.value])) == field
    ensures r.Some? ==> forall j | 0 <= j < r.value :: ExtractSortField(Some(values[j])) != field
    ensures r.None? ==> forall j | 0 <= j < |values| :: ExtractSortField(Some(values[j])) != field
  {
    IndexOf(SortFields(values), field)
  }

  /** Past a first value that does not name the field, the search continues with the rest. */
  lemma FirstSortedTail(values: seq<string>, field: string)
    requires values != [] && ExtractSortField(Some(values[0])) != field
    ensures FirstSorted(values, field) ==
      match FirstSorted(values[1..], field) case None => None case Some(i) => Some(i + 1)
  {
    assert SortFields(values)[1..] == SortFields(values[1..]);
  }

  /** The direction a `sort` value states: its second token, or the default when it has none. */
  function StatedDirection(value: string, defaultDirection: SortDirection): string
  {
    var tokens := Split(value, {','});
    if |tokens| >= 2 then tokens[1] else defaultDirection.Value()
  }

  /** The direction of the first `sort` value naming the field, or nothing when none does. */
  function CurrentSortDirection(values: seq<string>, field: Option<string>, defaultDirection: SortDirection): (r: Option<string>)
  {
    if field.None? then None
    else
      match FirstSorted(values, field.value)
      case None => None
      case Some(i) => Some(StatedDirection(values[i], defaultDirection))
  }

  /**
   * The stream of `getCurrentSortDirection` as written: each value is split on commas
   * and its first token compared with the field, which is out of bounds for a value the
   * split leaves no token of (one made only of commas).
   */
  function CurrentSortDirectionAsWritten(values: seq<string>, field: Option<string>,
                                         defaultDirection: SortDirection): (r: Result<Option<string>>)
    ensures r.Err? ==> r.error == IndexOutOfBounds
    decreases |values|
  {
    if values == [] then Ok(None)
    else
      var tokens := Split(values[0], {','});
      if |tokens| == 0 then Err(IndexOutOfBounds)
      else if field.Some? && tokens[0] == field.value then
        Ok(Some(if |tokens| == 1 then defaultDirection.Value() else tokens[1]))
      else CurrentSortDirectionAsWritten(values[1..], field, defaultDirection)
  }

  function GetCurrentSortDirectionAsWritten(queryString: Option<string>, field: Option<string>,
                                            defaultDirection: SortDirection): (r: Result<Option<string>>)
    ensures !HasAtLeastOneKeyValuePair(queryString) ==> r == Err(IllegalArgument)
  {
    match AllValuesOf(queryString, "sort")
    case Err(e) => Err(e)
    case Ok(values) => CurrentSortDirectionAsWritten(values, field, defaultDirection)
  }

  /** `getCurrentSortDirection`, reading the field of every value as `extractSortField` does. */
  function GetCurrentSortDirection(queryString: Option<string>, field: Option<string>,
                                   defaultDirection: SortDirection): (r: Result<Option<string>>)
    ensures r.Ok? <==> HasAtLeastOneKeyValuePair(queryString)
    ensures r.Err? ==> r.error == IllegalArgument
  {
    match AllValuesOf(queryString, "sort")
    case Err(e) => Err(e)
    case Ok(values) => Ok(CurrentSortDirection(values, field, defaultDirection))
  }

  /** A value names a field, for the stream as written, when its first token is the field. */
  predicate FailsBeforeMatch(values: seq<string>, field: Option<string>)
    decreases |values|
  {
    values != [] &&
    (Split(values[0], {','}) == [] ||
     (!(field.Some? && ExtractSortField(Some(values[0])) == field.value) && FailsBeforeMatch(values[1..], field)))
  }

  /**
   * The stream as written fails exactly when a value made only of commas comes before
   * any value naming the field; otherwise it gives the corrected direction.
   */
  lemma {:induction false} CurrentSortDirectionAsWrittenAgrees(values: seq<string>, field: Option<string>,
                                                               defaultDirection: SortDirection)
    ensures CurrentSortDirectionAsWritten(values, field, defaultDirection) ==
      if FailsBeforeMatch(values, field) then Err(IndexOutOfBounds)
      else Ok(CurrentSortDirection(values, field, defaultDirection))
    decreases |values|
  {
    if values != [] {
      var tokens := Split(values[0], {','});
      SplitHead(values[0], {','});
      ExtractSortFieldBeforeComma(values[0]);
      CurrentSortDirectionAsWrittenAgrees(values[1..], field, defaultDirection);
      if |tokens| > 0 && !(field.Some? && tokens[0] == field.value) && field.Some? {
        FirstSortedTail(values, field.value);
      }
    }
  }

  /** A value of commas alone leaves no token. */
  lemma CommaLeavesNoToken()
    ensures Split(",", {','}) == []
  {
    assert Pieces(",", {','}) == ["", ""];
  }

  /**
   * `sort=,` (a value of commas alone) makes the stream as written fail, while the
   * corrected reading finds no direction for a non-empty field.
   */
  lemma GetCurrentSortDirectionAsWrittenFails(value: string, field: string, defaultDirection: SortDirection)
    requires value != [] && Split(value, {','}) == [] && NoneIn(value, {'&', '='}) && field != []
    ensures GetCurrentSortDirectionAsWritten(Some("sort" + "=" + value), Some(field), defaultDirection) == Err(IndexOutOfBounds)
    ensures GetCurrentSortDirection(Some("sort" + "=" + value), Some(field), defaultDirection) == Ok(None)
  {
    OnlySortValue(value);
    CommasNameNoField(value, field, defaultDirection);
  }

  /** The query string `sort=value` has the one `sort` value `value`. */
  lemma OnlySortValue(value: string)
    requires value != [] && Split(value, {','}) == [] && NoneIn(value, {'&', '='})
    ensures AllValuesOf(Some("sort" + "=" + value), "sort") == Ok([value])
  {
    SortPairParses(value);
    SingleValueOfKey("sort", value);
  }

  lemma SortPairParses(value: string)
    requires value != [] && Split(value, {','}) == [] && NoneIn(value, {'&', '='})
    ensures HasAtLeastOneKeyValuePair(Some("sort" + "=" + value))
    ensures Parsed("sort" + "=" + value) == [KeyValue("sort", value, false)]
  {
    SortKeyPlain();
    CommaValueNotBlank(value);
    SinglePairParses("sort", value);
  }

  /** The `sort` key has no separator and is not blank. */
  lemma SortKeyPlain()
    ensures NoneIn("sort", {'&', '='}) && !IsBlank("sort")
  {
    SortKeyNotBlank();
    var key := "sort";
    assert forall i | 0 <= i < |key| :: key[i] in {'s', 'o', 'r', 't'};
  }

  lemma CommaValueNotBlank(value: string)
    requires value != [] && Split(value, {','}) == []
    ensures !IsBlank(value)
  {
    NoneInSplitEmpty(value);
    BlankIff(value);
  }

  lemma SingleValueOfKey(key: string, value: string)
    ensures ValuesOfKey([KeyValue(key, value, false)], key) == [value]
  {
    var kvs := [KeyValue(key, value, false)];
    assert kvs[..0] == [];
  }

  /** A single value of commas alone fails the stream as written and names no field. */
  lemma CommasNameNoField(value: string, field: string, defaultDirection: SortDirection)
    requires value != [] && Split(value, {','}) == [] && field != []
    ensures CurrentSortDirectionAsWritten([value], Some(field), defaultDirection) == Err(IndexOutOfBounds)
    ensures CurrentSortDirection([value], Some(field), defaultDirection) == None
  {
    NoneInSplitEmpty(value);
    ExtractSortFieldBeforeComma(value);
    assert BeforeFirst(value, {','}) == [] by {
      SplitHead(value, {','});
    }
    assert [value][1..] == [];
  }

  /** Whether the first character of a text that splits into nothing is a comma. */
  lemma NoneInSplitEmpty(value: string)
    requires value != [] && Split(value, {','}) == []
    ensures value[0] == ','
  {
    SplitHead(value, {','});
    assert BeforeFirst(value, {','}) == [];
  }

  /** A field is sorted exactly when its current direction can be read. */
  lemma SortedIffDirection(queryString: string, field: Option<string>, defaultDirection: SortDirection)
    requires HasAtLeastOneKeyValuePair(Some(queryString))
    ensures IsFieldSorted(Some(queryString), field) ==
      Ok(GetCurrentSortDirection(Some(queryString), field, defaultDirection).value.Some?)
  {
  }

  /**
   * The first value naming the field written by `withSortField` reads back as the
   * direction written, or as the default when none was.
   */
  lemma CurrentSortDirectionReadsBack(values: seq<string>, field: string, written: SortDirection,
                                      defaultDirection: SortDirection, i: nat)
    requires field != [] && NoneIn(field, {','})
    requires FirstSorted(values, field) == Some(i) && values[i] == written.WithSortField(field)
    ensures CurrentSortDirection(values, Some(field), defaultDirection) ==
      Some(if written == NONE then defaultDirection.Value() else written.Value())
  {
    SplitWithSortField(written, field);
  }

  /**
   * `valueWhenMatchesSort` with the corrected reading: the missing value when the field
   * is not sorted, the matching one when its direction is the given one, the non-matching
   * one otherwise.
   */
  function ValueWhenMatchesSort(queryString: Option<string>, missingValue: string, matchingValue: string,
                                nonMatchingValue: string, direction: SortDirection, field: Option<string>): (r: Result<string>)
    ensures r.Ok? <==> HasAtLeastOneKeyValuePair(queryString)
    ensures r.Ok? ==> r.value in {missingValue, matchingValue, nonMatchingValue}
  {
    match GetCurrentSortDirection(queryString, field, direction)
    case Err(e) => Err(e)
    case Ok(None) => Ok(missingValue)
    case Ok(Some(current)) => Ok(if current == direction.Value() then matchingValue else nonMatchingValue)
  }

  /**
   * For the first `sort` value naming the field, written with `withSortField`, the
   * matching value is chosen exactly when it was written with the given direction or
   * with none (the default is the given direction); an unsorted field gives the missing value.
   */
  lemma ValueWhenMatchesSortCases(queryString: string, missingValue: string, matchingValue: string,
                                  nonMatchingValue: string, direction: SortDirection, field: string,
                                  written: SortDirection, i: nat)
    requires HasAtLeastOneKeyValuePair(Some(queryString))
    requires field != [] && NoneIn(field, {','})
    requires var values := ValuesOfKey(Parsed(queryString), "sort");
      FirstSorted(values, field) == Some(i) && values[i] == written.WithSortField(field)
    ensures ValueWhenMatchesSort(Some(queryString), missingValue, matchingValue, nonMatchingValue, direction, Some(field)) ==
      Ok(if written == direction || written == NONE then matchingValue else nonMatchingValue)
  {
    CurrentDirectionOfQuery(queryString, field, written, direction, i);
    if written != direction && written != NONE {
      assert written.Value() != direction.Value() by {
        FromValue(written);
        FromValue(direction);
      }
    }
  }

  /** The query-string form of `CurrentSortDirectionReadsBack`. */
  lemma CurrentDirectionOfQuery(queryString: string, field: string, written: SortDirection,
                                defaultDirection: SortDirection, i: nat)
    requires HasAtLeastOneKeyValuePair(Some(queryString))
    requires field != [] && NoneIn(field, {','})
    requires var values := ValuesOfKey(Parsed(queryString), "sort");
      FirstSorted(values, field) == Some(i) && values[i] == written.WithSortField(field)
    ensures GetCurrentSortDirection(Some(queryString), Some(field), defaultDirection) ==
      Ok(Some(if written == NONE then defaultDirection.Value() else written.Value()))
  {
    CurrentSortDirectionReadsBack(ValuesOfKey(Parsed(queryString), "sort"), field, written, defaultDirection, i);
  }

  lemma ValueWhenMatchesSortMissing(queryString: string, missingValue: string, matchingValue: string,
                                    nonMatchingValue: string, direction: SortDirection, field: Option<string>)
    requires IsFieldSorted(Some(queryString), field) == Ok(false)
    ensures ValueWhenMatchesSort(Some(queryString), missingValue, matchingValue, nonMatchingValue, direction, field) ==
      Ok(missingValue)
  {
    SortedIffDirection(queryString, field, direction);
  }

  // ---------------------------------------------------------------------------
  // fieldSorter, createNewSort
  // ---------------------------------------------------------------------------

  /** `addAll(queryString, pairs)`. */
  function AddAllOf(queryString: Option<string>, pairs: Option<seq<seq<string>>>): (r: Result<string>)
    ensures r.Ok? <==> HasAtLeastOneKeyValuePair(queryString)
    ensures r.Err? ==> r.error == IllegalArgument
  {
    match Of(queryString)
    case Err(e) => Err(e)
    case Ok(s) =>
      ReconstructCreateState(queryString.value);
      AddPairsKeeps(s, if pairs.None? then [] else pairs.value);
      Ok(Reconstruct(AddAll(s, pairs)))
  }

  /** The `sort` value `fieldSorter` writes: the field, a comma and the default direction. */
  function SortValue(field: string, defaultDirection: SortDirection): string
  {
    field + "," + defaultDirection.Value()
  }

  /** The single new pair `fieldSorter` adds. */
  function SortPair(field: string, defaultDirection: SortDirection): seq<seq<string>>
  {
    [["sort", SortValue(field, defaultDirection)]]
  }

  /**
   * `fieldSorter` as written: a `null` or blank query string goes to `addAll`, which
   * parses it and throws.
   */
  function FieldSorterAsWritten(queryString: Option<string>, field: string, defaultDirection: SortDirection): (r: Result<string>)
    ensures r.Err? ==> r.error == IllegalArgument
  {
    if queryString.None? || IsBlank(queryString.value) then AddAllOf(queryString, Some(SortPair(field, defaultDirection)))
    else SortExisting(queryString, field, defaultDirection)
  }

  /**
   * `fieldSorter` on a query string that is not blank: a sorted field is toggled (NONE
   * falls through the `switch`), anything else replaces every `sort` pair with the new one.
   */
  function SortExisting(queryString: Option<string>, field: string, defaultDirection: SortDirection): (r: Result<string>)
    ensures r.Ok? <==> HasAtLeastOneKeyValuePair(queryString)
    ensures r.Err? ==> r.error == IllegalArgument
  {
    match IsFieldSorted(queryString, Some(field))
    case Err(e) => Err(e)
    case Ok(sorted) =>
      if sorted && defaultDirection != NONE then ToggleSortOf(queryString, Some(field), defaultDirection)
      else RemoveAllAndAdd(queryString, Some(["sort"]), Some(SortPair(field, defaultDirection)))
  }

  /** `fieldSorter` with a blank query string giving the new `sort` pair alone. */
  function FieldSorter(queryString: Option<string>, field: string, defaultDirection: SortDirection): (r: Result<string>)
    ensures r.Err? ==> r.error == IllegalArgument && queryString.Some? && !HasAtLeastOneKeyValuePair(queryString)
  {
    if queryString.None? || IsBlank(queryString.value) then ToQueryString(Some(SortPair(field, defaultDirection)))
    else SortExisting(queryString, field, defaultDirection)
  }

  function FieldSorterAsc(queryString: Option<string>, field: string): (r: Result<string>)
    ensures r.Err? ==> r.error == IllegalArgument
  {
    FieldSorter(queryString, field, ASC)
  }

  function FieldSorterDesc(queryString: Option<string>, field: string): (r: Result<string>)
    ensures r.Err? ==> r.error == IllegalArgument
  {
    FieldSorter(queryString, field, DESC)
  }

  /** A blank text has no `&` and no `=`, so it is never a query string. */
  lemma BlankIsNoQuery(text: string)
    requires IsBlank(text)
    ensures !HasAtLeastOneKeyValuePair(Some(text))
  {
    BlankHasNoSeparators(text);
    SplitOfPlain(text, {'&'});
    SplitOfPlain(text, {'='});
    assert !IsValidPair(text);
    assert [text][0] == text;
  }

  lemma BlankHasNoSeparators(text: string)
    requires IsBlank(text)
    ensures NoneIn(text, {'&'}) && NoneIn(text, {'='})
  {
    BlankIff(text);
  }

  /** As written, `fieldSorter` throws for every `null` or blank query string. */
  lemma FieldSorterAsWrittenBlank(queryString: Option<string>, field: string, defaultDirection: SortDirection)
    requires queryString.None? || IsBlank(queryString.value)
    ensures FieldSorterAsWritten(queryString, field, defaultDirection) == Err(IllegalArgument)
  {
    if queryString.Some? {
      BlankIsNoQuery(queryString.value);
    }
  }

  /** Corrected, a `null` or blank query string gives `sort=field,direction` alone. */
  lemma FieldSorterBlank(queryString: Option<string>, field: string, defaultDirection: SortDirection)
    requires queryString.None? || IsBlank(queryString.value)
    ensures FieldSorter(queryString, field, defaultDirection) == Ok("sort" + "=" + SortValue(field, defaultDirection))
  {
    SortValueNotBlank(field, defaultDirection);
    ToQueryStringOnePair("sort", SortValue(field, defaultDirection));
  }

  lemma SortKeyNotBlank()
    ensures !IsBlank("sort")
  {
    BlankIff("sort");
  }

  /** The `sort` key, and a value holding a comma, are not blank. */
  lemma SortValueNotBlank(field: string, defaultDirection: SortDirection)
    ensures !IsBlank("sort") && !IsBlank(SortValue(field, defaultDirection))
  {
    var value := SortValue(field, defaultDirection);
    SortKeyNotBlank();
    assert value[|field|] == ',';
    BlankIff(value);
  }

  /**
   * On a query string whose field is not sorted (or with no default direction), every
   * `sort` pair is removed and `sort=field,direction` is written after the pairs that remain.
   */
  lemma FieldSorterReplaces(queryString: string, field: string, defaultDirection: SortDirection)
    requires HasAtLeastOneKeyValuePair(Some(queryString)) && !IsBlank(queryString)
    requires IsFieldSorted(Some(queryString), Some(field)) == Ok(false) || defaultDirection == NONE
    ensures var t := RemovedAll(queryString, Some(["sort"]));
      var value := SortValue(field, defaultDirection);
      FieldSorter(Some(queryString), field, defaultDirection) ==
        Ok(if Ordered(t) == [] then "sort" + "=" + value else Reconstruct(t) + "&" + "sort" + "=" + value)
  {
    SortValueNotBlank(field, defaultDirection);
    RemoveAllAndAddOne(queryString, ["sort"], "sort", SortValue(field, defaultDirection));
  }

  /** On a query string whose field is sorted, with ASC or DESC, the field's direction is toggled. */
  lemma FieldSorterToggles(queryString: string, field: string, defaultDirection: SortDirection)
    requires !IsBlank(queryString) && IsFieldSorted(Some(queryString), Some(field)) == Ok(true)
    requires defaultDirection != NONE
    ensures FieldSorter(Some(queryString), field, defaultDirection) == ToggleSortOf(Some(queryString), Some(field), defaultDirection)
  {
  }

  /** The new `sort` pairs of `createNewSort`, one per `field,direction` text. */
  function SortPairs(fieldAndDirections: seq<string>): (r: seq<seq<string>>)
    ensures |r| == |fieldAndDirections|
    ensures forall i | 0 <= i < |r| :: r[i] == ["sort", fieldAndDirections[i]]
  {
    seq(|fieldAndDirections|, i requires 0 <= i < |fieldAndDirections| => ["sort", fieldAndDirections[i]])
  }

  /** `createNewSort`: every `sort` pair is replaced by the given ones. */
  function CreateNewSort(queryString: Option<string>, fieldAndDirections: seq<string>): (r: Result<string>)
    ensures r.Ok? <==> HasAtLeastOneKeyValuePair(queryString)
    ensures r.Err? ==> r.error == IllegalArgument
  {
    RemoveAllAndAdd(queryString, Some(["sort"]), Some(SortPairs(fieldAndDirections)))
  }

  /** A single new sort is written after the pairs that are not `sort` pairs. */
  lemma CreateNewSortOne(queryString: string, fieldAndDirection: string)
    requires HasAtLeastOneKeyValuePair(Some(queryString)) && !IsBlank(fieldAndDirection)
    ensures var t := RemovedAll(queryString, Some(["sort"]));
      CreateNewSort(Some(queryString), [fieldAndDirection]) ==
        Ok(if Ordered(t) == [] then "sort" + "=" + fieldAndDirection else Reconstruct(t) + "&" + "sort" + "=" + fieldAndDirection)
  {
    SortKeyNotBlank();
    assert SortPairs([fieldAndDirection]) == [["sort", fieldAndDirection]];
    RemoveAllAndAddOne(queryString, ["sort"], "sort", fieldAndDirection);
  }

  // ---------------------------------------------------------------------------
  // url
  // ---------------------------------------------------------------------------

  /** `url`: the request URI, followed by `?` and the query string when there is one. */
  function Url(requestUri: Option<string>, queryString: Option<string>): (r: Result<string>)
    ensures r.Err? <==> requestUri.None? || requestUri.value == []
    ensures r.Err? ==> r.error == IllegalArgument
  {
    if requestUri.None? || requestUri.value == [] then Err(IllegalArgument)
    else if queryString.Some? && queryString.value != [] then Ok(requestUri.value + "?" + queryString.value)
    else Ok(requestUri.value)
  }

  /**
   * For a URI without `?`, the URL splits back at its first `?` into the URI and the
   * query string; with no query string it is the URI itself.
   */
  lemma UrlParts(requestUri: string, queryString: Option<string>)
    requires requestUri != [] && NoneIn(requestUri, {'?'})
    ensures var u := Url(Some(requestUri), queryString).value;
      && BeforeFirst(u, {'?'}) == requestUri
      && (queryString.Some? && queryString.value != [] ==> u == requestUri + "?" + queryString.value && u[|requestUri| + 1..] == queryString.value)
      && (queryString.None? || queryString.value == [] ==> u == requestUri)
  {
    if queryString.Some? && queryString.value != [] {
      assert requestUri + "?" + queryString.value == requestUri + ("?" + queryString.value);
      BeforeFirstOfConcat(requestUri, "?" + queryString.value, {'?'});
    } else {
      BeforeFirstOfConcat(requestUri, [], {'?'});
      assert requestUri + [] == requestUri;
    }
  }
}
