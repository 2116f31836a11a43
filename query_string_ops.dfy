/**
 * The operations of a `QueryString` as functions from the old state to the new one,
 * and what each of them guarantees: which occurrences change, which are written out
 * afterwards, and that every state stays well formed.
 *
 * The `QueryString` class proves its in-place methods against these functions; the
 * helper layer composes them directly.
 */
module QueryStringOps {
  import opened Wrappers
  import opened JavaStrings
  import opened SortDirections
  import opened QueryStringState

  // ---------------------------------------------------------------------------
  // Reading values
  // ---------------------------------------------------------------------------

  function Values(es: seq<KeyValueIndex>): (r: seq<string>)
    ensures |r| == |es|
    ensures forall i | 0 <= i < |es| :: r[i] == es[i].keyValue.value
  {
    seq(|es|, i requires 0 <= i < |es| => es[i].keyValue.value)
  }

  /** `getAllValues`: the key's values in relative order (deleted ones included), or none. */
  function GetAllValues(s: State, key: string): seq<string>
  {
    if key !in s || s[key] == [] then [] else Values(s[key])
  }

  /** `getFirstValue`: the head of `getAllValues`, or `null` when there is none. */
  function GetFirstValue(s: State, key: string): (r: Option<string>)
    ensures r.Some? <==> GetAllValues(s, key) != []
    ensures r.Some? ==> r.value == GetAllValues(s, key)[0]
  {
    if key !in s || s[key] == [] then None else Some(s[key][0].keyValue.value)
  }

  /** The values of `key` among the pairs, in order of occurrence. */
  function ValuesOfKey(kvs: seq<KeyValue>, key: string): seq<string>
  {
    if kvs == [] then []
    else
      var last := kvs[|kvs| - 1];
      ValuesOfKey(kvs[..|kvs| - 1], key) + (if last.key == key then [last.value] else [])
  }

  lemma {:induction false} CollectValues(kvs: seq<KeyValue>, key: string)
    ensures GetAllValues(Collect(kvs), key) == ValuesOfKey(kvs, key)
  {
    if kvs != [] {
      var p := kvs[..|kvs| - 1];
      var e := KeyValueIndex(|kvs| - 1, kvs[|kvs| - 1]);
      CollectValues(p, key);
      MergeOldPositions(Collect(p), e);
      if e.keyValue.key == key {
        var old_ := if key in Collect(p) then Collect(p)[key] else [];
        assert Collect(kvs)[key] == old_ + [e];
        assert Values(old_ + [e]) == Values(old_) + [e.keyValue.value];
      }
    }
  }

  /**
   * After parsing, a key's values are listed in the order they occur in the query
   * string, and the first value is the first of them; an absent key has none.
   */
  lemma GetValuesCreateState(queryString: string, key: string)
    ensures GetAllValues(CreateState(queryString), key) == ValuesOfKey(Parsed(queryString), key)
    ensures GetFirstValue(CreateState(queryString), key) ==
      (if ValuesOfKey(Parsed(queryString), key) == [] then None else Some(ValuesOfKey(Parsed(queryString), key)[0]))
  {
    CollectValues(Parsed(queryString), key);
  }

  // ---------------------------------------------------------------------------
  // Changes that keep every key, position and overall index
  // ---------------------------------------------------------------------------

  /** Same length, and the same overall index and key at every position. */
  predicate SameShapeList(l1: seq<KeyValueIndex>, l2: seq<KeyValueIndex>)
  {
    |l1| == |l2| &&
    forall j | 0 <= j < |l1| :: l2[j].overallIndex == l1[j].overallIndex && l2[j].keyValue.key == l1[j].keyValue.key
  }

  /** The same keys, and every list keeps its shape: only values and deleted flags may differ. */
  predicate SameShape(s: State, t: State)
  {
    s.Keys == t.Keys && forall k | k in s :: SameShapeList(s[k], t[k])
  }

  /** A change that keeps the shape keeps the state well formed. */
  lemma SameShapeWellFormed(s: State, t: State)
    requires WellFormed(s) && SameShape(s, t)
    ensures WellFormed(t)
  {
    forall k1, j1, k2, j2 |
       k1 in t && 0 <= j1 < |t[k1]| && k2 in t && 0 <= j2 < |t[k2]| &&
       t[k1][j1].overallIndex == t[k2][j2].overallIndex
      ensures k1 == k2 && j1 == j2
    {
      assert SameShapeList(s[k1], t[k1]) && SameShapeList(s[k2], t[k2]);
    }
    forall k, j | k in t && 0 <= j < |t[k]|
      ensures t[k][j].keyValue.key == k && t[k][j].overallIndex >= 0
    {
      assert SameShapeList(s[k], t[k]);
    }
  }

  lemma MaxIndexUnique(es: set<KeyValueIndex>, m1: int, m2: int)
    requires IsMaxIndex(es, m1) && IsMaxIndex(es, m2)
    ensures m1 == m2
  {
    var e1 :| e1 in es && e1.overallIndex == m1;
    var e2 :| e2 in es && e2.overallIndex == m2;
  }

  /** A change that keeps the shape keeps the next overall index. */
  lemma SameShapeNext(s: State, t: State)
    requires SameShape(s, t)
    ensures NextOverallIndex(t) == NextOverallIndex(s)
  {
    var es := AllEntries(s);
    var et := AllEntries(t);
    if es != {} {
      var x :| x in es;
      var k, j :| k in s && 0 <= j < |s[k]| && s[k][j] == x;
      assert SameShapeList(s[k], t[k]);
      assert t[k][j] in et;
      var m := NextOverallIndex(s) - 1;
      var w :| w in es && w.overallIndex == m;
      var kw, jw :| kw in s && 0 <= jw < |s[kw]| && s[kw][jw] == w;
      assert SameShapeList(s[kw], t[kw]);
      assert t[kw][jw] in et;
      forall y | y in et
        ensures y.overallIndex <= m
      {
        var ky, jy :| ky in t && 0 <= jy < |t[ky]| && t[ky][jy] == y;
        assert SameShapeList(s[ky], t[ky]);
        assert s[ky][jy] in es;
      }
      assert IsMaxIndex(et, m);
      MaxIndexUnique(et, m, NextOverallIndex(t) - 1);
    } else {
      SameShapeNonEmpty(s, t);
    }
  }

  lemma SameShapeNonEmpty(s: State, t: State)
    requires SameShape(s, t)
    ensures AllEntries(t) != {} ==> AllEntries(s) != {}
  {
    if AllEntries(t) != {} {
      var y :| y in AllEntries(t);
      var ky, jy :| ky in t && 0 <= jy < |t[ky]| && t[ky][jy] == y;
      assert SameShapeList(s[ky], t[ky]);
      assert s[ky][jy] in AllEntries(s);
    }
  }

  // ---------------------------------------------------------------------------
  // Replacing values (replaceFirst, replaceN, replaceNth)
  // ---------------------------------------------------------------------------

  /** The list with the value at every relative index in `values` replaced. */
  function ReplaceWhere(l: seq<KeyValueIndex>, values: map<int, string>): (r: seq<KeyValueIndex>)
    ensures SameShapeList(l, r)
  {
    seq(|l|, j requires 0 <= j < |l| => if j in values then UpdateValue(l[j], values[j]) else l[j])
  }

  /** `replaceFirst`: a `null` key or value, a missing key or an empty list change nothing. */
  function ReplaceFirst(s: State, key: Option<string>, value: Option<string>): (t: State)
    ensures SameShape(s, t)
  {
    if key.None? || value.None? then s
    else if key.value in s && s[key.value] != [] then s[key.value := ReplaceWhere(s[key.value], map[0 := value.value])]
    else s
  }

  /** The replacements `replaceN` makes: position i gets `values[i]`, for every position both have. */
  function FirstN(l: seq<KeyValueIndex>, values: seq<string>): (m: map<int, string>)
  {
    map i | 0 <= i < |l| && i < |values| :: values[i]
  }

  /** `replaceN`: the first `min(count, |values|)` occurrences of the key get the new values. */
  function ReplaceN(s: State, key: string, values: seq<string>): (t: State)
    ensures SameShape(s, t)
  {
    if key in s then s[key := ReplaceWhere(s[key], FirstN(s[key], values))] else s
  }

  /**
   * `replaceNth`: every instruction `key -> {relative index -> value}` that names an
   * existing key and an in-range index replaces that value; the others are ignored.
   * Each (key, index) names one position, so the order of the instructions does not matter.
   */
  function ReplaceNth(s: State, instructions: Option<map<string, map<int, string>>>): (t: State)
    ensures SameShape(s, t)
  {
    if instructions.None? then s
    else map k | k in s :: if k in instructions.value then ReplaceWhere(s[k], instructions.value[k]) else s[k]
  }

  /**
   * Replacing values changes exactly the listed positions of one key: each gets its new
   * value and is written out again; every other position and every other key is untouched.
   */
  lemma ReplaceWhereEffect(s: State, key: string, values: map<int, string>)
    requires WellFormed(s) && key in s
    ensures var t := s[key := ReplaceWhere(s[key], values)];
      && WellFormed(t)
      && NextOverallIndex(t) == NextOverallIndex(s)
      && (forall k | k in s && k != key :: t[k] == s[k])
      && (forall j | 0 <= j < |s[key]| && j !in values :: t[key][j] == s[key][j])
      && (forall j | 0 <= j < |s[key]| && j in values ::
            t[key][j].keyValue.value == values[j] && !t[key][j].keyValue.deleted)
  {
    var t := s[key := ReplaceWhere(s[key], values)];
    assert SameShape(s, t);
    SameShapeWellFormed(s, t);
    SameShapeNext(s, t);
  }

  /** After `replaceN` the key's values are the new ones followed by the old tail. */
  lemma ReplaceNValues(s: State, key: string, values: seq<string>)
    requires WellFormed(s)
    ensures WellFormed(ReplaceN(s, key, values))
    ensures var c := |GetAllValues(s, key)|;
      var m := if c < |values| then c else |values|;
      GetAllValues(ReplaceN(s, key, values), key) == values[..m] + GetAllValues(s, key)[m..]
    ensures forall k | k != key :: GetAllValues(ReplaceN(s, key, values), k) == GetAllValues(s, k)
  {
    var t := ReplaceN(s, key, values);
    SameShapeWellFormed(s, t);
    if key in s {
      ReplaceFirstNList(s[key], values);
    }
  }

  /** On one key's list: the first `min(|l|, |values|)` values are the new ones, the rest stay. */
  lemma ReplaceFirstNList(l: seq<KeyValueIndex>, values: seq<string>)
    ensures var m := if |l| < |values| then |l| else |values|;
      Values(ReplaceWhere(l, FirstN(l, values))) == values[..m] + Values(l)[m..]
  {
    var m := if |l| < |values| then |l| else |values|;
    var r := Values(ReplaceWhere(l, FirstN(l, values)));
    var e := values[..m] + Values(l)[m..];
    forall j | 0 <= j < |l|
      ensures r[j] == e[j]
    {
      if j < m {
        assert e[j] == values[j];
      } else {
        assert e[j] == Values(l)[j];
      }
    }
  }

  /** After `replaceFirst` the key's first value is the new one and the others are unchanged. */
  lemma ReplaceFirstValues(s: State, key: string, value: string)
    requires WellFormed(s)
    ensures WellFormed(ReplaceFirst(s, Some(key), Some(value)))
    ensures GetFirstValue(ReplaceFirst(s, Some(key), Some(value)), key) ==
      (if GetAllValues(s, key) == [] then None else Some(value))
    ensures var before := GetAllValues(s, key);
      var after := GetAllValues(ReplaceFirst(s, Some(key), Some(value)), key);
      |after| == |before| && (before != [] ==> after[1..] == before[1..])
    ensures forall k | k != key :: GetAllValues(ReplaceFirst(s, Some(key), Some(value)), k) == GetAllValues(s, k)
  {
    var t := ReplaceFirst(s, Some(key), Some(value));
    SameShapeWellFormed(s, t);
    if key in s && s[key] != [] {
      var l := ReplaceWhere(s[key], map[0 := value]);
      assert t == s[key := l];
      assert Values(l)[1..] == Values(s[key])[1..];
    }
  }

  /** After `replaceNth` each in-range instructed position holds its new value; all others are unchanged. */
  lemma ReplaceNthValues(s: State, instructions: map<string, map<int, string>>, key: string)
    requires WellFormed(s)
    ensures WellFormed(ReplaceNth(s, Some(instructions)))
    ensures var before := GetAllValues(s, key);
      var after := GetAllValues(ReplaceNth(s, Some(instructions)), key);
      |after| == |before| &&
      forall j | 0 <= j < |before| ::
        after[j] == if key in instructions && j in instructions[key] then instructions[key][j] else before[j]
  {
    var t := ReplaceNth(s, Some(instructions));
    SameShapeWellFormed(s, t);
    if key in s && key in instructions {
      assert t[key] == ReplaceWhere(s[key], instructions[key]);
    }
  }

  // ---------------------------------------------------------------------------
  // Deleting occurrences (removeFirst, removeN, removeNth, removeManyNth, removeAll)
  // ---------------------------------------------------------------------------

  /** The list with every relative index in `targets` marked as deleted. */
  function DeleteWhere(l: seq<KeyValueIndex>, targets: set<int>): (r: seq<KeyValueIndex>)
    ensures SameShapeList(l, r)
  {
    seq(|l|, j requires 0 <= j < |l| => if j in targets then Delete(l[j]) else l[j])
  }

  function DeleteAt(s: State, key: string, targets: set<int>): (t: State)
    ensures SameShape(s, t)
  {
    if key in s then s[key := DeleteWhere(s[key], targets)] else s
  }

  /** The occurrences of `key` at the given relative indexes. */
  function Targeted(s: State, key: string, targets: set<int>): set<KeyValueIndex>
  {
    if key in s then set j | j in targets && 0 <= j < |s[key]| :: s[key][j] else {}
  }

  /** `removeFirst`: deletes the key's first occurrence, if any. */
  function RemoveFirst(s: State, key: string): State
  {
    if key in s && s[key] != [] then DeleteAt(s, key, {0}) else s
  }

  /** `removeNth`: deletes the occurrence at an in-range relative index. */
  function RemoveNth(s: State, key: string, nthIndex: int): State
  {
    if key in s && s[key] != [] && 0 <= nthIndex < |s[key]| then DeleteAt(s, key, {nthIndex}) else s
  }

  /** `removeManyNth`: deletes the occurrences at every listed relative index; others in the list are ignored. */
  function RemoveManyNth(s: State, key: string, relativeIndexes: seq<int>): State
  {
    if key in s && s[key] != [] then DeleteAt(s, key, set i | i in relativeIndexes) else s
  }

  /** `removeAll`: drops every listed key from the map; `null` drops nothing. */
  function RemoveAll(s: State, keys: Option<seq<string>>): State
  {
    if keys.None? then s else s - (set k | k in keys.value)
  }

  /** The relative indexes `0 .. n-1`. */
  function Below(n: int): (r: set<int>)
    ensures forall j :: j in r <==> 0 <= j < n
    decreases n
  {
    if n <= 0 then {} else Below(n - 1) + {n - 1}
  }

  /**
   * `removeN`: nothing for `n <= 0` or a missing key; the whole key once `n` reaches
   * its count; otherwise its first `n` occurrences are deleted.
   */
  function RemoveN(s: State, key: string, n: int): State
  {
    if n <= 0 then s
    else if key in s then
      if n >= |s[key]| then RemoveAll(s, Some([key])) else DeleteAt(s, key, Below(n))
    else s
  }

  /** Deleting positions of one key stops writing out exactly the occurrences there. */
  lemma DeleteAtLive(s: State, key: string, targets: set<int>)
    requires WellFormed(s)
    ensures WellFormed(DeleteAt(s, key, targets))
    ensures LiveEntries(DeleteAt(s, key, targets)) == LiveEntries(s) - Targeted(s, key, targets)
  {
    var t := DeleteAt(s, key, targets);
    SameShapeWellFormed(s, t);
    if key in s {
      DeleteAtKeepsNoNew(s, key, targets);
      DeleteAtKeepsUntargeted(s, key, targets);
    }
  }

  lemma DeleteAtKeepsNoNew(s: State, key: string, targets: set<int>)
    requires WellFormed(s) && key in s
    ensures forall x | x in LiveEntries(DeleteAt(s, key, targets)) ::
      x in LiveEntries(s) && x !in Targeted(s, key, targets)
  {
    var t := DeleteAt(s, key, targets);
    forall x | x in LiveEntries(t)
      ensures x in LiveEntries(s) && x !in Targeted(s, key, targets)
    {
      var k1, j1 :| k1 in t && 0 <= j1 < |t[k1]| && !t[k1][j1].keyValue.deleted && t[k1][j1] == x;
      assert t[k1][j1] == s[k1][j1];
    }
  }

  lemma DeleteAtKeepsUntargeted(s: State, key: string, targets: set<int>)
    requires WellFormed(s) && key in s
    ensures forall x | x in LiveEntries(s) && x !in Targeted(s, key, targets) ::
      x in LiveEntries(DeleteAt(s, key, targets))
  {
    var t := DeleteAt(s, key, targets);
    forall x | x in LiveEntries(s) && x !in Targeted(s, key, targets)
      ensures x in LiveEntries(t)
    {
      var k1, j1 :| k1 in s && 0 <= j1 < |s[k1]| && !s[k1][j1].keyValue.deleted && s[k1][j1] == x;
      assert t[k1][j1] == x;
    }
  }

  /** Removing keys stops writing out exactly the occurrences filed under them. */
  lemma RemoveAllLive(s: State, keys: seq<string>)
    requires WellFormed(s)
    ensures WellFormed(RemoveAll(s, Some(keys)))
    ensures LiveEntries(RemoveAll(s, Some(keys))) == set x | x in LiveEntries(s) && x.keyValue.key !in keys
  {
    var t := RemoveAll(s, Some(keys));
    forall x | x in LiveEntries(t)
      ensures x in LiveEntries(s) && x.keyValue.key !in keys
    {
      var k1, j1 :| k1 in t && 0 <= j1 < |t[k1]| && !t[k1][j1].keyValue.deleted && t[k1][j1] == x;
    }
    forall x | x in LiveEntries(s) && x.keyValue.key !in keys
      ensures x in LiveEntries(t)
    {
      var k1, j1 :| k1 in s && 0 <= j1 < |s[k1]| && !s[k1][j1].keyValue.deleted && s[k1][j1] == x;
      assert k1 in t && t[k1][j1] == x;
    }
  }

  /** `removeFirst` stops writing out only the key's first occurrence. */
  lemma RemoveFirstLive(s: State, key: string)
    requires WellFormed(s)
    ensures WellFormed(RemoveFirst(s, key))
    ensures LiveEntries(RemoveFirst(s, key)) == LiveEntries(s) - Targeted(s, key, {0})
  {
    DeleteAtLive(s, key, {0});
  }

  /** `removeNth` stops writing out only the occurrence at that relative index, if it exists. */
  lemma RemoveNthLive(s: State, key: string, nthIndex: int)
    requires WellFormed(s)
    ensures WellFormed(RemoveNth(s, key, nthIndex))
    ensures LiveEntries(RemoveNth(s, key, nthIndex)) == LiveEntries(s) - Targeted(s, key, {nthIndex})
  {
    DeleteAtLive(s, key, {nthIndex});
  }

  /**
   * `removeManyNth` stops writing out exactly the occurrences at the listed in-range
   * relative indexes; the list's order and repetitions do not matter.
   */
  lemma RemoveManyNthLive(s: State, key: string, relativeIndexes: seq<int>)
    requires WellFormed(s)
    ensures WellFormed(RemoveManyNth(s, key, relativeIndexes))
    ensures LiveEntries(RemoveManyNth(s, key, relativeIndexes)) ==
      LiveEntries(s) - Targeted(s, key, set i | i in relativeIndexes)
  {
    DeleteAtLive(s, key, set i | i in relativeIndexes);
  }

  /**
   * `removeN` with `n > 0` stops writing out exactly the key's first `n` occurrences
   * (all of them once `n` reaches the count); `n <= 0` or a missing key changes nothing.
   */
  lemma RemoveNLive(s: State, key: string, n: int)
    requires WellFormed(s)
    ensures WellFormed(RemoveN(s, key, n))
    ensures n <= 0 || key !in s ==> RemoveN(s, key, n) == s
    ensures LiveEntries(RemoveN(s, key, n)) == LiveEntries(s) - Targeted(s, key, Below(n))
  {
    if n > 0 && key in s {
      if n >= |s[key]| {
        RemoveAllLive(s, [key]);
        var t := RemoveN(s, key, n);
        forall x | x in LiveEntries(s)
          ensures x.keyValue.key == key <==> x in Targeted(s, key, Below(n))
        {
          var k1, j1 :| k1 in s && 0 <= j1 < |s[k1]| && !s[k1][j1].keyValue.deleted && s[k1][j1] == x;
          if x.keyValue.key == key {
          }
        }
      } else {
        DeleteAtLive(s, key, Below(n));
      }
    }
  }

  // ---------------------------------------------------------------------------
  // Adjusting numeric values (adjustNumericValueBy)
  // ---------------------------------------------------------------------------

  /**
   * One occurrence after `adjustNumericValueBy`: a value that parses as an `int` and
   * passes the predicate gets `delta` added with 32-bit wrap-around; anything else
   * (not a number, out of range, rejected) is left as it is.
   */
  function AdjustValue(e: KeyValueIndex, delta: int, accept: int -> bool): (r: KeyValueIndex)
    ensures r.overallIndex == e.overallIndex && r.keyValue.key == e.keyValue.key
    ensures r.keyValue.deleted == e.keyValue.deleted
  {
    match ParseInt(e.keyValue.value)
    case None => e
    case Some(current) =>
      if accept(current) then KeyValueIndex(e.overallIndex, e.keyValue.(value := IntToString(Wrap32(current + delta))))
      else e
  }

  /** The list with every position named in `relativeIndexes` adjusted (`applyToKeyValues`). */
  function AdjustWhere(l: seq<KeyValueIndex>, relativeIndexes: seq<int>, delta: int, accept: int -> bool): (r: seq<KeyValueIndex>)
    ensures SameShapeList(l, r)
  {
    seq(|l|, j requires 0 <= j < |l| => if j in relativeIndexes then AdjustValue(l[j], delta, accept) else l[j])
  }

  /** `adjustNumericValueBy`: a missing key or an empty list changes nothing. */
  function AdjustNumericValueBy(s: State, key: string, relativeIndexes: seq<int>, delta: int, accept: int -> bool): (t: State)
    ensures SameShape(s, t)
  {
    if key in s && s[key] != [] then s[key := AdjustWhere(s[key], relativeIndexes, delta, accept)] else s
  }

  /** Whether an adjustment applies to a value: it is an `int` and the predicate accepts it. */
  predicate Adjusts(value: string, accept: int -> bool)
  {
    ParseInt(value).Some? && accept(ParseInt(value).value)
  }

  lemma AdjustValueEffect(e: KeyValueIndex, delta: int, accept: int -> bool)
    ensures Adjusts(e.keyValue.value, accept) ==>
      ParseInt(AdjustValue(e, delta, accept).keyValue.value) == Some(Wrap32(ParseInt(e.keyValue.value).value + delta))
    ensures !Adjusts(e.keyValue.value, accept) ==> AdjustValue(e, delta, accept) == e
  {
    if Adjusts(e.keyValue.value, accept) {
      var n := Wrap32(ParseInt(e.keyValue.value).value + delta);
      assert AdjustValue(e, delta, accept).keyValue.value == IntToString(n);
      ParseIntOfIntToString(n);
    }
  }

  /**
   * After an adjustment, each named position whose value was an accepted `int` reads
   * back as that number plus `delta` (wrapped to 32 bits); every other value is unchanged,
   * and so are the deleted flags, the positions and every other key.
   */
  lemma AdjustNumericValues(s: State, key: string, relativeIndexes: seq<int>, delta: int, accept: int -> bool)
    requires WellFormed(s)
    ensures var t := AdjustNumericValueBy(s, key, relativeIndexes, delta, accept);
      && WellFormed(t)
      && NextOverallIndex(t) == NextOverallIndex(s)
      && (forall k | k in s && k != key :: t[k] == s[k])
    ensures var t := AdjustNumericValueBy(s, key, relativeIndexes, delta, accept);
      key in s ==> forall j | 0 <= j < |s[key]| ::
        && t[key][j].keyValue.deleted == s[key][j].keyValue.deleted
        && if j in relativeIndexes && Adjusts(s[key][j].keyValue.value, accept)
           then ParseInt(t[key][j].keyValue.value) == Some(Wrap32(ParseInt(s[key][j].keyValue.value).value + delta))
           else t[key][j] == s[key][j]
  {
    var t := AdjustNumericValueBy(s, key, relativeIndexes, delta, accept);
    SameShapeWellFormed(s, t);
    SameShapeNext(s, t);
    if key in s && s[key] != [] {
      forall j | 0 <= j < |s[key]| && j in relativeIndexes
      {
        AdjustValueEffect(s[key][j], delta, accept);
      }
    }
  }

  // ---------------------------------------------------------------------------
  // Removing by value (removeKeyMatchingValue, removeAnyKeyMatchingValue)
  // ---------------------------------------------------------------------------

  /** No two positions of a list share an overall index. */
  predicate ListIndexesDistinct(l: seq<KeyValueIndex>)
  {
    forall a, b | 0 <= a < b < |l| :: l[a].overallIndex != l[b].overallIndex
  }

  /** The occurrences whose value does not match, case-insensitively, in their original order. */
  function WithoutMatches(l: seq<KeyValueIndex>, valueMatch: Option<string>): (r: seq<KeyValueIndex>)
    ensures forall x :: x in r <==> x in l && !CaseInsensitiveEqual(x.keyValue.value, valueMatch)
    ensures ListIndexesDistinct(l) ==> ListIndexesDistinct(r)
  {
    if l == [] then []
    else
      var rest := WithoutMatches(l[1..], valueMatch);
      if CaseInsensitiveEqual(l[0].keyValue.value, valueMatch) then rest
      else
        assert ListIndexesDistinct(l) ==> forall x | x in rest :: x.overallIndex != l[0].overallIndex;
        [l[0]] + rest
  }

  /** `removeKeyMatchingValue`: the key keeps only its non-matching occurrences; a missing key changes nothing. */
  function RemoveKeyMatchingValue(s: State, key: string, valueMatch: Option<string>): State
  {
    if key in s then s[key := WithoutMatches(s[key], valueMatch)] else s
  }

  /** `removeAnyKeyMatchingValue`: every key keeps only its non-matching occurrences. */
  function RemoveAnyKeyMatchingValue(s: State, valueMatch: Option<string>): State
  {
    map k | k in s :: WithoutMatches(s[k], valueMatch)
  }

  /** Each key's list in `t` keeps only occurrences it had in `s`. */
  predicate Filtered(s: State, t: State)
  {
    t.Keys <= s.Keys &&
    forall k | k in t :: (forall x | x in t[k] :: x in s[k]) && ListIndexesDistinct(t[k])
  }

  /** Dropping occurrences from the lists keeps a state well formed. */
  lemma FilteredWellFormed(s: State, t: State)
    requires WellFormed(s) && Filtered(s, t)
    ensures WellFormed(t)
  {
    forall k, j | k in t && 0 <= j < |t[k]|
      ensures t[k][j].keyValue.key == k && t[k][j].overallIndex >= 0
    {
      assert t[k][j] in s[k];
    }
    forall k1, j1, k2, j2 |
       k1 in t && 0 <= j1 < |t[k1]| && k2 in t && 0 <= j2 < |t[k2]| &&
       t[k1][j1].overallIndex == t[k2][j2].overallIndex
      ensures k1 == k2 && j1 == j2
    {
      assert t[k1][j1] in s[k1] && t[k2][j2] in s[k2];
      var i1 :| 0 <= i1 < |s[k1]| && s[k1][i1] == t[k1][j1];
      var i2 :| 0 <= i2 < |s[k2]| && s[k2][i2] == t[k2][j2];
      assert k1 == k2;
      DistinctPositions(t[k1], j1, j2);
    }
  }

  lemma DistinctPositions(l: seq<KeyValueIndex>, a: int, b: int)
    requires ListIndexesDistinct(l) && 0 <= a < |l| && 0 <= b < |l|
    requires l[a].overallIndex == l[b].overallIndex
    ensures a == b
  {
  }

  lemma WellFormedListsDistinct(s: State, k: string)
    requires WellFormed(s) && k in s
    ensures ListIndexesDistinct(s[k])
  {
  }

  /** The written-out occurrences of a state whose lists only lost occurrences. */
  lemma FilteredLive(s: State, t: State, keep: KeyValueIndex -> bool)
    requires Filtered(s, t)
    requires forall k | k in s :: k in t && forall x | x in s[k] :: x in t[k] <==> keep(x)
    ensures LiveEntries(t) == set x | x in LiveEntries(s) && keep(x)
  {
    forall x | x in LiveEntries(t)
      ensures x in LiveEntries(s) && keep(x)
    {
      var k, j :| k in t && 0 <= j < |t[k]| && !t[k][j].keyValue.deleted && t[k][j] == x;
      assert x in s[k];
      var i :| 0 <= i < |s[k]| && s[k][i] == x;
    }
    forall x | x in LiveEntries(s) && keep(x)
      ensures x in LiveEntries(t)
    {
      var k, j :| k in s && 0 <= j < |s[k]| && !s[k][j].keyValue.deleted && s[k][j] == x;
      assert x in t[k];
      var i :| 0 <= i < |t[k]| && t[k][i] == x;
    }
  }

  /**
   * `removeKeyMatchingValue` stops writing out exactly the key's occurrences whose value
   * matches, and leaves no matching value under the key.
   */
  lemma RemoveKeyMatchingValueLive(s: State, key: string, valueMatch: Option<string>)
    requires WellFormed(s)
    ensures WellFormed(RemoveKeyMatchingValue(s, key, valueMatch))
    ensures LiveEntries(RemoveKeyMatchingValue(s, key, valueMatch)) ==
      set x | x in LiveEntries(s) && !(x.keyValue.key == key && CaseInsensitiveEqual(x.keyValue.value, valueMatch))
    ensures forall v | v in GetAllValues(RemoveKeyMatchingValue(s, key, valueMatch), key) :: !CaseInsensitiveEqual(v, valueMatch)
  {
    var t := RemoveKeyMatchingValue(s, key, valueMatch);
    if key in s {
      WellFormedListsDistinct(s, key);
    }
    FilteredWellFormed(s, t);
    var keep := (x: KeyValueIndex) => !(x.keyValue.key == key && CaseInsensitiveEqual(x.keyValue.value, valueMatch));
    FilteredLive(s, t, keep);
    if key in t && t[key] != [] {
      forall v | v in GetAllValues(t, key)
        ensures !CaseInsensitiveEqual(v, valueMatch)
      {
        var j :| 0 <= j < |t[key]| && Values(t[key])[j] == v;
        assert t[key][j] in t[key];
      }
    }
  }

  /** `removeAnyKeyMatchingValue` stops writing out exactly the occurrences whose value matches. */
  lemma RemoveAnyKeyMatchingValueLive(s: State, valueMatch: Option<string>)
    requires WellFormed(s)
    ensures WellFormed(RemoveAnyKeyMatchingValue(s, valueMatch))
    ensures LiveEntries(RemoveAnyKeyMatchingValue(s, valueMatch)) ==
      set x | x in LiveEntries(s) && !CaseInsensitiveEqual(x.keyValue.value, valueMatch)
  {
    var t := RemoveAnyKeyMatchingValue(s, valueMatch);
    forall k | k in s
      ensures ListIndexesDistinct(t[k])
    {
      WellFormedListsDistinct(s, k);
    }
    FilteredWellFormed(s, t);
    FilteredLive(s, t, (x: KeyValueIndex) => !CaseInsensitiveEqual(x.keyValue.value, valueMatch));
  }

  // ---------------------------------------------------------------------------
  // Adding pairs (add, addAll)
  // ---------------------------------------------------------------------------

  /**
   * Appends a pair at the next overall index unless its key already holds that value
   * (deleted occurrences included, since `getAllValues` lists them too).
   */
  function AddKeyValue(s: State, kv: KeyValue): State
  {
    if kv.value in GetAllValues(s, kv.key) then s else Merge(s, KeyValueIndex(NextOverallIndex(s), kv))
  }

  /** `add`: a `null` or blank key or value adds nothing. */
  function Add(s: State, key: Option<string>, value: Option<string>): State
  {
    match FromKeyValue(key, value)
    case None => s
    case Some(kv) => AddKeyValue(s, kv)
  }

  /** One step of `addAll`: a pair that `fromPair` rejects adds nothing. */
  function AddPair(s: State, pair: seq<string>): State
  {
    match FromPair(pair)
    case None => s
    case Some(kv) => AddKeyValue(s, kv)
  }

  /** The pairs added one after another, each seeing the ones before it. */
  function AddPairs(s: State, pairs: seq<seq<string>>): State
    decreases |pairs|
  {
    if pairs == [] then s else AddPairs(AddPair(s, pairs[0]), pairs[1..])
  }

  /** `addAll`: a `null` list adds nothing. */
  function AddAll(s: State, pairs: Option<seq<seq<string>>>): State
  {
    if pairs.None? then s else AddPairs(s, pairs.value)
  }

  /** The next overall index is above every index in use, so a pair added there is fresh. */
  lemma NextIsFresh(s: State, kv: KeyValue)
    requires WellFormed(s)
    ensures IsFreshEntry(s, KeyValueIndex(NextOverallIndex(s), kv))
  {
    var n := NextOverallIndex(s);
    if AllEntries(s) != {} {
      var w :| w in AllEntries(s) && w.overallIndex == n - 1;
      var k, j :| k in s && 0 <= j < |s[k]| && s[k][j] == w;
    }
  }

  /** Adding a pair leaves every key's values in place and makes the pair's value present. */
  lemma AddKeyValueValues(s: State, kv: KeyValue)
    ensures kv.value in GetAllValues(AddKeyValue(s, kv), kv.key)
    ensures forall k :: GetAllValues(s, k) <= GetAllValues(AddKeyValue(s, kv), k)
  {
    if kv.value !in GetAllValues(s, kv.key) {
      var e := KeyValueIndex(NextOverallIndex(s), kv);
      var t := Merge(s, e);
      var l := if kv.key in s then s[kv.key] else [];
      assert t[kv.key] == l + [e];
      assert Values(l + [e]) == Values(l) + [kv.value];
      forall k
        ensures GetAllValues(s, k) <= GetAllValues(t, k)
      {
        if k != kv.key {
          assert k in s ==> t[k] == s[k];
        }
      }
    }
  }

  /**
   * Adding a pair either changes nothing (the value is already there) or writes it out
   * after every existing pair; either way the value is present afterwards and the values
   * already present keep their places.
   */
  lemma AddKeyValueAppends(s: State, kv: KeyValue)
    requires WellFormed(s) && !kv.deleted
    ensures WellFormed(AddKeyValue(s, kv))
    ensures Ordered(AddKeyValue(s, kv)) == Ordered(s) +
      (if kv.value in GetAllValues(s, kv.key) then [] else [KeyValueIndex(NextOverallIndex(s), kv)])
    ensures kv.value in GetAllValues(AddKeyValue(s, kv), kv.key)
    ensures forall k :: GetAllValues(s, k) <= GetAllValues(AddKeyValue(s, kv), k)
  {
    AddKeyValueValues(s, kv);
    if kv.value !in GetAllValues(s, kv.key) {
      var e := KeyValueIndex(NextOverallIndex(s), kv);
      NextIsFresh(s, kv);
      MergeFreshAppends(s, e);
    }
  }

  /** The written-out text after appending one pair to the ordered occurrences. */
  lemma ReconstructAppend(s: State, t: State, e: KeyValueIndex)
    requires WellFormed(s) && WellFormed(t)
    requires Ordered(t) == Ordered(s) + [e]
    ensures Reconstruct(t) == if Ordered(s) == [] then Render(e.keyValue) else Reconstruct(s) + "&" + Render(e.keyValue)
  {
    assert Renders(Ordered(s) + [e]) == Renders(Ordered(s)) + [Render(e.keyValue)];
    if Ordered(s) != [] {
      JoinAppend(Renders(Ordered(s)), Render(e.keyValue), "&");
    }
  }

  /**
   * `add` writes a new valid pair at the end of the query string (or alone, when nothing
   * was written before); an invalid pair or a value the key already has changes nothing.
   */
  lemma AddReconstruct(s: State, key: Option<string>, value: Option<string>)
    requires WellFormed(s)
    ensures WellFormed(Add(s, key, value))
    ensures FromKeyValue(key, value).None? ==> Add(s, key, value) == s
    ensures FromKeyValue(key, value).Some? ==>
      var kv := FromKeyValue(key, value).value;
      Reconstruct(Add(s, key, value)) ==
        if kv.value in GetAllValues(s, kv.key) then Reconstruct(s)
        else if Ordered(s) == [] then Render(kv)
        else Reconstruct(s) + "&" + Render(kv)
  {
    if FromKeyValue(key, value).Some? {
      var kv := FromKeyValue(key, value).value;
      AddKeyValueAppends(s, kv);
      if kv.value !in GetAllValues(s, kv.key) {
        ReconstructAppend(s, AddKeyValue(s, kv), KeyValueIndex(NextOverallIndex(s), kv));
      }
    }
  }

  /** One step of `addAll`, as `AddKeyValueAppends` states it for the pair `fromPair` accepts. */
  lemma AddPairStep(s: State, pair: seq<string>)
    requires WellFormed(s)
    ensures WellFormed(AddPair(s, pair))
    ensures Ordered(s) <= Ordered(AddPair(s, pair))
    ensures |Ordered(AddPair(s, pair))| <= |Ordered(s)| + 1
    ensures |Ordered(AddPair(s, pair))| == |Ordered(s)| + 1 ==>
      FromPair(pair) == Some(Ordered(AddPair(s, pair))[|Ordered(s)|].keyValue)
    ensures forall k :: GetAllValues(s, k) <= GetAllValues(AddPair(s, pair), k)
    ensures FromPair(pair).Some? ==> pair[1] in GetAllValues(AddPair(s, pair), pair[0])
  {
    if FromPair(pair).Some? {
      var kv := FromPair(pair).value;
      assert AddPair(s, pair) == AddKeyValue(s, kv);
      AddKeyValueAppends(s, kv);
    } else {
      assert AddPair(s, pair) == s;
    }
  }

  /** `addAll` keeps every pair already written out, in place, and every value already present. */
  lemma {:induction false} AddPairsKeeps(s: State, pairs: seq<seq<string>>)
    requires WellFormed(s)
    ensures WellFormed(AddPairs(s, pairs))
    ensures Ordered(s) <= Ordered(AddPairs(s, pairs))
    ensures forall k :: GetAllValues(s, k) <= GetAllValues(AddPairs(s, pairs), k)
    decreases |pairs|
  {
    if pairs != [] {
      var s1 := AddPair(s, pairs[0]);
      var r := AddPairs(s1, pairs[1..]);
      assert AddPairs(s, pairs) == r;
      AddPairStep(s, pairs[0]);
      AddPairsKeeps(s1, pairs[1..]);
      forall k
        ensures GetAllValues(s, k) <= GetAllValues(r, k)
      {
        assert GetAllValues(s, k) <= GetAllValues(s1, k) <= GetAllValues(r, k);
      }
    }
  }

  /** After `addAll` every pair of the list that `fromPair` accepts is present. */
  lemma {:induction false} AddPairsPresent(s: State, pairs: seq<seq<string>>)
    requires WellFormed(s)
    ensures forall i | 0 <= i < |pairs| && FromPair(pairs[i]).Some? ::
      pairs[i][1] in GetAllValues(AddPairs(s, pairs), pairs[i][0])
    decreases |pairs|
  {
    if pairs != [] {
      var s1 := AddPair(s, pairs[0]);
      var r := AddPairs(s1, pairs[1..]);
      assert AddPairs(s, pairs) == r;
      AddPairStep(s, pairs[0]);
      AddPairsKeeps(s1, pairs[1..]);
      AddPairsPresent(s1, pairs[1..]);
      PresentCombine(s1, r, pairs);
    }
  }

  lemma PresentCombine(s1: State, r: State, pairs: seq<seq<string>>)
    requires pairs != []
    requires FromPair(pairs[0]).Some? ==> pairs[0][1] in GetAllValues(s1, pairs[0][0])
    requires forall k :: GetAllValues(s1, k) <= GetAllValues(r, k)
    requires forall i | 0 <= i < |pairs[1..]| && FromPair(pairs[1..][i]).Some? ::
      pairs[1..][i][1] in GetAllValues(r, pairs[1..][i][0])
    ensures forall i | 0 <= i < |pairs| && FromPair(pairs[i]).Some? ::
      pairs[i][1] in GetAllValues(r, pairs[i][0])
  {
    forall i | 0 <= i < |pairs| && FromPair(pairs[i]).Some?
      ensures pairs[i][1] in GetAllValues(r, pairs[i][0])
    {
      if i > 0 {
        assert pairs[1..][i - 1] == pairs[i];
      } else {
        assert GetAllValues(s1, pairs[0][0]) <= GetAllValues(r, pairs[0][0]);
      }
    }
  }

  /** Everything `addAll` writes out beyond the old pairs comes from a pair of the list. */
  lemma {:induction false} AddPairsFromList(s: State, pairs: seq<seq<string>>)
    requires WellFormed(s)
    ensures WellFormed(AddPairs(s, pairs)) && |Ordered(s)| <= |Ordered(AddPairs(s, pairs))|
    ensures forall p | |Ordered(s)| <= p < |Ordered(AddPairs(s, pairs))| ::
      FromSomePair(pairs, Ordered(AddPairs(s, pairs))[p].keyValue)
    decreases |pairs|
  {
    if pairs != [] {
      var s1 := AddPair(s, pairs[0]);
      var r := AddPairs(s1, pairs[1..]);
      assert AddPairs(s, pairs) == r;
      AddPairStep(s, pairs[0]);
      AddPairsKeeps(s1, pairs[1..]);
      AddPairsFromList(s1, pairs[1..]);
      FromListCombine(Ordered(s), Ordered(s1), Ordered(r), pairs);
    }
  }

  /** Some pair of the list is accepted by `fromPair` as `kv`. */
  predicate FromSomePair(pairs: seq<seq<string>>, kv: KeyValue)
  {
    exists i | 0 <= i < |pairs| :: FromPair(pairs[i]) == Some(kv)
  }

  lemma FromListCombine(o: seq<KeyValueIndex>, o1: seq<KeyValueIndex>, or: seq<KeyValueIndex>, pairs: seq<seq<string>>)
    requires pairs != []
    requires o <= o1 && o1 <= or && |o1| <= |o| + 1
    requires |o1| == |o| + 1 ==> FromPair(pairs[0]) == Some(o1[|o|].keyValue)
    requires forall p | |o1| <= p < |or| ::
      FromSomePair(pairs[1..], or[p].keyValue)
    ensures forall p | |o| <= p < |or| ::
      FromSomePair(pairs, or[p].keyValue)
  {
    forall p | |o| <= p < |or|
      ensures FromSomePair(pairs, or[p].keyValue)
    {
      if p < |o1| {
        assert p == |o| && or[p] == o1[p];
        assert FromPair(pairs[0]) == Some(or[p].keyValue);
      } else {
        var i :| 0 <= i < |pairs[1..]| && FromPair(pairs[1..][i]) == Some(or[p].keyValue);
        assert pairs[i + 1] == pairs[1..][i];
        assert FromPair(pairs[i + 1]) == Some(or[p].keyValue);
      }
    }
  }

  // ---------------------------------------------------------------------------
  // Sorting (setSortDirection, toggleSortDefaultAsc, toggleSortDefaultDesc)
  // ---------------------------------------------------------------------------

  /** The tokens of a `sort` value, `value.split(",")`. */
  function SortTokens(value: string): seq<string>
  {
    Split(value, {','})
  }

  /** A `sort` value names the field when its first token, trimmed, equals the trimmed field. */
  predicate SortFieldMatches(value: string, field: string)
  {
    |SortTokens(value)| > 0 && Trim(SortTokens(value)[0]) == Trim(field)
  }

  /** The direction a `sort` value states: the trimmed second of exactly two tokens, otherwise NONE. */
  function CurrentDirection(value: string): SortDirection
  {
    var tokens := SortTokens(value);
    if |tokens| == 2 then From(Trim(tokens[1])) else NONE
  }

  /** The first position of the list that satisfies `p`. */
  function FirstWhere(l: seq<KeyValueIndex>, p: KeyValueIndex -> bool): (r: Option<nat>)
    ensures r.Some? ==> r.value < |l| && p(l[r.value])
    ensures r.Some? ==> forall j | 0 <= j < r.value :: !p(l[j])
    ensures r.None? ==> forall j | 0 <= j < |l| :: !p(l[j])
  {
    if l == [] then None
    else if p(l[0]) then Some(0)
    else
      match FirstWhere(l[1..], p)
      case None => None
      case Some(i) => Some(i + 1)
  }

  function NamesField(field: string): KeyValueIndex -> bool
  {
    (e: KeyValueIndex) => SortFieldMatches(e.keyValue.value, field)
  }

  /** The first relative index whose value names the field, as the search loop finds it. */
  function FirstSortMatch(l: seq<KeyValueIndex>, field: string): (r: Option<nat>)
    ensures r.Some? ==> r.value < |l| && SortFieldMatches(l[r.value].keyValue.value, field)
    ensures r.Some? ==> forall j | 0 <= j < r.value :: !SortFieldMatches(l[j].keyValue.value, field)
    ensures r.None? ==> forall j | 0 <= j < |l| :: !SortFieldMatches(l[j].keyValue.value, field)
  {
    FirstWhere(l, NamesField(field))
  }

  /** The rewritten value: the trimmed field followed by the mapped direction, if any. */
  function NewSortValue(value: string, mapper: SortDirection -> SortDirection): string
    requires |SortTokens(value)| > 0
  {
    mapper(CurrentDirection(value)).WithSortField(Trim(SortTokens(value)[0]))
  }

  /**
   * `setSortDirection`: the first `sort` occurrence naming the field gets the direction
   * the mapper gives for its current one; a `null` field, no `sort` key or no match
   * changes nothing.
   */
  function SetSortDirection(s: State, field: Option<string>, mapper: SortDirection -> SortDirection): (t: State)
    ensures SameShape(s, t)
  {
    if field.None? || "sort" !in s then s
    else
      var l := s["sort"];
      match FirstSortMatch(l, field.value)
      case None => s
      case Some(i) => RewriteSortAt(s, i, mapper)
  }

  /** The `sort` occurrence at relative index `i` rewritten with the mapped direction. */
  function RewriteSortAt(s: State, i: nat, mapper: SortDirection -> SortDirection): (t: State)
    requires "sort" in s && i < |s["sort"]| && |SortTokens(s["sort"][i].keyValue.value)| > 0
    ensures SameShape(s, t)
  {
    var l := s["sort"];
    s["sort" := l[i := UpdateValue(l[i], NewSortValue(l[i].keyValue.value, mapper))]]
  }

  function ToggleSortDefaultAsc(s: State, field: Option<string>): State
  {
    SetSortDirection(s, field, (d: SortDirection) => d.Toggle(ASC))
  }

  function ToggleSortDefaultDesc(s: State, field: Option<string>): State
  {
    SetSortDirection(s, field, (d: SortDirection) => d.Toggle(DESC))
  }

  /**
   * A rewritten value still names the same field, and reading its direction back gives
   * exactly what the mapper chose.
   */
  lemma NewSortValueReads(value: string, field: string, mapper: SortDirection -> SortDirection)
    requires SortFieldMatches(value, field) && !IsBlank(field)
    ensures SortFieldMatches(NewSortValue(value, mapper), field)
    ensures CurrentDirection(NewSortValue(value, mapper)) == mapper(CurrentDirection(value))
  {
    var d := mapper(CurrentDirection(value));
    MatchedTokenNotBlank(value, field);
    NewSortTokens(value, mapper);
    var tokens := SortTokens(NewSortValue(value, mapper));
    assert Trim(tokens[0]) == Trim(field);
    if d != NONE {
      TrimOfTrimmed(d.Value());
      FromValue(d);
      assert From(Trim(tokens[1])) == d;
    }
  }

  /** A first token that trims to a non-blank field is not blank itself. */
  lemma MatchedTokenNotBlank(value: string, field: string)
    requires SortFieldMatches(value, field) && !IsBlank(field)
    ensures !IsBlank(SortTokens(value)[0])
  {
    BlankIff(field);
    BlankIff(SortTokens(value)[0]);
  }

  /** The tokens of a rewritten value: the trimmed field, then the direction text when there is one. */
  lemma NewSortTokens(value: string, mapper: SortDirection -> SortDirection)
    requires |SortTokens(value)| > 0 && !IsBlank(SortTokens(value)[0])
    ensures var f := Trim(SortTokens(value)[0]);
      var d := mapper(CurrentDirection(value));
      && Trim(f) == f
      && SortTokens(NewSortValue(value, mapper)) == if d == NONE then [f] else [f, d.Value()]
  {
    var tokens := SortTokens(value);
    var f := Trim(tokens[0]);
    BlankIff(tokens[0]);
    SplitHasNoSeparator(value, {','});
    NoneInTrim(tokens[0], {','});
    TrimIdempotent(tokens[0]);
    SplitWithSortField(mapper(CurrentDirection(value)), f);
  }

  /** Rewriting one `sort` occurrence leaves every other position and key alone. */
  lemma RewriteSortAtFrame(s: State, i: nat, mapper: SortDirection -> SortDirection)
    requires "sort" in s && i < |s["sort"]| && |SortTokens(s["sort"][i].keyValue.value)| > 0
    ensures var t := RewriteSortAt(s, i, mapper);
      && (forall k | k in s && k != "sort" :: t[k] == s[k])
      && (forall j | 0 <= j < |s["sort"]| && j != i :: t["sort"][j] == s["sort"][j])
      && !t["sort"][i].keyValue.deleted
      && t["sort"][i].keyValue.value == NewSortValue(s["sort"][i].keyValue.value, mapper)
  {
  }

  /** The rewritten occurrence is still the first to name the field, and states the mapped direction. */
  lemma RewriteSortAtReads(s: State, i: nat, field: string, mapper: SortDirection -> SortDirection)
    requires "sort" in s && FirstSortMatch(s["sort"], field) == Some(i) && !IsBlank(field)
    ensures var t := RewriteSortAt(s, i, mapper);
      && FirstSortMatch(t["sort"], field) == Some(i)
      && CurrentDirection(t["sort"][i].keyValue.value) == mapper(CurrentDirection(s["sort"][i].keyValue.value))
  {
    var l := s["sort"];
    var v := l[i].keyValue.value;
    RewriteSortAtFrame(s, i, mapper);
    var l2 := RewriteSortAt(s, i, mapper)["sort"];
    NewSortValueReads(v, field, mapper);
    FirstMatchUnchanged(l, l2, field, i);
  }

  /**
   * `setSortDirection` changes at most the first `sort` occurrence naming the field; that
   * occurrence is written out again, still names the field, and now states the direction
   * the mapper gives for its old one. Nothing else changes.
   */
  lemma SetSortDirectionEffect(s: State, field: Option<string>, mapper: SortDirection -> SortDirection)
    requires WellFormed(s)
    ensures var t := SetSortDirection(s, field, mapper);
      WellFormed(t) && NextOverallIndex(t) == NextOverallIndex(s)
    ensures field.None? || "sort" !in s || FirstSortMatch(s["sort"], field.value).None? ==>
      SetSortDirection(s, field, mapper) == s
    ensures field.Some? && "sort" in s && FirstSortMatch(s["sort"], field.value).Some? ==>
      var t := SetSortDirection(s, field, mapper);
      var i := FirstSortMatch(s["sort"], field.value).value;
      && (forall k | k in s && k != "sort" :: t[k] == s[k])
      && (forall j | 0 <= j < |s["sort"]| && j != i :: t["sort"][j] == s["sort"][j])
      && !t["sort"][i].keyValue.deleted
      && (!IsBlank(field.value) ==>
            FirstSortMatch(t["sort"], field.value) == Some(i) &&
            CurrentDirection(t["sort"][i].keyValue.value) == mapper(CurrentDirection(s["sort"][i].keyValue.value)))
  {
    var t := SetSortDirection(s, field, mapper);
    SameShapeWellFormed(s, t);
    SameShapeNext(s, t);
    if field.Some? && "sort" in s && FirstSortMatch(s["sort"], field.value).Some? {
      var i := FirstSortMatch(s["sort"], field.value).value;
      RewriteSortAtFrame(s, i, mapper);
      if !IsBlank(field.value) {
        RewriteSortAtReads(s, i, field.value, mapper);
      }
    }
  }

  lemma FirstMatchUnchanged(l1: seq<KeyValueIndex>, l2: seq<KeyValueIndex>, field: string, i: nat)
    requires |l1| == |l2| && i < |l1|
    requires forall j | 0 <= j < i :: l2[j] == l1[j]
    requires FirstSortMatch(l1, field) == Some(i)
    requires SortFieldMatches(l2[i].keyValue.value, field)
    ensures FirstSortMatch(l2, field) == Some(i)
  {
    FirstWhereUnchanged(l1, l2, NamesField(field), i);
  }

  lemma FirstWhereUnchanged(l1: seq<KeyValueIndex>, l2: seq<KeyValueIndex>, p: KeyValueIndex -> bool, i: nat)
    requires |l1| == |l2| && i < |l1|
    requires forall j | 0 <= j < i :: l2[j] == l1[j]
    requires FirstWhere(l1, p) == Some(i)
    requires p(l2[i])
    ensures FirstWhere(l2, p) == Some(i)
  {
    forall j | 0 <= j < i
      ensures !p(l2[j])
    {
      assert l2[j] == l1[j];
    }
  }

  /**
   * Toggling a field that has a direction twice, with either default, gives the direction
   * it started with.
   */
  lemma ToggleTwiceRestores(s: State, field: string, defaultDirection: SortDirection)
    requires WellFormed(s) && "sort" in s && !IsBlank(field)
    requires FirstSortMatch(s["sort"], field).Some?
    requires CurrentDirection(s["sort"][FirstSortMatch(s["sort"], field).value].keyValue.value) != NONE
    ensures var mapper := (d: SortDirection) => d.Toggle(defaultDirection);
      var t := SetSortDirection(SetSortDirection(s, Some(field), mapper), Some(field), mapper);
      var i := FirstSortMatch(s["sort"], field).value;
      WellFormed(t) && FirstSortMatch(t["sort"], field) == Some(i) &&
      CurrentDirection(t["sort"][i].keyValue.value) == CurrentDirection(s["sort"][i].keyValue.value)
  {
    var mapper := (d: SortDirection) => d.Toggle(defaultDirection);
    var i := FirstSortMatch(s["sort"], field).value;
    var t1 := SetSortDirection(s, Some(field), mapper);
    SetSortDirectionEffect(s, Some(field), mapper);
    SetSortDirectionEffect(t1, Some(field), mapper);
    ToggleTwice(CurrentDirection(s["sort"][i].keyValue.value), defaultDirection);
  }
}
