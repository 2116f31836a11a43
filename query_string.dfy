/**
 * The single-use `QueryString` object: it parses a query string once, edits its
 * state map in place with one operation, and writes the result back out.
 *
 * Every method keeps the state well formed and is proved to leave exactly the state
 * the matching function of `QueryStringOps` describes, so the properties proved
 * there hold for the object too.
 */
module QueryStrings {
  import opened Wrappers
  import opened JavaStrings
  import opened SortDirections
  import opened QueryStringState
  import opened QueryStringOps

  class QueryString {
    /** The (unescaped) query string the object was built from. */
    const originalQueryString: string
    /** Each key's occurrences, in the order they appeared. */
    var state: State

    predicate Valid()
      reads this
    {
      WellFormed(state)
    }

    /** The private constructor: runs the `QueryCollector` over the parsed pairs. */
    constructor(queryString: string)
      ensures originalQueryString == queryString
      ensures state == CreateState(queryString)
      ensures Valid()
    {
      originalQueryString := queryString;
      var stateMap := CollectPairs(Parsed(queryString));
      state := stateMap;
      ReconstructCreateState(queryString);
    }

    /** The `QueryCollector` loop: each pair gets the next overall index and joins its key's list. */
    static method CollectPairs(kvs: seq<KeyValue>) returns (stateMap: State)
      ensures stateMap == Collect(kvs)
    {
      stateMap := map[];
      var index := 0;
      while index < |kvs|
        invariant 0 <= index <= |kvs|
        invariant stateMap == Collect(kvs[..index])
      {
        assert kvs[..index + 1][..index] == kvs[..index];
        stateMap := Merge(stateMap, KeyValueIndex(index, kvs[index]));
        index := index + 1;
      }
      assert kvs[..|kvs|] == kvs;
    }

    /** `QueryString.of`: a new object, or IllegalArgumentException when the text has no valid pairs. */
    static method Of(queryString: Option<string>) returns (r: Result<QueryString>)
      ensures r.Ok? <==> HasAtLeastOneKeyValuePair(queryString)
      ensures r.Err? ==> r.error == IllegalArgument
      ensures r.Ok? ==> fresh(r.value) && r.value.Valid() && r.value.state == CreateState(queryString.value)
    {
      if !HasAtLeastOneKeyValuePair(queryString) {
        return Err(IllegalArgument);
      }
      var q := new QueryString(queryString.value);
      return Ok(q);
    }

    /** `reconstructQueryString`. */
    function ReconstructQueryString(): string
      reads this
      requires Valid()
    {
      Reconstruct(state)
    }

    function FirstValue(key: string): Option<string>
      reads this
    {
      GetFirstValue(state, key)
    }

    function AllValues(key: string): seq<string>
      reads this
    {
      GetAllValues(state, key)
    }

    function NextIndex(): int
      reads this
    {
      NextOverallIndex(state)
    }

    // -------------------------------------------------------------------------
    // Replacing
    // -------------------------------------------------------------------------

    method ReplaceFirst(key: Option<string>, value: Option<string>) returns (r: string)
      requires Valid()
      modifies this
      ensures Valid() && state == QueryStringOps.ReplaceFirst(old(state), key, value)
      ensures r == Reconstruct(state)
    {
      ghost var s0 := state;
      SameShapeWellFormed(s0, QueryStringOps.ReplaceFirst(s0, key, value));
      if key.Some? && value.Some? && key.value in state && state[key.value] != [] {
        var indices := state[key.value];
        state := state[key.value := indices[0 := UpdateValue(indices[0], value.value)]];
        assert state[key.value] == ReplaceWhere(indices, map[0 := value.value]);
      }
      r := Reconstruct(state);
    }

    method ReplaceN(key: string, values: seq<string>) returns (r: string)
      requires Valid()
      modifies this
      ensures Valid() && state == QueryStringOps.ReplaceN(old(state), key, values)
      ensures r == Reconstruct(state)
    {
      SameShapeWellFormed(state, QueryStringOps.ReplaceN(state, key, values));
      if key in state {
        var indices := ReplacePrefix(state[key], values);
        state := state[key := indices];
      }
      r := Reconstruct(state);
    }

    /** The `replaceN` loop over one key's list: position i takes `values[i]` while both last. */
    static method ReplacePrefix(indices: seq<KeyValueIndex>, values: seq<string>) returns (r: seq<KeyValueIndex>)
      ensures r == ReplaceWhere(indices, FirstN(indices, values))
    {
      r := indices;
      var i := 0;
      while i < |r| && i < |values|
        invariant 0 <= i <= |indices| && i <= |values| && |r| == |indices|
        invariant forall j | 0 <= j < |indices| ::
          r[j] == if j < i then UpdateValue(indices[j], values[j]) else indices[j]
      {
        r := r[i := UpdateValue(r[i], values[i])];
        i := i + 1;
      }
    }

    /**
     * `replaceNth` through `applyStateChangeInstructions`: the instructions are taken in
     * whatever order the maps yield them; each in-range one replaces one value.
     */
    method ReplaceNth(instructions: Option<map<string, map<int, string>>>) returns (r: string)
      requires Valid()
      modifies this
      ensures Valid() && state == QueryStringOps.ReplaceNth(old(state), instructions)
      ensures r == Reconstruct(state)
    {
      SameShapeWellFormed(state, QueryStringOps.ReplaceNth(state, instructions));
      if instructions.Some? {
        state := ApplyAllInstructions(state, instructions.value);
      }
      r := Reconstruct(state);
    }

    /** The loop over the instruction map's keys, in whatever order the map yields them. */
    static method ApplyAllInstructions(s: State, all: map<string, map<int, string>>) returns (t: State)
      ensures t == QueryStringOps.ReplaceNth(s, Some(all))
    {
      ghost var replace := (k: string, l: seq<KeyValueIndex>) => if k in all then ReplaceWhere(l, all[k]) else l;
      t := s;
      var pending := all.Keys;
      while pending != {}
        invariant pending <= all.Keys
        invariant t == MappedExcept(s, replace, pending)
        decreases |pending|
      {
        var key :| key in pending;
        MappedExceptStep(s, replace, pending, key);
        if key in t {
          var indices := ApplyInstructions(t[key], all[key]);
          t := t[key := indices];
        }
        pending := pending - {key};
      }
      ReplacedEveryKey(s, all, replace);
    }

    /** With nothing pending, every key's instructions have been applied. */
    static lemma ReplacedEveryKey(s: State, all: map<string, map<int, string>>,
                                  f: (string, seq<KeyValueIndex>) -> seq<KeyValueIndex>)
      requires forall k, l :: f(k, l) == if k in all then ReplaceWhere(l, all[k]) else l
      ensures MappedExcept(s, f, {}) == QueryStringOps.ReplaceNth(s, Some(all))
    {
    }

    /** The instructions for one key, one relative index at a time; out-of-range ones are ignored. */
    static method ApplyInstructions(indices: seq<KeyValueIndex>, changes: map<int, string>) returns (r: seq<KeyValueIndex>)
      ensures r == ReplaceWhere(indices, changes)
    {
      r := indices;
      var todo := changes.Keys;
      while todo != {}
        invariant todo <= changes.Keys && |r| == |indices|
        invariant forall j | 0 <= j < |indices| ::
          r[j] == if j in changes && j !in todo then UpdateValue(indices[j], changes[j]) else indices[j]
        decreases |todo|
      {
        ghost var some := ElementOf(todo);
        var index :| index in todo;
        if 0 <= index < |r| {
          r := r[index := UpdateValue(r[index], changes[index])];
        }
        todo := todo - {index};
      }
    }

    // -------------------------------------------------------------------------
    // Removing
    // -------------------------------------------------------------------------

    method RemoveFirst(key: string) returns (r: string)
      requires Valid()
      modifies this
      ensures Valid() && state == QueryStringOps.RemoveFirst(old(state), key)
      ensures r == Reconstruct(state)
    {
      RemoveFirstLive(state, key);
      if key in state && state[key] != [] {
        var indices := state[key];
        state := state[key := indices[0 := Delete(indices[0])]];
        assert state[key] == DeleteWhere(indices, {0});
      }
      r := Reconstruct(state);
    }

    method RemoveAll(keys: Option<seq<string>>) returns (r: string)
      requires Valid()
      modifies this
      ensures Valid() && state == QueryStringOps.RemoveAll(old(state), keys)
      ensures r == Reconstruct(state)
    {
      RemoveAllLive(state, if keys.Some? then keys.value else []);
      if keys.Some? {
        var remaining := RemoveKeys(state, keys.value);
        state := remaining;
      }
      r := Reconstruct(state);
    }

    /** The `removeAll` loop: removes the listed keys from the map one by one. */
    static method RemoveKeys(s: State, keys: seq<string>) returns (t: State)
      ensures t == s - (set k | k in keys)
    {
      t := s;
      var i := 0;
      while i < |keys|
        invariant 0 <= i <= |keys|
        invariant t == s - (set k | k in keys[..i])
      {
        assert forall k :: k in keys[..i + 1] <==> k in keys[..i] || k == keys[i];
        t := t - {keys[i]};
        i := i + 1;
      }
      assert keys[..|keys|] == keys;
    }

    method RemoveN(key: string, n: int) returns (r: string)
      requires Valid()
      modifies this
      ensures Valid() && state == QueryStringOps.RemoveN(old(state), key, n)
      ensures r == Reconstruct(state)
    {
      RemoveNLive(state, key, n);
      if n <= 0 {
        r := Reconstruct(state);
        return;
      }
      if key in state {
        if n >= |state[key]| {
          r := RemoveAll(Some([key]));
          return;
        }
        var indices := DeletePrefix(state[key], n);
        state := state[key := indices];
      }
      r := Reconstruct(state);
    }

    /** The `removeN` loop over one key's list: deletes occurrences until `n` are gone. */
    static method DeletePrefix(indices: seq<KeyValueIndex>, n: int) returns (r: seq<KeyValueIndex>)
      ensures r == DeleteWhere(indices, Below(n))
    {
      r := indices;
      var removedCount := 0;
      var i := 0;
      while i < |r| && removedCount < n
        invariant 0 <= i <= |indices| && removedCount == i && |r| == |indices|
        invariant i == 0 || i <= n
        invariant forall j | 0 <= j < |indices| :: r[j] == if j < i then Delete(indices[j]) else indices[j]
      {
        r := r[i := Delete(r[i])];
        removedCount := removedCount + 1;
        i := i + 1;
      }
      assert forall j | 0 <= j < |indices| :: (j in Below(n)) == (j < i);
    }

    method RemoveNth(key: string, nthIndex: int) returns (r: string)
      requires Valid()
      modifies this
      ensures Valid() && state == QueryStringOps.RemoveNth(old(state), key, nthIndex)
      ensures r == Reconstruct(state)
    {
      RemoveNthLive(state, key, nthIndex);
      if key in state && state[key] != [] && 0 <= nthIndex < |state[key]| {
        var indices := state[key];
        state := state[key := indices[nthIndex := Delete(indices[nthIndex])]];
        assert state[key] == DeleteWhere(indices, {nthIndex});
      }
      r := Reconstruct(state);
    }

    /** `applyToKeyValues`: applies `f` to every occurrence of the key at a listed relative index. */
    method ApplyToKeyValues(key: string, relativeIndexes: seq<int>, f: KeyValueIndex -> KeyValueIndex)
      modifies this
      ensures state == if key in old(state) && old(state)[key] != []
        then old(state)[key := Applied(old(state)[key], relativeIndexes, f)]
        else old(state)
    {
      if key in state && state[key] != [] {
        var indices := state[key];
        var i := 0;
        while i < |indices|
          invariant 0 <= i <= |indices| && |indices| == |old(state)[key]|
          invariant forall j | 0 <= j < |indices| ::
            indices[j] == if j < i && j in relativeIndexes then f(old(state)[key][j]) else old(state)[key][j]
        {
          if i in relativeIndexes {
            indices := indices[i := f(indices[i])];
          }
          i := i + 1;
        }
        assert indices == Applied(old(state)[key], relativeIndexes, f);
        state := state[key := indices];
      }
    }

    method RemoveManyNth(key: string, relativeIndexes: seq<int>) returns (r: string)
      requires Valid()
      modifies this
      ensures Valid() && state == QueryStringOps.RemoveManyNth(old(state), key, relativeIndexes)
      ensures r == Reconstruct(state)
    {
      RemoveManyNthLive(state, key, relativeIndexes);
      if key in state && state[key] != [] {
        AppliedDelete(state[key], relativeIndexes);
      }
      ApplyToKeyValues(key, relativeIndexes, Delete);
      r := Reconstruct(state);
    }

    method AdjustNumericValueBy(key: string, relativeIndexes: seq<int>, delta: int, accept: int -> bool) returns (r: string)
      requires Valid()
      modifies this
      ensures Valid() && state == QueryStringOps.AdjustNumericValueBy(old(state), key, relativeIndexes, delta, accept)
      ensures r == Reconstruct(state)
    {
      AdjustNumericValues(state, key, relativeIndexes, delta, accept);
      if key in state && state[key] != [] {
        AppliedAdjust(state[key], relativeIndexes, delta, accept);
      }
      ApplyToKeyValues(key, relativeIndexes, (e: KeyValueIndex) => AdjustValue(e, delta, accept));
      r := Reconstruct(state);
    }

    method RemoveKeyMatchingValue(key: string, valueMatch: Option<string>) returns (r: string)
      requires Valid()
      modifies this
      ensures Valid() && state == QueryStringOps.RemoveKeyMatchingValue(old(state), key, valueMatch)
      ensures r == Reconstruct(state)
    {
      RemoveKeyMatchingValueLive(state, key, valueMatch);
      if key in state {
        state := state[key := WithoutMatches(state[key], valueMatch)];
      }
      r := Reconstruct(state);
    }

    /** `removeAnyKeyMatchingValue`: visits the keys in whatever order the map yields them. */
    method RemoveAnyKeyMatchingValue(valueMatch: Option<string>) returns (r: string)
      requires Valid()
      modifies this
      ensures Valid() && state == QueryStringOps.RemoveAnyKeyMatchingValue(old(state), valueMatch)
      ensures r == Reconstruct(state)
    {
      RemoveAnyKeyMatchingValueLive(state, valueMatch);
      var filtered := FilterEveryKey(state, valueMatch);
      state := filtered;
      r := Reconstruct(state);
    }

    /** The `removeAnyKeyMatchingValue` loop over the map's entries. */
    static method FilterEveryKey(s: State, valueMatch: Option<string>) returns (t: State)
      ensures t == QueryStringOps.RemoveAnyKeyMatchingValue(s, valueMatch)
    {
      ghost var filter := (k: string, l: seq<KeyValueIndex>) => WithoutMatches(l, valueMatch);
      t := s;
      var pending := s.Keys;
      while pending != {}
        invariant pending <= s.Keys
        invariant t == MappedExcept(s, filter, pending)
        decreases |pending|
      {
        var key :| key in pending;
        MappedExceptStep(s, filter, pending, key);
        t := t[key := WithoutMatches(t[key], valueMatch)];
        pending := pending - {key};
      }
      FilteredEveryKey(s, valueMatch, filter);
    }

    /** The state once `f` has been applied to the list of every key outside `pending`. */
    static ghost function MappedExcept(s: State, f: (string, seq<KeyValueIndex>) -> seq<KeyValueIndex>,
                                       pending: set<string>): State
    {
      map k | k in s :: if k in pending then s[k] else f(k, s[k])
    }

    /** Applying `f` to one more pending key replaces that key's list, if the state has it, and nothing else. */
    static lemma MappedExceptStep(s: State, f: (string, seq<KeyValueIndex>) -> seq<KeyValueIndex>,
                                  pending: set<string>, key: string)
      requires key in pending
      ensures key in MappedExcept(s, f, pending) <==> key in s
      ensures key in s ==> MappedExcept(s, f, pending)[key] == s[key]
      ensures key in s ==>
        MappedExcept(s, f, pending - {key}) == MappedExcept(s, f, pending)[key := f(key, s[key])]
      ensures key !in s ==> MappedExcept(s, f, pending - {key}) == MappedExcept(s, f, pending)
    {
    }

    /** With nothing pending, every key has been filtered. */
    static lemma FilteredEveryKey(s: State, valueMatch: Option<string>,
                                  f: (string, seq<KeyValueIndex>) -> seq<KeyValueIndex>)
      requires forall k, l :: f(k, l) == WithoutMatches(l, valueMatch)
      ensures MappedExcept(s, f, {}) == QueryStringOps.RemoveAnyKeyMatchingValue(s, valueMatch)
    {
    }

    // -------------------------------------------------------------------------
    // Adding
    // -------------------------------------------------------------------------

    method Add(key: Option<string>, value: Option<string>) returns (r: string)
      requires Valid()
      modifies this
      ensures Valid() && state == QueryStringOps.Add(old(state), key, value)
      ensures r == Reconstruct(state)
    {
      AddReconstruct(state, key, value);
      var maybeKeyValue := FromKeyValue(key, value);
      if maybeKeyValue.Some? {
        var kv := maybeKeyValue.value;
        if kv.value !in GetAllValues(state, kv.key) {
          state := Merge(state, KeyValueIndex(NextOverallIndex(state), kv));
        }
      }
      r := Reconstruct(state);
    }

    /** `addAll`: the pairs are added one after another, each seeing the ones added before it. */
    method AddAll(keyValuePairs: Option<seq<seq<string>>>) returns (r: string)
      requires Valid()
      modifies this
      ensures Valid() && state == QueryStringOps.AddAll(old(state), keyValuePairs)
      ensures r == Reconstruct(state)
    {
      ghost var s0 := state;
      if keyValuePairs.Some? {
        var pairs := keyValuePairs.value;
        var i := 0;
        while i < |pairs|
          invariant 0 <= i <= |pairs|
          invariant WellFormed(state)
          invariant AddPairs(state, pairs[i..]) == AddPairs(s0, pairs)
        {
          assert pairs[i..][1..] == pairs[i + 1..];
          AddPairStep(state, pairs[i]);
          state := AddPair(state, pairs[i]);
          i := i + 1;
        }
      }
      r := Reconstruct(state);
    }

    // -------------------------------------------------------------------------
    // Sorting
    // -------------------------------------------------------------------------

    /**
     * `setSortDirection`: searches the `sort` values for the first naming the field, and
     * rewrites that one with the direction the mapper gives for its current one.
     */
    method SetSortDirection(sortField: Option<string>, mapper: SortDirection -> SortDirection) returns (r: string)
      requires Valid()
      modifies this
      ensures Valid() && state == QueryStringOps.SetSortDirection(old(state), sortField, mapper)
      ensures r == Reconstruct(state)
    {
      SameShapeWellFormed(state, QueryStringOps.SetSortDirection(state, sortField, mapper));
      if sortField.None? || "sort" !in state {
        r := Reconstruct(state);
        return;
      }
      var indices := state["sort"];
      var foundIndex, sortTokens := FindSortField(indices, sortField.value);
      if foundIndex != -1 {
        var currentOrder := if |sortTokens| == 2 then From(Trim(sortTokens[1])) else NONE;
        var newSortDirection := mapper(currentOrder);
        var newSortValue := newSortDirection.WithSortField(Trim(sortTokens[0]));
        assert newSortValue == NewSortValue(indices[foundIndex].keyValue.value, mapper);
        state := state["sort" := indices[foundIndex := UpdateValue(indices[foundIndex], newSortValue)]];
      }
      r := Reconstruct(state);
    }

    /** The search loop of `setSortDirection`: stops at the first value naming the field. */
    static method FindSortField(indices: seq<KeyValueIndex>, field: string) returns (foundIndex: int, sortTokens: seq<string>)
      ensures -1 <= foundIndex < |indices|
      ensures foundIndex == -1 ==> FirstSortMatch(indices, field) == None
      ensures foundIndex >= 0 ==> FirstSortMatch(indices, field) == Some(foundIndex)
      ensures foundIndex >= 0 ==> sortTokens == SortTokens(indices[foundIndex].keyValue.value) && |sortTokens| > 0
    {
      foundIndex := -1;
      sortTokens := [];
      var i := 0;
      while i < |indices| && foundIndex == -1
        invariant 0 <= i <= |indices| && -1 <= foundIndex < |indices|
        invariant foundIndex == -1 ==> forall j | 0 <= j < i :: !SortFieldMatches(indices[j].keyValue.value, field)
        invariant foundIndex >= 0 ==> FirstSortMatch(indices, field) == Some(foundIndex)
        invariant foundIndex >= 0 ==> sortTokens == SortTokens(indices[foundIndex].keyValue.value) && |sortTokens| > 0
      {
        if SortFieldMatches(indices[i].keyValue.value, field) {
          FirstSortMatchIs(indices, field, i);
          foundIndex := i;
          sortTokens := SortTokens(indices[i].keyValue.value);
        } else {
          NoSortMatchExtends(indices, field, i);
        }
        i := i + 1;
      }
      if foundIndex == -1 {
        FirstSortMatchNone(indices, field);
      }
    }

    method ToggleSortDefaultAsc(sortField: Option<string>) returns (r: string)
      requires Valid()
      modifies this
      ensures Valid() && state == QueryStringOps.ToggleSortDefaultAsc(old(state), sortField)
      ensures r == Reconstruct(state)
    {
      r := SetSortDirection(sortField, (d: SortDirection) => d.Toggle(ASC));
    }

    method ToggleSortDefaultDesc(sortField: Option<string>) returns (r: string)
      requires Valid()
      modifies this
      ensures Valid() && state == QueryStringOps.ToggleSortDefaultDesc(old(state), sortField)
      ensures r == Reconstruct(state)
    {
      r := SetSortDirection(sortField, (d: SortDirection) => d.Toggle(DESC));
    }
  }

  /** An element of a non-empty set, for the loops that visit a map's entries in no set order. */
  lemma ElementOf<T>(s: set<T>) returns (x: T)
    requires s != {}
    ensures x in s
  {
    x :| x in s;
  }

  /** The list `applyToKeyValues` leaves: `f` applied at every listed relative index. */
  function Applied(l: seq<KeyValueIndex>, relativeIndexes: seq<int>, f: KeyValueIndex -> KeyValueIndex): seq<KeyValueIndex>
  {
    seq(|l|, j requires 0 <= j < |l| => if j in relativeIndexes then f(l[j]) else l[j])
  }

  lemma AppliedDelete(l: seq<KeyValueIndex>, relativeIndexes: seq<int>)
    ensures Applied(l, relativeIndexes, Delete) == DeleteWhere(l, set i | i in relativeIndexes)
  {
  }

  lemma AppliedAdjust(l: seq<KeyValueIndex>, relativeIndexes: seq<int>, delta: int, accept: int -> bool)
    ensures Applied(l, relativeIndexes, (e: KeyValueIndex) => AdjustValue(e, delta, accept))
      == AdjustWhere(l, relativeIndexes, delta, accept)
  {
  }

  /** One more position that does not name the field extends the run of positions that do not. */
  lemma NoSortMatchExtends(l: seq<KeyValueIndex>, field: string, i: nat)
    requires i < |l| && !SortFieldMatches(l[i].keyValue.value, field)
    requires forall j | 0 <= j < i :: !SortFieldMatches(l[j].keyValue.value, field)
    ensures forall j | 0 <= j < i + 1 :: !SortFieldMatches(l[j].keyValue.value, field)
  {
  }

  /** The search loop's answer when it runs to the end. */
  lemma FirstSortMatchNone(l: seq<KeyValueIndex>, field: string)
    requires forall j | 0 <= j < |l| :: !SortFieldMatches(l[j].keyValue.value, field)
    ensures FirstSortMatch(l, field) == None
  {
  }

  /** The search loop's answer when it stops at position `i`. */
  lemma FirstSortMatchIs(l: seq<KeyValueIndex>, field: string, i: nat)
    requires i < |l| && SortFieldMatches(l[i].keyValue.value, field)
    requires forall j | 0 <= j < i :: !SortFieldMatches(l[j].keyValue.value, field)
    ensures FirstSortMatch(l, field) == Some(i)
  {
  }
}
