/**
 * The value-level model of a parsed query string: the `KeyValue` and `KeyValueIndex`
 * records, the state map from each key to its occurrences, validation of the raw text,
 * parsing into a state, and serialising a state back into text.
 *
 * A state maps every key to the list of its occurrences in the order they appeared
 * (the "relative" order). Each occurrence carries its "overall" position in the whole
 * query string, so the pairs can be written back in their original order even though
 * the map itself has no order.
 *
 * Percent-encoding is treated as the identity: the escaping and unescaping codec is
 * not part of this model.
 */
module QueryStringState {
  import opened Wrappers
  import opened JavaStrings

  // ---------------------------------------------------------------------------
  // Records
  // ---------------------------------------------------------------------------

  /** One `key=value` pair; `deleted` marks a pair that is no longer written out. */
  datatype KeyValue = KeyValue(key: string, value: string, deleted: bool)

  /** A pair together with its overall position in the query string. */
  datatype KeyValueIndex = KeyValueIndex(overallIndex: int, keyValue: KeyValue)

  /** Each key's occurrences, in the order they appeared. */
  type State = map<string, seq<KeyValueIndex>>

  /** A pair is usable when it has exactly two parts and neither is blank. */
  function FromPair(pair: seq<string>): (r: Option<KeyValue>)
    ensures r.Some? <==> |pair| == 2 && !IsBlank(pair[0]) && !IsBlank(pair[1])
    ensures r.Some? ==> r.value == KeyValue(pair[0], pair[1], false)
  {
    if |pair| == 2 && !IsBlank(pair[0]) && !IsBlank(pair[1]) then Some(KeyValue(pair[0], pair[1], false))
    else None
  }

  /** Reads one `key=value` piece of the query string. */
  function FromKeyValueText(text: string): Option<KeyValue>
  {
    FromPair(Split(text, {'='}))
  }

  /** Builds a pair from a separate key and value; a `null` key or value gives nothing. */
  function FromKeyValue(key: Option<string>, value: Option<string>): (r: Option<KeyValue>)
    ensures r.Some? <==> key.Some? && value.Some? && !IsBlank(key.value) && !IsBlank(value.value)
    ensures r.Some? ==> r.value.key == key.value && r.value.value == value.value && !r.value.deleted
  {
    if key.None? || value.None? then None else FromPair([key.value, value.value])
  }

  /** A pair as it is written into the query string. */
  function Render(kv: KeyValue): string
  {
    kv.key + "=" + kv.value
  }

  /** A replacement of an occurrence's value: same key and position, and no longer deleted. */
  function UpdateValue(e: KeyValueIndex, value: string): (r: KeyValueIndex)
    ensures r.overallIndex == e.overallIndex && r.keyValue.key == e.keyValue.key
    ensures r.keyValue.value == value && !r.keyValue.deleted
  {
    KeyValueIndex(e.overallIndex, KeyValue(e.keyValue.key, value, false))
  }

  /** The same occurrence marked as deleted. */
  function Delete(e: KeyValueIndex): (r: KeyValueIndex)
    ensures r.overallIndex == e.overallIndex && r.keyValue.deleted
    ensures r.keyValue.key == e.keyValue.key && r.keyValue.value == e.keyValue.value
  {
    KeyValueIndex(e.overallIndex, e.keyValue.(deleted := true))
  }

  /** `isCaseInsensitiveEqual`: a `null` value to match never matches. */
  predicate CaseInsensitiveEqual(value: string, other: Option<string>)
  {
    other.Some? && ToLower(value) == ToLower(other.value)
  }

  // ---------------------------------------------------------------------------
  // Validation of the raw text
  // ---------------------------------------------------------------------------

  /** A piece is valid when it splits on `=` into exactly two tokens and the first is non-empty. */
  predicate IsValidPair(pair: string)
  {
    var tokens := Split(pair, {'='});
    |tokens| == 2 && tokens[0] != []
  }

  predicate AllValidPairs(pieces: seq<string>)
  {
    forall i | 0 <= i < |pieces| :: IsValidPair(pieces[i])
  }

  /** The test a query string must pass before it can be parsed; `null` fails it. */
  predicate HasAtLeastOneKeyValuePair(queryString: Option<string>)
  {
    queryString.Some? &&
    var pieces := Split(queryString.value, {'&'});
    if |pieces| == 0 then IsValidPair(queryString.value) else AllValidPairs(pieces)
  }

  /** A piece with at most one token, or an empty first token, is not a valid pair. */
  lemma InvalidPairs()
    ensures !IsValidPair("") && !IsValidPair("=") && !IsValidPair("key")
    ensures !IsValidPair("=value") && !IsValidPair("key=")
  {
    InvalidWithoutEquals();
    InvalidEqualsOnly();
    InvalidWithoutKey();
    InvalidWithoutValue();
  }

  lemma InvalidWithoutEquals()
    ensures !IsValidPair("") && !IsValidPair("key")
  {
    assert Split("", {'='}) == [""];
    assert Split("key", {'='}) == ["key"] by {
      assert NoneIn("key", {'='});
    }
  }

  lemma InvalidEqualsOnly()
    ensures !IsValidPair("=")
  {
    assert !NoneIn("=", {'='}) by {
      assert "="[0] == '=';
    }
    assert Pieces("=", {'='}) == [[], []];
  }

  lemma InvalidWithoutKey()
    ensures !IsValidPair("=value")
  {
    assert !NoneIn("=value", {'='}) by {
      assert "=value"[0] == '=';
    }
    assert Pieces("=value", {'='}) == [[], "value"] by {
      assert "=value" == [] + ['='] + "value";
      PiecesOfConcat([], '=', "value", {'='});
      PiecesOfPlain("value", {'='});
    }
  }

  lemma InvalidWithoutValue()
    ensures !IsValidPair("key=")
  {
    assert !NoneIn("key=", {'='}) by {
      assert "key="[3] == '=';
    }
    assert Pieces("key=", {'='}) == ["key", []] by {
      assert "key=" == "key" + ['='] + [];
      PiecesOfConcat("key", '=', [], {'='});
    }
  }

  /**
   * When `split("&")` yields nothing (the text is all ampersands) the fallback test
   * on the whole text never passes either, so that branch always rejects.
   */
  lemma {:induction false} NoPiecesMeansInvalid(qs: string)
    requires |Split(qs, {'&'})| == 0
    ensures !IsValidPair(qs)
  {
    var seps := {'&'};
    assert !NoneIn(qs, seps);
    AllSeparatorsWhenNoPieces(qs, seps);
    assert NoneIn(qs, {'='});
    assert Split(qs, {'='}) == [qs];
  }

  lemma {:induction false} AllSeparatorsWhenNoPieces(s: string, seps: set<char>)
    requires DropTrailingEmpty(Pieces(s, seps)) == []
    ensures forall i | 0 <= i < |s| :: s[i] in seps
  {
    if s != [] {
      var rest := Pieces(s[1..], seps);
      if s[0] in seps {
        assert DropTrailingEmpty(rest) == [] by {
          EmptyDropOfPrefixed(rest);
        }
        AllSeparatorsWhenNoPieces(s[1..], seps);
        assert forall i | 1 <= i < |s| :: s[i] == s[1..][i - 1];
      } else {
        DropKeepsNonEmptyHead([[s[0]] + rest[0]] + rest[1..]);
        assert false;
      }
    }
  }

  lemma EmptyDropOfPrefixed(rest: seq<string>)
    requires DropTrailingEmpty([[]] + rest) == []
    ensures DropTrailingEmpty(rest) == []
  {
    var ps := [[]] + rest;
    assert forall i | 0 <= i < |rest| :: rest[i] == ps[i + 1];
    AllEmptyDrops(rest);
  }

  lemma DropKeepsNonEmptyHead(ps: seq<string>)
    requires |ps| >= 1 && ps[0] != []
    ensures DropTrailingEmpty(ps) != []
  {
  }

  lemma {:induction false} AllEmptyDrops(ps: seq<string>)
    requires forall i | 0 <= i < |ps| :: ps[i] == []
    ensures DropTrailingEmpty(ps) == []
  {
    if ps != [] {
      AllEmptyDrops(ps[..|ps| - 1]);
    }
  }

  // ---------------------------------------------------------------------------
  // Parsing (createState and the QueryCollector)
  // ---------------------------------------------------------------------------

  /** The usable pairs among the pieces, in order; the others are dropped. */
  function ParsePieces(pieces: seq<string>): (r: seq<KeyValue>)
    ensures |r| <= |pieces|
    ensures forall i | 0 <= i < |r| :: !r[i].deleted
  {
    if pieces == [] then []
    else
      var rest := ParsePieces(pieces[1..]);
      match FromKeyValueText(pieces[0])
      case Some(kv) => [kv] + rest
      case None => rest
  }

  /** The pairs a query string contributes to its state, in order. */
  function Parsed(queryString: string): seq<KeyValue>
  {
    ParsePieces(Split(queryString, {'&'}))
  }

  /** Appends one occurrence to its key's list (`Map.merge` with list concatenation). */
  function Merge(s: State, e: KeyValueIndex): State
  {
    var k := e.keyValue.key;
    if k in s then s[k := s[k] + [e]] else s[k := [e]]
  }

  /** The QueryCollector: the i-th pair gets overall index i and joins its key's list. */
  function Collect(kvs: seq<KeyValue>): State
  {
    if kvs == [] then map[]
    else Merge(Collect(kvs[..|kvs| - 1]), KeyValueIndex(|kvs| - 1, kvs[|kvs| - 1]))
  }

  /** The state a valid query string is parsed into. */
  function CreateState(queryString: string): State
  {
    Collect(Parsed(queryString))
  }

  /** `QueryString.of`: the parsed state, or IllegalArgumentException. */
  function Of(queryString: Option<string>): (r: Result<State>)
    ensures r.Ok? <==> HasAtLeastOneKeyValuePair(queryString)
    ensures r.Err? ==> r.error == IllegalArgument
  {
    if HasAtLeastOneKeyValuePair(queryString) then Ok(CreateState(queryString.value))
    else Err(IllegalArgument)
  }

  /** `null` and the empty string are always rejected. */
  lemma OfRejectsNullAndEmpty()
    ensures Of(None) == Err(IllegalArgument)
    ensures Of(Some("")) == Err(IllegalArgument)
  {
    assert Split("", {'&'}) == [""];
    InvalidPairs();
  }

  /** The `QueryStringTest` rejections: no key, no value, or no `=` at all. */
  lemma OfRejectsMalformed()
    ensures Of(Some("=")).Err? && Of(Some("=value")).Err?
    ensures Of(Some("key")).Err? && Of(Some("key=")).Err?
  {
    InvalidPairs();
    assert Split("key", {'&'}) == ["key"] by {
      assert NoneIn("key", {'&'});
    }
    assert Split("=", {'&'}) == ["="] by {
      assert NoneIn("=", {'&'});
    }
    assert Split("=value", {'&'}) == ["=value"] by {
      assert NoneIn("=value", {'&'});
    }
    assert Split("key=", {'&'}) == ["key="] by {
      assert NoneIn("key=", {'&'});
    }
  }

  // ---------------------------------------------------------------------------
  // Well-formed states
  // ---------------------------------------------------------------------------

  /** Every occurrence is filed under its own key and has a non-negative overall index. */
  predicate KeysConsistent(s: State)
  {
    forall k, j | k in s && 0 <= j < |s[k]| :: s[k][j].keyValue.key == k && s[k][j].overallIndex >= 0
  }

  predicate StrictlyIncreasing(es: seq<KeyValueIndex>)
  {
    forall a, b | 0 <= a < b < |es| :: es[a].overallIndex < es[b].overallIndex
  }

  /** No two positions of the state share an overall index. */
  predicate IndexesUnique(s: State)
  {
    forall k1, j1, k2, j2 |
       k1 in s && 0 <= j1 < |s[k1]| && k2 in s && 0 <= j2 < |s[k2]| &&
       s[k1][j1].overallIndex == s[k2][j2].overallIndex :: k1 == k2 && j1 == j2
  }

  /** The invariant every state built by parsing and by the operations keeps. */
  predicate WellFormed(s: State)
  {
    KeysConsistent(s) && IndexesUnique(s)
  }

  /** Every occurrence, deleted or not. */
  function AllEntries(s: State): set<KeyValueIndex>
  {
    set k, j | k in s && 0 <= j < |s[k]| :: s[k][j]
  }

  /** The occurrences that are written out. */
  function LiveEntries(s: State): (r: set<KeyValueIndex>)
    ensures r <= AllEntries(s)
  {
    set k, j | k in s && 0 <= j < |s[k]| && !s[k][j].keyValue.deleted :: s[k][j]
  }

  predicate IsMaxIndex(es: set<KeyValueIndex>, m: int)
  {
    (exists e :: e in es && e.overallIndex == m) && forall e | e in es :: e.overallIndex <= m
  }

  ghost function MaxIndex(es: set<KeyValueIndex>): (m: int)
    requires es != {}
    ensures IsMaxIndex(es, m)
  {
    var e :| e in es;
    if es == {e} then e.overallIndex
    else
      var rest := MaxIndex(es - {e});
      if e.overallIndex >= rest then e.overallIndex else rest
  }

  lemma MaxIndexExists(es: set<KeyValueIndex>)
    requires es != {}
    ensures exists m :: IsMaxIndex(es, m)
  {
    var m := MaxIndex(es);
  }

  /** `getNextOverallIndex`: one more than the largest overall index in use (deleted ones count), or 1. */
  function NextOverallIndex(s: State): (n: int)
    ensures forall e | e in AllEntries(s) :: e.overallIndex < n
    ensures AllEntries(s) == {} ==> n == 1
    ensures AllEntries(s) != {} ==> IsMaxIndex(AllEntries(s), n - 1)
  {
    var es := AllEntries(s);
    if es == {} then 1
    else
      MaxIndexExists(es);
      var m :| IsMaxIndex(es, m);
      m + 1
  }

  // ---------------------------------------------------------------------------
  // Serialising (reconstructQueryString)
  // ---------------------------------------------------------------------------

  lemma LiveIndexesDistinct(s: State)
    requires WellFormed(s)
    ensures forall e1, e2 | e1 in LiveEntries(s) && e2 in LiveEntries(s) && e1.overallIndex == e2.overallIndex :: e1 == e2
  {
  }

  /** The written-out pairs keyed by their overall index. */
  function IndexMap(s: State): map<int, KeyValue>
    requires WellFormed(s)
  {
    LiveIndexesDistinct(s);
    map e | e in LiveEntries(s) :: e.overallIndex := e.keyValue
  }

  /** The pairs of `m` whose index lies in `[i, n)`, in index order. */
  function Scan(m: map<int, KeyValue>, i: int, n: int): seq<KeyValueIndex>
    decreases n - i
  {
    if i >= n then []
    else (if i in m then [KeyValueIndex(i, m[i])] else []) + Scan(m, i + 1, n)
  }

  /** The written-out occurrences sorted by overall index. */
  function Ordered(s: State): seq<KeyValueIndex>
    requires WellFormed(s)
  {
    Scan(IndexMap(s), 0, NextOverallIndex(s))
  }

  function Renders(es: seq<KeyValueIndex>): (r: seq<string>)
    ensures |r| == |es|
    ensures forall i | 0 <= i < |es| :: r[i] == Render(es[i].keyValue)
  {
    seq(|es|, i requires 0 <= i < |es| => Render(es[i].keyValue))
  }

  /** `reconstructQueryString`: the live pairs in overall order, joined with `&`. */
  function Reconstruct(s: State): string
    requires WellFormed(s)
  {
    Join(Renders(Ordered(s)), "&")
  }

  lemma {:induction false} ScanMembers(m: map<int, KeyValue>, i: int, n: int)
    ensures forall x :: x in Scan(m, i, n) <==> i <= x.overallIndex < n && x.overallIndex in m && m[x.overallIndex] == x.keyValue
    ensures StrictlyIncreasing(Scan(m, i, n))
    decreases n - i
  {
    if i < n {
      ScanMembers(m, i + 1, n);
      var rest := Scan(m, i + 1, n);
      if i in m {
        var r := [KeyValueIndex(i, m[i])] + rest;
        forall a, b | 0 <= a < b < |r|
          ensures r[a].overallIndex < r[b].overallIndex
        {
          if a == 0 {
            assert r[b] == rest[b - 1];
            assert r[b] in rest;
          } else {
            assert r[a] == rest[a - 1] && r[b] == rest[b - 1];
          }
        }
      }
    }
  }

  /**
   * `reconstructQueryString` writes exactly the live occurrences, each once, in
   * strictly increasing overall order.
   */
  lemma OrderedSpec(s: State)
    requires WellFormed(s)
    ensures forall x :: x in Ordered(s) <==> x in LiveEntries(s)
    ensures StrictlyIncreasing(Ordered(s))
  {
    var m := IndexMap(s);
    var n := NextOverallIndex(s);
    ScanMembers(m, 0, n);
    forall x | x in LiveEntries(s)
      ensures x in Ordered(s)
    {
      assert x.overallIndex in m;
    }
    forall x | x in Ordered(s)
      ensures x in LiveEntries(s)
    {
      var e :| e in LiveEntries(s) && e.overallIndex == x.overallIndex;
    }
  }

  // ---------------------------------------------------------------------------
  // Appending a fresh occurrence
  // ---------------------------------------------------------------------------

  lemma {:induction false} ScanSnoc(m: map<int, KeyValue>, i: int, n: int)
    requires i <= n
    ensures Scan(m, i, n + 1) == Scan(m, i, n) + (if n in m then [KeyValueIndex(n, m[n])] else [])
    decreases n - i
  {
    if i < n {
      ScanSnoc(m, i + 1, n);
    }
  }

  lemma {:induction false} ScanAgree(m1: map<int, KeyValue>, m2: map<int, KeyValue>, i: int, n: int)
    requires forall j | i <= j < n :: (j in m1 <==> j in m2) && (j in m1 ==> m1[j] == m2[j])
    ensures Scan(m1, i, n) == Scan(m2, i, n)
    decreases n - i
  {
    if i < n {
      ScanAgree(m1, m2, i + 1, n);
    }
  }

  lemma {:induction false} ScanPastKeys(m: map<int, KeyValue>, i: int, a: int, b: int)
    requires i <= a <= b
    requires forall k | k in m :: k < a
    ensures Scan(m, i, b) == Scan(m, i, a)
    decreases b - a
  {
    if a < b {
      ScanPastKeys(m, i, a, b - 1);
      ScanSnoc(m, i, b - 1);
    }
  }

  /** Merging an occurrence adds it to the entries and changes nothing else. */
  lemma MergeEntries(s: State, e: KeyValueIndex)
    ensures AllEntries(Merge(s, e)) == AllEntries(s) + {e}
    ensures LiveEntries(Merge(s, e)) == LiveEntries(s) + (if e.keyValue.deleted then {} else {e})
  {
    var t := Merge(s, e);
    var k := e.keyValue.key;
    assert e == t[k][|t[k]| - 1];
    forall x | x in AllEntries(s)
      ensures x in AllEntries(t)
    {
      var k1, j1 :| k1 in s && 0 <= j1 < |s[k1]| && s[k1][j1] == x;
      assert t[k1][j1] == x;
    }
    forall x | x in LiveEntries(s)
      ensures x in LiveEntries(t)
    {
      var k1, j1 :| k1 in s && 0 <= j1 < |s[k1]| && !s[k1][j1].keyValue.deleted && s[k1][j1] == x;
      assert t[k1][j1] == x;
    }
    forall x | x in AllEntries(t)
      ensures x in AllEntries(s) + {e}
    {
      var k1, j1 :| k1 in t && 0 <= j1 < |t[k1]| && t[k1][j1] == x;
      if k1 != k || j1 != |t[k]| - 1 {
        assert s[k1][j1] == x;
      }
    }
    forall x | x in LiveEntries(t)
      ensures x in LiveEntries(s) + (if e.keyValue.deleted then {} else {e})
    {
      var k1, j1 :| k1 in t && 0 <= j1 < |t[k1]| && !t[k1][j1].keyValue.deleted && t[k1][j1] == x;
      if k1 != k || j1 != |t[k]| - 1 {
        assert s[k1][j1] == x;
      }
    }
  }

  /** An occurrence whose overall index is above every index in use. */
  predicate IsFreshEntry(s: State, e: KeyValueIndex)
  {
    e.overallIndex >= 0 && forall x | x in AllEntries(s) :: x.overallIndex < e.overallIndex
  }

  lemma MergeOldPositions(s: State, e: KeyValueIndex)
    ensures forall k1, j1 | k1 in s && 0 <= j1 < |s[k1]| :: k1 in Merge(s, e) && j1 < |Merge(s, e)[k1]| && Merge(s, e)[k1][j1] == s[k1][j1]
    ensures forall k1 | k1 in Merge(s, e) && k1 != e.keyValue.key :: k1 in s && Merge(s, e)[k1] == s[k1]
    ensures var k := e.keyValue.key;
      k in Merge(s, e) && Merge(s, e)[k] == (if k in s then s[k] else []) + [e]
  {
    var k := e.keyValue.key;
    if k in s {
      assert Merge(s, e) == s[k := s[k] + [e]];
    } else {
      assert Merge(s, e) == s[k := [e]];
    }
  }

  /** Merging an occurrence with a fresh overall index keeps the state well formed. */
  lemma MergeFreshWellFormed(s: State, e: KeyValueIndex)
    requires WellFormed(s) && IsFreshEntry(s, e)
    ensures WellFormed(Merge(s, e))
  {
    var t: State := Merge(s, e);
    var k := e.keyValue.key;
    MergeOldPositions(s, e);
    var last := |t[k]| - 1;
    forall k1: string, j1: int | k1 in t && 0 <= j1 < |t[k1]| && (k1 != k || j1 != last)
      ensures k1 in s && j1 < |s[k1]| && t[k1][j1] == s[k1][j1]
      ensures t[k1][j1].overallIndex < e.overallIndex
    {
      assert s[k1][j1] in AllEntries(s);
    }
    assert t[k][last] == e;
  }

  /** Merging a live occurrence adds exactly its pair at its index to the index map. */
  lemma MergeIndexMap(s: State, e: KeyValueIndex)
    requires WellFormed(s) && IsFreshEntry(s, e) && !e.keyValue.deleted
    requires WellFormed(Merge(s, e))
    ensures IndexMap(Merge(s, e)) == IndexMap(s)[e.overallIndex := e.keyValue]
  {
    MergeEntries(s, e);
  }

  /** Every live overall index lies below a fresh one and below the next one to hand out. */
  lemma IndexMapBelowFresh(s: State, e: KeyValueIndex)
    requires WellFormed(s) && IsFreshEntry(s, e)
    ensures forall j | j in IndexMap(s) :: j < e.overallIndex && j < NextOverallIndex(s)
  {
    forall j | j in IndexMap(s)
      ensures j < e.overallIndex && j < NextOverallIndex(s)
    {
      var x :| x in LiveEntries(s) && x.overallIndex == j;
    }
  }

  /**
   * Merging a live occurrence with a fresh overall index keeps the state well formed
   * and writes that pair after every pair already written.
   */
  lemma MergeFreshAppends(s: State, e: KeyValueIndex)
    requires WellFormed(s) && IsFreshEntry(s, e) && !e.keyValue.deleted
    ensures WellFormed(Merge(s, e))
    ensures NextOverallIndex(Merge(s, e)) == e.overallIndex + 1
    ensures Ordered(Merge(s, e)) == Ordered(s) + [e]
  {
    var t := Merge(s, e);
    MergeFreshWellFormed(s, e);
    MergeEntries(s, e);
    var n := e.overallIndex;
    assert IsMaxIndex(AllEntries(t), n);
    var ms := IndexMap(s);
    var mt := IndexMap(t);
    MergeIndexMap(s, e);
    IndexMapBelowFresh(s, e);
    ScanSnoc(mt, 0, n);
    ScanAgree(mt, ms, 0, n);
    if NextOverallIndex(s) <= n {
      ScanPastKeys(ms, 0, NextOverallIndex(s), n);
    } else {
      ScanPastKeys(ms, 0, n, NextOverallIndex(s));
    }
  }

  // ---------------------------------------------------------------------------
  // Parsing, characterised
  // ---------------------------------------------------------------------------

  /** Each pair paired with its position. */
  function Indexed(kvs: seq<KeyValue>): (r: seq<KeyValueIndex>)
    ensures |r| == |kvs|
    ensures forall i | 0 <= i < |kvs| :: r[i] == KeyValueIndex(i, kvs[i])
  {
    seq(|kvs|, i requires 0 <= i < |kvs| => KeyValueIndex(i, kvs[i]))
  }

  /** The pairs written out, in order. */
  function RenderAll(kvs: seq<KeyValue>): (r: seq<string>)
    ensures |r| == |kvs|
    ensures forall i | 0 <= i < |kvs| :: r[i] == Render(kvs[i])
  {
    seq(|kvs|, i requires 0 <= i < |kvs| => Render(kvs[i]))
  }

  /**
   * The QueryCollector gives the i-th pair overall index i, so the state is well
   * formed, uses exactly the indexes `0 .. |kvs|-1`, and serialises the pairs in
   * their original order.
   */
  lemma {:induction false} CollectOrdered(kvs: seq<KeyValue>)
    requires forall i | 0 <= i < |kvs| :: !kvs[i].deleted
    ensures WellFormed(Collect(kvs))
    ensures forall x | x in AllEntries(Collect(kvs)) :: 0 <= x.overallIndex < |kvs|
    ensures Ordered(Collect(kvs)) == Indexed(kvs)
  {
    if kvs != [] {
      var p := kvs[..|kvs| - 1];
      var e := KeyValueIndex(|kvs| - 1, kvs[|kvs| - 1]);
      CollectOrdered(p);
      CollectStep(kvs);
    }
  }

  lemma CollectStep(kvs: seq<KeyValue>)
    requires kvs != [] && !kvs[|kvs| - 1].deleted
    requires var p := kvs[..|kvs| - 1];
      && WellFormed(Collect(p))
      && (forall x | x in AllEntries(Collect(p)) :: 0 <= x.overallIndex < |p|)
      && Ordered(Collect(p)) == Indexed(p)
    ensures WellFormed(Collect(kvs))
    ensures forall x | x in AllEntries(Collect(kvs)) :: 0 <= x.overallIndex < |kvs|
    ensures Ordered(Collect(kvs)) == Indexed(kvs)
  {
    var p := kvs[..|kvs| - 1];
    var e := KeyValueIndex(|kvs| - 1, kvs[|kvs| - 1]);
    var sp := Collect(p);
    assert Collect(kvs) == Merge(sp, e);
    MergeFreshAppends(sp, e);
    MergeEntries(sp, e);
    IndexedSnoc(kvs);
  }

  lemma IndexedSnoc(kvs: seq<KeyValue>)
    requires kvs != []
    ensures Indexed(kvs) == Indexed(kvs[..|kvs| - 1]) + [KeyValueIndex(|kvs| - 1, kvs[|kvs| - 1])]
  {
  }

  /**
   * Serialising a freshly parsed state writes back exactly the valid pairs of the
   * input, in their original order; invalid pieces are dropped.
   */
  lemma ReconstructCreateState(queryString: string)
    ensures WellFormed(CreateState(queryString))
    ensures Reconstruct(CreateState(queryString)) == Join(RenderAll(Parsed(queryString)), "&")
  {
    var kvs := Parsed(queryString);
    CollectOrdered(kvs);
    assert Renders(Indexed(kvs)) == RenderAll(kvs);
  }

  /** A pair that survives being written and parsed back: no separators, nothing blank. */
  predicate IsCanonical(kv: KeyValue)
  {
    NoneIn(kv.key, {'&', '='}) && NoneIn(kv.value, {'&', '='}) &&
    !IsBlank(kv.key) && !IsBlank(kv.value) && !kv.deleted
  }

  lemma NoneInSubset(s: string, a: set<char>, b: set<char>)
    requires NoneIn(s, a) && b <= a
    ensures NoneIn(s, b)
  {
  }

  lemma RenderSplits(kv: KeyValue)
    requires IsCanonical(kv)
    ensures Split(Render(kv), {'='}) == [kv.key, kv.value]
    ensures NoneIn(Render(kv), {'&'}) && Render(kv) != []
  {
    NonBlankNotEmpty(kv.value);
    RenderSplitsOnEquals(kv);
    RenderHasNoAmpersand(kv);
  }

  lemma RenderSplitsOnEquals(kv: KeyValue)
    requires NoneIn(kv.key, {'&', '='}) && NoneIn(kv.value, {'&', '='}) && kv.value != []
    ensures Split(Render(kv), {'='}) == [kv.key, kv.value]
  {
    NoneInSubset(kv.key, {'&', '='}, {'='});
    NoneInSubset(kv.value, {'&', '='}, {'='});
    assert Join([kv.key, kv.value], "=") == Render(kv);
    SplitOfJoin([kv.key, kv.value], '=', {'='});
  }

  lemma RenderHasNoAmpersand(kv: KeyValue)
    requires NoneIn(kv.key, {'&', '='}) && NoneIn(kv.value, {'&', '='})
    ensures NoneIn(Render(kv), {'&'}) && Render(kv) != []
  {
    NoneInSubset(kv.key, {'&', '='}, {'&'});
    NoneInSubset(kv.value, {'&', '='}, {'&'});
    NoneInConcat(kv.key, "=", {'&'});
    NoneInConcat(kv.key + "=", kv.value, {'&'});
  }

  /** Text made of two parts without a separator has none either. */
  lemma NoneInConcat(a: string, b: string, seps: set<char>)
    requires NoneIn(a, seps) && NoneIn(b, seps)
    ensures NoneIn(a + b, seps)
  {
    forall i | 0 <= i < |a + b|
      ensures (a + b)[i] !in seps
    {
      if i >= |a| {
        assert (a + b)[i] == b[i - |a|];
      }
    }
  }

  /** A written-out canonical pair reads back as the same pair. */
  lemma FromKeyValueTextOfRender(kv: KeyValue)
    requires IsCanonical(kv)
    ensures FromKeyValueText(Render(kv)) == Some(kv)
    ensures IsValidPair(Render(kv))
  {
    RenderSplits(kv);
    NonBlankNotEmpty(kv.key);
  }

  lemma ParsePiecesOfRenders(kvs: seq<KeyValue>)
    requires forall i | 0 <= i < |kvs| :: IsCanonical(kvs[i])
    ensures ParsePieces(RenderAll(kvs)) == kvs
  {
    var rs := RenderAll(kvs);
    forall i | 0 <= i < |kvs|
      ensures FromKeyValueText(rs[i]) == Some(kvs[i])
    {
      FromKeyValueTextOfRender(kvs[i]);
    }
    ParsePiecesAllParse(rs, kvs);
  }

  /** Pieces that each parse to a pair parse to those pairs, in order. */
  lemma {:induction false} ParsePiecesAllParse(pieces: seq<string>, kvs: seq<KeyValue>)
    requires |pieces| == |kvs| && forall i | 0 <= i < |kvs| :: FromKeyValueText(pieces[i]) == Some(kvs[i])
    ensures ParsePieces(pieces) == kvs
    decreases |pieces|
  {
    if pieces != [] {
      AllParseTail(pieces, kvs);
      ParsePiecesAllParse(pieces[1..], kvs[1..]);
      ParsePiecesCons(pieces, kvs[0]);
      assert kvs == [kvs[0]] + kvs[1..];
    }
  }

  lemma AllParseTail(pieces: seq<string>, kvs: seq<KeyValue>)
    requires |pieces| == |kvs| > 0 && forall i | 0 <= i < |kvs| :: FromKeyValueText(pieces[i]) == Some(kvs[i])
    ensures FromKeyValueText(pieces[0]) == Some(kvs[0])
    ensures forall i | 0 <= i < |kvs| - 1 :: FromKeyValueText(pieces[1..][i]) == Some(kvs[1..][i])
  {
    var ps, ks := pieces[1..], kvs[1..];
    forall i | 0 <= i < |ks|
      ensures FromKeyValueText(ps[i]) == Some(ks[i])
    {
      assert ps[i] == pieces[i + 1] && ks[i] == kvs[i + 1];
    }
  }

  lemma RenderAllTail(kvs: seq<KeyValue>)
    requires kvs != []
    ensures RenderAll(kvs)[0] == Render(kvs[0])
    ensures RenderAll(kvs)[1..] == RenderAll(kvs[1..])
  {
  }

  lemma ParsePiecesCons(pieces: seq<string>, kv: KeyValue)
    requires pieces != [] && FromKeyValueText(pieces[0]) == Some(kv)
    ensures ParsePieces(pieces) == [kv] + ParsePieces(pieces[1..])
  {
  }

  lemma RendersAreValidPairs(kvs: seq<KeyValue>)
    requires forall i | 0 <= i < |kvs| :: IsCanonical(kvs[i])
    ensures AllValidPairs(RenderAll(kvs))
  {
    forall i | 0 <= i < |kvs|
      ensures IsValidPair(RenderAll(kvs)[i])
    {
      FromKeyValueTextOfRender(kvs[i]);
    }
  }

  /**
   * Round trip: a query string made of canonical pairs is accepted, parses into
   * exactly those pairs, and is written back unchanged.
   */
  lemma CanonicalRoundTrip(kvs: seq<KeyValue>)
    requires |kvs| >= 1
    requires forall i | 0 <= i < |kvs| :: IsCanonical(kvs[i])
    ensures var queryString := Join(RenderAll(kvs), "&");
      && HasAtLeastOneKeyValuePair(Some(queryString))
      && Parsed(queryString) == kvs
      && WellFormed(CreateState(queryString))
      && Reconstruct(CreateState(queryString)) == queryString
  {
    var pieces := RenderAll(kvs);
    forall i | 0 <= i < |pieces|
      ensures NoneIn(pieces[i], {'&'}) && pieces[i] != []
    {
      RenderSplits(kvs[i]);
    }
    SplitOfJoin(pieces, '&', {'&'});
    ParsePiecesOfRenders(kvs);
    RendersAreValidPairs(kvs);
    ReconstructCreateState(Join(pieces, "&"));
  }

  // ---------------------------------------------------------------------------
  // Parsing what was written out again
  // ---------------------------------------------------------------------------

  /** Every pair a state writes out would survive being written and parsed back. */
  predicate AllCanonical(s: State)
  {
    forall e | e in LiveEntries(s) :: IsCanonical(e.keyValue)
  }

  /** The pairs of a sequence of occurrences. */
  function KeyValues(es: seq<KeyValueIndex>): (r: seq<KeyValue>)
    ensures |r| == |es|
    ensures forall i | 0 <= i < |es| :: r[i] == es[i].keyValue
  {
    seq(|es|, i requires 0 <= i < |es| => es[i].keyValue)
  }

  /** A piece without `&` that reads as a pair reads as a canonical one. */
  lemma FromKeyValueTextCanonical(text: string)
    requires NoneIn(text, {'&'}) && FromKeyValueText(text).Some?
    ensures IsCanonical(FromKeyValueText(text).value)
  {
    var tokens := Split(text, {'='});
    SplitHasNoSeparator(text, {'='});
    SplitKeepsNoneIn(text, {'='}, {'&'});
    assert NoneIn(tokens[0], {'=', '&'}) && NoneIn(tokens[1], {'=', '&'});
  }

  lemma {:induction false} ParsePiecesCanonical(pieces: seq<string>)
    requires forall j | 0 <= j < |pieces| :: NoneIn(pieces[j], {'&'})
    ensures forall i | 0 <= i < |ParsePieces(pieces)| :: IsCanonical(ParsePieces(pieces)[i])
    decreases |pieces|
  {
    if pieces != [] {
      NoAmpersandTail(pieces);
      ParsePiecesCanonical(pieces[1..]);
      var head := FromKeyValueText(pieces[0]);
      if head.Some? {
        FromKeyValueTextCanonical(pieces[0]);
        ParsePiecesCons(pieces, head.value);
        CanonicalCons(head.value, ParsePieces(pieces[1..]));
      } else {
        ParsePiecesSkip(pieces);
      }
    }
  }

  lemma NoAmpersandTail(pieces: seq<string>)
    requires pieces != [] && forall j | 0 <= j < |pieces| :: NoneIn(pieces[j], {'&'})
    ensures NoneIn(pieces[0], {'&'}) && forall j | 0 <= j < |pieces| - 1 :: NoneIn(pieces[1..][j], {'&'})
  {
    assert forall j | 0 <= j < |pieces| - 1 :: pieces[1..][j] == pieces[j + 1];
  }

  lemma CanonicalCons(kv: KeyValue, rest: seq<KeyValue>)
    requires IsCanonical(kv) && forall i | 0 <= i < |rest| :: IsCanonical(rest[i])
    ensures forall i | 0 <= i < |rest| + 1 :: IsCanonical(([kv] + rest)[i])
  {
    forall i | 0 <= i < |rest| + 1
      ensures IsCanonical(([kv] + rest)[i])
    {
      if i > 0 {
        assert ([kv] + rest)[i] == rest[i - 1];
      }
    }
  }

  lemma ParsePiecesSkip(pieces: seq<string>)
    requires pieces != [] && FromKeyValueText(pieces[0]).None?
    ensures ParsePieces(pieces) == ParsePieces(pieces[1..])
  {
  }

  /** Every pair parsed out of a query string is canonical. */
  lemma CreateStateCanonical(queryString: string)
    ensures WellFormed(CreateState(queryString)) && AllCanonical(CreateState(queryString))
  {
    var kvs := Parsed(queryString);
    SplitHasNoSeparator(queryString, {'&'});
    ParsePiecesCanonical(Split(queryString, {'&'}));
    CollectOrdered(kvs);
    OrderedSpec(Collect(kvs));
    forall e | e in LiveEntries(CreateState(queryString))
      ensures IsCanonical(e.keyValue)
    {
      assert e in Indexed(kvs);
    }
  }

  /**
   * What a state of canonical pairs writes out is empty when nothing is live, and otherwise
   * a valid query string that parses back into exactly the live pairs, in order.
   */
  lemma ReconstructReparses(s: State)
    requires WellFormed(s) && AllCanonical(s)
    ensures Ordered(s) == [] ==> Reconstruct(s) == []
    ensures Ordered(s) != [] ==>
      HasAtLeastOneKeyValuePair(Some(Reconstruct(s))) && Parsed(Reconstruct(s)) == KeyValues(Ordered(s))
  {
    var o := Ordered(s);
    OrderedSpec(s);
    if o != [] {
      var kvs := KeyValues(o);
      assert Renders(o) == RenderAll(kvs);
      forall i | 0 <= i < |kvs|
        ensures IsCanonical(kvs[i])
      {
        assert o[i] in LiveEntries(s);
      }
      CanonicalRoundTrip(kvs);
    }
  }
}
