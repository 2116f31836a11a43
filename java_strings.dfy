/**
 * The parts of java.lang.String and java.lang.Integer that the modelled code relies on,
 * written out with Java's own edge cases: `String.split` drops trailing empty strings,
 * `trim` strips every character at or below U+0020, `Integer.parseInt` rejects text
 * outside the 32-bit range, and `int` arithmetic wraps around.
 *
 * Case conversion is ASCII-only; Java's Unicode case mapping is not modelled.
 */
module JavaStrings {
  import opened Wrappers

  // ---------------------------------------------------------------------------
  // 32-bit integers
  // ---------------------------------------------------------------------------

  const MinInt: int := -0x8000_0000
  const MaxInt: int := 0x7fff_ffff

  predicate IsInt32(x: int) {
    MinInt <= x <= MaxInt
  }

  /** The value a Java `int` expression yields for the mathematical result `x`. */
  function Wrap32(x: int): (r: int)
    ensures IsInt32(r)
    ensures IsInt32(x) ==> r == x
    ensures (r - x) % 0x1_0000_0000 == 0
  {
    (x - MinInt) % 0x1_0000_0000 + MinInt
  }

  /** One more than the largest `int` wraps to the smallest. */
  lemma WrapPastMax()
    ensures Wrap32(MaxInt + 1) == MinInt
  {
  }

  // ---------------------------------------------------------------------------
  // Joining and splitting
  // ---------------------------------------------------------------------------

  /** `Collectors.joining(sep)`: the parts with `sep` between neighbours, none at either end. */
  function Join(parts: seq<string>, sep: string): string
  {
    if |parts| == 0 then []
    else if |parts| == 1 then parts[0]
    else parts[0] + sep + Join(parts[1..], sep)
  }

  lemma {:induction false} JoinAppend(parts: seq<string>, x: string, sep: string)
    requires |parts| >= 1
    ensures Join(parts + [x], sep) == Join(parts, sep) + sep + x
  {
    if |parts| == 1 {
      assert parts + [x] == [parts[0], x];
    } else {
      assert (parts + [x])[1..] == parts[1..] + [x];
      JoinAppend(parts[1..], x, sep);
    }
  }

  /** Joining more parts only extends the text written for the first ones. */
  lemma {:induction false} JoinPrefix(a: seq<string>, b: seq<string>, sep: string)
    requires |a| >= 1
    ensures Join(a, sep) <= Join(a + b, sep)
    decreases |b|
  {
    if b == [] {
      assert a + b == a;
    } else {
      var b' := b[..|b| - 1];
      assert a + b == (a + b') + [b[|b| - 1]];
      JoinPrefix(a, b', sep);
      JoinAppend(a + b', b[|b| - 1], sep);
    }
  }

  predicate NoneIn(s: string, seps: set<char>) {
    forall i | 0 <= i < |s| :: s[i] !in seps
  }

  /**
   * The text between consecutive separator characters. Every separator starts a
   * new piece, so there is always one piece more than there are separators.
   */
  function Pieces(s: string, seps: set<char>): (r: seq<string>)
    ensures |r| >= 1
  {
    if s == [] then [[]]
    else
      var rest := Pieces(s[1..], seps);
      if s[0] in seps then [[]] + rest
      else [[s[0]] + rest[0]] + rest[1..]
  }

  /** Removes the empty strings at the end, as `String.split` does with limit 0. */
  function DropTrailingEmpty(ps: seq<string>): (r: seq<string>)
    ensures r <= ps
    ensures r == [] || r[|r| - 1] != []
    ensures forall i | |r| <= i < |ps| :: ps[i] == []
  {
    if ps == [] then []
    else if ps[|ps| - 1] == [] then DropTrailingEmpty(ps[..|ps| - 1])
    else ps
  }

  /**
   * `s.split(regex)` where the regex matches exactly one character of `seps`:
   * with no match the result is `[s]` (even for the empty string); otherwise the
   * pieces with their trailing empty strings removed.
   */
  function Split(s: string, seps: set<char>): seq<string>
  {
    if NoneIn(s, seps) then [s] else DropTrailingEmpty(Pieces(s, seps))
  }

  lemma {:induction false} PiecesHaveNoSeparator(s: string, seps: set<char>)
    ensures forall j | 0 <= j < |Pieces(s, seps)| :: NoneIn(Pieces(s, seps)[j], seps)
  {
    if s != [] {
      PiecesHaveNoSeparator(s[1..], seps);
    }
  }

  /** No token of a split contains a separator. */
  lemma SplitHasNoSeparator(s: string, seps: set<char>)
    ensures forall j | 0 <= j < |Split(s, seps)| :: NoneIn(Split(s, seps)[j], seps)
  {
    if !NoneIn(s, seps) {
      PiecesHaveNoSeparator(s, seps);
    }
  }

  lemma {:induction false} PiecesOfPlain(s: string, seps: set<char>)
    requires NoneIn(s, seps)
    ensures Pieces(s, seps) == [s]
  {
    if s != [] {
      PiecesOfPlain(s[1..], seps);
      assert [s[0]] + s[1..] == s;
    }
  }

  lemma {:induction false} PiecesOfConcat(a: string, c: char, b: string, seps: set<char>)
    requires NoneIn(a, seps) && c in seps
    ensures Pieces(a + [c] + b, seps) == [a] + Pieces(b, seps)
  {
    if a == [] {
      assert [c] + b == a + [c] + b;
      assert ([c] + b)[1..] == b;
    } else {
      assert (a + [c] + b)[1..] == a[1..] + [c] + b;
      PiecesOfConcat(a[1..], c, b, seps);
      assert [a[0]] + a[1..] == a;
    }
  }

  /** Splitting undoes joining, as long as no part contains a separator. */
  lemma {:induction false} PiecesOfJoin(parts: seq<string>, c: char, seps: set<char>)
    requires |parts| >= 1 && c in seps
    requires forall j | 0 <= j < |parts| :: NoneIn(parts[j], seps)
    ensures Pieces(Join(parts, [c]), seps) == parts
  {
    if |parts| == 1 {
      PiecesOfPlain(parts[0], seps);
    } else {
      PiecesOfJoin(parts[1..], c, seps);
      PiecesOfConcat(parts[0], c, Join(parts[1..], [c]), seps);
      assert [parts[0]] + parts[1..] == parts;
    }
  }

  /** Joining undoes splitting into pieces. */
  lemma {:induction false} JoinOfPieces(s: string, c: char)
    ensures Join(Pieces(s, {c}), [c]) == s
  {
    if s != [] {
      JoinOfPieces(s[1..], c);
      var rest := Pieces(s[1..], {c});
      if s[0] == c {
        assert Join([[]] + rest, [c]) == [] + [c] + Join(rest, [c]) by {
          assert ([[]] + rest)[1..] == rest;
        }
        assert [s[0]] + s[1..] == s;
      } else if |rest| == 1 {
        assert [s[0]] + s[1..] == s;
      } else {
        var ps := [[s[0]] + rest[0]] + rest[1..];
        assert ps[1..] == rest[1..];
        assert Join(rest, [c]) == rest[0] + [c] + Join(rest[1..], [c]);
        assert [s[0]] + s[1..] == s;
      }
    }
  }

  lemma JoinHasSeparator(parts: seq<string>, c: char, seps: set<char>)
    requires |parts| >= 2 && c in seps
    ensures !NoneIn(Join(parts, [c]), seps)
  {
    var j := Join(parts, [c]);
    assert j[|parts[0]|] == c;
  }

  lemma JoinOfPlainParts(parts: seq<string>, c: char)
    requires |parts| == 1
    ensures Join(parts, [c]) == parts[0]
  {
  }

  /**
   * Splitting `Join(parts, c)` on any separators that include `c` gives back `parts`,
   * when no part holds a separator and the last part is non-empty.
   */
  lemma SplitOfJoin(parts: seq<string>, c: char, seps: set<char>)
    requires |parts| >= 1 && parts[|parts| - 1] != [] && c in seps
    requires forall j | 0 <= j < |parts| :: NoneIn(parts[j], seps)
    ensures Split(Join(parts, [c]), seps) == parts
  {
    if |parts| == 1 {
      JoinOfPlainParts(parts, c);
    } else {
      JoinHasSeparator(parts, c, seps);
      PiecesOfJoin(parts, c, seps);
    }
  }

  /** Pieces are cut out of the text, so a character absent from the text is absent from every piece. */
  lemma {:induction false} PiecesKeepNoneIn(s: string, seps: set<char>, absent: set<char>)
    requires NoneIn(s, absent)
    ensures forall j | 0 <= j < |Pieces(s, seps)| :: NoneIn(Pieces(s, seps)[j], absent)
  {
    if s != [] {
      PiecesKeepNoneIn(s[1..], seps, absent);
      var rest := Pieces(s[1..], seps);
      assert NoneIn([s[0]] + rest[0], absent);
    }
  }

  lemma SplitKeepsNoneIn(s: string, seps: set<char>, absent: set<char>)
    requires NoneIn(s, absent)
    ensures forall j | 0 <= j < |Split(s, seps)| :: NoneIn(Split(s, seps)[j], absent)
  {
    if !NoneIn(s, seps) {
      PiecesKeepNoneIn(s, seps, absent);
    }
  }

  /** Without a separator in `s`, `split` returns `s` itself, empty or not. */
  lemma SplitOfPlain(s: string, seps: set<char>)
    requires NoneIn(s, seps)
    ensures Split(s, seps) == [s]
  {
  }

  /** The text before the first separator character: all of `s` when it has none. */
  function BeforeFirst(s: string, seps: set<char>): (r: string)
    ensures r <= s && NoneIn(r, seps)
    ensures |r| < |s| ==> s[|r|] in seps
  {
    if s == [] || s[0] in seps then [] else [s[0]] + BeforeFirst(s[1..], seps)
  }

  /** Text without a separator, followed by a separator or nothing, is exactly what comes before the first. */
  lemma {:induction false} BeforeFirstOfConcat(a: string, b: string, seps: set<char>)
    requires NoneIn(a, seps) && (b == [] || b[0] in seps)
    ensures BeforeFirst(a + b, seps) == a
  {
    if a != [] {
      assert (a + b)[1..] == a[1..] + b;
      BeforeFirstOfConcat(a[1..], b, seps);
    } else {
      assert a + b == b;
    }
  }

  lemma {:induction false} PiecesHead(s: string, seps: set<char>)
    ensures Pieces(s, seps)[0] == BeforeFirst(s, seps)
  {
    if s != [] {
      PiecesHead(s[1..], seps);
    }
  }

  /**
   * The first token `split` returns is the text before the first separator; when it
   * returns no token at all (the text is nothing but separators) that text is empty.
   */
  lemma SplitHead(s: string, seps: set<char>)
    ensures |Split(s, seps)| > 0 ==> Split(s, seps)[0] == BeforeFirst(s, seps)
    ensures |Split(s, seps)| == 0 ==> BeforeFirst(s, seps) == []
  {
    if !NoneIn(s, seps) {
      PiecesHead(s, seps);
      var ps := Pieces(s, seps);
      if DropTrailingEmpty(ps) == [] {
        assert ps[0] == [];
      }
    }
  }

  // ---------------------------------------------------------------------------
  // Trimming and blank text
  // ---------------------------------------------------------------------------

  function TrimStart(s: string): (r: string)
    ensures r == [] || r[0] > ' '
    ensures |r| <= |s| && r == s[|s| - |r|..]
  {
    if s != [] && s[0] <= ' ' then TrimStart(s[1..]) else s
  }

  function TrimEnd(s: string): (r: string)
    ensures r == [] || r[|r| - 1] > ' '
    ensures r <= s
  {
    if s != [] && s[|s| - 1] <= ' ' then TrimEnd(s[..|s| - 1]) else s
  }

  /** Java's `String.trim`. */
  function Trim(s: string): string
  {
    TrimEnd(TrimStart(s))
  }

  /** A string that starts and ends above U+0020 is its own trim. */
  lemma TrimOfTrimmed(s: string)
    requires s == [] || (s[0] > ' ' && s[|s| - 1] > ' ')
    ensures Trim(s) == s
  {
  }

  /** A trimmed string starts and ends above U+0020, so trimming it again changes nothing. */
  lemma TrimIdempotent(s: string)
    ensures var r := Trim(s); r == [] || (r[0] > ' ' && r[|r| - 1] > ' ')
    ensures Trim(Trim(s)) == Trim(s)
  {
    var t := TrimStart(s);
    var r := TrimEnd(t);
    if r != [] {
      assert r[0] == t[0];
    }
    TrimOfTrimmed(r);
  }

  /** Trimming only removes characters, so it adds no separator. */
  lemma NoneInTrim(s: string, seps: set<char>)
    requires NoneIn(s, seps)
    ensures NoneIn(Trim(s), seps)
  {
    var t := TrimStart(s);
    var r := TrimEnd(t);
    var k := |s| - |t|;
    assert t == s[k..];
    assert r == t[..|r|];
    forall i | 0 <= i < |r|
      ensures r[i] !in seps
    {
      assert r[i] == t[i];
      assert t[i] == s[k + i];
    }
  }

  /**
   * `s.trim().isEmpty()`, stated character by character: every character is at or
   * below U+0020 (`BlankIff` ties the two readings together).
   */
  predicate IsBlank(s: string)
  {
    forall i | 0 <= i < |s| :: s[i] <= ' '
  }

  lemma NonBlankNotEmpty(s: string)
    requires !IsBlank(s)
    ensures s != []
  {
  }

  lemma {:induction false} TrimStartEmptyIff(s: string)
    ensures TrimStart(s) == [] <==> forall i | 0 <= i < |s| :: s[i] <= ' '
  {
    if s != [] && s[0] <= ' ' {
      TrimStartEmptyIff(s[1..]);
      assert forall i | 1 <= i < |s| :: s[i] == s[1..][i - 1];
    }
  }

  lemma {:induction false} TrimEndEmptyIff(s: string)
    ensures TrimEnd(s) == [] <==> forall i | 0 <= i < |s| :: s[i] <= ' '
  {
    if s != [] && s[|s| - 1] <= ' ' {
      TrimEndEmptyIff(s[..|s| - 1]);
    }
  }

  /** A string is blank exactly when Java's `trim` leaves nothing of it. */
  lemma BlankIff(s: string)
    ensures IsBlank(s) <==> Trim(s) == []
  {
    var t := TrimStart(s);
    TrimStartEmptyIff(s);
    TrimEndEmptyIff(t);
    if t != [] {
      assert t[0] > ' ';
    }
  }

  // ---------------------------------------------------------------------------
  // ASCII case conversion
  // ---------------------------------------------------------------------------

  predicate IsUpper(c: char) { 'A' <= c <= 'Z' }
  predicate IsLower(c: char) { 'a' <= c <= 'z' }

  function ToLowerChar(c: char): (r: char)
    ensures !IsUpper(r)
    ensures !IsUpper(c) ==> r == c
  {
    if IsUpper(c) then (c as int + 32) as char else c
  }

  function ToUpperChar(c: char): (r: char)
    ensures !IsLower(r)
    ensures !IsLower(c) ==> r == c
  {
    if IsLower(c) then (c as int - 32) as char else c
  }

  function ToLower(s: string): (r: string)
    ensures |r| == |s|
    ensures forall i | 0 <= i < |s| :: r[i] == ToLowerChar(s[i])
  {
    seq(|s|, i requires 0 <= i < |s| => ToLowerChar(s[i]))
  }

  function ToUpper(s: string): (r: string)
    ensures |r| == |s|
    ensures forall i | 0 <= i < |s| :: r[i] == ToUpperChar(s[i])
  {
    seq(|s|, i requires 0 <= i < |s| => ToUpperChar(s[i]))
  }

  // ---------------------------------------------------------------------------
  // Integer.toString and Integer.parseInt (radix 10, ASCII digits)
  // ---------------------------------------------------------------------------

  predicate IsDigit(c: char) { '0' <= c <= '9' }

  predicate AllDigits(s: string) {
    forall i | 0 <= i < |s| :: IsDigit(s[i])
  }

  function DigitChar(d: int): (c: char)
    requires 0 <= d < 10
    ensures IsDigit(c) && c as int - '0' as int == d
  {
    ('0' as int + d) as char
  }

  function NatToString(n: nat): (r: string)
    ensures |r| >= 1 && AllDigits(r)
  {
    if n < 10 then [DigitChar(n)] else NatToString(n / 10) + [DigitChar(n % 10)]
  }

  /** `Integer.toString(n)`: a minus sign for negatives, then the decimal digits. */
  function IntToString(n: int): (r: string)
    ensures |r| >= 1
  {
    if n < 0 then "-" + NatToString(-n) else NatToString(n)
  }

  /** The value of a run of decimal digits. */
  function DigitsValue(s: string): nat
    requires AllDigits(s)
  {
    if s == [] then 0 else DigitsValue(s[..|s| - 1]) * 10 + (s[|s| - 1] as int - '0' as int)
  }

  /**
   * `Integer.parseInt(s)`: an optional `-` or `+`, then at least one digit, and a value
   * within the 32-bit range; anything else throws NumberFormatException (`None`).
   */
  function ParseInt(s: string): (r: Option<int>)
    ensures r.Some? ==> IsInt32(r.value)
  {
    if s == [] then None
    else
      var negative := s[0] == '-';
      var digits := if s[0] == '-' || s[0] == '+' then s[1..] else s;
      if digits == [] || !AllDigits(digits) then None
      else
        var magnitude: int := DigitsValue(digits);
        var v := if negative then -magnitude else magnitude;
        if IsInt32(v) then Some(v) else None
  }

  lemma {:induction false} DigitsValueOfNatToString(n: nat)
    ensures DigitsValue(NatToString(n)) == n
  {
    var s := NatToString(n);
    if n >= 10 {
      DigitsValueOfNatToString(n / 10);
      assert s[..|s| - 1] == NatToString(n / 10);
    }
  }

  /** `Integer.parseInt` reads back what `Integer.toString` writes, for every `int`. */
  lemma ParseIntOfIntToString(n: int)
    requires IsInt32(n)
    ensures ParseInt(IntToString(n)) == Some(n)
  {
    var s := IntToString(n);
    if n < 0 {
      DigitsValueOfNatToString(-n);
      assert s[1..] == NatToString(-n);
    } else {
      DigitsValueOfNatToString(n);
      assert IsDigit(s[0]);
    }
  }

  // ---------------------------------------------------------------------------
  // String.compareTo and String.hashCode
  // ---------------------------------------------------------------------------

  /**
   * `a.compareTo(b)`: the difference of the first differing characters, or of the
   * lengths when one string is a prefix of the other.
   */
  function CompareTo(a: string, b: string): int
  {
    if a == [] || b == [] then |a| - |b|
    else if a[0] != b[0] then a[0] as int - b[0] as int
    else CompareTo(a[1..], b[1..])
  }

  lemma {:induction false} CompareToZeroIff(a: string, b: string)
    ensures CompareTo(a, b) == 0 <==> a == b
  {
    if a != [] && b != [] && a[0] == b[0] {
      CompareToZeroIff(a[1..], b[1..]);
      assert a == [a[0]] + a[1..] && b == [b[0]] + b[1..];
    }
  }

  lemma {:induction false} CompareToAntisymmetric(a: string, b: string)
    ensures CompareTo(a, b) == -CompareTo(b, a)
  {
    if a != [] && b != [] && a[0] == b[0] {
      CompareToAntisymmetric(a[1..], b[1..]);
    }
  }

  /** The order `compareTo` defines is transitive. */
  lemma {:induction false} CompareToTransitive(a: string, b: string, c: string)
    requires CompareTo(a, b) < 0 && CompareTo(b, c) < 0
    ensures CompareTo(a, c) < 0
  {
    if a != [] && b != [] && c != [] && a[0] == b[0] && b[0] == c[0] {
      CompareToTransitive(a[1..], b[1..], c[1..]);
    }
  }

  /** `String.hashCode`: `s[0]*31^(n-1) + ... + s[n-1]` in wrapping `int` arithmetic. */
  function StringHash(s: string): (h: int)
    ensures IsInt32(h)
  {
    if s == [] then 0 else Wrap32(31 * StringHash(s[..|s| - 1]) + s[|s| - 1] as int)
  }

  /** `Objects.hash(h0, h1, ...)` given the elements' own hash codes. */
  function ObjectsHash(hashes: seq<int>): (h: int)
    ensures IsInt32(h)
  {
    if hashes == [] then 1 else Wrap32(31 * ObjectsHash(hashes[..|hashes| - 1]) + hashes[|hashes| - 1])
  }
}
