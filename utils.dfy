/**
 * The string helpers of `com.demo.util.Utils`: comma-separated lists and capitalisation.
 * Case conversion is ASCII only (see `JavaStrings`).
 */
module Utils {
  import opened JavaStrings

  /** The characters the regular expression `\s` matches: space, tab, line feed, vertical tab, form feed, carriage return. */
  const Whitespace: set<char> := {' ', '\t', '\n', 11 as char, 12 as char, '\r'}

  /** Every item mapped, in iteration order. */
  function Mapped<T>(items: seq<T>, keyMapper: T -> string): (r: seq<string>)
    ensures |r| == |items|
    ensures forall i | 0 <= i < |items| :: r[i] == keyMapper(items[i])
  {
    seq(|items|, i requires 0 <= i < |items| => keyMapper(items[i]))
  }

  /** `toCsv`: the mapped items joined with `", "`, in the collection's iteration order. */
  function ToCsv<T>(items: seq<T>, keyMapper: T -> string): (r: string)
    ensures items == [] ==> r == []
    ensures |items| == 1 ==> r == keyMapper(items[0])
  {
    Join(Mapped(items, keyMapper), ", ")
  }

  /** One more item adds `", "` and its text at the end, and changes nothing before. */
  lemma ToCsvAppend<T>(items: seq<T>, x: T, keyMapper: T -> string)
    requires items != []
    ensures ToCsv(items + [x], keyMapper) == ToCsv(items, keyMapper) + ", " + keyMapper(x)
  {
    assert Mapped(items + [x], keyMapper) == Mapped(items, keyMapper) + [keyMapper(x)];
    JoinAppend(Mapped(items, keyMapper), keyMapper(x), ", ");
  }

  /** `capitalize`: the first character upper case and the rest lower case; `""` stays `""`. */
  function Capitalize(s: string): (r: string)
    ensures |r| == |s|
    ensures s != [] ==> !IsLower(r[0]) && r[0] == ToUpperChar(s[0])
    ensures forall i | 1 <= i < |s| :: !IsUpper(r[i]) && r[i] == ToLowerChar(s[i])
  {
    if s == [] then s else ToUpper(s[..1]) + ToLower(s[1..])
  }

  lemma CaseCharFacts(c: char)
    ensures ToUpperChar(ToUpperChar(c)) == ToUpperChar(c)
    ensures ToLowerChar(ToLowerChar(c)) == ToLowerChar(c)
    ensures ToUpperChar(ToLowerChar(c)) == ToUpperChar(c)
    ensures c !in Whitespace ==> ToUpperChar(c) !in Whitespace && ToLowerChar(c) !in Whitespace
  {
  }

  /** Capitalising twice is capitalising once. */
  lemma CapitalizeIdempotent(s: string)
    ensures Capitalize(Capitalize(s)) == Capitalize(s)
  {
    var c := Capitalize(s);
    var cc := Capitalize(c);
    if s != [] {
      CaseCharFacts(s[0]);
      forall i | 1 <= i < |s|
        ensures cc[i] == c[i]
      {
        CaseCharFacts(s[i]);
      }
      assert cc == c;
    }
  }

  /** Capitalisation does not depend on the case of its input. */
  lemma CapitalizeIgnoresCase(s: string)
    ensures Capitalize(ToLower(s)) == Capitalize(s)
  {
    var a := Capitalize(ToLower(s));
    var b := Capitalize(s);
    if s != [] {
      CaseCharFacts(s[0]);
      forall i | 1 <= i < |s|
        ensures a[i] == b[i]
      {
        CaseCharFacts(s[i]);
      }
      assert a == b;
    }
  }

  /** A capitalised word has whitespace exactly where the word had it. */
  lemma CapitalizeKeepsNoWhitespace(s: string)
    requires NoneIn(s, Whitespace)
    ensures NoneIn(Capitalize(s), Whitespace)
  {
    var r := Capitalize(s);
    forall i | 0 <= i < |s|
      ensures r[i] !in Whitespace
    {
      CaseCharFacts(s[i]);
    }
  }

  /** Every word capitalised. */
  function CapitalizeAll(words: seq<string>): (r: seq<string>)
    ensures |r| == |words|
    ensures forall i | 0 <= i < |words| :: r[i] == Capitalize(words[i])
  {
    seq(|words|, i requires 0 <= i < |words| => Capitalize(words[i]))
  }

  /** `capitalizeWords`: the text split at single whitespace characters, each word capitalised, rejoined with spaces. */
  function CapitalizeWords(s: string): string
  {
    Join(CapitalizeAll(Split(s, Whitespace)), " ")
  }

  /**
   * Words without whitespace, the last one non-empty, joined with spaces come back
   * capitalised one by one, and the result splits again into exactly those words.
   */
  lemma CapitalizeWordsOfJoin(words: seq<string>)
    requires |words| >= 1 && words[|words| - 1] != []
    requires forall j | 0 <= j < |words| :: NoneIn(words[j], Whitespace)
    ensures CapitalizeWords(Join(words, " ")) == Join(CapitalizeAll(words), " ")
    ensures Split(CapitalizeWords(Join(words, " ")), Whitespace) == CapitalizeAll(words)
  {
    CapitalizeJoined(words);
    CapitalizedResplit(words);
  }

  lemma CapitalizeJoined(words: seq<string>)
    requires |words| >= 1 && words[|words| - 1] != []
    requires forall j | 0 <= j < |words| :: NoneIn(words[j], Whitespace)
    ensures CapitalizeWords(Join(words, " ")) == Join(CapitalizeAll(words), " ")
  {
    SplitOfJoinWithSpaces(words);
  }

  lemma CapitalizedResplit(words: seq<string>)
    requires |words| >= 1 && words[|words| - 1] != []
    requires forall j | 0 <= j < |words| :: NoneIn(words[j], Whitespace)
    ensures Split(Join(CapitalizeAll(words), " "), Whitespace) == CapitalizeAll(words)
  {
    var caps := CapitalizeAll(words);
    CapitalizeAllKeepsNoWhitespace(words);
    assert |caps[|caps| - 1]| == |words[|words| - 1]|;
    SplitOfJoinWithSpaces(caps);
  }

  lemma SplitOfJoinWithSpaces(words: seq<string>)
    requires |words| >= 1 && words[|words| - 1] != []
    requires forall j | 0 <= j < |words| :: NoneIn(words[j], Whitespace)
    ensures Split(Join(words, " "), Whitespace) == words
  {
    assert ' ' in Whitespace;
    SplitOfJoin(words, ' ', Whitespace);
  }

  lemma CapitalizeAllKeepsNoWhitespace(words: seq<string>)
    requires forall j | 0 <= j < |words| :: NoneIn(words[j], Whitespace)
    ensures forall j | 0 <= j < |words| :: NoneIn(CapitalizeAll(words)[j], Whitespace)
  {
    forall j | 0 <= j < |words|
      ensures NoneIn(CapitalizeAll(words)[j], Whitespace)
    {
      CapitalizeKeepsNoWhitespace(words[j]);
    }
  }

  /** Capitalising the words of a text twice is doing it once. */
  lemma CapitalizeWordsIdempotent(s: string)
    ensures CapitalizeWords(CapitalizeWords(s)) == CapitalizeWords(s)
  {
    var words := Split(s, Whitespace);
    if words == [] || words == [[]] {
      assert CapitalizeWords(s) == [];
      assert CapitalizeWords([]) == [] by {
        SplitOfPlain([], Whitespace);
      }
    } else {
      assert words[|words| - 1] != [];
      SplitHasNoSeparator(s, Whitespace);
      CapitalizeWordsOfJoin(words);
      var caps := CapitalizeAll(words);
      forall j | 0 <= j < |caps|
        ensures CapitalizeAll(caps)[j] == caps[j]
      {
        CapitalizeIdempotent(words[j]);
      }
      assert CapitalizeAll(caps) == caps;
    }
  }
}
