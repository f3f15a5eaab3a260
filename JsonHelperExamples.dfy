/**
 * The documents of the repository's JSON parser tests, as trees, with what key
 * extraction yields for them, plus two cases that show where the model's
 * details matter (sorting before trimming, and Java's case folding).
 */
module JsonHelperExamples {
  import opened Wrappers
  import opened JavaLang
  import opened Json
  import opened JsonHelper

  /** `{ "uid": 1220, "name": "video 01", "bool": true, "bool2": "ja" }` */
  function Flat(): seq<Member> {
    [Member("uid", Num("1220")), Member("name", Str("video 01")),
     Member("bool", Bool(true)), Member("bool2", Str("ja"))]
  }

  /** Two objects under "multiply", each with a uid, a name and a bool. */
  function Multiply(): seq<Member> {
    [Member("multiply", Object([
       Member("side1", Object([Member("uid", Num("31")), Member("name", Str("video first")), Member("bool", Str("false"))])),
       Member("side2", Object([Member("uid", Num("21")), Member("name", Str("video second")), Member("bool", Str("true"))]))]))]
  }

  /** Two uids six objects below the root. */
  function Deep(): seq<Member> {
    var sides := Object([Member("side1", Object([Member("uid", Num("55"))])),
                         Member("side2", Object([Member("uid", Num("56"))]))]);
    [Member("a", Object([Member("b", Object([Member("c", Object([Member("d", Object([Member("e", sides)]))]))]))]))]
  }

  lemma MatchesOfOne(m1: Member, key: string)
    ensures ObjectMatches([m1], key) == MemberHits(m1, key)
  {
    assert [m1][..0] == [];
  }

  lemma MatchesOfTwo(m1: Member, m2: Member, key: string)
    ensures ObjectMatches([m1, m2], key) == MemberHits(m1, key) + MemberHits(m2, key)
  {
    assert [m1, m2][..1] == [m1];
    MatchesOfOne(m1, key);
  }

  lemma MatchesOfThree(m1: Member, m2: Member, m3: Member, key: string)
    ensures ObjectMatches([m1, m2, m3], key) == MemberHits(m1, key) + MemberHits(m2, key) + MemberHits(m3, key)
  {
    assert [m1, m2, m3][..2] == [m1, m2];
    MatchesOfTwo(m1, m2, key);
  }

  lemma MatchesOfFour(m1: Member, m2: Member, m3: Member, m4: Member, key: string)
    ensures ObjectMatches([m1, m2, m3, m4], key)
            == MemberHits(m1, key) + MemberHits(m2, key) + MemberHits(m3, key) + MemberHits(m4, key)
  {
    assert [m1, m2, m3, m4] == [m1, m2] + [m3, m4];
    ObjectMatchesAppend([m1, m2], [m3, m4], key);
    MatchesOfTwo(m1, m2, key);
    MatchesOfTwo(m3, m4, key);
  }

  lemma FlatMatches(key: string)
    ensures ObjectMatches(Flat(), key)
            == (if key == "uid" then ["1220"] else [])
             + (if key == "name" then ["video 01"] else [])
             + (if key == "bool" then ["true"] else [])
             + (if key == "bool2" then ["ja"] else [])
  {
    MatchesOfFour(Member("uid", Num("1220")), Member("name", Str("video 01")),
                  Member("bool", Bool(true)), Member("bool2", Str("ja")), key);
  }

  /** Each key of the flat document has exactly one candidate. */
  lemma FlatHasOne(key: string, text: string)
    requires (key == "uid" && text == "1220") || (key == "name" && text == "video 01")
             || (key == "bool" && text == "true") || (key == "bool2" && text == "ja")
    ensures ObjectMatches(Flat(), key) == [text]
  {
    FlatMatches(key);
  }

  lemma FlatUidAsLong()
    ensures SortedFirstElement(Flat(), "uid", LongTarget) == Some(LongValue(1220))
  {
    FlatHasOne("uid", "1220");
    LongOf1220();
    ReadsAs(Flat(), "uid", LongTarget, ["1220"], "1220", Some(LongValue(1220)));
  }

  lemma LongOf1220()
    ensures Coerce(Trim("1220"), LongTarget) == Some(LongValue(1220))
  {
    ReadsAsLong(1220, "1220");
  }

  lemma FlatNameAsString()
    ensures SortedFirstElement(Flat(), "name", StringTarget) == Some(StringValue("video 01"))
  {
    FlatHasOne("name", "video 01");
    TrimKeepsUnpadded("video 01");
    ReadsAs(Flat(), "name", StringTarget, ["video 01"], "video 01", Some(StringValue("video 01")));
  }

  lemma FlatBoolAsBoolean()
    ensures SortedFirstElement(Flat(), "bool", BooleanTarget) == Some(BoolValue(true))
  {
    FlatHasOne("bool", "true");
    TrueTokenIsTrue("true");
    ReadsAs(Flat(), "bool", BooleanTarget, ["true"], "true", Some(BoolValue(true)));
  }

  lemma FlatBool2AsBoolean()
    ensures SortedFirstElement(Flat(), "bool2", BooleanTarget) == Some(BoolValue(true))
  {
    FlatHasOne("bool2", "ja");
    TrueTokenIsTrue("ja");
    ReadsAs(Flat(), "bool2", BooleanTarget, ["ja"], "ja", Some(BoolValue(true)));
  }

  /** A truthy token itself, unpadded, reads as Boolean true. */
  lemma TrueTokenIsTrue(t: string)
    requires t in BOOL_VALUES
    ensures Coerce(Trim(t), BooleanTarget) == Some(BoolValue(true))
  {
    BoolValuesAreAscii();
    assert |t| > 0 && t[0] > ' ' && t[|t| - 1] > ' ';
    TrimKeepsUnpadded(t);
    assert EqualsIgnoreCase(t, t);
  }

  /** Reading a document whose candidates and least candidate are known. */
  lemma ReadsAs(ms: seq<Member>, key: string, target: Target, cands: seq<string>, least: string, v: Option<Value>)
    requires ObjectMatches(ms, key) == cands && cands != []
    requires Least(cands) == least && Coerce(Trim(least), target) == v
    ensures SortedFirstElement(ms, key, target) == v
  {
    SortedFirstElementOfLeast(ms, key, target);
  }

  /** The decimal text of a long, unpadded, reads as that Long. */
  lemma ReadsAsLong(n: nat, s: string)
    requires n <= LONG_MAX && DecimalString(n) == s && s[0] > ' ' && s[|s| - 1] > ' '
    ensures Coerce(Trim(s), LongTarget) == Some(LongValue(n))
  {
    TrimKeepsUnpadded(s);
    ParseDecimalStringRoundTrip(n, LONG_MIN, LONG_MAX);
  }

  /** The decimal text of an int, unpadded, reads as that Integer. */
  lemma ReadsAsInteger(n: nat, s: string)
    requires n <= INT_MAX && DecimalString(n) == s && s[0] > ' ' && s[|s| - 1] > ' '
    ensures Coerce(Trim(s), IntegerTarget) == Some(IntValue(n))
  {
    TrimKeepsUnpadded(s);
    ParseDecimalStringRoundTrip(n, INT_MIN, INT_MAX);
  }

  lemma SideMatches(uid: string, name: string, flag: string, key: string)
    ensures ObjectMatches([Member("uid", Num(uid)), Member("name", Str(name)), Member("bool", Str(flag))], key)
            == (if key == "uid" then [uid] else [])
             + (if key == "name" then [name] else [])
             + (if key == "bool" then [flag] else [])
  {
    MatchesOfThree(Member("uid", Num(uid)), Member("name", Str(name)), Member("bool", Str(flag)), key);
  }

  lemma MultiplyMatches(key: string)
    requires key == "uid" || key == "name" || key == "bool"
    ensures key == "uid" ==> ObjectMatches(Multiply(), key) == ["31", "21"]
    ensures key == "name" ==> ObjectMatches(Multiply(), key) == ["video first", "video second"]
    ensures key == "bool" ==> ObjectMatches(Multiply(), key) == ["false", "true"]
  {
    var side1 := [Member("uid", Num("31")), Member("name", Str("video first")), Member("bool", Str("false"))];
    var side2 := [Member("uid", Num("21")), Member("name", Str("video second")), Member("bool", Str("true"))];
    SideMatches("31", "video first", "false", key);
    SideMatches("21", "video second", "true", key);
    MatchesOfTwo(Member("side1", Object(side1)), Member("side2", Object(side2)), key);
    MatchesOfOne(Member("multiply", Object([Member("side1", Object(side1)), Member("side2", Object(side2))])), key);
  }

  /** Each key of the two-sided document has the side1 candidate, then the side2 candidate. */
  lemma MultiplyHasTwo(key: string, first: string, second: string)
    requires (key == "uid" && first == "31" && second == "21")
             || (key == "name" && first == "video first" && second == "video second")
             || (key == "bool" && first == "false" && second == "true")
    ensures ObjectMatches(Multiply(), key) == [first, second]
  {
    MultiplyMatches(key);
  }

  /** The least of two strings is the first unless the second precedes it. */
  lemma LeastOfPair(a: string, b: string)
    ensures Least([a, b]) == (if AtMost(a, b) then a else b)
  {
    assert [a, b][1..] == [b];
  }

  /** Of the uids 31 and 21 the text "21" sorts first. */
  lemma DuplicateUidPicksSortedFirst()
    ensures SortedFirstElement(Multiply(), "uid", IntegerTarget) == Some(IntValue(21))
  {
    MultiplyHasTwo("uid", "31", "21");
    TwentyOneIsLeast();
    IntegerOf21();
    ReadsAs(Multiply(), "uid", IntegerTarget, ["31", "21"], "21", Some(IntValue(21)));
  }

  lemma TwentyOneIsLeast()
    ensures Least(["31", "21"]) == "21"
  {
    LessAtFirstDifference("21", "31", 0);
    LessAsymmetric("21", "31");
    LeastOfPair("31", "21");
  }

  lemma IntegerOf21()
    ensures Coerce(Trim("21"), IntegerTarget) == Some(IntValue(21))
  {
    ReadsAsInteger(21, "21");
  }

  /** "video first" sorts before "video second". */
  lemma DuplicateNamePicksSortedFirst()
    ensures SortedFirstElement(Multiply(), "name", StringTarget) == Some(StringValue("video first"))
  {
    MultiplyHasTwo("name", "video first", "video second");
    VideoFirstIsLeast();
    TrimKeepsUnpadded("video first");
    ReadsAs(Multiply(), "name", StringTarget, ["video first", "video second"], "video first",
            Some(StringValue("video first")));
  }

  lemma VideoFirstIsLeast()
    ensures Least(["video first", "video second"]) == "video first"
  {
    LessAtFirstDifference("video first", "video second", 6);
    LeastOfPair("video first", "video second");
  }

  /** "false" sorts before "true", so the Boolean read is false. */
  lemma DuplicateBoolPicksSortedFirst()
    ensures SortedFirstElement(Multiply(), "bool", BooleanTarget) == Some(BoolValue(false))
  {
    MultiplyHasTwo("bool", "false", "true");
    FalseIsLeast();
    FalseTextIsFalse();
    ReadsAs(Multiply(), "bool", BooleanTarget, ["false", "true"], "false", Some(BoolValue(false)));
  }

  lemma FalseIsLeast()
    ensures Least(["false", "true"]) == "false"
  {
    LessAtFirstDifference("false", "true", 0);
    LeastOfPair("false", "true");
  }

  lemma FalseTextIsFalse()
    ensures Coerce(Trim("false"), BooleanTarget) == Some(BoolValue(false))
  {
    TrimKeepsUnpadded("false");
  }

  lemma DeepDocument()
    ensures SortedFirstElement(Deep(), "uid", IntegerTarget) == Some(IntValue(55))
  {
    DeepMatches();
    FiftyFiveIsLeast();
    IntegerOf55();
    ReadsAs(Deep(), "uid", IntegerTarget, ["55", "56"], "55", Some(IntValue(55)));
  }

  lemma FiftyFiveIsLeast()
    ensures Least(["55", "56"]) == "55"
  {
    LessAtFirstDifference("55", "56", 1);
    LeastOfPair("55", "56");
  }

  lemma IntegerOf55()
    ensures Coerce(Trim("55"), IntegerTarget) == Some(IntValue(55))
  {
    ReadsAsInteger(55, "55");
  }

  /** The walk reaches both uids through six enclosing objects, side1 first. */
  lemma DeepMatches()
    ensures ObjectMatches(Deep(), "uid") == ["55", "56"]
  {
    var sides := Object([Member("side1", Object([Member("uid", Num("55"))])),
                         Member("side2", Object([Member("uid", Num("56"))]))]);
    SidesMatches();
    var e := Member("e", sides);
    MatchesOfOne(e, "uid");
    var d := Member("d", Object([e]));
    MatchesOfOne(d, "uid");
    var c := Member("c", Object([d]));
    MatchesOfOne(c, "uid");
    var b := Member("b", Object([c]));
    MatchesOfOne(b, "uid");
    MatchesOfOne(Member("a", Object([b])), "uid");
  }

  lemma SidesMatches()
    ensures ObjectMatches([Member("side1", Object([Member("uid", Num("55"))])),
                           Member("side2", Object([Member("uid", Num("56"))]))], "uid") == ["55", "56"]
  {
    MatchesOfOne(Member("uid", Num("55")), "uid");
    MatchesOfOne(Member("uid", Num("56")), "uid");
    MatchesOfTwo(Member("side1", Object([Member("uid", Num("55"))])),
                 Member("side2", Object([Member("uid", Num("56"))])), "uid");
  }

  /** A key that does not occur gives an empty result; text that is not a number gives an empty Long. */
  lemma EmptyResults()
    ensures SortedFirstElement([], "any", StringTarget) == None
    ensures SortedFirstElement([Member("ldt", Str("2024-01-01"))], "xxx", StringTarget) == None
  {
    MatchesOfOne(Member("ldt", Str("2024-01-01")), "xxx");
  }

  /** A candidate that is not a number reads as Long to an empty result. */
  lemma UnparsableLongIsEmpty()
    ensures SortedFirstElement([Member("x", Str("x"))], "x", LongTarget) == None
  {
    MatchesOfOne(Member("x", Str("x")), "x");
    assert Trim("x") == "x";
  }

  /** Truthy tokens in any case are true. */
  lemma TruthyTokens()
    ensures IsTruthy("true") && IsTruthy("TrUE") && IsTruthy("Si")
    ensures IsTruthy("JA") && IsTruthy("1") && IsTruthy("Yes")
  {
    MatchesToken("true", "true");
    MatchesToken("TrUE", "true");
    MatchesToken("Si", "si");
    MatchesToken("JA", "ja");
    MatchesToken("1", "1");
    MatchesToken("Yes", "yes");
  }

  /** A text equal to a token ignoring case is truthy. */
  lemma MatchesToken(s: string, t: string)
    requires t in BOOL_VALUES
    requires |s| == |t| && forall k :: 0 <= k < |s| ==> AsciiFold(s[k]) == AsciiFold(t[k])
    ensures IsTruthy(s)
  {
    BoolValuesAreAscii();
    assert EqualsIgnoreCase(s, t);
  }

  /** Every other text, including the text of JSON false and 0, is false, never absent. */
  lemma FalsyTexts()
    ensures Coerce("error", BooleanTarget) == Some(BoolValue(false))
    ensures Coerce("false", BooleanTarget) == Some(BoolValue(false))
    ensures Coerce("FALSE", BooleanTarget) == Some(BoolValue(false))
    ensures Coerce("no", BooleanTarget) == Some(BoolValue(false))
    ensures Coerce("0", BooleanTarget) == Some(BoolValue(false))
  {
    assert !IsTruthy("error") && !IsTruthy("false") && !IsTruthy("FALSE");
    ShortFalsyTexts();
  }

  lemma ShortFalsyTexts()
    ensures !IsTruthy("no") && !IsTruthy("0")
  {
    TruthyIffLowerCaseToken("no");
    assert AsciiLower("no") == "no";
    TruthyIffLowerCaseToken("0");
    assert AsciiLower("0") == "0";
  }

  /** A value under the key is collected and also searched: `{"uid":{"uid":1}}` yields two candidates. */
  lemma MatchedValueIsAlsoSearched()
    ensures ObjectMatches([Member("uid", Object([Member("uid", Num("1"))]))], "uid")
            == ["{\"uid\":1}", "1"]
  {
    var inner := Object([Member("uid", Num("1"))]);
    assert ToText(inner) == "{\"uid\":1}";
    assert Inside(inner, "uid") == ["1"];
    assert MemberHits(Member("uid", inner), "uid") == ["{\"uid\":1}", "1"];
  }

  /**
   * Scalars inside arrays are never collected, objects inside arrays of arrays
   * are: the array under "key" contributes its own text, then only the 8 of
   * the object nested two arrays deep, never the 7.
   */
  lemma ArraysHoldNoDirectMatches()
    ensures var arr := Array([Num("7"), Array([Object([Member("key", Num("8"))])])]);
            ObjectMatches([Member("key", arr)], "key") == [ToText(arr), "8"]
  {
    var arr := Array([Num("7"), Array([Object([Member("key", Num("8"))])])]);
    NestedArrayMatches();
    MatchesOfOne(Member("key", arr), "key");
  }

  lemma NestedArrayMatches()
    ensures ArrayMatches([Num("7"), Array([Object([Member("key", Num("8"))])])], "key") == ["8"]
  {
    var obj := Object([Member("key", Num("8"))]);
    MatchesOfOne(Member("key", Num("8")), "key");
    assert ArrayMatches([obj], "key") == ["8"] by {
      assert [obj][..0] == [];
    }
    assert [Num("7"), Array([obj])][..1] == [Num("7")];
    assert [Num("7")][..0] == [];
  }

  /**
   * Sorting sees the untrimmed text: " 2" sorts before "1" because a space
   * precedes every digit, so the Long read is 2, though the trimmed
   * candidates would have put 1 first.
   */
  lemma SortingPrecedesTrimming()
    ensures SortedFirstElement([Member("a", Object([Member("key", Str(" 2"))])),
                                Member("b", Object([Member("key", Str("1"))]))], "key", LongTarget)
            == Some(LongValue(2))
  {
    var a, b := Member("key", Str(" 2")), Member("key", Str("1"));
    var doc := [Member("a", Object([a])), Member("b", Object([b]))];
    MatchesOfOne(a, "key");
    MatchesOfOne(b, "key");
    MatchesOfTwo(doc[0], doc[1], "key");
    LessAtFirstDifference(" 2", "1", 0);
    LeastOfPair(" 2", "1");
    PaddedTwoReadsAsTwo();
    ReadsAs(doc, "key", LongTarget, [" 2", "1"], " 2", Some(LongValue(2)));
  }

  lemma PaddedTwoReadsAsTwo()
    ensures Coerce(Trim(" 2"), LongTarget) == Some(LongValue(2))
  {
    assert Trim(" 2") == "2" by {
      assert LeadingBlanks(" 2") == 1;
    }
    ReadsAsLong(2, "2");
    TrimKeepsUnpadded("2");
  }

  /** Java's equalsIgnoreCase identifies the dotless i with i, so "sı" counts as the token "si". */
  lemma DotlessIIsTruthy()
    ensures IsTruthy("sı")
  {
    MatchesToken("sı", "si");
  }
}
