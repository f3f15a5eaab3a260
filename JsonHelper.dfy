/**
 * Key extraction from a JSON payload (JsonHelper): collect the text of every
 * value stored under a field name at any depth, pick the first of them in
 * natural string order, trim it and coerce it to the requested type.
 */
module JsonHelper {
  import opened Wrappers
  import opened JavaLang
  import opened Json

  // ---------------------------------------------------------------------------
  // The walk: which strings loopThroughJson and getValuesInArray collect
  // ---------------------------------------------------------------------------

  /** What one member contributes: the text of its value when its name is the key, then every match inside the value. */
  function MemberHits(m: Member, key: string): seq<string> {
    (if m.name == key then [ToText(m.value)] else []) + Inside(m.value, key)
  }

  /** The matches found by descending into a value: objects and arrays are searched, scalars hold none. */
  function Inside(v: Json, key: string): seq<string> {
    match v
    case Object(ms) => ObjectMatches(ms, key)
    case Array(items) => ArrayMatches(items, key)
    case _ => []
  }

  /** The list loopThroughJson returns for an object with members `ms`, in member order. */
  function ObjectMatches(ms: seq<Member>, key: string): seq<string> {
    if ms == [] then [] else ObjectMatches(ms[..|ms| - 1], key) + MemberHits(ms[|ms| - 1], key)
  }

  /** The list getValuesInArray returns: only nested arrays and objects are searched; a scalar item is never collected. */
  function ArrayMatches(items: seq<Json>, key: string): seq<string> {
    if items == [] then [] else ArrayMatches(items[..|items| - 1], key) + Inside(items[|items| - 1], key)
  }

  /** loopThroughJson: one pass over the members, appending each member's own match and then the matches below it. */
  method LoopThroughJson(ms: seq<Member>, key: string) returns (accumulated: seq<string>)
    ensures accumulated == ObjectMatches(ms, key)
    decreases ms
  {
    accumulated := [];
    for i := 0 to |ms|
      invariant accumulated == ObjectMatches(ms[..i], key)
    {
      var value := ms[i].value;
      ghost var before := accumulated;
      if ms[i].name == key {
        accumulated := accumulated + [ToText(value)];
      }
      match value {
        case Object(nested) =>
          var found := LoopThroughJson(nested, key);
          accumulated := accumulated + found;
        case Array(items) =>
          var found := GetValuesInArray(items, key);
          accumulated := accumulated + found;
        case _ =>
      }
      assert accumulated == before + MemberHits(ms[i], key);
      assert ms[..i + 1][..i] == ms[..i];
      assert ObjectMatches(ms[..i + 1], key) == ObjectMatches(ms[..i], key) + MemberHits(ms[i], key);
    }
    assert ms[..|ms|] == ms;
  }

  /** getValuesInArray: one pass over the items, descending into arrays and objects only. */
  method GetValuesInArray(items: seq<Json>, key: string) returns (accumulated: seq<string>)
    ensures accumulated == ArrayMatches(items, key)
    decreases items
  {
    accumulated := [];
    for i := 0 to |items|
      invariant accumulated == ArrayMatches(items[..i], key)
    {
      match items[i] {
        case Array(nested) =>
          var found := GetValuesInArray(nested, key);
          accumulated := accumulated + found;
        case Object(ms) =>
          var found := LoopThroughJson(ms, key);
          accumulated := accumulated + found;
        case _ =>
      }
      assert items[..i + 1][..i] == items[..i];
    }
    assert items[..|items|] == items;
  }

  // ---------------------------------------------------------------------------
  // The walk is exhaustive: an independent statement of what it finds
  // ---------------------------------------------------------------------------

  /** `s` is the text of a value stored under `key` in this object or in any object reachable from it through objects and arrays. */
  predicate OccursInObject(ms: seq<Member>, key: string, s: string)
    decreases ms
  {
    exists i :: 0 <= i < |ms| &&
      ((ms[i].name == key && ToText(ms[i].value) == s) || OccursIn(ms[i].value, key, s))
  }

  predicate OccursIn(v: Json, key: string, s: string)
    decreases v
  {
    match v
    case Object(ms) => OccursInObject(ms, key, s)
    case Array(items) => OccursInArray(items, key, s)
    case _ => false
  }

  predicate OccursInArray(items: seq<Json>, key: string, s: string)
    decreases items
  {
    exists i :: 0 <= i < |items| && OccursIn(items[i], key, s)
  }

  /** The walk collects exactly the texts that occur under the key, at every depth. */
  lemma {:induction false} ObjectMatchesExactly(ms: seq<Member>, key: string, s: string)
    ensures s in ObjectMatches(ms, key) <==> OccursInObject(ms, key, s)
    decreases ms
  {
    if ms != [] {
      var init, last := ms[..|ms| - 1], ms[|ms| - 1];
      ObjectMatchesExactly(init, key, s);
      InsideExactly(last.value, key, s);
      assert ObjectMatches(ms, key) == ObjectMatches(init, key) + MemberHits(last, key);
      if OccursInObject(ms, key, s) {
        var i :| 0 <= i < |ms| &&
          ((ms[i].name == key && ToText(ms[i].value) == s) || OccursIn(ms[i].value, key, s));
        if i < |ms| - 1 {
          assert init[i] == ms[i];
        }
      }
      if OccursInObject(init, key, s) {
        var i :| 0 <= i < |init| &&
          ((init[i].name == key && ToText(init[i].value) == s) || OccursIn(init[i].value, key, s));
        assert ms[i] == init[i];
      }
      if s in MemberHits(last, key) {
        assert ms[|ms| - 1] == last;
      }
    }
  }

  lemma {:induction false} InsideExactly(v: Json, key: string, s: string)
    ensures s in Inside(v, key) <==> OccursIn(v, key, s)
    decreases v
  {
    match v
    case Object(ms) => ObjectMatchesExactly(ms, key, s);
    case Array(items) => ArrayMatchesExactly(items, key, s);
    case _ =>
  }

  lemma {:induction false} ArrayMatchesExactly(items: seq<Json>, key: string, s: string)
    ensures s in ArrayMatches(items, key) <==> OccursInArray(items, key, s)
    decreases items
  {
    if items != [] {
      var init, last := items[..|items| - 1], items[|items| - 1];
      ArrayMatchesExactly(init, key, s);
      InsideExactly(last, key, s);
      if OccursInArray(items, key, s) {
        var i :| 0 <= i < |items| && OccursIn(items[i], key, s);
        if i < |items| - 1 {
          assert init[i] == items[i];
        }
      }
      if OccursInArray(init, key, s) {
        var i :| 0 <= i < |init| && OccursIn(init[i], key, s);
        assert items[i] == init[i];
      }
    }
  }

  // ---------------------------------------------------------------------------
  // The order in which the searched object's own members are visited does not matter
  // ---------------------------------------------------------------------------

  lemma {:induction false} ObjectMatchesAppend(a: seq<Member>, b: seq<Member>, key: string)
    ensures ObjectMatches(a + b, key) == ObjectMatches(a, key) + ObjectMatches(b, key)
    decreases |b|
  {
    if b == [] {
      assert a + b == a;
    } else {
      var init := b[..|b| - 1];
      assert (a + b)[..|a + b| - 1] == a + init;
      assert (a + b)[|a + b| - 1] == b[|b| - 1];
      ObjectMatchesAppend(a, init, key);
    }
  }

  /**
   * JSONObject iterates its keys in hash order.  Visiting the same members in
   * any other order collects the same candidates, possibly in another order.
   */
  lemma {:induction false} ObjectMatchesReordered(a: seq<Member>, b: seq<Member>, key: string)
    requires multiset(a) == multiset(b)
    ensures multiset(ObjectMatches(a, key)) == multiset(ObjectMatches(b, key))
    decreases |b|
  {
    if b == [] {
      assert |a| == |multiset(a)| == 0;
    } else {
      var last, init := b[|b| - 1], b[..|b| - 1];
      assert b == init + [last];
      assert multiset(b) == multiset(init) + multiset{last};
      assert last in multiset(a);
      assert last in a;
      var k :| 0 <= k < |a| && a[k] == last;
      var rest := RemoveAt(a, k);
      ObjectMatchesReordered(rest, init, key);
      ObjectMatchesRemoveAt(a, k, key);
    }
  }

  /** `a` without its element at `k`. */
  function RemoveAt(a: seq<Member>, k: nat): (r: seq<Member>)
    requires k < |a|
    ensures multiset(r) == multiset(a) - multiset{a[k]}
  {
    assert a == a[..k] + [a[k]] + a[k + 1..];
    a[..k] + a[k + 1..]
  }

  /** Taking one member out of an object takes its hits out of the candidates. */
  lemma ObjectMatchesRemoveAt(a: seq<Member>, k: nat, key: string)
    requires k < |a|
    ensures multiset(ObjectMatches(a, key))
            == multiset(ObjectMatches(RemoveAt(a, k), key)) + multiset(MemberHits(a[k], key))
  {
    var front, back := a[..k], a[k + 1..];
    assert a == (front + [a[k]]) + back;
    ObjectMatchesAppend(front + [a[k]], back, key);
    ObjectMatchesAppend(front, [a[k]], key);
    ObjectMatchesAppend(front, back, key);
    assert [a[k]][..0] == [];
    assert ObjectMatches([a[k]], key) == MemberHits(a[k], key);
  }

  // ---------------------------------------------------------------------------
  // Selection: the first candidate in natural order
  // ---------------------------------------------------------------------------

  lemma AtMostAll(a: string, m: string, xs: seq<string>)
    requires AtMost(a, m)
    requires forall x :: x in xs ==> AtMost(m, x)
    ensures forall x :: x in xs ==> AtMost(a, x)
  {
    forall x | x in xs
      ensures AtMost(a, x)
    {
      AtMostTotalOrder(a, m, x);
    }
  }

  /** The least string of a non-empty list in natural order (what `input.get(0)` reads after the sort). */
  function Least(xs: seq<string>): (r: string)
    requires |xs| > 0
    ensures r in xs
    ensures forall x :: x in xs ==> AtMost(r, x)
  {
    if |xs| == 1 then xs[0]
    else
      var m := Least(xs[1..]);
      AtMostTotalOrder(xs[0], m, m);
      if AtMost(xs[0], m) then
        AtMostAll(xs[0], m, xs[1..]);
        xs[0]
      else
        AtMostAll(m, m, xs[1..]);
        m
  }

  /** Natural order admits one least element, so the least of a list depends on its contents only, not on their order. */
  lemma LeastDependsOnContentsOnly(xs: seq<string>, ys: seq<string>)
    requires |xs| > 0 && multiset(xs) == multiset(ys)
    ensures |ys| > 0 && Least(xs) == Least(ys)
  {
    assert |ys| == |multiset(ys)| == |multiset(xs)| == |xs|;
    var a, b := Least(xs), Least(ys);
    assert a in multiset(ys) && b in multiset(xs);
    AtMostTotalOrder(a, b, b);
  }

  /** `xs` is in the order `list.sort(Comparator.naturalOrder())` leaves it. */
  predicate SortedNaturally(xs: seq<string>) {
    forall i, j :: 0 <= i < j < |xs| ==> AtMost(xs[i], xs[j])
  }

  /** Whatever sorted permutation the sort produces, its first element is the least candidate. */
  lemma SortedHeadIsLeast(input: seq<string>, sorted: seq<string>)
    requires |input| > 0
    requires multiset(sorted) == multiset(input) && SortedNaturally(sorted)
    ensures |sorted| > 0 && sorted[0] == Least(input)
  {
    assert |sorted| == |multiset(sorted)| == |input|;
    LeastDependsOnContentsOnly(input, sorted);
    var m := Least(sorted);
    var k :| 0 <= k < |sorted| && sorted[k] == m;
    if k > 0 {
      assert AtMost(sorted[0], sorted[k]);
      AtMostTotalOrder(sorted[0], m, m);
    }
  }

  /**
   * The untrimmed string getSortedFirstElement settles on: nothing when no
   * value matched, otherwise the first candidate once the candidates are
   * sorted in natural order (a single candidate is taken as it is).
   */
  function SelectedRaw(ms: seq<Member>, key: string): (r: Option<string>)
    ensures r.None? <==> ObjectMatches(ms, key) == []
    ensures r.Some? ==> r.value in ObjectMatches(ms, key)
    ensures r.Some? ==> forall c :: c in ObjectMatches(ms, key) ==> AtMost(r.value, c)
  {
    var input := ObjectMatches(ms, key);
    if |input| == 0 then None
    else if |input| == 1 then
      AtMostTotalOrder(input[0], input[0], input[0]);
      Some(input[0])
    else Some(Least(input))
  }

  // ---------------------------------------------------------------------------
  // Coercion to the requested type
  // ---------------------------------------------------------------------------

  /** The closed set of classes getSortedFirstElement is asked for. */
  datatype Target = BooleanTarget | LongTarget | IntegerTarget | StringTarget

  /** A coerced value: Boolean, Long, Integer or String. */
  datatype Value = BoolValue(b: bool) | LongValue(n: Int64) | IntValue(i: Int32) | StringValue(s: string)

  /** The truthy tokens (BOOL_VALUES), compared ignoring case. */
  const BOOL_VALUES: seq<string> := ["true", "ja", "yes", "si", "1"]

  lemma BoolValuesAreAscii()
    ensures forall t :: t in BOOL_VALUES ==> IsAscii(t)
  {
  }

  /** Every truthy token is already in lower case. */
  lemma BoolValuesAreLowerCase()
    ensures forall t :: t in BOOL_VALUES ==> AsciiLower(t) == t
  {
    forall t | t in BOOL_VALUES
      ensures AsciiLower(t) == t
    {
      assert forall k :: 0 <= k < |t| ==> AsciiFold(t[k]) == t[k];
    }
  }

  /** `BOOL_VALUES.stream().anyMatch(elem::equalsIgnoreCase)`. */
  predicate IsTruthy(elem: string)
    ensures elem in BOOL_VALUES ==> IsTruthy(elem)
    ensures IsTruthy(elem) ==> 1 <= |elem| <= 4
  {
    BoolValuesAreAscii();
    assert elem in BOOL_VALUES ==> EqualsIgnoreCase(elem, elem);
    exists t :: t in BOOL_VALUES && EqualsIgnoreCase(elem, t)
  }

  /**
   * Coercion of the trimmed selection.  Boolean always yields a value (true
   * for a truthy token, false for anything else); Long and Integer go through
   * the String constructor, whose NumberFormatException becomes an empty
   * result; String yields the text itself.
   */
  function Coerce(elem: string, target: Target): (r: Option<Value>)
    ensures r.None? <==> ((target == LongTarget && ParseLong(elem).None?)
                          || (target == IntegerTarget && ParseInt(elem).None?))
    ensures target == BooleanTarget ==> r == Some(BoolValue(IsTruthy(elem)))
    ensures r.Some? && target == LongTarget ==> r.value.LongValue? && IsDecimal(elem) && r.value.n == DecimalValue(elem)
    ensures r.Some? && target == IntegerTarget ==> r.value.IntValue? && IsDecimal(elem) && r.value.i == DecimalValue(elem)
    ensures r.Some? && target == StringTarget ==> r.value == StringValue(elem)
  {
    match target
    case BooleanTarget => Some(BoolValue(IsTruthy(elem)))
    case LongTarget =>
      (match ParseLong(elem)
       case Some(n) => Some(LongValue(n))
       case None => None)
    case IntegerTarget =>
      (match ParseInt(elem)
       case Some(n) => Some(IntValue(n))
       case None => None)
    case StringTarget => Some(StringValue(elem))
  }

  /** For ASCII text, truthiness is membership of its lower case in BOOL_VALUES. */
  lemma TruthyIffLowerCaseToken(elem: string)
    requires IsAscii(elem)
    ensures IsTruthy(elem) <==> AsciiLower(elem) in BOOL_VALUES
  {
    BoolValuesAreAscii();
    BoolValuesAreLowerCase();
    if IsTruthy(elem) {
      var t :| t in BOOL_VALUES && EqualsIgnoreCase(elem, t);
      EqualsIgnoreCaseIsLowerEquality(elem, t);
    }
    if AsciiLower(elem) in BOOL_VALUES {
      var t := AsciiLower(elem);
      EqualsIgnoreCaseIsLowerEquality(elem, t);
    }
  }

  /**
   * getSortedFirstElement(jsonObject, key, clazz): nothing when the key does
   * not occur, otherwise the coercion of the trimmed selection.  Sorting works
   * on the untrimmed candidates; only the selected one is trimmed.
   */
  function SortedFirstElement(ms: seq<Member>, key: string, target: Target): (r: Option<Value>)
    ensures ObjectMatches(ms, key) == [] ==> r == None
    ensures target == BooleanTarget || target == StringTarget ==>
              (r.Some? <==> ObjectMatches(ms, key) != [])
  {
    match SelectedRaw(ms, key)
    case None => None
    case Some(raw) => Coerce(Trim(raw), target)
  }

  /** For a key that occurs, the result is the coercion of the trimmed least candidate. */
  lemma SortedFirstElementOfLeast(ms: seq<Member>, key: string, target: Target)
    requires ObjectMatches(ms, key) != []
    ensures SortedFirstElement(ms, key, target) == Coerce(Trim(Least(ObjectMatches(ms, key))), target)
  {
    var input := ObjectMatches(ms, key);
    if |input| == 1 {
      assert input[0] == Least(input);
    }
  }

  /** A String result is the trimmed text of a candidate that no other candidate precedes. */
  lemma StringResultIsTrimmedFirstCandidate(ms: seq<Member>, key: string)
    requires ObjectMatches(ms, key) != []
    ensures SortedFirstElement(ms, key, StringTarget).Some?
    ensures var c := Least(ObjectMatches(ms, key));
            && OccursInObject(ms, key, c)
            && (forall d :: OccursInObject(ms, key, d) ==> AtMost(c, d))
            && SortedFirstElement(ms, key, StringTarget) == Some(StringValue(Trim(c)))
  {
    var input := ObjectMatches(ms, key);
    var c := Least(input);
    SortedFirstElementOfLeast(ms, key, StringTarget);
    ObjectMatchesExactly(ms, key, c);
    forall d | OccursInObject(ms, key, d)
      ensures AtMost(c, d)
    {
      ObjectMatchesExactly(ms, key, d);
    }
  }

  /** A Boolean result is always present, and is true exactly when the trimmed least candidate is a truthy token. */
  lemma BooleanResultIsTruthiness(ms: seq<Member>, key: string)
    requires ObjectMatches(ms, key) != []
    ensures SortedFirstElement(ms, key, BooleanTarget)
            == Some(BoolValue(IsTruthy(Trim(Least(ObjectMatches(ms, key))))))
  {
    SortedFirstElementOfLeast(ms, key, BooleanTarget);
  }

  /** The result does not depend on the order in which the searched object's own members are visited. */
  lemma SortedFirstElementIgnoresMemberOrder(a: seq<Member>, b: seq<Member>, key: string, target: Target)
    requires multiset(a) == multiset(b)
    ensures SortedFirstElement(a, key, target) == SortedFirstElement(b, key, target)
  {
    ObjectMatchesReordered(a, b, key);
    var xs, ys := ObjectMatches(a, key), ObjectMatches(b, key);
    assert |xs| == |multiset(xs)| == |multiset(ys)| == |ys|;
    if xs != [] {
      SortedFirstElementOfLeast(a, key, target);
      SortedFirstElementOfLeast(b, key, target);
      LeastDependsOnContentsOnly(xs, ys);
    }
  }
}
