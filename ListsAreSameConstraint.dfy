/**
  ListsAreSameConstraint as PHPUnit runs it: the loops of
  `associativeCollectionsEqual` and `indexedCollectionsEqual`, the search
  over the scratch copy of the actual items, and the constraint object
  whose `matches` turns a ListComparisonException into `false` and logs it
  in `differences`. Each method is proved to compute the function of the
  same name in ListEquality; the item comparison inside the loops is that
  function's `ItemsEqual`.
 */
module ListsAreSame {
  import opened Wrappers
  import opened Values
  import opened ListEquality

  /**
    Collection::search with the item comparison as callback: the position
    of the first candidate equal to `x`, or the exception the comparison
    threw (passed over for a nested list under TryNext).
   */
  method SearchScratch(x: Value, scratch: seq<Value>, strict: bool, nested: NestedMismatch) returns (r: SearchResult)
    ensures r == Search(x, scratch, 0, strict, nested)
  {
    var k := 0;
    while k < |scratch|
      invariant 0 <= k <= |scratch|
      invariant Search(x, scratch, 0, strict, nested) == Search(x, scratch, k, strict, nested)
    {
      var o := ItemsEqual(x, scratch[k], strict, nested);
      if o == Eq {
        return At(k);
      }
      if o.Err? && !(nested.TryNext? && x.Container?) {
        return Raised(o.failure);
      }
      k := k + 1;
    }
    return Absent;
  }

  /**
    `indexedCollectionsEqual`: for each expected item in turn, search the
    scratch copy of the actual items and splice the found one out of it.
   */
  method IndexedCollectionsEqual(expected: seq<Value>, actual: seq<Value>, strict: bool, nested: NestedMismatch)
    returns (r: Outcome)
    ensures r == IndexedMatch(expected, actual, strict, nested)
  {
    var scratch := actual;
    var i := 0;
    while i < |expected|
      invariant 0 <= i <= |expected|
      invariant IndexedMatch(expected, actual, strict, nested) == IndexedMatch(expected[i..], scratch, strict, nested)
    {
      assert expected[i..][0] == expected[i];
      assert expected[i..][1..] == expected[i + 1..];
      var found := SearchScratch(expected[i], scratch, strict, nested);
      if found.Absent? {
        return Err(MissingItem(expected[i]));
      }
      if found.Raised? {
        return Err(found.failure);
      }
      scratch := RemoveAt(scratch, found.pos);
      i := i + 1;
    }
    return Eq;
  }

  /**
    `associativeCollectionsEqual`: for each expected key in turn, the
    actual list must hold it with an equal item; the first that does not
    ends the loop with its exception.
   */
  method AssociativeCollectionsEqual(expected: seq<(Key, Value)>, actual: seq<(Key, Value)>, strict: bool, nested: NestedMismatch)
    returns (r: Outcome)
    ensures r == AssocEqual(expected, actual, strict, nested)
  {
    var i := 0;
    while i < |expected|
      invariant 0 <= i <= |expected|
      invariant AssocEqual(expected, actual, strict, nested) == AssocEqual(expected[i..], actual, strict, nested)
    {
      assert expected[i..][0] == expected[i];
      assert expected[i..][1..] == expected[i + 1..];
      var (key, item) := expected[i];
      var found := Lookup(actual, key);
      if found.None? {
        return Err(MissingKey(key));
      }
      var o := ItemsEqual(item, found.value, strict, nested);
      if o.Err? {
        return o;
      }
      if o == NotEq {
        return Err(KeyValueMismatch(key, item, found.value));
      }
      i := i + 1;
    }
    return Eq;
  }

  /**
    `listsEqual`: the two guards and the count check, then the associative
    part and, if it held, the indexed part.
   */
  method CompareLists(expected: Value, actual: Value, strict: bool, nested: NestedMismatch) returns (r: Outcome)
    ensures r == ListsEqual(expected, actual, strict, nested)
  {
    if !IsCollectable(expected) {
      return Err(ExpectedNotList);
    }
    if !IsCollectable(actual) {
      return Err(ActualNotList(TypeName(actual)));
    }
    if |expected.items| != |actual.items| {
      return Err(CountMismatch(|expected.items|, |actual.items|));
    }
    r := AssociativeCollectionsEqual(AssocPart(expected.items), AssocPart(actual.items), strict, nested);
    if r.Err? {
      return;
    }
    r := IndexedCollectionsEqual(IndexedPart(expected.items), IndexedPart(actual.items), strict, nested);
  }

  /**
    The constraint object: the expected list and the strictness it was
    built with, and the reasons of the failed matches so far. Nested lists
    are compared as the source does (`Abort`).
   */
  class ListsAreSameConstraint {
    const expected: Value
    const strict: bool
    var differences: seq<Failure>

    constructor(expected: Value, strict: bool)
      ensures this.expected == expected && this.strict == strict
      ensures differences == []
    {
      this.expected := expected;
      this.strict := strict;
      differences := [];
    }

    /**
      `matches`: true exactly when the lists compare equal; otherwise false,
      with exactly one reason appended to `differences`.
     */
    method Matches(other: Value) returns (ok: bool)
      modifies this
      ensures ok <==> ListsEqual(expected, other, strict, Abort) == Eq
      ensures ok ==> differences == old(differences)
      ensures !ok ==> differences == old(differences) + [ListsEqual(expected, other, strict, Abort).failure]
    {
      var r := CompareLists(expected, other, strict, Abort);
      if r.Err? {
        differences := differences + [r.failure];
        return false;
      }
      return true;
    }
  }
}
