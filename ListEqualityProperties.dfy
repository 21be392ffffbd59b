/**
  What the list comparison of ListsAreSameConstraint guarantees, and what
  it does not: its item rules, the order in which it gives up, what a
  success says about the two lists, and when it calls a list equal to itself.
 */
module ListEqualityProperties {
  import opened Wrappers
  import opened Values
  import opened ListEquality

  // ---------------------------------------------------------------------------
  // Item equality

  /** The rules for null and scalar expected items: they answer equal or not equal, and never throw. */
  lemma ScalarItemRules(e: Value, a: Value, strict: bool, nested: NestedMismatch)
    ensures e.Null? ==> ItemsEqual(e, a, strict, nested) == FromBool(a.Null?)
    ensures IsScalar(e) && IsScalar(a) ==>
      ItemsEqual(e, a, strict, nested) == FromBool(if strict then a == e else LooseEquals(e, a))
    ensures IsScalar(e) && !IsScalar(a) ==> ItemsEqual(e, a, strict, nested) == NotEq
  {
  }

  /** The rules for the other kinds of expected item, in the order the source tries them. */
  lemma OtherItemRules(e: Value, a: Value, strict: bool, nested: NestedMismatch)
    ensures e.Entity? ==> ItemsEqual(e, a, strict, nested) == FromBool(a.Entity? && a.id == e.id)
    ensures e.Container? ==> ItemsEqual(e, a, strict, nested) == ListsEqual(e, a, strict, nested)
    ensures e.Obj? ==>
      ItemsEqual(e, a, strict, nested) == FromBool(a.Obj? && a.cls == e.cls && (strict ==> a.oid == e.oid))
    ensures e.Resource? ==> ItemsEqual(e, a, strict, nested) == FromBool(a.Resource?)
    ensures e.Callable? ==> ItemsEqual(e, a, strict, nested) == FromBool(IsCallable(a))
    ensures e.ClosedResource? ==> ItemsEqual(e, a, strict, nested) == Err(Uncomparable(e, a, strict))
  {
  }

  /** In strict mode two scalars are equal only when they are identical; identical ones are always equal. */
  lemma {:induction false} StrictScalarsAreLooselyEqual(e: Value, a: Value, nested: NestedMismatch)
    requires IsScalar(e)
    ensures ItemsEqual(e, a, true, nested) == Eq <==> a == e
    ensures ItemsEqual(e, a, true, nested) == Eq ==> ItemsEqual(e, a, false, nested) == Eq
  {
    if a == e {
      LooseReflexive(e);
    }
  }

  lemma {:induction false} LooseReflexive(x: Value)
    requires IsScalar(x)
    ensures LooseEquals(x, x)
  {
    match x
    case Bool(b) =>
    case Int(n) =>
    case Str(s) =>
  }

  /** Loose equality does not depend on which side is expected. */
  lemma {:induction false} LooseSymmetric(x: Value, y: Value)
    requires IsScalar(x) && IsScalar(y)
    ensures LooseEquals(x, y) == LooseEquals(y, x)
  {
    match (x, y)
    case (Bool(b), Bool(c)) =>
    case (Bool(b), _) =>
    case (_, Bool(c)) =>
    case (Int(m), Int(n)) =>
    case (Int(m), Str(t)) =>
    case (Str(s), Int(n)) =>
    case (Str(s), Str(t)) =>
  }

  /** The loose comparisons the unit tests rely on, and their strict counterparts. */
  lemma TestedLooseCases()
    ensures LooseEquals(Int(0), Bool(false)) && LooseEquals(Int(1), Bool(true))
    ensures LooseEquals(Str("0"), Int(0)) && LooseEquals(Str("1"), Int(1))
    ensures !LooseEquals(Str("0"), Int(1)) && !LooseEquals(Int(0), Bool(true))
  {
    assert NumericValue("0") == Some(0) by {
      assert AllDigits("0");
      assert "0"[..0] == [];
    }
    assert NumericValue("1") == Some(1) by {
      assert AllDigits("1");
      assert "1"[..0] == [];
    }
  }

  /** Loose equality is not transitive, so greedy first-match can depend on order. */
  lemma LooseNotTransitive()
    ensures LooseEquals(Bool(true), Str("x")) && LooseEquals(Bool(true), Int(1))
    ensures !LooseEquals(Str("x"), Int(1))
  {
    assert NumericValue("x") == None by {
      assert !IsDigit("x"[0]);
    }
  }

  // ---------------------------------------------------------------------------
  // listsEqual: what is checked before any item is compared

  /**
    A side that is not a list, or a difference in item count, fails the
    comparison before any item is looked at, whatever the strictness; the
    message about the actual side names its PHP type.
   */
  lemma ListsEqualGuards(e: Value, a: Value, strict: bool, nested: NestedMismatch)
    ensures !e.Container? ==> ListsEqual(e, a, strict, nested) == Err(ExpectedNotList)
    ensures e.Container? && !a.Container? ==>
      ListsEqual(e, a, strict, nested) == Err(ActualNotList(TypeName(a)))
    ensures e.Container? && a.Container? && |e.items| != |a.items| ==>
      ListsEqual(e, a, strict, nested) == Err(CountMismatch(|e.items|, |a.items|))
    ensures !e.Container? || !a.Container? || |e.items| != |a.items| ==>
      ListsEqual(e, a, strict, nested) == ListsEqual(e, a, !strict, nested)
  {
  }

  // ---------------------------------------------------------------------------
  // The candidate search

  /** A candidate the search passes over: unequal, or (only under TryNext) a nested list that failed. */
  predicate Skipped(o: Outcome, x: Value, nested: NestedMismatch) {
    o == NotEq || (o.Err? && nested.TryNext? && x.Container?)
  }

  /**
    The search scans the candidates in order: it stops at the first equal
    one, or at the first that throws when that exception escapes, and
    passes over all the others.
   */
  lemma SearchScansInOrder(x: Value, scratch: seq<Value>, from: nat, strict: bool, nested: NestedMismatch)
    requires from <= |scratch|
    ensures var r := Search(x, scratch, from, strict, nested);
      && (r.At? ==> forall k :: from <= k < r.pos ==> Skipped(ItemsEqual(x, scratch[k], strict, nested), x, nested))
      && (r.Absent? ==> forall k :: from <= k < |scratch| ==> Skipped(ItemsEqual(x, scratch[k], strict, nested), x, nested))
      && (r.Raised? ==> exists k :: from <= k < |scratch| && ItemsEqual(x, scratch[k], strict, nested) == Err(r.failure)
                                    && forall k' :: from <= k' < k ==> Skipped(ItemsEqual(x, scratch[k'], strict, nested), x, nested))
  {
    SkippedBeforeFound(x, scratch, from, strict, nested);
    SkippedWhenAbsent(x, scratch, from, strict, nested);
    SkippedBeforeRaised(x, scratch, from, strict, nested);
  }

  lemma {:induction false} SkippedBeforeFound(x: Value, scratch: seq<Value>, from: nat, strict: bool, nested: NestedMismatch)
    requires from <= |scratch|
    decreases |scratch| - from
    ensures var r := Search(x, scratch, from, strict, nested);
      r.At? ==> forall k :: from <= k < r.pos ==> Skipped(ItemsEqual(x, scratch[k], strict, nested), x, nested)
  {
    if from < |scratch| && Skipped(ItemsEqual(x, scratch[from], strict, nested), x, nested) {
      assert Search(x, scratch, from, strict, nested) == Search(x, scratch, from + 1, strict, nested);
      SkippedBeforeFound(x, scratch, from + 1, strict, nested);
      var r := Search(x, scratch, from, strict, nested);
      if r.At? {
        forall k | from <= k < r.pos
          ensures Skipped(ItemsEqual(x, scratch[k], strict, nested), x, nested)
        {
        }
      }
    }
  }

  lemma {:induction false} SkippedWhenAbsent(x: Value, scratch: seq<Value>, from: nat, strict: bool, nested: NestedMismatch)
    requires from <= |scratch|
    decreases |scratch| - from
    ensures Search(x, scratch, from, strict, nested).Absent? ==>
      forall k :: from <= k < |scratch| ==> Skipped(ItemsEqual(x, scratch[k], strict, nested), x, nested)
  {
    if from < |scratch| && Skipped(ItemsEqual(x, scratch[from], strict, nested), x, nested) {
      assert Search(x, scratch, from, strict, nested) == Search(x, scratch, from + 1, strict, nested);
      SkippedWhenAbsent(x, scratch, from + 1, strict, nested);
    }
  }

  lemma {:induction false} SkippedBeforeRaised(x: Value, scratch: seq<Value>, from: nat, strict: bool, nested: NestedMismatch)
    requires from <= |scratch|
    decreases |scratch| - from
    ensures var r := Search(x, scratch, from, strict, nested);
      r.Raised? ==> exists k :: from <= k < |scratch| && ItemsEqual(x, scratch[k], strict, nested) == Err(r.failure)
                               && forall k' :: from <= k' < k ==> Skipped(ItemsEqual(x, scratch[k'], strict, nested), x, nested)
  {
    if from < |scratch| && Skipped(ItemsEqual(x, scratch[from], strict, nested), x, nested) {
      assert Search(x, scratch, from, strict, nested) == Search(x, scratch, from + 1, strict, nested);
      SkippedBeforeRaised(x, scratch, from + 1, strict, nested);
    }
  }

  /**
    With nested lists passed over on failure, the search reports an item
    missing only when no candidate equals it, and never throws.
   */
  lemma {:induction false} TryNextSearchIsComplete(x: Value, scratch: seq<Value>, strict: bool)
    requires x.Container?
    ensures var r := Search(x, scratch, 0, strict, TryNext);
      && !r.Raised?
      && (r.Absent? <==> forall k :: 0 <= k < |scratch| ==> ItemsEqual(x, scratch[k], strict, TryNext) != Eq)
  {
    SearchScansInOrder(x, scratch, 0, strict, TryNext);
  }

  /**
    As written, the search gives up at the first candidate list that differs:
    [1] is not found among [[2], [1]] although the second candidate equals it.
   */
  lemma AbortSearchMissesLaterMatch(strict: bool)
    ensures var x := Container([(IntKey(0), Int(1))]);
      var scratch := [Container([(IntKey(0), Int(2))]), x];
      && ItemsEqual(x, scratch[1], strict, Abort) == Eq
      && Search(x, scratch, 0, strict, Abort) == Raised(MissingItem(Int(1)))
  {
    var one := Container([(IntKey(0), Int(1))]);
    var two := Container([(IntKey(0), Int(2))]);
    assert IndexedPart(one.items) == [Int(1)];
    assert IndexedPart(two.items) == [Int(2)];
    assert AssocPart(one.items) == [];
    assert AssocPart(two.items) == [];
    assert ItemsEqual(Int(1), Int(2), strict, Abort) == NotEq;
    assert Search(Int(1), [Int(2)], 1, strict, Abort) == Absent;
    assert ItemsEqual(Int(1), Int(1), strict, Abort) == Eq by {
      LooseReflexive(Int(1));
    }
    assert Search(Int(1), [Int(1)], 0, strict, Abort) == At(0);
    assert RemoveAt([Int(1)], 0) == [];
    assert ItemsEqual(one, one, strict, Abort) == Eq;
  }

  // ---------------------------------------------------------------------------
  // associativeCollectionsEqual

  /** The expected pair `p` is found in `act` under its key, with an equal item. */
  predicate KeyMatches(p: (Key, Value), act: seq<(Key, Value)>, strict: bool, nested: NestedMismatch) {
    Lookup(act, p.0).Some? && ItemsEqual(p.1, Lookup(act, p.0).value, strict, nested) == Eq
  }

  /** The associative comparison succeeds exactly when every expected key matches. */
  lemma {:induction false} AssocEqualIff(exp: seq<(Key, Value)>, act: seq<(Key, Value)>, strict: bool, nested: NestedMismatch)
    ensures AssocEqual(exp, act, strict, nested) == Eq <==>
      forall i :: 0 <= i < |exp| ==> KeyMatches(exp[i], act, strict, nested)
  {
    if exp != [] {
      AssocEqualIff(exp[1..], act, strict, nested);
      assert forall i :: 1 <= i < |exp| ==> exp[i] == exp[1..][i - 1];
    }
  }

  /**
    The first missing or unequal key ends the comparison: whatever keys
    come after it are never examined.
   */
  lemma {:induction false} AssocStopsAtFirstFailure(pre: seq<(Key, Value)>, rest: seq<(Key, Value)>, act: seq<(Key, Value)>, strict: bool, nested: NestedMismatch)
    ensures AssocEqual(pre, act, strict, nested) != Eq ==>
      AssocEqual(pre + rest, act, strict, nested) == AssocEqual(pre, act, strict, nested)
    ensures AssocEqual(pre, act, strict, nested) == Eq ==>
      AssocEqual(pre + rest, act, strict, nested) == AssocEqual(rest, act, strict, nested)
  {
    if pre != [] {
      assert (pre + rest)[0] == pre[0];
      assert (pre + rest)[1..] == pre[1..] + rest;
      AssocStopsAtFirstFailure(pre[1..], rest, act, strict, nested);
    } else {
      assert pre + rest == rest;
    }
  }

  // ---------------------------------------------------------------------------
  // indexedCollectionsEqual

  /** `picked[i]` is the actual item paired with the expected item `exp[i]`. */
  predicate Pairs(exp: seq<Value>, picked: seq<Value>, strict: bool, nested: NestedMismatch) {
    |picked| == |exp| && forall i :: 0 <= i < |exp| ==> ItemsEqual(exp[i], picked[i], strict, nested) == Eq
  }

  /**
    A successful indexed match pairs every expected item with an equal
    scratch item, and uses no scratch item twice.
   */
  lemma IndexedMatchPairs(exp: seq<Value>, scratch: seq<Value>, strict: bool, nested: NestedMismatch)
    requires IndexedMatch(exp, scratch, strict, nested) == Eq
    ensures exists picked :: Pairs(exp, picked, strict, nested) && multiset(picked) <= multiset(scratch)
  {
    var picked := PickedItems(exp, scratch, strict, nested);
  }

  /** The candidates the match took, in the order of the expected items. */
  lemma {:induction false} PickedItems(exp: seq<Value>, scratch: seq<Value>, strict: bool, nested: NestedMismatch)
    returns (picked: seq<Value>)
    requires IndexedMatch(exp, scratch, strict, nested) == Eq
    ensures Pairs(exp, picked, strict, nested) && multiset(picked) <= multiset(scratch)
  {
    if exp == [] {
      picked := [];
    } else {
      var j := IndexedMatchTakes(exp, scratch, strict, nested);
      var rest := RemoveAt(scratch, j);
      var p := PickedItems(exp[1..], rest, strict, nested);
      picked := [scratch[j]] + p;
      PairsCons(exp, scratch[j], p, strict, nested);
      assert multiset(picked) == multiset(p) + multiset{scratch[j]};
    }
  }

  /** An equal candidate for the first item, followed by a pairing of the rest, pairs the whole. */
  lemma PairsCons(exp: seq<Value>, y: Value, p: seq<Value>, strict: bool, nested: NestedMismatch)
    requires exp != [] && ItemsEqual(exp[0], y, strict, nested) == Eq && Pairs(exp[1..], p, strict, nested)
    ensures Pairs(exp, [y] + p, strict, nested)
  {
    forall i | 0 < i < |exp|
      ensures ItemsEqual(exp[i], ([y] + p)[i], strict, nested) == Eq
    {
      assert exp[i] == exp[1..][i - 1] && ([y] + p)[i] == p[i - 1];
    }
  }

  /** A successful match took some equal candidate for the first item and matched the rest against the others. */
  lemma IndexedMatchTakes(exp: seq<Value>, scratch: seq<Value>, strict: bool, nested: NestedMismatch) returns (j: nat)
    requires exp != [] && IndexedMatch(exp, scratch, strict, nested) == Eq
    ensures j < |scratch| && ItemsEqual(exp[0], scratch[j], strict, nested) == Eq
    ensures IndexedMatch(exp[1..], RemoveAt(scratch, j), strict, nested) == Eq
  {
    j := Search(exp[0], scratch, 0, strict, nested).pos;
  }

  lemma MultisetSameSize(a: multiset<Value>, b: multiset<Value>)
    requires a <= b && |a| == |b|
    ensures a == b
  {
    assert b == a + (b - a);
  }

  // ---------------------------------------------------------------------------
  // listsEqual: what a success means

  /** A PHP array or Collection: no key occurs twice. */
  predicate WellKeyed(v: Value) {
    v.Container? ==> DistinctKeys(v.items)
  }

  /**
    When two lists compare equal they hold the same string keys, with equal
    items under each, and their integer-keyed items can be paired one to
    one so that each pair is equal. An actual key the expected list lacks
    is therefore never let through: the count check together with the
    indexed matching catches it.
   */
  lemma ListsEqualSound(e: Value, a: Value, strict: bool, nested: NestedMismatch)
    requires ListsEqual(e, a, strict, nested) == Eq
    requires WellKeyed(e) && WellKeyed(a)
    ensures e.Container? && a.Container?
    ensures Keys(AssocPart(e.items)) == Keys(AssocPart(a.items))
    ensures forall i :: 0 <= i < |AssocPart(e.items)| ==>
      KeyMatches(AssocPart(e.items)[i], AssocPart(a.items), strict, nested)
    ensures |IndexedPart(e.items)| == |IndexedPart(a.items)|
    ensures exists picked :: Pairs(IndexedPart(e.items), picked, strict, nested)
                             && multiset(picked) == multiset(IndexedPart(a.items))
  {
    ListsEqualSucceeded(e, a, strict, nested);
    var ea, aa := AssocPart(e.items), AssocPart(a.items);
    var ei, ai := IndexedPart(e.items), IndexedPart(a.items);
    AssocEqualIff(ea, aa, strict, nested);
    assert Keys(ea) <= Keys(aa) by {
      forall k | k in Keys(ea) ensures k in Keys(aa) {
        var i :| 0 <= i < |ea| && ea[i].0 == k;
        assert KeyMatches(ea[i], aa, strict, nested);
      }
    }
    PartsBalance(e.items, a.items);
    IndexedMatchPairs(ei, ai, strict, nested);
    var picked :| Pairs(ei, picked, strict, nested) && multiset(picked) <= multiset(ai);
    MultisetSameSize(multiset(picked), multiset(ai));
  }

  /** A success passed the count check and both part comparisons. */
  lemma ListsEqualSucceeded(e: Value, a: Value, strict: bool, nested: NestedMismatch)
    requires ListsEqual(e, a, strict, nested) == Eq
    ensures e.Container? && a.Container? && |e.items| == |a.items|
    ensures AssocEqual(AssocPart(e.items), AssocPart(a.items), strict, nested) == Eq
    ensures IndexedMatch(IndexedPart(e.items), IndexedPart(a.items), strict, nested) == Eq
  {
  }

  /**
    Two lists of equal length whose expected string keys all occur in the
    actual list, and whose expected indexed part is no longer than the
    actual one, have the same string keys and indexed parts of equal length.
   */
  lemma PartsBalance(eItems: seq<(Key, Value)>, aItems: seq<(Key, Value)>)
    requires |eItems| == |aItems| && DistinctKeys(eItems) && DistinctKeys(aItems)
    requires Keys(AssocPart(eItems)) <= Keys(AssocPart(aItems))
    requires |IndexedPart(eItems)| <= |IndexedPart(aItems)|
    ensures Keys(AssocPart(eItems)) == Keys(AssocPart(aItems))
    ensures |IndexedPart(eItems)| == |IndexedPart(aItems)|
  {
    var ek, ak := Keys(AssocPart(eItems)), Keys(AssocPart(aItems));
    PartitionSizes(eItems);
    PartitionSizes(aItems);
    AssocPartKeys(eItems);
    AssocPartKeys(aItems);
    DistinctKeysCount(AssocPart(eItems));
    DistinctKeysCount(AssocPart(aItems));
    SubsetCard(ek, ak);
  }

  lemma SubsetCard(small: set<Key>, big: set<Key>)
    requires small <= big
    ensures |small| <= |big|
    ensures |small| == |big| ==> small == big
  {
    assert big == small + (big - small);
    assert |big| == |small| + |big - small|;
  }

  // ---------------------------------------------------------------------------
  // A list compared with itself

  /** A value made only of PHP arrays without repeated keys, and of comparable items. */
  predicate WellFormed(v: Value)
    decreases v
  {
    match v
    case ClosedResource => false
    case Container(items) => DistinctKeys(items) && forall i :: 0 <= i < |items| ==> WellFormed(items[i].1)
    case _ => true
  }

  /** Matching a list of self-equal items against itself takes each item in turn. */
  lemma {:induction false} IndexedMatchSelf(ip: seq<Value>, strict: bool, nested: NestedMismatch)
    requires forall x :: x in ip ==> ItemsEqual(x, x, strict, nested) == Eq
    ensures IndexedMatch(ip, ip, strict, nested) == Eq
  {
    if ip != [] {
      assert Search(ip[0], ip, 0, strict, nested) == At(0);
      assert RemoveAt(ip, 0) == ip[1..];
      IndexedMatchSelf(ip[1..], strict, nested);
    }
  }

  /**
    Every well-formed value equals itself, in both modes: a list compared
    with an identical copy of itself always succeeds.
   */
  lemma {:induction false} ItemsEqualReflexive(v: Value, strict: bool, nested: NestedMismatch)
    requires WellFormed(v)
    ensures ItemsEqual(v, v, strict, nested) == Eq
    decreases v
  {
    match v
    case Bool(_) => LooseReflexive(v);
    case Int(_) => LooseReflexive(v);
    case Str(_) => LooseReflexive(v);
    case Container(items) =>
      PartMembers(items);
      var ap, ip := AssocPart(items), IndexedPart(items);
      forall i | 0 <= i < |ap| ensures KeyMatches(ap[i], ap, strict, nested) {
        AssocPartKeys(items);
        LookupFindsPair(ap, i);
        assert ap[i] in ap;
        var j :| 0 <= j < |items| && items[j] == ap[i];
        ItemsEqualReflexive(items[j].1, strict, nested);
      }
      AssocEqualIff(ap, ap, strict, nested);
      forall x | x in ip ensures ItemsEqual(x, x, strict, nested) == Eq {
        var j :| 0 <= j < |items| && items[j].1 == x;
        ItemsEqualReflexive(items[j].1, strict, nested);
      }
      IndexedMatchSelf(ip, strict, nested);
    case _ =>
  }

  // ---------------------------------------------------------------------------
  // Comparisons from the unit tests

  /** Two list literals compare as their items do, matched greedily. */
  lemma ListLiterals(es: seq<Value>, as_: seq<Value>, strict: bool, nested: NestedMismatch)
    requires |es| == |as_|
    ensures ListsEqual(List(es), List(as_), strict, nested) == IndexedMatch(es, as_, strict, nested)
  {
    ListParts(es, 0);
    ListParts(as_, 0);
  }

  /** Numeric strings equal numbers only in non-strict mode. */
  lemma NumericStringsTest()
    ensures ListsEqual(List([Str("0"), Int(1)]), List([Str("1"), Int(0)]), false, Abort) == Eq
    ensures ListsEqual(List([Str("0"), Int(1)]), List([Str("1"), Int(0)]), true, Abort) == Err(MissingItem(Str("0")))
  {
    var es, as_ := [Str("0"), Int(1)], [Str("1"), Int(0)];
    ListLiterals(es, as_, false, Abort);
    ListLiterals(es, as_, true, Abort);
    NumericStringsMatch();
  }

  /** 0 and 1 equal false and true only in non-strict mode. */
  lemma BooleansTest()
    ensures ListsEqual(List([Int(0), Int(1)]), List([Bool(true), Bool(false)]), false, Abort) == Eq
    ensures ListsEqual(List([Int(0), Int(1)]), List([Bool(true), Bool(false)]), true, Abort) == Err(MissingItem(Int(0)))
  {
    var es, as_ := [Int(0), Int(1)], [Bool(true), Bool(false)];
    ListLiterals(es, as_, false, Abort);
    ListLiterals(es, as_, true, Abort);
    BooleansMatch();
  }

  /** Models compare by identity, in both modes. */
  lemma ModelsTest(strict: bool)
    ensures ListsEqual(List([Entity(15), Entity(12)]), List([Entity(12), Entity(15)]), strict, Abort) == Eq
  {
    ListLiterals([Entity(15), Entity(12)], [Entity(12), Entity(15)], strict, Abort);
    OtherItemRules(Entity(15), Entity(12), strict, Abort);
    OtherItemRules(Entity(15), Entity(15), strict, Abort);
    MatchTwo(Entity(15), Entity(12), Entity(12), Entity(15), strict, Abort);
    OtherItemRules(Entity(12), Entity(12), strict, Abort);
    MatchOne(Entity(12), Entity(12), strict, Abort);
  }

  /** Plain objects of one class are equal in non-strict mode, and only the same instance in strict mode. */
  lemma ObjectsTest()
    ensures var command, action1, action2 := Obj("Command", 1), Obj("Action", 2), Obj("Action", 3);
      && ListsEqual(List([command, action1]), List([command, action2]), false, Abort) == Eq
      && ListsEqual(List([command, action1]), List([command, action2]), true, Abort) == Err(MissingItem(action1))
  {
    var command, action1, action2 := Obj("Command", 1), Obj("Action", 2), Obj("Action", 3);
    ListLiterals([command, action1], [command, action2], false, Abort);
    ListLiterals([command, action1], [command, action2], true, Abort);
    ObjectsMatch();
  }

  /** Any two closures are equal (all are objects of class Closure); a closure never equals 1. */
  lemma ClosuresTest()
    ensures var c1, c2, c3 := Obj("Closure", 1), Obj("Closure", 2), Obj("Closure", 3);
      && ListsEqual(List([c1, c2]), List([c2, c3]), false, Abort) == Eq
      && ListsEqual(List([c1, c2]), List([Int(1), c2]), false, Abort) == Err(MissingItem(c2))
  {
    var c1, c2, c3 := Obj("Closure", 1), Obj("Closure", 2), Obj("Closure", 3);
    ListLiterals([c1, c2], [c2, c3], false, Abort);
    ListLiterals([c1, c2], [Int(1), c2], false, Abort);
    ClosuresMatch();
  }

  /**
    A list holding a closure equals a Collection holding another closure
    and the same scalars in a different order.
   */
  lemma ClosuresInCollectionTest()
    ensures var c1, c2 := Obj("Closure", 1), Obj("Closure", 2);
      ListsEqual(List([Int(1), Str("abc"), c1]), List([c2, Int(1), Str("abc")]), false, Abort) == Eq
  {
    var c1, c2 := Obj("Closure", 1), Obj("Closure", 2);
    ListLiterals([Int(1), Str("abc"), c1], [c2, Int(1), Str("abc")], false, Abort);
    ClosuresInCollectionMatch();
  }

  /** Two Collections with the same scalars and nested list, in different orders, are equal in both modes. */
  lemma CollectionsTest(strict: bool)
    ensures var ab := List([Str("ab"), Str("cd")]);
      ListsEqual(List([Int(1), Bool(false), ab]), List([ab, Int(1), Bool(false)]), strict, Abort) == Eq
  {
    var ab := List([Str("ab"), Str("cd")]);
    ListLiterals([Int(1), Bool(false), ab], [ab, Int(1), Bool(false)], strict, Abort);
    CollectionsMatch(strict);
  }

  /** Two flat lists of strings are equal in any order; a different string fails. */
  lemma FlatListsTest()
    ensures var i1, i2, i3 := Str("item1"), Str("item2"), Str("item3");
      && ListsEqual(List([i1, i2]), List([i2, i1]), false, Abort) == Eq
      && ListsEqual(List([i1, i2]), List([i1, i3]), false, Abort) == Err(MissingItem(i2))
  {
    var i1, i2, i3 := Str("item1"), Str("item2"), Str("item3");
    ListLiterals([i1, i2], [i2, i1], false, Abort);
    ListLiterals([i1, i2], [i1, i3], false, Abort);
    FlatListsMatch();
    FlatListsMismatch();
  }

  // ---------------------------------------------------------------------------
  // Nested lists in the indexed part, as written and corrected

  /** [1] and [2] differ, with the reason that 1 is missing. */
  lemma OneIsNotTwo(strict: bool, nested: NestedMismatch)
    ensures ItemsEqual(List([Int(1)]), List([Int(2)]), strict, nested) == Err(MissingItem(Int(1)))
  {
    ListLiterals([Int(1)], [Int(2)], strict, nested);
    MatchOne(Int(1), Int(2), strict, nested);
  }

  /** A one-item list of an integer equals itself. */
  lemma SingletonEqualsItself(n: int, strict: bool, nested: NestedMismatch)
    ensures ItemsEqual(List([Int(n)]), List([Int(n)]), strict, nested) == Eq
  {
    ListLiterals([Int(n)], [Int(n)], strict, nested);
    MatchOne(Int(n), Int(n), strict, nested);
    LooseReflexive(Int(n));
  }

  /**
    As written, [[1], [2]] does not equal [[2], [1]]: the comparison of [1]
    with [2] throws, and the exception escapes the search.
   */
  lemma NestedListsOutOfOrderAsWritten(strict: bool)
    ensures var one, two := List([Int(1)]), List([Int(2)]);
      ListsEqual(List([one, two]), List([two, one]), strict, Abort) == Err(MissingItem(Int(1)))
  {
    var one, two := List([Int(1)]), List([Int(2)]);
    ListLiterals([one, two], [two, one], strict, Abort);
    NestedListsOutOfOrderAborts(strict);
  }

  /** Passing over the failed candidate instead finds [1], and the two lists compare equal. */
  lemma NestedListsOutOfOrderCorrected(strict: bool)
    ensures var one, two := List([Int(1)]), List([Int(2)]);
      ListsEqual(List([one, two]), List([two, one]), strict, TryNext) == Eq
  {
    var one, two := List([Int(1)]), List([Int(2)]);
    ListLiterals([one, two], [two, one], strict, TryNext);
    NestedListsOutOfOrderSkips(strict);
  }

  /**
    As written, [[1], 5] does not equal [5, [1]]: comparing [1] with 5
    throws "actual value must be a list", and that escapes the search.
   */
  lemma NestedListBeforeScalarAsWritten(strict: bool)
    ensures ListsEqual(List([List([Int(1)]), Int(5)]), List([Int(5), List([Int(1)])]), strict, Abort)
      == Err(ActualNotList("integer"))
  {
    var one := List([Int(1)]);
    ListLiterals([one, Int(5)], [Int(5), one], strict, Abort);
    NestedListBeforeScalarAborts(strict);
  }

  /** Passing over the failed candidate, [[1], 5] equals [5, [1]]. */
  lemma NestedListBeforeScalarCorrected(strict: bool)
    ensures ListsEqual(List([List([Int(1)]), Int(5)]), List([Int(5), List([Int(1)])]), strict, TryNext) == Eq
  {
    var one := List([Int(1)]);
    ListLiterals([one, Int(5)], [Int(5), one], strict, TryNext);
    NestedListBeforeScalarSkips(strict);
  }

  // ---------------------------------------------------------------------------
  // Greedy matching and the order of the actual items

  /**
    Reordering the actual items can change the verdict in non-strict mode
    (no nested list is involved, so the policy for them plays no part):
    true takes the first loosely equal candidate, "x" when it comes first,
    and "x" is then left with nothing equal to it.
   */
  lemma ActualOrderMatters()
    ensures ListsEqual(List([Bool(true), Str("x")]), List([Int(1), Str("x")]), false, Abort) == Eq
    ensures ListsEqual(List([Bool(true), Str("x")]), List([Str("x"), Int(1)]), false, Abort) == Err(MissingItem(Str("x")))
  {
    ListLiterals([Bool(true), Str("x")], [Int(1), Str("x")], false, Abort);
    ListLiterals([Bool(true), Str("x")], [Str("x"), Int(1)], false, Abort);
    ActualOrderMatch();
  }

  /**
    A strict success does not imply a non-strict one: strictly, each item
    finds its identical partner, while loosely true takes "x" first and
    "x" is then left without a partner.
   */
  lemma StrictDoesNotImplyLoose()
    ensures ListsEqual(List([Bool(true), Int(1), Str("x")]), List([Str("x"), Bool(true), Int(1)]), true, Abort) == Eq
    ensures ListsEqual(List([Bool(true), Int(1), Str("x")]), List([Str("x"), Bool(true), Int(1)]), false, Abort)
      == Err(MissingItem(Str("x")))
  {
    var es, as_ := [Bool(true), Int(1), Str("x")], [Str("x"), Bool(true), Int(1)];
    ListLiterals(es, as_, true, Abort);
    ListLiterals(es, as_, false, Abort);
    StrictPairsIdentical();
    LoosePairsGreedily();
  }

  // ---------------------------------------------------------------------------
  // Evaluating the literals above step by step
  //
  // The lemmas below only walk the comparison through the short lists of
  // the sections above, one search and one removal at a time.

  /** One expected item against one candidate. */
  lemma MatchOne(x: Value, y: Value, strict: bool, nested: NestedMismatch)
    ensures var o := ItemsEqual(x, y, strict, nested);
      IndexedMatch([x], [y], strict, nested) ==
        if o == Eq then Eq
        else if o.Err? && !(nested.TryNext? && x.Container?) then o
        else Err(MissingItem(x))
  {
    assert [x][1..] == [];
    assert RemoveAt([y], 0) == [];
    assert Search(x, [y], 1, strict, nested) == Absent;
  }

  /** Two expected items against two candidates: the first takes the first candidate equal to it. */
  lemma MatchTwo(a: Value, b: Value, p: Value, q: Value, strict: bool, nested: NestedMismatch)
    ensures var o0, o1 := ItemsEqual(a, p, strict, nested), ItemsEqual(a, q, strict, nested);
      var skip := nested.TryNext? && a.Container?;
      IndexedMatch([a, b], [p, q], strict, nested) ==
        if o0 == Eq then IndexedMatch([b], [q], strict, nested)
        else if o0.Err? && !skip then o0
        else if o1 == Eq then IndexedMatch([b], [p], strict, nested)
        else if o1.Err? && !skip then o1
        else Err(MissingItem(a))
  {
    SearchTwo(a, p, q, strict, nested);
    MatchTwoBySearch(a, b, p, q, strict, nested);
  }

  lemma MatchTwoBySearch(a: Value, b: Value, p: Value, q: Value, strict: bool, nested: NestedMismatch)
    ensures var found := Search(a, [p, q], 0, strict, nested);
      IndexedMatch([a, b], [p, q], strict, nested) ==
        if found.At? then IndexedMatch([b], if found.pos == 0 then [q] else [p], strict, nested)
        else if found.Absent? then Err(MissingItem(a))
        else Err(found.failure)
  {
    var found := Search(a, [p, q], 0, strict, nested);
    if found.At? {
      TwoFound(a, b, p, q, found.pos, strict, nested);
      RemoveFromTwo(p, q);
    } else {
      TwoNotFound(a, b, p, q, strict, nested);
    }
  }

  lemma TwoFound(a: Value, b: Value, p: Value, q: Value, j: nat, strict: bool, nested: NestedMismatch)
    requires j < 2 && Search(a, [p, q], 0, strict, nested) == At(j)
    ensures IndexedMatch([a, b], [p, q], strict, nested) == IndexedMatch([b], RemoveAt([p, q], j), strict, nested)
  {
    assert [a, b][0] == a && [a, b][1..] == [b];
  }

  lemma TwoNotFound(a: Value, b: Value, p: Value, q: Value, strict: bool, nested: NestedMismatch)
    requires !Search(a, [p, q], 0, strict, nested).At?
    ensures var found := Search(a, [p, q], 0, strict, nested);
      IndexedMatch([a, b], [p, q], strict, nested) ==
        if found.Absent? then Err(MissingItem(a)) else Err(found.failure)
  {
    assert [a, b][0] == a;
  }

  lemma RemoveFromTwo(p: Value, q: Value)
    ensures RemoveAt([p, q], 0) == [q] && RemoveAt([p, q], 1) == [p]
  {
    assert [p, q][1..] == [q];
    assert [p, q][..1] == [p];
  }

  /** The first expected item picks its candidate; the rest are matched against what remains. */
  lemma MatchFirst(x: Value, rest: seq<Value>, scratch: seq<Value>, strict: bool, nested: NestedMismatch)
    ensures var found := Search(x, scratch, 0, strict, nested);
      IndexedMatch([x] + rest, scratch, strict, nested) ==
        if found.At? then IndexedMatch(rest, RemoveAt(scratch, found.pos), strict, nested)
        else if found.Absent? then Err(MissingItem(x))
        else Err(found.failure)
  {
    assert ([x] + rest)[0] == x;
    assert ([x] + rest)[1..] == rest;
  }

  /** Searching two candidates. */
  lemma SearchTwo(x: Value, y0: Value, y1: Value, strict: bool, nested: NestedMismatch)
    ensures var o0, o1 := ItemsEqual(x, y0, strict, nested), ItemsEqual(x, y1, strict, nested);
      var skip := nested.TryNext? && x.Container?;
      Search(x, [y0, y1], 0, strict, nested) ==
        if o0 == Eq then At(0)
        else if o0.Err? && !skip then Raised(o0.failure)
        else if o1 == Eq then At(1)
        else if o1.Err? && !skip then Raised(o1.failure)
        else Absent
  {
    var s := [y0, y1];
    SearchStep(x, s, 0, strict, nested);
    SearchStep(x, s, 1, strict, nested);
  }

  /** One step of the search: the candidate at `from` decides, or the search moves on. */
  lemma SearchStep(x: Value, s: seq<Value>, from: nat, strict: bool, nested: NestedMismatch)
    requires from < |s|
    ensures var o := ItemsEqual(x, s[from], strict, nested);
      Search(x, s, from, strict, nested) ==
        if o == Eq then At(from)
        else if o.Err? && !(nested.TryNext? && x.Container?) then Raised(o.failure)
        else Search(x, s, from + 1, strict, nested)
  {
  }

  /** A string that starts with a letter is not numeric, so loosely it equals only itself. */
  lemma WordIsNotNumeric(s: string)
    requires |s| > 0 && 'a' <= s[0] <= 'z'
    ensures NumericValue(s) == None
  {
    assert !IsDigit(s[0]);
  }

  lemma FlatListsMatch()
    ensures IndexedMatch([Str("item1"), Str("item2")], [Str("item2"), Str("item1")], false, Abort) == Eq
  {
    WordIsNotNumeric("item1");
    WordIsNotNumeric("item2");
    ScalarItemRules(Str("item1"), Str("item2"), false, Abort);
    ScalarItemRules(Str("item1"), Str("item1"), false, Abort);
    ScalarItemRules(Str("item2"), Str("item2"), false, Abort);
    MatchTwo(Str("item1"), Str("item2"), Str("item2"), Str("item1"), false, Abort);
    MatchOne(Str("item2"), Str("item2"), false, Abort);
  }

  lemma FlatListsMismatch()
    ensures IndexedMatch([Str("item1"), Str("item2")], [Str("item1"), Str("item3")], false, Abort)
      == Err(MissingItem(Str("item2")))
  {
    WordIsNotNumeric("item1");
    WordIsNotNumeric("item2");
    WordIsNotNumeric("item3");
    ScalarItemRules(Str("item1"), Str("item1"), false, Abort);
    ScalarItemRules(Str("item2"), Str("item3"), false, Abort);
    assert ItemsEqual(Str("item2"), Str("item3"), false, Abort) == NotEq;
    MatchTwo(Str("item1"), Str("item2"), Str("item1"), Str("item3"), false, Abort);
    MatchOne(Str("item2"), Str("item3"), false, Abort);
  }

  lemma NumericStringsMatch()
    ensures IndexedMatch([Str("0"), Int(1)], [Str("1"), Int(0)], false, Abort) == Eq
    ensures IndexedMatch([Str("0"), Int(1)], [Str("1"), Int(0)], true, Abort) == Err(MissingItem(Str("0")))
  {
    TestedLooseCases();
    assert NumericValue("1") == Some(1) && NumericValue("0") == Some(0);
    MatchTwo(Str("0"), Int(1), Str("1"), Int(0), false, Abort);
    MatchOne(Int(1), Str("1"), false, Abort);
    MatchTwo(Str("0"), Int(1), Str("1"), Int(0), true, Abort);
  }

  lemma BooleansMatch()
    ensures IndexedMatch([Int(0), Int(1)], [Bool(true), Bool(false)], false, Abort) == Eq
    ensures IndexedMatch([Int(0), Int(1)], [Bool(true), Bool(false)], true, Abort) == Err(MissingItem(Int(0)))
  {
    TestedLooseCases();
    MatchTwo(Int(0), Int(1), Bool(true), Bool(false), false, Abort);
    MatchOne(Int(1), Bool(true), false, Abort);
    MatchTwo(Int(0), Int(1), Bool(true), Bool(false), true, Abort);
  }

  lemma ObjectsMatch()
    ensures var command, action1, action2 := Obj("Command", 1), Obj("Action", 2), Obj("Action", 3);
      && IndexedMatch([command, action1], [command, action2], false, Abort) == Eq
      && IndexedMatch([command, action1], [command, action2], true, Abort) == Err(MissingItem(action1))
  {
    var command, action1, action2 := Obj("Command", 1), Obj("Action", 2), Obj("Action", 3);
    MatchTwo(command, action1, command, action2, false, Abort);
    MatchTwo(command, action1, command, action2, true, Abort);
    MatchOne(action1, action2, false, Abort);
    MatchOne(action1, action2, true, Abort);
  }

  lemma ClosuresMatch()
    ensures var c1, c2, c3 := Obj("Closure", 1), Obj("Closure", 2), Obj("Closure", 3);
      && IndexedMatch([c1, c2], [c2, c3], false, Abort) == Eq
      && IndexedMatch([c1, c2], [Int(1), c2], false, Abort) == Err(MissingItem(c2))
  {
    var c1, c2, c3 := Obj("Closure", 1), Obj("Closure", 2), Obj("Closure", 3);
    MatchTwo(c1, c2, c2, c3, false, Abort);
    MatchOne(c2, c3, false, Abort);
    MatchTwo(c1, c2, Int(1), c2, false, Abort);
    MatchOne(c2, Int(1), false, Abort);
  }

  lemma ClosuresInCollectionMatch()
    ensures var c1, c2 := Obj("Closure", 1), Obj("Closure", 2);
      IndexedMatch([Int(1), Str("abc"), c1], [c2, Int(1), Str("abc")], false, Abort) == Eq
  {
    var c1, c2 := Obj("Closure", 1), Obj("Closure", 2);
    var as_ := [c2, Int(1), Str("abc")];
    assert [Int(1), Str("abc"), c1] == [Int(1)] + [Str("abc"), c1];
    ClosuresFirstPick();
    assert RemoveAt(as_, 1) == [c2, Str("abc")] by {
      assert as_[..1] == [c2] && as_[2..] == [Str("abc")];
    }
    MatchFirst(Int(1), [Str("abc"), c1], as_, false, Abort);
    ClosuresRest();
  }

  lemma ClosuresFirstPick()
    ensures Search(Int(1), [Obj("Closure", 2), Int(1), Str("abc")], 0, false, Abort) == At(1)
  {
    var as_ := [Obj("Closure", 2), Int(1), Str("abc")];
    SearchStep(Int(1), as_, 0, false, Abort);
    SearchStep(Int(1), as_, 1, false, Abort);
    LooseReflexive(Int(1));
  }

  lemma ClosuresRest()
    ensures IndexedMatch([Str("abc"), Obj("Closure", 1)], [Obj("Closure", 2), Str("abc")], false, Abort) == Eq
  {
    LooseReflexive(Str("abc"));
    ScalarItemRules(Str("abc"), Obj("Closure", 2), false, Abort);
    ScalarItemRules(Str("abc"), Str("abc"), false, Abort);
    OtherItemRules(Obj("Closure", 1), Obj("Closure", 2), false, Abort);
    MatchTwo(Str("abc"), Obj("Closure", 1), Obj("Closure", 2), Str("abc"), false, Abort);
    MatchOne(Obj("Closure", 1), Obj("Closure", 2), false, Abort);
  }

  /** ['ab', 'cd'] equals itself. */
  lemma AbCdEqualsItself(strict: bool)
    ensures ItemsEqual(List([Str("ab"), Str("cd")]), List([Str("ab"), Str("cd")]), strict, Abort) == Eq
  {
    ListLiterals([Str("ab"), Str("cd")], [Str("ab"), Str("cd")], strict, Abort);
    AbCdMatch(strict);
  }

  lemma AbCdMatch(strict: bool)
    ensures IndexedMatch([Str("ab"), Str("cd")], [Str("ab"), Str("cd")], strict, Abort) == Eq
  {
    LooseReflexive(Str("ab"));
    LooseReflexive(Str("cd"));
    MatchTwo(Str("ab"), Str("cd"), Str("ab"), Str("cd"), strict, Abort);
    MatchOne(Str("cd"), Str("cd"), strict, Abort);
  }

  lemma CollectionsMatch(strict: bool)
    ensures var ab := List([Str("ab"), Str("cd")]);
      IndexedMatch([Int(1), Bool(false), ab], [ab, Int(1), Bool(false)], strict, Abort) == Eq
  {
    var ab := List([Str("ab"), Str("cd")]);
    var as_ := [ab, Int(1), Bool(false)];
    assert [Int(1), Bool(false), ab] == [Int(1)] + [Bool(false), ab];
    CollectionsFirstPick(strict);
    assert RemoveAt(as_, 1) == [ab, Bool(false)] by {
      assert as_[..1] == [ab] && as_[2..] == [Bool(false)];
    }
    MatchFirst(Int(1), [Bool(false), ab], as_, strict, Abort);
    CollectionsRest(strict);
  }

  lemma CollectionsFirstPick(strict: bool)
    ensures Search(Int(1), [List([Str("ab"), Str("cd")]), Int(1), Bool(false)], 0, strict, Abort) == At(1)
  {
    var as_ := [List([Str("ab"), Str("cd")]), Int(1), Bool(false)];
    SearchStep(Int(1), as_, 0, strict, Abort);
    SearchStep(Int(1), as_, 1, strict, Abort);
    LooseReflexive(Int(1));
  }

  lemma CollectionsRest(strict: bool)
    ensures var ab := List([Str("ab"), Str("cd")]);
      IndexedMatch([Bool(false), ab], [ab, Bool(false)], strict, Abort) == Eq
  {
    var ab := List([Str("ab"), Str("cd")]);
    LooseReflexive(Bool(false));
    ScalarItemRules(Bool(false), ab, strict, Abort);
    ScalarItemRules(Bool(false), Bool(false), strict, Abort);
    AbCdEqualsItself(strict);
    MatchTwo(Bool(false), ab, ab, Bool(false), strict, Abort);
    MatchOne(ab, ab, strict, Abort);
  }

  lemma NestedListsOutOfOrderAborts(strict: bool)
    ensures var one, two := List([Int(1)]), List([Int(2)]);
      IndexedMatch([one, two], [two, one], strict, Abort) == Err(MissingItem(Int(1)))
  {
    var one, two := List([Int(1)]), List([Int(2)]);
    OneIsNotTwo(strict, Abort);
    MatchTwo(one, two, two, one, strict, Abort);
  }

  lemma NestedListsOutOfOrderSkips(strict: bool)
    ensures var one, two := List([Int(1)]), List([Int(2)]);
      IndexedMatch([one, two], [two, one], strict, TryNext) == Eq
  {
    var one, two := List([Int(1)]), List([Int(2)]);
    OneIsNotTwo(strict, TryNext);
    SingletonEqualsItself(1, strict, TryNext);
    SingletonEqualsItself(2, strict, TryNext);
    MatchTwo(one, two, two, one, strict, TryNext);
    MatchOne(two, two, strict, TryNext);
  }

  /** [1] compared with 5 throws "actual value must be a list", naming the integer's type. */
  lemma ListAgainstScalar(strict: bool, nested: NestedMismatch)
    ensures ItemsEqual(List([Int(1)]), Int(5), strict, nested) == Err(ActualNotList("integer"))
  {
    OtherItemRules(List([Int(1)]), Int(5), strict, nested);
    ListsEqualGuards(List([Int(1)]), Int(5), strict, nested);
  }

  lemma NestedListBeforeScalarAborts(strict: bool)
    ensures var one := List([Int(1)]);
      IndexedMatch([one, Int(5)], [Int(5), one], strict, Abort) == Err(ActualNotList("integer"))
  {
    var one := List([Int(1)]);
    ListAgainstScalar(strict, Abort);
    MatchTwo(one, Int(5), Int(5), one, strict, Abort);
  }

  lemma NestedListBeforeScalarSkips(strict: bool)
    ensures var one := List([Int(1)]);
      IndexedMatch([one, Int(5)], [Int(5), one], strict, TryNext) == Eq
  {
    var one := List([Int(1)]);
    ListAgainstScalar(strict, TryNext);
    SingletonEqualsItself(1, strict, TryNext);
    MatchTwo(one, Int(5), Int(5), one, strict, TryNext);
    MatchOne(Int(5), Int(5), strict, TryNext);
    LooseReflexive(Int(5));
  }

  lemma ActualOrderMatch()
    ensures IndexedMatch([Bool(true), Str("x")], [Int(1), Str("x")], false, Abort) == Eq
    ensures IndexedMatch([Bool(true), Str("x")], [Str("x"), Int(1)], false, Abort) == Err(MissingItem(Str("x")))
  {
    LooseNotTransitive();
    LooseReflexive(Str("x"));
    MatchTwo(Bool(true), Str("x"), Int(1), Str("x"), false, Abort);
    MatchOne(Str("x"), Str("x"), false, Abort);
    MatchTwo(Bool(true), Str("x"), Str("x"), Int(1), false, Abort);
    MatchOne(Str("x"), Int(1), false, Abort);
  }

  lemma StrictPairsIdentical()
    ensures IndexedMatch([Bool(true), Int(1), Str("x")], [Str("x"), Bool(true), Int(1)], true, Abort) == Eq
  {
    var as_ := [Str("x"), Bool(true), Int(1)];
    assert [Bool(true), Int(1), Str("x")] == [Bool(true)] + [Int(1), Str("x")];
    StrictFirstPick();
    assert RemoveAt(as_, 1) == [Str("x"), Int(1)] by {
      assert as_[..1] == [Str("x")] && as_[2..] == [Int(1)];
    }
    MatchFirst(Bool(true), [Int(1), Str("x")], as_, true, Abort);
    StrictPairsRest();
  }

  lemma StrictFirstPick()
    ensures Search(Bool(true), [Str("x"), Bool(true), Int(1)], 0, true, Abort) == At(1)
  {
    var as_ := [Str("x"), Bool(true), Int(1)];
    SearchStep(Bool(true), as_, 0, true, Abort);
    SearchStep(Bool(true), as_, 1, true, Abort);
  }

  lemma StrictPairsRest()
    ensures IndexedMatch([Int(1), Str("x")], [Str("x"), Int(1)], true, Abort) == Eq
  {
    MatchTwo(Int(1), Str("x"), Str("x"), Int(1), true, Abort);
    MatchOne(Str("x"), Str("x"), true, Abort);
  }

  lemma LoosePairsGreedily()
    ensures IndexedMatch([Bool(true), Int(1), Str("x")], [Str("x"), Bool(true), Int(1)], false, Abort)
      == Err(MissingItem(Str("x")))
  {
    var as_ := [Str("x"), Bool(true), Int(1)];
    assert [Bool(true), Int(1), Str("x")] == [Bool(true)] + [Int(1), Str("x")];
    LooseFirstPick();
    assert RemoveAt(as_, 0) == [Bool(true), Int(1)];
    MatchFirst(Bool(true), [Int(1), Str("x")], as_, false, Abort);
    LoosePairsRest();
  }

  lemma LooseFirstPick()
    ensures Search(Bool(true), [Str("x"), Bool(true), Int(1)], 0, false, Abort) == At(0)
  {
    LooseNotTransitive();
    SearchStep(Bool(true), [Str("x"), Bool(true), Int(1)], 0, false, Abort);
  }

  lemma LoosePairsRest()
    ensures IndexedMatch([Int(1), Str("x")], [Bool(true), Int(1)], false, Abort) == Err(MissingItem(Str("x")))
  {
    LooseNotTransitive();
    MatchTwo(Int(1), Str("x"), Bool(true), Int(1), false, Abort);
    MatchOne(Str("x"), Int(1), false, Abort);
  }
}
