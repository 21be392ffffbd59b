/**
  The comparison rules of ListsAreSameConstraint as functions: `listsEqual`,
  `associativeCollectionsEqual`, `indexedCollectionsEqual` and
  `itemsAreEqual` call one another, and each returns equal, not equal, or
  the ListComparisonException it throws.
 */
module ListEquality {
  import opened Wrappers
  import opened Values

  /** The kinds of ListComparisonException, with what their messages name. */
  datatype Failure =
    | ExpectedNotList
    | ActualNotList(actualType: string)
    | CountMismatch(expectedCount: nat, actualCount: nat)
    | MissingKey(key: Key)
    | KeyValueMismatch(key: Key, expected: Value, actual: Value)
    | MissingItem(item: Value)
    | Uncomparable(expected: Value, actual: Value, strict: bool)

  /** `true`, `false`, or a thrown ListComparisonException. */
  datatype Outcome = Eq | NotEq | Err(failure: Failure)

  /** Collection::search with a comparing callback: a position, `false`, or the callback's exception. */
  datatype SearchResult = At(pos: nat) | Absent | Raised(failure: Failure)

  /**
    What the indexed search does when comparing a nested list with a
    candidate throws: `Abort` lets the exception escape, as the source does;
    `TryNext` counts the candidate as unequal and goes on (see the finding
    in README.md).
   */
  datatype NestedMismatch = Abort | TryNext

  function FromBool(b: bool): Outcome {
    if b then Eq else NotEq
  }

  /**
    `isCollectable`: only lists are compared as lists. A `Container` stands
    for a PHP array or a Collection, and `TypeName` calls every Container
    "array"; gettype() of a Collection is "object", but `TypeName` is only
    asked about values that are not lists.
   */
  predicate IsCollectable(v: Value): (r: bool)
    ensures r <==> TypeName(v) == "array"
    ensures r ==> !IsScalar(v)
  {
    v.Container?
  }

  /**
    `is_callable`, narrowed to closures and the `Callable` value: whether a
    string or an array names a function or method depends on what is
    defined when the program runs.
   */
  predicate IsCallable(v: Value) {
    v.Callable? || (v.Obj? && v.cls == "Closure")
  }

  /** `_objectsEqual`: same class, and in strict mode the same instance. */
  predicate ObjectsEqual(e: Value, a: Value, strict: bool): (r: bool)
    ensures r ==> TypeName(e) == "object" && TypeName(a) == "object"
    ensures !strict && e.Obj? && a.Obj? ==> (r <==> e.cls == a.cls)
    ensures strict && r ==> e == a
  {
    e.Obj? && a.Obj? && e.cls == a.cls && (!strict || e.oid == a.oid)
  }

  /** `_resourcesEqual`: both are open resources; contents are never compared. */
  predicate ResourcesEqual(e: Value, a: Value): (r: bool)
    ensures r <==> TypeName(e) == "resource" && TypeName(a) == "resource"
  {
    e.Resource? && a.Resource?
  }

  /** `_callablesEqual`: both are callable (in the narrowed sense of `IsCallable`); behaviour is never compared. */
  predicate CallablesEqual(e: Value, a: Value): (r: bool)
    ensures e.Obj? && e.cls == "Closure" && a.Obj? && a.cls == "Closure" ==> r
    ensures r ==> !IsScalar(a) && !a.Container?
  {
    IsCallable(e) && IsCallable(a)
  }

  /**
    `itemsAreEqual`: dispatch on the kind of the expected item, in the
    source's order. Only the list rule and the final fallback throw.
   */
  function ItemsEqual(e: Value, a: Value, strict: bool, nested: NestedMismatch): (r: Outcome)
    decreases Size(e), 2, 0
    ensures r.Err? ==> e.Container? || e.ClosedResource?
  {
    match e
    case Null => FromBool(a.Null?)
    case Bool(_) => FromBool(IsScalar(a) && (if strict then a == e else LooseEquals(e, a)))
    case Int(_) => FromBool(IsScalar(a) && (if strict then a == e else LooseEquals(e, a)))
    case Str(_) => FromBool(IsScalar(a) && (if strict then a == e else LooseEquals(e, a)))
    case Entity(id) => FromBool(a.Entity? && a.id == id)
    case Container(_) => ListsEqual(e, a, strict, nested)
    case Obj(_, _) => FromBool(ObjectsEqual(e, a, strict))
    case Resource => FromBool(ResourcesEqual(e, a))
    case Callable => FromBool(CallablesEqual(e, a))
    case ClosedResource => Err(Uncomparable(e, a, strict))
  }

  /**
    `listsEqual`: both sides must be lists of the same item count; the
    string-keyed items are compared first, then the integer-keyed ones.
    It never answers "not equal": it succeeds or fails with a reason.
   */
  function ListsEqual(e: Value, a: Value, strict: bool, nested: NestedMismatch): (r: Outcome)
    decreases Size(e), 1, 0
    ensures r != NotEq
  {
    if !IsCollectable(e) then Err(ExpectedNotList)
    else if !IsCollectable(a) then Err(ActualNotList(TypeName(a)))
    else if |e.items| != |a.items| then Err(CountMismatch(|e.items|, |a.items|))
    else
      ContainerSize(e.items);
      PartitionSizes(e.items);
      var assoc := AssocEqual(AssocPart(e.items), AssocPart(a.items), strict, nested);
      if assoc.Err? then assoc
      else IndexedMatch(IndexedPart(e.items), IndexedPart(a.items), strict, nested)
  }

  /**
    `associativeCollectionsEqual`: every expected key, in order, must be
    present in `act` with an equal item; the first that is not ends the
    comparison.
   */
  function AssocEqual(exp: seq<(Key, Value)>, act: seq<(Key, Value)>, strict: bool, nested: NestedMismatch): (r: Outcome)
    decreases PairsSize(exp), 0, 0
    ensures r != NotEq
  {
    if exp == [] then Eq
    else
      var k, v := exp[0].0, exp[0].1;
      match Lookup(act, k)
      case None => Err(MissingKey(k))
      case Some(w) =>
        match ItemsEqual(v, w, strict, nested)
        case Err(f) => Err(f)
        case NotEq => Err(KeyValueMismatch(k, v, w))
        case Eq => AssocEqual(exp[1..], act, strict, nested)
  }

  /** Removes the item at position `j`: Collection::splice($j, 1) on a list keyed 0, 1, 2, ... */
  function RemoveAt(s: seq<Value>, j: nat): (r: seq<Value>)
    requires j < |s|
    ensures |r| == |s| - 1
    ensures multiset(r) + multiset{s[j]} == multiset(s)
    ensures r[..j] == s[..j] && r[j..] == s[j + 1..]
  {
    assert s == s[..j] + [s[j]] + s[j + 1..];
    s[..j] + s[j + 1..]
  }

  /**
    `indexedCollectionsEqual`: each expected item, in order, takes the first
    equal item of the scratch list, which is then removed from it.
   */
  function IndexedMatch(exp: seq<Value>, scratch: seq<Value>, strict: bool, nested: NestedMismatch): (r: Outcome)
    decreases ValuesSize(exp), 0, 0
    ensures r != NotEq
    ensures r == Eq ==> |exp| <= |scratch|
  {
    if exp == [] then Eq
    else
      match Search(exp[0], scratch, 0, strict, nested)
      case At(j) => IndexedMatch(exp[1..], RemoveAt(scratch, j), strict, nested)
      case Absent => Err(MissingItem(exp[0]))
      case Raised(f) => Err(f)
  }

  /** Collection::search with the item comparison as callback, from position `from` on. */
  function Search(x: Value, scratch: seq<Value>, from: nat, strict: bool, nested: NestedMismatch): (r: SearchResult)
    requires from <= |scratch|
    decreases Size(x), 3, |scratch| - from
    ensures r.At? ==> from <= r.pos < |scratch| && ItemsEqual(x, scratch[r.pos], strict, nested) == Eq
    ensures r.Raised? ==> nested.Abort? || !x.Container?
  {
    if from == |scratch| then Absent
    else
      match ItemsEqual(x, scratch[from], strict, nested)
      case Eq => At(from)
      case NotEq => Search(x, scratch, from + 1, strict, nested)
      case Err(f) =>
        if nested.TryNext? && x.Container? then Search(x, scratch, from + 1, strict, nested)
        else Raised(f)
  }
}
