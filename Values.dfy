/**
  The PHP values that the list comparison of ListsAreSameConstraint works on,
  classified once into the kinds its item rule dispatches on, and PHP's
  loose `==` restricted to booleans, integers and decimal-integer strings.
 */
module Values {
  import opened Wrappers

  /** An array key: PHP keys are integers ("indexed") or strings ("associative"). */
  datatype Key = IntKey(i: int) | StrKey(s: string)

  /**
    A PHP value. Every PHP array and every Collection arrives already
    converted to its ordered (key, item) pairs as a `Container`; other
    iterables are not modelled.
    A closure is an object of class `Closure`, so it is an `Obj`; a string
    callable is a `Str` and an array callable a `Container`, and they take
    the scalar and the list rule as in PHP. `Callable` stands for a callable
    that is neither scalar, object, resource nor list: PHP has no such
    value, and it exists only to reach the callable rule of `itemsAreEqual`.
    `ClosedResource` is a resource after fclose(), for which is_resource()
    is false.
   */
  datatype Value =
    | Null
    | Bool(b: bool)
    | Int(n: int)
    | Str(s: string)
    | Entity(id: int)              // an Eloquent model; `is` compares ids
    | Obj(cls: string, oid: nat)   // any other object: its class and spl_object_id
    | Resource
    | ClosedResource
    | Callable
    | Container(items: seq<(Key, Value)>)

  predicate IsScalar(v: Value) {
    v.Bool? || v.Int? || v.Str?
  }

  /**
    PHP's gettype() for the values that reach its one use in `listsEqual`,
    which are not lists: "object" names exactly the models and other
    objects. A `Container` is named "array", as gettype() names a PHP array
    (a Collection, which gettype() calls "object", never gets here). The
    callable that is no object gets the name gettype() gives a value of no
    known type.
   */
  function TypeName(v: Value): (r: string)
    ensures r == "array" <==> v.Container?
    ensures r == "object" <==> v.Entity? || v.Obj?
  {
    match v
    case Null => "NULL"
    case Bool(_) => "boolean"
    case Int(_) => "integer"
    case Str(_) => "string"
    case Entity(_) => "object"
    case Obj(_, _) => "object"
    case Resource => "resource"
    case ClosedResource => "resource (closed)"
    case Callable => "unknown type"
    case Container(_) => "array"
  }

  // ---------------------------------------------------------------------------
  // Loose equality (PHP 8 `==`) on scalars

  /** PHP's conversion of a scalar to bool. */
  function Truthy(v: Value): bool
    requires IsScalar(v)
  {
    match v
    case Bool(b) => b
    case Int(n) => n != 0
    case Str(s) => s != "" && s != "0"
  }

  predicate IsDigit(c: char) {
    '0' <= c <= '9'
  }

  predicate AllDigits(s: string) {
    forall i :: 0 <= i < |s| ==> IsDigit(s[i])
  }

  function DigitsValue(s: string): nat
    requires AllDigits(s)
  {
    if s == [] then 0
    else DigitsValue(s[..|s| - 1]) * 10 + (s[|s| - 1] as int - '0' as int)
  }

  /** The integer a numeric string stands for: an optional '-' and decimal digits. */
  function NumericValue(s: string): Option<int> {
    if |s| > 0 && AllDigits(s) then Some(DigitsValue(s))
    else if |s| > 1 && s[0] == '-' && AllDigits(s[1..]) then Some(-(DigitsValue(s[1..]) as int))
    else None
  }

  /**
    PHP 8 `x == y` on two scalars: a boolean on either side compares
    truthiness; an integer and a numeric string compare as numbers, an
    integer and a non-numeric string differ; two numeric strings compare
    as numbers, any other two strings byte by byte.
   */
  predicate LooseEquals(x: Value, y: Value): (r: bool)
    requires IsScalar(x) && IsScalar(y)
    ensures (x.Int? && y.Int?) || (x.Bool? && y.Bool?) ==> (r <==> x == y)
    ensures x.Str? && y.Str? && (NumericValue(x.s).None? || NumericValue(y.s).None?) ==> (r <==> x == y)
  {
    if x.Bool? then x.b == Truthy(y)
    else if y.Bool? then Truthy(x) == y.b
    else if x.Int? && y.Int? then x.n == y.n
    else if x.Int? then NumericValue(y.s) == Some(x.n)
    else if y.Int? then NumericValue(x.s) == Some(y.n)
    else if NumericValue(x.s).Some? && NumericValue(y.s).Some? then NumericValue(x.s) == NumericValue(y.s)
    else x.s == y.s
  }

  // ---------------------------------------------------------------------------
  // Size of a value, the measure that the recursive comparison decreases

  function Size(v: Value): nat
    decreases v, 1
  {
    match v
    case Container(_) => 1 + SizeFrom(v, 0)
    case _ => 1
  }

  function SizeFrom(v: Value, i: nat): nat
    requires v.Container? && i <= |v.items|
    decreases v, 0, |v.items| - i
  {
    if i == |v.items| then 0 else 1 + Size(v.items[i].1) + SizeFrom(v, i + 1)
  }

  function PairsSize(items: seq<(Key, Value)>): nat {
    if items == [] then 0 else 1 + Size(items[0].1) + PairsSize(items[1..])
  }

  function ValuesSize(vs: seq<Value>): nat {
    if vs == [] then 0 else 1 + Size(vs[0]) + ValuesSize(vs[1..])
  }

  // ---------------------------------------------------------------------------
  // Lists as (key, item) pairs

  /** The items under integer keys, in order (the first half of the source's partition). */
  function IndexedPart(items: seq<(Key, Value)>): (r: seq<Value>)
    ensures |r| <= |items|
  {
    if items == [] then []
    else if items[0].0.IntKey? then [items[0].1] + IndexedPart(items[1..])
    else IndexedPart(items[1..])
  }

  /** The pairs under string keys, in order (the second half of the partition). */
  function AssocPart(items: seq<(Key, Value)>): (r: seq<(Key, Value)>)
    ensures forall i :: 0 <= i < |r| ==> r[i].0.StrKey?
  {
    if items == [] then []
    else if items[0].0.StrKey? then [items[0]] + AssocPart(items[1..])
    else AssocPart(items[1..])
  }

  /** The item stored under `k`: Collection::has and Collection::get. */
  function Lookup(pairs: seq<(Key, Value)>, k: Key): (r: Option<Value>)
    ensures r.Some? <==> k in Keys(pairs)
  {
    if pairs == [] then None
    else if pairs[0].0 == k then Some(pairs[0].1)
    else Lookup(pairs[1..], k)
  }

  function Keys(pairs: seq<(Key, Value)>): set<Key> {
    set i | 0 <= i < |pairs| :: pairs[i].0
  }

  /** A PHP array never holds one key twice. */
  predicate DistinctKeys(pairs: seq<(Key, Value)>) {
    forall i, j :: 0 <= i < j < |pairs| ==> pairs[i].0 != pairs[j].0
  }

  lemma {:induction false} SizeFromPairs(items: seq<(Key, Value)>, i: nat)
    requires i <= |items|
    ensures SizeFrom(Container(items), i) == PairsSize(items[i..])
    decreases |items| - i
  {
    if i < |items| {
      SizeFromPairs(items, i + 1);
      assert items[i..][1..] == items[i + 1..];
    }
  }

  /** A list is larger than all of its items together. */
  lemma ContainerSize(items: seq<(Key, Value)>)
    ensures Size(Container(items)) == 1 + PairsSize(items)
  {
    SizeFromPairs(items, 0);
    assert items[0..] == items;
  }

  /** Splitting a list loses and duplicates nothing: the two parts add up to the whole. */
  lemma {:induction false} PartitionSizes(items: seq<(Key, Value)>)
    ensures |IndexedPart(items)| + |AssocPart(items)| == |items|
    ensures ValuesSize(IndexedPart(items)) + PairsSize(AssocPart(items)) == PairsSize(items)
  {
    if items != [] {
      PartitionSizes(items[1..]);
    }
  }

  lemma KeysCons(pairs: seq<(Key, Value)>)
    requires pairs != []
    ensures Keys(pairs) == {pairs[0].0} + Keys(pairs[1..])
  {
    forall k | k in Keys(pairs) ensures k in {pairs[0].0} + Keys(pairs[1..]) {
      var i :| 0 <= i < |pairs| && pairs[i].0 == k;
      if i > 0 {
        assert pairs[1..][i - 1].0 == k;
      }
    }
    forall k | k in Keys(pairs[1..]) ensures k in Keys(pairs) {
      var i :| 0 <= i < |pairs[1..]| && pairs[1..][i].0 == k;
      assert pairs[i + 1].0 == k;
    }
  }

  lemma FirstKeyNotRepeated(pairs: seq<(Key, Value)>)
    requires DistinctKeys(pairs) && pairs != []
    ensures pairs[0].0 !in Keys(pairs[1..])
  {
    forall i | 0 <= i < |pairs[1..]| ensures pairs[1..][i].0 != pairs[0].0 {
      assert pairs[1..][i] == pairs[i + 1];
    }
  }

  /** Without repeated keys there are as many keys as pairs. */
  lemma {:induction false} DistinctKeysCount(pairs: seq<(Key, Value)>)
    requires DistinctKeys(pairs)
    ensures |Keys(pairs)| == |pairs|
  {
    if pairs != [] {
      KeysCons(pairs);
      DistinctKeysCount(pairs[1..]);
      FirstKeyNotRepeated(pairs);
      assert DistinctKeys(pairs[1..]) by {
        forall i, j | 0 <= i < j < |pairs[1..]| ensures pairs[1..][i].0 != pairs[1..][j].0 {
          assert pairs[1..][i] == pairs[i + 1] && pairs[1..][j] == pairs[j + 1];
        }
      }
    }
  }

  /** Without repeated keys, looking a pair's key up finds that pair's item. */
  lemma {:induction false} LookupFindsPair(pairs: seq<(Key, Value)>, i: nat)
    requires DistinctKeys(pairs) && i < |pairs|
    ensures Lookup(pairs, pairs[i].0) == Some(pairs[i].1)
  {
    if i > 0 {
      LookupFindsPair(pairs[1..], i - 1);
    }
  }

  /** The string-keyed part keeps a subset of the keys, and no key twice. */
  lemma {:induction false} AssocPartKeys(items: seq<(Key, Value)>)
    ensures Keys(AssocPart(items)) <= Keys(items)
    ensures DistinctKeys(items) ==> DistinctKeys(AssocPart(items))
  {
    if items != [] {
      AssocPartKeys(items[1..]);
      KeysCons(items);
      var rest := AssocPart(items[1..]);
      if items[0].0.StrKey? {
        KeysCons(AssocPart(items));
        assert AssocPart(items)[1..] == rest;
        if DistinctKeys(items) {
          FirstKeyNotRepeated(items);
          assert items[0].0 !in Keys(rest);
          forall i | 0 < i < |AssocPart(items)| ensures AssocPart(items)[i].0 != items[0].0 {
            assert AssocPart(items)[i].0 in Keys(rest) by {
              assert AssocPart(items)[i] == rest[i - 1];
            }
          }
          assert DistinctKeys(items[1..]) by {
            forall i, j | 0 <= i < j < |items[1..]| ensures items[1..][i].0 != items[1..][j].0 {
              assert items[1..][i] == items[i + 1] && items[1..][j] == items[j + 1];
            }
          }
        }
      } else if DistinctKeys(items) {
        assert DistinctKeys(items[1..]) by {
          forall i, j | 0 <= i < j < |items[1..]| ensures items[1..][i].0 != items[1..][j].0 {
            assert items[1..][i] == items[i + 1] && items[1..][j] == items[j + 1];
          }
        }
      }
    }
  }

  /** Every item of either part is an item of the list. */
  lemma {:induction false} PartMembers(items: seq<(Key, Value)>)
    ensures forall x :: x in IndexedPart(items) ==> exists j :: 0 <= j < |items| && items[j].1 == x
    ensures forall p :: p in AssocPart(items) ==> exists j :: 0 <= j < |items| && items[j] == p
  {
    if items != [] {
      PartMembers(items[1..]);
      forall x | x in IndexedPart(items[1..]) ensures exists j :: 0 <= j < |items| && items[j].1 == x {
        var j :| 0 <= j < |items[1..]| && items[1..][j].1 == x;
        assert items[j + 1].1 == x;
      }
      forall p | p in AssocPart(items[1..]) ensures exists j :: 0 <= j < |items| && items[j] == p {
        var j :| 0 <= j < |items[1..]| && items[1..][j] == p;
        assert items[j + 1] == p;
      }
    }
  }

  /** The PHP list literal `[v0, v1, ...]`: the items under keys 0, 1, 2, ... */
  function List(vs: seq<Value>): (r: Value)
    ensures r.Container? && |r.items| == |vs|
  {
    Container(KeyedFrom(vs, 0))
  }

  function KeyedFrom(vs: seq<Value>, k: int): (r: seq<(Key, Value)>)
    ensures |r| == |vs|
  {
    if vs == [] then [] else [(IntKey(k), vs[0])] + KeyedFrom(vs[1..], k + 1)
  }

  /** A list literal has only integer keys, and its indexed part is its items. */
  lemma {:induction false} ListParts(vs: seq<Value>, k: int)
    ensures IndexedPart(KeyedFrom(vs, k)) == vs
    ensures AssocPart(KeyedFrom(vs, k)) == []
  {
    if vs != [] {
      ListParts(vs[1..], k + 1);
    }
  }
}
