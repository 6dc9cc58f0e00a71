/** The Kotlin standard-library comparison and sorting the read path relies
    on: `compareValues`, `compareByDescending { … }.thenByDescending { … }`
    and the stable `sortedWith`. */
module Comparators {
  import opened ConversationModel

  /** Kotlin `compareValues` on two nullable longs: `null` is smaller than
      every value, two `null`s are equal, otherwise the numeric comparison. */
  function CompareValues(a: Option<int>, b: Option<int>): (r: int)
    ensures -1 <= r <= 1
    ensures r == 0 <==> a == b
    ensures r < 0 <==> (a.None? && b.Some?) || (a.Some? && b.Some? && a.value < b.value)
  {
    if a.None? && b.None? then 0
    else if a.None? then -1
    else if b.None? then 1
    else CompareLong(a.value, b.value)
  }

  /** `Long.compareTo`: the sign of `a - b`. */
  function CompareLong(a: int, b: int): (r: int)
    ensures r < 0 <==> a < b
    ensures r == 0 <==> a == b
    ensures r > 0 <==> a > b
  {
    if a < b then -1 else if a == b then 0 else 1
  }

  /** A composite sort key: a nullable primary key and a secondary key. */
  datatype SortKey = SortKey(primary: Option<int>, secondary: int)

  /** True when `a` is a strictly larger primary key than `b`, `null` being
      the smallest. */
  predicate PrimaryAbove(a: Option<int>, b: Option<int>)
  {
    a.Some? && (b.None? || a.value > b.value)
  }

  /** `compareByDescending { primary }.thenByDescending { secondary }`:
      negative exactly when `x` must be placed before `y`. */
  function CompareDescending(x: SortKey, y: SortKey): (r: int)
    ensures r == 0 <==> x == y
    ensures r < 0 <==> PrimaryAbove(x.primary, y.primary) ||
                       (x.primary == y.primary && x.secondary > y.secondary)
  {
    var c := CompareValues(y.primary, x.primary);
    if c != 0 then c else CompareLong(y.secondary, x.secondary)
  }

  /** Every element is placed no later than the comparator allows. */
  ghost predicate SortedBy<T>(s: seq<T>, key: T -> SortKey)
  {
    forall i, j :: 0 <= i < j < |s| ==> CompareDescending(key(s[i]), key(s[j])) <= 0
  }

  /** The elements of `s` whose key is `k`, in the order of `s`. */
  function WithKey<T>(s: seq<T>, key: T -> SortKey, k: SortKey): seq<T>
  {
    if s == [] then []
    else (if key(s[0]) == k then [s[0]] else []) + WithKey(s[1..], key, k)
  }

  /** Inserts `x` in front of the first element it does not come after. */
  function Insert<T>(x: T, t: seq<T>, key: T -> SortKey): seq<T>
  {
    if t == [] then [x]
    else if CompareDescending(key(t[0]), key(x)) < 0 then [t[0]] + Insert(x, t[1..], key)
    else [x] + t
  }

  /** Kotlin's `sortedWith`, a stable sort; written as an insertion sort,
      which orders equal keys by their input position. */
  function SortedWith<T>(s: seq<T>, key: T -> SortKey): seq<T>
  {
    if s == [] then [] else Insert(s[0], SortedWith(s[1..], key), key)
  }

  lemma {:induction false} InsertPermutes<T>(x: T, t: seq<T>, key: T -> SortKey)
    ensures multiset(Insert(x, t, key)) == multiset(t) + multiset{x}
  {
    if t != [] && CompareDescending(key(t[0]), key(x)) < 0 {
      InsertPermutes(x, t[1..], key);
      assert t == [t[0]] + t[1..];
    }
  }

  /** `a` may be placed before every element of `s`. */
  ghost predicate PrecedesAll<T>(a: T, s: seq<T>, key: T -> SortKey)
  {
    forall j :: 0 <= j < |s| ==> CompareDescending(key(a), key(s[j])) <= 0
  }

  lemma ConsSorted<T>(a: T, t: seq<T>, key: T -> SortKey)
    requires SortedBy(t, key) && PrecedesAll(a, t, key)
    ensures SortedBy([a] + t, key)
  {
    var r := [a] + t;
    forall i, j | 0 <= i < j < |r|
      ensures CompareDescending(key(r[i]), key(r[j])) <= 0
    {
      assert r[j] == t[j - 1];
      if i > 0 { assert r[i] == t[i - 1]; }
    }
  }

  lemma PrecedesAllPermutation<T>(a: T, s: seq<T>, u: seq<T>, key: T -> SortKey)
    requires multiset(s) == multiset(u) && PrecedesAll(a, u, key)
    ensures PrecedesAll(a, s, key)
  {
    forall j | 0 <= j < |s|
      ensures CompareDescending(key(a), key(s[j])) <= 0
    {
      assert s[j] in multiset(u);
      var m :| 0 <= m < |u| && u[m] == s[j];
    }
  }

  lemma {:induction false} InsertSorted<T>(x: T, t: seq<T>, key: T -> SortKey)
    requires SortedBy(t, key)
    ensures SortedBy(Insert(x, t, key), key)
  {
    if t == [] {
    } else if CompareDescending(key(t[0]), key(x)) < 0 {
      var rest := Insert(x, t[1..], key);
      InsertSorted(x, t[1..], key);
      InsertPermutes(x, t[1..], key);
      assert PrecedesAll(t[0], t[1..] + [x], key) by {
        forall j | 0 <= j < |t[1..] + [x]|
          ensures CompareDescending(key(t[0]), key((t[1..] + [x])[j])) <= 0
        {
          if j < |t| - 1 { assert (t[1..] + [x])[j] == t[j + 1]; }
        }
      }
      PrecedesAllPermutation(t[0], rest, t[1..] + [x], key);
      ConsSorted(t[0], rest, key);
    } else {
      assert PrecedesAll(x, t, key) by {
        forall j | 0 <= j < |t|
          ensures CompareDescending(key(x), key(t[j])) <= 0
        {
          assert CompareDescending(key(x), key(t[0])) <= 0;
          assert CompareDescending(key(t[0]), key(t[j])) <= 0 || j == 0;
        }
      }
      ConsSorted(x, t, key);
    }
  }

  lemma {:induction false} InsertWithKey<T>(x: T, t: seq<T>, key: T -> SortKey, k: SortKey)
    ensures WithKey(Insert(x, t, key), key, k) ==
            (if key(x) == k then [x] else []) + WithKey(t, key, k)
  {
    if t != [] && CompareDescending(key(t[0]), key(x)) < 0 {
      InsertWithKey(x, t[1..], key, k);
      var r := Insert(x, t, key);
      assert r[0] == t[0] && r[1..] == Insert(x, t[1..], key);
    } else if t != [] {
      var r := Insert(x, t, key);
      assert r[0] == x && r[1..] == t;
    }
  }

  /** `sortedWith` neither adds nor drops an element. */
  lemma {:induction false} SortedWithPermutes<T>(s: seq<T>, key: T -> SortKey)
    ensures multiset(SortedWith(s, key)) == multiset(s)
  {
    if s != [] {
      SortedWithPermutes(s[1..], key);
      InsertPermutes(s[0], SortedWith(s[1..], key), key);
      assert s == [s[0]] + s[1..];
    }
  }

  /** The result of `sortedWith` agrees with the comparator at every pair. */
  lemma {:induction false} SortedWithSorted<T>(s: seq<T>, key: T -> SortKey)
    ensures SortedBy(SortedWith(s, key), key)
  {
    if s != [] {
      SortedWithSorted(s[1..], key);
      InsertSorted(s[0], SortedWith(s[1..], key), key);
    }
  }

  /** Stability: the elements sharing one key keep their input order. */
  lemma {:induction false} SortedWithStable<T>(s: seq<T>, key: T -> SortKey, k: SortKey)
    ensures WithKey(SortedWith(s, key), key, k) == WithKey(s, key, k)
  {
    if s != [] {
      SortedWithStable(s[1..], key, k);
      InsertWithKey(s[0], SortedWith(s[1..], key), key, k);
    }
  }
}
