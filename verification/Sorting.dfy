/** The stable sort both the server and the command line rely on, and why it is the only one. */
module Sorting {

  /** Rows are compared by `major` and then by `minor`. */
  datatype Key = Key(major: int, minor: int)

  predicate Below(a: Key, b: Key) {
    a.major < b.major || (a.major == b.major && a.minor <= b.minor)
  }

  function Insert<T>(x: T, s: seq<T>, key: T -> Key): seq<T> {
    if s == [] then [x]
    else if Below(key(x), key(s[0])) then [x] + s
    else [s[0]] + Insert(x, s[1..], key)
  }

  function StableSort<T>(s: seq<T>, key: T -> Key): seq<T> {
    if s == [] then [] else Insert(s[0], StableSort(s[1..], key), key)
  }

  ghost predicate Sorted<T>(s: seq<T>, key: T -> Key) {
    forall i, j :: 0 <= i < j < |s| ==> Below(key(s[i]), key(s[j]))
  }

  /** The elements with key `k`, in their order. */
  function Class<T>(s: seq<T>, key: T -> Key, k: Key): seq<T> {
    if s == [] then []
    else (if key(s[0]) == k then [s[0]] else []) + Class(s[1..], key, k)
  }

  /** `t` has the elements of `s`, sorted, and keeps the order of the elements that compare equal. */
  ghost predicate IsStableSortOf<T>(t: seq<T>, s: seq<T>, key: T -> Key) {
    Sorted(t, key) && forall k :: Class(t, key, k) == Class(s, key, k)
  }

  lemma {:induction false} InsertPermutes<T>(x: T, s: seq<T>, key: T -> Key)
    ensures multiset(Insert(x, s, key)) == multiset{x} + multiset(s)
  {
    if s != [] {
      assert s == [s[0]] + s[1..];
      if !Below(key(x), key(s[0])) {
        InsertPermutes(x, s[1..], key);
      }
    }
  }

  lemma InsertMember<T>(x: T, s: seq<T>, key: T -> Key, y: T)
    requires y in Insert(x, s, key)
    ensures y == x || y in s
  {
    InsertPermutes(x, s, key);
    assert y in multiset(Insert(x, s, key));
  }

  lemma {:induction false} InsertSorted<T>(x: T, s: seq<T>, key: T -> Key)
    requires Sorted(s, key)
    ensures Sorted(Insert(x, s, key), key)
  {
    if s != [] && !Below(key(x), key(s[0])) {
      InsertSorted(x, s[1..], key);
      var t := Insert(x, s[1..], key);
      forall j | 0 <= j < |t|
        ensures Below(key(s[0]), key(t[j]))
      {
        InsertMember(x, s[1..], key, t[j]);
      }
    }
  }

  lemma {:induction false} InsertClass<T>(x: T, s: seq<T>, key: T -> Key, k: Key)
    ensures Class(Insert(x, s, key), key, k) == Class([x], key, k) + Class(s, key, k)
  {
    if s == [] {
    } else if Below(key(x), key(s[0])) {
      assert ([x] + s)[1..] == s && [x][1..] == [];
    } else {
      InsertClass(x, s[1..], key, k);
      assert ([s[0]] + Insert(x, s[1..], key))[1..] == Insert(x, s[1..], key);
    }
  }

  lemma {:induction false} SortSorts<T>(s: seq<T>, key: T -> Key)
    ensures Sorted(StableSort(s, key), key) && multiset(StableSort(s, key)) == multiset(s)
  {
    if s != [] {
      SortSorts(s[1..], key);
      InsertSorted(s[0], StableSort(s[1..], key), key);
      InsertPermutes(s[0], StableSort(s[1..], key), key);
      assert s == [s[0]] + s[1..];
    }
  }

  lemma {:induction false} SortKeepsClass<T>(s: seq<T>, key: T -> Key, k: Key)
    ensures Class(StableSort(s, key), key, k) == Class(s, key, k)
  {
    if s != [] {
      SortKeepsClass(s[1..], key, k);
      InsertClass(s[0], StableSort(s[1..], key), key, k);
      assert [s[0]][1..] == [];
    }
  }

  /** The sort is a stable sort, and a permutation. */
  lemma SortIsStable<T>(s: seq<T>, key: T -> Key)
    ensures IsStableSortOf(StableSort(s, key), s, key)
    ensures multiset(StableSort(s, key)) == multiset(s)
    ensures |StableSort(s, key)| == |s|
  {
    SortSorts(s, key);
    PermutedLength(StableSort(s, key), s);
    forall k
      ensures Class(StableSort(s, key), key, k) == Class(s, key, k)
    {
      SortKeepsClass(s, key, k);
    }
  }

  lemma {:induction false} ClassMember<T>(s: seq<T>, key: T -> Key, k: Key, x: T)
    ensures x in Class(s, key, k) <==> x in s && key(x) == k
  {
    if s != [] {
      assert s == [s[0]] + s[1..];
      ClassMember(s[1..], key, k, x);
    }
  }

  lemma SameHead<T>(t: seq<T>, u: seq<T>, key: T -> Key)
    requires t != [] && Sorted(t, key) && Sorted(u, key)
    requires forall k :: Class(t, key, k) == Class(u, key, k)
    ensures u != [] && t[0] == u[0]
  {
    ClassMember(t, key, key(t[0]), t[0]);
    ClassMember(u, key, key(t[0]), t[0]);
    assert t[0] in u;
    ClassMember(u, key, key(u[0]), u[0]);
    ClassMember(t, key, key(u[0]), u[0]);
    assert u[0] in t;
    assert key(t[0]) == key(u[0]);
    assert Class(t, key, key(t[0]))[0] == t[0] && Class(u, key, key(u[0]))[0] == u[0];
  }

  lemma ClassTail<T>(s: seq<T>, key: T -> Key, k: Key)
    requires s != []
    ensures Class(s[1..], key, k) == if key(s[0]) == k then Class(s, key, k)[1..] else Class(s, key, k)
  {
  }

  /** Two sorted sequences that order equals alike are the same sequence. */
  lemma {:induction false} SortedUnique<T>(t: seq<T>, u: seq<T>, key: T -> Key)
    requires Sorted(t, key) && Sorted(u, key)
    requires forall k :: Class(t, key, k) == Class(u, key, k)
    ensures t == u
  {
    if t != [] {
      SameHead(t, u, key);
      forall k
        ensures Class(t[1..], key, k) == Class(u[1..], key, k)
      {
        ClassTail(t, key, k);
        ClassTail(u, key, k);
      }
      SortedUnique(t[1..], u[1..], key);
    } else if u != [] {
      SameHead(u, t, key);
    }
  }

  /** There is exactly one stable sort of a sequence. */
  lemma StableSortUnique<T>(s: seq<T>, t: seq<T>, key: T -> Key)
    ensures IsStableSortOf(t, s, key) <==> t == StableSort(s, key)
  {
    SortIsStable(s, key);
    if IsStableSortOf(t, s, key) {
      SortedUnique(t, StableSort(s, key), key);
    }
  }

  /** Sorting what is already in order moves nothing. */
  lemma SortedStays<T>(s: seq<T>, key: T -> Key)
    requires Sorted(s, key)
    ensures StableSort(s, key) == s
  {
    StableSortUnique(s, s, key);
  }

  ghost predicate DistinctKeys<T>(s: seq<T>, key: T -> Key) {
    forall i, j :: 0 <= i < j < |s| ==> key(s[i]) != key(s[j])
  }

  ghost predicate KeysIdentify<T>(s: seq<T>, key: T -> Key) {
    forall x, y :: x in s && y in s && key(x) == key(y) ==> x == y
  }

  lemma PermutedMember<T>(t: seq<T>, u: seq<T>, x: T)
    requires multiset(t) == multiset(u)
    ensures x in t <==> x in u
  {
    assert x in multiset(t) <==> x in multiset(u);
  }

  lemma PermutedHead<T>(t: seq<T>, u: seq<T>, key: T -> Key)
    requires t != [] && u != [] && Sorted(t, key) && Sorted(u, key)
    requires u[0] in t && t[0] in u && KeysIdentify(t, key)
    ensures t[0] == u[0]
  {
  }

  lemma PermutedTail<T>(t: seq<T>, u: seq<T>)
    requires t != [] && u != [] && multiset(t) == multiset(u) && t[0] == u[0]
    ensures multiset(t[1..]) == multiset(u[1..])
  {
    assert t == [t[0]] + t[1..] && u == [u[0]] + u[1..];
    assert multiset(t[1..]) == multiset(t) - multiset{t[0]};
    assert multiset(u[1..]) == multiset(u) - multiset{u[0]};
  }

  lemma PermutedLength<T>(t: seq<T>, u: seq<T>)
    requires multiset(t) == multiset(u)
    ensures |t| == |u|
  {
    assert |t| == |multiset(t)| == |multiset(u)| == |u|;
  }

  /** Two sorted permutations of each other are equal when only equal elements compare equal. */
  lemma {:induction false} SortedPermutation<T>(t: seq<T>, u: seq<T>, key: T -> Key)
    requires Sorted(t, key) && Sorted(u, key) && multiset(t) == multiset(u) && KeysIdentify(t, key)
    ensures t == u
  {
    PermutedLength(t, u);
    if t != [] {
      PermutedMember(t, u, t[0]);
      PermutedMember(t, u, u[0]);
      PermutedHead(t, u, key);
      PermutedTail(t, u);
      SortedPermutation(t[1..], u[1..], key);
      assert t == [t[0]] + t[1..] && u == [u[0]] + u[1..];
    }
  }

  /** With distinct keys the order of submission does not matter. */
  lemma OrderOfDistinct<T>(s: seq<T>, t: seq<T>, key: T -> Key)
    requires multiset(s) == multiset(t) && DistinctKeys(s, key)
    ensures StableSort(s, key) == StableSort(t, key)
  {
    SortIsStable(s, key);
    SortIsStable(t, key);
    var u := StableSort(s, key);
    forall x, y | x in u && y in u && key(x) == key(y)
      ensures x == y
    {
      assert x in multiset(u) && y in multiset(u);
      assert x in s && y in s;
    }
    SortedPermutation(u, StableSort(t, key), key);
  }
}
