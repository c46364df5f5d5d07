/** Stable sorting by a total preorder: the specification, its uniqueness, and the library sort; and
    the joining of lists. */
module Sorting {

  ghost predicate TotalPreorder<T(!new)>(le: (T, T) -> bool) {
    && (forall a, b :: le(a, b) || le(b, a))
    && (forall a, b, c :: le(a, b) && le(b, c) ==> le(a, c))
  }

  predicate Sorted<T>(s: seq<T>, le: (T, T) -> bool) {
    forall i, j :: 0 <= i < j < |s| ==> le(s[i], s[j])
  }

  predicate Tied<T>(a: T, b: T, le: (T, T) -> bool) {
    le(a, b) && le(b, a)
  }

  /** The elements tied with `x`, in order. */
  function Class<T>(s: seq<T>, x: T, le: (T, T) -> bool): seq<T> {
    if s == [] then []
    else (if Tied(s[0], x, le) then [s[0]] else []) + Class(s[1..], x, le)
  }

  /** `r` is sorted and holds what `s` holds, tied elements in their original order. */
  ghost predicate IsStableSort<T(!new)>(r: seq<T>, s: seq<T>, le: (T, T) -> bool) {
    Sorted(r, le) && forall x :: Class(r, x, le) == Class(s, x, le)
  }

  lemma Assoc<T>(a: seq<T>, b: seq<T>, c: seq<T>)
    ensures a + (b + c) == (a + b) + c
  {
  }

  lemma {:induction false} ClassConcat<T>(a: seq<T>, b: seq<T>, x: T, le: (T, T) -> bool)
    ensures Class(a + b, x, le) == Class(a, x, le) + Class(b, x, le)
  {
    if a == [] {
      assert a + b == b;
    } else {
      assert (a + b)[1..] == a[1..] + b;
      ClassConcat(a[1..], b, x, le);
      var head := if Tied(a[0], x, le) then [a[0]] else [];
      assert Class(a + b, x, le) == head + (Class(a[1..], x, le) + Class(b, x, le));
      Assoc(head, Class(a[1..], x, le), Class(b, x, le));
    }
  }

  lemma {:induction false} ClassMembers<T>(s: seq<T>, x: T, y: T, le: (T, T) -> bool)
    ensures y in Class(s, x, le) <==> y in s && Tied(y, x, le)
  {
    if s != [] {
      ClassMembers(s[1..], x, y, le);
      assert y in s <==> y == s[0] || y in s[1..];
    }
  }

  /** The head of a sorted sequence is at most every element. */
  lemma HeadIsLeast<T(!new)>(s: seq<T>, x: T, le: (T, T) -> bool)
    requires TotalPreorder(le) && Sorted(s, le) && x in s
    ensures le(s[0], x)
  {
    var i :| 0 <= i < |s| && s[i] == x;
  }

  lemma StableHead<T(!new)>(a: seq<T>, b: seq<T>, le: (T, T) -> bool)
    requires TotalPreorder(le) && Sorted(a, le) && Sorted(b, le) && a != []
    requires forall x :: Class(a, x, le) == Class(b, x, le)
    ensures b != [] && b[0] == a[0]
  {
    ClassMembers(a, a[0], a[0], le);
    ClassMembers(b, a[0], a[0], le);
    HeadIsLeast(b, a[0], le);
    ClassMembers(b, b[0], b[0], le);
    ClassMembers(a, b[0], b[0], le);
    HeadIsLeast(a, b[0], le);
    assert Class(a, a[0], le)[0] == a[0];
    assert Class(b, a[0], le)[0] == b[0];
  }

  /** A stable sort is unique. */
  lemma {:induction false} StableUnique<T(!new)>(a: seq<T>, b: seq<T>, le: (T, T) -> bool)
    requires TotalPreorder(le) && Sorted(a, le) && Sorted(b, le)
    requires forall x :: Class(a, x, le) == Class(b, x, le)
    ensures a == b
  {
    if a == [] {
      if b != [] { StableHead(b, a, le); }
    } else {
      StableHead(a, b, le);
      forall x ensures Class(a[1..], x, le) == Class(b[1..], x, le) {
        assert Class(a, x, le) == Class(b, x, le);
        if Tied(a[0], x, le) {
          assert Class(a[1..], x, le) == Class(a, x, le)[1..];
          assert Class(b[1..], x, le) == Class(b, x, le)[1..];
        } else {
          assert Class(a[1..], x, le) == Class(a, x, le);
          assert Class(b[1..], x, le) == Class(b, x, le);
        }
      }
      StableUnique(a[1..], b[1..], le);
      assert a == [a[0]] + a[1..] && b == [b[0]] + b[1..];
    }
  }

  // ---- The library sort, as stable insertion ------------------------------------------------------

  /** Inserts before the first element that is not smaller. */
  function Insert<T>(x: T, s: seq<T>, le: (T, T) -> bool): seq<T> {
    if s == [] || le(x, s[0]) then [x] + s else [s[0]] + Insert(x, s[1..], le)
  }

  function StableSort<T>(s: seq<T>, le: (T, T) -> bool): seq<T> {
    if s == [] then [] else Insert(s[0], StableSort(s[1..], le), le)
  }

  lemma {:induction false} InsertMembers<T>(x: T, s: seq<T>, y: T, le: (T, T) -> bool)
    ensures y in Insert(x, s, le) <==> y == x || y in s
  {
    if s != [] && !le(x, s[0]) {
      InsertMembers(x, s[1..], y, le);
      assert y in s <==> y == s[0] || y in s[1..];
    }
  }

  lemma SortedCons<T(!new)>(x: T, s: seq<T>, le: (T, T) -> bool)
    requires TotalPreorder(le) && Sorted(s, le) && forall y :: y in s ==> le(x, y)
    ensures Sorted([x] + s, le)
  {
    var r := [x] + s;
    forall i, j | 0 <= i < j < |r| ensures le(r[i], r[j]) {
      assert r[j] == s[j - 1];
      if i > 0 { assert r[i] == s[i - 1]; }
    }
  }

  lemma {:induction false} InsertSorted<T(!new)>(x: T, s: seq<T>, le: (T, T) -> bool)
    requires TotalPreorder(le) && Sorted(s, le)
    ensures Sorted(Insert(x, s, le), le)
  {
    if s == [] {
    } else if le(x, s[0]) {
      forall y | y in s ensures le(x, y) { HeadIsLeast(s, y, le); }
      SortedCons(x, s, le);
    } else {
      InsertSorted(x, s[1..], le);
      forall y | y in Insert(x, s[1..], le) ensures le(s[0], y) {
        InsertMembers(x, s[1..], y, le);
        if y in s[1..] { HeadIsLeast(s, y, le); }
      }
      SortedCons(s[0], Insert(x, s[1..], le), le);
    }
  }

  lemma {:induction false} InsertClass<T(!new)>(x: T, s: seq<T>, y: T, le: (T, T) -> bool)
    requires TotalPreorder(le)
    ensures Class(Insert(x, s, le), y, le) == (if Tied(x, y, le) then [x] else []) + Class(s, y, le)
  {
    if s == [] || le(x, s[0]) {
      assert ([x] + s)[1..] == s;
    } else {
      InsertClass(x, s[1..], y, le);
      var r, rest := Insert(x, s, le), Class(s[1..], y, le);
      assert r[0] == s[0] && r[1..] == Insert(x, s[1..], le);
      if Tied(x, y, le) {
        assert !Tied(s[0], y, le);
        assert Class(s, y, le) == rest;
        assert Class(r, y, le) == [x] + rest;
      } else {
        assert Class(r[1..], y, le) == rest;
        assert Class(r, y, le) == Class(s, y, le);
      }
    }
  }

  /** The library sort is a stable sort, hence the stable sort. */
  lemma {:induction false} SortIsStable<T(!new)>(s: seq<T>, le: (T, T) -> bool)
    requires TotalPreorder(le)
    ensures IsStableSort(StableSort(s, le), s, le)
  {
    if s != [] {
      SortIsStable(s[1..], le);
      InsertSorted(s[0], StableSort(s[1..], le), le);
      forall x ensures Class(StableSort(s, le), x, le) == Class(s, x, le) {
        InsertClass(s[0], StableSort(s[1..], le), x, le);
      }
    }
  }

  lemma StableSortUnique<T(!new)>(r: seq<T>, s: seq<T>, le: (T, T) -> bool)
    requires TotalPreorder(le) && IsStableSort(r, s, le)
    ensures r == StableSort(s, le)
  {
    SortIsStable(s, le);
    StableUnique(r, StableSort(s, le), le);
  }

  lemma {:induction false} InsertMultiset<T>(x: T, s: seq<T>, le: (T, T) -> bool)
    ensures multiset(Insert(x, s, le)) == multiset{x} + multiset(s)
    ensures |Insert(x, s, le)| == |s| + 1
  {
    if s != [] && !le(x, s[0]) {
      InsertMultiset(x, s[1..], le);
      assert s == [s[0]] + s[1..];
    }
  }

  /** Sorting permutes. */
  lemma {:induction false} SortPermutes<T>(s: seq<T>, le: (T, T) -> bool)
    ensures multiset(StableSort(s, le)) == multiset(s)
    ensures |StableSort(s, le)| == |s|
  {
    if s != [] {
      SortPermutes(s[1..], le);
      InsertMultiset(s[0], StableSort(s[1..], le), le);
      assert s == [s[0]] + s[1..];
    }
  }

  lemma SortMembers<T>(s: seq<T>, y: T, le: (T, T) -> bool)
    ensures y in StableSort(s, le) <==> y in s
  {
    SortPermutes(s, le);
    assert y in StableSort(s, le) <==> y in multiset(StableSort(s, le));
    assert y in s <==> y in multiset(s);
  }

  // ---- Joining lists -------------------------------------------------------------------------------

  function Join<V>(qs: seq<seq<V>>): seq<V> {
    if qs == [] then [] else qs[0] + Join(qs[1..])
  }

  lemma {:induction false} JoinConcat<V>(a: seq<seq<V>>, b: seq<seq<V>>)
    ensures Join(a + b) == Join(a) + Join(b)
  {
    if a == [] {
      assert a + b == b;
    } else {
      assert (a + b)[1..] == a[1..] + b;
      JoinConcat(a[1..], b);
      Assoc(a[0], Join(a[1..]), Join(b));
    }
  }

  lemma JoinSnoc<V>(a: seq<seq<V>>, x: seq<V>)
    ensures Join(a + [x]) == Join(a) + x
  {
    JoinConcat(a, [x]);
    assert Join([x]) == x;
  }
}
