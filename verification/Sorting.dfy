/** A stable sort by a total preorder, and the proof that it is the only one. */
module Sorting {

  ghost predicate TotalPreorder<T(!new)>(leq: (T, T) -> bool) {
    && (forall x, y :: leq(x, y) || leq(y, x))
    && (forall x, y, z :: leq(x, y) && leq(y, z) ==> leq(x, z))
  }

  function Insert<T>(x: T, s: seq<T>, leq: (T, T) -> bool): seq<T> {
    if s == [] then [x]
    else if leq(x, s[0]) then [x] + s
    else [s[0]] + Insert(x, s[1..], leq)
  }

  function Sort<T>(s: seq<T>, leq: (T, T) -> bool): seq<T> {
    if s == [] then [] else Insert(s[0], Sort(s[1..], leq), leq)
  }

  predicate Sorted<T>(s: seq<T>, leq: (T, T) -> bool) {
    forall i, j | 0 <= i < j < |s| :: leq(s[i], s[j])
  }

  /** The elements that compare equal to x, in order. */
  function Class<T>(s: seq<T>, x: T, leq: (T, T) -> bool): seq<T> {
    if s == [] then []
    else (if leq(x, s[0]) && leq(s[0], x) then [s[0]] else []) + Class(s[1..], x, leq)
  }

  // Sorted, with every class of equals in its original order.
  ghost predicate IsStableSort<T(!new)>(t: seq<T>, s: seq<T>, leq: (T, T) -> bool) {
    && Sorted(t, leq)
    && forall x :: Class(t, x, leq) == Class(s, x, leq)
  }

  lemma {:induction false} InsertPermutes<T>(x: T, s: seq<T>, leq: (T, T) -> bool)
    ensures multiset(Insert(x, s, leq)) == multiset(s) + multiset{x}
    ensures forall y | y in Insert(x, s, leq) :: y == x || y in s
  {
    if s != [] && !leq(x, s[0]) {
      InsertPermutes(x, s[1..], leq);
      assert s == [s[0]] + s[1..];
    }
  }

  lemma {:induction false} InsertSorted<T(!new)>(x: T, s: seq<T>, leq: (T, T) -> bool)
    requires TotalPreorder(leq) && Sorted(s, leq)
    ensures Sorted(Insert(x, s, leq), leq)
  {
    if s == [] {
    } else if leq(x, s[0]) {
      forall j | 0 <= j < |s| ensures leq(x, s[j]) {
        assert leq(s[0], s[j]);
      }
    } else {
      InsertSorted(x, s[1..], leq);
      InsertPermutes(x, s[1..], leq);
      forall y | y in Insert(x, s[1..], leq) ensures leq(s[0], y) {
        if y != x {
          var i :| 0 <= i < |s[1..]| && s[1..][i] == y;
          assert s[i + 1] == y;
        }
      }
    }
  }

  lemma {:induction false} InsertClass<T(!new)>(x: T, s: seq<T>, leq: (T, T) -> bool, k: T)
    requires TotalPreorder(leq)
    ensures Class(Insert(x, s, leq), k, leq) == Class([x] + s, k, leq)
  {
    assert ([x] + s)[1..] == s;
    if s != [] && !leq(x, s[0]) {
      InsertClass(x, s[1..], leq, k);
      assert ([x] + s[1..])[1..] == s[1..];
      assert Insert(x, s, leq)[1..] == Insert(x, s[1..], leq);
    }
  }

  /** `Sort` is a stable sort, and a permutation. */
  lemma {:induction false} SortIsStable<T(!new)>(s: seq<T>, leq: (T, T) -> bool)
    requires TotalPreorder(leq)
    ensures IsStableSort(Sort(s, leq), s, leq)
    ensures multiset(Sort(s, leq)) == multiset(s)
  {
    if s != [] {
      SortIsStable(s[1..], leq);
      var rest := Sort(s[1..], leq);
      InsertSorted(s[0], rest, leq);
      InsertPermutes(s[0], rest, leq);
      assert s == [s[0]] + s[1..];
      forall k ensures Class(Sort(s, leq), k, leq) == Class(s, k, leq) {
        InsertClass(s[0], rest, leq, k);
        assert ([s[0]] + rest)[1..] == rest;
      }
    }
  }

  lemma {:induction false} ClassMember<T>(s: seq<T>, x: T, leq: (T, T) -> bool)
    ensures Class(s, x, leq) != [] ==>
              Class(s, x, leq)[0] in s && leq(x, Class(s, x, leq)[0]) && leq(Class(s, x, leq)[0], x)
    ensures x in s && leq(x, x) ==> Class(s, x, leq) != []
  {
    if s != [] {
      ClassMember(s[1..], x, leq);
      assert s == [s[0]] + s[1..];
    }
  }

  lemma SameHead<T(!new)>(s: seq<T>, t: seq<T>, leq: (T, T) -> bool)
    requires TotalPreorder(leq) && Sorted(s, leq) && Sorted(t, leq)
    requires forall x :: Class(s, x, leq) == Class(t, x, leq)
    requires s != []
    ensures t != [] && s[0] == t[0]
  {
    ClassMember(s, s[0], leq);
    ClassMember(t, s[0], leq);
    assert Class(s, s[0], leq)[0] == s[0];
    ClassMember(t, t[0], leq);
    ClassMember(s, t[0], leq);
    assert leq(s[0], t[0]) && leq(t[0], s[0]);
  }

  /** Any two stable sorts of the same elements are the same sequence. */
  lemma {:induction false} StableSortUnique<T(!new)>(s: seq<T>, t: seq<T>, leq: (T, T) -> bool)
    requires TotalPreorder(leq) && Sorted(s, leq) && Sorted(t, leq)
    requires forall x :: Class(s, x, leq) == Class(t, x, leq)
    ensures s == t
  {
    if s == [] {
      if t != [] {
        ClassMember(t, t[0], leq);
      }
    } else {
      SameHead(s, t, leq);
      forall x ensures Class(s[1..], x, leq) == Class(t[1..], x, leq) {
        assert Class(s, x, leq) == Class(t, x, leq);
        if leq(x, s[0]) && leq(s[0], x) {
          assert Class(s, x, leq)[1..] == Class(s[1..], x, leq);
          assert Class(t, x, leq)[1..] == Class(t[1..], x, leq);
        } else {
          assert Class(s, x, leq) == Class(s[1..], x, leq);
          assert Class(t, x, leq) == Class(t[1..], x, leq);
        }
      }
      StableSortUnique(s[1..], t[1..], leq);
      assert s == [s[0]] + s[1..] && t == [t[0]] + t[1..];
    }
  }
}
