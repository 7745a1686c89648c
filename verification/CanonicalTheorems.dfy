/** What equality of canonical texts means. */
module CanonicalTheorems {
  import opened CanonicalJson
  import opened Json
  import opened Results
  import Sorting

  predicate PrintsNull(v: Json) {
    v == Null || (v.Number? && v.number.Infinite?)
  }

  /** Equal up to the order of object members at every depth; a number out of range counts as null. */
  ghost predicate Same(a: Json, b: Json)
    decreases a, 0
  {
    match a
    case Arr(items) =>
      && b.Arr? && |items| == |b.items|
      && forall i | 0 <= i < |items| :: Same(items[i], b.items[i])
    case Obj(ms) =>
      && b.Obj? && |ms| == |b.members|
      && forall i | 0 <= i < |ms| :: Carries(b.members, ms[i])
    case _ => a == b || (PrintsNull(a) && PrintsNull(b))
  }

  // Some member has the key of m and the same value.
  ghost predicate Carries(bs: seq<Member>, m: Member)
    decreases m.value, 1
  {
    exists j :: 0 <= j < |bs| && m.key == bs[j].key && Same(m.value, bs[j].value)
  }

  // Two keys that entries may list in either order, and that the collation calls equal.
  predicate Ties(x: string, y: string, leq: Collation) {
    x != y && !IsIndex(x) && !IsIndex(y) && leq(x, y) && leq(y, x)
  }

  /** No object has two different keys, neither an array index, that the collation calls equal. */
  predicate Separated(v: Json, leq: Collation) {
    match v
    case Arr(items) => forall i | 0 <= i < |items| :: Separated(items[i], leq)
    case Obj(ms) =>
      && (forall i, j | 0 <= i < |ms| && 0 <= j < |ms| :: !Ties(ms[i].key, ms[j].key, leq))
      && forall i | 0 <= i < |ms| :: Separated(ms[i].value, leq)
    case _ => true
  }

  function Keys(ms: seq<Member>): (r: seq<string>)
    ensures |r| == |ms| && forall i | 0 <= i < |ms| :: r[i] == ms[i].key
  {
    if ms == [] then [] else [ms[0].key] + Keys(ms[1..])
  }

  lemma {:induction false} SameReflexive(v: Json)
    ensures Same(v, v)
  {
    match v {
      case Arr(items) =>
        forall i | 0 <= i < |items| ensures Same(items[i], items[i]) { SameReflexive(items[i]); }
      case Obj(ms) =>
        forall i | 0 <= i < |ms| ensures Carries(ms, ms[i]) {
          SameReflexive(ms[i].value);
        }
      case _ =>
    }
  }

  // Where a member went.
  lemma SortedIndex(ms: seq<Member>, i: nat, leq: Collation) returns (k: nat)
    requires i < |ms|
    ensures k < |SortMembers(ms, leq)| && SortMembers(ms, leq)[k] == ms[i]
  {
    var sorted := SortMembers(ms, leq);
    assert ms[i] in ms;
    k :| 0 <= k < |sorted| && sorted[k] == ms[i];
  }

  lemma UnsortedIndex(ms: seq<Member>, k: nat, leq: Collation) returns (i: nat)
    requires k < |SortMembers(ms, leq)|
    ensures i < |ms| && ms[i] == SortMembers(ms, leq)[k]
  {
    var sorted := SortMembers(ms, leq);
    assert sorted[k] in sorted;
    i :| 0 <= i < |ms| && ms[i] == sorted[k];
  }

  // ---- equal texts have the same meaning --------------------------------------------------------

  // The member of b that carries member i of a.
  lemma Partner(a: seq<Member>, b: seq<Member>, i: nat, leq: Collation) returns (j: nat)
    requires i < |a| && Norm(Obj(a), leq) == Norm(Obj(b), leq)
    ensures j < |b| && a[i].key == b[j].key && Norm(a[i].value, leq) == Norm(b[j].value, leq)
  {
    var s, t := SortMembers(a, leq), SortMembers(b, leq);
    MembersBelow(Obj(a));
    MembersBelow(Obj(b));
    var x, y := NormMembers(s, Obj(a), leq), NormMembers(t, Obj(b), leq);
    assert x == y;
    var k := SortedIndex(a, i, leq);
    j := UnsortedIndex(b, k, leq);
    assert x[k] == y[k];
  }

  lemma {:induction false} NormEqualIsSame(a: Json, b: Json, leq: Collation)
    requires Norm(a, leq) == Norm(b, leq)
    ensures Same(a, b)
    decreases a
  {
    match a {
      case Arr(items) =>
        ItemsBelow(a);
        ItemsBelow(b);
        var x, y := NormItems(items, a, leq), NormItems(b.items, b, leq);
        assert x == y;
        forall i | 0 <= i < |items| ensures Same(items[i], b.items[i]) {
          assert x[i] == y[i];
          NormEqualIsSame(items[i], b.items[i], leq);
        }
      case Obj(ms) =>
        assert |ms| == |b.members| by { SameCount(ms, b.members, leq); }
        forall i | 0 <= i < |ms| ensures Carries(b.members, ms[i]) {
          var j := Partner(ms, b.members, i, leq);
          NormEqualIsSame(ms[i].value, b.members[j].value, leq);
        }
      case _ =>
    }
  }

  lemma SameCount(a: seq<Member>, b: seq<Member>, leq: Collation)
    requires Norm(Obj(a), leq) == Norm(Obj(b), leq)
    ensures |a| == |b|
  {
    MembersBelow(Obj(a));
    MembersBelow(Obj(b));
    var x, y := NormMembers(SortMembers(a, leq), Obj(a), leq), NormMembers(SortMembers(b, leq), Obj(b), leq);
    assert x == y;
  }

  /** Whatever the collation, documents with the same canonical text are the same document. */
  lemma EqualTextIsSame(a: Json, b: Json, leq: Collation)
    requires WellFormed(a) && WellFormed(b) && ToCanonicalJson(a, leq) == ToCanonicalJson(b, leq)
    ensures Same(a, b)
  {
    hide *;
    CanonicalDecides(a, b, leq);
    NormEqualIsSame(a, b, leq);
  }

  // ---- the order of members does not matter, if the collation separates them ----------------------

  lemma ByKeyPreorder(leq: Collation)
    requires Sorting.TotalPreorder(leq)
    ensures Sorting.TotalPreorder(ByKey(leq))
  {
    assert forall m, n :: ByKey(leq)(m, n) == leq(m.key, n.key);
    forall m, n ensures ByKey(leq)(m, n) || ByKey(leq)(n, m) {
      assert leq(m.key, n.key) || leq(n.key, m.key);
    }
    forall m, n, o | ByKey(leq)(m, n) && ByKey(leq)(n, o) ensures ByKey(leq)(m, o) {
      assert leq(m.key, n.key) && leq(n.key, o.key);
    }
  }

  lemma SortedKeys(ms: seq<Member>, leq: Collation)
    requires Sorting.TotalPreorder(leq)
    ensures Sorting.Sorted(Keys(SortMembers(ms, leq)), leq)
  {
    ByKeyPreorder(leq);
    Sorting.SortIsStable(ms, ByKey(leq));
  }

  // A relation that orders different elements one way at most.
  ghost predicate Decides(before: Collation, s: seq<string>) {
    forall x, y | x in s && y in s && before(x, y) && before(y, x) :: x == y
  }

  predicate Distinct(s: seq<string>) {
    forall i, j | 0 <= i < j < |s| :: s[i] != s[j]
  }

  // A sequence without repetition, in such an order, is determined by its elements.
  lemma {:induction false} SortedUnique(s: seq<string>, t: seq<string>, before: Collation)
    requires Sorting.Sorted(s, before) && Sorting.Sorted(t, before)
    requires Distinct(s) && Distinct(t) && (forall x :: x in s <==> x in t) && Decides(before, s)
    ensures s == t
  {
    EmptyTogether(s, t);
    if s != [] {
      SortedHead(s, t, before);
      forall x ensures x in s[1..] <==> x in t[1..] {
        InTail(s, x);
        InTail(t, x);
      }
      SortedUnique(s[1..], t[1..], before);
      assert s == [s[0]] + s[1..] && t == [t[0]] + t[1..];
    }
  }

  lemma EmptyTogether(s: seq<string>, t: seq<string>)
    requires forall x :: x in s <==> x in t
    ensures s == [] <==> t == []
  {
    if s != [] { assert s[0] in s; }
    if t != [] { assert t[0] in t; }
  }

  lemma InTail(s: seq<string>, x: string)
    requires s != [] && Distinct(s)
    ensures x in s[1..] <==> x in s && x != s[0]
  {
    if x in s && x != s[0] {
      var i :| 0 <= i < |s| && s[i] == x;
      assert s[1..][i - 1] == x;
    }
  }

  lemma SortedHead(s: seq<string>, t: seq<string>, before: Collation)
    requires Sorting.Sorted(s, before) && Sorting.Sorted(t, before)
    requires s != [] && t != [] && (forall x :: x in s <==> x in t) && Decides(before, s)
    ensures s[0] == t[0]
  {
    assert t[0] in s && s[0] in t;
    var i :| 0 <= i < |s| && s[i] == t[0];
    var j :| 0 <= j < |t| && t[j] == s[0];
    assert i == 0 || before(s[0], t[0]);
    assert j == 0 || before(t[0], s[0]);
  }

  // The class of a key is a part of the sequence, in its order.
  lemma {:induction false} ClassElements(s: seq<string>, k: string, leq: Collation)
    ensures forall x :: x in Sorting.Class(s, k, leq) <==> x in s && leq(k, x) && leq(x, k)
  {
    if s != [] {
      ClassElements(s[1..], k, leq);
      assert s == [s[0]] + s[1..];
    }
  }

  lemma {:induction false} ClassSorted(s: seq<string>, k: string, leq: Collation, before: Collation)
    requires Sorting.Sorted(s, before)
    ensures Sorting.Sorted(Sorting.Class(s, k, leq), before)
  {
    if s != [] {
      ClassSorted(s[1..], k, leq, before);
      ClassElements(s[1..], k, leq);
      HeadFirst(s, before);
      var rest := Sorting.Class(s[1..], k, leq);
      assert forall i | 0 <= i < |rest| :: rest[i] in rest;
    }
  }

  lemma {:induction false} ClassDistinct(s: seq<string>, k: string, leq: Collation)
    requires Distinct(s)
    ensures Distinct(Sorting.Class(s, k, leq))
  {
    if s != [] {
      ClassDistinct(s[1..], k, leq);
      ClassElements(s[1..], k, leq);
      InTail(s, s[0]);
      var rest := Sorting.Class(s[1..], k, leq);
      assert forall i | 0 <= i < |rest| :: rest[i] in rest;
    }
  }

  lemma HeadFirst(s: seq<string>, before: Collation)
    requires s != [] && Sorting.Sorted(s, before)
    ensures forall x | x in s[1..] :: before(s[0], x)
  {
    forall x | x in s[1..] ensures before(s[0], x) {
      var i :| 0 <= i < |s[1..]| && s[1..][i] == x;
      assert s[i + 1] == x;
    }
  }

  // Entries list the keys that the collation calls equal to k in one order only.
  lemma ClassesAgree(a: seq<Member>, b: seq<Member>, k: string, leq: Collation)
    requires Sorting.TotalPreorder(leq) && DistinctKeys(a) && DistinctKeys(b) && EntriesOrder(a) && EntriesOrder(b)
    requires forall x :: x in Keys(a) <==> x in Keys(b)
    requires forall x, y | x in Keys(a) && y in Keys(a) :: !Ties(x, y, leq)
    ensures Sorting.Class(Keys(a), k, leq) == Sorting.Class(Keys(b), k, leq)
  {
    hide Sorting.Class, Keys, IsIndex;
    var before := (x: string, y: string) => Precedes(x, y);
    ClassElements(Keys(a), k, leq);
    ClassElements(Keys(b), k, leq);
    ClassSorted(Keys(a), k, leq, before);
    ClassSorted(Keys(b), k, leq, before);
    ClassDistinct(Keys(a), k, leq);
    ClassDistinct(Keys(b), k, leq);
    var s := Sorting.Class(Keys(a), k, leq);
    forall x, y | x in s && y in s && before(x, y) && before(y, x) ensures x == y {
      assert leq(x, k) && leq(k, y) && leq(y, k) && leq(k, x);
      assert !Ties(x, y, leq);
    }
    SortedUnique(s, Sorting.Class(Keys(b), k, leq), before);
  }

  // Both documents list the same keys in the same order once sorted.
  lemma SortedKeysAgree(a: seq<Member>, b: seq<Member>, leq: Collation)
    requires Sorting.TotalPreorder(leq) && DistinctKeys(a) && DistinctKeys(b) && EntriesOrder(a) && EntriesOrder(b)
    requires forall x :: x in Keys(a) <==> x in Keys(b)
    requires forall x, y | x in Keys(a) && y in Keys(a) :: !Ties(x, y, leq)
    ensures Keys(SortMembers(a, leq)) == Keys(SortMembers(b, leq))
  {
    hide Sorting.Class, Keys, Ties, Precedes, Sorting.TotalPreorder;
    SortedKeys(a, leq);
    SortedKeys(b, leq);
    var s, t := Keys(SortMembers(a, leq)), Keys(SortMembers(b, leq));
    forall k ensures Sorting.Class(s, k, leq) == Sorting.Class(t, k, leq) {
      SortKeepsKeyClass(a, Member(k, Null), leq);
      SortKeepsKeyClass(b, Member(k, Null), leq);
      ClassesAgree(a, b, k, leq);
    }
    Sorting.StableSortUnique(s, t, leq);
  }

  // Distinct keys, as many on both sides, and every key of a is one of b: then the keys are the same.
  lemma {:induction false} KeySets(a: seq<string>, b: seq<string>)
    requires |a| == |b| && (forall x | x in a :: x in b) && Distinct(a)
    ensures forall x | x in b :: x in a
  {
    if a != [] {
      assert a[0] in b;
      var k :| 0 <= k < |b| && b[k] == a[0];
      var rest := b[..k] + b[k + 1..];
      forall x | x in a[1..] ensures x in rest {
        InTail(a, x);
        assert x in b;
        var m :| 0 <= m < |b| && b[m] == x;
        assert x == if m < k then rest[m] else rest[m - 1];
      }
      KeySets(a[1..], rest);
      forall x | x in b ensures x in a {
        var m :| 0 <= m < |b| && b[m] == x;
        if m != k {
          assert x == if m < k then rest[m] else rest[m - 1];
          assert x in a[1..];
        }
      }
    }
  }

  lemma SameLength(a: seq<Member>, b: seq<Member>)
    requires Same(Obj(a), Obj(b))
    ensures |a| == |b|
  {}

  lemma SameUnfold(a: seq<Member>, b: seq<Member>, i: nat)
    requires i < |a| && Same(Obj(a), Obj(b))
    ensures |a| == |b| && Carries(b, a[i])
  {
    hide Carries;
  }

  lemma SameMember(a: seq<Member>, b: seq<Member>, i: nat) returns (j: nat)
    requires i < |a| && Same(Obj(a), Obj(b))
    ensures |a| == |b| && j < |b| && a[i].key == b[j].key && Same(a[i].value, b[j].value)
  {
    hide Same;
    assert |a| == |b| && Carries(b, a[i]) by { SameUnfold(a, b, i); }
    j :| 0 <= j < |b| && a[i].key == b[j].key && Same(a[i].value, b[j].value);
  }

  lemma SameKeys(a: seq<Member>, b: seq<Member>)
    requires DistinctKeys(a) && Same(Obj(a), Obj(b))
    ensures |a| == |b| && forall x :: x in Keys(a) <==> x in Keys(b)
  {
    hide Same, Keys;
    SameLength(a, b);
    forall x | x in Keys(a) ensures x in Keys(b) {
      var i :| 0 <= i < |Keys(a)| && Keys(a)[i] == x;
      var j := SameMember(a, b, i);
      assert Keys(b)[j] == x;
    }
    KeySets(Keys(a), Keys(b));
  }

  lemma SeparatedKeys(ms: seq<Member>, leq: Collation)
    requires Separated(Obj(ms), leq)
    ensures forall x, y | x in Keys(ms) && y in Keys(ms) :: !Ties(x, y, leq)
  {
    forall x, y | x in Keys(ms) && y in Keys(ms) ensures !Ties(x, y, leq) {
      var i :| 0 <= i < |ms| && Keys(ms)[i] == x;
      var j :| 0 <= j < |ms| && Keys(ms)[j] == y;
    }
  }

  // What holds of a container holds of its parts.
  lemma ItemFacts(items: seq<Json>, i: nat, leq: Collation)
    requires i < |items|
    ensures WellFormed(Arr(items)) ==> WellFormed(items[i])
    ensures Separated(Arr(items), leq) ==> Separated(items[i], leq)
  {}

  lemma MemberFacts(ms: seq<Member>, i: nat, leq: Collation)
    requires i < |ms|
    ensures WellFormed(Obj(ms)) ==> DistinctKeys(ms) && EntriesOrder(ms) && WellFormed(ms[i].value)
    ensures Separated(Obj(ms), leq) ==> Separated(ms[i].value, leq)
  {
    hide IsIndex;
  }

  lemma SameShape(a: Json, b: Json)
    requires Same(a, b)
    ensures a.Arr? ==>
              b.Arr? && |a.items| == |b.items| && forall i | 0 <= i < |a.items| :: Same(a.items[i], b.items[i])
    ensures a.Obj? ==> b.Obj? && |a.members| == |b.members|
    ensures !a.Arr? && !a.Obj? ==> a == b || (PrintsNull(a) && PrintsNull(b))
  {
    hide Carries;
  }

  lemma {:induction false} SameNorms(a: Json, b: Json, leq: Collation)
    requires WellFormed(a) && WellFormed(b) && Same(a, b)
    requires Sorting.TotalPreorder(leq) && Separated(a, leq)
    ensures Norm(a, leq) == Norm(b, leq)
    decreases a
  {
    hide WellFormed, Same, Separated, Sorting.TotalPreorder;
    SameShape(a, b);
    match a {
      case Arr(items) =>
        ItemsBelow(a);
        ItemsBelow(b);
        forall i | 0 <= i < |items| ensures Norm(items[i], leq) == Norm(b.items[i], leq) {
          ItemFacts(items, i, leq);
          ItemFacts(b.items, i, leq);
          SameNorms(items[i], b.items[i], leq);
        }
        assert NormItems(items, a, leq) == NormItems(b.items, b, leq);
      case Obj(ms) =>
        hide Norm;
        forall m, n | m in ms && n in b.members && Same(m.value, n.value)
          ensures Norm(m.value, leq) == Norm(n.value, leq)
        {
          var i :| 0 <= i < |ms| && ms[i] == m;
          var j :| 0 <= j < |b.members| && b.members[j] == n;
          MemberFacts(ms, i, leq);
          MemberFacts(b.members, j, leq);
          SameNorms(ms[i].value, b.members[j].value, leq);
        }
        ObjectFacts(ms);
        ObjectFacts(b.members);
        SameMemberNorms(ms, b.members, leq);
      case _ =>
    }
  }

  lemma ObjectFacts(ms: seq<Member>)
    requires WellFormed(Obj(ms))
    ensures DistinctKeys(ms) && EntriesOrder(ms)
  {}

  lemma SameMemberNorms(a: seq<Member>, b: seq<Member>, leq: Collation)
    requires DistinctKeys(a) && DistinctKeys(b) && EntriesOrder(a) && EntriesOrder(b) && Same(Obj(a), Obj(b))
    requires Sorting.TotalPreorder(leq) && Separated(Obj(a), leq)
    requires forall m, n | m in a && n in b && Same(m.value, n.value) :: Norm(m.value, leq) == Norm(n.value, leq)
    ensures Norm(Obj(a), leq) == Norm(Obj(b), leq)
  {
    hide Same, Carries, Separated, Keys;
    SameKeys(a, b);
    SeparatedKeys(a, leq);
    SortedKeysAgree(a, b, leq);
    var s, t := SortMembers(a, leq), SortMembers(b, leq);
    forall k | 0 <= k < |s| ensures s[k].key == t[k].key && Norm(s[k].value, leq) == Norm(t[k].value, leq) {
      assert s[k].key == Keys(s)[k] == Keys(t)[k] == t[k].key;
      var i := UnsortedIndex(a, k, leq);
      var p := UnsortedIndex(b, k, leq);
      var j := SameMember(a, b, i);
      assert j == p && a[i] in a && b[j] in b;
    }
    MembersBelow(Obj(a));
    MembersBelow(Obj(b));
    assert NormMembers(s, Obj(a), leq) == NormMembers(t, Obj(b), leq);
  }

  // ---- and only if it does -------------------------------------------------------------------------

  // How many array indexes the entries begin with.
  function IndexCount(ms: seq<Member>): (n: nat)
    ensures n <= |ms| && (forall i | 0 <= i < n :: IsIndex(ms[i].key))
    ensures n < |ms| ==> !IsIndex(ms[n].key)
  {
    if ms == [] || !IsIndex(ms[0].key) then 0 else 1 + IndexCount(ms[1..])
  }

  // The members with member j moved up, right after the array indexes.
  function ToFront(ms: seq<Member>, j: nat): seq<Member>
    requires j < |ms| && !IsIndex(ms[j].key)
  {
    var n := IndexCount(ms);
    ms[..n] + ([ms[j]] + (ms[n..j] + ms[j + 1..]))
  }

  // Where member k of the reordered list comes from.
  lemma FrontIndex(ms: seq<Member>, j: nat, k: nat) returns (i: nat)
    requires j < |ms| && !IsIndex(ms[j].key) && k < |ms|
    ensures i < |ms| && |ToFront(ms, j)| == |ms| && ToFront(ms, j)[k] == ms[i]
    ensures i == if k < IndexCount(ms) || k > j then k else if k == IndexCount(ms) then j else k - 1
  {
    var n := IndexCount(ms);
    i := if k < n || k > j then k else if k == n then j else k - 1;
  }

  lemma FreeAfterIndexes(ms: seq<Member>, i: nat)
    requires EntriesOrder(ms) && IndexCount(ms) <= i < |ms|
    ensures !IsIndex(ms[i].key)
  {
    hide IsIndex;
    if i > IndexCount(ms) {
      assert Precedes(ms[IndexCount(ms)].key, ms[i].key);
    }
  }

  lemma ToFrontWellFormed(ms: seq<Member>, j: nat)
    requires j < |ms| && !IsIndex(ms[j].key) && WellFormed(Obj(ms))
    ensures WellFormed(Obj(ToFront(ms, j)))
  {
    hide IsIndex;
    var front := ToFront(ms, j);
    forall i, k | 0 <= i < k < |front|
      ensures front[i].key != front[k].key && Precedes(front[i].key, front[k].key)
    {
      var p := FrontIndex(ms, j, i);
      var q := FrontIndex(ms, j, k);
      if q < p { FreeAfterIndexes(ms, q); }
    }
    forall k | 0 <= k < |front| ensures WellFormed(front[k].value) {
      var p := FrontIndex(ms, j, k);
    }
  }

  lemma ToFrontIsSame(ms: seq<Member>, j: nat)
    requires j < |ms| && !IsIndex(ms[j].key)
    ensures Same(Obj(ms), Obj(ToFront(ms, j)))
  {
    hide Carries, IsIndex;
    forall i | 0 <= i < |ms| ensures Carries(ToFront(ms, j), ms[i]) {
      var n := IndexCount(ms);
      var k := if i < n || i > j then i else if i == j then n else i + 1;
      var p := FrontIndex(ms, j, k);
      SameReflexive(ms[i].value);
      CarriesAt(ToFront(ms, j), ms[i], k);
    }
  }

  lemma CarriesAt(bs: seq<Member>, m: Member, k: nat)
    requires k < |bs| && m.key == bs[k].key && Same(m.value, bs[k].value)
    ensures Carries(bs, m)
  {
    hide Same;
  }

  lemma KeysAppend(a: seq<Member>, b: seq<Member>)
    ensures Keys(a + b) == Keys(a) + Keys(b)
  {
    hide Keys;
  }

  lemma {:induction false} KeysClass(ms: seq<Member>, m: Member, leq: Collation)
    ensures Keys(Sorting.Class(ms, m, ByKey(leq))) == Sorting.Class(Keys(ms), m.key, leq)
  {
    hide Keys;
    if ms != [] {
      var rest := ms[1..];
      KeysClass(rest, m, leq);
      assert Keys(ms)[1..] == Keys(rest) && Keys(ms)[0] == ms[0].key;
      KeysAppend([ms[0]], Sorting.Class(rest, m, ByKey(leq)));
      assert Keys([ms[0]]) == [ms[0].key];
    } else {
      assert Keys(ms) == [];
    }
  }

  lemma SortedKeysEqual(a: seq<Member>, b: seq<Member>, leq: Collation)
    requires Norm(Obj(a), leq) == Norm(Obj(b), leq)
    ensures Keys(SortMembers(a, leq)) == Keys(SortMembers(b, leq))
  {
    hide Keys;
    var s, t := SortMembers(a, leq), SortMembers(b, leq);
    MembersBelow(Obj(a));
    MembersBelow(Obj(b));
    var x, y := NormMembers(s, Obj(a), leq), NormMembers(t, Obj(b), leq);
    assert x == y;
    forall k | 0 <= k < |s| ensures s[k].key == t[k].key {
      assert x[k] == y[k];
    }
  }

  lemma SortKeepsKeyClass(a: seq<Member>, m: Member, leq: Collation)
    requires Sorting.TotalPreorder(leq)
    ensures Sorting.Class(Keys(SortMembers(a, leq)), m.key, leq) == Sorting.Class(Keys(a), m.key, leq)
  {
    hide Sorting.Class, Keys, Sorting.Sort;
    ByKeyPreorder(leq);
    Sorting.SortIsStable(a, ByKey(leq));
    KeysClass(a, m, leq);
    KeysClass(SortMembers(a, leq), m, leq);
  }

  // Documents with the same text list keys that tie in the same order.
  lemma TiesKeepOrder(a: seq<Member>, b: seq<Member>, m: Member, leq: Collation)
    requires Sorting.TotalPreorder(leq) && Norm(Obj(a), leq) == Norm(Obj(b), leq)
    ensures Sorting.Class(Keys(a), m.key, leq) == Sorting.Class(Keys(b), m.key, leq)
  {
    hide *;
    SortedKeysEqual(a, b, leq);
    SortKeepsKeyClass(a, m, leq);
    SortKeepsKeyClass(b, m, leq);
  }

  lemma ClassStep(s: seq<string>, k: string, leq: Collation)
    requires s != []
    ensures Sorting.Class(s, k, leq)
         == (if leq(k, s[0]) && leq(s[0], k) then [s[0]] else []) + Sorting.Class(s[1..], k, leq)
  {}

  lemma ClassOfNone(k: string, leq: Collation)
    ensures Sorting.Class([], k, leq) == []
  {}

  lemma {:induction false} ClassAppend(s: seq<string>, t: seq<string>, k: string, leq: Collation)
    ensures Sorting.Class(s + t, k, leq) == Sorting.Class(s, k, leq) + Sorting.Class(t, k, leq)
  {
    hide Sorting.Class;
    if s == [] {
      ClassOfNone(k, leq);
      assert s + t == t;
    } else {
      ClassAppend(s[1..], t, k, leq);
      ClassStep(s, k, leq);
      ClassStep(s + t, k, leq);
      assert (s + t)[1..] == s[1..] + t;
    }
  }

  // The class of a key in a reordered list: what the array indexes contribute, then the moved key.
  lemma FrontLeadsClass(ms: seq<Member>, j: nat, k: string, leq: Collation)
    requires j < |ms| && !IsIndex(ms[j].key) && leq(k, ms[j].key) && leq(ms[j].key, k)
    ensures var c := Sorting.Class(Keys(ms[..IndexCount(ms)]), k, leq);
      var class_ := Sorting.Class(Keys(ToFront(ms, j)), k, leq);
      |c| < |class_| && class_[|c|] == ms[j].key
  {
    hide IsIndex, Sorting.Class;
    var n := IndexCount(ms);
    var rest := Keys(ms[n..j] + ms[j + 1..]);
    FrontKeys(ms, j);
    ClassAppend(Keys(ms[..n]), [ms[j].key] + rest, k, leq);
    ClassHead(ms[j].key, rest, k, leq);
  }

  lemma FrontKeys(ms: seq<Member>, j: nat)
    requires j < |ms| && !IsIndex(ms[j].key)
    ensures var n := IndexCount(ms);
      Keys(ToFront(ms, j)) == Keys(ms[..n]) + ([ms[j].key] + Keys(ms[n..j] + ms[j + 1..]))
  {
    hide IsIndex, Keys;
    var n := IndexCount(ms);
    KeysAppend(ms[..n], [ms[j]] + (ms[n..j] + ms[j + 1..]));
    KeysAppend([ms[j]], ms[n..j] + ms[j + 1..]);
    assert Keys([ms[j]]) == [ms[j].key];
  }

  lemma ClassHead(x: string, rest: seq<string>, k: string, leq: Collation)
    requires leq(k, x) && leq(x, k)
    ensures Sorting.Class([x] + rest, k, leq) == [x] + Sorting.Class(rest, k, leq)
  {
    assert ([x] + rest)[1..] == rest;
  }

  // Moving one or the other of two tied members up gives two texts.
  lemma TieMatters(ms: seq<Member>, i: nat, j: nat, leq: Collation)
    requires Sorting.TotalPreorder(leq)
    requires i < |ms| && j < |ms| && Ties(ms[i].key, ms[j].key, leq)
    ensures Norm(Obj(ToFront(ms, i)), leq) != Norm(Obj(ToFront(ms, j)), leq)
  {
    hide Norm, Sorting.Class, ToFront, IsIndex;
    FrontLeadsClass(ms, i, ms[i].key, leq);
    FrontLeadsClass(ms, j, ms[i].key, leq);
    if Norm(Obj(ToFront(ms, i)), leq) == Norm(Obj(ToFront(ms, j)), leq) {
      TiesKeepOrder(ToFront(ms, i), ToFront(ms, j), ms[i], leq);
    }
  }

  lemma ReplaceKeepsSame(ms: seq<Member>, i: nat, value: Json)
    requires i < |ms| && Same(ms[i].value, value)
    ensures Same(Obj(ms), Obj(ms[i := Member(ms[i].key, value)]))
  {
    hide Carries;
    var bs := ms[i := Member(ms[i].key, value)];
    forall k | 0 <= k < |ms| ensures Carries(bs, ms[k]) {
      SameReflexive(ms[k].value);
      CarriesAt(bs, ms[k], k);
    }
  }

  lemma ReplaceKeepsWellFormed(ms: seq<Member>, i: nat, value: Json)
    requires i < |ms| && WellFormed(Obj(ms)) && WellFormed(value)
    ensures WellFormed(Obj(ms[i := Member(ms[i].key, value)]))
  {
    var bs := ms[i := Member(ms[i].key, value)];
    assert forall k | 0 <= k < |bs| :: bs[k].key == ms[k].key;
  }

  // Replacing a value by one that is the same but has another normal form.
  lemma ReplaceValue(ms: seq<Member>, i: nat, value: Json, leq: Collation)
    requires i < |ms| && DistinctKeys(ms) && Norm(ms[i].value, leq) != Norm(value, leq)
    ensures Norm(Obj(ms), leq) != Norm(Obj(ms[i := Member(ms[i].key, value)]), leq)
  {
    hide Norm;
    var bs := ms[i := Member(ms[i].key, value)];
    if Norm(Obj(ms), leq) == Norm(Obj(bs), leq) {
      var j := Partner(ms, bs, i, leq);
    }
  }

  lemma ReplaceItem(items: seq<Json>, i: nat, value: Json, leq: Collation)
    requires i < |items| && WellFormed(Arr(items)) && WellFormed(value)
    requires Same(items[i], value) && Norm(items[i], leq) != Norm(value, leq)
    ensures var b := Arr(items[i := value]);
      WellFormed(b) && Same(Arr(items), b) && Norm(Arr(items), leq) != Norm(b, leq)
  {
    var bs := items[i := value];
    forall k | 0 <= k < |items| ensures Same(items[k], bs[k]) {
      SameReflexive(items[k]);
    }
    ItemsBelow(Arr(items));
    ItemsBelow(Arr(bs));
    var x, y := NormItems(items, Arr(items), leq), NormItems(bs, Arr(bs), leq);
    assert x[i] != y[i];
  }

  // A reordering of an unseparated document that prints differently.
  lemma {:induction false} Distinguished(a: Json, leq: Collation) returns (b: Json)
    requires WellFormed(a) && Sorting.TotalPreorder(leq) && !Separated(a, leq)
    ensures WellFormed(b) && Same(a, b) && Norm(a, leq) != Norm(b, leq)
    decreases a
  {
    match a {
      case Arr(items) =>
        var i :| 0 <= i < |items| && !Separated(items[i], leq);
        var value := Distinguished(items[i], leq);
        ReplaceItem(items, i, value, leq);
        b := Arr(items[i := value]);
      case Obj(ms) =>
        if i :| 0 <= i < |ms| && !Separated(ms[i].value, leq) {
          var value := Distinguished(ms[i].value, leq);
          ReplaceKeepsWellFormed(ms, i, value);
          ReplaceKeepsSame(ms, i, value);
          ReplaceValue(ms, i, value, leq);
          b := Obj(ms[i := Member(ms[i].key, value)]);
        } else {
          var i, j :| 0 <= i < |ms| && 0 <= j < |ms| && Ties(ms[i].key, ms[j].key, leq);
          ToFrontIsSame(ms, i);
          ToFrontIsSame(ms, j);
          ToFrontWellFormed(ms, i);
          ToFrontWellFormed(ms, j);
          TieMatters(ms, i, j, leq);
          b := Obj(ToFront(ms, if Norm(a, leq) != Norm(Obj(ToFront(ms, i)), leq) then i else j));
        }
    }
  }

  ghost predicate OrderBlind(a: Json, leq: Collation) {
    forall b | WellFormed(b) :: ToCanonicalJson(a, leq) == ToCanonicalJson(b, leq) <==> Same(a, b)
  }

  /**
   The canonical text decides sameness of documents exactly for the documents whose keys the
   collation tells apart; `localeCompare` calls some different strings equal.
   */
  lemma OrderBlindExactly(a: Json, leq: Collation)
    requires WellFormed(a) && Sorting.TotalPreorder(leq)
    ensures OrderBlind(a, leq) <==> Separated(a, leq)
  {
    hide *;
    if Separated(a, leq) {
      assert OrderBlind(a, leq) by { SeparatedIsBlind(a, leq); }
    } else {
      var b := Distinguished(a, leq);
      CanonicalDecides(a, b, leq);
      NotBlind(a, b, leq);
    }
  }

  lemma SeparatedIsBlind(a: Json, leq: Collation)
    requires WellFormed(a) && Sorting.TotalPreorder(leq) && Separated(a, leq)
    ensures OrderBlind(a, leq)
  {
    hide Same, Norm, WellFormed, Separated, ToCanonicalJson;
    forall b | WellFormed(b) ensures ToCanonicalJson(a, leq) == ToCanonicalJson(b, leq) <==> Same(a, b) {
      CanonicalDecides(a, b, leq);
      if Norm(a, leq) == Norm(b, leq) { NormEqualIsSame(a, b, leq); }
      if Same(a, b) { SameNorms(a, b, leq); }
    }
  }

  lemma NotBlind(a: Json, b: Json, leq: Collation)
    requires WellFormed(b) && Same(a, b) && ToCanonicalJson(a, leq) != ToCanonicalJson(b, leq)
    ensures !OrderBlind(a, leq)
  {
    hide Same, WellFormed, ToCanonicalJson;
  }

  // ---- the payload check of a signed request ------------------------------------------------------

  /** `resolvePayload`: the body when it is an object with members, else an object with the date header. */
  function ResolvePayload(body: Json, date: Option<string>): Json {
    if body.Obj? && body.members != [] then body
    else Obj([Member("date", Str(if date.Some? then date.value else ""))])
  }

  predicate PayloadMatches(body: Json, date: Option<string>, payload: Json, leq: Collation) {
    ToCanonicalJson(ResolvePayload(body, date), leq) == ToCanonicalJson(payload, leq)
  }

  lemma MatchMeansSame(body: Json, date: Option<string>, payload: Json, leq: Collation)
    requires WellFormed(ResolvePayload(body, date)) && WellFormed(payload) && Sorting.TotalPreorder(leq)
    ensures PayloadMatches(body, date, payload, leq) ==> Same(ResolvePayload(body, date), payload)
    ensures Separated(ResolvePayload(body, date), leq) && Same(ResolvePayload(body, date), payload) ==>
              PayloadMatches(body, date, payload, leq)
  {
    hide Same, Norm, Separated, ToCanonicalJson, WellFormed, ResolvePayload;
    var own := ResolvePayload(body, date);
    if PayloadMatches(body, date, payload, leq) { EqualTextIsSame(own, payload, leq); }
    if Separated(own, leq) && Same(own, payload) {
      CanonicalDecides(own, payload, leq);
      SameNorms(own, payload, leq);
    }
  }

  // An object of one text is the same as nothing but itself.
  lemma SameAsOneText(key: string, text: string, payload: Json)
    ensures Same(Obj([Member(key, Str(text))]), payload) <==> payload == Obj([Member(key, Str(text))])
  {
    var own := Obj([Member(key, Str(text))]);
    SameReflexive(own);
    if Same(own, payload) {
      var j := SameMember(own.members, payload.members, 0);
      assert payload.members == [payload.members[0]];
    }
  }

  /**
   The payload check, case by case. With a body that is an object with members, a match means that the signed
   payload is the body up to member order, and a faithful payload matches if the collation separates the
   body's keys. With any other body a match means that the payload is exactly the one-member object of the
   date header, empty when there is none.
   */
  lemma PayloadCheckMeaning(body: Json, date: Option<string>, payload: Json, leq: Collation)
    requires WellFormed(body) && WellFormed(payload) && Sorting.TotalPreorder(leq)
    ensures body.Obj? && body.members != [] ==>
              && (PayloadMatches(body, date, payload, leq) ==> Same(body, payload))
              && (Separated(body, leq) && Same(body, payload) ==> PayloadMatches(body, date, payload, leq))
    ensures !(body.Obj? && body.members != []) ==>
              var text := match date case None => "" case Some(d) => d;
              PayloadMatches(body, date, payload, leq) <==> payload == Obj([Member("date", Str(text))])
  {
    hide Same, PayloadMatches, IsIndex;
    MatchMeansSame(body, date, payload, leq);
    if !(body.Obj? && body.members != []) {
      var text := match date case None => "" case Some(d) => d;
      assert ResolvePayload(body, date) == Obj([Member("date", Str(text))]);
      assert Separated(ResolvePayload(body, date), leq);
      SameAsOneText("date", text, payload);
    }
  }
}
