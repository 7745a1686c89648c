/** Sums of natural weights over sequences and over finite sets of keys. */
module Sums {

  function SumBy<T>(s: seq<T>, w: T -> nat): nat {
    if s == [] then 0 else SumBy(s[..|s| - 1], w) + w(s[|s| - 1])
  }

  lemma {:induction false} SumByAppend<T>(s: seq<T>, t: seq<T>, w: T -> nat)
    ensures SumBy(s + t, w) == SumBy(s, w) + SumBy(t, w)
  {
    if t == [] {
      assert s + t == s;
    } else {
      assert (s + t)[..|s + t| - 1] == s + t[..|t| - 1];
      SumByAppend(s, t[..|t| - 1], w);
    }
  }

  lemma {:induction false} SumByPlus<T>(s: seq<T>, w: T -> nat, u: T -> nat, v: T -> nat)
    requires forall x | x in s :: w(x) == u(x) + v(x)
    ensures SumBy(s, w) == SumBy(s, u) + SumBy(s, v)
  {
    if s != [] { SumByPlus(s[..|s| - 1], w, u, v); }
  }

  lemma {:induction false} SumByAtLeast<T>(s: seq<T>, w: T -> nat, x: T)
    requires x in s
    ensures SumBy(s, w) >= w(x)
  {
    if s[|s| - 1] != x { SumByAtLeast(s[..|s| - 1], w, x); }
  }

  lemma TakeOut<T>(t: seq<T>, x: T, w: T -> nat) returns (rest: seq<T>)
    requires x in t
    ensures multiset(t) == multiset(rest) + multiset{x}
    ensures SumBy(t, w) == SumBy(rest, w) + w(x)
  {
    var i :| 0 <= i < |t| && t[i] == x;
    rest := t[..i] + t[i + 1..];
    assert t == t[..i] + ([x] + t[i + 1..]);
    SumByAppend(t[..i], [x] + t[i + 1..], w);
    SumByAppend([x], t[i + 1..], w);
    SumByAppend(t[..i], t[i + 1..], w);
    assert [x][..0] == [];
  }

  /** A sum does not depend on the order of its terms. */
  lemma {:induction false} SumByPermutation<T>(s: seq<T>, t: seq<T>, w: T -> nat)
    requires multiset(s) == multiset(t)
    ensures SumBy(s, w) == SumBy(t, w)
  {
    if s == [] {
      assert |multiset(t)| == 0;
    } else {
      var x, front := s[|s| - 1], s[..|s| - 1];
      LastInPermutation(s, t);
      var rest := TakeOut(t, x, w);
      assert multiset(front) == multiset(s) - multiset{x} && multiset(rest) == multiset(t) - multiset{x};
      SumByPermutation(front, rest, w);
    }
  }

  lemma LastInPermutation<T>(s: seq<T>, t: seq<T>)
    requires s != [] && multiset(s) == multiset(t)
    ensures s[|s| - 1] in t
    ensures multiset(s) == multiset(s[..|s| - 1]) + multiset{s[|s| - 1]}
  {
    assert s == s[..|s| - 1] + [s[|s| - 1]];
    assert s[|s| - 1] in multiset(t);
  }

  ghost function SumSet(ks: set<string>, f: string -> nat): nat {
    if ks == {} then 0
    else
      var k :| k in ks;
      f(k) + SumSet(ks - {k}, f)
  }

  /** The choice of order inside `SumSet` is immaterial. */
  lemma {:induction false} SumSetRemove(ks: set<string>, f: string -> nat, k: string)
    requires k in ks
    ensures SumSet(ks, f) == f(k) + SumSet(ks - {k}, f)
    decreases ks
  {
    var first :| first in ks && SumSet(ks, f) == f(first) + SumSet(ks - {first}, f);
    if first != k {
      SumSetRemove(ks - {first}, f, k);
      SumSetRemove(ks - {k}, f, first);
      assert (ks - {first}) - {k} == (ks - {k}) - {first};
    }
  }

  lemma {:induction false} SumSetCongruent(ks: set<string>, f: string -> nat, g: string -> nat)
    requires forall k | k in ks :: f(k) == g(k)
    ensures SumSet(ks, f) == SumSet(ks, g)
    decreases ks
  {
    if ks != {} {
      var k :| k in ks;
      SumSetRemove(ks, f, k);
      SumSetRemove(ks, g, k);
      SumSetCongruent(ks - {k}, f, g);
    }
  }

  // ---- keyed charges -----------------------------------------------------------------------------

  type Ledger = seq<(string, nat)>

  function Keys(ledger: Ledger): set<string> {
    set e | e in ledger :: e.0
  }

  /** What the first entry under a key charges. */
  function Once(ledger: Ledger, k: string): nat {
    if ledger == [] then 0
    else if ledger[0].0 == k then ledger[0].1
    else Once(ledger[1..], k)
  }

  function Amount(e: (string, nat)): nat {
    e.1
  }

  // What the entries after the first under their key charge.
  function Repeats(ledger: Ledger): nat {
    if ledger == [] then 0
    else
      var front, last := ledger[..|ledger| - 1], ledger[|ledger| - 1];
      Repeats(front) + (if last.0 in Keys(front) then last.1 else 0)
  }

  lemma {:induction false} OnceAppend(front: Ledger, last: (string, nat), k: string)
    ensures Once(front + [last], k)
         == if k in Keys(front) then Once(front, k) else if last.0 == k then last.1 else 0
  {
    if front != [] {
      assert (front + [last])[1..] == front[1..] + [last];
      OnceAppend(front[1..], last, k);
      assert Keys(front) == Keys(front[1..]) + {front[0].0};
    }
  }

  /** Every ledger totals its first entries per key, plus its repeated entries. */
  lemma {:induction false} LedgerTotal(ledger: Ledger)
    ensures SumBy(ledger, Amount) == SumSet(Keys(ledger), k => Once(ledger, k)) + Repeats(ledger)
  {
    var f := k => Once(ledger, k);
    if ledger == [] {
      assert Keys(ledger) == {};
    } else {
      var front, last := ledger[..|ledger| - 1], ledger[|ledger| - 1];
      var g := k => Once(front, k);
      LedgerTotal(front);
      assert ledger == front + [last];
      assert Keys(ledger) == Keys(front) + {last.0};
      forall k ensures f(k) == if k in Keys(front) then g(k) else if last.0 == k then last.1 else 0 {
        OnceAppend(front, last, k);
      }
      SumSetCongruent(Keys(front), f, g);
      if last.0 in Keys(front) {
        assert Keys(ledger) == Keys(front);
      } else {
        SumSetRemove(Keys(ledger), f, last.0);
        assert Keys(ledger) - {last.0} == Keys(front);
      }
    }
  }
}
