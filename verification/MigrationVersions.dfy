/** Version ordering: `compareVersions` and the sort in `discoverMigrations` of db-migration.ts. */
module MigrationVersions {
  import opened Sorting

  datatype MigrationFile = MigrationFile(
    version: string, versionTuple: seq<nat>, filename: string, sql: string, hash: string)

  // `a[i] ?? 0`
  function At(a: seq<nat>, i: nat): nat {
    if i < |a| then a[i] else 0
  }

  function Max(m: nat, n: nat): nat {
    if m < n then n else m
  }

  // The difference at the first position from i on where the tuples differ, below len.
  function CompareFrom(a: seq<nat>, b: seq<nat>, i: nat, len: nat): int
    requires i <= len
    decreases len - i
  {
    if i == len then 0
    else if At(a, i) != At(b, i) then At(a, i) - At(b, i)
    else CompareFrom(a, b, i + 1, len)
  }

  function Compare(a: seq<nat>, b: seq<nat>): int {
    CompareFrom(a, b, 0, Max(|a|, |b|))
  }

  method CompareVersions(a: seq<nat>, b: seq<nat>) returns (r: int)
    ensures r == Compare(a, b)
  {
    var len := Max(|a|, |b|);
    for i := 0 to len
      invariant Compare(a, b) == CompareFrom(a, b, i, len)
    {
      var diff := At(a, i) - At(b, i);
      if diff != 0 {
        return diff;
      }
    }
    return 0;
  }

  // The tuples agree before position i, read with an endless tail of zeros.
  ghost predicate AgreeBefore(a: seq<nat>, b: seq<nat>, i: nat) {
    forall j | 0 <= j < i :: At(a, j) == At(b, j)
  }

  /** a comes before b: at the first difference a is smaller. */
  ghost predicate Before(a: seq<nat>, b: seq<nat>) {
    exists i: nat :: AgreeBefore(a, b, i) && At(a, i) < At(b, i)
  }

  lemma {:induction false} CompareFromMeaning(a: seq<nat>, b: seq<nat>, i: nat, len: nat)
    requires i <= len && AgreeBefore(a, b, i)
    ensures CompareFrom(a, b, i, len) < 0 ==> Before(a, b)
    ensures CompareFrom(a, b, i, len) > 0 ==> Before(b, a)
    ensures CompareFrom(a, b, i, len) == 0 ==> AgreeBefore(a, b, len)
    decreases len - i
  {
    if i < len {
      if At(a, i) == At(b, i) {
        CompareFromMeaning(a, b, i + 1, len);
      } else {
        assert AgreeBefore(b, a, i);
      }
    }
  }

  lemma BeforeExcludes(a: seq<nat>, b: seq<nat>)
    requires Before(a, b)
    ensures !Before(b, a)
    ensures !AgreeBefore(a, b, Max(|a|, |b|))
  {
    var i: nat :| AgreeBefore(a, b, i) && At(a, i) < At(b, i);
    forall j: nat | AgreeBefore(b, a, j) ensures At(b, j) >= At(a, j) {
      assert i < j ==> At(b, i) == At(a, i);
    }
  }

  /** The sign of `compareVersions` is the lexicographic order of the tuples with trailing zeros ignored. */
  lemma CompareMeaning(a: seq<nat>, b: seq<nat>)
    ensures Compare(a, b) < 0 <==> Before(a, b)
    ensures Compare(a, b) > 0 <==> Before(b, a)
    ensures Compare(a, b) == 0 <==> forall i: nat :: At(a, i) == At(b, i)
  {
    var len := Max(|a|, |b|);
    CompareFromMeaning(a, b, 0, len);
    if Before(a, b) { BeforeExcludes(a, b); }
    if Before(b, a) { BeforeExcludes(b, a); }
    if Compare(a, b) == 0 {
      forall i: nat ensures At(a, i) == At(b, i) {
        assert AgreeBefore(a, b, len);
      }
    }
    if forall i: nat :: At(a, i) == At(b, i) {
      assert AgreeBefore(a, b, len);
    }
  }

  ghost predicate IsPadding(shorter: seq<nat>, longer: seq<nat>) {
    && shorter <= longer
    && forall i | |shorter| <= i < |longer| :: longer[i] == 0
  }

  /** Two versions compare equal only when one is the other with zeros appended. */
  lemma EqualUpToTrailingZeros(a: seq<nat>, b: seq<nat>)
    ensures Compare(a, b) == 0 <==> IsPadding(a, b) || IsPadding(b, a)
  {
    CompareMeaning(a, b);
    if Compare(a, b) == 0 {
      forall i | 0 <= i < |a| && i < |b| ensures a[i] == b[i] {
        assert At(a, i) == At(b, i);
      }
      forall i | |a| <= i < |b| ensures b[i] == 0 {
        assert At(a, i) == At(b, i);
      }
      forall i | |b| <= i < |a| ensures a[i] == 0 {
        assert At(a, i) == At(b, i);
      }
    }
  }

  predicate VersionLeq(f: MigrationFile, g: MigrationFile) {
    Compare(f.versionTuple, g.versionTuple) <= 0
  }

  lemma BeforeTransitive(a: seq<nat>, b: seq<nat>, c: seq<nat>)
    requires !Before(b, a) && !Before(c, b)
    ensures !Before(c, a)
  {
    if Before(c, a) {
      var i: nat :| AgreeBefore(c, a, i) && At(c, i) < At(a, i);
      // The first position up to i where b leaves the common prefix decides against a premise.
      FirstDeparture(a, b, c, i);
    }
  }

  lemma {:induction false} FirstDeparture(a: seq<nat>, b: seq<nat>, c: seq<nat>, i: nat)
    requires AgreeBefore(c, a, i) && At(c, i) < At(a, i)
    ensures Before(b, a) || Before(c, b)
  {
    var j: nat := 0;
    while j < i && At(b, j) == At(a, j)
      invariant j <= i && AgreeBefore(b, a, j) && AgreeBefore(c, b, j)
    {
      j := j + 1;
    }
    assert At(b, j) < At(a, j) || At(c, j) < At(b, j) || At(a, j) < At(b, j);
    if j < i && At(a, j) < At(b, j) {
      assert At(c, j) == At(a, j);
    }
  }

  /** `compareVersions` is a total preorder on tuples of any length. */
  lemma VersionLeqIsPreorder()
    ensures TotalPreorder(VersionLeq)
  {
    forall f, g ensures VersionLeq(f, g) || VersionLeq(g, f) {
      CompareMeaning(f.versionTuple, g.versionTuple);
      CompareMeaning(g.versionTuple, f.versionTuple);
      if Before(g.versionTuple, f.versionTuple) { BeforeExcludes(g.versionTuple, f.versionTuple); }
    }
    forall f, g, h | VersionLeq(f, g) && VersionLeq(g, h) ensures VersionLeq(f, h) {
      CompareMeaning(f.versionTuple, g.versionTuple);
      CompareMeaning(g.versionTuple, h.versionTuple);
      CompareMeaning(f.versionTuple, h.versionTuple);
      BeforeTransitive(f.versionTuple, g.versionTuple, h.versionTuple);
    }
  }

  /** The migration list: what was found in all locations, stably sorted by version. */
  function DiscoverMigrations(found: seq<MigrationFile>): seq<MigrationFile> {
    Sort(found, VersionLeq)
  }

  /** Discovery loses and invents no file, orders by version, and is the only stable way to do so. */
  lemma DiscoveryIsTheStableSort(found: seq<MigrationFile>, other: seq<MigrationFile>)
    ensures multiset(DiscoverMigrations(found)) == multiset(found)
    ensures Sorted(DiscoverMigrations(found), VersionLeq)
    ensures IsStableSort(other, found, VersionLeq) <==> other == DiscoverMigrations(found)
  {
    VersionLeqIsPreorder();
    SortIsStable(found, VersionLeq);
    if IsStableSort(other, found, VersionLeq) {
      StableSortUnique(other, DiscoverMigrations(found), VersionLeq);
    }
  }
}
