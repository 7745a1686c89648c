/** The string operations of the JavaScript library that the modelled code relies on. */
module Text {

  // ECMAScript WhiteSpace and LineTerminator, the characters `String.prototype.trim` removes.
  predicate IsSpace(c: char) {
    || '\U{0009}' <= c <= '\U{000D}'
    || c in " \U{00A0}\U{1680}\U{2028}\U{2029}\U{202F}\U{205F}\U{3000}\U{FEFF}"
    || '\U{2000}' <= c <= '\U{200A}'
  }

  // `toLowerCase` of a letter of ASCII.
  function ToLower(c: char): char {
    if 'A' <= c <= 'Z' then (c as int + 32) as char else c
  }

  function TrimStart(s: string): string {
    if s != "" && IsSpace(s[0]) then TrimStart(s[1..]) else s
  }

  function TrimEnd(s: string): string {
    if s != "" && IsSpace(s[|s| - 1]) then TrimEnd(s[..|s| - 1]) else s
  }

  function Trim(s: string): string {
    TrimEnd(TrimStart(s))
  }

  lemma TrimFixes(s: string)
    requires s == "" || (!IsSpace(s[0]) && !IsSpace(s[|s| - 1]))
    ensures Trim(s) == s
  {}

  lemma {:induction false} TrimEndEnds(s: string)
    ensures var t := TrimEnd(s); t <= s && (t == "" || !IsSpace(t[|t| - 1]))
  {
    if s != "" { TrimEndEnds(s[..|s| - 1]); }
  }

  lemma {:induction false} TrimStartStarts(s: string)
    ensures var t := TrimStart(s); t == "" || !IsSpace(t[0])
  {
    if s != "" { TrimStartStarts(s[1..]); }
  }

  lemma TrimIdempotent(s: string)
    ensures Trim(Trim(s)) == Trim(s)
  {
    TrimStartStarts(s);
    TrimEndEnds(TrimStart(s));
    TrimFixes(Trim(s));
  }

  lemma {:induction false} TrimStartKeeps(s: string, i: nat)
    requires i < |s| && !IsSpace(s[i])
    ensures TrimStart(s) != "" && s[i] in TrimStart(s)
  {
    if IsSpace(s[0]) { TrimStartKeeps(s[1..], i - 1); }
  }

  lemma {:induction false} TrimEndKeeps(s: string, i: nat)
    requires i < |s| && !IsSpace(s[i])
    ensures TrimEnd(s) != ""
  {
    if IsSpace(s[|s| - 1]) { TrimEndKeeps(s[..|s| - 1], i); }
  }

  lemma TrimKeeps(s: string, i: nat)
    requires i < |s| && !IsSpace(s[i])
    ensures Trim(s) != ""
  {
    TrimStartKeeps(s, i);
    var t := TrimStart(s);
    var j :| 0 <= j < |t| && t[j] == s[i];
    TrimEndKeeps(t, j);
  }

  /** `trim` takes white space, and all of it, from both ends. */
  lemma TrimMeaning(s: string) returns (before: string, after: string)
    ensures s == before + Trim(s) + after
    ensures (forall i | 0 <= i < |before| :: IsSpace(before[i])) && forall i | 0 <= i < |after| :: IsSpace(after[i])
    ensures Trim(s) == "" || (!IsSpace(Trim(s)[0]) && !IsSpace(Trim(s)[|Trim(s)| - 1]))
  {
    hide IsSpace;
    before := TrimStartMeaning(s);
    after := TrimEndMeaning(TrimStart(s));
    TrimStartStarts(s);
    TrimEndEnds(TrimStart(s));
  }

  lemma {:induction false} TrimStartMeaning(s: string) returns (before: string)
    ensures s == before + TrimStart(s) && forall i | 0 <= i < |before| :: IsSpace(before[i])
  {
    hide IsSpace;
    before := "";
    if s != "" && IsSpace(s[0]) {
      var rest := TrimStartMeaning(s[1..]);
      before := [s[0]] + rest;
      assert s == [s[0]] + s[1..];
    }
  }

  lemma {:induction false} TrimEndMeaning(s: string) returns (after: string)
    ensures s == TrimEnd(s) + after && forall i | 0 <= i < |after| :: IsSpace(after[i])
  {
    hide IsSpace;
    after := "";
    if s != "" && IsSpace(s[|s| - 1]) {
      var rest := TrimEndMeaning(s[..|s| - 1]);
      after := rest + [s[|s| - 1]];
      assert s == s[..|s| - 1] + [s[|s| - 1]];
    }
  }

  /** Texts with a common beginning are equal exactly when what follows is. */
  lemma CancelPrefix(p: string, x: string, y: string)
    ensures p + x == p + y <==> x == y
  {
    assert (p + x)[|p|..] == x && (p + y)[|p|..] == y;
  }

  predicate StartsWith(s: string, p: string) {
    p <= s
  }

  predicate EndsWith(s: string, p: string) {
    |p| <= |s| && s[|s| - |p|..] == p
  }

  lemma TailSlice(s: string, i: nat, n: nat)
    requires s != "" && i + n <= |s| - 1
    ensures s[1..][i..i + n] == s[i + 1..i + 1 + n]
  {}

  /** `s.indexOf(p)`: the leftmost occurrence, or -1. */
  function IndexOf(s: string, p: string): (r: int)
    ensures -1 <= r <= |s| - |p| || r == -1
    ensures r >= 0 ==> s[r..r + |p|] == p
  {
    if |s| < |p| then -1
    else if p <= s then 0
    else
      var r := IndexOf(s[1..], p);
      if r < 0 then -1 else
        TailSlice(s, r, |p|);
        r + 1
  }

  predicate OccursAt(s: string, p: string, i: int) {
    0 <= i <= |s| - |p| && s[i..i + |p|] == p
  }

  lemma {:induction false} IndexOfIsLeast(s: string, p: string)
    ensures IndexOf(s, p) < 0 ==> forall i :: !OccursAt(s, p, i)
    ensures IndexOf(s, p) >= 0 ==> forall i | 0 <= i < IndexOf(s, p) :: !OccursAt(s, p, i)
  {
    if |s| >= |p| && !(p <= s) {
      IndexOfIsLeast(s[1..], p);
      forall i | OccursAt(s, p, i) ensures i > 0 && OccursAt(s[1..], p, i - 1) {
        assert p <= s <==> s[0..|p|] == p;
        assert i > 0;
        assert s[1..][i - 1..i - 1 + |p|] == s[i..i + |p|];
      }
    }
  }

  /** The index of an occurrence that nothing precedes. */
  lemma IndexOfAt(s: string, p: string, i: int)
    requires OccursAt(s, p, i)
    requires forall j | 0 <= j < i :: !OccursAt(s, p, j)
    ensures IndexOf(s, p) == i
  {
    IndexOfIsLeast(s, p);
    assert OccursAt(s, p, IndexOf(s, p));
  }

  /** `s.split(c)`: always at least one piece. */
  function Split(s: string, c: char): (r: seq<string>)
    ensures |r| >= 1
  {
    if s == "" then [""] else Prepend(s[0], c, Split(s[1..], c))
  }

  /** `parts.join(c)` on at least one part. */
  function Join(parts: seq<string>, c: char): string
    requires |parts| >= 1
  {
    if |parts| == 1 then parts[0] else parts[0] + [c] + Join(parts[1..], c)
  }

  // One step of `Split`: prepend a character to the pieces of the rest.
  function Prepend(x: char, c: char, pieces: seq<string>): seq<string>
    requires |pieces| >= 1
  {
    if x == c then [""] + pieces else [[x] + pieces[0]] + pieces[1..]
  }

  lemma PrependAppend(x: char, c: char, a: seq<string>, b: seq<string>)
    requires |a| >= 1
    ensures Prepend(x, c, a + b) == Prepend(x, c, a) + b
  {}

  lemma {:induction false} SplitSeparator(a: string, c: char, b: string)
    ensures Split(a + [c] + b, c) == Split(a, c) + Split(b, c)
  {
    var s := a + [c] + b;
    if a == "" {
      assert s[1..] == b;
    } else {
      SplitSeparator(a[1..], c, b);
      assert s[1..] == a[1..] + [c] + b;
      PrependAppend(a[0], c, Split(a[1..], c), Split(b, c));
    }
  }

  lemma {:induction false} SplitPlain(s: string, c: char)
    requires c !in s
    ensures Split(s, c) == [s]
  {
    if s != "" {
      SplitPlain(s[1..], c);
      assert [s[0]] + s[1..] == s;
    }
  }

  lemma {:induction false} SplitPiecesPlain(s: string, c: char)
    ensures forall i | 0 <= i < |Split(s, c)| :: c !in Split(s, c)[i]
  {
    if s != "" { SplitPiecesPlain(s[1..], c); }
  }

  /** Splitting and joining are inverse: this is what makes the pieces a faithful view of the text. */
  lemma {:induction false} JoinSplit(s: string, c: char)
    ensures Join(Split(s, c), c) == s
  {
    if s != "" {
      JoinSplit(s[1..], c);
      var rest := Split(s[1..], c);
      if s[0] != c && |rest| > 1 {
        assert ([[s[0]] + rest[0]] + rest[1..])[1..] == rest[1..];
      }
    }
  }

  lemma {:induction false} SplitJoin(parts: seq<string>, c: char)
    requires |parts| >= 1
    requires forall i | 0 <= i < |parts| :: c !in parts[i]
    ensures Split(Join(parts, c), c) == parts
  {
    if |parts| == 1 {
      SplitPlain(parts[0], c);
    } else {
      SplitJoin(parts[1..], c);
      SplitPlain(parts[0], c);
      SplitSeparator(parts[0], c, Join(parts[1..], c));
    }
  }

  lemma {:induction false} JoinAppend(a: seq<string>, b: seq<string>, c: char)
    requires |a| >= 1 && |b| >= 1
    ensures Join(a + b, c) == Join(a, c) + [c] + Join(b, c)
  {
    assert (a + b)[1..] == a[1..] + b;
    if |a| > 1 {
      JoinAppend(a[1..], b, c);
    }
  }

  lemma SplitFirst(p: string, c: char, rest: string)
    requires c !in p && (rest == "" || rest[0] == c)
    ensures Split(p + rest, c)[0] == p
    ensures Split(p + rest, c)[1..] == if rest == "" then [] else Split(rest[1..], c)
  {
    SplitPlain(p, c);
    if rest == "" {
      assert p + rest == p;
    } else {
      SplitSeparator(p, c, rest[1..]);
      assert p + rest == p + [c] + rest[1..];
    }
  }

  // The first piece, and what follows it.
  lemma SplitHead(s: string, c: char) returns (rest: string)
    ensures s == Split(s, c)[0] + rest && c !in Split(s, c)[0]
    ensures rest == "" || rest[0] == c
    ensures Split(s, c)[1..] == if rest == "" then [] else Split(rest[1..], c)
  {
    JoinSplit(s, c);
    SplitPiecesPlain(s, c);
    var pieces := Split(s, c);
    rest := if |pieces| == 1 then "" else [c] + Join(pieces[1..], c);
    assert s == pieces[0] + rest;
    SplitFirst(pieces[0], c, rest);
  }
}
