/** The canonical printer of packages/apps/web-outbound/component/access.guard.ts, used there as an equality test. */
module CanonicalJson {
  import opened Json
  import Sorting
  import Text

  // `left.localeCompare(right) <= 0`
  type Collation = (string, string) -> bool

  function ByKey(leq: Collation): (Member, Member) -> bool {
    (m: Member, n: Member) => leq(m.key, n.key)
  }

  lemma {:induction false} SortMembership<T>(s: seq<T>, leq: (T, T) -> bool)
    ensures multiset(Sorting.Sort(s, leq)) == multiset(s)
  {
    if s != [] {
      SortMembership(s[1..], leq);
      Sorting.InsertPermutes(s[0], Sorting.Sort(s[1..], leq), leq);
      assert s == [s[0]] + s[1..];
    }
  }

  function SortMembers(ms: seq<Member>, leq: Collation): (r: seq<Member>)
    ensures multiset(r) == multiset(ms) && |r| == |ms|
    ensures forall m :: m in r <==> m in ms
  {
    SortMembership(ms, ByKey(leq));
    var r := Sorting.Sort(ms, ByKey(leq));
    assert |r| == |multiset(r)| && |ms| == |multiset(ms)|;
    assert forall m :: m in r <==> m in multiset(r);
    assert forall m :: m in ms <==> m in multiset(ms);
    r
  }

  // Children are smaller trees.
  lemma ItemsBelow(v: Json)
    requires v.Arr?
    ensures forall i | 0 <= i < |v.items| :: v.items[i] < v
  {}

  lemma MembersBelow(v: Json)
    requires v.Obj?
    ensures forall m | m in v.members :: m.value < v
  {
    forall m | m in v.members ensures m.value < v {
      var i :| 0 <= i < |v.members| && v.members[i] == m;
    }
  }

  /** `toCanonicalJson`: every object's entries are sorted by key, then printed. */
  function ToCanonicalJson(v: Json, leq: Collation): string
    decreases v, 1, 0
  {
    match v
    case Null => "null"
    case Bool(b) => if b then "true" else "false"
    case Number(n) => PrintNumber(n)
    case Str(s) => Quote(s)
    case Arr(items) => ItemsBelow(v); "[" + CanonicalItems(items, v, leq) + "]"
    case Obj(ms) => MembersBelow(v); "{" + CanonicalMembers(SortMembers(ms, leq), v, leq) + "}"
  }

  // The printed items, joined by commas.
  function CanonicalItems(items: seq<Json>, bound: Json, leq: Collation): string
    requires forall i | 0 <= i < |items| :: items[i] < bound
    decreases bound, 0, |items|
  {
    if items == [] then ""
    else if |items| == 1 then ToCanonicalJson(items[0], leq)
    else ToCanonicalJson(items[0], leq) + "," + CanonicalItems(items[1..], bound, leq)
  }

  // The printed key:value pairs, joined by commas.
  function CanonicalMembers(ms: seq<Member>, bound: Json, leq: Collation): string
    requires forall m | m in ms :: m.value < bound
    decreases bound, 0, |ms|
  {
    if ms == [] then ""
    else
      var first := Quote(ms[0].key) + ":" + ToCanonicalJson(ms[0].value, leq);
      if |ms| == 1 then first else first + "," + CanonicalMembers(ms[1..], bound, leq)
  }

  // ---- the same printer on a tree whose members are already in order --------------------------------

  function Print(v: Json): string
    decreases v, 1
  {
    match v
    case Null => "null"
    case Bool(b) => if b then "true" else "false"
    case Number(n) => PrintNumber(n)
    case Str(s) => Quote(s)
    case Arr(items) => "[" + PrintItems(items) + "]"
    case Obj(ms) => "{" + PrintMembers(ms) + "}"
  }

  function PrintItems(items: seq<Json>): string
    decreases items, 0
  {
    if items == [] then ""
    else if |items| == 1 then Print(items[0])
    else Print(items[0]) + "," + PrintItems(items[1..])
  }

  function PrintMembers(ms: seq<Member>): string
    decreases ms, 0
  {
    if ms == [] then ""
    else
      var first := Quote(ms[0].key) + ":" + Print(ms[0].value);
      if |ms| == 1 then first else first + "," + PrintMembers(ms[1..])
  }

  /** The tree the canonical text spells out: members sorted, infinities printed as null. */
  function Norm(v: Json, leq: Collation): Json
    decreases v, 1, 0
  {
    match v
    case Number(Infinite(_)) => Null
    case Arr(items) => ItemsBelow(v); Arr(NormItems(items, v, leq))
    case Obj(ms) => MembersBelow(v); Obj(NormMembers(SortMembers(ms, leq), v, leq))
    case _ => v
  }

  function NormItems(items: seq<Json>, bound: Json, leq: Collation): (r: seq<Json>)
    requires forall i | 0 <= i < |items| :: items[i] < bound
    ensures |r| == |items|
    ensures forall i | 0 <= i < |items| :: r[i] == Norm(items[i], leq)
    decreases bound, 0, |items|
  {
    if items == [] then [] else [Norm(items[0], leq)] + NormItems(items[1..], bound, leq)
  }

  function NormMembers(ms: seq<Member>, bound: Json, leq: Collation): (r: seq<Member>)
    requires forall m | m in ms :: m.value < bound
    ensures |r| == |ms|
    ensures forall i | 0 <= i < |ms| :: r[i] == Member(ms[i].key, Norm(ms[i].value, leq))
    decreases bound, 0, |ms|
  {
    if ms == [] then [] else [Member(ms[0].key, Norm(ms[0].value, leq))] + NormMembers(ms[1..], bound, leq)
  }

  lemma {:induction false} CanonicalIsPrint(v: Json, leq: Collation)
    ensures ToCanonicalJson(v, leq) == Print(Norm(v, leq))
    decreases v, 1, 0
  {
    hide Quote;
    match v {
      case Arr(items) => ItemsBelow(v); CanonicalItemsPrint(items, v, leq);
      case Obj(ms) => MembersBelow(v); CanonicalMembersPrint(SortMembers(ms, leq), v, leq);
      case _ =>
    }
  }

  lemma {:induction false} CanonicalItemsPrint(items: seq<Json>, bound: Json, leq: Collation)
    requires forall i | 0 <= i < |items| :: items[i] < bound
    ensures CanonicalItems(items, bound, leq) == PrintItems(NormItems(items, bound, leq))
    decreases bound, 0, |items|
  {
    if items != [] {
      CanonicalIsPrint(items[0], leq);
      CanonicalItemsPrint(items[1..], bound, leq);
      var r := NormItems(items, bound, leq);
      assert r[1..] == NormItems(items[1..], bound, leq);
    }
  }

  lemma {:induction false} CanonicalMembersPrint(ms: seq<Member>, bound: Json, leq: Collation)
    requires forall m | m in ms :: m.value < bound
    ensures CanonicalMembers(ms, bound, leq) == PrintMembers(NormMembers(ms, bound, leq))
    decreases bound, 0, |ms|
  {
    hide Quote;
    if ms != [] {
      CanonicalIsPrint(ms[0].value, leq);
      CanonicalMembersPrint(ms[1..], bound, leq);
      var r := NormMembers(ms, bound, leq);
      assert r[1..] == NormMembers(ms[1..], bound, leq);
    }
  }

  // ---- printed trees can be read back ------------------------------------------------------------------

  /** No infinities, and numbers that look like numbers: what `Norm` produces. */
  predicate Plain(v: Json) {
    match v
    case Number(n) => n.Finite? && IsNumberText(n.text)
    case Arr(items) => forall i | 0 <= i < |items| :: Plain(items[i])
    case Obj(ms) => forall i | 0 <= i < |ms| :: Plain(ms[i].value)
    case _ => true
  }

  // What can follow a value in a document.
  predicate IsRest(x: string) {
    x == "" || x[0] == ',' || x[0] == ']' || x[0] == '}'
  }

  function Lead(v: Json): char
    requires Plain(v)
  {
    match v
    case Null => 'n'
    case Bool(b) => if b then 't' else 'f'
    case Number(n) => n.text[0]
    case Str(_) => '\"'
    case Arr(_) => '['
    case Obj(_) => '{'
  }

  lemma PrintLeads(v: Json)
    requires Plain(v)
    ensures Print(v) != "" && Print(v)[0] == Lead(v)
    ensures Lead(v) != ']' && Lead(v) != '}' && Lead(v) != ','
  {
    hide EscapeAll;
  }

  lemma NumberPrefix(s: string, t: string, x: string, y: string)
    requires IsNumberText(s) && IsNumberText(t) && IsRest(x) && IsRest(y)
    requires s + x == t + y
    ensures s == t && x == y
  {
    if |s| < |t| { NumberNotLonger(s, t, x, y); }
    if |t| < |s| { NumberNotLonger(t, s, y, x); }
    assert s == (s + x)[..|s|] && t == (t + y)[..|t|];
    assert x == (s + x)[|s|..] && y == (t + y)[|t|..];
  }

  // A number's text cannot run on into what follows a shorter one.
  lemma NumberNotLonger(s: string, t: string, x: string, y: string)
    requires |s| < |t| && IsNumberText(t) && IsRest(x)
    ensures s + x != t + y
  {
    if x == "" {
      assert |s + x| < |t + y|;
    } else {
      assert (s + x)[|s|] == x[0];
      assert (t + y)[|s|] == t[|s|] && IsNumberChar(t[|s|]);
    }
  }

  // What follows the first item: the closing text, or a comma and the other items.
  function AfterItem(items: seq<Json>, close: string): string {
    if items == [] then close else "," + (PrintItems(items) + close)
  }

  function AfterMember(ms: seq<Member>, close: string): string {
    if ms == [] then close else "," + (PrintMembers(ms) + close)
  }

  lemma ItemsSplit(items: seq<Json>, close: string)
    requires items != []
    ensures PrintItems(items) + close == Print(items[0]) + AfterItem(items[1..], close)
  {
    hide Print;
    if |items| > 1 {
      Assoc(Print(items[0]) + ",", PrintItems(items[1..]), close);
      Assoc(Print(items[0]), ",", PrintItems(items[1..]) + close);
    }
  }

  lemma MembersSplit(ms: seq<Member>, close: string)
    requires ms != []
    ensures PrintMembers(ms) + close
         == Quote(ms[0].key) + (":" + (Print(ms[0].value) + AfterMember(ms[1..], close)))
  {
    hide Print, Quote;
    var key, value := Quote(ms[0].key), Print(ms[0].value);
    var after := AfterMember(ms[1..], close);
    if |ms| > 1 {
      Assoc((key + ":" + value) + ",", PrintMembers(ms[1..]), close);
      Assoc(key + ":" + value, ",", PrintMembers(ms[1..]) + close);
    }
    Assoc(key + ":", value, after);
    Assoc(key, ":", value + after);
  }

  lemma Kind(a: Json, b: Json, x: string, y: string)
    requires Plain(a) && Plain(b) && Print(a) + x == Print(b) + y
    ensures Lead(a) == Lead(b)
  {
    hide Print;
    PrintLeads(a);
    PrintLeads(b);
    assert (Print(a) + x)[0] == Print(a)[0] && (Print(b) + y)[0] == Print(b)[0];
  }

  /** Unique decodability: a printed tree determines the tree and where its text ends. */
  lemma {:induction false} PrintPrefix(a: Json, b: Json, x: string, y: string)
    requires Plain(a) && Plain(b) && IsRest(x) && IsRest(y)
    requires Print(a) + x == Print(b) + y
    ensures a == b && x == y
    decreases a, 1
  {
    Kind(a, b, x, y);
    match a {
      case Null => Text.CancelPrefix("null", x, y);
      case Bool(v) => Text.CancelPrefix(if v then "true" else "false", x, y);
      case Number(n) => NumberPrefix(n.text, b.number.text, x, y);
      case Str(s) => QuotePrefix(s, b.text, x, y);
      case Arr(items) =>
        Bracketed("[", PrintItems(items), "]", x);
        Bracketed("[", PrintItems(b.items), "]", y);
        Text.CancelPrefix("[", PrintItems(items) + ("]" + x), PrintItems(b.items) + ("]" + y));
        ItemsPrefix(items, b.items, x, y);
      case Obj(ms) =>
        Bracketed("{", PrintMembers(ms), "}", x);
        Bracketed("{", PrintMembers(b.members), "}", y);
        Text.CancelPrefix("{", PrintMembers(ms) + ("}" + x), PrintMembers(b.members) + ("}" + y));
        MembersPrefix(ms, b.members, x, y);
    }
  }

  lemma Bracketed(open: string, body: string, close: string, x: string)
    ensures (open + body + close) + x == open + (body + (close + x))
  {}

  lemma {:induction false} ItemsPrefix(a: seq<Json>, b: seq<Json>, x: string, y: string)
    requires (forall i | 0 <= i < |a| :: Plain(a[i])) && (forall i | 0 <= i < |b| :: Plain(b[i]))
    requires PrintItems(a) + ("]" + x) == PrintItems(b) + ("]" + y)
    ensures a == b && x == y
    decreases a, 0
  {
    hide Print, PrintItems;
    ItemsEmpty(a, b, x, y);
    if a != [] {
      ItemsSplit(a, "]" + x);
      ItemsSplit(b, "]" + y);
      PrintPrefix(a[0], b[0], AfterItem(a[1..], "]" + x), AfterItem(b[1..], "]" + y));
      AfterItemsEqual(a[1..], b[1..], x, y);
      ItemsPrefix(a[1..], b[1..], x, y);
      assert a == [a[0]] + a[1..] && b == [b[0]] + b[1..];
    } else {
      NothingPrinted();
      assert "" + ("]" + x) == "]" + x && "" + ("]" + y) == "]" + y;
      Text.CancelPrefix("]", x, y);
    }
  }

  lemma NothingPrinted()
    ensures PrintItems([]) == "" && PrintMembers([]) == ""
  {}

  // An empty list closes at once, a non-empty one does not.
  lemma ItemsEmpty(a: seq<Json>, b: seq<Json>, x: string, y: string)
    requires (forall i | 0 <= i < |a| :: Plain(a[i])) && (forall i | 0 <= i < |b| :: Plain(b[i]))
    requires PrintItems(a) + ("]" + x) == PrintItems(b) + ("]" + y)
    ensures a == [] <==> b == []
  {
    hide Print;
    ItemsLead(a, x);
    ItemsLead(b, y);
  }

  lemma ItemsLead(a: seq<Json>, x: string)
    requires forall i | 0 <= i < |a| :: Plain(a[i])
    ensures PrintItems(a) + ("]" + x) != ""
    ensures (PrintItems(a) + ("]" + x))[0] == ']' <==> a == []
  {
    hide Print;
    if a != [] {
      ItemsSplit(a, "]" + x);
      PrintLeads(a[0]);
      assert (Print(a[0]) + AfterItem(a[1..], "]" + x))[0] == Print(a[0])[0];
    }
  }

  lemma AfterItemLead(items: seq<Json>, x: string)
    ensures AfterItem(items, "]" + x) != ""
    ensures AfterItem(items, "]" + x)[0] == ']' <==> items == []
  {
    hide PrintItems;
  }

  lemma AfterMemberLead(ms: seq<Member>, x: string)
    ensures AfterMember(ms, "}" + x) != ""
    ensures AfterMember(ms, "}" + x)[0] == '}' <==> ms == []
  {
    hide PrintMembers;
  }

  lemma AfterItemsEqual(a: seq<Json>, b: seq<Json>, x: string, y: string)
    requires AfterItem(a, "]" + x) == AfterItem(b, "]" + y)
    ensures PrintItems(a) + ("]" + x) == PrintItems(b) + ("]" + y)
  {
    hide Print, PrintItems;
    NothingPrinted();
    AfterItemLead(a, x);
    AfterItemLead(b, y);
    if a != [] {
      Text.CancelPrefix(",", PrintItems(a) + ("]" + x), PrintItems(b) + ("]" + y));
    }
  }

  lemma {:induction false} MembersPrefix(a: seq<Member>, b: seq<Member>, x: string, y: string)
    requires (forall i | 0 <= i < |a| :: Plain(a[i].value)) && (forall i | 0 <= i < |b| :: Plain(b[i].value))
    requires PrintMembers(a) + ("}" + x) == PrintMembers(b) + ("}" + y)
    ensures a == b && x == y
    decreases a, 0
  {
    hide Print, PrintMembers, Quote;
    MembersEmpty(a, b, x, y);
    if a != [] {
      MembersSplit(a, "}" + x);
      MembersSplit(b, "}" + y);
      var u, v := AfterMember(a[1..], "}" + x), AfterMember(b[1..], "}" + y);
      QuotePrefix(a[0].key, b[0].key, ":" + (Print(a[0].value) + u), ":" + (Print(b[0].value) + v));
      Text.CancelPrefix(":", Print(a[0].value) + u, Print(b[0].value) + v);
      PrintPrefix(a[0].value, b[0].value, u, v);
      AfterMembersEqual(a[1..], b[1..], x, y);
      MembersPrefix(a[1..], b[1..], x, y);
      assert a == [a[0]] + a[1..] && b == [b[0]] + b[1..];
    } else {
      NothingPrinted();
      assert "" + ("}" + x) == "}" + x && "" + ("}" + y) == "}" + y;
      Text.CancelPrefix("}", x, y);
    }
  }

  lemma MembersEmpty(a: seq<Member>, b: seq<Member>, x: string, y: string)
    requires PrintMembers(a) + ("}" + x) == PrintMembers(b) + ("}" + y)
    ensures a == [] <==> b == []
  {
    MembersLead(a, x);
    MembersLead(b, y);
  }

  lemma MembersLead(a: seq<Member>, x: string)
    ensures PrintMembers(a) + ("}" + x) != ""
    ensures (PrintMembers(a) + ("}" + x))[0] == '}' <==> a == []
  {
    hide Print, EscapeAll;
    if a != [] {
      MembersSplit(a, "}" + x);
    }
  }

  lemma AfterMembersEqual(a: seq<Member>, b: seq<Member>, x: string, y: string)
    requires AfterMember(a, "}" + x) == AfterMember(b, "}" + y)
    ensures PrintMembers(a) + ("}" + x) == PrintMembers(b) + ("}" + y)
  {
    hide Print, PrintMembers;
    NothingPrinted();
    AfterMemberLead(a, x);
    AfterMemberLead(b, y);
    if a != [] {
      Text.CancelPrefix(",", PrintMembers(a) + ("}" + x), PrintMembers(b) + ("}" + y));
    }
  }

  lemma {:induction false} NormIsPlain(v: Json, leq: Collation)
    requires WellFormed(v)
    ensures Plain(Norm(v, leq))
    decreases v
  {
    match v {
      case Arr(items) =>
        forall i | 0 <= i < |items| ensures Plain(Norm(items[i], leq)) { NormIsPlain(items[i], leq); }
      case Obj(ms) =>
        var sorted := SortMembers(ms, leq);
        forall i | 0 <= i < |sorted| ensures Plain(Norm(sorted[i].value, leq)) {
          assert sorted[i] in sorted;
          var j :| 0 <= j < |ms| && ms[j] == sorted[i];
          NormIsPlain(ms[j].value, leq);
        }
      case _ =>
    }
  }

  /** Canonical texts are equal exactly when the normal forms are. */
  lemma CanonicalDecides(a: Json, b: Json, leq: Collation)
    requires WellFormed(a) && WellFormed(b)
    ensures ToCanonicalJson(a, leq) == ToCanonicalJson(b, leq) <==> Norm(a, leq) == Norm(b, leq)
  {
    hide *;
    CanonicalIsPrint(a, leq);
    CanonicalIsPrint(b, leq);
    NormIsPlain(a, leq);
    NormIsPlain(b, leq);
    if ToCanonicalJson(a, leq) == ToCanonicalJson(b, leq) {
      EmptyIsRest();
      assert Print(Norm(a, leq)) + "" == Print(Norm(b, leq)) + "";
      PrintPrefix(Norm(a, leq), Norm(b, leq), "", "");
    }
  }

  lemma EmptyIsRest()
    ensures IsRest("")
  {}
}
