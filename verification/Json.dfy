/** JSON values as `JSON.parse` yields them, and the text `JSON.stringify` writes for scalars. */
module Json {
  import Decimal
  import Text

  /**
   A number is identified with the text `Number.prototype.toString` gives it; literals beyond the
   double range parse to an infinity.
   */
  datatype NumberValue = Finite(text: string) | Infinite(negative: bool)

  /** Object members are in the order of `Object.entries`. */
  datatype Json =
    | Null
    | Bool(value: bool)
    | Number(number: NumberValue)
    | Str(text: string)
    | Arr(items: seq<Json>)
    | Obj(members: seq<Member>)

  datatype Member = Member(key: string, value: Json)

  predicate IsNumberChar(c: char) {
    '0' <= c <= '9' || c == '-' || c == '+' || c == '.' || c == 'e'
  }

  predicate IsNumberText(s: string) {
    && s != ""
    && ('0' <= s[0] <= '9' || s[0] == '-')
    && forall i | 0 <= i < |s| :: IsNumberChar(s[i])
  }

  predicate DistinctKeys(ms: seq<Member>) {
    forall i, j | 0 <= i < j < |ms| :: ms[i].key != ms[j].key
  }

  const MAX_INDEX: nat := 4294967294

  // An array index: the text of an integer below 2^32 - 1.
  predicate IsIndex(key: string) {
    Decimal.NoLeadingZero(key) && Decimal.Value(key) <= MAX_INDEX
  }

  // `Object.entries` may list key x before key y: array indexes come first, in ascending order.
  predicate Precedes(x: string, y: string) {
    IsIndex(y) ==> IsIndex(x) && Decimal.Value(x) < Decimal.Value(y)
  }

  predicate EntriesOrder(ms: seq<Member>) {
    forall i, j | 0 <= i < j < |ms| :: Precedes(ms[i].key, ms[j].key)
  }

  /** Objects have distinct keys in the order of entries, and finite numbers have a number's text. */
  predicate WellFormed(v: Json) {
    match v
    case Number(Finite(text)) => IsNumberText(text)
    case Arr(items) => forall i | 0 <= i < |items| :: WellFormed(items[i])
    case Obj(ms) => DistinctKeys(ms) && EntriesOrder(ms) && forall i | 0 <= i < |ms| :: WellFormed(ms[i].value)
    case _ => true
  }

  function HexDigit(n: nat): char
    requires n < 16
  {
    "0123456789abcdef"[n]
  }

  /** One character of a JSON string literal. */
  function Escape(c: char): string {
    if c == '\"' then "\\\""
    else if c == '\\' then "\\\\"
    else if c == '\U{0008}' then "\\b"
    else if c == '\U{000C}' then "\\f"
    else if c == '\n' then "\\n"
    else if c == '\r' then "\\r"
    else if c == '\t' then "\\t"
    else if c < ' ' then "\\u00" + [HexDigit(c as int / 16), HexDigit(c as int % 16)]
    else [c]
  }

  function EscapeAll(s: string): string {
    if s == "" then "" else Escape(s[0]) + EscapeAll(s[1..])
  }

  /** `JSON.stringify` of a string. */
  function Quote(s: string): string {
    "\"" + EscapeAll(s) + "\""
  }

  function PrintNumber(n: NumberValue): string {
    match n
    case Finite(text) => text
    case Infinite(_) => "null"
  }

  // ---- string literals can be read back ------------------------------------------------------------

  lemma HexInjective(m: nat, n: nat)
    requires m < 16 && n < 16 && HexDigit(m) == HexDigit(n)
    ensures m == n
  {
    assert forall k: nat | k < 16 ::
        HexDigit(k) as int == (if k < 10 then k + '0' as int else k - 10 + 'a' as int);
  }

  // The length of an escape can be told from its first characters.
  lemma EscapeShape(c: char)
    ensures |Escape(c)| >= 1 && Escape(c)[0] != '\"'
    ensures Escape(c)[0] != '\\' ==> Escape(c) == [c]
    ensures Escape(c)[0] == '\\' ==>
              && |Escape(c)| >= 2
              && (|Escape(c)| == 6 <==> Escape(c)[1] == 'u')
              && (|Escape(c)| == 6 || |Escape(c)| == 2)
  {}

  lemma EscapeInjective(c: char, d: char)
    requires Escape(c) == Escape(d)
    ensures c == d
  {
    if |Escape(c)| == 6 {
      assert Escape(c)[4] == HexDigit(c as int / 16) && Escape(c)[5] == HexDigit(c as int % 16);
      assert Escape(d)[4] == HexDigit(d as int / 16) && Escape(d)[5] == HexDigit(d as int % 16);
      HexInjective(c as int / 16, d as int / 16);
      HexInjective(c as int % 16, d as int % 16);
    } else if |Escape(c)| == 2 {
      assert Escape(c)[1] == Escape(d)[1];
    } else {
      assert Escape(c)[0] == Escape(d)[0];
    }
  }

  lemma EscapePrefix(c: char, d: char, x: string, y: string)
    requires Escape(c) + x == Escape(d) + y
    ensures c == d && x == y
  {
    EscapeShape(c);
    EscapeShape(d);
    var s := Escape(c) + x;
    assert s[0] == Escape(c)[0] == Escape(d)[0];
    if s[0] == '\\' {
      assert s[1] == Escape(c)[1] == Escape(d)[1];
    }
    assert |Escape(c)| == |Escape(d)|;
    assert Escape(c) == s[..|Escape(c)|] == Escape(d);
    assert x == s[|Escape(c)|..] == y;
    EscapeInjective(c, d);
  }

  lemma Assoc(a: string, b: string, c: string)
    ensures (a + b) + c == a + (b + c)
  {}

  lemma EscapeAllStep(s: string, x: string)
    requires s != ""
    ensures EscapeAll(s) + ("\"" + x) == Escape(s[0]) + (EscapeAll(s[1..]) + ("\"" + x))
    ensures (EscapeAll(s) + ("\"" + x))[0] != '\"'
  {
    hide Escape;
    EscapeShape(s[0]);
    Assoc(Escape(s[0]), EscapeAll(s[1..]), "\"" + x);
  }

  lemma {:induction false} EscapeAllPrefix(s: string, t: string, x: string, y: string)
    requires EscapeAll(s) + ("\"" + x) == EscapeAll(t) + ("\"" + y)
    ensures s == t && x == y
  {
    hide Escape;
    if s == "" && t == "" {
      assert "" + ("\"" + x) == "\"" + x && "" + ("\"" + y) == "\"" + y;
      Text.CancelPrefix("\"", x, y);
    } else if s == "" {
      EscapeAllStep(t, y);
    } else if t == "" {
      EscapeAllStep(s, x);
    } else {
      EscapeAllStep(s, x);
      EscapeAllStep(t, y);
      var u, v := EscapeAll(s[1..]) + ("\"" + x), EscapeAll(t[1..]) + ("\"" + y);
      EscapePrefix(s[0], t[0], u, v);
      EscapeAllPrefix(s[1..], t[1..], x, y);
      assert s == [s[0]] + s[1..] && t == [t[0]] + t[1..];
    }
  }

  lemma QuoteStep(s: string, x: string)
    ensures Quote(s) + x == "\"" + (EscapeAll(s) + ("\"" + x))
  {
    hide EscapeAll;
    Assoc("\"" + EscapeAll(s), "\"", x);
    Assoc("\"", EscapeAll(s), "\"" + x);
  }

  /** A quoted string determines the string and where it ends. */
  lemma QuotePrefix(s: string, t: string, x: string, y: string)
    requires Quote(s) + x == Quote(t) + y
    ensures s == t && x == y
  {
    hide EscapeAll, Quote;
    QuoteStep(s, x);
    QuoteStep(t, y);
    Text.CancelPrefix("\"", EscapeAll(s) + ("\"" + x), EscapeAll(t) + ("\"" + y));
    EscapeAllPrefix(s, t, x, y);
  }

  /** The escapes of `JSON.stringify`. */
  lemma EscapesOfStringify(c: char)
    ensures Escape('\"') == "\\\"" && Escape('\\') == "\\\\" && Escape('\n') == "\\n" && Escape('\r') == "\\r"
    ensures Escape('\t') == "\\t" && Escape('\U{0008}') == "\\b" && Escape('\U{000C}') == "\\f"
    ensures Escape('\U{0000}') == "\\u0000" && Escape('\U{001F}') == "\\u001f"
    ensures c >= ' ' && c != '\"' && c != '\\' ==> Escape(c) == [c]
  {
    assert "0123456789abcdef"[0] == '0' && "0123456789abcdef"[1] == '1' && "0123456789abcdef"[15] == 'f';
  }

  lemma NoControlInEscape(c: char)
    ensures forall x | x in Escape(c) :: x >= ' '
  {
    assert forall k: nat | k < 16 :: HexDigit(k) >= '0';
  }

  /** A quoted string has no control character, so it stays on one line. */
  lemma {:induction false} QuotedIsPrintable(s: string)
    ensures forall x | x in Quote(s) :: x >= ' '
  {
    hide Escape;
    EscapedIsPrintable(s);
  }

  lemma {:induction false} EscapedIsPrintable(s: string)
    ensures forall x | x in EscapeAll(s) :: x >= ' '
  {
    hide Escape;
    if s != "" {
      NoControlInEscape(s[0]);
      EscapedIsPrintable(s[1..]);
    }
  }

  /** Array indexes are the plain decimal texts of 0 to 4294967294, and no others. */
  lemma IndexTexts(key: string)
    ensures IsIndex(key) <==> exists n: nat :: n <= 4294967294 && key == Decimal.NatText(n)
  {
    if IsIndex(key) {
      var n := Decimal.Value(key);
      Decimal.NatTextValue(n);
      Decimal.NoLeadingZeroUnique(key, Decimal.NatText(n));
    }
    forall n: nat | n <= 4294967294 ensures IsIndex(Decimal.NatText(n)) {
      Decimal.NatTextValue(n);
    }
  }
}
