/** Signed GET requests are accepted at most once, for every run of the guard. */
module SignedGetTheorems {
  import opened Json
  import opened Results
  import opened SignedGet
  import Text

  // ---- what the checks establish --------------------------------------------------------------------

  /** A text is at most one compact token, and `toToken` finds it. */
  lemma TokenParts(authorization: string, token: Token)
    ensures ToToken(authorization) == Ok(token) <==> IsCompact(token, authorization)
  {
    hide Text.Join, Text.Split;
    CompactParts(authorization, token);
  }

  /** The checks pass exactly for a genuine request whose date is fresh. */
  lemma CheckMeaning(w: World, request: Request, now: int, limits: Limits, claim: Claim)
    ensures Check(w, request, now, limits) == Ok(claim) <==>
              IsFresh(claim.date, now, limits) && exists token :: Genuine(w, request, token, claim)
  {
    hide Text.Trim, StripBearer, Text.Join, ToToken;
    forall token ensures Genuine(w, request, token, claim) && IsFresh(claim.date, now, limits) ==>
        Check(w, request, now, limits) == Ok(claim)
    {
      if request.authorization.One? {
        TokenParts(Text.Trim(StripBearer(Text.Trim(request.authorization.text))), token);
      }
    }
    if Check(w, request, now, limits) == Ok(claim) {
      var token := ToToken(Text.Trim(StripBearer(Text.Trim(request.authorization.text)))).value;
      TokenParts(Text.Trim(StripBearer(Text.Trim(request.authorization.text))), token);
      assert Genuine(w, request, token, claim);
    }
  }

  // ---- the Bearer prefix --------------------------------------------------------------------------------------

  // "bearer" in any letter case.
  predicate IsBearer(p: string) {
    |p| == 6 && forall i | 0 <= i < 6 :: Text.ToLower(p[i]) == "bearer"[i]
  }

  lemma BearerWords()
    ensures IsBearer("Bearer") && IsBearer("bearer") && IsBearer("BEARER") && !IsBearer("Basic ")
  {
    assert Text.ToLower("Basic "[1]) != "bearer"[1];
  }

  predicate AllBlank(b: string) {
    forall i | 0 <= i < |b| :: b[i] == ' ' || b[i] == '\t'
  }

  lemma {:induction false} BlanksAreDropped(b: string, t: string)
    requires AllBlank(b) && (t == "" || !IsBlank(t[0]))
    ensures DropBlanks(b + t) == t
  {
    if b == "" {
      assert b + t == t;
    } else {
      BlanksAreDropped(b[1..], t);
      assert (b + t)[1..] == b[1..] + t;
    }
  }

  /** The word, in any letter case, goes together with all blanks after it; what follows stays. */
  lemma BearerIsStripped(p: string, b: string, t: string)
    requires IsBearer(p) && b != "" && AllBlank(b) && (t == "" || !IsBlank(t[0]))
    ensures StripBearer(p + b + t) == t
  {
    hide DropBlanks;
    var s := p + b + t;
    assert s[6..] == b + t && s[6] == b[0];
    assert forall i | 0 <= i < 6 :: s[i] == p[i];
    BlanksAreDropped(b, t);
  }

  lemma StrippedHasBearer(s: string) returns (p: string, b: string, t: string)
    requires StripBearer(s) != s
    ensures IsBearer(p) && b != "" && AllBlank(b) && s == p + b + t
  {
    hide DropBlanks;
    p, b, t := s[..6], [s[6]], s[7..];
  }

  /** Any other text is left alone: only the word followed by a blank is a prefix. */
  lemma OthersAreKept(s: string)
    requires forall p, b, t | IsBearer(p) && b != "" && AllBlank(b) :: s != p + b + t
    ensures StripBearer(s) == s
  {
    hide StripBearer;
    if StripBearer(s) != s {
      var p, b, t := StrippedHasBearer(s);
    }
  }

  lemma TrimmedEnds(text: string)
    requires Text.Trim(text) == text && text != ""
    ensures !Text.IsSpace(text[0]) && !Text.IsSpace(text[|text| - 1])
  {
    hide Text.IsSpace;
    Text.TrimStartStarts(text);
    Text.TrimEndEnds(Text.TrimStart(text));
  }

  lemma BearerIsTrimmed(p: string, b: string, text: string)
    requires IsBearer(p) && Text.Trim(text) == text && text != ""
    ensures Text.Trim(p + b + text) == p + b + text && !IsBlank(text[0])
  {
    TrimmedEnds(text);
    var s := p + b + text;
    assert s[0] == p[0] && s[|s| - 1] == text[|text| - 1];
    assert Text.ToLower(p[0]) == 'b';
    Text.TrimFixes(s);
  }

  /** A request is judged the same whether its token comes with the prefix or without. */
  lemma BearerMakesNoDifference(
    w: World, request: Request, p: string, b: string, text: string, now: int, limits: Limits)
    requires request.authorization == One(text) && Text.Trim(text) == text && text != ""
    requires IsBearer(p) && b != "" && AllBlank(b)
    requires forall q, c, t | IsBearer(q) && c != "" && AllBlank(c) :: text != q + c + t
    ensures Check(w, request.(authorization := One(p + b + text)), now, limits) == Check(w, request, now, limits)
  {
    hide Text.Trim, StripBearer, ToToken, CheckToken, IsBearer, AllBlank;
    BearerIsTrimmed(p, b, text);
    BearerIsStripped(p, b, text);
    OthersAreKept(text);
    assert p + b + text != "";
    TokenIgnoresHeader(w, request, One(p + b + text), now, limits);
  }

  lemma TokenIgnoresHeader(w: World, request: Request, h: Header, now: int, limits: Limits)
    ensures forall source, date, token | source in w.keys ::
              CheckToken(w, request.(authorization := h), source, date, token, now, limits)
              == CheckToken(w, request, source, date, token, now, limits)
  {
    hide Lookup, IsNonce, IsFresh;
  }

  // ---- what each rejection means --------------------------------------------------------------------------------

  function HeaderNamed(request: Request, name: string): Option<Header> {
    if name == "fspiop-source" then Some(request.source)
    else if name == "date" then Some(request.date)
    else if name == "authorization" then Some(request.authorization)
    else None
  }

  /** The request comes from a registered source with a date and this token. */
  predicate Presents(w: World, request: Request, source: string, date: string, token: Token) {
    && request.source.One? && request.date.One? && request.authorization.One?
    && source == Text.Trim(request.source.text) != "" && source in w.keys
    && date == Text.Trim(request.date.text) != ""
    && Text.Trim(request.authorization.text) != ""
    && IsCompact(token, Text.Trim(StripBearer(Text.Trim(request.authorization.text))))
  }

  /** A rejection before the token is looked at says which header, source or token is missing. */
  lemma HeaderRejection(w: World, request: Request, now: int, limits: Limits)
    ensures match Check(w, request, now, limits)
      case Err(MissingHeader(name)) => HeaderNamed(request, name) == Some(Absent)
      case Err(RepeatedHeader(name)) => HeaderNamed(request, name) == Some(Repeated)
      case Err(EmptyHeader(name)) =>
        var h := HeaderNamed(request, name);
        h.Some? && h.value.One? && Text.Trim(h.value.text) == ""
      case Err(UnknownSource) => request.source.One? && Text.Trim(request.source.text) !in w.keys
      case Err(NotCompactToken) =>
        && request.authorization.One?
        && forall token :: !IsCompact(token, Text.Trim(StripBearer(Text.Trim(request.authorization.text))))
      case _ => exists source, date, token :: Presents(w, request, source, date, token)
  {
    hide Text.Trim, StripBearer, IsCompact, ToToken, CheckToken;
    var reachesToken := request.source.One? && request.date.One? && request.authorization.One?
      && Text.Trim(request.source.text) != "" && Text.Trim(request.date.text) != ""
      && Text.Trim(request.authorization.text) != "" && Text.Trim(request.source.text) in w.keys;
    if reachesToken {
      var parsed := ToToken(Text.Trim(StripBearer(Text.Trim(request.authorization.text))));
      if parsed.Ok? {
        assert Presents(w, request, Text.Trim(request.source.text), Text.Trim(request.date.text), parsed.value);
        TokenErrors(
          w, request, Text.Trim(request.source.text), Text.Trim(request.date.text), parsed.value, now, limits);
      }
    }
  }

  predicate IsTokenError(r: Rejection) {
    || r.HeaderNotObject? || r.PayloadNotObject? || r.WrongAlgorithm? || r.WrongType? || r.WrongSignature?
    || r.PayloadNotEmpty? || r.WrongUri? || r.WrongMethod? || r.WrongDate? || r.NotHttpDate? || r.StaleDate?
    || r.MalformedNonce?
  }

  lemma TokenErrors(
    w: World, request: Request, source: string, date: string, token: Token, now: int, limits: Limits)
    requires source in w.keys
    ensures var r := CheckToken(w, request, source, date, token, now, limits); r.Err? ==> IsTokenError(r.error)
  {
    hide Lookup, IsNonce, IsFresh;
  }

  /** Every rejection of a presented token says what is wrong with it. */
  lemma TokenRejection(
    w: World, request: Request, source: string, date: string, token: Token, now: int, limits: Limits)
    requires Presents(w, request, source, date, token)
    ensures match Check(w, request, now, limits)
      case Ok(_) => true
      case Err(HeaderNotObject) => w.decode(token.header).None?
      case Err(PayloadNotObject) => w.decode(token.body).None?
      case Err(WrongAlgorithm) => !Says(w, token, "alg", "RS256")
      case Err(WrongType) => !Says(w, token, "typ", "JWT")
      case Err(WrongSignature) => !w.verify(w.keys[source], token)
      case Err(PayloadNotEmpty) => token.body != "e30" || w.decode(token.body) != Some([])
      case Err(WrongUri) => !Says(w, token, "uri", request.uri)
      case Err(WrongMethod) => !Says(w, token, "method", request.verb)
      case Err(WrongDate) => !Says(w, token, "date", date)
      case Err(NotHttpDate) => w.timestamp(date).None?
      case Err(StaleDate) => w.timestamp(date).Some? && !IsFresh(w.timestamp(date).value, now, limits)
      case Err(MalformedNonce) => forall nonce | IsUsable(nonce) :: !Says(w, token, "nonce", nonce)
      case Err(_) => false
  {
    hide Text.Trim, StripBearer, IsCompact, Lookup, IsFresh;
    TokenParts(Text.Trim(StripBearer(Text.Trim(request.authorization.text))), token);
  }

  // ---- the store remembers the accepted attempts -----------------------------------------------------

  predicate Accepts(w: World, limits: Limits, run: seq<Attempt>, i: nat, key: string)
    requires i < |run|
  {
    var r := Outcome(w, limits, run, i);
    r.Ok? && NonceKey(r.value.source, r.value.nonce) == key
  }

  // An earlier accepted attempt holds the key at this time.
  predicate Holds(w: World, limits: Limits, run: seq<Attempt>, n: nat, key: string, now: int)
    requires n <= |run|
  {
    exists i :: 0 <= i < n && Accepts(w, limits, run, i, key) && now <= run[i].reservedAt + limits.ttl
  }

  lemma {:induction false} StoreIsHistory(
    w: World, limits: Limits, run: seq<Attempt>, delay: nat, n: nat, key: string, now: int)
    requires OnTime(run, delay) && n <= |run|
    ensures Alive(StoreAfter(w, limits, run, n), key, now) <==> Holds(w, limits, run, n, key, now)
  {
    hide Check, NonceKey;
    if n > 0 {
      var last := n - 1;
      StoreIsHistory(w, limits, run, delay, last, key, now);
      if Accepts(w, limits, run, last, key) {
        ReplacesExpired(w, limits, run, delay, last, key, now);
      }
      assert Holds(w, limits, run, n, key, now) <==>
          Holds(w, limits, run, last, key, now) ||
          (Accepts(w, limits, run, last, key) && now <= run[last].reservedAt + limits.ttl);
    }
  }

  // A key reserved anew outlives its earlier reservations.
  lemma ReplacesExpired(
    w: World, limits: Limits, run: seq<Attempt>, delay: nat, n: nat, key: string, now: int)
    requires OnTime(run, delay) && n < |run|
    ensures Holds(w, limits, run, n, key, now) ==> now <= run[n].reservedAt + limits.ttl
  {
    hide Accepts;
    if Holds(w, limits, run, n, key, now) {
      var i :| 0 <= i < n && Accepts(w, limits, run, i, key) && now <= run[i].reservedAt + limits.ttl;
      assert run[i].reservedAt <= run[n].reservedAt;
    }
  }

  /** An attempt is accepted exactly when it passes the checks and no earlier acceptance still holds its nonce. */
  lemma AcceptanceMeaning(w: World, limits: Limits, run: seq<Attempt>, delay: nat, j: nat, claim: Claim)
    requires OnTime(run, delay) && j < |run|
    ensures Outcome(w, limits, run, j) == Ok(claim) <==>
              && Check(w, run[j].request, run[j].checkedAt, limits) == Ok(claim)
              && !Holds(w, limits, run, j, NonceKey(claim.source, claim.nonce), run[j].reservedAt)
  {
    hide Check, NonceKey, Holds;
    StoreIsHistory(w, limits, run, delay, j, NonceKey(claim.source, claim.nonce), run[j].reservedAt);
  }

  // ---- at most once ------------------------------------------------------------------------------------

  /** No two accepted attempts come from the same source with the same token header. */
  ghost predicate AtMostOnce(w: World, limits: Limits, run: seq<Attempt>) {
    forall i, j | 0 <= i < j < |run| :: !IsReplay(Outcome(w, limits, run, i), Outcome(w, limits, run, j))
  }

  predicate IsReplay(first: Result<Claim, Rejection>, second: Result<Claim, Rejection>) {
    && first.Ok? && second.Ok?
    && first.value.source == second.value.source && first.value.header == second.value.header
  }

  lemma SameTokenSameClaim(w: World, limits: Limits, a: Attempt, b: Attempt, c: Claim, d: Claim)
    requires Check(w, a.request, a.checkedAt, limits) == Ok(c) && Check(w, b.request, b.checkedAt, limits) == Ok(d)
    requires c.source == d.source && c.header == d.header
    ensures c == d && IsFresh(c.date, a.checkedAt, limits) && IsFresh(c.date, b.checkedAt, limits)
  {
    hide Check, Text.Trim, StripBearer, Text.Join, Lookup;
    CheckMeaning(w, a.request, a.checkedAt, limits, c);
    CheckMeaning(w, b.request, b.checkedAt, limits, d);
  }

  lemma NoReplay(w: World, limits: Limits, run: seq<Attempt>, delay: nat, i: nat, j: nat)
    requires OnTime(run, delay) && limits.ttl >= 2 * limits.window + delay && i < j < |run|
    ensures !IsReplay(Outcome(w, limits, run, i), Outcome(w, limits, run, j))
  {
    hide Check, Outcome, NonceKey;
    var first, second := Outcome(w, limits, run, i), Outcome(w, limits, run, j);
    if first.Ok? && second.Ok? {
      AcceptanceMeaning(w, limits, run, delay, i, first.value);
      AcceptanceMeaning(w, limits, run, delay, j, second.value);
      assert Accepts(w, limits, run, i, NonceKey(first.value.source, first.value.nonce));
      if IsReplay(first, second) {
        SameTokenSameClaim(w, limits, run[i], run[j], first.value, second.value);
      }
    }
  }

  // A request that its source signed, whatever the nonce; the token's first part is the given text.
  function TokenHeader(nonce: string): seq<Member> {
    [Member("alg", Str("RS256")), Member("typ", Str("JWT")), Member("uri", Str("/")),
     Member("method", Str("GET")), Member("date", Str("d")), Member("nonce", Str(nonce))]
  }

  function SignedRequest(source: string, part: string): Request {
    Request(One(source), One("d"), One(part + ".e30.s"), "/", "GET")
  }

  lemma TokenHeaderSays(nonce: string)
    ensures Lookup(TokenHeader(nonce), "alg") == Some(Str("RS256"))
    ensures Lookup(TokenHeader(nonce), "typ") == Some(Str("JWT"))
    ensures Lookup(TokenHeader(nonce), "uri") == Some(Str("/"))
    ensures Lookup(TokenHeader(nonce), "method") == Some(Str("GET"))
    ensures Lookup(TokenHeader(nonce), "date") == Some(Str("d"))
    ensures Lookup(TokenHeader(nonce), "nonce") == Some(Str(nonce))
  {
    var h := TokenHeader(nonce);
    LookupAt(h, 0);
    LookupAt(h, 1);
    LookupAt(h, 2);
    LookupAt(h, 3);
    LookupAt(h, 4);
    LookupAt(h, 5);
  }

  lemma {:induction false} LookupAt(ms: seq<Member>, k: nat)
    requires k < |ms| && forall i | 0 <= i < k :: ms[i].key != ms[k].key
    ensures Lookup(ms, ms[k].key) == Some(ms[k].value)
  {
    if k > 0 { LookupAt(ms[1..], k - 1); }
  }

  lemma SignedText(part: string)
    requires part == "g" || part == "h"
    ensures var text := part + ".e30.s"; Text.Trim(text) == text && StripBearer(text) == text
    ensures Text.Join([part, "e30", "s"], '.') == part + ".e30.s"
  {
    var text := part + ".e30.s";
    assert text[0] == part[0] && text[|text| - 1] == 's';
    Text.TrimFixes(text);
    assert Text.ToLower(text[0]) != "bearer"[0];
    assert [part, "e30", "s"][1..] == ["e30", "s"] && ["e30", "s"][1..] == ["s"];
    assert part + "." + ("e30" + "." + "s") == text;
  }

  lemma SignedPasses(
    w: World, source: string, part: string, nonce: string, date: int, now: int, limits: Limits)
    requires part == "g" || part == "h"
    requires source in w.keys && source != "" && Text.Trim(source) == source
    requires w.verify(w.keys[source], Token(part, "e30", "s"))
    requires w.decode("e30") == Some([]) && w.decode(part) == Some(TokenHeader(nonce))
    requires w.timestamp("d") == Some(date) && IsFresh(date, now, limits)
    requires Text.Trim(nonce) != "" && |nonce| <= MAX_NONCE
    ensures Check(w, SignedRequest(source, part), now, limits) == Ok(Claim(source, part, date, nonce))
  {
    hide Check, Text.Trim, StripBearer, Text.Join, Lookup, TokenHeader;
    TokenHeaderSays(nonce);
    SignedText(part);
    assert Text.Trim("d") == "d" by { Text.TrimFixes("d"); }
    assert Genuine(w, SignedRequest(source, part), Token(part, "e30", "s"), Claim(source, part, date, nonce));
    CheckMeaning(w, SignedRequest(source, part), now, limits, Claim(source, part, date, nonce));
  }

  // The run that replays a token once its reservation has lapsed.
  function ReplayWorld(limits: Limits): World {
    World(
      map["a" := "k"],
      (key: string, token: Token) => true,
      (part: string) => if part == "e30" then Some([]) else Some(TokenHeader("n")),
      (date: string) => Some(limits.window))
  }

  function ReplayRun(limits: Limits, delay: nat): seq<Attempt> {
    var request := SignedRequest("a", "h");
    [Attempt(request, 0, 0), Attempt(request, 2 * limits.window, 2 * limits.window + delay)]
  }

  lemma ReplayPasses(limits: Limits, now: int)
    requires IsFresh(limits.window, now, limits)
    ensures Check(ReplayWorld(limits), SignedRequest("a", "h"), now, limits) == Ok(Claim("a", "h", limits.window, "n"))
  {
    hide Check, TokenHeader;
    Text.TrimFixes("a");
    Text.TrimFixes("n");
    SignedPasses(ReplayWorld(limits), "a", "h", "n", limits.window, now, limits);
  }

  lemma ReplayIsAccepted(limits: Limits, delay: nat)
    requires limits.ttl < 2 * limits.window + delay
    ensures OnTime(ReplayRun(limits, delay), delay)
    ensures !AtMostOnce(ReplayWorld(limits), limits, ReplayRun(limits, delay))
  {
    hide Check, ReplayWorld, SignedRequest;
    var w, run := ReplayWorld(limits), ReplayRun(limits, delay);
    ReplayPasses(limits, 0);
    ReplayPasses(limits, 2 * limits.window);
    assert StoreAfter(w, limits, run, 0) == map[];
    assert Outcome(w, limits, run, 0).Ok? && Outcome(w, limits, run, 1).Ok?;
    assert IsReplay(Outcome(w, limits, run, 0), Outcome(w, limits, run, 1));
  }

  /**
   Whatever the keys, tokens and requests, at most one attempt per token and source is accepted in every
   run, exactly when the nonce outlives twice the date window plus the delay between check and reservation.
   */
  lemma OneShotExactly(limits: Limits, delay: nat)
    ensures (forall w: World, run: seq<Attempt> | OnTime(run, delay) :: AtMostOnce(w, limits, run))
       <==> limits.ttl >= 2 * limits.window + delay
  {
    hide Outcome, IsReplay, OnTime, ReplayWorld, ReplayRun;
    if limits.ttl >= 2 * limits.window + delay {
      forall w: World, run: seq<Attempt> | OnTime(run, delay) ensures AtMostOnce(w, limits, run) {
        forall i, j | 0 <= i < j < |run| ensures !IsReplay(Outcome(w, limits, run, i), Outcome(w, limits, run, j)) {
          NoReplay(w, limits, run, delay, i, j);
        }
      }
    } else {
      ReplayIsAccepted(limits, delay);
    }
  }

  /** With the shipped limits the bound is tight: it leaves no room for any delay. */
  lemma ShippedLimitsAreTight(delay: nat)
    ensures (forall w: World, run: seq<Attempt> | OnTime(run, delay) :: AtMostOnce(w, LIMITS, run)) <==> delay == 0
  {
    hide AtMostOnce, OnTime;
    OneShotExactly(LIMITS, delay);
  }

  /** The shipped constants: five minutes on either side, ten minutes of reservation, 128 characters. */
  lemma ShippedConstants(date: int, reservedAt: int, key: string, nonce: string)
    ensures IsFresh(date, date + 300000, LIMITS) && !IsFresh(date, date + 300001, LIMITS)
    ensures IsFresh(date, date - 300000, LIMITS) && !IsFresh(date, date - 300001, LIMITS)
    ensures var store := map[key := reservedAt + LIMITS.ttl];
      Alive(store, key, reservedAt + 600000) && !Alive(store, key, reservedAt + 600001)
    ensures IsNonce(Some(Str(nonce))) <==> Text.Trim(nonce) != "" && |nonce| <= 128
    ensures NonceKey("s", "n") == "nonce:s:n"
  {
    hide Text.Trim;
    assert NonceKey("s", "n") == "nonce:s:n";
  }

  // ---- which sources can share a nonce key -----------------------------------------------------------------

  // A nonce that passes the guard's check.
  predicate IsUsable(nonce: string) {
    Text.Trim(nonce) != "" && |nonce| <= MAX_NONCE
  }

  lemma KeyText(s: string, m: string)
    ensures NonceKey(s, m) == "nonce:" + (s + ":" + m)
  {}

  // Equal keys of different sources: the longer source begins with the shorter one and a colon.
  lemma SharedKeyShape(s: string, m: string, t: string, n: string)
    requires NonceKey(s, m) == NonceKey(t, n) && |s| <= |t|
    ensures s == t ==> m == n
    ensures s != t ==> s + ":" <= t && m == t[|s| + 1..] + ":" + n
  {
    hide NonceKey;
    KeyText(s, m);
    KeyText(t, n);
    Text.CancelPrefix("nonce:", s + ":" + m, t + ":" + n);
    var all := s + ":" + m;
    assert all[..|s|] == s && all[..|t|] == t;
    if |s| < |t| {
      assert all[|s|] == ':' && t[|s|] == ':';
      assert t == (s + ":") + t[|s| + 1..];
      assert all == (s + ":") + m;
      assert t + ":" + n == (s + ":") + (t[|s| + 1..] + ":" + n);
      Text.CancelPrefix(s + ":", m, t[|s| + 1..] + ":" + n);
    } else {
      assert s == t && all == (s + ":") + m;
      assert t + ":" + n == (s + ":") + n;
      Text.CancelPrefix(s + ":", m, n);
    }
  }

  lemma ExtensionSharesKey(s: string, t: string, n: string)
    requires s + ":" <= t
    ensures NonceKey(s, t[|s| + 1..] + ":" + n) == NonceKey(t, n)
  {
    hide NonceKey;
    var rest := t[|s| + 1..];
    KeyText(s, rest + ":" + n);
    KeyText(t, n);
    assert t == (s + ":") + rest;
    assert s + ":" + (rest + ":" + n) == t + ":" + n;
  }

  /** Two sources have no nonce key in common exactly when neither, followed by a colon, begins the other. */
  lemma NonceKeysDisjointExactly(s: string, t: string)
    requires s != t
    ensures (forall m, n :: NonceKey(s, m) != NonceKey(t, n)) <==> !(s + ":" <= t) && !(t + ":" <= s)
  {
    hide NonceKey;
    if s + ":" <= t {
      ExtensionSharesKey(s, t, "");
    } else if t + ":" <= s {
      ExtensionSharesKey(t, s, "");
    } else {
      forall m, n ensures NonceKey(s, m) != NonceKey(t, n) {
        if NonceKey(s, m) == NonceKey(t, n) {
          if |s| <= |t| { SharedKeyShape(s, m, t, n); } else { SharedKeyShape(t, n, s, m); }
        }
      }
    }
  }

  /** So a key names its source and nonce, unless one source and a colon begin the other. */
  lemma NonceKeyInjective(s: string, m: string, t: string, n: string)
    requires !(s + ":" <= t) && !(t + ":" <= s) && NonceKey(s, m) == NonceKey(t, n)
    ensures s == t && m == n
  {
    hide NonceKey;
    if |s| <= |t| { SharedKeyShape(s, m, t, n); } else { SharedKeyShape(t, n, s, m); }
  }

  /** The second source begins with the first and a colon, and what is left fits into a usable nonce. */
  predicate Shadows(s: string, t: string) {
    s + ":" <= t && |t| - |s| < MAX_NONCE
  }

  lemma ShadowedIsUsable(s: string, t: string)
    requires Shadows(s, t)
    ensures IsUsable("n") && IsUsable(t[|s| + 1..] + ":" + "n")
  {
    Text.TrimFixes("n");
    var m := t[|s| + 1..] + ":" + "n";
    assert m[|m| - 1] == 'n';
    Text.TrimKeeps(m, |m| - 1);
  }

  lemma SharedUsableKey(s: string, m: string, t: string, n: string)
    requires s != t && |s| <= |t| && NonceKey(s, m) == NonceKey(t, n) && IsUsable(m) && IsUsable(n)
    ensures Shadows(s, t)
  {
    hide NonceKey;
    SharedKeyShape(s, m, t, n);
    assert n != "";
  }

  /** The same for the nonces the guard lets pass. */
  lemma UsableKeysDisjointExactly(s: string, t: string)
    requires s != t
    ensures (forall m, n | IsUsable(m) && IsUsable(n) :: NonceKey(s, m) != NonceKey(t, n))
       <==> !Shadows(s, t) && !Shadows(t, s)
  {
    hide NonceKey, IsUsable;
    if Shadows(s, t) {
      ShadowedIsUsable(s, t);
      ExtensionSharesKey(s, t, "n");
    } else if Shadows(t, s) {
      ShadowedIsUsable(t, s);
      ExtensionSharesKey(t, s, "n");
    } else {
      forall m, n | IsUsable(m) && IsUsable(n) ensures NonceKey(s, m) != NonceKey(t, n) {
        if NonceKey(s, m) == NonceKey(t, n) {
          if |s| <= |t| { SharedUsableKey(s, m, t, n); } else { SharedUsableKey(t, n, s, m); }
        }
      }
    }
  }

  lemma NonceKeyCollides()
    ensures NonceKey("a", "b:c") == NonceKey("a:b", "c")
  {
    assert NonceKey("a", "b:c") == "nonce:a:b:c" == NonceKey("a:b", "c");
  }

  // ---- when a first use is refused -----------------------------------------------------------------------------

  predicate UsedBefore(w: World, limits: Limits, run: seq<Attempt>, j: nat, claim: Claim)
    requires j <= |run|
  {
    exists i :: 0 <= i < j && Uses(Outcome(w, limits, run, i), claim)
  }

  predicate Uses(outcome: Result<Claim, Rejection>, claim: Claim) {
    outcome.Ok? && outcome.value.source == claim.source && outcome.value.nonce == claim.nonce
  }

  /** A nonce is refused as used only if the same source had it accepted before. */
  ghost predicate RefusesOnlyReuse(w: World, limits: Limits, run: seq<Attempt>) {
    forall j | 0 <= j < |run| && Outcome(w, limits, run, j) == Err(NonceUsed) ::
      Check(w, run[j].request, run[j].checkedAt, limits).Ok?
      && UsedBefore(w, limits, run, j, Check(w, run[j].request, run[j].checkedAt, limits).value)
  }

  // A text that a header can carry as its trimmed value.
  predicate CanSend(source: string) {
    source != "" && Text.Trim(source) == source
  }

  predicate NoShadow(keys: map<string, string>) {
    forall s, t | s in keys && t in keys && CanSend(s) && CanSend(t) :: !Shadows(s, t)
  }

  lemma ClaimIsUsable(w: World, request: Request, now: int, limits: Limits)
    ensures Check(w, request, now, limits) != Err(NonceUsed)
    ensures Check(w, request, now, limits).Ok? ==>
              var c := Check(w, request, now, limits).value;
              c.source in w.keys && CanSend(c.source) && IsUsable(c.nonce)
  {
    CheckNeverSaysUsed(w, request, now, limits);
    if Check(w, request, now, limits).Ok? {
      hide Check, Text.Trim, StripBearer, Text.Join, Lookup;
      var c := Check(w, request, now, limits).value;
      CheckMeaning(w, request, now, limits, c);
      Text.TrimIdempotent(request.source.text);
    }
  }

  lemma CheckNeverSaysUsed(w: World, request: Request, now: int, limits: Limits)
    ensures Check(w, request, now, limits) != Err(NonceUsed)
  {
    hide Text.Trim, StripBearer, Text.Split;
  }

  lemma OnlyReuseIsRefused(w: World, limits: Limits, run: seq<Attempt>, delay: nat, j: nat)
    requires OnTime(run, delay) && j < |run| && NoShadow(w.keys)
    requires Outcome(w, limits, run, j) == Err(NonceUsed)
    ensures Check(w, run[j].request, run[j].checkedAt, limits).Ok?
    ensures UsedBefore(w, limits, run, j, Check(w, run[j].request, run[j].checkedAt, limits).value)
  {
    ClaimIsUsable(w, run[j].request, run[j].checkedAt, limits);
    hide Check, NonceKey, Genuine, IsUsable, Shadows, CanSend;
    var c := Check(w, run[j].request, run[j].checkedAt, limits).value;
    StoreIsHistory(w, limits, run, delay, j, NonceKey(c.source, c.nonce), run[j].reservedAt);
    var i :| 0 <= i < j && Accepts(w, limits, run, i, NonceKey(c.source, c.nonce));
    var d := Outcome(w, limits, run, i).value;
    ClaimIsUsable(w, run[i].request, run[i].checkedAt, limits);
    if d.source != c.source {
      UsableKeysDisjointExactly(c.source, d.source);
    }
    SameSourceSameNonce(c, d);
  }

  lemma SameSourceSameNonce(c: Claim, d: Claim)
    requires NonceKey(c.source, c.nonce) == NonceKey(d.source, d.nonce) && c.source == d.source
    ensures c.nonce == d.nonce
  {
    hide NonceKey;
    SharedKeyShape(c.source, c.nonce, d.source, d.nonce);
  }

  // Two sources, each with its own token, at the same moment; the first one's reservation blocks the second.
  function ShadowWorld(keys: map<string, string>, first: string, second: string): World {
    World(
      keys,
      (key: string, token: Token) => true,
      (part: string) => if part == "e30" then Some([]) else Some(TokenHeader(if part == "g" then first else second)),
      (date: string) => Some(0))
  }

  function ShadowRun(s: string, t: string): seq<Attempt> {
    [Attempt(SignedRequest(t, "g"), 0, 0), Attempt(SignedRequest(s, "h"), 0, 0)]
  }

  lemma ShadowIsRefused(keys: map<string, string>, limits: Limits, delay: nat, s: string, t: string)
    requires s in keys && t in keys && CanSend(s) && CanSend(t) && Shadows(s, t)
    ensures var w := ShadowWorld(keys, "n", t[|s| + 1..] + ":" + "n");
      OnTime(ShadowRun(s, t), delay) && !RefusesOnlyReuse(w, limits, ShadowRun(s, t))
  {
    hide Check, ShadowWorld, SignedRequest, TokenHeader, NonceKey, IsUsable, CanSend;
    var m := t[|s| + 1..] + ":" + "n";
    var w, run := ShadowWorld(keys, "n", m), ShadowRun(s, t);
    ShadowedIsUsable(s, t);
    ExtensionSharesKey(s, t, "n");
    ShadowPasses(keys, limits, t, "g", "n", m);
    ShadowPasses(keys, limits, s, "h", "n", m);
    assert StoreAfter(w, limits, run, 0) == map[];
    assert Outcome(w, limits, run, 0) == Ok(Claim(t, "g", 0, "n"));
    assert StoreAfter(w, limits, run, 1) == map[NonceKey(t, "n") := limits.ttl];
    assert Outcome(w, limits, run, 1) == Err(NonceUsed);
    assert !UsedBefore(w, limits, run, 1, Claim(s, "h", 0, m));
  }

  lemma ShadowPasses(
    keys: map<string, string>, limits: Limits, source: string, part: string, first: string, second: string)
    requires source in keys && CanSend(source) && (part == "g" || part == "h")
    requires IsUsable(first) && IsUsable(second)
    ensures Check(ShadowWorld(keys, first, second), SignedRequest(source, part), 0, limits)
         == Ok(Claim(source, part, 0, if part == "g" then first else second))
  {
    hide Check, TokenHeader, Text.Trim;
    var w := ShadowWorld(keys, first, second);
    assert part != "e30";
    SignedPasses(w, source, part, if part == "g" then first else second, 0, 0, limits);
  }

  /**
   Whatever the tokens and requests, a nonce is refused only for reuse by its own source in every run, exactly
   when no registered source, followed by a colon, begins another within the length of a nonce.
   */
  lemma FirstUseExactly(keys: map<string, string>, limits: Limits, delay: nat)
    ensures (forall w: World, run: seq<Attempt> | w.keys == keys && OnTime(run, delay) ::
               RefusesOnlyReuse(w, limits, run))
       <==> NoShadow(keys)
  {
    hide Outcome, Check, OnTime, ShadowRun, Shadows, CanSend, UsedBefore;
    if NoShadow(keys) {
      forall w: World, run: seq<Attempt> | w.keys == keys && OnTime(run, delay)
        ensures RefusesOnlyReuse(w, limits, run)
      {
        forall j | 0 <= j < |run| && Outcome(w, limits, run, j) == Err(NonceUsed)
          ensures Check(w, run[j].request, run[j].checkedAt, limits).Ok?
          ensures UsedBefore(w, limits, run, j, Check(w, run[j].request, run[j].checkedAt, limits).value)
        {
          OnlyReuseIsRefused(w, limits, run, delay, j);
        }
      }
    } else {
      var s, t :| s in keys && t in keys && CanSend(s) && CanSend(t) && Shadows(s, t);
      ShadowIsRefusedIn(keys, limits, delay, s, t);
    }
  }

  lemma ShadowIsRefusedIn(keys: map<string, string>, limits: Limits, delay: nat, s: string, t: string)
    requires s in keys && t in keys && CanSend(s) && CanSend(t) && Shadows(s, t)
    ensures exists w: World, run: seq<Attempt> ::
              w.keys == keys && OnTime(run, delay) && !RefusesOnlyReuse(w, limits, run)
  {
    hide RefusesOnlyReuse, OnTime, ShadowRun, Shadows, CanSend;
    ShadowIsRefused(keys, limits, delay, s, t);
    assert s + ":" <= t by { ShadowIsPrefix(s, t); }
    assert ShadowWorld(keys, "n", t[|s| + 1..] + ":" + "n").keys == keys;
  }

  lemma ShadowIsPrefix(s: string, t: string)
    requires Shadows(s, t)
    ensures s + ":" <= t
  {}
}
