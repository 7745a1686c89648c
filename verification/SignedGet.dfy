/** Signed GET requests of packages/apps/web-outbound/component/access.guard.ts: the checks and the one-shot nonce. */
module SignedGet {
  import opened Json
  import opened Results
  import Text

  // A header is absent, repeated, or has one value.
  datatype Header = Absent | Repeated | One(text: string)

  datatype Request = Request(source: Header, date: Header, authorization: Header, uri: string, verb: string)

  datatype Token = Token(header: string, body: string, signature: string)

  datatype Rejection =
    | MissingHeader(name: string) | RepeatedHeader(name: string) | EmptyHeader(name: string)
    | UnknownSource | NotCompactToken | HeaderNotObject | PayloadNotObject
    | WrongAlgorithm | WrongType | WrongSignature | PayloadNotEmpty
    | WrongUri | WrongMethod | WrongDate | NotHttpDate | StaleDate | MalformedNonce | NonceUsed

  /**
   What the guard asks of its surroundings: trusted keys, signature verification, decoding of a token
   part to a JSON object, and the timestamp of an HTTP-date written in its canonical form.
   */
  datatype World = World(
    keys: map<string, string>,
    verify: (string, Token) -> bool,
    decode: string -> Option<seq<Member>>,
    timestamp: string -> Option<int>)

  // `SIGNED_LOOKUP_FRESHNESS_MS` and `NONCE_TTL_MS`.
  datatype Limits = Limits(window: nat, ttl: nat)

  const LIMITS := Limits(5 * 60 * 1000, 10 * 60 * 1000)

  const MAX_NONCE := 128

  /** What the checks establish before the nonce is reserved. */
  datatype Claim = Claim(source: string, header: string, date: int, nonce: string)

  function RequireHeader(h: Header, name: string): (r: Result<string, Rejection>)
    ensures r.Ok? <==> h.One? && Text.Trim(h.text) != ""
    ensures r.Ok? ==> r.value == Text.Trim(h.text) && Text.Trim(r.value) == r.value
    ensures r.Err? ==>
              match h
              case Absent => r.error == MissingHeader(name)
              case Repeated => r.error == RepeatedHeader(name)
              case One(_) => r.error == EmptyHeader(name)
  {
    match h
    case Absent => Err(MissingHeader(name))
    case Repeated => Err(RepeatedHeader(name))
    case One(text) =>
      Text.TrimIdempotent(text);
      if Text.Trim(text) == "" then Err(EmptyHeader(name)) else Ok(Text.Trim(text))
  }

  predicate IsBlank(c: char) {
    c == ' ' || c == '\t'
  }

  function DropBlanks(s: string): string {
    if s != "" && IsBlank(s[0]) then DropBlanks(s[1..]) else s
  }

  /** `authorization.replace(/^Bearer[ \t]+/i, '')` */
  function StripBearer(s: string): string {
    var bearer := "bearer";
    if |s| > 6 && (forall i | 0 <= i < 6 :: Text.ToLower(s[i]) == bearer[i]) && IsBlank(s[6]) then DropBlanks(s[6..])
    else s
  }

  /** A compact token: three parts without dots, the first two not empty, joined by dots. */
  predicate IsCompact(token: Token, text: string) {
    && Text.Join([token.header, token.body, token.signature], '.') == text
    && token.header != "" && token.body != ""
    && '.' !in token.header && '.' !in token.body && '.' !in token.signature
  }

  // The parts are the pieces of the text.
  lemma CompactParts(text: string, token: Token)
    ensures IsCompact(token, text) <==>
              && Text.Split(text, '.') == [token.header, token.body, token.signature]
              && token.header != "" && token.body != ""
  {
    hide Text.Join, Text.Split;
    Text.SplitPiecesPlain(text, '.');
    Text.JoinSplit(text, '.');
    var parts := [token.header, token.body, token.signature];
    if IsCompact(token, text) {
      Text.SplitJoin(parts, '.');
    }
    if Text.Split(text, '.') == parts {
      assert parts[0] == token.header && parts[1] == token.body && parts[2] == token.signature;
    }
  }

  lemma CompactTexts(text: string)
    ensures forall token :: IsCompact(token, text) <==>
              && Text.Split(text, '.') == [token.header, token.body, token.signature]
              && token.header != "" && token.body != ""
  {
    hide *;
    forall token ensures IsCompact(token, text) <==>
        && Text.Split(text, '.') == [token.header, token.body, token.signature]
        && token.header != "" && token.body != ""
    {
      CompactParts(text, token);
    }
  }

  function ToToken(authorization: string): (r: Result<Token, Rejection>)
    ensures r.Ok? ==> IsCompact(r.value, authorization)
    ensures r.Err? ==> r.error == NotCompactToken && forall token :: !IsCompact(token, authorization)
  {
    var parts := Text.Split(authorization, '.');
    CompactTexts(authorization);
    if |parts| != 3 || parts[0] == "" || parts[1] == "" then Err(NotCompactToken)
    else
      assert parts == [parts[0], parts[1], parts[2]];
      Ok(Token(parts[0], parts[1], parts[2]))
  }

  /** `object[key]` */
  function Lookup(ms: seq<Member>, key: string): Option<Json> {
    if ms == [] then None else if ms[0].key == key then Some(ms[0].value) else Lookup(ms[1..], key)
  }

  function NonceKey(source: string, nonce: string): string {
    "nonce:" + source + ":" + nonce
  }

  predicate IsNonce(v: Option<Json>) {
    v.Some? && v.value.Str? && Text.Trim(v.value.text) != "" && |v.value.text| <= MAX_NONCE
  }

  predicate IsFresh(timestamp: int, now: int, limits: Limits) {
    now - timestamp <= limits.window && timestamp - now <= limits.window
  }

  // ---- the checks, first failure first ----------------------------------------------------------

  function CheckDate(w: World, claim: Claim, nonce: Option<Json>, date: string, now: int, limits: Limits)
    : Result<Claim, Rejection>
  {
    var timestamp := w.timestamp(date);
    if timestamp.None? then Err(NotHttpDate)
    else if !IsFresh(timestamp.value, now, limits) then Err(StaleDate)
    else if !IsNonce(nonce) then Err(MalformedNonce)
    else Ok(claim.(date := timestamp.value, nonce := nonce.value.text))
  }

  function CheckToken(
    w: World, request: Request, source: string, date: string, token: Token, now: int, limits: Limits)
    : Result<Claim, Rejection>
    requires source in w.keys
  {
    var header := w.decode(token.header);
    var payload := w.decode(token.body);
    if header.None? then Err(HeaderNotObject)
    else if payload.None? then Err(PayloadNotObject)
    else if Lookup(header.value, "alg") != Some(Str("RS256")) then Err(WrongAlgorithm)
    else if Lookup(header.value, "typ") != Some(Str("JWT")) then Err(WrongType)
    else if !w.verify(w.keys[source], token) then Err(WrongSignature)
    else if token.body != "e30" || payload.value != [] then Err(PayloadNotEmpty)
    else if Lookup(header.value, "uri") != Some(Str(request.uri)) then Err(WrongUri)
    else if Lookup(header.value, "method") != Some(Str(request.verb)) then Err(WrongMethod)
    else if Lookup(header.value, "date") != Some(Str(date)) then Err(WrongDate)
    else CheckDate(w, Claim(source, token.header, 0, ""), Lookup(header.value, "nonce"), date, now, limits)
  }

  /** Everything `verifySignedGet` checks before it reserves the nonce. */
  function Check(w: World, request: Request, now: int, limits: Limits): Result<Claim, Rejection> {
    match RequireHeader(request.source, "fspiop-source")
    case Err(e) => Err(e)
    case Ok(source) =>
      if source !in w.keys then Err(UnknownSource) else
      match RequireHeader(request.date, "date")
      case Err(e) => Err(e)
      case Ok(date) =>
        match RequireHeader(request.authorization, "authorization")
        case Err(e) => Err(e)
        case Ok(authorization) =>
          match ToToken(Text.Trim(StripBearer(authorization)))
          case Err(e) => Err(e)
          case Ok(token) => CheckToken(w, request, source, date, token, now, limits)
  }

  // ---- the guard ---------------------------------------------------------------------------------

  // A reserved key lives while the clock has not passed its expiry.
  type NonceStore = map<string, int>

  predicate Alive(store: NonceStore, key: string, now: int) {
    key in store && now <= store[key]
  }

  class AccessGuard {
    const world: World
    const limits: Limits
    var store: NonceStore

    constructor (world: World, limits: Limits)
      ensures this.world == world && this.limits == limits && store == map[]
    {
      this.world := world;
      this.limits := limits;
      store := map[];
    }

    /** `SET key NX PX ttl` */
    method Reserve(key: string, ttl: nat, now: int) returns (reserved: bool)
      modifies this
      ensures reserved <==> !old(Alive(store, key, now))
      ensures store == if reserved then old(store)[key := now + ttl] else old(store)
    {
      reserved := !Alive(store, key, now);
      if reserved {
        store := store[key := now + ttl];
      }
    }

    method ValidateFreshDate(date: string, now: int) returns (r: Result<int, Rejection>)
      ensures r.Ok? <==> world.timestamp(date).Some? && IsFresh(world.timestamp(date).value, now, limits)
      ensures r.Ok? ==> r.value == world.timestamp(date).value
      ensures r.Err? ==> r.error == if world.timestamp(date).None? then NotHttpDate else StaleDate
    {
      var timestamp := world.timestamp(date);
      if timestamp.None? {
        return Err(NotHttpDate);
      }
      var elapsed := now - timestamp.value;
      var distance := if elapsed < 0 then -elapsed else elapsed;
      if distance > limits.window {
        return Err(StaleDate);
      }
      return Ok(timestamp.value);
    }

    /**
     `verifySignedGet`: the date is checked at `checkedAt`, the nonce reserved at `reservedAt`. Only a
     request that passes every check touches the store.
     */
    method VerifySignedGet(request: Request, checkedAt: int, reservedAt: int) returns (r: Result<Claim, Rejection>)
      requires checkedAt <= reservedAt
      modifies this
      ensures (r, store) == Serve(world, limits, old(store), Attempt(request, checkedAt, reservedAt))
    {
      hide Text.Trim, StripBearer;
      var source := RequireHeader(request.source, "fspiop-source");
      if source.Err? { return Err(source.error); }
      if source.value !in world.keys { return Err(UnknownSource); }
      var date := RequireHeader(request.date, "date");
      if date.Err? { return Err(date.error); }
      var authorization := RequireHeader(request.authorization, "authorization");
      if authorization.Err? { return Err(authorization.error); }
      var token := ToToken(Text.Trim(StripBearer(authorization.value)));
      if token.Err? { return Err(token.error); }
      var header := world.decode(token.value.header);
      if header.None? { return Err(HeaderNotObject); }
      var payload := world.decode(token.value.body);
      if payload.None? { return Err(PayloadNotObject); }

      if Lookup(header.value, "alg") != Some(Str("RS256")) { return Err(WrongAlgorithm); }
      if Lookup(header.value, "typ") != Some(Str("JWT")) { return Err(WrongType); }
      if !world.verify(world.keys[source.value], token.value) { return Err(WrongSignature); }
      if token.value.body != "e30" || payload.value != [] { return Err(PayloadNotEmpty); }
      if Lookup(header.value, "uri") != Some(Str(request.uri)) { return Err(WrongUri); }
      if Lookup(header.value, "method") != Some(Str(request.verb)) { return Err(WrongMethod); }
      if Lookup(header.value, "date") != Some(Str(date.value)) { return Err(WrongDate); }
      var timestamp := ValidateFreshDate(date.value, checkedAt);
      if timestamp.Err? { return Err(timestamp.error); }
      var nonce := Lookup(header.value, "nonce");
      if !IsNonce(nonce) { return Err(MalformedNonce); }
      var reserved := Reserve(NonceKey(source.value, nonce.value.text), limits.ttl, reservedAt);
      if !reserved { return Err(NonceUsed); }
      return Ok(Claim(source.value, token.value.header, timestamp.value, nonce.value.text));
    }
  }

  // ---- one attempt, and runs of attempts in the order the store serves them -------------------------

  datatype Attempt = Attempt(request: Request, checkedAt: int, reservedAt: int)

  function Serve(w: World, limits: Limits, store: NonceStore, a: Attempt): (Result<Claim, Rejection>, NonceStore) {
    match Check(w, a.request, a.checkedAt, limits)
    case Err(e) => (Err(e), store)
    case Ok(claim) =>
      var key := NonceKey(claim.source, claim.nonce);
      if Alive(store, key, a.reservedAt) then (Err(NonceUsed), store)
      else (Ok(claim), store[key := a.reservedAt + limits.ttl])
  }

  /** The store after the first n attempts of a run on an empty store. */
  function StoreAfter(w: World, limits: Limits, run: seq<Attempt>, n: nat): NonceStore
    requires n <= |run|
  {
    if n == 0 then map[] else Serve(w, limits, StoreAfter(w, limits, run, n - 1), run[n - 1]).1
  }

  function Outcome(w: World, limits: Limits, run: seq<Attempt>, i: nat): Result<Claim, Rejection>
    requires i < |run|
  {
    Serve(w, limits, StoreAfter(w, limits, run, i), run[i]).0
  }

  /** The store's clock does not go back, and at most `delay` passes between the date check and the reservation. */
  predicate OnTime(run: seq<Attempt>, delay: nat) {
    && (forall i | 0 <= i < |run| :: run[i].checkedAt <= run[i].reservedAt <= run[i].checkedAt + delay)
    && forall i, j | 0 <= i <= j < |run| :: run[i].reservedAt <= run[j].reservedAt
  }

  // ---- what a passed check means -------------------------------------------------------------------

  /** The request carries a compact token that its source signed for this request and this date. */
  predicate Genuine(w: World, request: Request, token: Token, claim: Claim) {
    && request.source.One? && request.date.One? && request.authorization.One?
    && Text.Trim(request.authorization.text) != ""
    && claim.source == Text.Trim(request.source.text) != "" && claim.source in w.keys
    && w.verify(w.keys[claim.source], token)
    && Text.Join([token.header, token.body, token.signature], '.')
    == Text.Trim(StripBearer(Text.Trim(request.authorization.text)))
    && '.' !in token.header && '.' !in token.signature && token.header != "" && token.body == "e30"
    && claim.header == token.header && Text.Trim(request.date.text) != ""
    && w.timestamp(Text.Trim(request.date.text)) == Some(claim.date)
    && w.decode(token.body) == Some([])
    && Says(w, token, "alg", "RS256") && Says(w, token, "typ", "JWT")
    && Says(w, token, "uri", request.uri) && Says(w, token, "method", request.verb)
    && Says(w, token, "date", Text.Trim(request.date.text)) && Says(w, token, "nonce", claim.nonce)
    && Text.Trim(claim.nonce) != "" && |claim.nonce| <= MAX_NONCE
  }

  // The token's protected header has this string under this name.
  predicate Says(w: World, token: Token, name: string, text: string) {
    w.decode(token.header).Some? && Lookup(w.decode(token.header).value, name) == Some(Str(text))
  }
}
