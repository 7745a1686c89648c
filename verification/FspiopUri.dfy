/** The signed resource path of a request: packages/shared/fspiop/component/fspiop-uri.ts. */
module FspiopUri {
  import opened Results
  import opened Text

  const RESOURCES: seq<string> := [
    "participants", "parties", "quotes", "transfers", "transactionRequests", "authorizations",
    "bulkQuotes", "bulkTransfers", "fxQuotes", "fxTransfers", "services", "transactions"]

  predicate IsResource(name: string) {
    name in RESOURCES
  }

  datatype UriError = EmptyUrl | UnknownResource

  /** `toPath`: scheme, authority, query and fragment stripped; what is left starts with a slash. */
  function ToPath(requestUrl: string): (r: string)
    ensures r != "" && r[0] == '/'
  {
    var withoutFragment := Split(requestUrl, '#')[0];
    var withoutQuery := Split(withoutFragment, '?')[0];
    var scheme := IndexOf(withoutQuery, "://");
    if scheme < 0 then
      if StartsWith(withoutQuery, "/") then withoutQuery else "/" + withoutQuery
    else
      var afterScheme := withoutQuery[scheme + 3..];
      var start := IndexOf(afterScheme, "/");
      if start < 0 then "/" else
        assert afterScheme[start..start + 1] == "/";
        afterScheme[start..]
  }

  // The pattern matches at the start of s: a slash, a resource name, and a slash or the end.
  predicate MatchesHere(s: string) {
    && s != "" && s[0] == '/'
    && exists r :: r in RESOURCES && r <= s[1..] && (|s| == 1 + |r| || s[1 + |r|] == '/')
  }

  /** The text from the pattern's leftmost match on. */
  function FirstMatch(s: string): (r: Option<string>)
    ensures r.Some? ==> |r.value| <= |s| && r.value == s[|s| - |r.value|..] && MatchesHere(r.value)
  {
    if s == "" then None else if MatchesHere(s) then Some(s) else FirstMatch(s[1..])
  }

  function Extract(requestUrl: string): Result<string, UriError> {
    if Trim(requestUrl) == "" then Err(EmptyUrl)
    else
      match FirstMatch(ToPath(requestUrl))
      case None => Err(UnknownResource)
      case Some(path) => Ok(path)
  }

  // ---- the same on path segments -------------------------------------------------------------------------

  /** The segments from the first resource name on. */
  function FromResource(segments: seq<string>): (r: Option<seq<string>>)
    ensures r.Some? ==> r.value != []
  {
    if segments == [] then None
    else if IsResource(segments[0]) then Some(segments)
    else FromResource(segments[1..])
  }

  predicate NoResource(segments: seq<string>) {
    forall i | 0 <= i < |segments| :: !IsResource(segments[i])
  }

  // Prepending a segment that is no resource name.
  lemma NoResourceStep(head: string, rest: seq<string>)
    ensures NoResource([head] + rest) <==> !IsResource(head) && NoResource(rest)
  {
    hide IsResource;
    var all := [head] + rest;
    assert all[0] == head;
    forall i | 0 <= i < |rest| ensures NoResource(all) ==> !IsResource(rest[i]) {
      assert all[i + 1] == rest[i];
    }
  }

  /** It is the suffix that a resource name leads and none precedes. */
  lemma {:induction false} FromResourceMeaning(segments: seq<string>)
    ensures FromResource(segments).None? <==> NoResource(segments)
    ensures FromResource(segments).Some? ==>
              var found := FromResource(segments).value;
              && 0 < |found| <= |segments| && IsResource(found[0])
              && found == segments[|segments| - |found|..] && NoResource(segments[..|segments| - |found|])
  {
    hide IsResource;
    if segments != [] && !IsResource(segments[0]) {
      var head, rest := segments[0], segments[1..];
      FromResourceMeaning(rest);
      assert segments == [head] + rest;
      NoResourceStep(head, rest);
      if FromResource(rest).Some? {
        var n := |rest| - |FromResource(rest).value|;
        NoResourceStep(head, rest[..n]);
        assert segments[..n + 1] == [head] + rest[..n];
      }
    }
  }

  function Segments(path: string): seq<string>
    requires path != ""
  {
    Split(path[1..], '/')
  }

  lemma ResourcesArePlain()
    ensures forall r | r in RESOURCES :: '/' !in r && r != ""
  {}

  lemma MatchIsResourceSegment(t: string)
    ensures MatchesHere("/" + t) <==> IsResource(Split(t, '/')[0])
  {
    hide RESOURCES, Split;
    ResourcesArePlain();
    var s := "/" + t;
    assert s[1..] == t;
    var rest := SplitHead(t, '/');
    var head := Split(t, '/')[0];
    if IsResource(head) {
      assert head <= s[1..] && (|s| == 1 + |head| || s[1 + |head|] == '/');
    }
    if MatchesHere(s) {
      var r :| r in RESOURCES && r <= s[1..] && (|s| == 1 + |r| || s[1 + |r|] == '/');
      assert t == r + t[|r|..];
      SplitFirst(r, '/', t[|r|..]);
    }
  }

  // Characters before the next slash cannot start a match.
  lemma {:induction false} SkipPlain(p: string, rest: string)
    requires '/' !in p
    ensures FirstMatch(p + rest) == FirstMatch(rest)
  {
    hide MatchesHere;
    if p == "" {
      assert p + rest == rest;
    } else {
      assert (p + rest)[0] != '/';
      NoMatchWithoutSlash(p + rest);
      assert (p + rest)[1..] == p[1..] + rest;
      SkipPlain(p[1..], rest);
    }
  }

  lemma NoMatchWithoutSlash(s: string)
    requires s != "" && s[0] != '/'
    ensures !MatchesHere(s)
  {}

  /** The leftmost match is the first segment that is a resource name. */
  lemma {:induction false} FirstMatchIsFirstResource(t: string)
    ensures FirstMatch("/" + t) == match FromResource(Split(t, '/'))
                                   case None => None
                                   case Some(segments) => Some("/" + Join(segments, '/'))
    decreases |t|
  {
    hide IsResource, Split, MatchesHere, Join;
    MatchIsResourceSegment(t);
    JoinSplit(t, '/');
    var head := Split(t, '/')[0];
    if !IsResource(head) {
      var rest := SplitHead(t, '/');
      assert ("/" + t)[1..] == head + rest;
      SkipPlain(head, rest);
      if rest != "" {
        FirstMatchIsFirstResource(rest[1..]);
        assert "/" + rest[1..] == rest;
      }
    }
  }

  /** `extract` in terms of the path's segments. */
  lemma ExtractMeaning(url: string)
    ensures Extract(url) ==
            if Trim(url) == "" then Err(EmptyUrl)
            else match FromResource(Segments(ToPath(url)))
                 case None => Err(UnknownResource)
                 case Some(segments) => Ok("/" + Join(segments, '/'))
  {
    hide IsResource, Split, MatchesHere, Join, ToPath, Trim;
    var path := ToPath(url);
    assert path == "/" + path[1..];
    FirstMatchIsFirstResource(path[1..]);
  }
}
