/** Signed resource paths do not depend on how a peer's base URL is configured. */
module UriTheorems {
  import opened FspiopUri
  import opened FspiopUrls
  import opened Results
  import opened Text

  predicate IsClean(s: string) {
    '?' !in s && '#' !in s
  }

  // Absolute: a scheme separator; and neither query nor fragment.
  predicate IsAbsolute(url: string) {
    IsClean(url) && IndexOf(url, "://") >= 0
  }

  // What follows the scheme separator: host, port and path.
  function AfterScheme(url: string): string
    requires IsAbsolute(url)
  {
    url[IndexOf(url, "://") + 3..]
  }

  /** A base with a host, and no resource name among its own path segments. */
  predicate IsGoodBase(base: string)
    requires IsAbsolute(base)
  {
    AfterScheme(base) != "" && FromResource(Segments(ToPath(base))).None?
  }

  // ---- paths of clean URLs ---------------------------------------------------------------------------------

  lemma CleanParts(url: string)
    requires IsClean(url)
    ensures Split(Split(url, '#')[0], '?')[0] == url
  {
    SplitPlain(url, '#');
    SplitPlain(url, '?');
  }

  function PathOf(afterScheme: string): string {
    var start := IndexOf(afterScheme, "/");
    if start < 0 then "/" else afterScheme[start..]
  }

  lemma AbsolutePath(url: string)
    requires IsAbsolute(url)
    ensures ToPath(url) == PathOf(AfterScheme(url))
  {
    hide Split, IndexOf;
    CleanParts(url);
  }

  // Appending to a text keeps its leftmost occurrence.
  lemma IndexOfAppend(s: string, p: string, t: string)
    requires IndexOf(s, p) >= 0
    ensures IndexOf(s + t, p) == IndexOf(s, p)
  {
    hide IndexOf;
    var i := IndexOf(s, p);
    IndexOfIsLeast(s, p);
    assert (s + t)[i..i + |p|] == s[i..i + |p|];
    forall j | 0 <= j < i ensures !OccursAt(s + t, p, j) {
      assert (s + t)[j..j + |p|] == s[j..j + |p|];
      assert !OccursAt(s, p, j);
    }
    IndexOfAt(s + t, p, i);
  }

  lemma AbsoluteAppend(base: string, t: string)
    requires IsAbsolute(base) && IsClean(t)
    ensures IsAbsolute(base + t) && AfterScheme(base + t) == AfterScheme(base) + t
  {
    hide IndexOf;
    IndexOfAppend(base, "://", t);
  }

  lemma HasSlash(s: string)
    ensures IndexOf(s, "/") >= 0 <==> '/' in s
    ensures IndexOf(s, "/") >= 0 ==> '/' !in s[..IndexOf(s, "/")]
  {
    hide IndexOf;
    IndexOfIsLeast(s, "/");
    var i := IndexOf(s, "/");
    if i >= 0 {
      assert s[i..i + 1] == "/";
      assert s[i] == '/';
      forall j | 0 <= j < i ensures s[j] != '/' {
        assert !OccursAt(s, "/", j);
        assert s[j..j + 1] == [s[j]];
      }
    } else {
      forall j | 0 <= j < |s| ensures s[j] != '/' {
        assert !OccursAt(s, "/", j);
        assert s[j..j + 1] == [s[j]];
      }
    }
  }

  lemma FirstSlash(host: string, rest: string)
    requires '/' !in host && (rest == "" || rest[0] == '/')
    ensures PathOf(host + rest) == if rest == "" then "/" else rest
  {
    hide IndexOf;
    var s := host + rest;
    HasSlash(s);
    if rest != "" {
      assert s[|host|..|host| + 1] == "/";
      forall j | 0 <= j < |host| ensures !OccursAt(s, "/", j) {
        assert s[j..j + 1] == [host[j]];
      }
      IndexOfAt(s, "/", |host|);
    }
  }

  // Host and path of what follows the scheme.
  lemma HostAndPath(after: string) returns (host: string, rest: string)
    ensures after == host + rest && '/' !in host && (rest == "" || rest[0] == '/')
    ensures rest == "" <==> '/' !in after
  {
    hide IndexOf;
    HasSlash(after);
    var i := IndexOf(after, "/");
    if i < 0 {
      host, rest := after, "";
    } else {
      assert after[i..i + 1] == "/" && after[i] == '/';
      host, rest := after[..i], after[i..];
    }
  }

  // ---- segments ---------------------------------------------------------------------------------------------

  lemma {:induction false} FromResourceAppend(a: seq<string>, b: seq<string>)
    ensures FromResource(a).None? ==> FromResource(a + b) == FromResource(b)
    ensures FromResource(a).Some? ==> FromResource(a + b) == Some(FromResource(a).value + b)
  {
    hide IsResource;
    if a == [] {
      assert a + b == b;
    } else {
      FromResourceAppend(a[1..], b);
      assert (a + b)[1..] == a[1..] + b;
    }
  }

  lemma SplitAfterSlash(s: string, t: string)
    requires s == "" || s[|s| - 1] == '/'
    ensures var pieces := Split(s, '/');
      pieces[|pieces| - 1] == "" && Split(s + t, '/') == pieces[..|pieces| - 1] + Split(t, '/')
  {
    if s == "" {
      assert s + t == t;
    } else {
      var q := s[..|s| - 1];
      assert s == q + ['/'] + "" && s + t == q + ['/'] + t;
      SplitSeparator(q, '/', "");
      SplitSeparator(q, '/', t);
      assert Split("", '/') == [""];
    }
  }

  // The path of a base with a text appended.
  lemma PathWith(base: string, host: string, rest: string, t: string)
    requires IsAbsolute(base) && IsClean(t) && AfterScheme(base) == host + rest && '/' !in host
    requires rest + t == "" || (rest + t)[0] == '/'
    ensures IsAbsolute(base + t) && ToPath(base + t) == if rest + t == "" then "/" else rest + t
  {
    hide ToPath, IsAbsolute, AfterScheme, PathOf, IsClean;
    AbsoluteAppend(base, t);
    AbsolutePath(base + t);
    assert AfterScheme(base + t) == host + (rest + t);
    FirstSlash(host, rest + t);
  }

  lemma LastChar(base: string)
    requires IsAbsolute(base) && AfterScheme(base) != ""
    ensures AfterScheme(base)[|AfterScheme(base)| - 1] == '/' <==> EndsWith(base, "/")
  {
    hide IndexOf;
    var after := AfterScheme(base);
    assert after[|after| - 1] == base[|base| - 1];
    assert base[|base| - 1..] == [base[|base| - 1]];
  }

  // The path of a base that ends with a slash, and of a URL built on it.
  lemma SlashedPath(base: string, uri: string)
    requires IsAbsolute(base) && IsClean(uri) && AfterScheme(base) != "" && EndsWith(base, "/")
    ensures IsAbsolute(base + uri)
    ensures var own := Segments(ToPath(base));
      own[|own| - 1] == "" && Segments(ToPath(base + uri)) == own[..|own| - 1] + Split(uri, '/')
  {
    hide Split, ToPath, AfterScheme, IsAbsolute, EndsWith;
    var after := AfterScheme(base);
    LastChar(base);
    var host, rest := HostAndPath(after);
    assert '/' in after;
    PathWith(base, host, rest, "");
    PathWith(base, host, rest, uri);
    assert base + "" == base && rest + "" == rest;
    assert (rest + uri)[1..] == rest[1..] + uri;
    SplitAfterSlash(rest[1..], uri);
  }

  // A missing final slash makes no difference to the resource names of a base.
  lemma AddSlash(base: string)
    requires IsAbsolute(base) && AfterScheme(base) != "" && !EndsWith(base, "/")
    ensures IsAbsolute(base + "/") && AfterScheme(base + "/") != ""
    ensures NoResource(Segments(ToPath(base + "/"))) <==> NoResource(Segments(ToPath(base)))
  {
    hide Split, IsResource, ToPath, IndexOf, EndsWith, AfterScheme;
    var host, rest := HostAndPath(AfterScheme(base));
    AbsoluteAppend(base, "/");
    PathWith(base, host, rest, "");
    PathWith(base, host, rest, "/");
    assert base + "" == base && rest + "" == rest;
    if rest != "" {
      assert (rest + "/")[1..] == rest[1..] + ['/'] + "";
      SplitSeparator(rest[1..], '/', "");
      SplitPlain("", '/');
      TrailingEmpty(Split(rest[1..], '/'));
    } else {
      assert rest + "/" == "/";
    }
  }

  lemma TrailingEmpty(a: seq<string>)
    ensures NoResource(a + [""]) <==> NoResource(a)
  {
    hide IsResource;
    EmptyIsNoResource();
    assert forall i | 0 <= i < |a| :: (a + [""])[i] == a[i];
  }

  lemma EmptyIsNoResource()
    ensures !IsResource("")
  {}

  // ---- building on a base, and extracting again ---------------------------------------------------------------

  lemma AbsoluteIsNotBlank(url: string)
    requires IsAbsolute(url)
    ensures Trim(url) != ""
  {
    hide IndexOf, Trim;
    var i := IndexOf(url, "://");
    assert url[i..i + 3] == "://";
    assert url[i] == "://"[0];
    TrimKeeps(url, i);
  }

  lemma ExtractNotLonger(url: string)
    ensures Extract(url).Ok? ==> |Extract(url).value| <= |ToPath(url)|
  {}

  lemma JoinIsLonger(a: seq<string>, uri: string)
    requires a != []
    ensures |Join(a + Split(uri, '/'), '/')| > |uri|
  {
    hide Join, Split;
    JoinAppend(a, Split(uri, '/'), '/');
    JoinSplit(uri, '/');
  }

  lemma ExtractOnSlashed(base: string, uri: string)
    requires IsAbsolute(base) && IsClean(uri) && IsResource(Split(uri, '/')[0])
    requires AfterScheme(base) != "" && EndsWith(base, "/")
    ensures Extract(base + uri) == Ok("/" + uri) <==> NoResource(Segments(ToPath(base)))
  {
    hide IndexOf, Split, IsResource, Extract, Join, ToPath, Trim;
    SlashedPath(base, uri);
    ExtractMeaning(base + uri);
    AbsoluteIsNotBlank(base + uri);
    var own := Segments(ToPath(base));
    var before := own[..|own| - 1];
    TrailingEmpty(before);
    assert own == before + [""];
    FromResourceAppend(before, Split(uri, '/'));
    FromResourceMeaning(before);
    JoinSplit(uri, '/');
    if !NoResource(before) {
      var found := FromResource(before).value;
      JoinIsLonger(found, uri);
      assert Extract(base + uri) == Ok("/" + Join(found + Split(uri, '/'), '/'));
      assert |"/" + Join(found + Split(uri, '/'), '/')| > |"/" + uri|;
    }
  }

  // Without a host the built segments are taken for one.
  lemma ExtractWithoutHost(base: string, uri: string)
    requires IsAbsolute(base) && IsClean(uri) && IsResource(Split(uri, '/')[0]) && AfterScheme(base) == ""
    ensures Extract(WithBaseUrl(base, uri)) != Ok("/" + uri)
  {
    hide IndexOf, Split, RESOURCES, Extract;
    ResourcesArePlain();
    var i := IndexOf(base, "://");
    assert base[i..i + 3] == "://";
    assert EndsWith(base, "/") by { assert base[|base| - 1..] == "://"[2..]; }
    assert WithBaseUrl(base, uri) == base + uri;
    AbsoluteAppend(base, uri);
    AbsolutePath(base + uri);
    assert AfterScheme(base + uri) == uri;
    var host, rest := HostAndPath(uri);
    FirstSlash(host, rest);
    var tail := SplitHead(uri, '/');
    assert uri[0] == Split(uri, '/')[0][0];
    ExtractNotLonger(base + uri);
  }

  /**
   A resource URI built on an absolute base is extracted unchanged exactly when the base has a host and no
   resource name among its path segments.
   */
  lemma BuiltUriIsExtracted(base: string, uri: string)
    requires IsAbsolute(base) && IsClean(uri) && IsResource(Split(uri, '/')[0])
    ensures Extract(WithBaseUrl(base, uri)) == Ok("/" + uri) <==> IsGoodBase(base)
  {
    hide IndexOf, Split, IsResource, Extract, ToPath;
    FromResourceMeaning(Segments(ToPath(base)));
    if AfterScheme(base) == "" {
      ExtractWithoutHost(base, uri);
    } else if EndsWith(base, "/") {
      assert WithBaseUrl(base, uri) == base + uri;
      ExtractOnSlashed(base, uri);
    } else {
      AddSlash(base);
      assert WithBaseUrl(base, uri) == (base + "/") + uri;
      ExtractOnSlashed(base + "/", uri);
    }
  }

  lemma LeadingSegment(name: string, rest: string)
    requires IsResource(name) && (rest == "" || rest[0] == '/')
    ensures IsResource(Split(name + rest, '/')[0])
  {
    hide RESOURCES, Split;
    ResourcesArePlain();
    SplitFirst(name, '/', rest);
  }

  /** Every Parties builder is undone by `extract` on exactly the good bases, whatever the ids. */
  lemma PartiesAreUndone(base: string, idType: string, id: string, subId: Option<string>)
    requires IsAbsolute(base) && IsClean(idType) && IsClean(id) && (subId.Some? ==> IsClean(subId.value))
    ensures var sub := if subId.Some? then "/" + subId.value else "";
      && (Extract(GetParties(base, idType, id, subId)) == Ok("/parties/" + idType + "/" + id + sub)
          <==> IsGoodBase(base))
      && (Extract(PutParties(base, idType, id, subId)) == Ok("/parties/" + idType + "/" + id + sub)
          <==> IsGoodBase(base))
      && (Extract(PutPartiesError(base, idType, id, subId)) == Ok("/parties/" + idType + "/" + id + sub + "/error")
          <==> IsGoodBase(base))
  {
    hide *;
    PartyText(base, idType, id, subId);
    var sub := if subId.Some? then "/" + subId.value else "";
    CleanParty(idType, id, sub);
    PartyUriIsUndone(base, idType, id, sub);
    PartyUriIsUndone(base, idType, id, sub + "/error");
    assert "/parties/" + idType + "/" + id + sub + "/error" == "/parties/" + idType + "/" + id + (sub + "/error");
  }

  lemma CleanParty(idType: string, id: string, sub: string)
    requires IsClean(idType) && IsClean(id) && (sub == "" || IsClean(sub[1..])) && (sub == "" || sub[0] == '/')
    ensures IsClean(sub) && IsClean(sub + "/error")
  {
    if sub != "" { assert sub == "/" + sub[1..]; }
  }

  lemma PartyText(base: string, idType: string, id: string, subId: Option<string>)
    ensures var sub := if subId.Some? then "/" + subId.value else "";
      && (sub == "" || (sub[0] == '/' && subId.Some? && sub[1..] == subId.value))
      && GetParties(base, idType, id, subId) == WithBaseUrl(base, "parties/" + idType + "/" + id + sub)
      && PutParties(base, idType, id, subId) == WithBaseUrl(base, "parties/" + idType + "/" + id + sub)
      && PutPartiesError(base, idType, id, subId)
         == WithBaseUrl(base, "parties/" + idType + "/" + id + (sub + "/error"))
  {
    hide WithBaseUrl;
    var sub := if subId.Some? then "/" + subId.value else "";
    var party := "parties/" + idType + "/" + id;
    assert PartyUri(idType, id, subId) == party + sub;
    assert party + sub + "/error" == party + (sub + "/error");
  }

  lemma PartyUriIsUndone(base: string, idType: string, id: string, sub: string)
    requires IsAbsolute(base) && IsClean(idType) && IsClean(id) && IsClean(sub)
    ensures var path := "/parties/" + idType + "/" + id + sub;
      Extract(WithBaseUrl(base, "parties/" + idType + "/" + id + sub)) == Ok(path) <==> IsGoodBase(base)
  {
    hide IndexOf, Split, Extract, ToPath, IsGoodBase, WithBaseUrl;
    var uri := "parties/" + idType + "/" + id + sub;
    assert IsResource("parties");
    assert uri == "parties" + ("/" + idType + "/" + id + sub);
    LeadingSegment("parties", "/" + idType + "/" + id + sub);
    assert "/" + uri == "/parties/" + idType + "/" + id + sub;
    BuiltUriIsExtracted(base, uri);
  }

  // The three forms of a quote or transfer URI.
  lemma CollectionUris(base: string, name: string, id: string)
    requires IsAbsolute(base) && IsClean(id) && IsClean(name) && IsResource(name)
    ensures Extract(WithBaseUrl(base, name)) == Ok("/" + name) <==> IsGoodBase(base)
    ensures Extract(WithBaseUrl(base, name + "/" + id)) == Ok("/" + name + "/" + id) <==> IsGoodBase(base)
    ensures Extract(WithBaseUrl(base, name + "/" + id + "/error")) == Ok("/" + name + "/" + id + "/error")
       <==> IsGoodBase(base)
  {
    hide IndexOf, Split, Extract, ToPath, IsGoodBase, WithBaseUrl, IsResource;
    LeadingSegment(name, "");
    LeadingSegment(name, "/" + id);
    LeadingSegment(name, "/" + id + "/error");
    assert name + "" == name && name + ("/" + id) == name + "/" + id;
    assert name + ("/" + id + "/error") == name + "/" + id + "/error";
    assert "/" + (name + "/" + id) == "/" + name + "/" + id;
    assert "/" + (name + "/" + id + "/error") == "/" + name + "/" + id + "/error";
    BuiltUriIsExtracted(base, name);
    BuiltUriIsExtracted(base, name + "/" + id);
    BuiltUriIsExtracted(base, name + "/" + id + "/error");
  }

  /** So is every Quotes builder. */
  lemma QuotesAreUndone(base: string, quoteId: string)
    requires IsAbsolute(base) && IsClean(quoteId)
    ensures Extract(GetQuotes(base, quoteId)) == Ok("/quotes/" + quoteId) <==> IsGoodBase(base)
    ensures Extract(PutQuotes(base, quoteId)) == Ok("/quotes/" + quoteId) <==> IsGoodBase(base)
    ensures Extract(PostQuotes(base)) == Ok("/quotes") <==> IsGoodBase(base)
    ensures Extract(PutQuotesError(base, quoteId)) == Ok("/quotes/" + quoteId + "/error") <==> IsGoodBase(base)
  {
    hide IndexOf, Split, Extract, ToPath, IsGoodBase, WithBaseUrl;
    assert IsResource("quotes");
    assert "quotes" + "/" == "quotes/" && "/" + "quotes" == "/quotes" && "/quotes" + "/" == "/quotes/";
    CollectionUris(base, "quotes", quoteId);
  }

  /** And every Transfers builder. */
  lemma TransfersAreUndone(base: string, transferId: string)
    requires IsAbsolute(base) && IsClean(transferId)
    ensures Extract(GetTransfers(base, transferId)) == Ok("/transfers/" + transferId) <==> IsGoodBase(base)
    ensures Extract(PatchTransfers(base, transferId)) == Ok("/transfers/" + transferId) <==> IsGoodBase(base)
    ensures Extract(PutTransfers(base, transferId)) == Ok("/transfers/" + transferId) <==> IsGoodBase(base)
    ensures Extract(PostTransfers(base)) == Ok("/transfers") <==> IsGoodBase(base)
    ensures Extract(PutTransfersError(base, transferId)) == Ok("/transfers/" + transferId + "/error")
       <==> IsGoodBase(base)
  {
    hide IndexOf, Split, Extract, ToPath, IsGoodBase, WithBaseUrl;
    assert IsResource("transfers");
    assert "transfers" + "/" == "transfers/" && "/" + "transfers" == "/transfers";
    assert "/transfers" + "/" == "/transfers/";
    CollectionUris(base, "transfers", transferId);
  }

  lemma HostIsAbsolute()
    ensures IsAbsolute("http://h") && AfterScheme("http://h") == "h"
  {
    hide IndexOf;
    var url := "http://h";
    assert url[4..7] == "://";
    forall j | 0 <= j < 4 ensures !OccursAt(url, "://", j) {
      assert url[j..j + 3][0] == url[j] != ':';
    }
    IndexOfAt(url, "://", 4);
  }

  /** A base that names a resource: its own segment is taken for the start of the resource path. */
  lemma ResourceInBase()
    ensures Extract(GetTransfers("http://h/quotes", "1")) == Ok("/quotes/transfers/1")
    ensures !(Extract(GetTransfers("http://h/quotes", "1")) == Ok("/transfers/1"))
  {
    hide IndexOf, Trim, ToPath, IsAbsolute, AfterScheme, FirstMatch, WithBaseUrl;
    HostIsAbsolute();
    PathWith("http://h", "h", "", "/quotes/transfers/1");
    assert "" + "/quotes/transfers/1" == "/quotes/transfers/1";
    ResourceInBaseUrl();
    AbsoluteIsNotBlank("http://h" + "/quotes/transfers/1");
    ResourceInBaseMatch();
    assert |"/quotes/transfers/1"| != |"/transfers/1"|;
  }

  lemma ResourceInBaseUrl()
    ensures GetTransfers("http://h/quotes", "1") == "http://h" + "/quotes/transfers/1"
  {
    assert "http://h/quotes" + "/" + ("transfers/" + "1") == "http://h" + "/quotes/transfers/1";
  }

  lemma ResourceInBaseMatch()
    ensures FirstMatch("/quotes/transfers/1") == Some("/quotes/transfers/1")
  {
    var path := "/quotes/transfers/1";
    assert "quotes" in RESOURCES && "quotes" <= path[1..] && path[7] == '/';
    assert MatchesHere(path);
  }

  // ---- extracting what was extracted ----------------------------------------------------------------------------

  lemma ToPathIsClean(url: string)
    ensures IsClean(ToPath(url))
  {
    hide IndexOf, Split;
    SplitPiecesPlain(url, '#');
    var rest := SplitHead(url, '#');
    var noFragment := Split(url, '#')[0];
    var tail := SplitHead(noFragment, '?');
    var clean := Split(noFragment, '?')[0];
    assert forall c | c in clean :: c in noFragment;
    assert IsClean(clean);
  }

  /** What `extract` returns: clean, and led by a resource name. */
  lemma ExtractedShape(url: string)
    requires Extract(url).Ok?
    ensures IsClean(Extract(url).value) && MatchesHere(Extract(url).value)
    ensures IsResource(Split(Extract(url).value[1..], '/')[0])
  {
    hide IndexOf, Split, ToPath, MatchesHere, IsResource;
    ToPathIsClean(url);
    var r := Extract(url).value;
    MatchStartsWithSlash(r);
    assert r == "/" + r[1..];
    MatchIsResourceSegment(r[1..]);
  }

  lemma MatchStartsWithSlash(r: string)
    ensures MatchesHere(r) ==> r != "" && r[0] == '/'
  {}

  lemma SchemeShortens(r: string)
    requires IsAbsolute(r)
    ensures |ToPath(r)| < |r|
  {
    hide Split, IndexOf, ToPath;
    AbsolutePath(r);
  }

  /** `extract` leaves its own result alone exactly when that contains no scheme separator. */
  lemma ExtractIdempotentExactly(url: string)
    requires Extract(url).Ok?
    ensures Extract(Extract(url).value) == Extract(url) <==> IndexOf(Extract(url).value, "://") < 0
  {
    hide IndexOf, Split, IsResource, MatchesHere, ToPath, FirstMatch, Trim;
    var r := Extract(url).value;
    ExtractedShape(url);
    MatchStartsWithSlash(r);
    if IndexOf(r, "://") < 0 {
      PlainPath(r);
      TrimKeeps(r, 0);
    } else {
      SchemeShortens(r);
      ExtractNotLonger(r);
    }
  }

  lemma PlainPath(r: string)
    requires IsClean(r) && IndexOf(r, "://") < 0 && MatchesHere(r)
    ensures ToPath(r) == r && FirstMatch(r) == Some(r)
  {
    hide IndexOf, Split, IsResource;
    CleanParts(r);
    assert "/" <= r;
  }

  /** Moving a request to another peer's base keeps its signed path exactly when that base is good. */
  lemma RebasedUrlKeepsPath(url: string, base: string)
    requires Extract(url).Ok? && IsAbsolute(base)
    ensures Extract(NewUrl(base, Extract(url).value)) == Extract(url) <==> IsGoodBase(base)
  {
    hide IndexOf, Split, IsResource, MatchesHere, ToPath, Extract, IsGoodBase;
    ExtractedShape(url);
    var r := Extract(url).value;
    MatchStartsWithSlash(r);
    assert "/" <= r && r == "/" + r[1..];
    assert NewUrl(base, r) == WithBaseUrl(base, r[1..]);
    BuiltUriIsExtracted(base, r[1..]);
  }

  // ---- what does not matter, and what does -------------------------------------------------------------------------

  lemma CutIsClean(url: string, tail: string)
    requires IsClean(url)
    ensures Split(Split(url + ("?" + tail), '#')[0], '?')[0] == url
    ensures Split(Split(url + ("#" + tail), '#')[0], '?')[0] == url
  {
    hide Split;
    SplitFirst(url, '#', "#" + tail);
    SplitPlain(url, '?');
    var rest := SplitHead(tail, '#');
    var query := Split(tail, '#')[0];
    assert url + ("?" + tail) == (url + ("?" + query)) + rest;
    SplitFirst(url + ("?" + query), '#', rest);
    SplitFirst(url, '?', "?" + query);
  }

  lemma VisibleStays(url: string, tail: string)
    requires Trim(url) != ""
    ensures Trim(url + tail) != ""
  {
    hide IsSpace, Trim;
    var before, after := TrimMeaning(url);
    assert (url + tail)[|before|] == Trim(url)[0];
    TrimKeeps(url + tail, |before|);
  }

  // The path depends only on what comes before a fragment and a query.
  lemma SamePath(url: string, other: string)
    requires Split(Split(url, '#')[0], '?')[0] == Split(Split(other, '#')[0], '?')[0]
    ensures ToPath(url) == ToPath(other)
  {
    hide Split, IndexOf;
  }

  /** A query or a fragment does not matter. */
  lemma QueryAndFragmentAreIgnored(url: string, tail: string)
    requires IsClean(url) && Trim(url) != ""
    ensures Extract(url + ("?" + tail)) == Extract(url) && Extract(url + ("#" + tail)) == Extract(url)
  {
    hide Split, FirstMatch, Trim, ToPath;
    CleanParts(url);
    CutIsClean(url, tail);
    SamePath(url + ("?" + tail), url);
    SamePath(url + ("#" + tail), url);
    VisibleStays(url, "?" + tail);
    VisibleStays(url, "#" + tail);
  }

  /** The resource names, and no others, make a path of one segment a resource path. */
  lemma KnownResources(name: string)
    requires '/' !in name && ':' !in name && IsClean(name)
    ensures Extract("/" + name) ==
            if name in ["participants", "parties", "quotes", "transfers", "transactionRequests", "authorizations",
                        "bulkQuotes", "bulkTransfers", "fxQuotes", "fxTransfers", "services", "transactions"]
            then Ok("/" + name) else Err(UnknownResource)
  {
    OneSegment(name);
    Names(name);
    hide *;
  }

  lemma Names(name: string)
    ensures IsResource(name) == (
      name in ["participants", "parties", "quotes", "transfers", "transactionRequests", "authorizations",
               "bulkQuotes", "bulkTransfers", "fxQuotes", "fxTransfers", "services", "transactions"])
  {}

  lemma NoScheme(path: string)
    requires ':' !in path
    ensures IndexOf(path, "://") < 0
  {
    if IndexOf(path, "://") >= 0 { SchemeHasColon(path); }
  }

  lemma SchemeHasColon(path: string)
    requires IndexOf(path, "://") >= 0
    ensures ':' in path
  {
    hide IndexOf;
    var i := IndexOf(path, "://");
    assert path[i..i + 3][0] == path[i];
  }

  lemma OneSegmentPath(name: string)
    requires ':' !in name && IsClean(name)
    ensures ToPath("/" + name) == "/" + name
  {
    hide Split, IndexOf;
    var path := "/" + name;
    CleanParts(path);
    NoScheme(path);
    assert "/" <= path;
  }

  lemma OneSegment(name: string)
    requires '/' !in name && ':' !in name && IsClean(name)
    ensures Extract("/" + name) == if IsResource(name) then Ok("/" + name) else Err(UnknownResource)
  {
    hide Split, Trim, IsResource, ToPath, Extract, IsSpace;
    var path := "/" + name;
    OneSegmentPath(name);
    assert path[1..] == name && path[0] == '/';
    SlashIsVisible();
    TrimKeeps(path, 0);
    SplitPlain(name, '/');
    ExtractMeaning(path);
    assert FromResource([name]) == if IsResource(name) then Some([name]) else None;
  }

  lemma SlashIsVisible()
    ensures !IsSpace('/')
  {}

  /** A built URL is its base, one slash, and the resource URI, whether or not the base ends with a slash. */
  lemma UrlKeepsBase(base: string, uri: string)
    ensures base <= WithBaseUrl(base, uri) && EndsWith(WithBaseUrl(base, uri), uri)
    ensures !EndsWith(base, "/") ==>
              |WithBaseUrl(base, uri)| == |base| + 1 + |uri| && WithBaseUrl(base + "/", uri) == WithBaseUrl(base, uri)
    ensures NewUrl(base, "/" + uri) == WithBaseUrl(base, uri)
    ensures !StartsWith(uri, "/") ==> NewUrl(base, uri) == WithBaseUrl(base, uri)
  {
    assert ("/" + uri)[1..] == uri && "/" <= "/" + uri;
    assert (base + "/")[|base| + 1 - 1..] == "/";
    assert base + "/" + "" + uri == base + "/" + uri;
  }

  /** And every builder builds on the base it is given. */
  lemma BuildersKeepBase(base: string, idType: string, id: string, subId: Option<string>)
    ensures base <= GetParties(base, idType, id, subId) && base <= PutParties(base, idType, id, subId)
    ensures base <= PutPartiesError(base, idType, id, subId)
    ensures base <= GetQuotes(base, id) && base <= PostQuotes(base)
    ensures base <= PutQuotes(base, id) && base <= PutQuotesError(base, id)
    ensures base <= GetTransfers(base, id) && base <= PatchTransfers(base, id) && base <= PostTransfers(base)
    ensures base <= PutTransfers(base, id) && base <= PutTransfersError(base, id)
  {}
}
