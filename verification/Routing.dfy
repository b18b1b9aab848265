/** How a client and the router read the URL of a status list: origin, path, account id
  (src/server.rs, src/accounts/endpoints.rs).
 */
module Routing {
  import opened Wrappers
  import opened Sequences
  import opened Strings
  import Decimal
  import opened Links

  // ---------- Paths ----------

  const ACCOUNTS := "/api/v1/accounts/"
  const STATUSES := "/statuses"

  // The path the handler prints for the account it was asked for: the id stands in it as it is.
  function StatusesPath(id: string): string {
    ACCOUNTS + (id + STATUSES)
  }

  // What follows the scheme and `//` of an absolute URL; the scheme ends at the first `:` and holds no
  // `/`, `?` or `#` (appendix B of RFC 3986).
  function AfterScheme(url: string): Option<string> {
    var scheme, rest := Before(url, ':'), After(url, ':');
    if scheme != "" && HasNone(scheme, AUTHORITY_STOPS) && |rest| >= 2 && rest[..2] == "//" then Some(rest[2..])
    else None
  }

  function AfterAuthority(rest: string): string {
    UntilIsPrefix(rest, AUTHORITY_STOPS);
    rest[|Until(rest, AUTHORITY_STOPS)|..]
  }

  // The path of a URL: what follows the authority, up to the query or fragment.
  function PathOf(url: string): Option<string> {
    match AfterScheme(url)
    case None => None
    case Some(rest) => Some(Until(AfterAuthority(rest), PATH_STOPS))
  }

  // A path segment as the router hands it on: escapes are decoded, and a `+` is a `+`.
  function SegmentDecoded(s: string): string {
    if s == "" then ""
    else if StartsEscape(s) then [(16 * HexValue(s[1]) + HexValue(s[2])) as char] + SegmentDecoded(s[3..])
    else [s[0]] + SegmentDecoded(s[1..])
  }

  // The account id of a path of the form `/api/v1/accounts/{id}/statuses`, whose id is one segment
  // and not empty; none for every other path.
  function RoutedId(path: string): Option<string> {
    var n := |path| - |STATUSES|;
    if |ACCOUNTS| < n && path[..|ACCOUNTS|] == ACCOUNTS && path[n..] == STATUSES && '/' !in path[|ACCOUNTS|..n]
    then Some(SegmentDecoded(path[|ACCOUNTS|..n]))
    else None
  }

  ghost predicate HasNoEscape(s: string) {
    forall i :: 0 <= i < |s| ==> !StartsEscape(s[i..])
  }

  // An id that is the same printed and routed.
  ghost predicate IsPlainId(id: string) {
    id != "" && HasNone(id, AUTHORITY_STOPS) && HasNoEscape(id)
  }

  lemma {:induction false} DecodingShortens(s: string)
    ensures |SegmentDecoded(s)| <= |s|
    ensures |SegmentDecoded(s)| == |s| ==> HasNoEscape(s)
    decreases |s|
  {
    if StartsEscape(s) {
      DecodingShortens(s[3..]);
    } else if s != "" {
      DecodingShortens(s[1..]);
      assert forall i :: 1 <= i < |s| ==> s[i..] == s[1..][i - 1..];
    }
  }

  lemma {:induction false} NothingToDecode(s: string)
    requires HasNoEscape(s)
    ensures SegmentDecoded(s) == s
    decreases |s|
  {
    if s != "" {
      assert s[0..] == s;
      assert forall i :: 0 <= i < |s| - 1 ==> s[1..][i..] == s[i + 1..];
      NothingToDecode(s[1..]);
    }
  }

  // A segment is decoded to itself exactly if it holds no escape.
  lemma DecodedIsSame(s: string)
    ensures SegmentDecoded(s) == s <==> HasNoEscape(s)
  {
    if HasNoEscape(s) {
      NothingToDecode(s);
    } else {
      DecodingShortens(s);
    }
  }

  // The path that is sent for an id: cut at the first `?` or `#` of the id.
  function SentPath(id: string): string {
    Until(StatusesPath(id), PATH_STOPS)
  }

  lemma {:induction false} UntilStopsWithin(a: string, b: string, stops: set<char>)
    requires !HasNone(a, stops)
    ensures Until(a + b, stops) == Until(a, stops)
    decreases |a|
  {
    assert (a + b)[0] == a[0];
    if a[0] !in stops {
      assert (a + b)[1..] == a[1..] + b;
      assert forall i :: 0 <= i < |a| ==> i == 0 || a[i] == a[1..][i - 1];
      UntilStopsWithin(a[1..], b, stops);
    }
  }

  lemma JoinHasNone(a: string, b: string, stops: set<char>)
    requires HasNone(a, stops) && HasNone(b, stops)
    ensures HasNone(a + b, stops)
  {
  }

  lemma AccountsHasNoStop()
    ensures HasNone(ACCOUNTS, PATH_STOPS)
  {
    JoinHasNone("/api", "/v1", PATH_STOPS);
    JoinHasNone("/acc", "ounts/", PATH_STOPS);
    JoinHasNone("/api" + "/v1", "/acc" + "ounts/", PATH_STOPS);
    assert ACCOUNTS == ("/api" + "/v1") + ("/acc" + "ounts/");
  }

  lemma StatusesHasNoStop()
    ensures HasNone(STATUSES, PATH_STOPS)
  {
    JoinHasNone("/stat", "uses", PATH_STOPS);
    assert STATUSES == "/stat" + "uses";
  }

  lemma SentPathCuts(id: string)
    ensures SentPath(id) == ACCOUNTS + Until(id + STATUSES, PATH_STOPS)
  {
    AccountsHasNoStop();
    UntilJoins(ACCOUNTS, id + STATUSES, PATH_STOPS);
  }

  lemma SentPathOf(id: string)
    ensures HasNone(id, PATH_STOPS) ==> SentPath(id) == StatusesPath(id)
    ensures !HasNone(id, PATH_STOPS) ==> SentPath(id) == ACCOUNTS + Until(id, PATH_STOPS)
  {
    SentPathCuts(id);
    if HasNone(id, PATH_STOPS) {
      UntilJoins(id, STATUSES, PATH_STOPS);
      StatusesHasNoStop();
      UntilIsShorter(STATUSES, PATH_STOPS);
    } else {
      UntilStopsWithin(id, STATUSES, PATH_STOPS);
    }
  }

  lemma RoutedOfWhole(id: string)
    ensures RoutedId(StatusesPath(id)) == if id != "" && '/' !in id then Some(SegmentDecoded(id)) else None
  {
    var path := StatusesPath(id);
    var n := |path| - |STATUSES|;
    assert path[..|ACCOUNTS|] == ACCOUNTS;
    assert path[n..] == STATUSES;
    assert path[|ACCOUNTS|..n] == id;
  }

  // The id that is routed is the id that was printed exactly if it is not empty and holds no `/`,
  // `?`, `#` and no escape.
  lemma RoutedIdIsTheIdExactly(id: string)
    ensures RoutedId(SentPath(id)) == Some(id) <==> IsPlainId(id)
  {
    SentPathOf(id);
    if HasNone(id, PATH_STOPS) {
      RoutedOfWhole(id);
      DecodedIsSame(id);
    } else if RoutedId(SentPath(id)).Some? {
      var path := SentPath(id);
      UntilIsShorter(id, PATH_STOPS);
      DecodingShortens(path[|ACCOUNTS|..|path| - |STATUSES|]);
    }
  }

  predicate IsSegment(s: string) {
    s != "" && '/' !in s
  }

  // What the path that is sent holds in the place of the id: all of the id, if it holds no `?` and no
  // `#`; otherwise what stands before the first of them, if that ends in `/statuses` by itself.
  function SentSegment(id: string): Option<string> {
    if HasNone(id, PATH_STOPS) then Some(id) else
    var cut := Until(id, PATH_STOPS);
    var n := |cut| - |STATUSES|;
    if n >= 0 && cut[n..] == STATUSES then Some(cut[..n]) else None
  }

  lemma RoutedOfCut(cut: string)
    ensures var n := |cut| - |STATUSES|;
            RoutedId(ACCOUNTS + cut) ==
              if n >= 0 && cut[n..] == STATUSES && IsSegment(cut[..n]) then Some(SegmentDecoded(cut[..n])) else None
  {
    var path, n := ACCOUNTS + cut, |cut| - |STATUSES|;
    assert path[..|ACCOUNTS|] == ACCOUNTS;
    if n >= 0 {
      assert path[|path| - |STATUSES|..] == cut[n..];
      assert path[|ACCOUNTS|..|path| - |STATUSES|] == cut[..n];
    }
  }

  // The id that any id is routed to: what is sent in its place, decoded, if that is one segment.
  lemma RoutedIdExactly(id: string)
    ensures RoutedId(SentPath(id)) ==
            match SentSegment(id)
            case Some(segment) => if IsSegment(segment) then Some(SegmentDecoded(segment)) else None
            case None => None
  {
    if HasNone(id, PATH_STOPS) {
      SentPathOf(id);
      RoutedOfWhole(id);
    } else {
      SentPathOf(id);
      RoutedOfCut(Until(id, PATH_STOPS));
    }
  }

  lemma {:induction false} MarkHasSlashes(s: string) returns (i: nat)
    requires AfterMark(s).Some?
    ensures i + 1 < |s| && s[i] == '/' && s[i + 1] == '/'
    decreases |s|
  {
    if s[..3] == "://" {
      assert s[1] == s[..3][1] && s[2] == s[..3][2];
      i := 1;
    } else {
      i := MarkHasSlashes(s[1..]);
      i := i + 1;
    }
  }

  lemma StatusesHasOneSlash(k: nat)
    requires k < |STATUSES| && STATUSES[k] == '/'
    ensures k == 0
  {
    assert STATUSES == "/stat" + "uses";
  }

  lemma TwoSlashesAreNoSegment(cut: string, n: nat, i: nat)
    requires n + |STATUSES| == |cut| && cut[n..] == STATUSES
    requires i + 1 < |cut| && cut[i] == '/' && cut[i + 1] == '/'
    ensures !IsSegment(cut[..n])
  {
    if i + 1 >= n {
      assert cut[n..][i + 1 - n] == cut[i + 1];
      StatusesHasOneSlash(i + 1 - n);
    }
    assert cut[..n][i] == '/';
  }

  // A URI, whatever its query or fragment, is routed nowhere.
  lemma UriIsLost(id: string)
    requires AfterMark(Until(id, PATH_STOPS)).Some?
    ensures RoutedId(SentPath(id)) == None
  {
    var cut := Until(id, PATH_STOPS);
    var i := MarkHasSlashes(cut);
    var n := |cut| - |STATUSES|;
    RoutedIdExactly(id);
    if HasNone(id, PATH_STOPS) {
      UntilIsShorter(id, PATH_STOPS);
      assert cut == id && id[i] == '/';
    } else if n >= 0 && cut[n..] == STATUSES {
      TwoSlashesAreNoSegment(cut, n, i);
    }
  }

  lemma DigitsArePlain(s: string)
    requires s != "" && Decimal.AllDigits(s)
    ensures IsPlainId(s) && IsPlainId("-" + s)
  {
    forall i | 0 <= i < |s|
      ensures s[i] !in AUTHORITY_STOPS && s[i] != '%'
    {
      assert Decimal.IsDigit(s[i]);
    }
  }

  // The numbers the server gives its accounts are plain ids.
  lemma PrintedIdIsPlain(n: int)
    ensures IsPlainId(Decimal.PrintInt(n))
  {
    DigitsArePlain(Decimal.Print(if n < 0 then -n else n));
  }

  // An id that is cut behind a status path is routed to the account of that path.
  lemma CutIdIsAnother(segment: string, rest: string)
    requires IsPlainId(segment) && rest != "" && rest[0] in PATH_STOPS
    ensures RoutedId(SentPath(segment + STATUSES + rest)) == Some(segment)
  {
    var cut := segment + STATUSES;
    assert (cut + rest)[|cut|] == rest[0];
    assert HasNone(cut, PATH_STOPS) by {
      StatusesHasNoStop();
    }
    UntilOf(cut, rest, PATH_STOPS);
    assert cut[|cut| - |STATUSES|..] == STATUSES && cut[..|cut| - |STATUSES|] == segment;
    RoutedIdExactly(cut + rest);
    DecodedIsSame(segment);
  }

  // Asked for by this id, the server prints links to the list of account 1.
  lemma ExampleIdIsAnother()
    ensures RoutedId(SentPath("1" + STATUSES + "?x")) == Some("1")
  {
    DigitsArePlain("1");
    CutIdIsAnother("1", "?x");
  }

  // ---------- Origins ----------

  function OriginText(origin: Origin): string {
    origin.scheme + "://" + origin.host
  }

  // A scheme and a host as they stand in a URL.
  ghost predicate IsPlainOrigin(origin: Origin) {
    && origin.scheme != "" && ':' !in origin.scheme && HasNone(origin.scheme, AUTHORITY_STOPS)
    && HasNone(origin.host, AUTHORITY_STOPS)
  }

  // The first `:` stands in the origin, so what is read as the scheme does too.
  lemma AfterSchemeJoins(origin: Origin, tail: string)
    ensures AfterScheme(OriginText(origin) + tail) ==
            match AfterScheme(OriginText(origin)) { case Some(rest) => Some(rest + tail) case None => None }
  {
    var text := OriginText(origin);
    assert text[|origin.scheme|] == ':';
    CutWithin(text, tail, ':');
    AfterFirstColon(origin);
    var rest := After(text, ':');
    assert (rest + tail)[..2] == rest[..2] && (rest + tail)[2..] == rest[2..] + tail;
  }

  lemma AfterFirstColon(origin: Origin)
    ensures |After(OriginText(origin), ':')| >= 2
    ensures ':' !in origin.scheme ==>
              && Before(OriginText(origin), ':') == origin.scheme
              && After(OriginText(origin), ':') == "//" + origin.host
    ensures ':' in origin.scheme ==> After(OriginText(origin), ':') == After(origin.scheme, ':') + ("://" + origin.host)
  {
    if ':' in origin.scheme {
      assert OriginText(origin) == origin.scheme + ("://" + origin.host);
      CutWithin(origin.scheme, "://" + origin.host, ':');
    } else {
      assert OriginText(origin) == origin.scheme + [':'] + ("//" + origin.host);
      CutAtFirst(origin.scheme, ':', "//" + origin.host);
    }
  }

  // An origin is plain exactly if what is read after its scheme is a host and nothing else.
  lemma PlainOriginExactly(origin: Origin)
    ensures IsPlainOrigin(origin) <==>
            var rest := AfterScheme(OriginText(origin)); rest.Some? && HasNone(rest.value, AUTHORITY_STOPS)
    ensures IsPlainOrigin(origin) ==> AfterScheme(OriginText(origin)) == Some(origin.host)
  {
    AfterFirstColon(origin);
    var rest := After(OriginText(origin), ':');
    if ':' !in origin.scheme {
      assert rest[..2] == "//" && rest[2..] == origin.host;
    } else {
      MarkStaysBehind(After(origin.scheme, ':'), origin.host);
    }
  }

  // If a scheme holds a `:` before the mark, a `/` of the mark is read as part of the rest.
  lemma MarkStaysBehind(within: string, host: string)
    ensures var rest := within + ("://" + host);
            |rest| >= 2 && (rest[..2] == "//" ==> '/' in rest[2..])
  {
    var rest := within + ("://" + host);
    if rest[..2] == "//" {
      assert rest[0] == rest[..2][0] && rest[1] == rest[..2][1];
      assert rest[|within|] == ':' && rest[|within| + 1] == '/';
      assert rest[2..][|within| - 1] == '/';
    }
  }

  lemma AfterAuthorityJoins(rest: string, tail: string)
    requires StartsAfresh(tail, AUTHORITY_STOPS)
    ensures AfterAuthority(rest + tail) == AfterAuthority(rest) + tail
  {
    UntilIgnoresTail(rest, tail, AUTHORITY_STOPS);
    UntilIsPrefix(rest, AUTHORITY_STOPS);
  }

  // What is read as the path of a URL with that origin.
  lemma PathBehind(origin: Origin, path: string, query: string)
    requires path != "" && path[0] == '/' && StartsAfresh(query, PATH_STOPS)
    ensures PathOf(OriginText(origin) + (path + query)) ==
            match AfterScheme(OriginText(origin))
            case Some(rest) => Some(Until(AfterAuthority(rest) + path, PATH_STOPS))
            case None => None
  {
    AfterSchemeJoins(origin, path + query);
    match AfterScheme(OriginText(origin))
    case Some(rest) =>
      AfterAuthorityJoins(rest, path + query);
      JoinAssociates(AfterAuthority(rest), path, query);
      UntilIgnoresTail(AfterAuthority(rest) + path, query, PATH_STOPS);
    case None =>
  }

  // The path of a URL that starts with a plain origin.
  lemma PathAfterOrigin(origin: Origin, path: string, query: string)
    requires IsPlainOrigin(origin) && path != "" && path[0] == '/' && StartsAfresh(query, PATH_STOPS)
    ensures PathOf(OriginText(origin) + (path + query)) == Some(Until(path, PATH_STOPS))
  {
    PathBehind(origin, path, query);
    PlainOriginExactly(origin);
    UntilIsShorter(origin.host, AUTHORITY_STOPS);
    assert AfterAuthority(origin.host) + path == path;
  }

  // Behind a `/` of the origin no status list is routed.
  lemma DeepPathIsLost(before: string, id: string)
    requires before != ""
    ensures RoutedId(before + StatusesPath(id)) == None
  {
    var path := before + StatusesPath(id);
    var slash, n := |before| + |ACCOUNTS| - 1, |path| - |STATUSES|;
    assert path[slash] == StatusesPath(id)[|ACCOUNTS| - 1] == '/';
    assert |ACCOUNTS| <= slash < n;
    assert path[|ACCOUNTS|..n][slash - |ACCOUNTS|] == '/';
  }

  lemma RestHasNoStop(origin: Origin)
    requires HasNone(OriginText(origin), PATH_STOPS) && AfterScheme(OriginText(origin)).Some?
    ensures HasNone(AfterScheme(OriginText(origin)).value, PATH_STOPS)
  {
    AfterIsTail(OriginText(origin), ':');
  }

  lemma {:induction false} AfterIsTail(s: string, c: char)
    ensures |After(s, c)| <= |s| && After(s, c) == s[|s| - |After(s, c)|..]
    decreases |s|
  {
    if s != "" && s[0] != c {
      AfterIsTail(s[1..], c);
    }
  }

  lemma PathHasNoStop(id: string)
    requires HasNone(id, PATH_STOPS)
    ensures HasNone(StatusesPath(id), PATH_STOPS)
  {
    SentPathOf(id);
    UntilIsShorter(StatusesPath(id), PATH_STOPS);
  }

  // A URL is routed to a status list only behind a plain origin, unless the origin holds `?` or `#`.
  lemma RoutedBehindPlainOrigin(origin: Origin, id: string, query: string)
    requires HasNone(OriginText(origin), PATH_STOPS) && HasNone(id, PATH_STOPS) && StartsAfresh(query, PATH_STOPS)
    requires var path := PathOf(OriginText(origin) + (StatusesPath(id) + query));
             path.Some? && RoutedId(path.value).Some?
    ensures IsPlainOrigin(origin)
  {
    PathBehind(origin, StatusesPath(id), query);
    RestHasNoStop(origin);
    var rest := AfterScheme(OriginText(origin)).value;
    PathHasNoStop(id);
    UntilIsPrefix(rest, AUTHORITY_STOPS);
    UntilIsShorter(AfterAuthority(rest) + StatusesPath(id), PATH_STOPS);
    if AfterAuthority(rest) == "" {
      UntilIsShorter(rest, AUTHORITY_STOPS);
      PlainOriginExactly(origin);
    } else {
      DeepPathIsLost(AfterAuthority(rest), id);
    }
  }
}
