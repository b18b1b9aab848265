/** A client that only follows `Link` headers over `accounts/:id/statuses`
  (src/accounts/endpoints.rs, src/api/pagination.rs): every request it makes is read out of the
  header of the response before, and routed by its path (src/server.rs).
 */
module LinkWalk {
  import opened Arithmetic
  import opened Wrappers
  import opened Sequences
  import opened Strings
  import Decimal
  import opened Pagination
  import opened Links
  import opened Routing

  // The external origin of the server, and the id of the account whose list is walked.
  datatype Place = Place(origin: Origin, id: string)

  function ContextOf(place: Place, request: StatusesRequest): Context {
    Context(place.origin, StatusesPath(place.id), ExtraQuery(request.page.limit, request.filters))
  }

  // Neither the origin nor the id breaks a header value or an entry of it.
  ghost predicate IsPrintable(place: Place) {
    var base := place.origin.scheme + "://" + place.origin.host + StatusesPath(place.id);
    '>' !in base && IsHeaderValue(base)
  }

  ghost predicate IsPlain(place: Place) {
    IsPlainOrigin(place.origin) && IsPlainId(place.id) && IsPrintable(place)
  }

  // ---------- The header of a response ----------

  lemma DigitsAreBytes(s: string)
    requires Decimal.AllDigits(s)
    ensures IsBytes(s)
  {
  }

  lemma BytesJoin(a: seq<Pair>, b: seq<Pair>)
    requires AllOfBytes(a) && AllOfBytes(b)
    ensures AllOfBytes(a + b)
  {
  }

  lemma FlagIsBytes(name: string, on: bool)
    requires IsBytes(name)
    ensures AllOfBytes(FlagPair(name, on))
  {
  }

  lemma LimitIsBytes(limit: Option<U32>)
    ensures AllOfBytes(LimitPair(limit))
  {
    if limit.Some? {
      DigitsAreBytes(Decimal.Print(limit.value));
    }
  }

  lemma ExtraIsBytes(limit: Option<U32>, f: StatusFilters)
    ensures AllOfBytes(ExtraQuery(limit, f))
  {
    LimitIsBytes(limit);
    FlagIsBytes(PINNED, f.pinned);
    FlagIsBytes(ONLY_MEDIA, f.onlyMedia);
    FlagIsBytes(EXCLUDE_REPLIES, f.excludeReplies);
    FlagIsBytes(EXCLUDE_REBLOGS, f.excludeReblogs);
    var s0 := LimitPair(limit);
    BytesJoin(s0, FlagPair(PINNED, f.pinned));
    var s1 := s0 + FlagPair(PINNED, f.pinned);
    BytesJoin(s1, FlagPair(ONLY_MEDIA, f.onlyMedia));
    var s2 := s1 + FlagPair(ONLY_MEDIA, f.onlyMedia);
    BytesJoin(s2, FlagPair(EXCLUDE_REPLIES, f.excludeReplies));
    var s3 := s2 + FlagPair(EXCLUDE_REPLIES, f.excludeReplies);
    BytesJoin(s3, FlagPair(EXCLUDE_REBLOGS, f.excludeReblogs));
  }

  function CursorsOf(page: Page): PageCursors {
    PageCursors(page.nextCursor, page.prevCursor)
  }

  lemma PageCursorsAreBytes(items: seq<Item>)
    ensures CursorsOfBytes(CursorsOf(PageOf(items)))
  {
    if items != [] {
      DigitsAreBytes(Encode(items[0].cursor));
      DigitsAreBytes(Encode(items[|items| - 1].cursor));
    }
  }

  // The links of a response, and its header.
  function LinksOf(place: Place, request: StatusesRequest, page: Page): seq<Entry>
    requires CursorsOfBytes(CursorsOf(page))
  {
    ExtraIsBytes(request.page.limit, request.filters);
    Entries(ContextOf(place, request), CursorsOf(page))
  }

  function HeaderOf(place: Place, request: StatusesRequest, page: Page): Option<string>
    requires CursorsOfBytes(CursorsOf(page))
  {
    var entries := LinksOf(place, request, page);
    var text := HeaderText(entries);
    if entries != [] && IsHeaderValue(text) then Some(text) else None
  }

  lemma JoinIsHeaderValue(a: string, b: string)
    requires IsHeaderValue(a) && IsHeaderValue(b)
    ensures IsHeaderValue(a + b)
  {
  }

  lemma EncodedIsHeaderValue(value: string)
    requires IsBytes(value)
    ensures IsHeaderValue(Encoded(value))
  {
    EncodedAlphabet(value);
  }

  lemma PairIsHeaderValue(p: Pair)
    requires PairOfBytes(p)
    ensures IsHeaderValue(EncodedPair(p))
  {
    EncodedIsHeaderValue(p.key);
    EncodedIsHeaderValue(p.value);
    JoinIsHeaderValue(Encoded(p.key), "=");
    JoinIsHeaderValue(Encoded(p.key) + "=", Encoded(p.value));
  }

  lemma {:induction false} QueryIsHeaderValue(pairs: seq<Pair>)
    requires AllOfBytes(pairs)
    ensures IsHeaderValue(Query(pairs))
    decreases |pairs|
  {
    if pairs != [] {
      assert PairOfBytes(pairs[0]);
      var first, rest := EncodedPair(pairs[0]), pairs[1..];
      PairIsHeaderValue(pairs[0]);
      QueryIsHeaderValue(rest);
      JoinIsHeaderValue(first, "&");
      JoinIsHeaderValue(first + "&", Query(rest));
    }
  }

  lemma UrlIsHeaderValue(ctx: Context, param: string, value: string)
    requires AllOfBytes(Pairs(ctx, param, value)) && IsHeaderValue(Base(ctx))
    ensures IsHeaderValue(Url(ctx, param, value))
  {
    QueryIsHeaderValue(Pairs(ctx, param, value));
    JoinIsHeaderValue(Base(ctx), "?");
    JoinIsHeaderValue(Base(ctx) + "?", Query(Pairs(ctx, param, value)));
  }

  lemma EntryIsHeaderValue(e: Entry)
    requires IsHeaderValue(e.url) && (e.rel == "next" || e.rel == "prev")
    ensures IsHeaderValue(EntryText(e))
  {
  }

  lemma {:induction false} HeaderIsHeaderValue(entries: seq<Entry>)
    requires forall i :: 0 <= i < |entries| ==> IsHeaderValue(EntryText(entries[i]))
    ensures IsHeaderValue(HeaderText(entries))
    decreases |entries|
  {
    if |entries| > 1 {
      HeaderIsHeaderValue(entries[1..]);
    }
  }

  lemma LinkIsHeaderValue(ctx: Context, param: string, cursor: string, rel: string)
    requires AllOfBytes(Pairs(ctx, param, cursor)) && IsHeaderValue(Base(ctx)) && (rel == "next" || rel == "prev")
    ensures IsHeaderValue(EntryText(Entry(Url(ctx, param, cursor), rel)))
  {
    UrlIsHeaderValue(ctx, param, cursor);
    EntryIsHeaderValue(Entry(Url(ctx, param, cursor), rel));
  }

  // A page with a cursor sends its header when the origin and the id are printable.
  lemma HeaderIsSent(ctx: Context, cursors: PageCursors)
    requires AllOfBytes(ctx.extraQuery) && CursorsOfBytes(cursors) && IsHeaderValue(Base(ctx))
    ensures IsHeaderValue(HeaderText(Entries(ctx, cursors)))
  {
    if cursors.next.Some? {
      LinkIsHeaderValue(ctx, "max_id", cursors.next.value, "next");
    }
    if cursors.prev.Some? {
      LinkIsHeaderValue(ctx, "min_id", cursors.prev.value, "prev");
    }
    HeaderIsHeaderValue(Entries(ctx, cursors));
  }

  lemma HeaderReads(place: Place, request: StatusesRequest, page: Page)
    requires IsPrintable(place) && CursorsOfBytes(CursorsOf(page)) && page.nextCursor.Some?
    ensures var entries := LinksOf(place, request, page);
            && HeaderOf(place, request, page) == Some(HeaderText(entries))
            && ReadHeader(HeaderText(entries)) == Some(entries)
  {
    ExtraIsBytes(request.page.limit, request.filters);
    HeaderIsSent(ContextOf(place, request), CursorsOf(page));
    ReadSentHeader(ContextOf(place, request), CursorsOf(page));
  }

  // ---------- Following a link ----------

  // What a client asks for and the server reads: the account, by the path, and the request, by the query.
  datatype Visit = Visit(id: string, request: StatusesRequest)

  // The target of the first link with that relation.
  function Target(entries: seq<Entry>, rel: string): Option<string> {
    if entries == [] then None
    else if entries[0].rel == rel then Some(entries[0].url)
    else Target(entries[1..], rel)
  }

  // A URL as the server reads it; none unless it is routed to a status list whose query is accepted.
  function Visited(url: string): Option<Visit> {
    match PathOf(url)
    case None => None
    case Some(path) =>
      match RoutedId(path)
      case None => None
      case Some(id) =>
        match ReadStatusesRequest(ReadQuery(QueryOf(url)))
        case Ok(request) => Some(Visit(id, request))
        case Err(_) => None
  }

  // Following the link with that relation in a header.
  function Follow(header: Option<string>, rel: string): Option<Visit> {
    if header.None? then None else
    match ReadHeader(header.value)
    case None => None
    case Some(entries) =>
      match Target(entries, rel)
      case None => None
      case Some(url) => Visited(url)
  }

  function NextRequest(request: PageParams, cursor: string): PageParams {
    PageParams(Some(cursor), None, None, request.limit)
  }

  function PrevRequest(request: PageParams, cursor: string): PageParams {
    PageParams(None, None, Some(cursor), request.limit)
  }

  // The two parameters that carry a cursor on a link.
  predicate IsCursorParam(param: string) {
    param == "max_id" || param == "min_id"
  }

  function Requested(request: StatusesRequest, param: string, cursor: string): StatusesRequest {
    StatusesRequest(if param == "max_id" then NextRequest(request.page, cursor) else PrevRequest(request.page, cursor),
                    request.filters)
  }

  // The printed URL of a link.
  function LinkUrl(place: Place, request: StatusesRequest, param: string, cursor: string): string
    requires IsCursorParam(param) && IsBytes(cursor)
  {
    LinkPairsAreBytes(place, request, param, cursor);
    Url(ContextOf(place, request), param, cursor)
  }

  lemma LinkPairsAreBytes(place: Place, request: StatusesRequest, param: string, cursor: string)
    requires IsCursorParam(param) && IsBytes(cursor)
    ensures AllOfBytes(Pairs(ContextOf(place, request), param, cursor))
  {
    ExtraIsBytes(request.page.limit, request.filters);
    BytesJoin(ExtraQuery(request.page.limit, request.filters), [Pair(param, cursor)]);
  }

  // The URL of a link: origin, path and query.
  lemma LinkUrlParts(place: Place, request: StatusesRequest, param: string, cursor: string) returns (query: string)
    requires IsCursorParam(param) && IsBytes(cursor)
    ensures StartsAfresh(query, PATH_STOPS)
    ensures LinkUrl(place, request, param, cursor) == OriginText(place.origin) + (StatusesPath(place.id) + query)
  {
    LinkPairsAreBytes(place, request, param, cursor);
    query := "?" + Query(Pairs(ContextOf(place, request), param, cursor));
    JoinAssociates(OriginText(place.origin) + StatusesPath(place.id), "?",
                   Query(Pairs(ContextOf(place, request), param, cursor)));
    JoinAssociates(OriginText(place.origin), StatusesPath(place.id), query);
  }

  // Reading the query of a link gives the cursor and the same limit and filters.
  lemma LinkReads(place: Place, request: StatusesRequest, param: string, cursor: string)
    requires IsPlainOrigin(place.origin) && HasNone(place.id, PATH_STOPS)
    requires IsCursorParam(param) && IsBytes(cursor)
    ensures ReadStatusesRequest(ReadQuery(QueryOf(LinkUrl(place, request, param, cursor)))) ==
            Ok(Requested(request, param, cursor))
  {
    LinkPairsAreBytes(place, request, param, cursor);
    BaseHasNoStop(place, request);
    ReadPrintedLink(ContextOf(place, request), param, cursor);
    ReadLinkParameters(request.page.limit, request.filters, param, cursor);
  }

  lemma BaseHasNoStop(place: Place, request: StatusesRequest)
    requires IsPlainOrigin(place.origin) && HasNone(place.id, PATH_STOPS)
    ensures '?' !in Base(ContextOf(place, request)) && '#' !in Base(ContextOf(place, request))
  {
    var o, path := place.origin, StatusesPath(place.id);
    PathHasNoStop(place.id);
    assert forall i :: 0 <= i < |o.scheme| ==> o.scheme[i] !in AUTHORITY_STOPS;
    assert forall i :: 0 <= i < |o.host| ==> o.host[i] !in AUTHORITY_STOPS;
  }

  lemma PathOfLinkUrl(place: Place, request: StatusesRequest, param: string, cursor: string)
    requires IsPlainOrigin(place.origin) && IsCursorParam(param) && IsBytes(cursor)
    ensures PathOf(LinkUrl(place, request, param, cursor)) == Some(SentPath(place.id))
  {
    var query := LinkUrlParts(place, request, param, cursor);
    PathAfterOrigin(place.origin, StatusesPath(place.id), query);
  }

  lemma VisitedUrl(url: string, path: string)
    requires PathOf(url) == Some(path)
    ensures RoutedId(path).None? ==> Visited(url).None?
    ensures Visited(url).Some? ==> RoutedId(path) == Some(Visited(url).value.id)
    ensures RoutedId(path).Some? && ReadStatusesRequest(ReadQuery(QueryOf(url))).Ok? ==>
              Visited(url) == Some(Visit(RoutedId(path).value, ReadStatusesRequest(ReadQuery(QueryOf(url))).value))
  {
  }

  // A link leads to the request it was printed for.
  ghost predicate LeadsToItself(place: Place, request: StatusesRequest, param: string, cursor: string)
    requires IsCursorParam(param) && IsBytes(cursor)
  {
    Visited(LinkUrl(place, request, param, cursor)) == Some(Visit(place.id, Requested(request, param, cursor)))
  }

  lemma PlainLinkLeadsBack(place: Place, request: StatusesRequest, param: string, cursor: string)
    requires IsPlainOrigin(place.origin) && IsPlainId(place.id) && IsCursorParam(param) && IsBytes(cursor)
    ensures LeadsToItself(place, request, param, cursor)
  {
    PathOfLinkUrl(place, request, param, cursor);
    VisitedUrl(LinkUrl(place, request, param, cursor), SentPath(place.id));
    RoutedIdIsTheIdExactly(place.id);
    LinkReads(place, request, param, cursor);
  }

  lemma LinkLeadsToRoutedId(place: Place, request: StatusesRequest, param: string, cursor: string)
    requires IsPlainOrigin(place.origin) && IsCursorParam(param) && IsBytes(cursor)
    ensures var visit := Visited(LinkUrl(place, request, param, cursor));
            visit.Some? ==> RoutedId(SentPath(place.id)) == Some(visit.value.id)
  {
    PathOfLinkUrl(place, request, param, cursor);
    VisitedUrl(LinkUrl(place, request, param, cursor), SentPath(place.id));
  }

  // Behind a plain origin, a link leads back to its own list exactly if the id of the account is plain.
  lemma LinkLeadsBackExactly(place: Place, request: StatusesRequest, param: string, cursor: string)
    requires IsPlainOrigin(place.origin) && IsCursorParam(param) && IsBytes(cursor)
    ensures LeadsToItself(place, request, param, cursor) <==> IsPlainId(place.id)
  {
    if IsPlainId(place.id) {
      PlainLinkLeadsBack(place, request, param, cursor);
    } else {
      LinkLeadsToRoutedId(place, request, param, cursor);
      RoutedIdIsTheIdExactly(place.id);
    }
  }

  ghost predicate AllLinksLeadBack(place: Place) {
    forall request, param, cursor :: IsCursorParam(param) && IsBytes(cursor) ==>
      LeadsToItself(place, request, param, cursor)
  }

  // A request without limit and filters; its links carry nothing but the cursor.
  const BARE: StatusesRequest :=
    StatusesRequest(PageParams(None, None, None, None), StatusFilters(false, false, false, false))

  lemma LedBackReads(place: Place, cursor: string)
    requires IsBytes(cursor) && LeadsToItself(place, BARE, "max_id", cursor)
    ensures AllOfBytes(Pairs(ContextOf(place, BARE), "max_id", cursor))
    ensures LinkReadsBack(ContextOf(place, BARE), Pair("max_id", cursor))
  {
    LinkPairsAreBytes(place, BARE, "max_id", cursor);
    var url := LinkUrl(place, BARE, "max_id", cursor);
    VisitedReads(url, Visit(place.id, Requested(BARE, "max_id", cursor)));
    ReadMaxId(ReadQuery(QueryOf(url)), Requested(BARE, "max_id", cursor));
  }

  lemma VisitedReads(url: string, visit: Visit)
    requires Visited(url) == Some(visit)
    ensures ReadStatusesRequest(ReadQuery(QueryOf(url))) == Ok(visit.request)
  {
  }

  lemma CursorsAreBytes()
    ensures IsBytes("1") && IsBytes("2") && IsBytes("max_id")
  {
  }

  // Links that lead back show that neither the origin nor the id holds `?` or `#`.
  lemma LedBackHasNoStop(place: Place)
    requires AllLinksLeadBack(place)
    ensures '?' !in Base(ContextOf(place, BARE)) && '#' !in Base(ContextOf(place, BARE))
  {
    CursorsAreBytes();
    assert LeadsToItself(place, BARE, "max_id", "1") && LeadsToItself(place, BARE, "max_id", "2");
    LedBackReads(place, "1");
    LedBackReads(place, "2");
    TwoLinksReadBack(ContextOf(place, BARE), Pair("max_id", "1"), Pair("max_id", "2"));
  }

  lemma PartsHaveNoStop(place: Place)
    requires '?' !in Base(ContextOf(place, BARE)) && '#' !in Base(ContextOf(place, BARE))
    ensures HasNone(OriginText(place.origin), PATH_STOPS) && HasNone(place.id, PATH_STOPS)
  {
    var base, origin := Base(ContextOf(place, BARE)), OriginText(place.origin);
    assert base == origin + (ACCOUNTS + (place.id + STATUSES));
    forall i | 0 <= i < |origin|
      ensures origin[i] !in PATH_STOPS
    {
      assert base[i] == origin[i];
    }
    forall i | 0 <= i < |place.id|
      ensures place.id[i] !in PATH_STOPS
    {
      assert base[|origin| + |ACCOUNTS| + i] == place.id[i];
    }
  }

  lemma LedBackOriginIsPlain(place: Place)
    requires AllLinksLeadBack(place)
    ensures IsPlainOrigin(place.origin)
  {
    LedBackHasNoStop(place);
    PartsHaveNoStop(place);
    CursorsAreBytes();
    assert LeadsToItself(place, BARE, "max_id", "1");
    var query := LinkUrlParts(place, BARE, "max_id", "1");
    RoutedBehindPlainOrigin(place.origin, place.id, query);
  }

  // All links of a place lead back exactly if its origin is a scheme and a host and its id is plain.
  lemma LinksLeadBackExactly(place: Place)
    ensures AllLinksLeadBack(place) <==> IsPlainOrigin(place.origin) && IsPlainId(place.id)
  {
    if AllLinksLeadBack(place) {
      LedBackOriginIsPlain(place);
      CursorsAreBytes();
      assert LeadsToItself(place, BARE, "max_id", "1");
      LinkLeadsBackExactly(place, BARE, "max_id", "1");
    }
    if IsPlainOrigin(place.origin) && IsPlainId(place.id) {
      forall request, param, cursor | IsCursorParam(param) && IsBytes(cursor)
        ensures LeadsToItself(place, request, param, cursor)
      {
        PlainLinkLeadsBack(place, request, param, cursor);
      }
    }
  }

  // A link for a lost id is routed to no list at all.
  lemma LostLinkLeadsNowhere(place: Place, request: StatusesRequest, param: string, cursor: string)
    requires IsPlainOrigin(place.origin) && RoutedId(SentPath(place.id)) == None
    requires IsCursorParam(param) && IsBytes(cursor)
    ensures Visited(LinkUrl(place, request, param, cursor)) == None
  {
    PathOfLinkUrl(place, request, param, cursor);
    VisitedUrl(LinkUrl(place, request, param, cursor), SentPath(place.id));
  }

  // So is a link for an account named by its URI.
  lemma UriLinkIsLost(place: Place, request: StatusesRequest, param: string, cursor: string)
    requires IsPlainOrigin(place.origin) && AfterMark(Until(place.id, PATH_STOPS)).Some?
    requires IsCursorParam(param) && IsBytes(cursor)
    ensures Visited(LinkUrl(place, request, param, cursor)) == None
  {
    UriIsLost(place.id);
    LostLinkLeadsNowhere(place, request, param, cursor);
  }

  lemma NextTarget(place: Place, request: StatusesRequest, page: Page)
    requires CursorsOfBytes(CursorsOf(page)) && page.nextCursor.Some?
    ensures Target(LinksOf(place, request, page), "next")
            == Some(LinkUrl(place, request, "max_id", page.nextCursor.value))
  {
    assert LinksOf(place, request, page)[0].rel == "next";
  }

  lemma PrevTarget(place: Place, request: StatusesRequest, page: Page)
    requires CursorsOfBytes(CursorsOf(page)) && page.nextCursor.Some? && page.prevCursor.Some?
    ensures Target(LinksOf(place, request, page), "prev")
            == Some(LinkUrl(place, request, "min_id", page.prevCursor.value))
  {
    var entries := LinksOf(place, request, page);
    assert entries[0].rel == "next" && entries[1].rel == "prev";
    assert entries[1..][0] == entries[1];
  }

  lemma FollowEntry(text: string, entries: seq<Entry>, rel: string, url: string)
    requires ReadHeader(text) == Some(entries) && Target(entries, rel) == Some(url)
    ensures Follow(Some(text), rel) == Visited(url)
  {
  }

  // Following a link of a response is visiting its printed URL.
  lemma FollowingVisits(place: Place, request: StatusesRequest, page: Page, rel: string, url: string)
    requires IsPrintable(place) && CursorsOfBytes(CursorsOf(page)) && page.nextCursor.Some?
    requires Target(LinksOf(place, request, page), rel) == Some(url)
    ensures Follow(HeaderOf(place, request, page), rel) == Visited(url)
  {
    HeaderReads(place, request, page);
    FollowEntry(HeaderText(LinksOf(place, request, page)), LinksOf(place, request, page), rel, url);
  }

  // Following `next` asks the same account for what is older than the page, and following `prev` for
  // what is newer, with the same limit and filters, exactly if the account's id is plain.
  lemma FollowingNextLink(place: Place, request: StatusesRequest, page: Page)
    requires IsPlainOrigin(place.origin) && IsPrintable(place)
    requires CursorsOfBytes(CursorsOf(page)) && page.nextCursor.Some? && page.prevCursor.Some?
    ensures var asked := Visit(place.id, Requested(request, "max_id", page.nextCursor.value));
            Follow(HeaderOf(place, request, page), "next") == Some(asked) <==> IsPlainId(place.id)
  {
    var cursor := page.nextCursor.value;
    NextTarget(place, request, page);
    FollowingVisits(place, request, page, "next", LinkUrl(place, request, "max_id", cursor));
    LinkLeadsBackExactly(place, request, "max_id", cursor);
  }

  lemma FollowingPrevLink(place: Place, request: StatusesRequest, page: Page)
    requires IsPlainOrigin(place.origin) && IsPrintable(place)
    requires CursorsOfBytes(CursorsOf(page)) && page.nextCursor.Some? && page.prevCursor.Some?
    ensures var asked := Visit(place.id, Requested(request, "min_id", page.prevCursor.value));
            Follow(HeaderOf(place, request, page), "prev") == Some(asked) <==> IsPlainId(place.id)
  {
    var cursor := page.prevCursor.value;
    PrevTarget(place, request, page);
    FollowingVisits(place, request, page, "prev", LinkUrl(place, request, "min_id", cursor));
    LinkLeadsBackExactly(place, request, "min_id", cursor);
  }

  // ---------- Whole walks ----------

  // How a client goes on from the response to a visit.
  type Client = (Visit, Page) -> Option<Visit>

  // The list of the account with that id, at that state of the server.
  type AccountLists = (string, nat) -> Pool

  function ListOf(lists: AccountLists, id: string): nat -> Pool {
    (k: nat) => lists(id, k)
  }

  // The client that follows `next` in the response's header.
  function NextFollower(origin: Origin): Client {
    (visit: Visit, page: Page) =>
      if CursorsOfBytes(CursorsOf(page)) then Follow(HeaderOf(Place(origin, visit.id), visit.request, page), "next")
      else None
  }

  // The first visit of a walk.
  function FirstVisit(id: string, limit: Option<U32>, filters: StatusFilters): Visit {
    Visit(id, StatusesRequest(PageParams(None, None, None, limit), filters))
  }

  // `pages` are the responses to a client that starts with `visit` at the k-th state of the server
  // and goes on until it has nothing to visit.
  ghost predicate Walked(client: Client, lists: AccountLists, k: nat, visit: Visit, pages: seq<Page>)
    decreases |pages|
  {
    && pages != []
    && Pagination.Parse(visit.request.page).Ok?
    && pages[0] == Paginate(lists(visit.id, k), Pagination.Parse(visit.request.page).value)
    && match client(visit, pages[0])
       case None => |pages| == 1
       case Some(next) => Walked(client, lists, k + 1, next, pages[1..])
  }

  function ItemsOf(pages: seq<Page>): seq<seq<Item>> {
    seq(|pages|, i requires 0 <= i < |pages| => pages[i].items)
  }

  lemma ItemsOfFirst(pages: seq<Page>)
    requires pages != []
    ensures ItemsOf(pages) == [pages[0].items] + ItemsOf(pages[1..])
  {
  }

  // A visit that asks for what is older than `bound`.
  function OlderVisit(id: string, bound: nat, limit: Option<U32>, filters: StatusFilters): Visit {
    var maxId := if bound <= U64_MAX then Some(Encode(bound)) else None;
    Visit(id, StatusesRequest(PageParams(maxId, None, None, limit), filters))
  }

  lemma OlderVisitIsOlder(pool: seq<Item>, id: string, bound: nat, limit: Option<U32>, filters: StatusFilters)
    ensures var page := OlderVisit(id, bound, limit, filters).request.page;
            && Pagination.Parse(page) == Ok(ParsedPageParams(UpperOf(bound), None, None, ResolveLimit(limit)))
            && Paginate(pool, Pagination.Parse(page).value) == PageOf(Older(pool, bound, ResolveLimit(limit)))
  {
    if bound <= U64_MAX {
      DecodeOfEncode(bound);
    }
  }

  // The client goes on with what is older than the page, until a page is empty.
  ghost predicate GoesOlder(client: Client, id: string, items: seq<Item>, bound: nat, limit: Option<U32>,
                            filters: StatusFilters)
  {
    client(OlderVisit(id, bound, limit, filters), PageOf(items)) ==
      if items == [] then None else Some(OlderVisit(id, items[|items| - 1].cursor, limit, filters))
  }

  ghost predicate AlwaysGoesOlder(client: Client, id: string, limit: Option<U32>, filters: StatusFilters) {
    forall items, b: nat :: GoesOlder(client, id, items, b, limit, filters)
  }

  // A response without cursors has no header.
  lemma NoCursorsNoHeader(place: Place, request: StatusesRequest, page: Page)
    requires page.nextCursor == None && page.prevCursor == None
    ensures CursorsOfBytes(CursorsOf(page)) && HeaderOf(place, request, page) == None
  {
  }

  lemma NoHeaderLeadsNowhere(origin: Origin, visit: Visit, page: Page)
    requires page.nextCursor == None && page.prevCursor == None
    ensures NextFollower(origin)(visit, page) == None
  {
    NoCursorsNoHeader(Place(origin, visit.id), visit.request, page);
  }

  lemma PageLeadsOlder(place: Place, request: StatusesRequest, items: seq<Item>)
    requires IsPlain(place) && items != []
    ensures NextFollower(place.origin)(Visit(place.id, request), PageOf(items)) ==
            Some(OlderVisit(place.id, items[|items| - 1].cursor, request.page.limit, request.filters))
  {
    PageCursorsAreBytes(items);
    FollowingNextLink(place, request, PageOf(items));
  }

  lemma FollowerGoesOlder(place: Place, items: seq<Item>, bound: nat, limit: Option<U32>, filters: StatusFilters)
    requires IsPlain(place)
    ensures GoesOlder(NextFollower(place.origin), place.id, items, bound, limit, filters)
  {
    var visit := OlderVisit(place.id, bound, limit, filters);
    if items == [] {
      NoHeaderLeadsNowhere(place.origin, visit, PageOf(items));
    } else {
      PageLeadsOlder(place, visit.request, items);
    }
  }

  lemma FollowerAlwaysGoesOlder(place: Place, limit: Option<U32>, filters: StatusFilters)
    requires IsPlain(place)
    ensures AlwaysGoesOlder(NextFollower(place.origin), place.id, limit, filters)
  {
    forall items, b: nat
      ensures GoesOlder(NextFollower(place.origin), place.id, items, b, limit, filters)
    {
      FollowerGoesOlder(place, items, b, limit, filters);
    }
  }

  lemma {:induction false} WalkedUnfolds(client: Client, lists: AccountLists, id: string, k: nat, bound: nat,
                                         limit: Option<U32>, filters: StatusFilters, pages: seq<Page>)
    returns (page: seq<Item>, rest: seq<Page>)
    requires AlwaysGoesOlder(client, id, limit, filters)
    requires Walked(client, lists, k, OlderVisit(id, bound, limit, filters), pages)
    ensures page == Older(lists(id, k), bound, ResolveLimit(limit))
    ensures pages != [] && pages[0] == PageOf(page) && rest == pages[1..]
    ensures if page == [] then rest == []
            else Walked(client, lists, k + 1, OlderVisit(id, page[|page| - 1].cursor, limit, filters), rest)
  {
    page, rest := Older(lists(id, k), bound, ResolveLimit(limit)), pages[1..];
    OlderVisitIsOlder(lists(id, k), id, bound, limit, filters);
    assert GoesOlder(client, id, page, bound, limit, filters);
  }

  // `pages` are the pages older and older than `bound`, up to an empty one.
  ghost predicate ArePages(lists: AccountLists, id: string, k: nat, bound: nat, limit: U32, pages: seq<Page>)
    decreases |pages|
  {
    && pages != []
    && var page := Older(lists(id, k), bound, limit);
    && pages[0] == PageOf(page)
    && if page == [] then |pages| == 1 else ArePages(lists, id, k + 1, page[|page| - 1].cursor, limit, pages[1..])
  }

  lemma {:induction false} PagesAreWalk(lists: AccountLists, id: string, k: nat, bound: nat, limit: U32,
                                        pages: seq<Page>)
    requires ArePages(lists, id, k, bound, limit, pages)
    ensures ItemsOf(pages) == Walk(ListOf(lists, id), k, bound, limit)
    decreases |pages|
  {
    var page := Older(lists(id, k), bound, limit);
    ItemsOfFirst(pages);
    WalkUnfolds(ListOf(lists, id), k, bound, limit);
    if page != [] {
      PagesAreWalk(lists, id, k + 1, page[|page| - 1].cursor, limit, pages[1..]);
    }
  }

  lemma {:induction false} PagesGoOn(lists: AccountLists, id: string, k: nat, bound: nat, limit: U32,
                                     pages: seq<Page>, page: seq<Item>, rest: seq<Page>)
    requires page == Older(lists(id, k), bound, limit)
    requires pages != [] && pages[0] == PageOf(page) && rest == pages[1..]
    requires if page == [] then rest == [] else ArePages(lists, id, k + 1, page[|page| - 1].cursor, limit, rest)
    ensures ArePages(lists, id, k, bound, limit, pages)
  {
  }

  lemma {:induction false} WalkedArePages(client: Client, lists: AccountLists, id: string, k: nat, bound: nat,
                                          limit: Option<U32>, filters: StatusFilters, pages: seq<Page>)
    requires AlwaysGoesOlder(client, id, limit, filters)
    requires Walked(client, lists, k, OlderVisit(id, bound, limit, filters), pages)
    ensures ArePages(lists, id, k, bound, ResolveLimit(limit), pages)
    decreases |pages|
  {
    var page, rest := WalkedUnfolds(client, lists, id, k, bound, limit, filters, pages);
    if page != [] {
      WalkedArePages(client, lists, id, k + 1, page[|page| - 1].cursor, limit, filters, rest);
    }
    PagesGoOn(lists, id, k, bound, ResolveLimit(limit), pages, page, rest);
  }

  lemma {:induction false} WalkedGoesOn(client: Client, lists: AccountLists, id: string, k: nat, bound: nat,
                                        limit: Option<U32>, filters: StatusFilters, rest: seq<Page>)
    requires AlwaysGoesOlder(client, id, limit, filters)
    requires var page := Older(lists(id, k), bound, ResolveLimit(limit));
             if page == [] then rest == []
             else Walked(client, lists, k + 1, OlderVisit(id, page[|page| - 1].cursor, limit, filters), rest)
    ensures var page := Older(lists(id, k), bound, ResolveLimit(limit));
            Walked(client, lists, k, OlderVisit(id, bound, limit, filters), [PageOf(page)] + rest)
  {
    var page := Older(lists(id, k), bound, ResolveLimit(limit));
    OlderVisitIsOlder(lists(id, k), id, bound, limit, filters);
    assert GoesOlder(client, id, page, bound, limit, filters);
    assert ([PageOf(page)] + rest)[1..] == rest;
  }

  // Every walk comes to an end.
  lemma {:induction false} WalkEnds(client: Client, lists: AccountLists, id: string, k: nat, bound: nat,
                                    limit: Option<U32>, filters: StatusFilters) returns (pages: seq<Page>)
    requires AlwaysGoesOlder(client, id, limit, filters)
    ensures Walked(client, lists, k, OlderVisit(id, bound, limit, filters), pages)
    decreases bound
  {
    var page := Older(lists(id, k), bound, ResolveLimit(limit));
    var rest: seq<Page> := [];
    if page != [] {
      WalkUnfolds(ListOf(lists, id), k, bound, ResolveLimit(limit));
      rest := WalkEnds(client, lists, id, k + 1, page[|page| - 1].cursor, limit, filters);
    }
    WalkedGoesOn(client, lists, id, k, bound, limit, filters, rest);
    pages := [PageOf(page)] + rest;
  }

  lemma {:induction false} FollowedIsWalk(place: Place, lists: AccountLists, limit: Option<U32>, filters: StatusFilters,
                                          pages: seq<Page>)
    requires IsPlain(place)
    requires Walked(NextFollower(place.origin), lists, 0, FirstVisit(place.id, limit, filters), pages)
    ensures ItemsOf(pages) == Walk(ListOf(lists, place.id), 0, NO_BOUND, ResolveLimit(limit))
  {
    FollowerAlwaysGoesOlder(place, limit, filters);
    WalkedArePages(NextFollower(place.origin), lists, place.id, 0, NO_BOUND, limit, filters, pages);
    PagesAreWalk(lists, place.id, 0, NO_BOUND, ResolveLimit(limit), pages);
  }

  // The next visit after a page is to the account that the id of the place is routed to.
  lemma PageLeadsToRoutedId(place: Place, request: StatusesRequest, items: seq<Item>)
    requires IsPlainOrigin(place.origin) && IsPrintable(place)
    ensures var next := NextFollower(place.origin)(Visit(place.id, request), PageOf(items));
            next.Some? ==> RoutedId(SentPath(place.id)) == Some(next.value.id)
  {
    if items == [] {
      NoHeaderLeadsNowhere(place.origin, Visit(place.id, request), PageOf(items));
    } else {
      PageCursorsAreBytes(items);
      NextLeadsToRoutedId(place, request, PageOf(items));
    }
  }

  lemma NextLeadsToRoutedId(place: Place, request: StatusesRequest, page: Page)
    requires IsPlainOrigin(place.origin) && IsPrintable(place)
    requires CursorsOfBytes(CursorsOf(page)) && page.nextCursor.Some?
    ensures var next := Follow(HeaderOf(place, request, page), "next");
            next.Some? ==> RoutedId(SentPath(place.id)) == Some(next.value.id)
  {
    var cursor := page.nextCursor.value;
    NextTarget(place, request, page);
    FollowingVisits(place, request, page, "next", LinkUrl(place, request, "max_id", cursor));
    LinkLeadsToRoutedId(place, request, "max_id", cursor);
  }

  lemma {:induction false} WalkCoversAll(pools: nat -> Pool, limit: U32, walk: seq<seq<Item>>)
    requires limit > 0 && walk == Walk(pools, 0, NO_BOUND, limit)
    ensures forall c :: Stays(pools, 0, |walk|, c) ==> Lists(Flatten(walk), c)
  {
    forall c | Stays(pools, 0, |walk|, c)
      ensures Lists(Flatten(walk), c)
    {
      WalkCovers(pools, 0, NO_BOUND, limit, c);
    }
  }

  // A client that follows `next` to the end, while the list is edited in any way between its
  // requests, gets items newest first and none twice; and unless it asked for a limit of 0 it gets
  // every item that stayed in the list. The id of the account must be plain.
  lemma {:induction false} FollowingNextVisitsEverything(place: Place, lists: AccountLists, limit: Option<U32>,
                                                         filters: StatusFilters, pages: seq<Page>)
    requires IsPlain(place)
    requires Walked(NextFollower(place.origin), lists, 0, FirstVisit(place.id, limit, filters), pages)
    ensures Descending(Flatten(ItemsOf(pages)))
    ensures limit != Some(0) ==>
              forall c :: Stays(ListOf(lists, place.id), 0, |pages|, c) ==> Lists(Flatten(ItemsOf(pages)), c)
  {
    FollowedIsWalk(place, lists, limit, filters, pages);
    WalkDescends(ListOf(lists, place.id), 0, NO_BOUND, ResolveLimit(limit));
    if limit != Some(0) {
      WalkCoversAll(ListOf(lists, place.id), ResolveLimit(limit), ItemsOf(pages));
    }
  }

  // Such a client always comes to an end, whatever happens to the list.
  lemma {:induction false} FollowingNextEnds(
    place: Place, lists: AccountLists, limit: Option<U32>, filters: StatusFilters)
    returns (pages: seq<Page>)
    requires IsPlain(place)
    ensures Walked(NextFollower(place.origin), lists, 0, FirstVisit(place.id, limit, filters), pages)
  {
    FollowerAlwaysGoesOlder(place, limit, filters);
    pages := WalkEnds(NextFollower(place.origin), lists, place.id, 0, NO_BOUND, limit, filters);
  }

  // The list of one account does not change.
  ghost predicate IsUnchanged(lists: AccountLists, id: string, pool: seq<Item>) {
    Descending(pool) && ListOf(lists, id) == Always(pool)
  }

  // On an unchanged list the responses join up to the list, unless the limit is 0 and there is
  // something to list.
  lemma {:induction false} FollowingNextListsEverything(place: Place, lists: AccountLists, pool: seq<Item>,
                                                        limit: Option<U32>, filters: StatusFilters, pages: seq<Page>)
    requires IsPlain(place) && IsUnchanged(lists, place.id, pool)
    requires Walked(NextFollower(place.origin), lists, 0, FirstVisit(place.id, limit, filters), pages)
    ensures Flatten(ItemsOf(pages)) == pool <==> limit != Some(0) || pool == []
  {
    FollowedIsWalk(place, lists, limit, filters, pages);
    UnchangedWalkIsWhole(pool, ResolveLimit(limit));
  }

  // A client that walks a list by a lost id gets the first page and no more, whatever the list holds.
  lemma {:induction false} LostWalkStops(place: Place, lists: AccountLists, limit: Option<U32>,
                                         filters: StatusFilters, pages: seq<Page>)
    requires IsPlainOrigin(place.origin) && IsPrintable(place) && RoutedId(SentPath(place.id)) == None
    requires Walked(NextFollower(place.origin), lists, 0, FirstVisit(place.id, limit, filters), pages)
    ensures pages == [PageOf(Older(lists(place.id, 0), NO_BOUND, ResolveLimit(limit)))]
  {
    var visit := FirstVisit(place.id, limit, filters);
    var items := Older(lists(place.id, 0), NO_BOUND, ResolveLimit(limit));
    OlderVisitIsOlder(lists(place.id, 0), place.id, NO_BOUND, limit, filters);
    PageLeadsToRoutedId(place, visit.request, items);
  }

  // So it is for an account named by its URI.
  lemma {:induction false} UriWalkStops(place: Place, lists: AccountLists, limit: Option<U32>, filters: StatusFilters,
                                        pages: seq<Page>)
    requires IsPlainOrigin(place.origin) && IsPrintable(place) && AfterMark(Until(place.id, PATH_STOPS)).Some?
    requires Walked(NextFollower(place.origin), lists, 0, FirstVisit(place.id, limit, filters), pages)
    ensures pages == [PageOf(Older(lists(place.id, 0), NO_BOUND, ResolveLimit(limit)))]
  {
    UriIsLost(place.id);
    LostWalkStops(place, lists, limit, filters, pages);
  }

  // ---------- When walks cover the list ----------

  // Every cursor that stays in the list of the account is on one of the pages.
  ghost predicate Covers(lists: AccountLists, id: string, pages: seq<Page>) {
    forall c :: Stays(ListOf(lists, id), 0, |pages|, c) ==> Lists(Flatten(ItemsOf(pages)), c)
  }

  // There is a walk that comes to an end, and it covers the list.
  ghost predicate HasCoveringWalk(place: Place, lists: AccountLists, limit: Option<U32>, filters: StatusFilters) {
    exists pages ::
      && Walked(NextFollower(place.origin), lists, 0, FirstVisit(place.id, limit, filters), pages)
      && Covers(lists, place.id, pages)
  }

  ghost predicate IsAlwaysCovered(place: Place) {
    forall lists, limit, filters :: limit != Some(0) ==> HasCoveringWalk(place, lists, limit, filters)
  }

  lemma {:induction false} PlainIsCovered(place: Place, lists: AccountLists, limit: Option<U32>, filters: StatusFilters)
    requires IsPlain(place) && limit != Some(0)
    ensures HasCoveringWalk(place, lists, limit, filters)
  {
    var pages := FollowingNextEnds(place, lists, limit, filters);
    FollowingNextVisitsEverything(place, lists, limit, filters, pages);
    assert Covers(lists, place.id, pages);
  }

  // Two items of one account; the other accounts have none.
  const TWO_ITEMS: Pool := [Item(2, ""), Item(1, "")]
  const NO_ITEMS: Pool := []

  function OnlyListOf(id: string): AccountLists {
    (other: string, k: nat) => if other == id then TWO_ITEMS else NO_ITEMS
  }

  lemma FirstOfTwo()
    ensures Older(TWO_ITEMS, NO_BOUND, ResolveLimit(Some(1))) == [Item(2, "")]
  {
    var page := Older(TWO_ITEMS, NO_BOUND, ResolveLimit(Some(1)));
    var a := OlderPage(TWO_ITEMS, NO_BOUND, ResolveLimit(Some(1)));
    assert a == 0 && |page| == 1;
    assert page[0] == TWO_ITEMS[0];
  }

  lemma NothingOnNoPage(params: ParsedPageParams)
    ensures Paginate(NO_ITEMS, params) == PageOf([])
  {
  }

  // A walk that leaves the account sees nothing more.
  lemma {:induction false} WalkAmongOthersEnds(origin: Origin, id: string, visit: Visit, pages: seq<Page>)
    requires visit.id != id && Walked(NextFollower(origin), OnlyListOf(id), 1, visit, pages)
    ensures pages == [PageOf([])]
  {
    NothingOnNoPage(Pagination.Parse(visit.request.page).value);
    NoHeaderLeadsNowhere(origin, visit, PageOf([]));
  }

  lemma {:induction false} OtherIdMissesItem(place: Place, filters: StatusFilters, pages: seq<Page>)
    requires IsPlainOrigin(place.origin) && IsPrintable(place) && !IsPlainId(place.id)
    requires Walked(NextFollower(place.origin), OnlyListOf(place.id), 0, FirstVisit(place.id, Some(1), filters), pages)
    ensures Flatten(ItemsOf(pages)) == [Item(2, "")]
  {
    var visit, items := FirstVisit(place.id, Some(1), filters), [Item(2, "")];
    OlderVisitIsOlder(TWO_ITEMS, place.id, NO_BOUND, Some(1), filters);
    FirstOfTwo();
    assert pages[0] == PageOf(items);
    PageLeadsToRoutedId(place, visit.request, items);
    RoutedIdIsTheIdExactly(place.id);
    ItemsOfFirst(pages);
    var next := NextFollower(place.origin)(visit, PageOf(items));
    if next.Some? {
      WalkAmongOthersEnds(place.origin, place.id, next.value, pages[1..]);
      ItemsOfFirst(pages[1..]);
    }
    FlattenOfFew(items, ItemsOf(pages[1..]));
  }

  lemma FlattenOfFew(items: seq<Item>, rest: seq<seq<Item>>)
    requires rest == [] || (|rest| == 1 && rest[0] == [])
    ensures Flatten([items] + rest) == items
  {
    assert ([items] + rest)[1..] == rest;
    if rest != [] {
      assert rest[1..] == [] && Flatten(rest[1..]) == [];
    }
    assert Flatten(rest) == [];
  }

  lemma SecondStays(id: string, n: nat)
    ensures Stays(ListOf(OnlyListOf(id), id), 0, n, 1)
  {
    assert TWO_ITEMS[1].cursor == 1;
  }

  lemma {:induction false} OtherIdIsNotCovered(place: Place, filters: StatusFilters)
    requires IsPlainOrigin(place.origin) && IsPrintable(place) && !IsPlainId(place.id)
    ensures !HasCoveringWalk(place, OnlyListOf(place.id), Some(1), filters)
  {
    var lists := OnlyListOf(place.id);
    forall pages | Walked(NextFollower(place.origin), lists, 0, FirstVisit(place.id, Some(1), filters), pages)
      ensures !Covers(lists, place.id, pages)
    {
      OtherIdMissesItem(place, filters, pages);
      SecondStays(place.id, |pages|);
      assert !Lists([Item(2, "")], 1);
    }
  }

  // Whatever happens to the lists, a client that follows `next` comes to an end and gets everything
  // that stayed, exactly if the id of the account is plain.
  lemma WalksCoverExactly(place: Place)
    requires IsPlainOrigin(place.origin) && IsPrintable(place)
    ensures IsAlwaysCovered(place) <==> IsPlainId(place.id)
  {
    var none := StatusFilters(false, false, false, false);
    if IsPlainId(place.id) {
      forall lists, limit, filters | limit != Some(0)
        ensures HasCoveringWalk(place, lists, limit, filters)
      {
        PlainIsCovered(place, lists, limit, filters);
      }
    } else {
      OtherIdIsNotCovered(place, none);
    }
  }

  // ---------- Going back ----------

  // A visit that asks for what is newer than `lower`, as a `prev` link makes it.
  function NewerVisit(id: string, lower: StatusId, limit: Option<U32>, filters: StatusFilters): Visit {
    Visit(id, StatusesRequest(PageParams(None, None, Some(Encode(lower)), limit), filters))
  }

  lemma NewerVisitIsNewer(pool: seq<Item>, id: string, lower: StatusId, limit: Option<U32>, filters: StatusFilters)
    ensures var page := NewerVisit(id, lower, limit, filters).request.page;
            && Pagination.Parse(page) == Ok(ParsedPageParams(None, None, Some(lower), ResolveLimit(limit)))
            && Paginate(pool, Pagination.Parse(page).value) == PageOf(Newer(pool, lower, ResolveLimit(limit)))
  {
    DecodeOfEncode(lower);
  }

  // Every page leads by `prev` to what is newer than its first item.
  lemma FollowingPrev(place: Place, request: StatusesRequest, items: seq<Item>)
    requires IsPlain(place) && items != []
    ensures CursorsOfBytes(CursorsOf(PageOf(items)))
    ensures Follow(HeaderOf(place, request, PageOf(items)), "prev") ==
            Some(NewerVisit(place.id, items[0].cursor, request.page.limit, request.filters))
  {
    PageCursorsAreBytes(items);
    FollowingPrevLink(place, request, PageOf(items));
  }

  // `prev` leads to the same account and filters, and gets `before` from its list.
  ghost predicate LeadsBack(
    place: Place, pool: seq<Item>, request: StatusesRequest, items: seq<Item>, before: seq<Item>)
  {
    && CursorsOfBytes(CursorsOf(PageOf(items)))
    && var back := Follow(HeaderOf(place, request, PageOf(items)), "prev");
    && back.Some? && back.value.id == place.id && back.value.request.filters == request.filters
    && Pagination.Parse(back.value.request.page).Ok?
    && Paginate(pool, Pagination.Parse(back.value.request.page).value).items == before
  }

  // From any further page of a walk over an unchanged list, `prev` leads back to the page before.
  // By `FollowedIsWalk`, these are the pages a client gets that follows `next`.
  lemma {:induction false} FollowingPrevGoesBack(place: Place, pool: seq<Item>, request: StatusesRequest,
                                                 pages: seq<Page>, j: nat)
    requires IsPlain(place) && Descending(pool)
    requires ItemsOf(pages) == Walk(Always(pool), 0, NO_BOUND, ResolveLimit(request.page.limit))
    requires j + 1 < |pages| && pages[j + 1].items != []
    ensures LeadsBack(place, pool, request, pages[j + 1].items, pages[j].items)
  {
    var limit := request.page.limit;
    assert ItemsOf(pages)[j] == pages[j].items && ItemsOf(pages)[j + 1] == pages[j + 1].items;
    PrevWalksBack(pool, NO_BOUND, ResolveLimit(limit), j);
    FollowingPrev(place, request, pages[j + 1].items);
    NewerVisitIsNewer(pool, place.id, pages[j + 1].items[0].cursor, limit, request.filters);
  }
}
