/** Cursor pagination (src/api/pagination.rs): one page of a newest-first list, and whole walks
  over a list that may change between requests.
 */
module Pagination {
  import opened Arithmetic
  import opened Wrappers
  import Decimal

  const MAX_LIMIT := 40
  const DEFAULT_LIMIT := 20
  const U64_MAX: nat := 0xFFFF_FFFF_FFFF_FFFF

  // The value of a `StatusIdCursor`: an unsigned 64-bit id, larger is newer.
  type StatusId = n: nat | n <= U64_MAX

  function ResolveLimit(requested: Option<U32>): (limit: U32)
    ensures limit <= 40
    ensures limit == 0 <==> requested == Some(0)
    ensures requested == None ==> limit == 20
    ensures requested.Some? ==> limit == if requested.value <= 40 then requested.value else 40
  {
    match requested
    case None => DEFAULT_LIMIT
    case Some(n) => if n < MAX_LIMIT then n else MAX_LIMIT
  }

  datatype PageParams = PageParams(
    maxId: Option<string>,
    sinceId: Option<string>,
    minId: Option<string>,
    limit: Option<U32>)

  datatype ParsedPageParams = ParsedPageParams(
    maxId: Option<StatusId>,
    sinceId: Option<StatusId>,
    minId: Option<StatusId>,
    limit: U32)

  datatype ParseError = InvalidCursor(raw: string)

  function Encode(c: StatusId): string {
    Decimal.Print(c)
  }

  function Decode(raw: string): Result<StatusId, ParseError> {
    match Decimal.Parse(raw, U64_MAX)
    case Some(n) => Ok(n)
    case None => Err(InvalidCursor(raw))
  }

  lemma DecodeOfEncode(c: StatusId)
    ensures Decode(Encode(c)) == Ok(c)
  {
    Decimal.ParseOfPrint(c, U64_MAX);
  }

  function DecodeOptional(raw: Option<string>): Result<Option<StatusId>, ParseError> {
    match raw
    case None => Ok(None)
    case Some(text) =>
      var c :- Decode(text);
      Ok(Some(c))
  }

  function Parse(p: PageParams): Result<ParsedPageParams, ParseError> {
    var maxId :- DecodeOptional(p.maxId);
    var sinceId :- DecodeOptional(p.sinceId);
    var minId :- DecodeOptional(p.minId);
    Ok(ParsedPageParams(maxId, sinceId, minId, ResolveLimit(p.limit)))
  }

  // A bound is not sent, or it is sent as the text of an unsigned 64-bit number.
  ghost predicate IsBound(raw: Option<string>) {
    raw.Some? ==> exists n: nat :: n <= U64_MAX && Decimal.IsTextOf(raw.value, n)
  }

  // The bound is the number whose text was sent, or none if none was.
  ghost predicate IsBoundOf(raw: Option<string>, bound: Option<StatusId>) {
    match bound
    case Some(n) => raw.Some? && Decimal.IsTextOf(raw.value, n)
    case None => raw.None?
  }

  lemma DecodedExactly(raw: Option<string>)
    ensures DecodeOptional(raw).Ok? <==> IsBound(raw)
    ensures match DecodeOptional(raw)
            case Ok(bound) => IsBoundOf(raw, bound)
            case Err(e) => raw.Some? && e == InvalidCursor(raw.value)
  {
    if raw.Some? {
      if n: nat :| n <= U64_MAX && Decimal.IsTextOf(raw.value, n) {
        Decimal.ParseExactly(raw.value, U64_MAX, n);
      }
      if Decimal.Parse(raw.value, U64_MAX).Some? {
        Decimal.ParseExactly(raw.value, U64_MAX, Decimal.Parse(raw.value, U64_MAX).value);
      }
    }
  }

  // A request is accepted exactly if every bound it sends is an unsigned 64-bit number. Then each
  // bound is the number of its own text, and the limit is the one sent, 20 without one and 40 at
  // most. Otherwise the error carries the first bad text of `max_id`, `since_id` and `min_id`.
  lemma ParseExactly(p: PageParams)
    ensures Parse(p).Ok? <==> IsBound(p.maxId) && IsBound(p.sinceId) && IsBound(p.minId)
    ensures match Parse(p)
            case Ok(parsed) =>
              && IsBoundOf(p.maxId, parsed.maxId)
              && IsBoundOf(p.sinceId, parsed.sinceId)
              && IsBoundOf(p.minId, parsed.minId)
              && parsed.limit == (match p.limit case None => 20 case Some(n) => if n <= 40 then n else 40)
            case Err(e) =>
              if !IsBound(p.maxId) then p.maxId.Some? && e == InvalidCursor(p.maxId.value)
              else if !IsBound(p.sinceId) then p.sinceId.Some? && e == InvalidCursor(p.sinceId.value)
              else p.minId.Some? && !IsBound(p.minId) && e == InvalidCursor(p.minId.value)
  {
    DecodedExactly(p.maxId);
    DecodedExactly(p.sinceId);
    DecodedExactly(p.minId);
  }

  // A listed item: the cursor `cursor_of` extracts from it, and the rest of its content.
  datatype Item = Item(cursor: StatusId, content: string)

  datatype Page = Page(items: seq<Item>, prevCursor: Option<string>, nextCursor: Option<string>)

  predicate InWindow(c: StatusId, lower: Option<StatusId>, upper: Option<StatusId>) {
    (lower.None? || c > lower.value) && (upper.None? || c < upper.value)
  }

  // The items from the k-th on that lie strictly between the two bounds, in list order.
  function WindowFrom(pool: seq<Item>, k: nat, lower: Option<StatusId>, upper: Option<StatusId>): seq<Item>
    decreases |pool| - k
  {
    if k >= |pool| then [] else
    (if InWindow(pool[k].cursor, lower, upper) then [pool[k]] else []) + WindowFrom(pool, k + 1, lower, upper)
  }

  function Window(pool: seq<Item>, lower: Option<StatusId>, upper: Option<StatusId>): seq<Item> {
    WindowFrom(pool, 0, lower, upper)
  }

  function Lower(params: ParsedPageParams): Option<StatusId> {
    if params.sinceId.Some? then params.sinceId else params.minId
  }

  function SaturatingSub(x: nat, y: nat): nat {
    if x >= y then x - y else 0
  }

  function Take(s: seq<Item>, n: nat): seq<Item> {
    if n <= |s| then s[..n] else s
  }

  function Select(filtered: seq<Item>, anchorOldest: bool, limit: U32): seq<Item> {
    if anchorOldest then filtered[SaturatingSub(|filtered|, limit)..] else Take(filtered, limit)
  }

  function PageOf(selected: seq<Item>): Page {
    if selected == [] then Page([], None, None)
    else Page(selected, Some(Encode(selected[0].cursor)), Some(Encode(selected[|selected| - 1].cursor)))
  }

  function Paginate(pool: seq<Item>, params: ParsedPageParams): Page {
    var anchorOldest := params.sinceId.None? && params.minId.Some?;
    PageOf(Select(Window(pool, Lower(params), params.maxId), anchorOldest, params.limit))
  }

  // ---------- One page ----------

  // Newest first, with distinct cursors: what the repository query returns.
  ghost predicate Descending(pool: seq<Item>) {
    forall i, j :: 0 <= i < j < |pool| ==> pool[i].cursor > pool[j].cursor
  }

  // `s` stands in `pool` from position `a` on, without gaps.
  ghost predicate StandsAt(s: seq<Item>, pool: seq<Item>, a: nat) {
    a + |s| <= |pool| && forall i :: 0 <= i < |s| ==> s[i] == pool[a + i]
  }

  // The bounds cut `pool` at `a` and `b`: of the items from the k-th on, those before `a` are too
  // new, those from `b` on too old, and those between are inside.
  ghost predicate Cuts(pool: seq<Item>, k: nat, lower: Option<StatusId>, upper: Option<StatusId>, a: nat, b: nat) {
    k <= a <= b <= |pool| && TooNew(pool, k, a, upper) && Inside(pool, a, b, lower, upper) && TooOld(pool, b, lower)
  }

  // The bounds as numbers; one that was not sent excludes nothing.
  function Ceiling(upper: Option<StatusId>): nat {
    if upper.Some? then upper.value else NO_BOUND
  }

  function Floor(lower: Option<StatusId>): int {
    if lower.Some? then lower.value else -1
  }

  ghost predicate TooNew(pool: seq<Item>, from: nat, to: nat, upper: Option<StatusId>)
    requires from <= to <= |pool|
  {
    forall i :: from <= i < to ==> pool[i].cursor >= Ceiling(upper)
  }

  ghost predicate Inside(pool: seq<Item>, from: nat, to: nat, lower: Option<StatusId>, upper: Option<StatusId>)
    requires from <= to <= |pool|
  {
    forall i :: from <= i < to ==> InWindow(pool[i].cursor, lower, upper)
  }

  ghost predicate TooOld(pool: seq<Item>, from: nat, lower: Option<StatusId>)
    requires from <= |pool|
  {
    forall i :: from <= i < |pool| ==> pool[i].cursor <= Floor(lower)
  }

  // The list falls below `bound` at position `a`, and not before.
  ghost predicate CutAt(pool: seq<Item>, bound: int, a: nat) {
    && a <= |pool|
    && (forall i :: 0 <= i < a ==> pool[i].cursor >= bound)
    && (forall i :: a <= i < |pool| ==> pool[i].cursor < bound)
  }

  lemma CutIsUnique(pool: seq<Item>, bound: int, a: nat, b: nat)
    requires CutAt(pool, bound, a) && CutAt(pool, bound, b)
    ensures a == b
  {
    var belowAtA := a < |pool| && pool[a].cursor < bound;
    var belowAtB := b < |pool| && pool[b].cursor < bound;
  }

  lemma {:induction false} FirstBelow(pool: seq<Item>, k: nat, bound: int) returns (a: nat)
    requires Descending(pool) && k <= |pool|
    requires forall i :: 0 <= i < k ==> pool[i].cursor >= bound
    ensures k <= a && CutAt(pool, bound, a)
    decreases |pool| - k
  {
    if k == |pool| || pool[k].cursor < bound {
      a := k;
    } else {
      a := FirstBelow(pool, k + 1, bound);
    }
  }

  lemma CutsExist(pool: seq<Item>, lower: Option<StatusId>, upper: Option<StatusId>) returns (a: nat, b: nat)
    requires Descending(pool)
    ensures Cuts(pool, 0, lower, upper, a, b)
  {
    a := 0;
    if upper.Some? {
      a := FirstBelow(pool, 0, upper.value);
    }
    b := |pool|;
    if lower.Some? {
      b := FirstBelow(pool, 0, lower.value + 1);
      if b < a {
        b := a;
      }
    }
  }

  // The cuts seen from the next item on.
  lemma CutsStep(pool: seq<Item>, k: nat, lower: Option<StatusId>, upper: Option<StatusId>, a: nat, b: nat)
    requires Cuts(pool, k, lower, upper, a, b) && k < |pool|
    ensures k < a ==> Cuts(pool, k + 1, lower, upper, a, b) && !InWindow(pool[k].cursor, lower, upper)
    ensures a <= k < b ==> Cuts(pool, k + 1, lower, upper, a + 1, b) && InWindow(pool[k].cursor, lower, upper)
    ensures b <= k ==> Cuts(pool, k + 1, lower, upper, k + 1, k + 1) && !InWindow(pool[k].cursor, lower, upper)
  {
    if k < a {
      assert TooNew(pool, k + 1, a, upper);
    } else if k < b {
      assert Inside(pool, k + 1, b, lower, upper);
      assert TooNew(pool, k + 1, k + 1, upper);
    } else {
      assert TooOld(pool, k + 1, lower);
      assert Inside(pool, k + 1, k + 1, lower, upper);
      assert TooNew(pool, k + 1, k + 1, upper);
    }
  }

  lemma OneMoreStands(first: Item, rest: seq<Item>, pool: seq<Item>, k: nat)
    requires k < |pool| && first == pool[k] && StandsAt(rest, pool, k + 1)
    ensures StandsAt([first] + rest, pool, k)
  {
  }

  lemma {:induction false} WindowBetweenCuts(
    pool: seq<Item>, k: nat, lower: Option<StatusId>, upper: Option<StatusId>, a: nat, b: nat)
    requires Cuts(pool, k, lower, upper, a, b)
    ensures |WindowFrom(pool, k, lower, upper)| == b - a
    ensures StandsAt(WindowFrom(pool, k, lower, upper), pool, a)
    decreases |pool| - k
  {
    if k < |pool| {
      var rest := WindowFrom(pool, k + 1, lower, upper);
      CutsStep(pool, k, lower, upper, a, b);
      if k < a {
        WindowBetweenCuts(pool, k + 1, lower, upper, a, b);
      } else if k < b {
        WindowBetweenCuts(pool, k + 1, lower, upper, a + 1, b);
        OneMoreStands(pool[k], rest, pool, k);
      } else {
        WindowBetweenCuts(pool, k + 1, lower, upper, k + 1, k + 1);
      }
    }
  }

  lemma WindowIsBlock(pool: seq<Item>, lower: Option<StatusId>, upper: Option<StatusId>) returns (a: nat, b: nat)
    requires Descending(pool)
    ensures Cuts(pool, 0, lower, upper, a, b)
    ensures |Window(pool, lower, upper)| == b - a && StandsAt(Window(pool, lower, upper), pool, a)
  {
    a, b := CutsExist(pool, lower, upper);
    WindowBetweenCuts(pool, 0, lower, upper, a, b);
  }

  lemma SelectStands(s: seq<Item>, pool: seq<Item>, a: nat, limit: U32)
    requires StandsAt(s, pool, a)
    ensures var n := Min(|s|, limit);
            && |Select(s, false, limit)| == n && StandsAt(Select(s, false, limit), pool, a)
            && |Select(s, true, limit)| == n && StandsAt(Select(s, true, limit), pool, a + |s| - n)
  {
  }

  // The items of a page are a contiguous block between `a` and `b`: only `limit` cuts it short, at
  // the older end, or at the newer end if the page is anchored at the oldest item.
  ghost predicate IsBlock(items: seq<Item>, pool: seq<Item>, a: nat, b: nat, anchorOldest: bool, limit: U32) {
    && a <= b
    && |items| == Min(b - a, limit)
    && StandsAt(items, pool, if anchorOldest then b - |items| else a)
  }

  lemma SelectedIsBlock(w: seq<Item>, pool: seq<Item>, a: nat, b: nat, anchorOldest: bool, limit: U32)
    requires a <= b && |w| == b - a && StandsAt(w, pool, a)
    ensures IsBlock(Select(w, anchorOldest, limit), pool, a, b, anchorOldest, limit)
  {
    SelectStands(w, pool, a, limit);
  }

  lemma PageItems(pool: seq<Item>, params: ParsedPageParams)
    ensures Paginate(pool, params) == PageOf(Paginate(pool, params).items)
    ensures Paginate(pool, params).items ==
            Select(Window(pool, Lower(params), params.maxId), params.sinceId.None? && params.minId.Some?, params.limit)
  {
  }

  // Every page is a contiguous block of the pool. `since_id` and `max_id` pages hold the newest
  // items of their window, `min_id` pages the oldest, and only `limit` cuts a page short.
  lemma PageIsBlock(pool: seq<Item>, params: ParsedPageParams) returns (a: nat, b: nat)
    requires Descending(pool)
    ensures Cuts(pool, 0, Lower(params), params.maxId, a, b)
    ensures IsBlock(Paginate(pool, params).items, pool, a, b, params.sinceId.None? && params.minId.Some?, params.limit)
  {
    a, b := WindowIsBlock(pool, Lower(params), params.maxId);
    var w, anchorOldest := Window(pool, Lower(params), params.maxId), params.sinceId.None? && params.minId.Some?;
    SelectedIsBlock(w, pool, a, b, anchorOldest, params.limit);
    PageItems(pool, params);
  }

  lemma {:induction false} NewestCursor(items: seq<Item>)
    requires items != []
    ensures var page := PageOf(items);
            page.prevCursor.Some? && Decode(page.prevCursor.value) == Ok(items[0].cursor)
  {
    DecodeOfEncode(items[0].cursor);
  }

  lemma {:induction false} OldestCursor(items: seq<Item>)
    requires items != []
    ensures var page := PageOf(items);
            page.nextCursor.Some? && Decode(page.nextCursor.value) == Ok(items[|items| - 1].cursor)
  {
    DecodeOfEncode(items[|items| - 1].cursor);
  }

  // The two cursors of a page decode to its newest and its oldest item; an empty page has none.
  lemma {:induction false} PageCursors(pool: seq<Item>, params: ParsedPageParams)
    ensures var page := Paginate(pool, params);
            if page.items == [] then page.prevCursor == None && page.nextCursor == None
            else && page.prevCursor.Some? && Decode(page.prevCursor.value) == Ok(page.items[0].cursor)
                 && page.nextCursor.Some? && Decode(page.nextCursor.value) == Ok(page.items[|page.items| - 1].cursor)
  {
    var items := Paginate(pool, params).items;
    PageItems(pool, params);
    if items != [] {
      NewestCursor(items);
      OldestCursor(items);
    }
  }

  lemma SelectEnds(w: seq<Item>, limit: U32)
    requires Descending(w)
    ensures Select(w, false, limit) == w[..Min(|w|, limit)]
    ensures Select(w, true, limit) == w[|w| - Min(|w|, limit)..]
    ensures Select(w, false, limit) == Select(w, true, limit) <==> |w| <= limit || limit == 0
  {
    if 0 < limit < |w| {
      assert Select(w, false, limit)[0] == w[0] && Select(w, true, limit)[0] == w[|w| - limit];
    }
  }

  // Over one window, `since_id` and `min_id` return its two ends; they differ exactly when the
  // window holds more than a positive `limit` items.
  lemma SinceAndMinTakeOppositeEnds(pool: seq<Item>, bound: StatusId, upper: Option<StatusId>, limit: U32)
    requires Descending(pool)
    ensures var w := Window(pool, Some(bound), upper);
            var since := Paginate(pool, ParsedPageParams(upper, Some(bound), None, limit)).items;
            var min := Paginate(pool, ParsedPageParams(upper, None, Some(bound), limit)).items;
            && since == w[..Min(|w|, limit)]
            && min == w[|w| - Min(|w|, limit)..]
            && (since == min <==> |w| <= limit || limit == 0)
  {
    var w := Window(pool, Some(bound), upper);
    assert Descending(w) by {
      var a, b := WindowIsBlock(pool, Some(bound), upper);
    }
    SelectEnds(w, limit);
    PageItems(pool, ParsedPageParams(upper, Some(bound), None, limit));
    PageItems(pool, ParsedPageParams(upper, None, Some(bound), limit));
  }

  // When both lower bounds are sent, `min_id` is ignored.
  lemma SinceWinsOverMin(pool: seq<Item>, params: ParsedPageParams)
    requires params.sinceId.Some?
    ensures Paginate(pool, params) == Paginate(pool, params.(minId := None))
  {
  }

  // ---------- Older pages ----------

  // A request for items older than `bound`, which is past every id when there is no `max_id`.
  const NO_BOUND: nat := U64_MAX + 1

  function UpperOf(bound: nat): Option<StatusId> {
    if bound <= U64_MAX then Some(bound) else None
  }

  function Older(pool: seq<Item>, bound: nat, limit: U32): seq<Item> {
    Select(Window(pool, None, UpperOf(bound)), false, limit)
  }

  // An older page starts at the first item below the bound.
  lemma OlderPage(pool: seq<Item>, bound: nat, limit: U32) returns (a: nat)
    requires Descending(pool)
    ensures CutAt(pool, bound, a)
    ensures |Older(pool, bound, limit)| == Min(|pool| - a, limit)
    ensures StandsAt(Older(pool, bound, limit), pool, a)
  {
    a := FirstBelow(pool, 0, bound);
    if bound > U64_MAX && a > 0 {
      var newest: StatusId := pool[0].cursor;
    }
    assert Cuts(pool, 0, None, UpperOf(bound), a, |pool|);
    WindowBetweenCuts(pool, 0, None, UpperOf(bound), a, |pool|);
    SelectStands(Window(pool, None, UpperOf(bound)), pool, a, limit);
  }

  // One state of the list.
  type Pool = p: seq<Item> | Descending(p) witness []

  // The pages of a walk from the k-th snapshot on, each older than the last item of the one
  // before, up to the first empty page. The list may be edited in any way between two requests.
  // That this is a function shows that every walk ends.
  ghost function Walk(pools: nat -> Pool, k: nat, bound: nat, limit: U32): (pages: seq<seq<Item>>)
    ensures |pages| > 0
    decreases bound
  {
    var page := Older(pools(k), bound, limit);
    if page == [] then [page] else
    var last := page[|page| - 1].cursor;
    assert last < bound by {
      var a := OlderPage(pools(k), bound, limit);
    }
    [page] + Walk(pools, k + 1, last, limit)
  }

  function Flatten(pages: seq<seq<Item>>): seq<Item> {
    if pages == [] then [] else pages[0] + Flatten(pages[1..])
  }

  lemma WalkUnfolds(pools: nat -> Pool, k: nat, bound: nat, limit: U32)
    ensures var page, walk := Older(pools(k), bound, limit), Walk(pools, k, bound, limit);
            if page == [] then walk == [[]] && Flatten(walk) == []
            else var rest := Walk(pools, k + 1, page[|page| - 1].cursor, limit);
                 && page[|page| - 1].cursor < bound
                 && |walk| == 1 + |rest|
                 && Flatten(walk) == page + Flatten(rest)
  {
    var a := OlderPage(pools(k), bound, limit);
    var page, walk := Older(pools(k), bound, limit), Walk(pools, k, bound, limit);
    if page != [] {
      assert walk[1..] == Walk(pools, k + 1, page[|page| - 1].cursor, limit);
    }
  }

  ghost predicate AllBelow(items: seq<Item>, bound: nat) {
    forall i :: 0 <= i < |items| ==> items[i].cursor < bound
  }

  // A page lies below its bound, and what is older than its last item lies below the page.
  lemma PageBeforeRest(pool: seq<Item>, bound: nat, limit: U32, rest: seq<Item>)
    requires Descending(pool) && Descending(rest)
    requires var page := Older(pool, bound, limit); page != [] && AllBelow(rest, page[|page| - 1].cursor)
    ensures var all := Older(pool, bound, limit) + rest;
            Descending(all) && AllBelow(all, bound)
  {
    var page := Older(pool, bound, limit);
    var a := OlderPage(pool, bound, limit);
    assert forall i :: 0 <= i < |page| ==> page[|page| - 1].cursor <= page[i].cursor < bound;
  }

  // Everything a walk returns is below its bound and newest first, so nothing is returned twice.
  lemma {:induction false} WalkDescends(pools: nat -> Pool, k: nat, bound: nat, limit: U32)
    ensures Descending(Flatten(Walk(pools, k, bound, limit)))
    ensures AllBelow(Flatten(Walk(pools, k, bound, limit)), bound)
    decreases bound
  {
    WalkUnfolds(pools, k, bound, limit);
    var page := Older(pools(k), bound, limit);
    if page != [] {
      var last := page[|page| - 1].cursor;
      WalkDescends(pools, k + 1, last, limit);
      PageBeforeRest(pools(k), bound, limit, Flatten(Walk(pools, k + 1, last, limit)));
    }
  }

  // An item with that cursor is listed, whatever its content.
  ghost predicate Lists(items: seq<Item>, c: StatusId) {
    exists i :: 0 <= i < |items| && items[i].cursor == c
  }

  lemma JoinLists(a: seq<Item>, b: seq<Item>, c: StatusId)
    ensures Lists(a + b, c) <==> Lists(a, c) || Lists(b, c)
  {
    if Lists(a, c) {
      var i :| 0 <= i < |a| && a[i].cursor == c;
      assert (a + b)[i].cursor == c;
    }
    if Lists(b, c) {
      var i :| 0 <= i < |b| && b[i].cursor == c;
      assert (a + b)[|a| + i].cursor == c;
    }
  }

  // A listed cursor below the bound is on the page or older than all of it.
  lemma OlderPageCovers(pool: seq<Item>, bound: nat, limit: U32, c: StatusId)
    requires Descending(pool) && limit > 0 && Lists(pool, c) && c < bound
    ensures var page := Older(pool, bound, limit);
            page != [] && (Lists(page, c) || c < page[|page| - 1].cursor)
  {
    var page := Older(pool, bound, limit);
    var a := OlderPage(pool, bound, limit);
    var i :| 0 <= i < |pool| && pool[i].cursor == c;
    if i - a < |page| {
      assert page[i - a] == pool[i];
    } else {
      assert page[|page| - 1] == pool[a + |page| - 1];
    }
  }

  // An item with cursor `c` is in each of the `n` snapshots from the k-th on.
  ghost predicate Stays(pools: nat -> Pool, k: nat, n: nat, c: StatusId) {
    forall j: nat :: k <= j < k + n ==> Lists(pools(j), c)
  }

  // Every item that is in the list at every request of the walk is returned, whether or not its
  // content is edited in the meantime.
  lemma {:induction false} WalkCovers(pools: nat -> Pool, k: nat, bound: nat, limit: U32, c: StatusId)
    requires limit > 0 && c < bound
    requires Stays(pools, k, |Walk(pools, k, bound, limit)|, c)
    ensures Lists(Flatten(Walk(pools, k, bound, limit)), c)
    decreases bound
  {
    var page := Older(pools(k), bound, limit);
    WalkUnfolds(pools, k, bound, limit);
    assert Lists(pools(k), c);
    OlderPageCovers(pools(k), bound, limit, c);
    var last := page[|page| - 1].cursor;
    JoinLists(page, Flatten(Walk(pools, k + 1, last, limit)), c);
    if !Lists(page, c) {
      WalkCovers(pools, k + 1, last, limit, c);
    }
  }

  // ---------- An unchanged list ----------

  function Always(pool: seq<Item>): nat -> Pool
    requires Descending(pool)
  {
    (k: nat) => pool
  }

  ghost predicate TailOf(items: seq<Item>, pool: seq<Item>, a: nat) {
    |items| == |pool| - a && StandsAt(items, pool, a)
  }

  lemma TailJoin(page: seq<Item>, rest: seq<Item>, pool: seq<Item>, a: nat)
    requires StandsAt(page, pool, a) && TailOf(rest, pool, a + |page|)
    ensures TailOf(page + rest, pool, a)
  {
  }

  // On an unchanged list the pages join up to everything below the bound.
  lemma {:induction false} UnchangedWalk(pool: seq<Item>, k: nat, bound: nat, limit: U32, a: nat)
    requires Descending(pool) && limit > 0 && CutAt(pool, bound, a)
    ensures TailOf(Flatten(Walk(Always(pool), k, bound, limit)), pool, a)
    decreases bound
  {
    WalkUnfolds(Always(pool), k, bound, limit);
    var page := Older(pool, bound, limit);
    var a' := OlderPage(pool, bound, limit);
    CutIsUnique(pool, bound, a, a');
    if page != [] {
      var last := page[|page| - 1].cursor;
      NextCut(pool, bound, limit, a);
      UnchangedWalk(pool, k + 1, last, limit, a + |page|);
      TailJoin(page, Flatten(Walk(Always(pool), k + 1, last, limit)), pool, a);
    }
  }

  // What is older than the last item of a page starts where the page ends.
  lemma NextCut(pool: seq<Item>, bound: nat, limit: U32, a: nat)
    requires Descending(pool) && CutAt(pool, bound, a)
    ensures var page := Older(pool, bound, limit);
            page != [] ==> CutAt(pool, page[|page| - 1].cursor, a + |page|)
  {
    var page := Older(pool, bound, limit);
    var a' := OlderPage(pool, bound, limit);
    CutIsUnique(pool, bound, a, a');
    if page != [] {
      assert page[|page| - 1] == pool[a + |page| - 1];
    }
  }

  // A whole walk over an unchanged list gives the list back exactly unless the limit is 0 and
  // there is something to list.
  lemma UnchangedWalkIsWhole(pool: seq<Item>, limit: U32)
    requires Descending(pool)
    ensures Flatten(Walk(Always(pool), 0, NO_BOUND, limit)) == pool <==> limit > 0 || pool == []
  {
    if limit > 0 {
      forall i | 0 <= i < |pool|
        ensures pool[i].cursor < NO_BOUND
      {
        var c: StatusId := pool[i].cursor;
      }
      UnchangedWalk(pool, 0, NO_BOUND, limit, 0);
    } else {
      WalkUnfolds(Always(pool), 0, NO_BOUND, limit);
    }
  }

  // ---------- Newer pages ----------

  function Newer(pool: seq<Item>, lower: StatusId, limit: U32): seq<Item> {
    Select(Window(pool, Some(lower), None), true, limit)
  }

  // A newer page ends right above its bound.
  lemma NewerPage(pool: seq<Item>, lower: StatusId, limit: U32) returns (b: nat)
    requires Descending(pool)
    ensures CutAt(pool, lower + 1, b)
    ensures |Newer(pool, lower, limit)| == Min(b, limit)
    ensures StandsAt(Newer(pool, lower, limit), pool, b - |Newer(pool, lower, limit)|)
  {
    b := FirstBelow(pool, 0, lower + 1);
    assert Cuts(pool, 0, Some(lower), None, 0, b);
    WindowBetweenCuts(pool, 0, Some(lower), None, 0, b);
    SelectStands(Window(pool, Some(lower), None), pool, 0, limit);
  }

  // Two blocks of one list that have their place and their length in common are one.
  lemma SameBlock(s: seq<Item>, t: seq<Item>, pool: seq<Item>, a: nat)
    requires |s| == |t| && StandsAt(s, pool, a) && StandsAt(t, pool, a)
    ensures s == t
  {
  }

  // The full page before position `c` is the newer page above the item at `c`.
  lemma NewerPageBefore(pool: seq<Item>, page: seq<Item>, c: nat, limit: U32)
    requires Descending(pool) && c < |pool| && |page| == limit <= c && StandsAt(page, pool, c - limit)
    ensures Newer(pool, pool[c].cursor, limit) == page
  {
    var b := NewerPage(pool, pool[c].cursor, limit);
    CutIsUnique(pool, pool[c].cursor + 1, b, c);
    SameBlock(Newer(pool, pool[c].cursor, limit), page, pool, c - limit);
  }

  // On an unchanged list, the newer page above the first item of the next page is the page again.
  lemma PrevUndoesNext(pool: seq<Item>, bound: nat, limit: U32)
    requires Descending(pool)
    ensures var page := Older(pool, bound, limit);
            page != [] ==>
              var next := Older(pool, page[|page| - 1].cursor, limit);
              next != [] ==> Newer(pool, next[0].cursor, limit) == page
  {
    var page := Older(pool, bound, limit);
    var a := OlderPage(pool, bound, limit);
    if page != [] {
      var last := page[|page| - 1].cursor;
      var next := Older(pool, last, limit);
      var c := OlderPage(pool, last, limit);
      NextCut(pool, bound, limit, a);
      CutIsUnique(pool, last, a + |page|, c);
      if next != [] {
        assert next[0] == pool[c];
        NewerPageBefore(pool, page, c, limit);
      }
    }
  }

  // The j-th page of a walk, and the one after it.
  lemma {:induction false} WalkPage(pools: nat -> Pool, k: nat, bound: nat, limit: U32, j: nat) returns (b: nat)
    requires j < |Walk(pools, k, bound, limit)|
    ensures Walk(pools, k, bound, limit)[j] == Older(pools(k + j), b, limit)
    ensures j + 1 < |Walk(pools, k, bound, limit)| ==>
      var page := Older(pools(k + j), b, limit);
      page != [] && Walk(pools, k, bound, limit)[j + 1] == Older(pools(k + j + 1), page[|page| - 1].cursor, limit)
    decreases j
  {
    var page := Older(pools(k), bound, limit);
    if j == 0 {
      b := bound;
    } else {
      b := WalkPage(pools, k + 1, page[|page| - 1].cursor, limit, j - 1);
    }
  }

  // The same for every pair of pages of a forward walk.
  lemma PrevWalksBack(pool: seq<Item>, bound: nat, limit: U32, j: nat)
    requires Descending(pool)
    requires j + 1 < |Walk(Always(pool), 0, bound, limit)| && Walk(Always(pool), 0, bound, limit)[j + 1] != []
    ensures var walk := Walk(Always(pool), 0, bound, limit);
            Newer(pool, walk[j + 1][0].cursor, limit) == walk[j]
  {
    var b := WalkPage(Always(pool), 0, bound, limit, j);
    PrevUndoesNext(pool, b, limit);
  }

  // ---------- Catching up ----------

  function Newest(seen: seq<Item>, start: StatusId): StatusId {
    if seen == [] then start else seen[0].cursor
  }

  // What `n` requests return in all, newest first, when each asks for what is newer than the
  // newest item seen so far.
  ghost function CatchUp(pools: nat -> Pool, start: StatusId, n: nat, limit: U32): seq<Item> {
    if n == 0 then [] else
    var seen := CatchUp(pools, start, n - 1, limit);
    Newer(pools(n - 1), Newest(seen, start), limit) + seen
  }

  ghost predicate AllAbove(items: seq<Item>, bound: nat) {
    forall i :: 0 <= i < |items| ==> items[i].cursor > bound
  }

  ghost predicate AllAtMost(items: seq<Item>, bound: nat) {
    forall i :: 0 <= i < |items| ==> items[i].cursor <= bound
  }

  lemma JoinAround(newer: seq<Item>, older: seq<Item>, bound: nat)
    requires Descending(newer) && Descending(older) && AllAbove(newer, bound) && AllAtMost(older, bound)
    ensures Descending(newer + older)
  {
  }

  lemma NewerIsAbove(pool: seq<Item>, lower: StatusId, limit: U32)
    requires Descending(pool)
    ensures Descending(Newer(pool, lower, limit)) && AllAbove(Newer(pool, lower, limit), lower)
  {
    var b := NewerPage(pool, lower, limit);
  }

  lemma NewestIsHighest(seen: seq<Item>, start: StatusId)
    requires Descending(seen) && AllAbove(seen, start)
    ensures AllAtMost(seen, Newest(seen, start)) && Newest(seen, start) >= start
  {
  }

  lemma JoinAbove(newer: seq<Item>, older: seq<Item>, start: nat, bound: nat)
    requires AllAbove(newer, bound) && AllAbove(older, start) && start <= bound
    ensures AllAbove(newer + older, start)
  {
  }

  ghost predicate DescendsTo(items: seq<Item>, start: StatusId) {
    Descending(items) && AllAbove(items, start)
  }

  // What is newer than the newest seen stands before it.
  lemma {:induction false} NewerBeforeSeen(newer: seq<Item>, seen: seq<Item>, start: StatusId, all: seq<Item>)
    requires DescendsTo(seen, start) && DescendsTo(newer, Newest(seen, start)) && all == newer + seen
    ensures DescendsTo(all, start)
  {
    NewestIsHighest(seen, start);
    JoinAround(newer, seen, Newest(seen, start));
    JoinAbove(newer, seen, start, Newest(seen, start));
  }

  // The last request puts its items before what was seen.
  lemma {:induction false} CatchUpUnfolds(pools: nat -> Pool, start: StatusId, n: nat, limit: U32, all: seq<Item>)
    returns (newer: seq<Item>, seen: seq<Item>)
    requires n > 0 && all == CatchUp(pools, start, n, limit)
    ensures all == newer + seen && seen == CatchUp(pools, start, n - 1, limit)
    ensures DescendsTo(newer, Newest(seen, start))
  {
    seen := CatchUp(pools, start, n - 1, limit);
    newer := Newer(pools(n - 1), Newest(seen, start), limit);
    NewerIsAbove(pools(n - 1), Newest(seen, start), limit);
  }

  lemma {:induction false} ReturnedDescends(pools: nat -> Pool, start: StatusId, n: nat, limit: U32, all: seq<Item>)
    requires all == CatchUp(pools, start, n, limit)
    ensures DescendsTo(all, start)
    decreases n
  {
    if n == 0 {
      assert all == [];
    } else {
      var newer, seen := CatchUpUnfolds(pools, start, n, limit, all);
      ReturnedDescends(pools, start, n - 1, limit, seen);
      NewerBeforeSeen(newer, seen, start, all);
    }
  }

  // Nothing is returned twice, and only items newer than the start.
  lemma {:induction false} CatchUpDescends(pools: nat -> Pool, start: StatusId, n: nat, limit: U32)
    ensures DescendsTo(CatchUp(pools, start, n, limit), start)
  {
    ReturnedDescends(pools, start, n, limit, CatchUp(pools, start, n, limit));
  }

  // A block that ends where the cursors reach `lower` lists every cursor between `lower` and its first.
  lemma {:induction false} BlockCovers(
    page: seq<Item>, pool: seq<Item>, top: nat, b: nat, lower: StatusId, c: StatusId)
    requires Descending(pool) && StandsAt(page, pool, top) && top + |page| == b && CutAt(pool, lower + 1, b)
    requires page != [] && Lists(pool, c) && lower < c <= page[0].cursor
    ensures Lists(page, c)
  {
    var i :| 0 <= i < |pool| && pool[i].cursor == c;
    assert page[0] == pool[top];
    assert i < b && top <= i;
    assert page[i - top] == pool[i];
  }

  // A newer page lists every cursor of the list between its bound and its newest item.
  lemma {:induction false} NewerPageCovers(pool: seq<Item>, lower: StatusId, limit: U32, c: StatusId)
    requires Descending(pool) && Lists(pool, c)
    requires lower < c <= Newest(Newer(pool, lower, limit), lower)
    ensures Lists(Newer(pool, lower, limit), c)
  {
    var page := Newer(pool, lower, limit);
    var b := NewerPage(pool, lower, limit);
    BlockCovers(page, pool, b - |page|, b, lower, c);
  }

  // `all` has not skipped `c`.
  ghost predicate NotSkipped(all: seq<Item>, start: StatusId, c: StatusId) {
    start < c <= Newest(all, start) ==> Lists(all, c)
  }

  lemma NewerSkipsNothing(pool: seq<Item>, seen: seq<Item>, start: StatusId, limit: U32, c: StatusId)
    requires Descending(pool) && Lists(pool, c) && NotSkipped(seen, start, c)
    ensures NotSkipped(Newer(pool, Newest(seen, start), limit) + seen, start, c)
  {
    var newest := Newest(seen, start);
    var page := Newer(pool, newest, limit);
    assert Newest(page + seen, start) == Newest(page, newest);
    JoinLists(page, seen, c);
    if newest < c <= Newest(page, newest) {
      NewerPageCovers(pool, newest, limit, c);
    }
  }

  // Under any edits between the requests, every cursor newer than the start, not newer than the
  // newest seen, and in the list throughout has been returned.
  lemma {:induction false} CatchUpCovers(pools: nat -> Pool, start: StatusId, n: nat, limit: U32, c: StatusId)
    requires Stays(pools, 0, n, c)
    ensures NotSkipped(CatchUp(pools, start, n, limit), start, c)
  {
    if n > 0 {
      var seen := CatchUp(pools, start, n - 1, limit);
      assert NotSkipped(seen, start, c) by {
        CatchUpCovers(pools, start, n - 1, limit, c);
      }
      NewerSkipsNothing(pools(n - 1), seen, start, limit, c);
    }
  }

  // The cursors of `s` stand in `pool` from position `a` on, without gaps; contents may differ.
  ghost predicate CursorsStandAt(s: seq<Item>, pool: seq<Item>, a: nat) {
    a + |s| <= |pool| && forall i :: 0 <= i < |s| ==> s[i].cursor == pool[a + i].cursor
  }

  // No item of `before` is lost in `after`, and what was added is newer; contents may be edited.
  ghost predicate GrewInto(before: seq<Item>, after: seq<Item>) {
    |before| <= |after| && CursorsStandAt(before, after, |after| - |before|)
  }

  // Between two requests only newer items are added.
  ghost predicate Grows(pools: nat -> Pool) {
    forall j: nat, k: nat {:trigger GrewInto(pools(j), pools(k))} :: k == j + 1 ==> GrewInto(pools(j), pools(k))
  }

  // The cursors of `all` are exactly the oldest part of those that `pool` holds above `start`.
  ghost predicate OldestPart(all: seq<Item>, pool: seq<Item>, start: StatusId, b: nat) {
    CutAt(pool, start + 1, b) && |all| <= b && CursorsStandAt(all, pool, b - |all|)
  }

  // While newer items keep arriving, catching up leaves no gap: what has been returned is exactly
  // the oldest part of what is newer than the start, and each request adds a full page or all
  // there is.
  lemma {:induction false} CatchUpLeavesNoGap(pools: nat -> Pool, start: StatusId, n: nat, limit: U32)
    returns (b: nat)
    requires Grows(pools) && n > 0
    ensures OldestPart(CatchUp(pools, start, n, limit), pools(n - 1), start, b)
    ensures |CatchUp(pools, start, n, limit)| == Min(|CatchUp(pools, start, n - 1, limit)| + limit, b)
  {
    var seen := CatchUp(pools, start, n - 1, limit);
    if seen == [] {
      b := FirstBlock(pools(n - 1), start, limit);
    } else {
      var before := CatchUpLeavesNoGap(pools, start, n - 1, limit);
      assert GrewInto(pools(n - 2), pools(n - 1));
      b := GrownBlock(pools(n - 2), pools(n - 1), seen, start, before, limit);
    }
  }

  lemma {:induction false} BlockIsOldest(page: seq<Item>, pool: seq<Item>, start: StatusId, b: nat)
    requires |page| <= b && CutAt(pool, start + 1, b) && StandsAt(page, pool, b - |page|)
    ensures OldestPart(page, pool, start, b)
  {
  }

  lemma {:induction false} FirstBlock(pool: seq<Item>, start: StatusId, limit: U32) returns (b: nat)
    requires Descending(pool)
    ensures var all := Newer(pool, start, limit) + [];
            OldestPart(all, pool, start, b) && |all| == Min(limit, b)
  {
    b := NewerPage(pool, start, limit);
    var page := Newer(pool, start, limit);
    BlockIsOldest(page, pool, start, b);
    assert page + [] == page;
  }

  lemma CursorsJoin(newer: seq<Item>, older: seq<Item>, pool: seq<Item>, a: nat)
    requires StandsAt(newer, pool, a) && CursorsStandAt(older, pool, a + |newer|)
    ensures CursorsStandAt(newer + older, pool, a)
  {
  }

  lemma CursorsShift(s: seq<Item>, earlier: seq<Item>, pool: seq<Item>, a: nat)
    requires GrewInto(earlier, pool) && CursorsStandAt(s, earlier, a)
    ensures CursorsStandAt(s, pool, |pool| - |earlier| + a)
  {
    var d := |pool| - |earlier|;
    forall i | 0 <= i < |s|
      ensures s[i].cursor == pool[d + a + i].cursor
    {
      assert earlier[a + i].cursor == pool[d + (a + i)].cursor;
    }
  }

  // A cut above a listed item moves with the list as it grows.
  lemma CutShift(earlier: seq<Item>, pool: seq<Item>, bound: int, a: nat)
    requires Descending(pool) && GrewInto(earlier, pool) && CutAt(earlier, bound, a) && a > 0
    ensures CutAt(pool, bound, |pool| - |earlier| + a)
  {
    var d := |pool| - |earlier|;
    assert pool[d].cursor == earlier[0].cursor;
    forall i | 0 <= i < |pool|
      ensures i < d + a <==> pool[i].cursor >= bound
    {
      if i >= d {
        assert pool[d + (i - d)].cursor == earlier[i - d].cursor;
      }
    }
  }

  lemma GrownBlock(earlier: seq<Item>, pool: seq<Item>, seen: seq<Item>, start: StatusId, before: nat, limit: U32)
    returns (b: nat)
    requires Descending(pool) && GrewInto(earlier, pool)
    requires seen != [] && OldestPart(seen, earlier, start, before)
    ensures var all := Newer(pool, seen[0].cursor, limit) + seen;
            OldestPart(all, pool, start, b) && |all| == Min(|seen| + limit, b)
  {
    var d := |pool| - |earlier|;
    b := d + before;
    var top := b - |seen|;
    assert CutAt(pool, start + 1, b) by {
      CutShift(earlier, pool, start + 1, before);
    }
    assert CursorsStandAt(seen, pool, top) by {
      CursorsShift(seen, earlier, pool, before - |seen|);
    }
    NewerRightAbove(pool, seen, limit, top);
  }

  // The newer page above a block of the list joins up with it.
  lemma NewerRightAbove(pool: seq<Item>, seen: seq<Item>, limit: U32, top: nat)
    requires Descending(pool) && seen != [] && CursorsStandAt(seen, pool, top)
    ensures var all := Newer(pool, seen[0].cursor, limit) + seen;
            |all| == |seen| + Min(limit, top) && CursorsStandAt(all, pool, top + |seen| - |all|)
  {
    var page := Newer(pool, seen[0].cursor, limit);
    var c := NewerPage(pool, seen[0].cursor, limit);
    assert pool[top].cursor == seen[0].cursor;
    CutIsUnique(pool, seen[0].cursor + 1, c, top);
    CursorsJoin(page, seen, pool, top - |page|);
  }
}
