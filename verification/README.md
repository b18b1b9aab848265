# Verification of paging, caching, limiting and start-up logic

A Dafny project beside the server. It models seven parts of it and proves what each is for, over every
input, every run or every interleaving:

- **Pagination** (`Pagination.dfy`, `Links.dfy`, `Routing.dfy`, `LinkWalk.dfy`, `Decimal.dfy`): one page of a
  newest-first list, the links printed for it, and whole walks by cursors, or by following links through the
  header, the router and the query, while the list changes.
- **JSON comparison** (`Json.dfy`, `JsonDiff.dfy`): the structural diff of the contract harness, with its
  shared path stack and output list, proved exact and sufficient to rebuild the actual tree, and what a rendered
  location tells of its path.
- **Shortcodes** (`Shortcodes.dfy`): the greedy colon scan, proved optimal, and the emoji match.
- **Rate limiter** (`RateLimit.dfy`, `Arithmetic.dfy`): the shared fixed window under ordered and unordered times.
- **Remote account cache** (`ActorDocument.dfy`, `RemoteCache.dfy`): the table, and calls whose look-up,
  judgement, fetch, stamp and upsert steps interleave in any way.
- **Forms, profiles, configuration** (`FormFields.dfy`, `FormMeaning.dfy`, `ProfileFields.dfy`,
  `Profile.dfy`, `HexKey.dfy`, `Config.dfy`).
- **Shutdown race** (`Shutdown.dfy`): a timed step system with the connections of the pool.

`Sequences.dfy`, `Strings.dfy` and `Wrappers.dfy` hold what these share.

Objects that the program updates in place are classes whose methods are tied to specification functions
(`RateLimit.Window`, `JsonDiff.Comparison`, `RemoteCache.RemoteTable`, `Profile.ProfileTable`,
`Config.Reader`); loops are loops; expressions are functions. Laws about whole runs are lemmas about those functions.

What the program takes from outside is a parameter: the clock, ids, what the network and the database
answer, and the checks of single configuration fields.

Places where the code is followed and not a stronger reading of it:

- A requested limit of 0 stays 0; the laws about walks say exactly where it matters.
- The header's reset second cuts the end of the window to whole seconds, so a retry at that second is sure of
  admission exactly when the window ends on one. A rejection under a limit of 0 can move the window.
- The comment on the scanner speaks of two shortcodes sharing a colon. The code takes `:a::b:` apart into two,
  but of `:a:b:` only `a`, as `TakenExactly` says: a window after a taken one is not taken.
- Links read back exactly if neither origin nor path holds `?` or `#`, and a header exactly if they hold no `>`.
- A link prints the origin and the account id as they are. All links lead back to the list exactly if the origin
  is a scheme and a host, and the id is plain: not empty, without `/`, `?`, `#` and percent escape. Ids the server
  gives out are plain. For an account named by its URI, as `https://r.example/u` or `https://blog.example/?author=1`,
  the link is lost, and a client that follows links gets the first page only; for `1/statuses?x` it leads to the
  list of account 1. A client that follows `next` is sure of the whole list exactly if the id is plain.
- Rendered diff locations tell places apart exactly over keys that hold no `.` and do not end in `[n]`: no such
  keys can be confused, and any one other key makes two paths look the same. One path shares its rendering exactly
  if a key of it is followed by a segment, holds `.`, or ends in `[n]`.
- When two orders of one form both fail, their errors may differ, as for `locked=x` and `bot=y`. All orders have one
  outcome exactly if the first failing part for each field that has one, and any broken part, have the same error.
- The pool starts to close within the grace period; when it is closed depends on connections that are still out.
- A key text with a `+` inside a pair is accepted; it is the one case in which an accepted key does not write back
  to its text.
- Freshness of cached accounts needs a positive `ttl`: the proof gives a run that breaks it otherwise.

`dafny verify dfyconfig.toml` checks the whole project.

## Model

| member | source | states |
|---|---|---|
| `Pagination.ResolveLimit` | src/api/pagination.rs:78-92 | The limit is 20 if none is requested, and otherwise the requested one, 40 at most |
| `Pagination.ParseExactly` | src/api/pagination.rs:109-119 | A request is accepted exactly if every bound it sends is the text of an unsigned 64-bit number; then each bound is the number of its own text and the limit is resolved; otherwise the error carries the first bad text of max, since, min |
| `Pagination.DecodeOfEncode` | src/api/pagination.rs:159-174 | Every 64-bit cursor survives printing and parsing |
| `Decimal.ParseOfPrint` | src/api/pagination.rs:164-165 | A printed number parses back up to the type's maximum and is refused above it |
| `Decimal.ParseExactly` | src/api/pagination.rs:164-172 | A text parses as a number exactly if it is that number as printed, with zeros in front and a `+` or nothing before them, and not too large |
| `Decimal.DigitOfPrint` | src/api/pagination.rs:160-162 | Every character of a printed number is its decimal digit of that weight |
| `Pagination.PageIsBlock` | src/api/pagination.rs:225-262 | For all eight combinations of bounds, a page is a contiguous block of the list between the two cuts the bounds make, shortened by the limit only, at the newer end for `min_id` and at the older end otherwise |
| `Pagination.PageCursors` | src/api/pagination.rs:253-255 | The two cursors of a page decode to its newest and oldest item; an empty page has none |
| `Pagination.SinceAndMinTakeOppositeEnds` | src/api/pagination.rs:229-251 | `since_id` and `min_id` take opposite ends of one window, and differ exactly when it holds more than a positive limit |
| `Pagination.SinceWinsOverMin` | src/api/pagination.rs:230 | When both lower bounds are sent, `min_id` has no effect |
| `Pagination.WalkDescends` | src/api/pagination.rs:225-262 | Whatever edits happen between requests, a walk by `next_cursor` as `max_id` returns items strictly newest first, so none twice |
| `Pagination.WalkCovers` | src/api/pagination.rs:225-262 | Such a walk, with a positive limit, returns every cursor that stays in the list while the walk lasts, even if the item's content is edited meanwhile |
| `Pagination.UnchangedWalkIsWhole` | src/api/pagination.rs:225-262 | On an unchanged list the pages join up to the list exactly when the limit is positive or the list is empty |
| `Pagination.PrevUndoesNext` | src/api/pagination.rs:402-409 | On one list, a `min_id` page from the newest item of an older page is the page before it |
| `Pagination.PrevWalksBack` | src/api/pagination.rs:402-409 | On an unchanged list, `prev` from any further page of a forward walk gives back exactly the page before |
| `Pagination.CatchUpDescends` | src/api/pagination.rs:246-248 | Repeated catch-up by `min_id` returns only items newer than the start, in order, and none twice |
| `Pagination.CatchUpCovers` | src/api/pagination.rs:246-248 | Under any edits, of the list or of contents, catch-up never skips a cursor that stays in the list and is not newer than the newest seen |
| `Pagination.CatchUpLeavesNoGap` | src/api/pagination.rs:246-248 | While newer items keep arriving, and contents may be edited, the cursors catch-up has returned are exactly the oldest part of those newer than the start, and each request adds a full page or all there is |
| `Links.PercentEncodeQuery` | src/api/pagination.rs:376-390 | The loop writes, byte by byte, the byte itself if it is a letter, a digit or one of `-._~`, and `%` with two upper-case digits otherwise |
| `Links.DecodedOfEncoded` | src/api/pagination.rs:376-390 | Form decoding undoes the encoding for every byte string (section 2.1 of RFC 3986) |
| `Links.EncodedIsInjective` | src/api/pagination.rs:376-390 | Two texts with one encoding are equal |
| `Links.EncodedAlphabet` | src/api/pagination.rs:379-387 | The output holds unreserved characters of section 2.3 of RFC 3986 and `%` only |
| `Links.UrlWith` | src/api/pagination.rs:353-371 | The loop prints the URL that reading takes apart again |
| `Links.ReadPrintedQuery` | src/api/pagination.rs:361-368 | Splitting and decoding a printed query gives back every pair in order |
| `Links.ReadPrintedLink` | src/api/pagination.rs:353-371 | The same for the query of a whole link when neither origin nor path holds `?` or `#` |
| `Links.LinksReadBackExactly` | src/api/pagination.rs:353-371 | Links read back for every cursor value exactly when neither origin nor path holds `?` or `#` |
| `Links.BuildLinkHeader` | src/api/pagination.rs:402-414 | The header is absent exactly when there is no cursor or its text is no header value; otherwise it is the joined entries |
| `Links.HeaderOfBoth` | src/api/pagination.rs:402-414 | The text of a header with both links, letter by letter |
| `Links.ReadPrintedHeader` | src/api/pagination.rs:402-414 | A client reading a printed header (section 3 of RFC 8288) gets the entries back, for URLs without `>` |
| `Links.HeaderReadsBackExactly` | src/api/pagination.rs:402-414 | A printed header reads back as its entries exactly if no URL in it holds `>` |
| `Links.ReadSentHeader` | src/api/pagination.rs:402-414 | The header of a page with links reads back as `next` with the older cursor and `prev` with the newer one exactly if neither origin nor path holds `>` |
| `Links.ValuesOnLink` | src/accounts/endpoints.rs:602-617 | On a link, each query key holds exactly the value the handler preserved for it, and the cursor only its own key |
| `Links.ReadLinkParameters` | src/accounts/endpoints.rs:574-619 | Reading a link's query as the handler does gives back the same filters and raw limit, and the cursor as the only bound |
| `Links.RequestIsReadExactly` | src/accounts/endpoints.rs:534-590 | Of any query: each bound, the limit and each flag are what their own parameter says, a flag by its four texts and off without one; a query is refused for a repeated parameter, a limit that is no number below 2^32, or a flag with another text |
| `Routing.RoutedIdExactly` | src/server.rs:160 | The account that any id is routed to out of the printed path: what is sent in its place, decoded, if that is one segment; of an id with `?` or `#` that is what stands before `/statuses` in front of the first of them |
| `Routing.RoutedIdIsTheIdExactly` | src/server.rs:160 | The id that the route reads out of the printed path is the id that was printed exactly if that id is plain |
| `Routing.UriIsLost` | src/accounts/endpoints.rs:573-602 | A URI, whatever its query or fragment, is routed to no account |
| `Routing.CutIdIsAnother` | src/accounts/endpoints.rs:573-602 | A plain id followed by `/statuses` and a `?` or `#` is routed to the account of that plain id |
| `Routing.PrintedIdIsPlain` | src/accounts/endpoints.rs:573 | Every numeric id is plain |
| `LinkWalk.LinkLeadsBackExactly` | src/accounts/endpoints.rs:602-619 | Behind a plain origin, a printed link, routed and read by the server, is the request it was printed for exactly if the account id is plain |
| `LinkWalk.LinksLeadBackExactly` | src/api/pagination.rs:353-371 | For any origin and id: all links lead back exactly if the origin is a scheme and a host and the id is plain |
| `LinkWalk.UriLinkIsLost` | src/accounts/endpoints.rs:602-619 | A link for an account named by its URI is routed to no list |
| `LinkWalk.FollowingNextLink` | src/accounts/endpoints.rs:602-619 | Following `next` out of a response's header asks the same account for what is older than the page, with limit and filters unchanged, exactly if the account id is plain: not empty, without `/`, `?`, `#` and without escape |
| `LinkWalk.FollowingPrevLink` | src/accounts/endpoints.rs:602-619 | The same for `prev` and what is newer than the page |
| `LinkWalk.FollowingNextVisitsEverything` | src/api/pagination.rs:225-262 | A client that only follows `next` links from the list of an account with a plain id, while the list is edited in any way, gets items newest first, none twice, and every cursor that stayed, unless it asked for a limit of 0 |
| `LinkWalk.FollowingNextEnds` | src/api/pagination.rs:225-262 | Such a client always comes to an end |
| `LinkWalk.FollowingNextListsEverything` | src/api/pagination.rs:225-262 | On an unchanged list its responses join up to the list, unless the limit is 0 and the list is not empty |
| `LinkWalk.WalksCoverExactly` | src/api/pagination.rs:225-262 | For all lists and every limit but 0, following `next` comes to an end and covers every cursor that stayed, exactly if the account id is plain |
| `LinkWalk.FollowedIsWalk` | src/api/pagination.rs:402-414 | The responses of that client are the pages of the walk by cursors over that account's list |
| `LinkWalk.LostWalkStops` | src/accounts/endpoints.rs:602-619 | Walked by an id that is routed to no account, any list gives its first page and nothing more |
| `LinkWalk.UriWalkStops` | src/accounts/endpoints.rs:602-619 | So it is for an account named by its URI |
| `LinkWalk.FollowingPrevGoesBack` | src/api/pagination.rs:402-414 | Following `prev` from any further page leads back to the same account's list and the page before |
| `Json.SortedKeysAreTheKeys` | src/contract.rs:311-324 | The walk over an object visits every key once, in ascending order |
| `Json.LeqExactly` | src/contract.rs:311 | The order of keys is lexicographic |
| `JsonDiff.Comparison.DiffAt` | src/contract.rs:304-361 | The recursive comparison appends the place's mismatches to the shared list, in order, and restores the shared path |
| `JsonDiff.Comparison.ExpectedKeys` | src/contract.rs:311-321 | The loop over expected keys, with its pushes and pops |
| `JsonDiff.Comparison.ActualKeys` | src/contract.rs:322-331 | The loop over actual keys |
| `JsonDiff.Comparison.CommonItems` | src/contract.rs:343-354 | The loop over common array positions |
| `JsonDiff.Compare` | src/contract.rs:297-302 | The whole comparison reports exactly the true mismatches, in the order of their places, and nothing exactly for equal trees |
| `JsonDiff.DiffIsExact` | src/contract.rs:304-361 | A mismatch is reported if and only if it is true of the two trees: its path is read in both, and the detail is what stands there |
| `JsonDiff.DiffInOrder` | src/contract.rs:304-361 | A place is reported before those below it; positions ascend; keys of the expected object ascend, and those of the actual object alone come after them, ascending |
| `JsonDiff.ReportIsDetermined` | src/contract.rs:304-361 | Truth of the mismatches and that order determine the report: there is no other such list |
| `JsonDiff.DiffIsEmptyExactlyForEqualTrees` | src/contract.rs:305-307 | Nothing is reported exactly when the trees are equal |
| `JsonDiff.ReportedPlacesDiffer` | src/contract.rs:304-361 | At every reported path the trees differ |
| `JsonDiff.DiffCovers` | src/contract.rs:304-361 | Every place where the trees differ lies at, above or below a reported path |
| `JsonDiff.DiffPathsAreDistinct` | src/contract.rs:304-361 | No path is reported twice |
| `JsonDiff.DiffSwaps` | src/contract.rs:304-361 | Swapping the arguments swaps the sides of every mismatch |
| `JsonDiff.SwapReportsSamePlaces` | src/contract.rs:304-361 | Swapping the arguments reports the same set of paths |
| `JsonDiff.ReplayMerges` | src/contract.rs:304-361 | Replaying the report as edits on the expected tree gives the actual tree as far as the array lengths of the expected one reach |
| `JsonDiff.ReplayRebuilds` | src/contract.rs:304-361 | The replay gives the actual tree exactly when no array length mismatch is reported, and agrees with it at every common position in any case |
| `JsonDiff.RenderPath` | src/contract.rs:365-371 | The loop renders the root and every segment in order: a dot and the name of a key, the number of a position in brackets |
| `JsonDiff.ClearPathsAreDistinct` | src/contract.rs:365-371 | Over keys that hold no `.` and do not end in `[n]`, rendered paths tell places apart |
| `JsonDiff.TellsApartExactly` | src/contract.rs:365-371 | They still do with one more key exactly if that key is of the same kind |
| `JsonDiff.SharesTextExactly` | src/contract.rs:365-371 | A path renders as some other path exactly if a key of it is followed by a segment, holds `.`, or ends in `[n]` |
| `JsonDiff.LocationsCanCollide` | src/contract.rs:365-371 | Two reported places of one comparison can render the same; an example |
| `Shortcodes.ShortcodeCharExactly` | src/accounts/serializer.rs:379-381 | A shortcode is made of 65 characters: letters, digits, `_`, `+` and `-` |
| `Shortcodes.ColonPositionsExact` | src/accounts/serializer.rs:394-398 | The scanned positions are exactly those of the colons, ascending |
| `Shortcodes.ShortcodesIn` | src/accounts/serializer.rs:393-414 | The while loop returns the tokens that the following rows are about |
| `Shortcodes.TakenExactly` | src/accounts/serializer.rs:402-412 | A window between consecutive colons is taken exactly when it is valid and the window before it was not taken |
| `Shortcodes.ResultIsApart` | src/accounts/serializer.rs:402-412 | Every returned token is an occurrence of a shortcode between colons, and no two overlap |
| `Shortcodes.GreedyScanIsOptimal` | src/accounts/serializer.rs:402-412 | No set of non-overlapping occurrences in the text is larger than the result |
| `Shortcodes.ExtractShortcodes` | src/accounts/serializer.rs:366-377 | The set-and-list loops compute the first appearances over display name and note |
| `Shortcodes.FirstAppearancesElements` | src/accounts/serializer.rs:371-373 | De-duplication keeps every shortcode |
| `Shortcodes.FirstAppearancesNoRepeats` | src/accounts/serializer.rs:371-373 | De-duplication repeats none |
| `Shortcodes.FirstAppearancesOrder` | src/accounts/serializer.rs:371-373 | De-duplication keeps the order of first places |
| `Shortcodes.MatchReferencedEmojis` | src/accounts/serializer.rs:420-459 | The grouping loop and the filter compute the match that the following rows are about |
| `Shortcodes.MatchedExactly` | src/accounts/serializer.rs:436-458 | An emoji is attached exactly when its shortcode is referenced, it is a candidate, and all candidates of that shortcode are identical to it |
| `Shortcodes.MatchedOrder` | src/accounts/serializer.rs:436-458 | Attached emojis stand in order of first reference, without a repeated shortcode |
| `Shortcodes.MatchedDependsOnSet` | src/accounts/serializer.rs:430-458 | Reordering, repeating or adding unreferenced candidates changes nothing |
| `RateLimit.Window.Evaluate` | src/api/ratelimit.rs:142-168 | The new window and the decision by the old window and the time alone: when it restarts, when a request is admitted, what remains, and the header's whole second |
| `RateLimit.Service.Call` | src/api/ratelimit.rs:265-285 | A request is forwarded exactly when admitted; the inner service is not called otherwise; its own failure passes through after using up room |
| `RateLimit.Layer.constructor` | src/api/ratelimit.rs:211-218 | The window starts at the time of construction, empty |
| `RateLimit.Layer.Wrap` | src/api/ratelimit.rs:230-237 | Every produced service holds the layer's own window |
| `RateLimit.StartsAreAWindowApart` | src/api/ratelimit.rs:145-148 | A new window starts only at a request at least one window length after the start before |
| `RateLimit.TotalAdmissionsBounded` | src/api/ratelimit.rs:142-168 | In any evaluation order, a run up to time T admits at most limit times one plus the number of whole windows since the first start |
| `RateLimit.TotalBoundIsAttained` | src/api/ratelimit.rs:142-168 | That bound is reached, for every limit, window length and number of windows |
| `RateLimit.RemainingCountsDown` | src/api/ratelimit.rs:152-167 | Within one window the k-th request is admitted exactly while room is left, and `remaining` counts down to 0 |
| `RateLimit.AnyIntervalAdmitsTwiceTheLimit` | src/api/ratelimit.rs:142-168 | With times in order, no half-open interval of one window length holds more than twice the limit of admissions |
| `RateLimit.TwiceTheLimitIsReached` | src/api/ratelimit.rs:142-168 | Twice the limit is reached by some ordered run |
| `RateLimit.RejectionKeepsWindow` | src/api/ratelimit.rs:145-158 | A rejection leaves the window unchanged exactly when it does not roll it over, which only a limit of 0 does |
| `RateLimit.RetryAtResetSecond` | src/api/ratelimit.rs:150 | A retry at the advertised second is sure of admission exactly when the window ends on a whole second |
| `ActorDocument.HostOfUrl` | src/accounts/remote_fetcher.rs:280-297 | The domain of an absolute URL is its authority, up to the first `/`, `?` or `#`; an empty one is refused |
| `ActorDocument.HostExactly` | src/accounts/remote_fetcher.rs:280-297 | Of any URI the host is what stands behind the first `://`, or at the start without one, up to the next `/`, `?` or `#`; it is refused exactly if there is nothing |
| `ActorDocument.DomainIsWellFormed` | src/accounts/remote_fetcher.rs:284-296 | A domain is never empty and holds no character that ends a host |
| `ActorDocument.ImageUrlIsFoundExactly` | src/accounts/remote_fetcher.rs:222-229 | An image URL is found exactly when `url` members and array items lead to a string, and it is such a string |
| `ActorDocument.FirstItemWithUrl` | src/accounts/remote_fetcher.rs:226 | The first array item with an image URL wins |
| `ActorDocument.FetchedFieldsAreStoredWhole` | src/accounts/remote_fetcher.rs:246-270 | Fetched fields carry no time and survive storage unchanged |
| `ActorDocument.DocumentIsAcceptedExactly` | src/accounts/remote_fetcher.rs:304-338 | A document is accepted exactly when it is an object with non-empty id, type and username and the URI has a host |
| `ActorDocument.OtherPropertiesDoNotMatter` | src/accounts/remote_fetcher.rs:304-338 | Unrecognised properties change neither acceptance nor the account |
| `ActorDocument.AccountReadsDocument` | src/accounts/remote_fetcher.rs:304-338 | Each field of an accepted account is what its own property of the document says, or its default; its profile fields are exactly the attachments that are one, in order |
| `ActorDocument.BodyExactly` | src/accounts/remote_fetcher.rs:246-338 | A body gives the account it describes exactly if it is an actor for a URI with a host; every other body is refused by the first thing that is wrong with it |
| `ActorDocument.NormalizedAccount` | src/accounts/remote_fetcher.rs:319-337 | An accepted account carries the URI, id and stamp it was given, and a usable name and domain |
| `RemoteCache.RemoteTable.FindRemoteByUri` | src/accounts/remote_repository.rs:229-245 | Finds the row with the URI, or none if there is none |
| `RemoteCache.RemoteTable.FindRemoteById` | src/accounts/remote_repository.rs:249-259 | Finds the row with the id, or none if there is none |
| `RemoteCache.RemoteTable.UpsertRemote` | src/accounts/remote_repository.rs:274-320 | Both constraints are kept and every id stays with its URI |
| `RemoteCache.UpsertStores` | src/accounts/remote_repository.rs:274-320 | A successful upsert stores the account under the id that was there, or its own; it fails exactly for a new URI with a taken id, and then changes nothing |
| `RemoteCache.UpsertKeepsOthers` | src/accounts/remote_repository.rs:287-300 | An upsert leaves other URIs alone and never changes an id |
| `RemoteCache.LookupsAgree` | src/accounts/remote_repository.rs:229-259 | Look-up by URI and by id agree |
| `RemoteCache.RunKeeps` | src/accounts/remote_fetcher.rs:377-412 | Under every interleaving of the steps of any number of calls: one row per URI, distinct ids, ids never change, and what calls found or returned is stored |
| `RemoteCache.SuccessReturnsStoredId` | src/accounts/remote_fetcher.rs:377-412 | Every successful call returns the stored id of its URI, so two successful calls agree on it |
| `RemoteCache.SuccessIsFreshExactly` | src/accounts/remote_fetcher.rs:404-412 | No interleaving lets a successful call return an account `ttl` or more older than its own reading, exactly when `ttl` is positive |
| `RemoteCache.FailureWritesNothing` | src/accounts/remote_fetcher.rs:377-397 | A failed or unfinished call has not changed the table, and a successful one at most once |
| `RemoteCache.ResolveIsARun` | src/accounts/remote_fetcher.rs:377-412 | An uninterrupted call is the interleaving in which its steps follow one another |
| `RemoteCache.ResolveIsResolved` | src/accounts/remote_fetcher.rs:377-412 | What an uninterrupted call leaves and returns, as the network, the database and the clock answer; it has fetched exactly if it succeeds without a current row |
| `RemoteCache.FetchesAreBounded` | src/accounts/remote_repository.rs:333-338 | In a sequential run under a clock that never goes back, one URI is fetched with success at most once more than `ttl` fits into the time span |
| `RemoteCache.RemoteAccountFetcher.FetchAndNormalize` | src/accounts/remote_fetcher.rs:404-412 | No answer to the look-up is a database error; a row with the URI that is not `ttl` old is returned as it is and the table left alone; otherwise it does what a fetch does; a failure leaves the table unchanged |
| `RemoteCache.RemoteAccountFetcher.FetchAndStore` | src/accounts/remote_fetcher.rs:377-397 | The miss branch: unreachable is a network error, an unsuccessful status is not found whatever the body, a bad body is refused by its problem; otherwise the account the body describes is stored over the row with its URI and under its id, or as a new row, and returned |
| `FormFields.KeyIsRecognisedExactly` | src/accounts/endpoints.rs:312-322 | A part name is a profile field key exactly if it is the prefix, an index the number parser takes, the delimiter and one of two suffixes |
| `FormFields.PrintedKeyReadsBack` | src/accounts/endpoints.rs:312-322 | A printed key reads back, up to the largest index |
| `FormFields.TakePart` | src/accounts/endpoints.rs:413-479 | One part sets exactly its own slot, is ignored, or fails |
| `FormFields.ParseUpdateCredentials` | src/accounts/endpoints.rs:405-483 | The whole body fails with the first failing part, or every slot holds what the last part for it says |
| `FormFields.OutcomeIsUnique` | src/accounts/endpoints.rs:405-483 | That determines the outcome |
| `FormFields.ReorderingKeepsOutcome` | src/accounts/endpoints.rs:405-483 | Reordering that keeps the order within each slot changes neither success nor the form; when both orders fail, each error is what is wrong with some part of both |
| `FormFields.ReorderingKeepsOutcomeExactly` | src/accounts/endpoints.rs:405-483 | Every reordering that keeps the order within each slot keeps the outcome, exactly if the slots whose parts fail, and any broken part, report one and the same error |
| `FormFields.ReorderingCanChangeError` | src/accounts/endpoints.rs:405-483 | The two errors can differ; an example |
| `FormFields.FieldsComeOutInOrder` | src/accounts/endpoints.rs:334-349 | Profile fields come out in ascending order of the indices the parts name, one for each, each half being the last text sent or empty; none exactly if none was named |
| `FormMeaning.FormIsRead` | src/accounts/endpoints.rs:405-483 | Every item of an accepted form, by literal names and texts: texts, flags, visibility, language, uploads and the halves of profile fields are what the last part with their own name says |
| `FormMeaning.FieldsAreRead` | src/accounts/endpoints.rs:334-349 | The profile fields that come out, by the literal keys and texts of the parts |
| `FormMeaning.ProblemExactly` | src/accounts/endpoints.rs:405-483 | What is wrong with a part, by its name and text: unreadable, a flag or a visibility with another text than its own |
| `FormMeaning.ErrorIsFirstProblem` | src/accounts/endpoints.rs:405-483 | A refused form has the problem of the first part that has one |
| `FormMeaning.AcceptedHasNoProblem` | src/accounts/endpoints.rs:405-483 | An accepted form has no part with a problem |
| `ProfileFields.FieldsReadBack` | src/accounts/profile_repository.rs:135-187 | Stored fields read back in order, with the time cut to whole seconds and nothing else changed |
| `ProfileFields.CutLosesLessThanASecond` | src/accounts/profile_repository.rs:142 | The cut loses less than a second and is idempotent |
| `Profile.UpsertApplies` | src/accounts/profile_repository.rs:330-403 | The statement applies the patch to the stored profile, or to the default where there is none; a later read finds the result; other rows stay as they are |
| `Profile.AppliedExactly` | src/accounts/profile_repository.rs:330-403 | Each item of the profile is what its own item of the patch says, or stays as it was; the source mirrors note and fields |
| `Profile.UpsertWritesColumns` | src/accounts/profile_repository.rs:345-375 | Each column holds its item of the profile, and the stamp is the one given |
| `Profile.UpsertsCompose` | src/accounts/profile_repository.rs:330-403 | Two updates leave the same table as one with their item-wise last-wins composition |
| `Profile.CompositionIsAMonoid` | src/accounts/model.rs:186-211 | Composition is associative, and the patch that changes nothing is its unit |
| `Profile.ClearIsNotUnchanged` | src/accounts/model.rs:186-198 | Clearing an item and leaving it alone differ exactly where the item is set |
| `Profile.HistoryIsOneUpdate` | src/accounts/profile_repository.rs:330-403 | After any history over any actors, a profile is the first one, or the default, with the composition of its own updates |
| `Profile.ProfileTable.UpsertProfile` | src/accounts/profile_repository.rs:330-403 | The statement on the table returns the profile that was stored: the old one, or an empty one, with the patch applied item by item |
| `Profile.ProfileTable.FindProfile` | src/accounts/profile_repository.rs:306-318 | Finds the profile of an actor with a row, whose source mirrors its note and fields |
| `HexKey.ValidateHex256Bits` | src/config.rs:992-1008 | Accepted is exactly a text of 64 characters, once trimmed, whose pairs all have a value; the key is those values |
| `HexKey.TrimExactly` | src/config.rs:993 | Trimming takes all whitespace away at both ends and nothing else |
| `HexKey.HexDigitExactly` | src/config.rs:1000-1007 | The digits of both cases have their place as value, and nothing else is a digit |
| `HexKey.PairExactly` | src/config.rs:1000-1007 | The value of a pair: sixteen times the first digit and the second, or the second alone after a `+` |
| `HexKey.DecodedOfEncoded` | src/config.rs:992-1008 | Every 32-byte key reads back from its hexadecimal text |
| `HexKey.EncodedOfDecoded` | src/config.rs:1000-1007 | An accepted text is the key's own text, up to case, exactly when it holds no `+` |
| `Config.Get` | src/config.rs:1122-1143 | The variable's text if it is set; otherwise what the file holds at the place: a string its text, a boolean `true` or `false`, an integer its decimal text, a float its text, nothing if there is nothing; every other kind is refused |
| `Config.VariableExactly` | src/config.rs:1146-1151 | The one variable of a name: the prefix and the name, letters in upper case and `_` for dots |
| `Config.FieldExactly` | src/config.rs:1160-1235 | The value of a field and what is wrong with it, by its reading, its check and its default |
| `Config.Reader.Required` | src/config.rs:1160-1190 | A required field has its checked value, or appends one issue with its name: missing, or malformed with the reason |
| `Config.Reader.Optional` | src/config.rs:1208-1235 | An optional field has its checked value, or its default if it is not sent, or appends one issue with its name and the reason |
| `Config.ValueUnlessProblem` | src/config.rs:1160-1235 | A field has a value exactly when nothing is wrong with it |
| `Config.LoadConfigFrom` | src/config.rs:555-815 | Loading succeeds exactly when no field raises an issue, no unwrapping can fail, every part is its field's value; otherwise the error is the list of issues |
| `Config.RequiredFields` | src/config.rs:555-815 | Without a file and variables, five fields are missing |
| `Config.Defaults` | src/config.rs:555-815 | The defaults of the other fields |
| `Config.IssuesNameBadFields` | src/config.rs:1160-1235 | The issues name each bad field once, in reading order, and no other |
| `Config.FieldsHaveOwnVariables` | src/config.rs:1146-1151 | The 26 fields have different names and different environment variables, so no variable sets two fields |
| `Config.IssuesNameDifferentFields` | src/config.rs:1160-1235 | No two issues of one loading name the same field |
| `Config.LoadedKeysAreRead` | src/config.rs:959-979 | With the 256-bit check, the two keys of a loaded configuration are those their texts stand for |
| `Config.LoadingIsLoadingTheOverlay` | src/config.rs:1122-1143 | Loading is loading the file overlaid by the environment: same issues, same configuration |
| `Shutdown.RunIsSafe` | src/server.rs:1041-1091 | In every run closing starts at most once, a forced stop comes a full grace period after the signal or the end of the task, without one the task has ended first, and a closed pool has no connection out |
| `Shutdown.FinishIsLast` | src/server.rs:1089-1090 | Nothing the driver does comes after the pool is closed |
| `Shutdown.StartShutsThePool` | src/server.rs:1089 | From the start of closing on, the pool gives out no connection and is not closed again |
| `Shutdown.ClosesByDeadline` | src/server.rs:1064-1089 | Once the signal has fired, a prompt driver has started to close the pool by the end of the grace period; the pool is closed at the later of that start and the return of the last connection, so within the grace period exactly if that returned within it |
| `Shutdown.CanAlwaysClose` | src/server.rs:1064-1089 | From every state of a prompt run after the signal or the end of the task, the driver alone can go on and start closing in time |
| `Shutdown.CanFinishWithConnections` | src/server.rs:1089 | With the connections coming back, and nothing else, it can go on until the pool is closed |
| `Shutdown.WaitsForConnections` | src/server.rs:1089 | While no connection comes back, a pool that has one out is not closed |

## Left out

- Walks by links where the origin is no scheme and host, or origin or id hold a character that no header value or
  entry may hold; for single links and headers the exact condition is proved. Whether the host names this server.
- What a client may do to a URL before it sends it, as removing dot segments or escaping again, and decoded
  segments that are not UTF-8. Paths other than the status list's give no page of a list.
- Cursor types other than the 64-bit id, and pools with equal cursors: the program's lists use distinct ids.
- The query behind a list: which statuses the filters select. The walk theorems hold for whatever lists it returns.
- Time arithmetic at the ends of the representable range, where the program would panic.
- The text of numbers, dates and floating-point values in JSON and TOML: opaque values with equality.
- Text rendering of mismatch details and of the report around them.
- Database failures other than "no answer" and a taken id, partial failures inside a statement, and stamps finer
  than a microsecond.
- The mutex of the rate limiter: each evaluation is one step, and the order of steps is arbitrary.
- The checks of single configuration fields except 256-bit keys; they are parameters of loading, and so is how a
  refusal is worded. Reading the file and parsing TOML text are outside; a dotted field path is given as its
  section and key.
- The separate records for the actor, owner and token secrets: one record of the model, read in the same order.
- Wrapping of secrets in a masking type, and the wording of reasons inside issues.
- Multipart framing: a part arrives whole, cannot be read, or cannot be split off.
- Scheduling inside the runtime: for the deadline of the shutdown, time does not pass while the driver can move.
- Logging, HTTP transport, authorisation and the services behind the endpoints.
