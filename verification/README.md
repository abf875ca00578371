# oc-slimapi: verified core

This project models the in-memory state machines and text algorithms at the heart of the oc-slimapi sidecar and proves what they promise.

| source | modules |
|---|---|
| `singleflight.py` (leased profile) | `Flights`, `LeasedModel` (pure state changes), `LeasedRuns` (every run), `LeasedRegistry` (the mutable object) |
| `singleflight.py` (plain profile) | `PlainModel`, `PlainRuns`, `PlainRegistry` |
| `skeleton.py` (unified-diff reader) | `DiffParser`, `DiffCounting`, `DiffRoundTrip` |
| `dbaux/projection.py` | `SearchPattern`, `SessionsQuery`, `SessionsPaging`, `SessionsRows`, `SessionsGaps` |
| `dbaux/cursor.py` | `Base64Url`, `Utf8`, `Json`, `JsonRoundTrip`, `Cursor` |
| `etag.py`, `gzip_util.py` | `EntityTags`, `Gzip`, `ConditionalTail` |
| `since_cache.py` | `SinceModel`, `SinceRuns`, `SinceToken`, `SinceCache` |
| `routes/_aggregate_fanout.py` | `FanOut` |
| `access_log.py` | `AccessLog` |
| `dbaux/lifecycle.py` | `BreakerModel`, `BreakerRuns`, `LatencyBreaker` |
| `turn_registry.py` | `TurnModel`, `TurnRuns`, `TurnRegistry` |
| `catalog_cache.py` | `CatalogModel`, `CatalogRuns`, `CatalogCache` |

`Prelude`, `Text` and `OrderedDict` (the insertion-ordered dictionary behind three of the caches and counters) hold shared vocabulary. Where the source updates an object in place there are three parts: pure functions on the object's state, a class whose methods are proved to perform exactly those functions, and theorems about every run of those functions. Code between two awaits is one atomic event; timers, completions and cancellations may come at any point. Object identity (a flight, an inode) is an index into a history that only grows.

## How the claims read

- **Single flight.** The byte ledger is exact and capped in every run, each reservation is refunded once, one non-detached flight per key runs at a time, everybody served by a flight gets the same thing, and a fetch joins a registered flight exactly while it runs or its grace lasts. In the plain profile a run keeps that uniqueness if and only if none of its fetches finds nothing to join while a flight of its key, detached by a shutdown or unregistered by a stale failure, still runs.
- **Paging.** The pages laid end to end are the plain sorted list, if and only if no row with an empty id ends a full page that more rows follow. The search pattern means literal substring. The cursor comes back unless a string holds a surrogate pair.
- **Diff reader.** The parser inverts the printer exactly on the sections that hold no deleted line printed `--- ` directly before an added line printed `+++ `.
- **304.** A 304 carries the validator of the 200 it stands for, as long as clients present only validators they were sent; the one kind of request that breaks this is pinned down. Every 200 can be decoded by the coding it announces.
- **Caches, fan-out, protocols.** No generation names two entries, an observation sees what stands and a lookup answers what was stored less than the ttl ago and has not left since, no body outlives its invalidation, every completion order folds to the same answer, the installed handler's log file is never unlinked (and any handler loses its file exactly when maintenance unlinks the path it opened after it was replaced), and fences only rise.

Claims that turned out false of the code are kept as lemmas with a concrete input, each beside the exact condition under which the property holds: `Cursor.SurrogatePairIsLost`, `PlainRuns.TwoFlightsAfterShutdown`, `DiffRoundTrip.HeaderLookAlike`, `Base64Url.DecodingIsNotInjective`, `AccessLog.ReplacedHandlerMayLoseItsFile`, `TurnRuns.ReadFaultLowersFence`, `TurnRuns.BlindCrashLowersFence`, `ConditionalTail.ForgedTagIsEchoed`, `SessionsGaps.EmptyIdShownTwice`, `SessionsGaps.EmptyIdEndsWalk`. Their conditions are `Cursor.CursorRoundTripIff`, `PlainRuns.RunStaysUniqueIff`, `DiffRoundTrip.ReadsBackIffClean`, `Base64Url.ReencodesIffZeroTail`, `AccessLog.AllStayLinkedIff`, `TurnRuns.RunKeepsFenceIff` (over whole runs), `ConditionalTail.HonestIff` and `SessionsGaps.VisitsEachOnceIff`.

Where code and documentation disagree, the code is modelled:

- A hunk header that does not parse never enters a hunk, although the reader's docstring calls such a hunk unbounded (`src/oc_slimapi/skeleton.py:551-553`).
- A page returns an anchor even when it is complete, although the page's docstring says there is none (`src/oc_slimapi/dbaux/projection.py:298-312`).
- A row that cannot anchor is documented to be met again and skipped, with no repeated output (`src/oc_slimapi/dbaux/projection.py:315-322`); that holds for a missing id, but a row with an empty id is shown again.
- A plain failure drops whatever is registered for its key, with no identity check (`src/oc_slimapi/singleflight.py:542-545`).
- An unreadable incarnation file counts as absent, so a read fault after an earlier publication can lower the fence the store is documented to keep monotone.
- The incarnation store is documented never to crash the start, but a file that is not valid UTF-8 raises out of it: only I/O errors are caught around the read (`src/oc_slimapi/turn_registry.py:150-157`).
- The transition lock is documented to keep a straggler line from ever being written into a deleted inode, but an emit that waits across a re-install opens its file through the replaced handler, which maintenance does not consult.
- A token longer than 512 bytes is issued without complaint and then refused by its own issuer.
- A catalog shutdown clears the entries but does not move the generation, so a refresh begun before it may still store.

## Model

| member | source | states |
|---|---|---|
| `Flights.Lookup` | src/oc_slimapi/singleflight.py:349-352 | the registered flight of a key, if any, found by scanning the dictionary |
| `LeasedRegistry.SingleFlight.Admit` | src/oc_slimapi/singleflight.py:393-428 | the serial point of a fetch: a due grace flight expires, then join with one more reference, or lead with the reserve counted, or bypass with the state the attempted sweep leaves; when it joins is `LeasedRuns.JoinsWithinGrace` |
| `LeasedRegistry.SingleFlight.Reserve` | src/oc_slimapi/singleflight.py:683-696 | evicts idle grace flights oldest first, only as long as the reserve does not fit |
| `LeasedRegistry.SingleFlight.ReleaseRef` | src/oc_slimapi/singleflight.py:613-626 | one reference less; a retained or failed flight without references is reaped |
| `LeasedRegistry.SingleFlight.ReapFlight` | src/oc_slimapi/singleflight.py:628-638 | refund, then gone from both layers |
| `LeasedRegistry.SingleFlight.FailFlight` | src/oc_slimapi/singleflight.py:535-566 | the leader's reference, the registration and the bytes go, waiters get the outcome once |
| `LeasedRegistry.SingleFlight.ConvertSuccess` | src/oc_slimapi/singleflight.py:487-533 | active flight to grace with a deadline, detached flight to retained |
| `LeasedRegistry.SingleFlight.Expire` | src/oc_slimapi/singleflight.py:577-611 | grace to retained, reaped at once when nobody holds it |
| `LeasedRegistry.SingleFlight.Close` | src/oc_slimapi/singleflight.py:709-761 | shutdown detaches every active flight in order, reaping idle grace ones, leaving running ones accounted |
| `LeasedRuns.StepKeeps` | src/oc_slimapi/singleflight.py:393-481 | every event keeps the invariant that ties layers, states, reference counts, callers, leaders and the ledger together |
| `LeasedRuns.LedgerLaw` | src/oc_slimapi/singleflight.py:628-703 | in every run the leased bytes equal the reserves of in-flight (detached or not), grace and retained flights, and stay within the cap |
| `LeasedRuns.RefundedOnce` | src/oc_slimapi/singleflight.py:628-638 | leased equals admitted minus refunded, and a flight refunded by event n is never counted again |
| `LeasedRuns.Quiescence` | src/oc_slimapi/singleflight.py:709-761 | without callers and grace flights both layers are empty and the ledger is zero |
| `LeasedRuns.OneFlightPerKey` | src/oc_slimapi/singleflight.py:393-428 | at most one non-detached running flight per key, and it has its leader |
| `LeasedRuns.SharedOutcome` | src/oc_slimapi/singleflight.py:430-481 | all calls served by one flight obtained the same body or the same exception |
| `LeasedRuns.Admission` | src/oc_slimapi/singleflight.py:683-696 | a reserve is refused exactly when it does not fit even with every idle grace flight gone |
| `LeasedRuns.EvictsNoMoreThanNeeded` | src/oc_slimapi/singleflight.py:683-696 | a reservation evicts a prefix of the idle grace flights, oldest first: the reserve did not fit before any of them left, and if one stays it fits now; a reserve over the whole budget evicts nothing |
| `LeasedRuns.GraceDeadline` | src/oc_slimapi/singleflight.py:487-533 | in every run a flight in its grace window has as its deadline the time of its leader's successful finish plus the grace |
| `LeasedRuns.JoinsWithinGrace` | src/oc_slimapi/singleflight.py:393-428 | over every run, a fetch whose key has a flight registered joins it if and only if it is still running or the clock, read off the ticks, has not reached its leader's successful finish plus the grace |
| `LeasedRuns.StepEvolves` | src/oc_slimapi/singleflight.py:457-566 | a flight's future changes only when its own leader ends, and to that end; refunds and reserves never come undone |
| `LeasedRuns.WakeDelivers` | src/oc_slimapi/singleflight.py:430-455 | a woken waiter gets exactly what the flight's future holds |
| `LeasedRuns.CancelledWaiterIsSilent` | src/oc_slimapi/singleflight.py:430-455 | a cancelled waiter changes no other call, future or registration |
| `LeasedRuns.ReleaseGivesBack` | src/oc_slimapi/singleflight.py:613-638 | releasing a lease gives up one reference and nothing else, unless it was the last on a flight already out of the registry, which is then gone with its bytes back |
| `LeasedRuns.FireExpires` | src/oc_slimapi/singleflight.py:577-611 | a timer takes its grace flight out of the registry, with its bytes back exactly if nobody holds it, and no other flight |
| `LeasedRuns.StopEmpties` | src/oc_slimapi/singleflight.py:709-761 | a shutdown empties the registry, keeps every future and caller, and gives back exactly the bytes of the idle grace flights |
| `LeasedRuns.ServedByLeader` | src/oc_slimapi/singleflight.py:430-481 | in every run, whatever a call was served is what its flight's own leader ended with, at a finish event of that run |
| `LeasedRuns.RejoinAfterLeaderCancel` | src/oc_slimapi/singleflight.py:393-455 | after a leader cancel the bytes are already back, and a waiter re-enters: it joins the flight that took the key with one more reference and no new reserve, else leads at once if its reserve fits what is free or idle, else bypasses |
| `LeasedRuns.RejoinOnFreeKey` | src/oc_slimapi/singleflight.py:393-455 | if nothing took the key, whether it leads can be read off the registry before the wake-up |
| `PlainRegistry.SingleFlight.Enter` | src/oc_slimapi/singleflight.py:372-391 | join the registered flight or insert a new one and evict |
| `PlainRegistry.SingleFlight.EvictOverBudget` | src/oc_slimapi/singleflight.py:662-677 | the loop ends, in the state the eviction function gives |
| `PlainRegistry.SingleFlight.ConvertSuccess` | src/oc_slimapi/singleflight.py:487-521 | a registered completion is sized, evicts and arms its timer; an unregistered one only answers its waiters |
| `PlainRegistry.SingleFlight.FailFlight` | src/oc_slimapi/singleflight.py:535-566 | drops by key, then delivers the outcome |
| `PlainRegistry.SingleFlight.Close` | src/oc_slimapi/singleflight.py:729-748 | every entry dropped, oldest first |
| `PlainRuns.StepKeeps` | src/oc_slimapi/singleflight.py:372-391 | every event keeps exact accounting, unique registration and the caps |
| `PlainRuns.RetentionLaw` | src/oc_slimapi/singleflight.py:487-521 | in every run the retained bytes are the byte lengths of the bodies the dictionary serves and within the cap; the entry count is within its cap or only in-flight entries are left |
| `PlainRuns.EvictsNoMoreThanNeeded` | src/oc_slimapi/singleflight.py:662-677 | eviction removes the oldest completed entries and stops at the first state that fits |
| `PlainRuns.OldestIsFirst` | src/oc_slimapi/singleflight.py:662-677 | every entry ahead of the one chosen for eviction is still in flight |
| `PlainRuns.JoinsWithinGrace` | src/oc_slimapi/singleflight.py:372-391 | over every run, a fetch whose key has a flight registered joins it, changing nothing, if and only if it is still running or its leader succeeded less than the grace ago; otherwise it leads a new flight |
| `PlainRuns.FiresAfterGrace` | src/oc_slimapi/singleflight.py:577-592 | over every run, the timer of a completed entry removes it if and only if the grace since its leader's success is over |
| `PlainRuns.InFlightStays` | src/oc_slimapi/singleflight.py:648-677 | an in-flight entry leaves only by its own end, a shutdown, or the stale failure of an older flight for its key |
| `PlainRuns.LateCompletion` | src/oc_slimapi/singleflight.py:487-521 | a completion after a shutdown accounts nothing |
| `PlainRuns.FailureDropsSuccessor` | src/oc_slimapi/singleflight.py:535-546 | a failing flight takes down another one if and only if it is detached and its key is registered again |
| `PlainRuns.StepStaysUniqueIff` | src/oc_slimapi/singleflight.py:372-391 | an event breaks uniqueness if and only if it is a fetch that finds nothing to join while an unlisted flight of its key still runs |
| `PlainRuns.RunStaysUniqueIff` | src/oc_slimapi/singleflight.py:372-391 | a whole run keeps one running flight per key at every moment if and only if none of its fetches clashes in that way |
| `PlainRuns.OneFlightPerKey` | src/oc_slimapi/singleflight.py:372-391 | without a shutdown no fetch clashes, so one running flight per key |
| `PlainRuns.TwoFlightsAfterShutdown` | src/oc_slimapi/singleflight.py:729-748 | fetch, shutdown, fetch: two running flights for one key |
| `PlainRuns.StaleFailureLetsThirdIn` | src/oc_slimapi/singleflight.py:535-546 | a detached flight's failure unregisters the running successor, and a third flight starts |
| `DiffParser.FilesFromDiffText` | src/oc_slimapi/skeleton.py:434-565 | the loop over the lines computes the reader's left fold, closed at the end |
| `DiffCounting.StepSound` | src/oc_slimapi/skeleton.py:456-565 | every line keeps: in a hunk there is an open paired section with budget left |
| `DiffCounting.CountsNeverNegative` | src/oc_slimapi/skeleton.py:456-565 | after every list of lines the asserts hold and no count, with lines taken back, is negative |
| `DiffCounting.NoLineCountedTwice` | src/oc_slimapi/skeleton.py:456-565 | every line is counted for at most one file, and each file's counts are exactly the lines it owns |
| `DiffCounting.TotalsBounded` | src/oc_slimapi/skeleton.py:479-565 | total additions and deletions never exceed the lines starting with plus and minus |
| `DiffRoundTrip.CleanReadsBack` | src/oc_slimapi/skeleton.py:389-565 | printed sections, each an `Index:` form, a git form with any extended lines, or a bare header pair, with either side prefixed or not, stamped or not, or the null device, and with matching hunk counts and no look-alike pair, are read back with their paths and true counts |
| `DiffRoundTrip.UncleanNeverReadsBack` | src/oc_slimapi/skeleton.py:479-493 | any look-alike pair makes the reader's answer differ |
| `DiffRoundTrip.ReadsBackIffClean` | src/oc_slimapi/skeleton.py:389-565 | the two together: over all these forms reading inverts printing if and only if there is no look-alike pair |
| `DiffRoundTrip.HeaderLookAlike` | src/oc_slimapi/skeleton.py:479-493 | a concrete section whose own body lines are taken for a new file header |
| `SearchPattern.ReplacesAreOnePass` | src/oc_slimapi/dbaux/projection.py:104-110 | the three ordered replacements equal a one-pass escape |
| `SearchPattern.WildcardFreeIffUnescaped` | src/oc_slimapi/dbaux/projection.py:113-120 | no wildcard if and only if escaping is the identity |
| `SearchPattern.SearchIsSubstring` | src/oc_slimapi/dbaux/projection.py:189-197 | LIKE with the escaped pattern holds if and only if the title contains the text, ASCII case ignored |
| `SearchPattern.PlainPatternAgrees` | src/oc_slimapi/dbaux/projection.py:113-120 | without wildcards the escaped and unescaped patterns select the same titles |
| `SessionsQuery.BuildSessionsQuery` | src/oc_slimapi/dbaux/projection.py:135-241 | answers with a query if and only if the archived mode is one of the three, the limit is at least one and no parent, cursor or allowlist id is empty; that query's own conjuncts and parameters select exactly the wanted rows, with the request's limit; a refusal names what is wrong |
| `SessionsQuery.Assemble` | src/oc_slimapi/dbaux/projection.py:135-241 | the checks in their order, and the conjuncts and parameters appended side by side as specified |
| `SessionsQuery.BuildSubtrees` | src/oc_slimapi/dbaux/projection.py:200-216 | one branch per allowlist item with its own parameters; refuses an empty item |
| `SessionsQuery.QueryMeansRequest` | src/oc_slimapi/dbaux/projection.py:176-231 | as many parameters as placeholders, and handed out in order they select exactly the rows the request asks for |
| `SessionsRows.RowsToRecords` | src/oc_slimapi/dbaux/projection.py:248-294 | keeps exactly the rows with an id all of whose JSON columns can be shown, in order |
| `SessionsRows.ShownIff` | src/oc_slimapi/dbaux/projection.py:248-294 | a row is shown if and only if it has an id, no JSON column fails to parse and the model is an object, null or no text |
| `SessionsRows.WindowAnchor` | src/oc_slimapi/dbaux/projection.py:315-329 | the key of the last row with an integer time and a non-empty text id, nothing after it having both; none if and only if no row has |
| `SessionsRows.AssemblePage` | src/oc_slimapi/dbaux/projection.py:356-362 | records and anchor from the first rows, complete exactly when the extra row is missing |
| `SessionsRows.AssemblesPage` | src/oc_slimapi/dbaux/projection.py:332-362 | on rows with text ids, the empty one included, and integer times the assembled page is the page of the paging theorems |
| `SessionsPaging.ListingIsExact` | src/oc_slimapi/dbaux/projection.py:233-240 | the listing holds exactly the wanted rows, each once, in strictly descending order |
| `SessionsPaging.NextListing` | src/oc_slimapi/dbaux/projection.py:217-231 | the request anchored at a row lists exactly what comes after that row |
| `SessionsPaging.PagingAddsUp` | src/oc_slimapi/dbaux/projection.py:332-362 | following anchors ends; the windows concatenate to the listing, the records to its tolerated rows; every window but the last is full; only the last page is complete |
| `SessionsGaps.WalkWithGap` | src/oc_slimapi/dbaux/projection.py:315-362 | for every table with unique ids, the exact list of rows a walk visits and shows, wherever the row with the empty id falls |
| `SessionsGaps.VisitsEachOnceIff` | src/oc_slimapi/dbaux/projection.py:315-362 | a walk visits the listing, each row once, if and only if no row with an empty id ends a full page that more rows follow |
| `SessionsGaps.ShowsEachOnceIff` | src/oc_slimapi/dbaux/projection.py:248-362 | the same for what is shown: a row that is not shown may be met twice, and with a limit of one nothing may be left to show |
| `SessionsGaps.EmptyIdShownTwice` | src/oc_slimapi/dbaux/projection.py:315-329 | three rows, limit two: the row with the empty id is shown twice |
| `SessionsGaps.EmptyIdEndsWalk` | src/oc_slimapi/dbaux/projection.py:315-329 | the same rows, limit one: the walk ends before the last row |
| `SessionsPaging.CompletePageKeepsAnchor` | src/oc_slimapi/dbaux/projection.py:357-362 | a complete page still names its last row, and following it gives one empty complete page without an anchor |
| `Base64Url.PaddingRestored` | src/oc_slimapi/dbaux/cursor.py:158-162 | the padding recomputed from the stripped length is the padding that was stripped |
| `Base64Url.RoundTrip` | src/oc_slimapi/dbaux/cursor.py:158-186 | every byte string comes back, and only alphabet characters are sent |
| `Base64Url.DecodableLengths` | src/oc_slimapi/dbaux/cursor.py:183-188 | a text over the alphabet decodes unless its length is one more than a multiple of four |
| `Base64Url.ReencodesIffZeroTail` | src/oc_slimapi/dbaux/cursor.py:183-188 | re-encoding gives the text back if and only if its unused bits are zero |
| `Base64Url.DecodingIsNotInjective` | src/oc_slimapi/dbaux/cursor.py:183-188 | two texts, one byte string |
| `Utf8.DecodeEncode` | src/oc_slimapi/dbaux/cursor.py:161-190 | UTF-8 round trips for every text |
| `Utf8.EncodeDecode` | src/oc_slimapi/dbaux/cursor.py:183-190 | whatever bytes are accepted are written back exactly: no second form of any text is accepted |
| `JsonRoundTrip.ParsePrint` | src/oc_slimapi/dbaux/cursor.py:161-192 | every JSON value without fractions is read back, its strings with surrogate pairs merged |
| `JsonRoundTrip.MergeFixed` | src/oc_slimapi/dbaux/cursor.py:161-192 | merging leaves a string alone if and only if no high surrogate stands directly before a low one |
| `Cursor.DecodeEncoded` | src/oc_slimapi/dbaux/cursor.py:158-208 | what every encoded cursor decodes to, the empty anchor included |
| `Cursor.CursorRoundTripIff` | src/oc_slimapi/dbaux/cursor.py:158-208 | the payload comes back if and only if the id is not empty and no string holds a surrogate pair |
| `Cursor.SurrogatePairIsLost` | src/oc_slimapi/dbaux/cursor.py:158-208 | a non-empty id that comes back changed |
| `Cursor.AcceptedIsStable` | src/oc_slimapi/dbaux/cursor.py:165-208 | any accepted cursor text, re-encoded from its payload, is accepted as the same payload |
| `EntityTags.SplitCandidates` | src/oc_slimapi/etag.py:144-156 | the character scan cuts exactly at the commas outside quotes |
| `EntityTags.IfNoneMatchMatches` | src/oc_slimapi/etag.py:128-160 | a hit if and only if the header is a star or names the opaque tag, weakness ignored; trimming the header changes nothing |
| `EntityTags.OpaqueOfElement` | src/oc_slimapi/etag.py:163-180 | a printed tag, weak or strong, reduces to its opaque value; anything without quotes to nothing |
| `EntityTags.OpaqueTagIff` | src/oc_slimapi/etag.py:163-180 | a candidate has an opaque value if and only if it is that value, not empty and free of quotes, in quotes, perhaps marked weak |
| `EntityTags.MatchesPrintedList` | src/oc_slimapi/etag.py:128-180 | for every printed list the header matches a tag if and only if its opaque value is in the list or the list is a lone star |
| `Gzip.AcceptsGzip` | src/oc_slimapi/gzip_util.py:40-84 | the last gzip part decides by its last readable weight, failing that the last wildcard, failing that no |
| `Gzip.AcceptsPrintedList` | src/oc_slimapi/gzip_util.py:40-84 | for every printed list of codings, in any case and with any white space, parameters and weights, gzip is accepted if and only if the last offer of gzip or x-gzip allows it or, with none, the last wildcard does; an offer allows unless its last readable weight is not above zero |
| `Gzip.CompressIfBeneficial` | src/oc_slimapi/gzip_util.py:87-119 | gzip exactly when accepted, long enough and strictly smaller; the payload is never longer than the body |
| `ConditionalTail.HashInputInjective` | src/oc_slimapi/etag.py:58-125 | settings, coding and body can be told from the bytes that are hashed |
| `ConditionalTail.EtagDetermines` | src/oc_slimapi/etag.py:113-125 | equal opaque values mean equal settings, coding and body |
| `ConditionalTail.JudgeConditional` | src/oc_slimapi/etag.py:191-254 | the verdict before compression: miss, star, or the one candidate validator |
| `ConditionalTail.EncodeConditionalTail` | src/oc_slimapi/etag.py:263-321 | the whole tail: eligibility, verdict, compression, validator |
| `ConditionalTail.ServesTheBody` | src/oc_slimapi/etag.py:263-321 | every 200: undoing the announced coding gives the body back, gzip is announced if and only if it is accepted, the body is long enough and gzip is shorter, and the validator is the one of the announced coding |
| `ConditionalTail.NotModifiedIsBare` | src/oc_slimapi/etag.py:263-321 | every 304 has an empty body and no coding |
| `ConditionalTail.HonestIff` | src/oc_slimapi/etag.py:191-321 | for any request, a 304 carries the 200's validator if and only if it was a star or the body does not fall back to identity |
| `ConditionalTail.ForgedTagIsEchoed` | src/oc_slimapi/etag.py:244-254 | naming the gzip validator never sent for a body that falls back earns a 304 with that validator, which the 200 would not carry |
| `ConditionalTail.FallBackExists` | src/oc_slimapi/gzip_util.py:108-119 | such requests exist |
| `ConditionalTail.NotModifiedIsHonest` | src/oc_slimapi/etag.py:191-321 | in every lawful history each 304 carries exactly the validator of the 200 it stands for |
| `ConditionalTail.NotModifiedIff` | src/oc_slimapi/etag.py:191-321 | when a 304 is sent: a star, or the 200's validator named and no identity fall-back |
| `SinceCache.Process.Allocate` | src/oc_slimapi/since_cache.py:29-33 | generations go up by one, shared by all caches |
| `SinceCache.SinceCache.Observe` | src/oc_slimapi/since_cache.py:114-126 | the current entry, touched; nothing when disabled; what that entry is over a history is `SinceRuns.LookSees` |
| `SinceRuns.LookSees` | src/oc_slimapi/since_cache.py:114-126 | over every history an observation of an enabled cache sees exactly the entry of the last publication stored under that cache and key that has been neither replaced, dropped nor evicted since |
| `SinceRuns.CacheIsStanding` | src/oc_slimapi/since_cache.py:114-257 | over every history what a key holds is what the last commit that changed it left there |
| `SinceRuns.CommitLaw` | src/oc_slimapi/since_cache.py:206-257 | the outcome of a commit in every case, read off what stands under the key and what its caller observed |
| `SinceRuns.StoredStays` | src/oc_slimapi/since_cache.py:240-275 | an entry that fits the caps on its own survives its own store |
| `SinceRuns.OldestInFront` | src/oc_slimapi/since_cache.py:114-275 | over every history the entries stand in the order of their last use, observation or commit, so that eviction takes the least recently used |
| `SinceRuns.Charge` | src/oc_slimapi/since_cache.py:206-257 | an entry is charged its bytes, the bytes of its message ids, and 96 for each of them |
| `SinceCache.SinceCache.Commit` | src/oc_slimapi/since_cache.py:206-257 | the compare-and-swap outcome, the new entries, bytes and counter in every branch |
| `SinceCache.SinceCache.EvictOverBudget` | src/oc_slimapi/since_cache.py:267-275 | the loop ends, in the state the eviction function gives |
| `OrderedDict.EvictKeepsLongestSuffix` | src/oc_slimapi/since_cache.py:267-275 | eviction keeps the longest newest-first suffix within both caps: with any fewer entries gone it would not fit |
| `SinceRuns.StepKeeps` | src/oc_slimapi/since_cache.py:114-257 | every event keeps: each generation names one publication, bytes exact, caps hold |
| `SinceRuns.Accounting` | src/oc_slimapi/since_cache.py:206-275 | in every history the bytes are exact, within both caps, each entry within the entry cap |
| `SinceRuns.NoAba` | src/oc_slimapi/since_cache.py:225-238 | after any history, finding the observed generation means finding the observed entry |
| `SinceRuns.ReplacesOnlyObserved` | src/oc_slimapi/since_cache.py:226-257 | a commit takes an entry from its key only if its caller observed exactly that entry |
| `SinceRuns.GenerationNamesOneEntry` | src/oc_slimapi/since_cache.py:29-33 | across all caches of the process, equal generations mean the same publication |
| `SinceToken.FaithfulCodec` | src/oc_slimapi/since_cache.py:137-147 | a JSON library that returns token documents unchanged exists |
| `SinceToken.IssuedToken` | src/oc_slimapi/since_cache.py:137-204 | the exact verdict on every issued token, for every asker: invalid over 512 bytes or for another session, valid only for the current generation of the same epoch and query, else reset |
| `SinceToken.AnyTokenJudged` | src/oc_slimapi/since_cache.py:149-204 | any text at all: refused if and only if it carries no well-formed version 1 payload for the session; otherwise valid if and only if epoch, query hash and generation are the current ones, the payload's own generation reported |
| `SinceToken.ValidTokenNamesOneEntry` | src/oc_slimapi/since_cache.py:149-204 | after any history, whatever text is judged valid names the one entry ever published with that generation |
| `FanOut.CollectWithByteBudget` | src/oc_slimapi/routes/_aggregate_fanout.py:337-408 | the loop answers with the fold, and every launched task is consumed or cancelled and awaited |
| `FanOut.StepKeeps` | src/oc_slimapi/routes/_aggregate_fanout.py:351-406 | every event keeps the window bound, consumption order and the remaining fold |
| `FanOut.EveryOrderFolds` | src/oc_slimapi/routes/_aggregate_fanout.py:337-408 | for every completion order a run that is not cancelled returns the sequential fold, all tasks settled; with no window the answer is empty |
| `FanOut.WindowAndCleanup` | src/oc_slimapi/routes/_aggregate_fanout.py:351-406 | never more than `concurrency` unconsumed tasks; once over, even by cancellation, none is left neither ended nor cancelled |
| `FanOut.NeverStuck` | src/oc_slimapi/routes/_aggregate_fanout.py:351-406 | until it is over something can always happen |
| `FanOut.RunsAreShort` | src/oc_slimapi/routes/_aggregate_fanout.py:351-406 | no run has more than three events per directory and two to close |
| `FanOut.FoldStopsAtFirstOverflow` | src/oc_slimapi/routes/_aggregate_fanout.py:369-393 | the fold is everything gathered before the first success that overflows a budget, truncated if and only if there is one |
| `AccessLog.StepKeeps` | src/oc_slimapi/access_log.py:234-277 | every step of every thread keeps: the lock has its one holder, and the installed handler's open file is linked |
| `AccessLog.HeldFileStaysLinked` | src/oc_slimapi/access_log.py:558-653 | in every interleaving the file the installed handler holds open is linked |
| `AccessLog.UnlinkSparesHeldFile` | src/oc_slimapi/access_log.py:806-833 | when maintenance unlinks, the installed handler holds nothing or a file under another path |
| `AccessLog.ArchivedBeforeUnlink` | src/oc_slimapi/access_log.py:598-653 | in every interleaving, when maintenance is about to unlink a source it compressed, the archive is in place |
| `AccessLog.SwitchOpensToday` | src/oc_slimapi/access_log.py:255-266 | a date switch ends with the handler holding the linked file of its directory and the record's date, no other handler touched |
| `AccessLog.FailureTouchesNothing` | src/oc_slimapi/access_log.py:598-653 | a file operation that fails changes neither files nor handlers, and the lock is given up next |
| `AccessLog.NeverStuck` | src/oc_slimapi/access_log.py:234-277 | in every interleaving a busy thread can go on unless it waits for the lock, whose holder can; exactly the file operations may fail |
| `AccessLog.JobsEnd` | src/oc_slimapi/access_log.py:234-277 | every step of a busy thread, failing or not, brings it closer to idle, at most six of its own steps away, and moves no other thread |
| `AccessLog.FilesStayApart` | src/oc_slimapi/access_log.py:598-653 | in every interleaving no two paths share a file |
| `AccessLog.StepLosesIff` | src/oc_slimapi/access_log.py:598-653 | for any step and any handler, a linked open file stays linked if and only if the step does not unlink its path |
| `AccessLog.AllStayLinkedIff` | src/oc_slimapi/access_log.py:234-277 | in every interleaving all handlers' open files, replaced handlers included, stay linked throughout if and only if no move unlinks the path of a file its handler opened after it was replaced and still holds |
| `AccessLog.OnlyStragglersLose` | src/oc_slimapi/access_log.py:300-341 | a file is lost only by a handler that was not installed when it opened that very file and is not when it loses it |
| `AccessLog.ReplacedHandlerMayLoseItsFile` | src/oc_slimapi/access_log.py:300-341 | a run in which an emit waiting across a re-install reopens a file in the replaced handler and maintenance unlinks it |
| `LatencyBreaker.LatencyBreaker.Record` | src/oc_slimapi/dbaux/lifecycle.py:228-266 | sample first, then decide by phase |
| `LatencyBreaker.LatencyBreaker.NoteProbe` | src/oc_slimapi/dbaux/lifecycle.py:278-296 | streak, reset of the streak, and the step to probation |
| `LatencyBreaker.LatencyBreaker.ProbeFailed` | src/oc_slimapi/dbaux/lifecycle.py:298-305 | a failed probe breaks the streak |
| `BreakerModel.RankInRange` | src/oc_slimapi/dbaux/lifecycle.py:217-223 | the rank is always an index of the window |
| `BreakerRuns.P99ReachesIff` | src/oc_slimapi/dbaux/lifecycle.py:217-226 | P99 reaches a bar if and only if more than a hundredth of the samples, rounded down, do |
| `BreakerRuns.PruneIsExact` | src/oc_slimapi/dbaux/lifecycle.py:212-215 | with a clock that does not run back, the lazy sweep keeps exactly the fresh samples |
| `BreakerRuns.FreshIsNotOlder` | src/oc_slimapi/dbaux/lifecycle.py:212-215 | a sweep keeps exactly the samples taken at the cutoff or later, in order |
| `BreakerRuns.CountersAreStreaks` | src/oc_slimapi/dbaux/lifecycle.py:228-305 | over every trace the counters are the lengths of the good-probe and fast-query runs that end it |
| `BreakerRuns.LeavesOpenIff` | src/oc_slimapi/dbaux/lifecycle.py:278-317 | from open: probation exactly on the probe that completes the required run, closed exactly on reset |
| `BreakerRuns.ProbeAnswers` | src/oc_slimapi/dbaux/lifecycle.py:278-296 | over every trace a probe is told that queries may pass if and only if the breaker is not open after it |
| `BreakerRuns.LeavesProbationIff` | src/oc_slimapi/dbaux/lifecycle.py:240-259 | from probation: open on one slow query, closed exactly on the query that completes the required run or on reset |
| `BreakerRuns.SamplesAreWindow` | src/oc_slimapi/dbaux/lifecycle.py:212-237 | over every trace with a clock that does not run back, the samples held are exactly the queries since the last reset that are in the window, and the total counts them all |
| `BreakerRuns.TripsIff` | src/oc_slimapi/dbaux/lifecycle.py:228-266 | from closed, in terms of the trace alone: a query opens the breaker if and only if it is past warm-up since the last reset and more than a hundredth of the queries in its window, of which there are enough, were slow |
| `BreakerRuns.LeavesClosedIff` | src/oc_slimapi/dbaux/lifecycle.py:260-266 | from closed: open exactly when, past warm-up and with enough samples, more than a hundredth are slow |
| `BreakerRuns.OneSlowQueryPerEpisode` | src/oc_slimapi/dbaux/lifecycle.py:582-618 | with the one-worker queue no queued query's SQL executes while open, and each probation episode starts at most one slow query |
| `BreakerRuns.QueryRuns` | src/oc_slimapi/dbaux/lifecycle.py:582-618 | a query submitted to an idle worker runs and is recorded, unless the breaker is open, when it is turned away without a trace |
| `TurnRegistry.IncarnationStore.LoadOrBump` | src/oc_slimapi/turn_registry.py:171-220 | high watermark of what can be read, plus one, written within three attempts; unconfirmed values are marked and floored by the clock; a readable file that is no UTF-8 raises and leaves the disk alone |
| `TurnRegistry.IncarnationStore.WritePersisted` | src/oc_slimapi/turn_registry.py:222-292 | the file changes exactly when the attempt succeeds |
| `TurnRegistry.Registry.BumpTurn` | src/oc_slimapi/turn_registry.py:344-372 | increment, move to the recent end, trim from the front |
| `TurnRegistry.Registry.Snapshot` | src/oc_slimapi/turn_registry.py:374-394 | a pair is published if and only if the incarnation was confirmed, and it is the incarnation with the session's current turn |
| `TurnRuns.KeepsMostRecent` | src/oc_slimapi/turn_registry.py:353-371 | the counters kept are exactly the capped recency list |
| `TurnRuns.ResidentIff` | src/oc_slimapi/turn_registry.py:353-371 | a session is counted if and only if it was bumped and fewer than the cap other sessions were bumped since |
| `TurnRuns.EvictionNeedsManyOthers` | src/oc_slimapi/turn_registry.py:344-371 | losing a counter takes at least 10000 other distinct sessions since its last bump |
| `TurnRuns.TurnAfterBump` | src/oc_slimapi/turn_registry.py:344-371 | a bump adds one to its session and lowers no turn but that of a session it evicts |
| `TurnRuns.TurnCountsBumps` | src/oc_slimapi/turn_registry.py:344-394 | the turn of a session is the number of its bumps since 10000 other sessions last came in between, from zero |
| `TurnRuns.StartRisesIff` | src/oc_slimapi/turn_registry.py:171-192 | from any state, the value a start would write beats every confirmed one if and only if nothing was confirmed yet or a file it can read holds at least the last confirmed value |
| `TurnRuns.StartConfirmsIff` | src/oc_slimapi/turn_registry.py:188-220 | a start that does not raise is confirmed if and only if one of the first three writes succeeds; then, and only then, the primary file changes, to the new incarnation; the legacy file never does |
| `TurnRuns.StepKeepsFenceIff` | src/oc_slimapi/turn_registry.py:171-292 | an event keeps the fence, rising now and remembered on disk, if and only if it is not a write over a past it could not read |
| `TurnRuns.RunKeepsFenceIff` | src/oc_slimapi/turn_registry.py:171-292 | over every sequence of lifetimes with read faults, failed writes and crashes, each confirmed start beats every earlier one and the disk remembers it, if and only if no event is such a blind write |
| `TurnRuns.RunRisesIff` | src/oc_slimapi/turn_registry.py:171-220 | the rising alone: every confirmed start of a run beats the last one if and only if each of them can read at least that value |
| `TurnRuns.OutageIsHarmless` | src/oc_slimapi/turn_registry.py:191-220 | a start that can confirm nothing publishes nothing, leaves the disk alone and is never blind |
| `TurnRuns.UnconfirmedValue` | src/oc_slimapi/turn_registry.py:205-220 | an unconfirmed incarnation is the least value above the clock and everything that could be read |
| `TurnRuns.BlindCrashLowersFence` | src/oc_slimapi/turn_registry.py:141-220 | a start that dies after a blind write makes a later start that reads everything publish 2 after 5 |
| `TurnRuns.BadLegacyNeverStarts` | src/oc_slimapi/turn_registry.py:141-187 | a readable legacy file that is no text keeps every start from succeeding |
| `TurnRuns.StartRaisesIff` | src/oc_slimapi/turn_registry.py:141-187 | a start raises if and only if a file it can read is no text, and never because of a primary file the store has written |
| `TurnRuns.ReadFaultLowersFence` | src/oc_slimapi/turn_registry.py:141-160 | a read fault after publishing 5 publishes 1 |
| `TurnRuns.IncarnationsRise` | src/oc_slimapi/turn_registry.py:171-292 | over any lifetimes, crashes, failed writes and outages included, without a blind write, a confirmed start beats every earlier one |
| `TurnRuns.FenceNeverFalls` | src/oc_slimapi/turn_registry.py:344-394 | over any lifetimes without a blind write the published pair of a session never goes down lexicographically unless it was evicted since it was last published |
| `TurnRuns.PublishedCountsBumps` | src/oc_slimapi/turn_registry.py:344-394 | after any run, a process runs if and only if the last of the starts and stops is a start that did not raise, and what it publishes for a session counts the session's bumps since that start |
| `CatalogCache.CatalogCache.Store` | src/oc_slimapi/catalog_cache.py:158-164 | replace at the newest end, account, evict |
| `CatalogCache.CatalogCache.Land` | src/oc_slimapi/catalog_cache.py:124-151 | the body is stored only if it is a list of allowed size and the captured generation is still current |
| `CatalogCache.CatalogCache.Lookup` | src/oc_slimapi/catalog_cache.py:94-109 | a fresh body, or none with an expired entry dropped |
| `CatalogCache.CatalogCache.Invalidate` | src/oc_slimapi/catalog_cache.py:190-217 | everything dropped, the generation moved on |
| `CatalogRuns.StoreSurvivors` | src/oc_slimapi/catalog_cache.py:158-179 | under the configuration guards the survivors are the longest newest-first suffix within both caps, and the new body is among them |
| `CatalogRuns.CachedIsAfterLastInvalidation` | src/oc_slimapi/catalog_cache.py:111-184 | in every interleaving each cached body is the list that a refresh of its key, begun after the last invalidation, brought back, at the time it landed; bytes exact, caps hold |
| `CatalogRuns.StoredIffBegunAfterInvalidation` | src/oc_slimapi/catalog_cache.py:124-151 | a landing refresh stores its body if and only if it is a list of allowed size begun after the last invalidation |
| `CatalogRuns.EntriesAfter` | src/oc_slimapi/catalog_cache.py:94-217 | one event, exactly: the entries that stay keep their order and a stored body goes behind them; an entry leaves exactly when all is cleared, it is looked up too old, its key is stored anew, or it does not fit beside the new body |
| `CatalogRuns.CachedIff` | src/oc_slimapi/catalog_cache.py:94-217 | in every interleaving the cache holds exactly what was stored and has not left since |
| `CatalogRuns.ServedIff` | src/oc_slimapi/catalog_cache.py:94-109 | in every interleaving a lookup is answered with a body if and only if a refresh of that key, begun after the last invalidation, landed with it less than the ttl ago and it has not been replaced, evicted, dropped or cleared since |
| `CatalogRuns.RefreshIsServed` | src/oc_slimapi/catalog_cache.py:94-151 | after any run, a refresh that begins, and lands with a list of allowed size before anything else happens, is served for the ttl |

## Left out

- HTTP routes, middleware, the application lifespan and log formatting: plumbing around the modelled core.
- The event loop, threads and timers as such: they are the events of the models; the clock is a parameter.
- SHA-256, gzip and SQLite: a function without collisions, an arbitrary function, and filter, sort and take. SQLite's limit on pattern length is not modelled.
- The network semaphore and the per-directory fetch of the fan-out: a worker is its outcome.
- Python's limits on integer text length and nesting depth in JSON, and writing JSON fractions: cursors hold none.
- `JsonRoundTrip.ParsePrint`: states what is read back of what the JSON library writes; that the library's reader also takes white space, fractions, exponents, other escapes and capital hex digits is modelled but not characterised, since it is library code.
- The orjson library behind since tokens: taken as a codec that returns token documents unchanged, for generations it can write (64 bits).
- Numeric parsing of a `q=` weight: a parameter that says whether the text reads as a number above zero.
- How SQLite orders and compares rows with a missing or non-text id or a time that is not an integer: assembly handles them, but the paging theorems are stated for unique text ids, the empty one included, and integer times.
- `DiffParser.FilesFromDiffText`: digits in a hunk header are the ASCII ones, although the pattern accepts every Unicode digit.
- `AccessLog.HeldFileStaysLinked`: the handler is modelled by values in a state machine, not by a class, because the steps of several threads interleave inside its methods; lines that arrive while a file is being archived are not claimed to survive.
- `BreakerRuns.OneSlowQueryPerEpisode`: a sample is recorded in one step; a torn update between the worker thread and the event loop is not modelled.
- `SinceRuns.NoAba`: a caller commits to the cache and key it observed, as the route does.
- Configuration validation, readiness, metrics, traffic counters and the field whitelists of the skeleton and provider projections: they would only add easy members.
- The SSE hub, replay log and token stream, and the actions runner.
