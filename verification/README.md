# Verified models of Jellyrin's JavaScript logic

Jellyrin is a media server. The JavaScript around it holds logic that is easy to get subtly wrong:
the browser script that loads subtitles in overlapping windows, the catalogue benchmark whose
projections must agree with plain scans, the JSON comparison of two servers' answers, the policy
that lets a known vulnerability be ignored for a while, an environment-file rewriter and a paged
read. This project models that logic in Dafny and proves what it promises.

`dafny verify dfyconfig.toml` checks everything.

## What is modelled

**Subtitle windows** (`ops/web/jellyrin-segmented-subtitles.js`). Polls, seeks and resumes start
asynchronous loads; responses complete in any order; a cache of 200 promises coalesces calls; a
controller merges overlapping windows into one shared array; a new controller stops the old one.
`SubtitleLoader` is the script as a state machine whose steps run from one await to the next, so a
run is any interleaving of polls, intercepted fetches, settling calls and continuations.
`SubtitleLoaderInvariant` proves what every step keeps, `SubtitleLoaderTheorems` what that means,
`SubtitleLoaderEffects` what each step does to the window grid, the cues and the calls, in the script's
own numbers, `SubtitleLoaderLive` which controller is live and `SubtitleLoaderFailures` what a failed
call leads to.
`SubtitleScript` is the same script on the heap, with the shared array, the response arrays and
the controllers as objects updated in place; each of its methods is proved to take exactly one
step of the state machine. `Cues` and `Dedup` hold the merge itself, `NativeCues` the mirroring of
merged cues into the browser's text track through floating-point seconds, and `NativeLoads` what the
loads of a run pass on to it.

Three findings. A fetch made earlier but answered later ends with the live controller and stops that
of the newer fetch (`OlderFetchWins`). A call that failed stays in the cache, so polling again awaits
the same failure and the window stays unloaded until 200 other windows have been called
(`FailedWindowIsNotRetried` on a run, `FailedWindowStaysUnloaded` for every continuation). And the
script assumes that a window's response lists every cue *overlapping* the window, while the server's
`subtitle_vtt_cues_starting_in_window` (`crates/jellyrin-api/src/lib.rs:48749-48778`) keeps the
cues *starting* in it: with such responses a cue that is running when the viewer seeks is missing
(`SeekMissesRunningCue`), and the position is covered exactly when every cue needed there starts
in a loaded window (`CoverageOfStartingCues`).

**Catalogue benchmark** (`qa/postgres-catalog-benchmark.js`). `Catalog` evaluates the benchmark's
pairs of queries over arbitrary tables with the declared keys; `CatalogSeed` fills the tables with
the loops the seeding SQL stands for; `CatalogCounts` proves the closed-form row counts for every
size and `CatalogPages` the measured pages. `CatalogRows` tells queries, pages and seeded rows column by
column: which ids and metadata come back, and which seed value stands at which place of a page.

**JSON comparison** (`qa/golden/api-parity.js`, `qa/golden/browser-trace.js`). `JsObjects` is
JavaScript's property enumeration order, `Json` the values and JSON.stringify of strings.
`JsonShape` proves that comparing serialised shapes decides equality of structure, `JsonNormalize`
what normalisation forgets, `JsonTexts` what the texts and normal forms look like, `JsonPaths` that
listed paths are found, `JsonWalks` that finding a path is walking it, and `JsonPathAgreement` exactly
when the two path checkers agree. They differ on a body with a dotted key (`DottedKeyDiffers`), on a
list whose later elements have more fields than the first (`LaterElementDiffers`), and, since `in`
also sees what objects inherit, on inherited names in any body with an object
(`InheritedNameDiffers`, `AgreeOnInheritedIff`).

**Vulnerability exceptions** (`qa/supply-chain.js`, `ops/render-vulnerability-ignores.js`).
`Calendar` is date parsing as ECMA-262 defines it, `ExceptionPolicy` the validator with
JavaScript's string coercions, `ExceptionAcceptance` the declarative meaning of an empty list of
complaints, `ExceptionMeaning` that of each single complaint on the members of the JSON, `Patterns`
the policy's regular expressions piece by piece, `IgnoreRenderer` the two scanner files and
`RenderedPolicy` what stands in them, record by record and line by line.

**Environment files and paging** (`qa/systemd-runtime-smoke.js`,
`qa/magstv-configure-jellyrin.js`). `EnvFile` is the parser, printer and rewriter, `EnvMeaning` what a
line assigns and what the rewritten file says under each name, `ChannelPaging` the loop that reads a
tuner's channels.

`Options`, `Ordering`, `Decimal` and `Text` are shared: options, stable sorting and lexicographic
order, decimal numerals, trimming and splitting.

## Assumptions

- JavaScript runs to completion between awaits; a promise settles at most once.
- Window URLs differ when their base or their start differs, and so do database ids of different
  seed values.
- localeCompare is a strict weak order that tells apart the texts of an accepted policy.
- Dividing a number of ticks from 0 to 2^50 by 10^7, and multiplying the quotient by 10^7, round at
  most once each, by at most 2^-53 of the exact result, as section 4.3 of IEEE 754-2008 has it for
  results that neither underflow nor overflow. Nothing is assumed of any other operands.
- The current day is a parameter, a day of the years 0 to 9999.

## Model

| member | source | states |
|---|---|---|
| SubtitleLoaderTheorems.Coverage | ops/web/jellyrin-segmented-subtitles.js:29-129 | in every reachable state, if responses list the cues overlapping their window, then at every position whose window is loaded each source cue on screen from there to 10 seconds later is among the controller's events |
| SubtitleLoaderTheorems.CoverageOfStartingCues | ops/web/jellyrin-segmented-subtitles.js:91-129 | with responses listing the cues that start in the window, the position is covered if and only if every cue needed there starts in some loaded window |
| SubtitleLoaderTheorems.SeekMissesRunningCue | ops/web/jellyrin-segmented-subtitles.js:91-129 | a concrete run with such a server after which a cue running at a loaded position is missing |
| SubtitleLoaderTheorems.LoadedKeys | ops/web/jellyrin-segmented-subtitles.js:91-129 | for any way the server selects cues for a window, the keys of the events are exactly the keys selected for the loaded windows |
| SubtitleLoaderTheorems.FirstWindowsKeys | ops/web/jellyrin-segmented-subtitles.js:91-129 | once the windows starting at 0, 20, ..., 20k are the loaded ones, the event keys are exactly those of the source cues overlapping [0, 20k+30) that end after the beginning of the first window their start allows |
| SubtitleLoaderTheorems.FirstWindowsAreOneFetch | ops/web/jellyrin-segmented-subtitles.js:91-129 | then the event keys are exactly those of one fetch of [0, 20k+30) if and only if every source cue in that range ends after the beginning of the first window its start allows |
| SubtitleLoaderTheorems.UsualCueReaches | ops/web/jellyrin-segmented-subtitles.js:7-8 | every cue does that ends after 0 and less than 10 seconds before it starts |
| SubtitleLoaderTheorems.OverlapsUnion | ops/web/jellyrin-segmented-subtitles.js:29-44 | the windows up to 20k pick exactly such cues out of those one fetch of [0, 20k+30) picks |
| SubtitleLoaderTheorems.CompletionOrderIndependence | ops/web/jellyrin-segmented-subtitles.js:94-129 | two runs from one initial window with the same response per window and the same merged loads end with the same bag of keys, whatever the order, and with the same sequence of start positions if the latest merge of both ran to its end |
| SubtitleLoaderTheorems.ControllerSafety | ops/web/jellyrin-segmented-subtitles.js:91-129 | in every reachable state every controller but the active one is stopped, and loading marks correspond one to one to the loads in flight and are disjoint from the loaded windows |
| SubtitleLoaderTheorems.LoadedNeverLost | ops/web/jellyrin-segmented-subtitles.js:94-122 | in every continuation of every run a controller keeps its loaded windows and the keys of its events |
| SubtitleLoaderTheorems.StoppedForever | ops/web/jellyrin-segmented-subtitles.js:100-108 | a stopped controller stays stopped and its events and loaded windows never change again, in any continuation |
| SubtitleLoaderLive.LiveController | ops/web/jellyrin-segmented-subtitles.js:91-188 | in every reachable state a controller is live if and only if it was made by the last resumed fetch whose call succeeded; a response that cannot be read leaves none live |
| SubtitleLoaderLive.OneLive | ops/web/jellyrin-segmented-subtitles.js:91-166 | no reachable state has two live controllers |
| SubtitleLoaderLive.OlderFetchWins | ops/web/jellyrin-segmented-subtitles.js:168-188 | a concrete run in which the fetch made first resumes last: its controller ends live and the newer fetch's ends stopped |
| SubtitleLoaderTheorems.MergeInvariant | ops/web/jellyrin-segmented-subtitles.js:94-122 | in every reachable state the key set is exactly the keys of the events, initial keys keep their initial multiplicity, every other key occurs once, and events are sorted after a completed merge |
| SubtitleLoaderTheorems.LoadOutcome | ops/web/jellyrin-segmented-subtitles.js:100-129 | a load that ends makes its window loaded only if the controller is live and its merge ran to its end, and always takes its loading mark away; which responses those are, SubtitleLoaderEffects.LoadSucceeds says |
| SubtitleLoaderEffects.WindowStartExact | ops/web/jellyrin-segmented-subtitles.js:29-34 | the window start is the multiple of 20 with start <= t < start + 20 for t >= 0, and 0 for a negative position or none |
| SubtitleLoaderEffects.RunsOnGrid | ops/web/jellyrin-segmented-subtitles.js:29-62 | after every run each called URL, each loaded, loading and awaited window starts at a multiple of 20 seconds, and a URL asks for 30 seconds from there in ticks of 10^-7 s |
| SubtitleLoaderEffects.TickEffect | ops/web/jellyrin-segmented-subtitles.js:100-108 | in every reachable state a poll does nothing if the controller is stopped or the window loaded or loading; otherwise it marks the window, calls its URL unless one of the last 200 calls was for it, and awaits that call |
| SubtitleLoaderEffects.InterceptEffect | ops/web/jellyrin-segmented-subtitles.js:168-174 | in every reachable state an intercepted fetch calls its window unless one of the last 200 calls was for it, and awaits that call |
| SubtitleLoaderEffects.LoadSucceeds | ops/web/jellyrin-segmented-subtitles.js:107-122 | in every reachable state, when a load of a live controller ends with a list of entries, its window, not loaded before, is loaded if and only if no entry is null; the cues in front of the first null that equal no event and no earlier cue are added; and they are merged in by start, behind earlier events with the same start, if and only if no entry is null |
| SubtitleLoaderEffects.EmptyLoadSucceeds | ops/web/jellyrin-segmented-subtitles.js:109-122 | a response without a list loads the window and adds nothing |
| SubtitleLoaderEffects.LoadFails | ops/web/jellyrin-segmented-subtitles.js:107-128 | on a stopped controller, after a rejected call, and with a null response or one whose list cannot be walked, neither events nor loaded windows change |
| SubtitleLoaderEffects.EndOfLoad | ops/web/jellyrin-segmented-subtitles.js:126-128 | a load that ends removes its own waiter and loading mark and touches no other controller, call or reply |
| SubtitleLoaderEffects.FetchSucceeds | ops/web/jellyrin-segmented-subtitles.js:91-99 | a successful fetch stops exactly the active controller and makes a live one whose events are the cues of the response, place by place, with its window loaded and nothing loading |
| SubtitleLoaderEffects.FetchFails | ops/web/jellyrin-segmented-subtitles.js:168-188 | a failed fetch answers 503 and leaves the active controller live after a rejected call, stopped after an unreadable response |
| SubtitleLoaderEffects.UntouchedOrder | ops/web/jellyrin-segmented-subtitles.js:94-94 | in every reachable state a controller that has merged nothing shows the cues of its first response in their order |
| SubtitleLoaderTheorems.AtMostOneCallPerUrl | ops/web/jellyrin-segmented-subtitles.js:50-62 | a run with at most 200 different window URLs calls the network at most once for each |
| SubtitleLoaderTheorems.CallsNetworkIffNotRecent | ops/web/jellyrin-segmented-subtitles.js:50-62 | in every reachable state a fetch calls the network if and only if none of the last 200 calls was for its URL, failed calls included |
| SubtitleLoaderFailures.FailedWindowStaysUnloaded | ops/web/jellyrin-segmented-subtitles.js:50-62 | once a call has failed and nobody awaits an older call for its URL, then in every continuation, until 200 calls for other windows have followed, fetching the window makes no call and no controller gets it loaded |
| SubtitleLoaderFailures.FailedWindowIsNotRetried | ops/web/jellyrin-segmented-subtitles.js:100-128 | a concrete run: the poll after a failed load makes no call and leaves the window unloaded |
| SubtitleLoaderInvariant.FetchKeepsCacheLaw | ops/web/jellyrin-segmented-subtitles.js:50-62 | the cache stays the last 200 calls, oldest first, each URL once, and the entry fetched is in it afterwards |
| SubtitleLoaderInvariant.StepKeeps | ops/web/jellyrin-segmented-subtitles.js:91-189 | every step keeps the whole invariant, and calls are only added or settled once |
| SubtitleLoaderInvariant.RunKeeps | ops/web/jellyrin-segmented-subtitles.js:91-189 | the invariant holds after every run |
| SubtitleScript.Script.FetchWindow | ops/web/jellyrin-segmented-subtitles.js:50-62 | on the heap, looking up, calling and evicting is the state machine's fetch and returns its request |
| SubtitleScript.Script.LoadCurrentWindow | ops/web/jellyrin-segmented-subtitles.js:100-107 | up to its await, loadCurrentWindow is the tick step, whose effect SubtitleLoaderEffects.TickEffect states and whose window WindowStartExact |
| SubtitleScript.Script.JellyrinFetch | ops/web/jellyrin-segmented-subtitles.js:168-174 | up to its await, the intercepted fetch is the intercept step, whose effect SubtitleLoaderEffects.InterceptEffect states and whose window WindowStartExact |
| SubtitleScript.Script.NetworkSettles | ops/web/jellyrin-segmented-subtitles.js:54-57 | a settling call is the settle step and creates its response array |
| SubtitleScript.Script.ResumeLoad | ops/web/jellyrin-segmented-subtitles.js:107-128 | after its await, loadCurrentWindow is the resume step, whose effect SubtitleLoaderEffects.LoadSucceeds, EmptyLoadSucceeds and LoadFails state; it writes only the controller and the controller's array, which is never a cached response's; it passes to the native track just the cues a completed merge added, whose keys are distinct and were not known |
| SubtitleScript.Script.ResumeFetch | ops/web/jellyrin-segmented-subtitles.js:91-188 | after its await, the intercepted fetch is the resume step, whose effect SubtitleLoaderEffects.FetchSucceeds and FetchFails state: the old controller is stopped, and the caller gets the new controller's own array or a 503 |
| SubtitleScript.ScriptController.Absorb | ops/web/jellyrin-segmented-subtitles.js:109-117 | the merge loop appends, in order, the first cue of each key not known before, and ends early at an entry it cannot read |
| SubtitleScript.ScriptController.SortEvents | ops/web/jellyrin-segmented-subtitles.js:118 | the array is sorted by start position, holds the same cues as before, and cues with the same start keep their order |
| Ordering.StableSortIsSort | ops/web/jellyrin-segmented-subtitles.js:118 | a list is the result of the model's sort if and only if it is sorted and keeps the order of ties, so the sort used everywhere is the stable one |
| Cues.KeyRoundTrip | ops/web/jellyrin-segmented-subtitles.js:46-48 | start, end and text can be read back from a merge key, colons in the text included |
| Cues.EventKeyInjective | ops/web/jellyrin-segmented-subtitles.js:46-48 | two cues have the same merge key if and only if start, end and text-or-empty agree |
| Cues.ReplayBag | ops/web/jellyrin-segmented-subtitles.js:94-118 | after any merges the keys are those of the initial events and of the responses, with the multiplicities stated above |
| Cues.MergeOrderIndependent | ops/web/jellyrin-segmented-subtitles.js:94-118 | logs of merges with the same keys, each ending in a completed merge, give the same bag of keys and the same start positions |
| Dedup.NewOnesSnoc | ops/web/jellyrin-segmented-subtitles.js:110-117 | deduplicating one more cue appends it exactly when its key is neither known nor seen |
| NativeCues.TicksRoundTrip | ops/web/jellyrin-segmented-subtitles.js:72-84 | ticks from 0 to 2^50 survive division to seconds, multiplication and Math.round exactly, if these operations on ticks each round at most once |
| NativeCues.OrdinaryIsEnough | ops/web/jellyrin-segmented-subtitles.js:72-84 | an arithmetic that rounds once wherever the result neither underflows nor overflows does so on ticks |
| NativeCues.UnderflowIsAllowed | ops/web/jellyrin-segmented-subtitles.js:72-84 | an arithmetic that flushes small results to zero is among them |
| NativeCues.NativeTimes | ops/web/jellyrin-segmented-subtitles.js:72-80 | a native cue has the event's start and end in seconds up to one rounding, and the event's text or the empty one |
| NativeCues.CallAppends | ops/web/jellyrin-segmented-subtitles.js:64-89 | a call adds, in the order of the list, the native cues of the accepted events whose key was not in the track, and nothing under a custom renderer |
| NativeCues.TextTrack.AddNativeCues | ops/web/jellyrin-segmented-subtitles.js:64-89 | the loop appends one native cue for each accepted event whose key was not in the track at the start |
| NativeCues.NativeCuesNeverDuplicate | ops/web/jellyrin-segmented-subtitles.js:64-89 | on a list with distinct keys each missing accepted key is added once and no key already there gains a cue |
| NativeCues.SecondCallAddsNothing | ops/web/jellyrin-segmented-subtitles.js:64-89 | a second call with the same list changes nothing |
| NativeCues.ControllerNeverDuplicates | ops/web/jellyrin-segmented-subtitles.js:94-121 | over all merges of one controller a key already in the track keeps its multiplicity, and any other key is there once if some merge offers it and not at all otherwise |
| NativeLoads.LoadPasses | ops/web/jellyrin-segmented-subtitles.js:109-121 | a load that ends on a live controller passes on its new cues in order if no entry is null, and otherwise nothing |
| NativeLoads.RunCallsNative | ops/web/jellyrin-segmented-subtitles.js:94-121 | over every run the calls made for a controller are those of its merges |
| NativeLoads.RunNeverDuplicates | ops/web/jellyrin-segmented-subtitles.js:94-121 | over every run no key is put into the track twice by one controller: a key there before keeps its multiplicity, any other is there once if some load offers it |
| Catalog.UpcomingProjectionIsFilteredScan | qa/postgres-catalog-benchmark.js:429-448 | for any tables with the declared keys, the projection returns exactly the scanned rows with a date after the cutoff, each once |
| Catalog.FilterProjectionIsFilteredScan | qa/postgres-catalog-benchmark.js:457-479 | for any tables with the declared item key, the three-way INTERSECT returns exactly the visible items with the person, the studio and the tag, each once |
| Catalog.GenreFormsAgree | qa/postgres-catalog-benchmark.js:400-414 | the EXISTS and the IN form agree on the count, the ordered page and the rows, for any tables |
| CatalogRows.UpcomingScanExactly | qa/postgres-catalog-benchmark.js:444-447 | the scan returns the id and the metadata of each present TV video once, for any tables with the declared key |
| CatalogRows.UpcomingProjectionExactly | qa/postgres-catalog-benchmark.js:429-448 | the projection returns the id and the metadata of each present TV video with a date after (1700000000, 0) once, for any tables with the declared keys |
| CatalogRows.FilterProjectionExactly | qa/postgres-catalog-benchmark.js:457-479 | the filter projection returns the id and the metadata of each present item with the three selector rows once |
| CatalogRows.GenrePageExactly | qa/postgres-catalog-benchmark.js:400-414 | for any tables the first page of both genre forms holds, by lower-cased name and then id, the first 100 present items with a selector row |
| CatalogRows.PageExactly | qa/postgres-catalog-benchmark.js:287-328 | for any rows a page holds, place by place, the ids from its offset on of the rows in order of lower-cased name and then id, 100 or as many as are left |
| CatalogSeed.Schema.Seed | qa/postgres-catalog-benchmark.js:202-278 | the seeding loops fill the tables with exactly the specified rows |
| CatalogSeed.SeededKeysHold | qa/postgres-catalog-benchmark.js:138-285 | the seeded tables satisfy the declared keys |
| CatalogRows.SeededItemsExactly | qa/postgres-catalog-benchmark.js:202-238 | every column of the item and the date of each seed value |
| CatalogRows.SeededSelectorsExactly | qa/postgres-catalog-benchmark.js:251-278 | which genre and filter rows are seeded |
| CatalogRows.SeededSelectorsOnce | qa/postgres-catalog-benchmark.js:251-278 | no selector row is seeded twice |
| CatalogRows.SeededPlaybackExactly | qa/postgres-catalog-benchmark.js:240-250 | one playback row for each present movie, numbered in the order of the scan, with every column |
| CatalogSeed.CountResidue | qa/postgres-catalog-benchmark.js:578-586 | how many of 1..size lie in a residue class, by a quotient |
| CatalogCounts.UpcomingScanRows | qa/postgres-catalog-benchmark.js:578-582 | the scan over the seeded tables returns visibleTvRows rows, for every size from 1 |
| CatalogCounts.UpcomingProjectionRows | qa/postgres-catalog-benchmark.js:584-586 | the projection returns futureTvRows rows |
| CatalogCounts.FilterProjectionRows | qa/postgres-catalog-benchmark.js:588-592 | the filter projection returns combinedFilterSelectorRows rows |
| CatalogCounts.GenreRows | qa/postgres-catalog-benchmark.js:61-64 | both genre forms return the two reported counts |
| CatalogPages.NameOrderIsNumeric | qa/postgres-catalog-benchmark.js:226 | zero-padded seeded names sort as their numbers |
| CatalogPages.PageIsNumericSlice | qa/postgres-catalog-benchmark.js:287-328 | ordering the seeded rows by lower-cased name and cutting out the page is cutting it out of the qualifying seed values in numeric order; which values those are, CatalogRows.SeededPageExactly says |
| CatalogRows.SeededPageExactly | qa/postgres-catalog-benchmark.js:287-328 | element i of a page of seeded rows is the id of the qualifying value with exactly offset + i smaller qualifying ones, and the page has 100 elements or as many as are left |
| CatalogRows.MeasuredPages | qa/postgres-catalog-benchmark.js:287-328 | so for the visible, movie and folder pages, with qualifying values told by residues |
| CatalogRows.UnplayedPage | qa/postgres-catalog-benchmark.js:311-318 | and for the unplayed page, whatever order row_number used |
| CatalogPages.UnplayedIsFilter | qa/postgres-catalog-benchmark.js:311-318 | under the declared key the outer join keeps exactly the items not played, each once |
| CatalogPages.UnplayedCount | qa/postgres-catalog-benchmark.js:240-250 | how many movies are unplayed, whatever order row_number used |
| CatalogPages.PagesAreFull | qa/postgres-catalog-benchmark.js:287-328 | for sizes 1000 to 500000 the visible, movie and unplayed pages hold 100 rows and the folder page at least 20 |
| JsonShape.ShapeTextsDecideStructure | qa/golden/api-parity.js:391-395 | two bodies give the same serialised shape if and only if they have the same structure, object keys unordered and lists reduced to their first element |
| JsonShape.SameStructureIffSameShape | qa/golden/api-parity.js:696-711 | two bodies have equal shapes if and only if they have the same structure |
| JsonShape.StringifyInjective | qa/golden/api-parity.js:394 | different shapes are serialised differently |
| Json.QuotePrefix | ops/render-vulnerability-ignores.js:43-46 | a quoted string ends at its own closing quote: it can be read off the front of any text |
| JsonTexts.QuoteReadsBack | ops/render-vulnerability-ignores.js:43-46 | a reader after section 7 of RFC 8259 reads every quoted string back, in front of any text |
| JsonTexts.ShapeText | qa/golden/api-parity.js:696-711 | the serialised shape, kind by kind: the four scalar names, [] or the shape of the first element in brackets, and the members in ascending order of their keys, array indices first, in braces |
| JsonTexts.NormalForm | qa/golden/api-parity.js:713-733 | a normalised object member by member |
| JsonTexts.NormalUnder | qa/golden/api-parity.js:713-751 | what each of the five dynamic keys, a blur-hash map and any other key becomes |
| JsonNormalize.NormalizeObject | qa/golden/api-parity.js:713-733 | the loop over an object's entries computes the specified object |
| JsonNormalize.NormalizeTags | qa/golden/api-parity.js:744-748 | the loop over one type's hashes keeps the last hash, normalised, under the one shared tag key |
| JsonNormalize.NormalizeIdempotent | qa/golden/api-parity.js:713-751 | normalising twice is normalising once, for every value |
| JsonNormalize.NormalizeForgets | qa/golden/api-parity.js:713-751 | two bodies normalise alike if and only if they differ only under dynamic keys, in members named __proto__, and in the tag keys and all but the last hash of each type of a blur-hash map |
| JsonNormalize.ResponsesMatchIff | qa/golden/api-parity.js:384-414 | two answers match in normalised mode if and only if their statuses agree and, below 400 and unless the case is strict-only, their normalised bodies have the same structure |
| JsonNormalize.AlikeBodiesMatch | qa/golden/api-parity.js:384-414 | answers whose bodies differ only in what normalisation forgets match |
| JsonPaths.KeyIsPath | qa/golden/browser-trace.js:9008-9028 | every listed key is a path of the shape joined at dots |
| JsonPaths.PathIsKey | qa/golden/browser-trace.js:9008-9028 | every path of the shape, joined at dots, is a listed key |
| JsonPaths.ShapePathsAreFound | qa/golden/api-parity.js:659-674 | every path of a body's shape is found in the body, dotted keys or not |
| JsonPaths.SplitsBackIff | qa/golden/api-parity.js:659-674 | splitting a joined path at dots gives it back if and only if no part contains a dot |
| JsonPaths.ListedPathsAreFound | qa/golden/browser-trace.js:9008-9028 | every key listed for the shape of a body with plain keys, split at its dots, is a path the other checker finds |
| JsonPathAgreement.CheckersAgreeIff | qa/golden/api-parity.js:659-674 | whatever objects inherit, on a plain body without inherited names among its keys the checkers agree on every path to a field that names nothing inherited, list markers aside, if and only if the body fits its own shape: no list element has structure that the shape of the first element lacks |
| JsonPathAgreement.InheritedNameDiffers | qa/golden/api-parity.js:670 | an inherited name is found in the empty object and not listed |
| JsonPathAgreement.AgreeOnInheritedIff | qa/golden/api-parity.js:670-673 | where objects inherit anything, the checkers agree on all paths to a field, inherited names included, if and only if the body holds no object |
| JsonPathAgreement.FoundIffListed | qa/golden/api-parity.js:659-674 | in such a body each path to a field is found if and only if it is listed, whatever properties are inherited under other names |
| JsonPathAgreement.UniformFits | qa/golden/browser-trace.js:9723-9738 | bodies whose lists hold elements of one structure fit their own shape |
| JsonWalks.FoundIffWalk | qa/golden/api-parity.js:659-674 | a path is found if and only if some walk uses up its parts, each step going into any list element or to the property a part names, an own property hiding an inherited one |
| JsonPaths.FewerMarkersStillFound | qa/golden/api-parity.js:659-674 | removing list markers from a path never loses a path that was found |
| JsonPaths.DottedKeyDiffers | qa/golden/browser-trace.js:9008-9028 | with a dotted key a listed path is not found |
| JsonPaths.LaterElementDiffers | qa/golden/api-parity.js:659-674 | a path behind the first list element is found but not listed |
| JsonPaths.CollectShapeKeys | qa/golden/browser-trace.js:9008-9028 | the recursive loops collect exactly the listed paths |
| JsonPaths.CompareRequiredShape | qa/golden/browser-trace.js:8994-9006 | the reasons are, for each required path in turn, the sides that miss it |
| JsonPaths.ReasonsInOrder | qa/golden/browser-trace.js:8994-9006 | each required path adds its missing sides behind the reasons before it, upstream first |
| Calendar.ParseIsoDateExact | qa/supply-chain.js:821-827 | parseIsoDate accepts exactly the strings that name a real Gregorian day, and yields that day |
| Calendar.IsoDateRoundTrip | qa/supply-chain.js:821-827 | every day of the years 0 to 9999 has exactly one accepted string, the printed one |
| Calendar.DateOfIsReal | qa/supply-chain.js:821-827 | every day number is the number of the real date it is printed as |
| Calendar.DayAfterDay | qa/supply-chain.js:821-827 | day numbers run on one by one from 1 January 1970, through 30 or 31 days a month and 28 or in a leap year 29 |
| Calendar.StringOrderIsDayOrder | qa/supply-chain.js:821-827 | accepted strings compare as strings exactly as their days |
| Calendar.TrivyExpirationIsEndOfDay | ops/render-vulnerability-ignores.js:48-53 | the rendered instant is the last second of the day, read as an RFC 3339 date-time |
| ExceptionPolicy.ValidateVulnerabilityExceptions | qa/supply-chain.js:693-795 | the validator's whole outcome: the complaints in order, or the exception a coercion throws |
| ExceptionPolicy.CheckEntries | qa/supply-chain.js:719-793 | the loop with its set of seen identities reports a duplicate exactly where an earlier entry has the same identity |
| ExceptionAcceptance.ReportExactly | qa/supply-chain.js:719-793 | the complaints about entries are exactly the broken rules, each once, entry by entry in the order of the checks |
| ExceptionAcceptance.AcceptedIff | qa/supply-chain.js:693-795 | there is no complaint if and only if the policy meets the declarative predicate: exact fields, valid texts, dates framing today at most 30 days apart, distinct identities |
| ExceptionAcceptance.FieldsRightIff | qa/supply-chain.js:725-728 | once all eight fields are there, comparing joined names finds every extra field, separators inside names included |
| ExceptionAcceptance.AcceptanceIgnoresOrder | qa/supply-chain.js:693-795 | reordering the exceptions keeps a policy accepted |
| ExceptionAcceptance.AcceptedExpiry | qa/supply-chain.js:773-792 | an accepted entry's rendered instant lies after all of today and at most 30 days and 86399 seconds after its approval day begins |
| ExceptionMeaning.Complaints | qa/supply-chain.js:719-793 | what is no object draws just that complaint; an object draws those that its members draw and, if an earlier object prints the same scanner:id, Duplicate |
| ExceptionMeaning.VersionComplaint | qa/supply-chain.js:693-717 | the version is complained about if and only if "schema_version" is not the number 1 |
| ExceptionMeaning.ThrowsIff | qa/supply-chain.js:734-742 | the validator throws if and only if the scanner or the id of some object does not print |
| ExceptionMeaning.FieldsRule | qa/supply-chain.js:725-728 | a wrong field list, on the member names |
| ExceptionMeaning.ScannerRule | qa/supply-chain.js:729-731 | a wrong scanner, on the member "scanner" |
| ExceptionMeaning.IdRule | qa/supply-chain.js:732-738 | an invalid id if and only if the text of "id" does not match the regular expression of its scanner |
| ExceptionMeaning.ListText | qa/supply-chain.js:734-742 | an array prints as its elements joined with commas, null as nothing |
| ExceptionMeaning.ComponentsRule | qa/supply-chain.js:744-750 | invalid components if and only if "components" is not a non-empty array of distinct non-empty strings |
| ExceptionMeaning.CratesRule | qa/supply-chain.js:751-755 | for rustsec, components that do not match the crate expression |
| ExceptionMeaning.PackagesRule | qa/supply-chain.js:756-761 | for trivy, components that do not match the package-URL expression |
| ExceptionMeaning.ReasonRule | qa/supply-chain.js:762-764 | a short reason if and only if "reason" is not a string of 32 units once trimmed |
| ExceptionMeaning.OwnerRule | qa/supply-chain.js:765-767 | an invalid owner if and only if "owner" is no string matching the owner expression |
| ExceptionMeaning.TrackingIssueRule | qa/supply-chain.js:768-770 | an invalid tracking issue if and only if "tracking_issue" is no string matching the https expression |
| ExceptionMeaning.DateRules | qa/supply-chain.js:771-778 | an invalid date if and only if "approved_on" or "expires_on" is no string naming a day |
| ExceptionMeaning.LifetimeRules | qa/supply-chain.js:779-790 | the three complaints about the two days and today |
| Patterns.RustsecIsPattern | qa/supply-chain.js:732-735 | the model tests rustsec ids as the expression of the source does, piece by piece |
| Patterns.CrateIsPattern | qa/supply-chain.js:751-755 | so for crate components, the name ending at the first @ |
| Patterns.OwnerIsPattern | qa/supply-chain.js:765-767 | and for owners, with and without a team |
| Patterns.ReasonLength | qa/supply-chain.js:762-764 | the reason is measured in UTF-16 units between the white space around it |
| IgnoreRenderer.PrintRustsecIds | ops/render-vulnerability-ignores.js:17-20 | the loop prints the lines of the sorted rustsec ids |
| IgnoreRenderer.PrintTrivyYaml | ops/render-vulnerability-ignores.js:21-37 | the loops print the file of the sorted trivy records; its lines are told by RenderedPolicy.TrivyYamlLines and its records by RenderedPolicy.RecordsMean |
| IgnoreRenderer.RenderingIgnoresOrder | ops/render-vulnerability-ignores.js:12-37 | for an accepted policy both outputs are the same under any reordering of its exceptions |
| IgnoreRenderer.RustsecIdsExact | ops/render-vulnerability-ignores.js:12-20 | rustsec-ids lists exactly the rustsec ids, in strictly increasing order |
| IgnoreRenderer.RustsecOutputReadsBack | ops/render-vulnerability-ignores.js:17-20 | splitting the printed text at line ends gives the ids back |
| IgnoreRenderer.TrivyRecordsExact | ops/render-vulnerability-ignores.js:22-36 | trivy-yaml renders every trivy exception once and nothing else, whatever the policy; what a record says of an accepted one, RenderedPolicy.RecordsMean says |
| IgnoreRenderer.TrivyRecordsExpire | ops/render-vulnerability-ignores.js:33 | every rendered record belongs to an exception whose approval and expiry frame today |
| RenderedPolicy.RecordsMean | ops/render-vulnerability-ignores.js:22-36 | every record of an accepted policy says what a trivy exception says: id is the text of "id", purls are the strings of "components" in order, expired_at is "expires_on" with T23:59:59Z, and the statement is "reason", " Owner: ", "owner", ". Tracking: ", "tracking_issue" |
| RenderedPolicy.ExceptionsRendered | ops/render-vulnerability-ignores.js:22-36 | every trivy exception of an accepted policy has such a record |
| RenderedPolicy.RecordIdsIncrease | ops/render-vulnerability-ignores.js:12-26 | the ids of the records strictly increase |
| RenderedPolicy.RustsecIdsMean | ops/render-vulnerability-ignores.js:17-20 | rustsec-ids prints the text of "id" of the rustsec exceptions and nothing else |
| RenderedPolicy.TrivyYamlLines | ops/render-vulnerability-ignores.js:23-37 | the file line by line: the heading, and for each record its id, purls, expired_at and statement, quoted, at their indentation |
| IgnoreRenderer.TrivyYamlDeterminesRecords | ops/render-vulnerability-ignores.js:21-46 | equal files come from equal records: no field can be mistaken for structure |
| EnvFile.ParseEnv | qa/systemd-runtime-smoke.js:149-163 | the loop performs the assignments its lines make |
| EnvFile.RoundTripIff | qa/systemd-runtime-smoke.js:149-167 | printing and parsing gives an object of strings back if and only if every key and value is clean |
| EnvFile.ParsedRoundTrip | qa/systemd-runtime-smoke.js:149-167 | whatever was parsed survives printing and parsing, property order included |
| EnvFile.LastValueWins | qa/systemd-runtime-smoke.js:149-163 | a key has the value of its last assignment, and __proto__ is never a key |
| EnvMeaning.Assignment | qa/systemd-runtime-smoke.js:151-161 | a line, white space around it aside, assigns what follows its first = to what precedes it, unless that is __proto__ |
| EnvMeaning.NoAssignment | qa/systemd-runtime-smoke.js:152-160 | a line that starts with # or has no = assigns nothing |
| EnvMeaning.LinesInOrder | qa/systemd-runtime-smoke.js:165-167 | the printed file is one line name=value for each member, in order |
| EnvFile.RewriteEnv | qa/systemd-runtime-smoke.js:134-147 | the rewritten object is the parsed one after the ten assignments |
| EnvFile.RewrittenValues | qa/systemd-runtime-smoke.js:134-147 | every rewritten key has its new value and every other key its last assigned one |
| EnvMeaning.RewrittenByName | qa/systemd-runtime-smoke.js:134-145 | what the rewritten environment says under each of nine names |
| EnvMeaning.RewrittenLog | qa/systemd-runtime-smoke.js:144 | RUST_LOG is inherited unless it is unset or empty |
| EnvFile.RewriteSurvivesIff | qa/systemd-runtime-smoke.js:134-167 | the rewritten environment survives the file if and only if no substituted value holds a line end or ends in white space |
| ChannelPaging.ReadChannels | qa/magstv-configure-jellyrin.js:70-84 | the loop stops after the first request that does not lead to another one, with the tuner's channels of everything received, in order |
| ChannelPaging.OneRequest | qa/magstv-configure-jellyrin.js:74-84 | each request starts where the received items end, receives its items behind them, and is followed by another if and only if it brought an item and its total, 0 unless a natural number, lies beyond them |
| ChannelPaging.KeptItems | qa/magstv-configure-jellyrin.js:80 | an item is kept if and only if its tuner is the one asked for |
| ChannelPaging.StopsOnce | qa/magstv-configure-jellyrin.js:84 | the number of requests after which the loop stops is unique |
| ChannelPaging.BoundedTotalsEnd | qa/magstv-configure-jellyrin.js:70-84 | the loop ends whenever the announced totals are bounded |
| ChannelPaging.ReadAllChannels | qa/magstv-configure-jellyrin.js:70-84 | against pages of a fixed list with its true total, exactly the tuner's channels arrive in order within max(1, n) requests |
| ChannelPaging.ReceivedIsPrefix | qa/magstv-configure-jellyrin.js:70-84 | whatever totals are announced, what has arrived is a first part of the list without gap or repetition |
| ChannelPaging.CompleteIff | qa/magstv-configure-jellyrin.js:70-84 | when the loop stops, everything has arrived if and only if no answer to a request understated the total |
| ChannelPaging.FullPagesRequests | qa/magstv-configure-jellyrin.js:70-84 | full pages of 500 take one request for each 500 channels begun |

## Left out

- The Rust server, apart from the one fact about its subtitle windows named above.
- The DOM, timers, event listeners, the player's choice of text track and URL parsing; only the steps they trigger remain.
- Which requests are intercepted (`requestUrl`, `isSegmentedSubtitle`); unsegmented ones bypass the script.
- Subtitle entries that are neither objects nor null, positions in ticks that are not integers, and a TrackEvents that is a string.
- The order in which a browser lists native cues; only which cues are there matters.
- Columns of the tables that neither a query nor the seeding model names (`created_at`, `updated_at` and the like), indexes, plans and timing.
- Collation: names are compared by character; ids by any order.
- The strict comparison mode of the parity suite, its request plumbing and its reports.
- Inherited properties that `in` sees are a parameter of the path checker, not a list of Object.prototype's members.
- Paths that end at a list marker: shapeKeys lists none, while hasPath finds one for every non-empty list.
- Bodies with a key "[]": hasPath takes that step for a list marker and never finds it.
- Surrogate pairs: strings are sequences of characters, except that the reason's length counts UTF-16 units.
- The wording of the validator's messages; complaints are an entry's index and the broken rule.
- What the renderer does to a policy it cannot print (entries that are not objects, components that are not a list): it throws, or walks the characters of a string.
- Process environment and path joining are parameters of the environment rewrite.
- ChannelPaging.ReadChannels: asks that some request does not lead to another one; a server that always announces more keeps the source's loop going for ever.
- Argument parsing, private-network checks, evidence writers and Markdown.
