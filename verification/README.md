# VaultBridge: a verified model

VaultBridge puts a bounded, fail-closed service around a vault of Markdown notes. This project models the
inner algorithms of that service in Dafny and proves what they are for. `dafny verify dfyconfig.toml` checks
all of it.

## What is modelled

**Links.** `LinkGrammar` says what a link is on a line of text. `EagerLinks` has the line-splitting parsers of
both dialects, `ScopedLinks` the incremental recogniser in which every inspected character is paid for, and
`LinkRefinement` proves that the two recognise the same links on every text. `FencedCode` says on the text alone which
lines are read for links, and `LinkText` what the links of such a line are. `Relationships` has the bounded derivation
over the recogniser, a numbered prefix under any credit that is called complete only when it is the whole, and the eager
derivation it then equals.
`ScanCosts` counts exactly what every scan pays, so when a credit suffices is known exactly; `ScanBounds` shows that
sixteen probes per byte do wherever code spans close, and `ScanWitness` has texts on which they do not.

**Budgets.** `ScopedBudget` has the request's counters, the reserved cleanup credits and the relationship views.
Pure `Books` carry the invariants; the classes change their fields in place and are proved against them.

**Protocols.** `Indexer`, `Dispatcher` and `EmbeddingResource` each have a state machine whose steps are the
regions the source runs under its lock, with theorems over every interleaving, and the object whose methods take
those steps. `ResourceCleanup` has the descriptor table with recycled numbers, a close that may raise before or
after taking effect, and the disposal of a descriptor with its guard.

**Synchronisation and discovery.** `PathOrder` has the order of paths, sorting and keyset pages. `SemanticSync`
has the resumable synchronisation with its frontier, pages and stale cursor. `ScopedVault` has the bounded choice
of the smallest paths and the component-by-component resolver over the path texts of `PurePath`; `VaultLaws` says what
the resolver refuses and where links lead.

**Queries.** `KnowledgeQuery` has the declarative filter, the evaluator that reads each note once under a budget,
and the unbudgeted query.

**Printers and parsers.** `Frontmatter` has the emitter, the envelope scanner and its saturating count, `FlowReader` a
reader that gets everything emitted back, and `FrontmatterLimits` exactly what is accepted; `Capture`
the composed capture and the body cut out of it, and `CaptureCuts` where the two readers of a capture cut an edited
one; `Promotion` the block, its markers and the append that happens once; `ResourceUri` the qualified resource URI.
`PythonText` holds the parts of Python's `str` they rely on.

## What the code does that its promises do not say

- The bounded evaluator reports an answer as available when it ran out without relationship predicates: the
  matches are then those of an initial segment of the snapshot (`Evaluate`).
- A URI whose path is longer than 1024 bytes raises the domain's own error instead of the invalid-request error
  of every other refusal (`PrintedParses`).
- For `..` the resolver drops the last component without asking whether it is a directory, so a path through a
  file and back resolves (`FileAndBack`).
- A link text that begins with a backslash is split with a leading slash, whose lookup ignores the directory at
  hand: the resolver then looks at the root of the file system, may resolve to it, and may resolve a path that
  resolves elsewhere the next time. When this happens is exact (`LooksOutside`, `TreeLooksOutside`), and so is what
  it leaves of canonicity and idempotence (`CanonicalExactly`, `ResolutionIsIdempotent`).
- After an interrupted `dup` the guard stays in doubt, so no later disposal dispatches the descriptor's close: safe,
  and the price is a leak (`DoubtfulForGood`, `LeaksExactly`).
- `_body` breaks lines where Python does, the envelope scanner only at line feeds, and only the latter accepts three
  dots. They agree on every composed capture (`EnvelopeOfComposed`); on an edited one exactly as
  `ReadersAgreeExactly` says, and not always (`FormFeedCuts`, `DotsCut`).
- Sixteen probes per byte, which is what a note is credited, cover it where code spans close
  (`ClosedSpansAreCovered`) and not always: a note without a link can be reported limited
  (`SomeTextIsNeverComplete`).
- A query's folder that begins with a slash, or a backslash, holds no note for the bounded evaluator
  (`RespelledFolder`).
- Running out in a lookup leaves the bounded evaluator as an exception, while running out anywhere else is an answer
  (`Evaluate`).

## Model

| member | source | states |
|---|---|---|
| LinkRefinement.OnePassIsEager | app/services/_scoped_links.py:146-200 | For every text, the items of either dialect that one pass without splitting lines recognises are, in order and position, exactly those of that dialect's line-splitting parser: fences, code spans, skip cursors and the line-missing flag included |
| LinkRefinement.OnePassIsSortedEager | app/services/relationships.py:447-471 | Sorting the two eager parses together by position, as the eager derivation does, gives exactly the one pass over both dialects |
| LinkRefinement.ScanMarkdown | app/services/_scoped_links.py:191-200 | Within a line the skipping Markdown cursor emits the links of the line from that cursor on, whatever the wikilink cursor does |
| LinkRefinement.ScanWiki | app/services/_scoped_links.py:185-190 | Within a line the wikilink cursor and its missing-closer flag emit the line's wikilinks from that cursor on, whatever the Markdown cursor does |
| LinkRefinement.PassedCursors | app/services/_scoped_links.py:185-200 | A cursor that the position has already passed may hold any value: the scan cannot tell, so no cursor carries anything across a line |
| LinkRefinement.TextMatches | app/services/_scoped_links.py:153-184 | From every line start and in every fence state the unsplit scan agrees with the parse of the remaining split lines |
| LinkRefinement.TextAscends | app/services/_scoped_links.py:151-200 | The one pass yields strictly ascending positions within the text, at most one item per position |
| LinkRefinement.AscendingIsTheSort | app/services/relationships.py:471-471 | A strictly ascending listing is the only non-decreasing arrangement of its elements, so the sort has one outcome |
| LinkRefinement.MarkdownLineShift | app/services/markdown_links.py:63-70 | Parsing the content of a split line and adding its offset equals parsing it in place |
| LinkRefinement.FenceShift | app/services/markdown_links.py:48-61 | The fence test on a split line equals the test in place |
| EagerLinks.Parse | app/services/markdown_links.py:36-72 | The eager loop over split lines, with its fence variables and running offset, returns the declarative parse of the text in either dialect; which lines that parse reads for links is stated on the text in FencedCode |
| FencedCode.LinksStandOutsideCode | app/services/markdown_links.py:36-72 | A link is found, by the one pass and by either eager parse, exactly if it is a link of a line that neither stands in a fenced block nor opens one, where a line stands in a block if an earlier line, not itself in one, opened it and no line between closed it: at most three blanks, a run of the same marker no shorter, then only white space |
| FencedCode.OneBlock | app/services/markdown_links.py:48-61 | A line stands in at most one block |
| FencedCode.MarkedFence | app/services/markdown_links.py:10-10 | The fence pattern by the text: at most three blanks, a whole run of three or more backticks or tildes, and whether only white space follows |
| EagerLinks.ParseMarkdownLine | app/services/markdown_links.py:123-149 | The eager cursor loop over one line collects exactly the line's Markdown links in order, at their source offsets |
| EagerLinks.SkipCodeSpan | app/services/markdown_links.py:123-149 | A backtick run is skipped to the end of the code span it opens, or past the run alone if nothing closes it |
| EagerLinks.FindCodeSpanClose | app/services/markdown_links.py:151-163 | Searching for the marker text and rejecting longer runs finds the first run of exactly that length, or none |
| EagerLinks.ParseAt | app/services/markdown_links.py:165-211 | The link that opens at a bracket and the position where scanning resumes, in every success and failure case |
| EagerLinks.ParseDestination | app/services/markdown_links.py:180-211 | Angle and plain destinations with their closers, rejected destinations and resume positions |
| LinkGrammar.LinkByText | app/services/markdown_links.py:165-211 | A Markdown link is recognised at a bracket exactly when the text there reads as one: a label without brackets, a plain or angle-bracketed destination up to its first closer, naming a relative note path |
| LinkText.DestinationByText | app/services/markdown_links.py:213-230 | A destination is split at its first hash into a path that ends in .md and has no scheme, root or drive, and a fragment; nothing else is accepted |
| LinkText.LinkLaw | app/services/markdown_links.py:139-147 | Behind anything but an exclamation mark what reads as a link is one, and the scan goes on behind its closing parenthesis |
| LinkText.SpanLaws | app/services/markdown_links.py:130-137 | A run of backticks is skipped together with everything before the next whole run of the same length, which closes it; without one the run alone is |
| LinkText.PassedOver | app/services/markdown_links.py:139-141 | Any other character, and a bracket behind an exclamation mark, is passed over |
| LinkText.BareLabelLaws | app/services/markdown_links.py:167-177 | Where the scan goes on when a label is not followed by a destination: at a further bracket, behind a NUL or a closing bracket, and nowhere if the label never ends |
| LinkText.PlainDestinationLaws | app/services/markdown_links.py:192-203 | Where it goes on behind a plain destination that names no note, or nowhere if none ends |
| LinkText.AngleDestinationLaws | app/services/markdown_links.py:182-203 | Where it goes on behind an angle-bracketed one |
| EagerLinks.ParseWikiLine | app/services/wikilinks.py:214-231 | The eager wikilink loop over one line collects exactly its valid wikilinks, none from a body with a nested opener |
| LinkText.WikiByText | app/services/wikilinks.py:233-246 | A body is a wikilink exactly if it reads target, then perhaps a hash and a heading, then perhaps a pipe and an alias, each without the white space around it and none empty, with no bracket, NUL or second pipe |
| LinkText.NextWikilink | app/services/wikilinks.py:214-231 | What stands between the first opener and the first closer behind it is a wikilink exactly if it reads as one, and the search goes on behind both |
| LinkText.NoWikilinkLeft | app/services/wikilinks.py:218-224 | Without a further opener, or without a closer behind it, the rest of a line holds no wikilink |
| ScopedLinks.Cursor.At | app/services/_scoped_links.py:17-21 | Past the end nothing is charged; otherwise one probe is paid before the character is shown, or none is left and it is not shown |
| ScopedLinks.Cursor.Seek | app/services/_scoped_links.py:23-32 | Finds the first occurrence of the token before the line's end, never past it, for exactly the characters inspected |
| ScopedLinks.Cursor.Trim | app/services/_scoped_links.py:55-61 | Returns the stripped span for exactly the boundary characters inspected |
| ScopedLinks.Cursor.Wiki | app/services/_scoped_links.py:34-53 | Decides the wikilink at an opener as the eager body parser does, with the resume position and the missing-closer flag |
| ScopedLinks.Cursor.CheckDestination | app/services/_scoped_links.py:63-96 | The charged character-by-character destination check accepts exactly what the eager validation accepts, with the same destination and fragment |
| ScopedLinks.Cursor.Markdown | app/services/_scoped_links.py:98-120 | Decides the Markdown link at a bracket and the resume position exactly as the eager parser does |
| ScopedLinks.Cursor.FindLineEnd | app/services/_scoped_links.py:122-125 | The next line break or the end of the text |
| ScopedLinks.Cursor.CodeEnd | app/services/_scoped_links.py:127-143 | The charged scan for the closing run resumes where the eager skip does |
| ScopedLinks.Cursor.FenceLine | app/services/_scoped_links.py:158-177 | Decides the fence state after a fence line as the eager pattern does (a run no shorter closes only if nothing but white space follows it), and pays for trimming the tail exactly when the line may close the open fence |
| ScopedLinks.Recognizer.Next | app/services/_scoped_links.py:146-200 | Each resumption yields the first item still pending; what the credit covers beyond the cost of the text ahead never changes, a shortfall happens exactly when that is negative, and otherwise it ends only when nothing is pending or no occurrence may be admitted |
| ScopedLinks.Recognizer.WikiStage | app/services/_scoped_links.py:185-190 | The wikilink part of a position consumes exactly that position's wikilink from what is pending |
| ScopedLinks.Recognizer.MarkdownStage | app/services/_scoped_links.py:191-199 | The Markdown part of a position consumes exactly that position's Markdown link from what is pending |
| Relationships.Recognize | app/services/_scoped_links.py:146-200 | Draining the recogniser while an occurrence may be admitted gives all of the text's links exactly when the credit covers the cost of recognising the text, and leaves the difference |
| Relationships.DeriveBounded | app/services/relationships.py:200-230 | Under any credit the result is a prefix of the text's links numbered from 0, each occurrence with its link's target, fragment, label and origin and the resolver's answer for that target; it is called complete exactly when more occurrences may be admitted than there are links, every target can be resolved within the session's budget, and 16 probes per byte exceed the cost of the text; each occurrence is admitted once, and so is a link whose resolution ran out; a source is rejected exactly when already derived or not covered by charged bytes |
| Relationships.DeriveSource | app/services/relationships.py:213-230 | The derivation loop keeps prefix, fields, numbering and admissions at each of its exits, the recogniser's silent ends and an exhausted resolution included |
| Relationships.CompleteIsEager | app/services/relationships.py:471-495 | The occurrences of a complete bounded derivation are those made of both eager parses sorted by position |
| Relationships.DeriveEager | app/services/relationships.py:423-495 | The eager derivation, both dialects gathered with their own fields, resolved, sorted by position and numbered: heading and alias, or fragment and label, of every link stand in its occurrence with the resolver's answer, and every complete bounded derivation of the same text is this result |
| Relationships.Gather | app/services/relationships.py:447-469 | The links of one dialect, each with the resolver's answer, in the order of its parse |
| Relationships.SortByPosition | app/services/relationships.py:471-471 | The same entries in the order of their positions |
| Relationships.ClosedSpansAreCovered | app/services/relationships.py:200-230 | Where every code span attempt outside fences closes, 16 probes per byte always cover the text: only occurrences and resolutions can limit the derivation |
| Relationships.SomeTextIsNeverComplete | app/services/relationships.py:213-230 | On a family of texts without a single link the derivation is limited however many occurrences may be admitted |
| Relationships.QuadraticSuffices | app/services/_scoped_links.py:127-143 | No text of n characters costs more than 50 n (n + 1) |
| ScanBounds.RecognitionBound | app/services/_scoped_links.py:146-200 | Recognising a text costs at most 15 probes for every character and, for each backtick run outside fences that nothing closes, 3 for every character behind it on its line and 2 more |
| ScanBounds.ClosedSpansSuffice | app/services/_scoped_links.py:127-143 | Without such a run 16 probes per byte are more than enough |
| ScanBounds.RescansBound | app/services/_scoped_links.py:127-143 | Text without backticks is read once; what any text has read again is at most quadratic |
| ScanBounds.WikiStepBound | app/services/_scoped_links.py:185-190 | A wikilink attempt pays at most six probes for each character it puts behind the cursor, and one without a closer is made once per line |
| ScanBounds.MarkdownStepBound | app/services/_scoped_links.py:191-199 | A Markdown attempt pays at most five probes for each character it puts behind the cursor, a backtick run that nothing closes apart |
| ScanWitness.SixteenPerByteRunOut | app/services/_scoped_links.py:127-143 | Nine backtick runs of distinct lengths, none of which closes, before more than 440 letters: there is no link, and the text costs more than 16 probes per byte |
| ScopedBudget.Budget.constructor | app/services/scoped_budget.py:64-72 | A new request's books are empty and its plan's; which plans there are ForRequest says |
| ScopedBudget.Budget.ForRequest | app/services/scoped_budget.py:44-72 | No space, a space twice or a limit that raises a ceiling is refused; otherwise each limit replaces its ceiling and what remains to each space is its share: within the per-space ceiling, and the greatest that all spaces can have within the aggregate |
| ScopedBudget.ShareIsGreatest | app/services/scoped_budget.py:59-63 | A share is within the per-space ceiling, all shares together are within the aggregate, and no greater one is |
| ScopedBudget.Budget.Remaining | app/services/scoped_budget.py:74-78 | The minimum of the aggregate and the local headroom is always the space's own share less its own use and reservation, and never negative |
| ScopedBudget.Budget.Charge | app/services/scoped_budget.py:86-92 | Rejected when negative, exhausted exactly beyond what remains of the space's share, otherwise added to both tables; the books stay balanced |
| ScopedBudget.Budget.ReserveCleanup | app/services/scoped_budget.py:80-84 | Eight probes are set aside exactly when they remain |
| ScopedBudget.Budget.AdmitRead | app/services/scoped_budget.py:94-106 | Admitted exactly when the local guards admit: the global guard never refuses what they would allow |
| ScopedBudget.CleanupCredit.Probe | app/services/scoped_budget.py:117-124 | A reserved credit spends one of its probes without ever exhausting the budget |
| ScopedBudget.CleanupCredit.Finish | app/services/scoped_budget.py:126-129 | What a credit did not spend goes back to its space, once |
| ScopedBudget.RelationshipView.Source | app/services/scoped_budget.py:139-151 | A source is credited once, only against bytes already charged, with 16 probes per byte |
| ScopedBudget.RelationshipView.Probe | app/services/scoped_budget.py:161-172 | The batched loop spends exactly the count or nothing |
| ScopedBudget.RelationshipView.TryAdmit | app/services/scoped_budget.py:174-178 | One occurrence is charged exactly when parse and occurrence credit are left |
| ScopedBudget.RemainingIsLocal | app/services/scoped_budget.py:59-78 | Shares add up to at most each ceiling, so another space's activity never lowers what a space has left |
| ScopedBudget.GlobalReadGuardIsSlack | app/services/scoped_budget.py:94-106 | Admitted reads are candidate reads plus incoming reads and at most 20,016, and below it whenever a local guard would admit one more |
| ScopedBudget.CreditAlwaysSpends | app/services/scoped_budget.py:117-124 | Returning one reserved probe always leaves room to charge it |
| ScopedBudget.ApplyKeeps | app/services/scoped_budget.py:74-178 | Every operation keeps the books: shares, sums, reads, credits and parse bounds |
| ScopedBudget.EveryRunStaysInBounds | app/services/scoped_budget.py:44-178 | After any sequence of operations over any spaces: totals stay under their ceilings and each space under its own, allocations are the greatest shares, live credits sum to the reservation, and parse work spent plus credit left stays within 16 per credited byte, themselves within the bytes charged |
| ScopedBudget.Isolation | app/services/scoped_budget.py:74-92 | No operation of one space changes what another has left, of any resource |
| ScopedBudget.OpeningIsValid | app/services/scoped_budget.py:44-72 | Every acceptable plan opens with balanced books |
| Indexer.EveryInterleaving | app/services/indexer.py:16-285 | In every interleaving of callers, workers, callbacks, cancellations of queued futures and shutdown: at most one future is unfinished; before shutdown every accepted path no completed sync covered is pending or in the running pass; full-sync debt is on record; settled work left over has a recorded error |
| Indexer.StepKeeps | app/services/indexer.py:44-285 | Each lock-protected region keeps single flight, no lost path, kept debt, explained leftovers and a final shutdown |
| Indexer.ClosedForGood | app/services/indexer.py:258-285 | Once closed, no later step clears the cancel event, queues a path or submits work |
| Indexer.FailureKeepsWork | app/services/indexer.py:175-187 | A failed sync and its re-queue keep the debt and every path they worked on |
| Indexer.PassKinds | app/services/indexer.py:166-171 | In every interleaving: an indexer that can sync paths and was never started runs no full pass, has none requested and owes none; one that cannot runs no other |
| Indexer.PassBegins | app/services/indexer.py:152-172 | In every interleaving a pass begins exactly when there is work and no shutdown; it takes all pending paths; a full one is put on record, and one begins that is not full only if paths can be synced and no full pass is asked for or owed |
| Indexer.FailedPassIsFollowed | app/services/indexer.py:189-211 | In every interleaving, when a pass fails during which paths were enqueued, its completion submits the next one with those paths still pending |
| Indexer.BackgroundIndexer.Start | app/services/indexer.py:44-68 | Records the debt and submits unless closed or running, with the result reported |
| Indexer.BackgroundIndexer.EnqueuePaths | app/services/indexer.py:74-116 | Coalesces paths, asks for a follow-up while running, submits otherwise; the count reported is of paths newly pending |
| Indexer.BackgroundIndexer.SubmitLocked | app/services/indexer.py:131-150 | A refused submission records the error and drops a finished future; an accepted one becomes the future |
| Indexer.BackgroundIndexer.RunHead | app/services/indexer.py:152-172 | The worker takes all pending paths, turning into a full pass exactly when one is requested, owed or untargeted, and puts a full pass on record |
| Indexer.BackgroundIndexer.SettleFull | app/services/indexer.py:172-187 | A full sync that returned normally settles the debt |
| Indexer.BackgroundIndexer.RequeueFailed | app/services/indexer.py:152-187 | Captured paths become pending again unless closed |
| Indexer.BackgroundIndexer.RecordCompletion | app/services/indexer.py:189-211 | Only the current future's completion matters: an error is recorded, work left over or a requested follow-up is submitted |
| Indexer.BackgroundIndexer.WaitRegion | app/services/indexer.py:233-256 | Waiting goes on exactly while another future is current or left-over work was submitted |
| Indexer.BackgroundIndexer.ShutDownRegion | app/services/indexer.py:258-285 | The first shutdown closes, cancels and clears; later ones change nothing |
| Dispatcher.EveryInterleaving | app/services/filesystem_watcher.py:144-218 | In every interleaving of submits, clock ticks, worker turns and stops: an accepted path not dispatched since is queued or being handed over; without a stop it was quiet for a whole debounce interval; after a flushing end nothing accepted is undispatched |
| Dispatcher.NothingAcceptedAfterStop | app/services/filesystem_watcher.py:175-196 | After a stop no path is ever accepted again |
| Dispatcher.DebouncedPathQueue.Add | app/services/filesystem_watcher.py:120-126 | Every path's deadline becomes now plus the interval; the result tells whether any was new |
| Dispatcher.DebouncedPathQueue.NextDeadline | app/services/filesystem_watcher.py:128-130 | The least deadline, or none for an empty queue |
| Dispatcher.DebouncedPathQueue.PopReady | app/services/filesystem_watcher.py:132-136 | Removes and lists in order exactly the paths that are due |
| Dispatcher.DebouncedPathQueue.PopAll | app/services/filesystem_watcher.py:138-141 | Empties the queue, listing it in order |
| Dispatcher.DebouncedPathDispatcher.Start | app/services/filesystem_watcher.py:163-173 | Starts once and accepts from then on; a second start is refused |
| Dispatcher.DebouncedPathDispatcher.Submit | app/services/filesystem_watcher.py:175-183 | Accepted only between start and stop, reporting whether a path was new |
| Dispatcher.DebouncedPathDispatcher.Stop | app/services/filesystem_watcher.py:185-193 | Ends acceptance and sets whether to flush; before a start it does nothing |
| Dispatcher.DebouncedPathDispatcher.Turn | app/services/filesystem_watcher.py:198-218 | One turn of the worker: flush or drop on a stop, wait while nothing is due, otherwise take the due paths in order |
| EmbeddingResource.EveryInterleaving | app/services/semantic_resources.py:46-266 | In every interleaving: pins are counted and each pinned thread holds the current generation; a release runs alone with nothing pinned and no backend call; backend calls never overlap; an invalidation with nothing pinned is being released; an unfinished close is waiting for a pin or a release; closed means nothing pinned |
| EmbeddingResource.StepKeeps | app/services/semantic_resources.py:99-266 | Every region keeps pin count, single lease, single cleaner, no stranded invalidation and the close condition |
| EmbeddingResource.GenerationHeld | app/services/semantic_resources.py:147-171 | While anything stays pinned no step publishes a generation and no release is in progress |
| EmbeddingResource.AdmittedExactly | app/services/semantic_resources.py:99-126 | After any run a thread is admitted exactly if its check passes, it expects nothing or the current generation, and it is pinned already or the resource is open with no invalidation pending; it then holds the current generation |
| EmbeddingResource.GenerationCountsReleases | app/services/semantic_resources.py:147-171 | Over any run the generation counts the releases that ended well and the revision all that ended; nothing else moves them |
| EmbeddingResource.NoPinAfterClosing | app/services/semantic_resources.py:88-92 | Once closing, no thread is pinned anew, whatever happens |
| EmbeddingResource.CloserNeverStuck | app/services/semantic_resources.py:245-266 | A closer that wakes with nothing pinned and nothing being released returns, raises or takes the release upon itself |
| EmbeddingResource.SharedEmbeddingResource.Enter | app/services/semantic_resources.py:99-126 | One turn of admission: admitted exactly if the caller's check passes, it expects nothing or the generation it will hold, and it is nested or the resource is open with no invalidation pending, which makes it wait |
| EmbeddingResource.SharedEmbeddingResource.Leave | app/services/semantic_resources.py:127-137 | The outermost exit unpins and reserves the cleanup exactly when it must |
| EmbeddingResource.SharedEmbeddingResource.ReserveCleanup | app/services/semantic_resources.py:139-145 | Reserved exactly with no pins, no cleaner and an invalidation pending |
| EmbeddingResource.SharedEmbeddingResource.Lease | app/services/semantic_resources.py:208-217 | The backend is leased exactly when idle, open and not cancelled |
| EmbeddingResource.SharedEmbeddingResource.CallFails | app/services/semantic_resources.py:218-228 | A failed call asks for invalidation while its thread is still pinned |
| EmbeddingResource.SharedEmbeddingResource.Invalidate | app/services/semantic_resources.py:173-187 | Inside a pipeline the release is deferred to its exit, outside it is reserved or joined |
| EmbeddingResource.SharedEmbeddingResource.CloseIteration | app/services/semantic_resources.py:256-266 | One turn of close's loop: done, failed, reserve, or wait |
| EmbeddingResource.SharedEmbeddingResource.Close | app/services/semantic_resources.py:245-266 | Closing forbids new pins at once and demands a release unless already closed |
| EmbeddingResource.SharedEmbeddingResource.FinishRelease | app/services/semantic_resources.py:158-169 | A completed release publishes the next generation, a failed one records the failure; either ends the invalidation |
| ResourceCleanup.AtMostOneDispatch | app/core/resource_cleanup.py:63-106 | For any number of attempts and any behaviour of the callbacks the close is dispatched at most once, and never for a history that is released, ambiguous or in progress |
| ResourceCleanup.DoubtNeedsDispatch | app/core/resource_cleanup.py:63-106 | As long as no close was dispatched a history can be tried again or is released, and once one was, it is released or in doubt for good |
| ResourceCleanup.ReleasedOnlyOnEvidence | app/core/resource_cleanup.py:63-106 | A history becomes released only on a native return or an observed absence, and stays released |
| ResourceCleanup.RaisedUnlessReleased | app/core/resource_cleanup.py:69-106 | A run returns normally only with a verified release |
| ResourceCleanup.RanIsAttempt | app/core/resource_cleanup.py:69-106 | A run on the descriptor or the guard is one attempt of its history: same conclusion, same exception, and a close among its system calls exactly when the attempt dispatches one |
| ResourceCleanup.World.Close | app/core/resource_cleanup.py:243-272 | May raise before or after taking effect; demands of its caller that the number still names an entry it made and never closed before; only a native return says the entry is gone |
| ResourceCleanup.World.Dup | app/core/resource_cleanup.py:129-192 | A number, a certified failure, or an interruption that may leak an entry nobody owns |
| ResourceCleanup.DescriptorState.Absent | app/core/resource_cleanup.py:275-361 | An observed absence, by number or by identity, means that the entry is gone even though numbers are recycled |
| ResourceCleanup.DescriptorState.Prepare | app/core/resource_cleanup.py:432-450 | Identifies the descriptor, takes the guard with its state ambiguous meanwhile, then lets the caller flush; no close is dispatched |
| ResourceCleanup.DescriptorState.Dispatch | app/core/resource_cleanup.py:87-91 | The state leaves its owned form before the close goes out, and the close hits the entry the number was handed out for |
| ResourceCleanup.DescriptorState.Run | app/core/resource_cleanup.py:69-106 | The whole attempt over the real table: the system calls it makes and what it concludes are the specified ones, at most one close, of its own entry |
| ResourceCleanup.DescriptorState.ReleaseGuard | app/core/resource_cleanup.py:383-396 | Only after the descriptor is verified released; flags follow the evidence |
| ResourceCleanup.DescriptorState.Dispose | app/core/resource_cleanup.py:402-470 | Every close a disposal dispatches hits its own descriptor or guard, never twice, the guard's only after the descriptor's verified release; a normal return means that both entries are gone |
| ResourceCleanup.DescriptorState.TerminalMeansGone | app/core/resource_cleanup.py:308-318 | Fields that report a complete cleanup mean that neither entry is in the table |
| ResourceCleanup.SmoothDisposalCompletes | app/core/resource_cleanup.py:402-470 | When nothing goes wrong one disposal completes with exactly one close each |
| ResourceCleanup.DisposedIsComplete | app/core/resource_cleanup.py:402-470 | A disposal that does not raise has released descriptor and guard |
| ResourceCleanup.DoubtfulForGood | app/core/resource_cleanup.py:402-470 | From a guard whose dup was interrupted on, whatever later disposals see: each raises, none dispatches a close, none completes |
| ResourceCleanup.DoubtComesFromDup | app/core/resource_cleanup.py:432-450 | A first attempt leaves the guard in doubt exactly when it finds the descriptor present, identifies it and its dup is interrupted |
| ResourceCleanup.ClosesUnlessDoubtful | app/core/resource_cleanup.py:402-470 | While no close was dispatched, some run of disposals dispatches one exactly when the guard is not in doubt |
| ResourceCleanup.LeaksExactly | app/core/resource_cleanup.py:402-470 | A first disposal that leaves the descriptor unclosed has leaked it for good exactly when its dup was interrupted |
| SemanticSync.Synchronize | app/services/semantic_sync.py:165-296 | Whatever positive budgets its turns get, a synchronisation over an unchanging vault ends: by raising exactly when it is targeted and a changed target cannot be read, and otherwise having handed each wanted file to indexing exactly once, settled every wanted path's row and, when full, removed exactly the other rows; the counts are exact |
| SemanticSync.TurnsDoNotMatter | app/services/semantic_sync.py:165-296 | Rows and counts at the end do not depend on how turns or batches were split |
| SemanticSync.FullRunMirrorsTheVault | app/services/semantic_sync.py:241-296 | With readable notes and an honest change detector a full run leaves exactly one row per eligible note, the file's own, re-indexing exactly those whose text was not stored |
| SemanticSync.TargetedRunMirrorsTheTargets | app/services/semantic_sync.py:241-280 | After a targeted run that did not raise: no target missing from the vault has a row and exactly those that had one are counted as removed; every other target has the file's own time, size and text; every other row is as before; the counts of indexed and unchanged targets are exact |
| SemanticSync.FullRunRows | app/services/semantic_sync.py:241-296 | After a full run, whatever can be read: no other path than an eligible note has a row, exactly the others are counted as removed, a note has the file's row unless its time and size were stored already, and one that cannot be read keeps what it had |
| SemanticSync.Step | app/services/semantic_sync.py:165-296 | Every turn keeps the phase's invariant and comes strictly closer to the end, or raises and changes nothing |
| SemanticSync.SyncWork.Discover | app/services/semantic_sync.py:165-224 | A turn of any positive budget over the disk frontier: everything consumed is remembered, nothing else is, and progress is made |
| SemanticSync.ScanDone | app/services/semantic_sync.py:171-178 | An empty frontier means that every directory was scanned and exactly the eligible notes were found |
| SemanticSync.TakeKeeps | app/services/semantic_sync.py:194-224 | Consuming one entry remembers that entry and no other; a directory is met once |
| SemanticSync.SyncWork.AdmitTargets | app/services/semantic_sync.py:226-239 | A turn of targeted admission, each path keeping the flag of its first admission |
| SemanticSync.SyncWork.Process | app/services/semantic_sync.py:241-280 | The next keyset page in one transaction: rows still missing are dropped, the others indexed, counts and cursor advanced; if a file of a targeted run cannot be read, all of it is rolled back |
| SemanticSync.SyncWork.DropMissing | app/services/semantic_sync.py:256-269 | A row for a path that is missing now is removed and counted as removed, any other path and count left as it was |
| SemanticSync.SyncWork.IndexFile | app/services/semantic_search.py:1911-2003 | Unchanged by time and size, refreshed when the text is the same, re-indexed otherwise; one that cannot be read is skipped by a full run and ends a targeted one |
| SemanticSync.SyncWork.Reconcile | app/services/semantic_sync.py:282-296 | The next page of stored rows loses exactly those that were not discovered |
| SemanticSync.StalePage | app/services/semantic_sync.py:282-296 | Deleting rows behind the cursor hides nothing from it: each page, less what was discovered, is the next part of what was stale at the start |
| SemanticSync.PageTakes | app/services/semantic_sync.py:241-248 | Moving a keyset cursor to a page's last key passes exactly the page's paths |
| PathOrder.PageAdvances | app/services/semantic_sync.py:242-245 | A page is the smallest keys beyond the cursor, and the cursor's move leaves exactly the rest |
| PathOrder.AscendingIsSorted | app/services/_scoped_vault.py:21-22 | A set has one ascending listing under (folded path, path) |
| PathOrder.SortKeys | app/services/_scoped_vault.py:365-366 | Sorting returns that listing |
| ScopedVault.Discovery.Retain | app/services/_scoped_vault.py:262-290 | Keeps exactly the quota smallest acceptable paths offered so far under (folded path, path), charges for exactly as many, reports the limit exactly when something acceptable or overlong was left out, and every spelling names a kept path |
| ScopedVault.Discovery.Admit | app/services/_scoped_vault.py:271-286 | A new path is kept if there is room or in place of the largest, whose spellings go with it |
| ScopedVault.Discovery.ForgetSpellings | app/services/_scoped_vault.py:278-280 | Exactly the evicted path's spellings are dropped |
| ScopedVault.KeptIsUnique | app/services/_scoped_vault.py:255-290 | Only one set can be kept, so the order of enumeration cannot matter |
| ScopedVault.KeptIsTheFront | app/services/_scoped_vault.py:365-366 | The kept paths are the front of the sorted listing of everything offered |
| ScopedVault.KeptByText | app/services/_scoped_vault.py:21-22 | Kept paths are ordered by their folded texts first and by themselves only where these are equal, and each comes before each path left out |
| PathOrder.LessByText | app/services/_scoped_vault.py:21-22 | One text comes before another exactly if the other goes on behind all of it, or has the larger character where they first differ |
| ScopedVault.OutStaysOut | app/services/_scoped_vault.py:271-283 | What was left out or evicted never returns, however much more is offered |
| ScopedVault.Resolve | app/services/_scoped_vault.py:180-253 | The loop over components ends on every tree of symbolic links and every argument and returns the specified resolution: link texts with their backslashes, absolute ones cut at the vault's root, root parts looked up at the root of the file system, 40 hops, and the depth of what is pinned |
| ScopedVault.LooksOutside | app/services/_scoped_vault.py:180-245 | The resolver looks up the root of the file system exactly when the argument or the text of a followed link begins, as it is split, with a slash |
| ScopedVault.TreeLooksOutside | app/services/_scoped_vault.py:180-245 | Some argument without a leading slash makes it do so exactly when the tree holds such a link below its directories |
| ScopedVault.RootedIsBackslash | app/services/_scoped_vault.py:235-242 | Such a text is one that begins with a backslash without being absolute, or an absolute one that goes on with a backslash below the vault's root |
| ScopedVault.ResolvedIsCanonical | app/services/_scoped_vault.py:180-253 | Unless it looks outside, whatever resolves is inside the root, has no dot, double-dot or symbolic-link component, and is what the tree holds there |
| ScopedVault.ResolvedIsFound | app/services/_scoped_vault.py:180-253 | In every case what resolves is the canonical entry its path names, or the root of the file system under a path that ends with a slash |
| ScopedVault.CanonicalExactly | app/services/_scoped_vault.py:246-253 | In every case a resolved path is canonical, and its entry was found, exactly when splitting and joining gives it back and it does not begin with a slash |
| ScopedVault.ResolutionIsIdempotent | app/services/_scoped_vault.py:180-253 | On an unchanging tree a resolved path resolves to itself exactly when splitting and joining gives it back |
| ScopedVault.CleanResolutionIsIdempotent | app/services/_scoped_vault.py:180-253 | It does whenever the resolver did not look outside |
| ScopedVault.BackslashLeavesTheRoot | app/services/_scoped_vault.py:235-245 | In any directory a link whose text splits into a root alone resolves to the root of the file system |
| ScopedVault.BackslashMovesAgain | app/services/_scoped_vault.py:198-253 | Below the top of the vault the path this gives resolves to the directory the next time |
| ScopedVault.BackslashAtTheTop | app/services/_scoped_vault.py:235-253 | A link that is a lone backslash at the top of the vault resolves to the root of the file system |
| ScopedVault.BackslashInDirectory | app/services/_scoped_vault.py:235-253 | The same link in d resolves to d//, and that to d |
| ScopedVault.SlashedArgument | app/services/_scoped_vault.py:182-195 | A double dot after a leading slash takes the slash off again: the rest of the argument resolves as if it stood alone |
| ScopedVault.SlashedArgumentFails | app/services/_scoped_vault.py:182-201 | Otherwise a leading slash resolves to the root of the file system, and nothing is found below it |
| ScopedVault.FileAndBack | app/services/_scoped_vault.py:190-195 | A path through a regular file and back resolves to the file's directory, in every directory of every tree |
| PurePath.SplitOfJoined | app/services/_scoped_vault.py:182-198 | Splitting joined components gives back the names, whatever roots stand among them behind the first |
| ScopedVault.WalkInParts | app/services/_scoped_vault.py:184-243 | Walking a path in two parts is walking the first and going on from where it led |
| ScopedVault.LinkIsItsTarget | app/services/_scoped_vault.py:218-244 | Putting what a link's text splits into in front of what is left means resolving it from where it starts and going on from there |
| ScopedVault.SelfLinkIsUnsafe | app/services/_scoped_vault.py:224-226 | A link whose text splits into its own name is refused as unsafe, however few hops are left |
| VaultLaws.NothingAbove | app/services/_scoped_vault.py:190-195 | A double dot at the vault's root is refused as unsafe |
| VaultLaws.NotFound | app/services/_scoped_vault.py:198-241 | In any directory a name nothing has is unavailable and an absolute link that does not lead below the vault's root is unsafe, whatever follows |
| VaultLaws.NothingBelow | app/services/_scoped_vault.py:198-202 | Nothing is found below what is no directory, and below 64 names the resolver runs out |
| VaultLaws.LinkFollowed | app/services/_scoped_vault.py:218-244 | A relative link is walked on from its own directory, an absolute one from the vault's root, once the root's own parts are taken off |
| KnowledgeQuery.Evaluate | app/services/knowledge_query.py:158-282 | Without running out the answer is the declarative filter in snapshot order; the exhaustion escapes exactly when a lookup of a requested path or a predicate's other end runs out, and which lookups are made is exact; running out later gives nothing if there are predicates and otherwise the filter of an initial segment; no note is read or derived twice, and the count is of notes read |
| KnowledgeQuery.EvaluateTargets | app/services/knowledge_query.py:243-282 | The same for resolved scope and targets |
| KnowledgeQuery.Query | app/services/knowledge_query.py:284-391 | On a fault-free snapshot the unbudgeted query finds exactly what the budgeted evaluator answers |
| KnowledgeQuery.FilterIsExact | app/services/knowledge_query.py:251-276 | The filter keeps exactly the selected paths, each once, in snapshot order |
| KnowledgeQuery.AnswerByValues | app/services/knowledge_query.py:200-276 | A note is in the answer exactly if it is in the snapshot, in scope and readable, holds the text, every tag and every metadata value, its links derive where a predicate looks at them, and for every relationship some link of an allowed origin joins the two; the answer keeps the snapshot's order |
| KnowledgeQuery.MetadataByValues | app/services/knowledge_query.py:616-636 | Each metadata predicate by the stored value: equality and membership exact, inequality only between values of one kind |
| KnowledgeQuery.ContainsByText | app/services/knowledge_query.py:219-223 | The literal is held exactly if the note is something, the literal, and something |
| KnowledgeQuery.BelowByText | app/services/knowledge_query.py:592-593 | Of tidily written paths one is below the other exactly if it begins with it and a slash |
| KnowledgeQuery.RespelledFolder | app/services/knowledge_query.py:202-204 | Backslashes, doubled slashes, a dot between slashes and a slash at the end change nothing about a relative folder; the empty folder holds every named path and a rooted one none |
| KnowledgeQuery.Evaluation.Inspect | app/services/knowledge_query.py:206-241 | Reads a note at most once, and what is remembered about it is true |
| KnowledgeQuery.Evaluation.InspectIncoming | app/services/knowledge_query.py:245-250 | Every incoming predicate's target is inspected before any candidate |
| KnowledgeQuery.Evaluation.MatchesRelationships | app/services/knowledge_query.py:263-274 | The memoised edges decide every predicate as the snapshot's links do; the missing-derivation assertion cannot fail |
| KnowledgeQuery.Evaluation.Scan | app/services/knowledge_query.py:251-281 | Running out at any candidate leaves the filter of the candidates before it |
| KnowledgeQuery.SelectPaths | app/services/knowledge_query.py:175-188 | The selected paths are those the requested spellings resolve to, unless one is unsafe or a lookup runs out; looked up are the spellings up to the first that ends it |
| KnowledgeQuery.ResolveTargets | app/services/knowledge_query.py:189-194 | The first target that is unsafe or unavailable decides, unless a lookup runs out; looked up are the targets up to the first that ends it |
| KnowledgeQuery.Querying.Admits | app/services/knowledge_query.py:362-391 | The query's own check of one candidate against lists of links |
| Promotion.MarkersAreUnforgeable | app/services/promotion.py:93-95 | Whatever the approved content and metadata: the block holds its opening marker once, its closing marker once and no marker of the other version |
| Promotion.BlockMarkers | app/services/promotion.py:305-308 | A marker of the identifier occurs in the block only at the two places meant for it |
| Promotion.Decide | app/services/promotion.py:229-311 | An append decision is made exactly when identifier, content, markers and size are acceptable: a version 4 identifier, 1 to 65,536 bytes of content that is not blank and has no carriage return, no Unicode line break and no marker of either version, and a block within the limit |
| Promotion.EscapeAngles | app/services/promotion.py:85-90 | The escaped manifest contains no angle bracket; that nothing else changes EscapeUndone says |
| Promotion.EscapeUndone | app/services/promotion.py:85-90 | Reading the escapes of what json.dumps printed and then escaped gives back what it printed |
| Promotion.BlockReadsBack | app/services/promotion.py:303-308 | Digest, manifest and content are read back from the block, the manifest up to the first fence behind a line feed, whatever manifest and content hold |
| Promotion.Fence | app/services/promotion.py:303-304 | The loop finds the longest backtick run and makes a longer fence |
| Promotion.FenceIsUnmatched | app/services/promotion.py:303-304 | The fence occurs nowhere in the manifest it encloses |
| Promotion.AppendProves | app/services/vault.py:1727-1736 | A note without the markers, with the block appended, passes the proof by count: one opening, one closing, one block |
| Promotion.ProvedExactly | app/services/vault.py:1727-1736 | The proof by counting holds exactly if the note somewhere holds the block, whole, and neither of its markers anywhere else |
| Promotion.Note.AppendOnce | app/services/vault.py:1642-1725 | Appends only to the reviewed text without any marker, within the limit in encoded bytes; success means that the block is there once; a note already holding it is recognised and left alone; a torn write never leaves two openings; an oversized block is refused before anything else |
| Promotion.Retry | app/services/vault.py:1642-1736 | However often a decision is retried and whatever each attempt met, the opening marker never occurs twice, and success once reported stays true |
| Frontmatter.EmitIsOneLine | app/services/frontmatter.py:346-373 | Whatever is emitted is one line by every rule of line breaking |
| Frontmatter.QuotedReadsBack | app/services/frontmatter.py:331-339 | A reader of quoted strings gets back every string the emitter quotes and stops at its closing quote |
| Frontmatter.SerializedShape | app/services/frontmatter.py:375-384 | A serialised envelope is two fence lines around one line that opens with a brace, within the byte limit |
| FlowReader.SerializedReadsBack | app/services/frontmatter.py:346-384 | A reader of JSON flow collections gets the metadata back from the line of every serialised envelope: every key in its place with its own value, nothing besides |
| FlowReader.EmittedReads | app/services/frontmatter.py:346-373 | It reads every emitted value back and stops where it ends, whatever delimiter follows |
| FrontmatterLimits.Accepted | app/services/frontmatter.py:346-373 | A value is emitted exactly if its scalars and keys are small enough and no mapping has a key twice, its containers nest no deeper than 8, and they hold at most 1,024 items together, counted over the values and not by the emitter's counters |
| FrontmatterLimits.SerializedExactly | app/services/frontmatter.py:375-384 | Metadata is serialised exactly within these limits, if the envelope is at most 65,536 bytes and the parser accepts it |
| Frontmatter.BoundedUtf8Size | app/services/frontmatter.py:430-445 | The saturating loop returns the encoded size, or one more than the limit beyond it |
| Frontmatter.ExtractEnvelope | app/services/frontmatter.py:387-417 | The scanner with saturating counts decides payload, offset and too-large exactly as the encoded size of the envelope would |
| Frontmatter.LineBounds | app/services/frontmatter.py:420-427 | A line ends at the first line feed at or after its start, a carriage return right before it left out, or at the end of the text when there is none |
| Capture.BodyOfComposed | app/services/capture.py:94-107 | For all metadata the serialiser accepts and every content, the body promotion cuts out of the composed capture is the content |
| Capture.EnvelopeOfComposed | app/services/frontmatter.py:387-417 | The envelope scanner cuts a composed capture at that same closer and never finds it too large |
| Capture.Body | app/services/promotion.py:108-122 | The loop over kept line ends returns what follows the first closing line, less one break, or refuses |
| CaptureCuts.ReadersAgreeExactly | app/services/promotion.py:108-122 | Promotion's body and the envelope scanner cut a text at the same place, or neither cuts it, exactly when before every closer that only one of them accepts there is one that both accept; behind a byte order mark exactly when nothing closes |
| CaptureCuts.CutsAgreeExactly | app/services/frontmatter.py:387-417 | The same behind any opening line: only three dashes after another break than a line feed and three dots can part them |
| CaptureCuts.BodyFinds | app/services/promotion.py:108-122 | The first closer in the sense of splitlines ends the body, and none is missed |
| CaptureCuts.ScannerFinds | app/services/frontmatter.py:387-417 | The first closing line in the sense of line feeds, dashes or dots, ends the envelope, and none is missed |
| CaptureCuts.AgreeingBody | app/services/promotion.py:108-122 | Where they agree the body is what follows the envelope, less one line break |
| CaptureCuts.FormFeedCuts | app/services/promotion.py:108-122 | Three dashes after a form feed close the body only |
| CaptureCuts.DotsCut | app/services/frontmatter.py:387-417 | Three dots close the envelope only |
| ResourceUri.PrintedParses | app/space_read_transport.py:260-278 | A printed URI reads back as its identity exactly when the path is not empty, at most 1024 bytes and free of percent-escapes; the three refusals are told apart |
| ResourceUri.ParsedPrints | app/space_read_transport.py:265-278 | Corollary of the parser's last check: every accepted URI prints back to itself from a valid identity, the other half of the bijection |
| ResourceUri.PrintIsInjective | app/space_read_transport.py:260-262 | No two identities share a URI |
| ResourceUri.QuoteDecodes | app/space_read_transport.py:262-273 | Percent-encoding followed by decoding and strict UTF-8 gives back every path |
| ResourceUri.QuotedByCharacter | app/space_read_transport.py:262-262 | A path is quoted character by character: letters, digits and four marks stand for themselves, every other character for the escapes of its bytes, in capitals |
| ResourceUri.EncodeDecodes | app/space_read_transport.py:273-273 | Strict UTF-8 decoding undoes encoding |

## Left out

- Cancellation tokens: a cancelled request raises and returns nothing, so no result is modelled for it.
- The Windows branches of descriptor disposal and path pinning, native handles, foreign calls and `ctypes`.
- `OwnedResources`: the lease registry around disposals is not modelled, only the disposals themselves.
- Other disposals of the same process are part of the interference a disposal faces; each is proved to close only its own entries.
- An exception between two regions of a protocol (a keyboard interrupt, a failing allocation) is not a step; executor and thread start failures are the refusals modelled by `accept`.
- Indexer.EveryInterleaving: path normalisation before queueing is left out, because it is a pure string check per path.
- Dispatcher.EveryInterleaving: the five-second join of a stop is left out, and the callback that hands paths over never raises because the watcher's callback swallows its failures.
- EmbeddingResource.EveryInterleaving: the backend itself is opaque; a call or a release succeeds or fails freely.
- SemanticSync.Synchronize: whether a directory entry is a subdirectory, an eligible note or neither is given with the vault; the vault does not change, and no step fails but the read of a note; identity rechecks, embeddings, SQLite and index state records are left out. The frontier is taken in any order, of which the smallest path first is one.
- SemanticSync.SyncWork.DropMissing: a target flagged missing that reappears is indexed under its own spelling, not under what a link would resolve it to.
- ScopedVault.Discovery.Retain: a path that cannot be encoded is left out, because Dafny's characters exclude lone surrogates; the directory walk that makes the offers is left out, and with it the depth, entry and alias budgets. `heapq` is modelled by a list kept in order.
- ScopedVault.Resolve: the session is entered, so the root's descriptor is open; the check of observed alias identities concerns changing trees and is left out, and so is what each lookup is charged; a path with a NUL character raises and is left out. Windows paths are left out.
- KnowledgeQuery.Evaluate: whether a lookup, a read or a derivation runs out is free; frontmatter parsing and link derivation are functions of the note; ranking and the semantic part are left out. A path listed as unavailable is skipped, a target listed so raises.
- Relationships.DeriveBounded: how a written target resolves and how many resolutions the session's budget covers are parameters; a resolution that raises anything but exhaustion is left out.
- Relationships.DeriveEager: the source path comes with its slashes normalised, and how a written target resolves is a parameter, the same for both derivations.
- FrontmatterLimits.Accepted: which of several exceeded limits a rejection names is left to the emitter's own definition.
- Promotion.Note.AppendOnce: hashes are compared as the texts they stand for, other writers are kept out by the writer lock, a torn write ends between two characters, and the check that a destination is not itself a capture is left out.
- Promotion.Decide: the checks of the request's other fields and the making of the digest and manifest are left out.
- Frontmatter.SerializedShape: the owning parser's verdict on the emitted text is a parameter, because PyYAML is not part of this model; numbers are carried as the text Python prints for them.
- Building portable values from YAML events, the Core scalar rules and the chunked decimal reader: they only make sense behind PyYAML's event stream.
- Capture.BodyOfComposed: which metadata keys a capture may carry is left out; the claim holds for all metadata.
- HTTP, MCP and command-line adapters, logging, rate limits, space configuration, hygiene findings and federation merges.
