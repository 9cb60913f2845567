# Verified model of the storage fence, rich text, repair and lifecycle logic

This project models, in Dafny 4.11, the parts of the server whose correctness depends on more than one
function: a lock protocol that spans processes, a rich-text compiler with byte offsets, a repair procedure
written as SQL upserts, keyset pagination over a changing table, and the small state machines around
background work, accounting and shutdown. `dafny verify dfyconfig.toml` checks all of it.

## How the model is built

**Storage fence** (`StorageFence*.dfy`). Any number of processes and calls, each call with a program counter
between two awaits, over one PostgreSQL session advisory lock (PostgreSQL documentation, section 13.3.5) with
shared holders, one exclusive holder and a first-come queue. Steps are the uninterrupted stretches of the
code and the actions of the server and the network; sessions may end at any step. Assumed: a query on an
ended session fails, an ended session drops its locks and never comes back, statements of one connection run
in order, an unlock statement fails only on an ended session, and each process has one application object.
`StorageFenceSafety` proves what holds in every reachable state, `StorageFenceProgress` that the fence alone
cannot deadlock and that bounded work finishes every call, `StorageFenceHistory` that every outcome of a call
and every fate of a connection has exactly its own events behind it, and `StorageFenceRuntime` writes the code's
own assignments as methods of an object and ties each to its step.

**Refusing locks** (`StorageTryLocks*.dfy`). The control, task and worker locks over
`pg_try_advisory_lock`, with the SHA-256 prefix as an arbitrary function, so that collisions are possible;
`StorageTryLocksHistory` reads outcomes and connections off the history of a run.

**Rich text** (`JsStrings`, `RichText*`, `AtProto*`, `Farcaster*`, `Html`, `HtmlRichText`, `NormalizeHtml`,
`SafeHtml`, `HtmlMeaning`). JavaScript strings are sequences of UTF-16 code units (RFC 2781, section 2); byte
lengths are those of UTF-8 (RFC 3629, section 3), with 3 bytes for a lone surrogate. HTML is a tree, and the parser
and the serializer are the identity on it, with one exception: `NormalizeHtml` models how the XML-mode serialization in
`normalizeHtml` is read again by an HTML parser, which leaves a self-closed quote, list or paragraph open
(HTML Standard, section 13.2.6.4.7), and how break tags are rewritten in attribute values. `RichTextMarks`,
`AtProtoFacets`, `FarcasterMarks` and `HtmlMeaning` say what each mark, tag and attribute means, with the names,
schemes and limits written out.

**Repair** (`Tables`, `StorageRepair*`). Tables as maps over their unique keys, nullable columns as options,
`DISTINCT ON` as the first row of each key, `INSERT ... ON CONFLICT DO UPDATE` row by row. `StorageRepairRows` gives
every repaired row and every number of the report over the contents themselves.

**Pagination** (`Keyset`), **upserts** (`Upserts`), **workers** (`Workers*`, `Cron`), **profiler accounting**
(`Accounting`) and **shutdown** (`Shutdown`) are machines over event sequences of any length.

## What turned out to be conditional

- A fence context counts its users, a control context does not: a nested control callback that its outer
  callback does not await outlives the lock (`StorageTryLocks.NestedCanOutliveTheLock`). The outer session holds
  the nested call's lock alone exactly while its connection lives and the outer call has not sent its unlock
  (`StorageTryLocks.NestedIsCoveredByOuter`); a caller that awaits its nested calls is covered for as long as the
  session lives (`StorageTryLocks.AwaitedNestedIsCovered`).
- A `withStorageTaskLock` call whose session has ended when it unlocks never gives its connection back
  (`StorageTryLocks.TaskUnlockLeaks`); it is the only leak (`StorageTryLocks.ConnectionsAreConserved`).
- Through safe HTML a document comes back exactly when no line break stands at its ends, every empty quote and
  empty list is its last block, no empty paragraph stands before a line break, and no href or title spells a
  break tag in another way than `<br/>` (`SafeHtml.SafeHtmlRoundTrip`, `SafeHtml.EmptyQuoteSwallows`).
- Normalization keeps an empty `href` on a mention or hashtag, and exactly then yields an invalid mark
  (`RichText.NormalMarkIsValidIff`).
- `targetType` is declared half as wide as the `previewMimeType` copied into it, so the repair ends with a clean
  report exactly when every copied type fits (`StorageRepair.RepairIsSound`, `StorageRepair.Database.Run`).
- Keyset traversal of rows with cursor values lists every row exactly when each page is sorted the way its cursor
  moves (`Keyset.ListsEverythingIffMatching`): before a cursor, unless the first page ascends or `orderDir` reads
  ASC; after one, only with an ascending first page and an `orderDir` that is given and does not read DESC
  (`Keyset.ListsEverythingIff`). Null cursor values restart such a traversal after its first page exactly when,
  sorted first, they fill that page, or, sorted last, the other rows do not (`Keyset.RestartsIff`); if the table
  stays the same it then never ends, and a traversal that ends misses rows exactly when some value is null, nulls
  sort last and the table fills a page (`Keyset.ConstantTableIff`).
- Flag updates write only what differs from the row they read. Deliveries of two data over the same fields always leave
  one of the two exactly when they differ in at most one field (`Upserts.OneOfTheTwoIff`).
- After a stop a callback begins exactly when its run was queued at the stop (`Workers.BeginsAfterStopIff`), and a
  group stop that rejects may leave a member running (`Workers.RejectedStopMayBeBusy`).
- The stop order is a permutation of the configuration exactly when no ingress module is configured twice
  (`Shutdown.StopOrderIsPermutationIff`).

## Model

| member | source | states |
|---|---|---|
| StorageFenceSafety.StepKeepsInv | app/storageLifecycle.ts:31-122 | whatever step is taken by the code, the server or the network, every call, context, session and the lock table stay consistent with each other |
| StorageFenceSafety.RunKeepsInv | app/storageLifecycle.ts:31-122 | that consistency, and at most ten pooled clients per process, hold in every reachable state of any number of processes and calls |
| StorageFenceSafety.StepKeepsPool | app/storageLifecycle.ts:17-29 | idle and checked-out connections of one process together never exceed the pool's maximum |
| StorageFenceSafety.ExclusiveFenceIsAlone | app/storageLifecycle.ts:98-122 | two granted fence contexts with living sessions that have not unlocked are both shared |
| StorageFenceSafety.ExclusiveCallbackIsAlone | app/storageLifecycle.ts:33-43 | while a callback that itself asked for the exclusive fence, or one inside an exclusive context, runs on a living session, every other running callback is in that same context or has lost its session |
| StorageFenceSafety.AssertHeldMeansHeldThroughout | app/storageLifecycle.ts:72-82 | when a probe of assertHeld answers, the session held the lock in every state since the grant, and nobody held it in a conflicting mode |
| StorageFenceSafety.LostLockStaysLost | app/storageLifecycle.ts:66-97 | a granted context that no longer holds its lock never holds it again, and no probe of it answers |
| StorageFenceSafety.UsersCountCallbacks | app/storageLifecycle.ts:32-43 | the user count is the number of callbacks entered and not yet left, forked ones included, and the context is active exactly while one is running |
| StorageFenceSafety.LateCallAcquiresAfresh | app/storageLifecycle.ts:32-33 | a call made from a closed context never joins it; if it enters, it owns a new context |
| StorageFenceSafety.ReleasedExactlyOnce | app/storageLifecycle.ts:83-114 | each context closes once and gives its connection back once, at the last user's leaving or at a failed lock; the unlock runs at most once, and exactly once unless the connection was reported broken |
| StorageFenceSafety.IdleCarriesNoLock | app/storageLifecycle.ts:83-114 | a connection idle in the pool holds no advisory lock and has no pending request |
| StorageFenceSafety.RunIsMonotone | app/storageLifecycle.ts:63-97 | over a run contexts are never reopened and never change session, owner or mode, ended sessions stay ended and destroyed connections destroyed |
| StorageFenceHistory.EntersIff | app/storageLifecycle.ts:32-50 | a call made in an open context is refused exactly when it asks for the exclusive fence inside a shared one, and otherwise runs in that very context in the next state; every other call asks the pool |
| StorageFenceHistory.BeganWith | app/storageLifecycle.ts:31-31 | every call of a run was begun by one step, with the mode, options and context it carries ever after |
| StorageFenceHistory.EndedIff | app/storageLifecycle.ts:34-114 | for each of the six outcomes: a call has ended with it exactly when the event of that outcome has happened to it, whether that is a refused upgrade, a pool error, a pool timeout, a refused try, a failed lock statement or the leaving of its own callback |
| StorageFenceHistory.BrokenIff | app/storageLifecycle.ts:64-82 | a context counts as broken exactly when its connection has reported an error or a probe on it has failed |
| StorageFenceHistory.ProbesAreAnsweredOnce | app/storageLifecycle.ts:72-82 | the probes of a context that wait for an answer are exactly those sent less those answered or failed |
| StorageFenceHistory.NoProbeOfBroken | app/storageLifecycle.ts:72-75 | once that has happened no probe is sent any more |
| StorageFenceHistory.NoUnlockOfBroken | app/storageLifecycle.ts:89-92 | and no unlock, unless its statement was on its way before |
| StorageFenceHistory.ReleasedWhere | app/storageLifecycle.ts:93-114 | a released connection is destroyed exactly when its lock statement failed or it had broken before the unlock came back, and otherwise waits idle for the next call |
| StorageFenceHistory.RefusalHasReason | app/storageLifecycle.ts:100-113 | a try is refused only because of a conflicting holder or an earlier waiter at the moment the server decides |
| StorageFenceHistory.NobodyOvertakes | app/storageLifecycle.ts:98-104 | while a waiting call stays queued, nobody who asked later gets the lock in a conflicting mode |
| StorageFenceHistory.AnythingMayFail | app/storageLifecycle.ts:55-109 | in every reachable state any living session may end, any checked-out connection report an error, any probe or lock statement fail and any wait for the pool fail or time out |
| StorageFenceProgress.NeverDeadlocks | app/storageLifecycle.ts:31-122 | in every reachable state with an unfinished call some step that carries work on is enabled, without a timeout or a failure |
| StorageFenceProgress.YoungestRunningCanLeave | app/storageLifecycle.ts:32-43 | the youngest running callback awaits no unfinished nested call, so it can leave |
| StorageFenceProgress.QueueHeadCanMove | app/storageLifecycle.ts:98-104 | with no callback running, the head of the lock queue is grantable or the holder it waits for can move |
| StorageFenceProgress.ConnecterCanGoOn | app/storageLifecycle.ts:51-62 | with no callback running and no lock awaited, a call waiting for the pool gets a connection without any timeout |
| StorageFenceProgress.StepMeasure | app/storageLifecycle.ts:31-122 | no step but a callback's own decision lets the remaining work grow, and every work step lowers it |
| StorageFenceProgress.WorkIsBounded | app/storageLifecycle.ts:31-122 | once callbacks start nothing new, the number of work steps left is bounded, whatever the scheduler does |
| StorageFenceProgress.CanComplete | app/storageLifecycle.ts:31-122 | from every consistent state a path of work steps, no longer than the measure, finishes every call |
| StorageFenceProgress.NothingIsLeftBehind | app/storageLifecycle.ts:83-114 | when all calls are done no connection is checked out and no idle one holds a lock |
| StorageFenceRuntime.FenceRuntime.constructor | app/storageLifecycle.ts:9-12 | an empty registry satisfies the invariant |
| StorageFenceRuntime.FenceRuntime.Call | app/storageLifecycle.ts:31-56 | entry joins the caller's open context, refuses an upgrade, or asks the pool, and keeps the invariant |
| StorageFenceRuntime.FenceRuntime.Connected | app/storageLifecycle.ts:63-104 | connect resolved with an idle connection: the context is built with one user and the lock statement sent |
| StorageFenceRuntime.FenceRuntime.ConnectedFresh | app/storageLifecycle.ts:63-104 | the same for a connection the pool opened for the call, which joins the sessions of its process |
| StorageFenceRuntime.FenceRuntime.LockGranted | app/storageLifecycle.ts:115-117 | the callback starts inside the context only with the lock held |
| StorageFenceRuntime.FenceRuntime.LockDenied | app/storageLifecycle.ts:110-114 | a refused try hands the connection back undestroyed and reports maintenance |
| StorageFenceRuntime.FenceRuntime.LockThrew | app/storageLifecycle.ts:105-109 | a failed lock statement destroys the connection |
| StorageFenceRuntime.FenceRuntime.OnError | app/storageLifecycle.ts:66-70 | an error event marks the context broken and changes nothing else |
| StorageFenceRuntime.FenceRuntime.AssertHeld | app/storageLifecycle.ts:72-82 | a probe is sent exactly when the context is open and not broken; otherwise nothing changes |
| StorageFenceRuntime.FenceRuntime.Release | app/storageLifecycle.ts:83-92 | a leaving user lowers the count; the last one closes the context and goes on to unlock, or straight to the release when broken |
| StorageFenceRuntime.FenceRuntime.ReleaseConnection | app/storageLifecycle.ts:93-96 | a broken connection is destroyed, any other goes back to the pool |
| StorageTryLocks.RunKeepsInv | app/storageLifecycle.ts:148-254 | in every reachable state calls, sessions and the lock table agree |
| StorageTryLocks.ControlLockHeldThroughout | app/storageLifecycle.ts:224-243 | when the final check of an outermost control call answers, its session alone held the pair of integers at every moment since the grant, callers of withStorageTaskLock included |
| StorageTryLocks.NormalReturnWasChecked | app/storageLifecycle.ts:238-242 | a control call that returned normally did so through such a check |
| StorageTryLocks.OneCallbackPerIdentity | app/storageLifecycle.ts:189-234 | two running callbacks with living sessions never share a lock, never work for one identity in one namespace, task callers included, and never are two workers |
| StorageTryLocks.RefusalHasHolder | app/storageLifecycle.ts:231-237 | a refusal, even one caused by a hash collision, always has another living session that holds the very same pair |
| StorageTryLocks.ConnectionsAreConserved | app/storageLifecycle.ts:148-254 | every connect is matched by one release on every path, except where a withStorageTaskLock call comes to its unlock after its session has ended |
| StorageTryLocks.TaskUnlockLeaks | app/storageLifecycle.ts:189-204 | such a run: the callback returned, the session ended, the unlock threw, and no release happens |
| StorageTryLocks.IdleCarriesNoLock | app/storageLifecycle.ts:163-171 | a connection given back undestroyed carries no advisory lock |
| StorageTryLocks.PoolsAreBounded | app/storageLifecycle.ts:17-29 | the control and the worker pool of a process never exceed two clients each |
| StorageTryLocks.LocksAre | app/storageLifecycle.ts:189-231 | which two calls take the same pair of integers, for every pair of kinds and identities, with the namespaces 17419, 17420 and 17421 and the worker key 9302 written out |
| StorageTryLocks.NestedIsSameAsOuter | app/storageLifecycle.ts:211-217 | in every state of every run a nested call has the identity, the kind and the lock of the call whose context it joined |
| StorageTryLocks.NestsIff | app/storageLifecycle.ts:211-218 | a control call made in an open control context is refused exactly when its identity or namespace differs, and otherwise goes on to the check, or fails at once when the connection is known to be broken |
| StorageTryLocks.NestedIsCoveredByOuter | app/storageLifecycle.ts:210-217 | for every nested control call of every run, the session of its outermost call alone holds the lock the nested call itself asked for exactly as long as that outermost call has a living connection and has not sent its unlock |
| StorageTryLocks.AwaitedNestedIsCovered | app/storageLifecycle.ts:210-243 | if the outer callback settles only when its nested calls are over and none is started during the final check, a nested call that is under way has its own lock held exactly as long as the session lives |
| StorageTryLocks.NestedCheckMeansHeld | app/storageLifecycle.ts:215-229 | when the check before a nested callback answers, the outer session alone held the lock the nested call asked for at every moment since the grant |
| StorageTryLocks.NestedCanOutliveTheLock | app/storageLifecycle.ts:210-217 | a run in which a nested callback is still running after the outer call released, while another process runs under the same lock |
| StorageTryLocksHistory.OutcomeIff | app/storageLifecycle.ts:189-254 | for each outcome: in every state of every run it is decided for a call exactly when the event that decides it has happened and no later unlock of that call failed |
| StorageTryLocksHistory.BrokenIff | app/storageLifecycle.ts:222-223 | a call counts its connection as broken exactly when the connection has reported an error |
| StorageTryLocksHistory.ConnectionFits | app/storageLifecycle.ts:17-29 | no call ever works on a connection of another process or of another pool |
| StorageTryLocksHistory.HandedWhere | app/storageLifecycle.ts:249-252 | a connection given back is destroyed exactly when it has reported an error, and idle otherwise |
| StorageTryLocksHistory.AnythingMayFail | app/storageLifecycle.ts:189-254 | the same for the refusing locks: every session, connection and query may fail at any time, the check of a nested call included |
| StorageTryLocksHistory.EveryCallGoesOn | app/storageLifecycle.ts:189-254 | in every reachable state every unfinished call has a step of its own to go on with, except an unlock that waits for the answer to a nested check on the same living connection |
| StorageTryLocksRuntime.LockRuntime.Enter | app/storageLifecycle.ts:208-218 | a control call inside an open control context nests when identity and namespace are equal and is refused otherwise; any other call asks its pool |
| StorageTryLocksRuntime.LockRuntime.TryLock | app/storageLifecycle.ts:230-238 | the lock is taken when it is free; otherwise the call goes to its finally block with its own error |
| StorageTryLocksRuntime.LockRuntime.CallbackSettled | app/storageLifecycle.ts:238-242 | a control callback that succeeded goes to one more check; every other ends in the finally block |
| StorageTryLocksRuntime.LockRuntime.FinallyUnlock | app/storageLifecycle.ts:243-248 | the unlock runs exactly when the lock was taken and, but for withStorageTaskLock, the connection is not broken |
| StorageTryLocksRuntime.LockRuntime.FinallyRelease | app/storageLifecycle.ts:249-252 | the connection is destroyed when broken and idle otherwise |
| JsStrings.ByteLengthIsUtf8Length | app/richText.ts:838-840 | the byte length of any string, lone surrogates included, is the length of its UTF-8 encoding |
| JsStrings.ByteLengthConcat | app/richText.ts:735-737 | byte lengths add up, except that joining two surrogate halves loses exactly two bytes |
| JsStrings.Utf8Concat | app/richText.ts:735-737 | the encoding of a concatenation is the concatenation of the encodings unless two halves join |
| JsStrings.ByteLengthGrows | app/richText.ts:735-737 | appending a non-empty text makes the byte length strictly larger |
| JsStrings.WellFormedNeverJoins | app/richText.ts:735-737 | with well-formed text on either side no two surrogate halves join |
| JsStrings.DecodeUtf8 | app/richText.ts:838-840 | decoding the encoding gives the code points of the string back, a lone surrogate as the replacement character |
| JsStrings.TrimTrims | app/htmlSafety.ts:36-40 | trimming leaves no outer white space and leaves trimmed text alone |
| JsStrings.SanitizeHrefIsProjection | app/htmlSafety.ts:36-64 | both href sanitizers leave their own results unchanged |
| JsStrings.AbsoluteHrefIff | app/htmlSafety.ts:55-64 | sanitizeAbsoluteHref keeps a value exactly when, trimmed, it is http, https, ipfs, ipns or mailto in any case, a colon and anything |
| JsStrings.HrefIff | app/htmlSafety.ts:36-53 | sanitizeHref refuses exactly what starts, without control characters and white space, with two slashes or with a scheme other than these five, and returns every other value trimmed |
| RichText.SortMarksIsStableSort | app/richText.ts:552-557 | sorting by mark order gives a sorted permutation that keeps the order inside every mark type |
| RichText.StableSortIsUnique | app/richText.ts:556-556 | there is only one such list, so any stable sort gives it |
| RichText.NormalizeMarksIsProjection | app/richText.ts:552-583 | normalized marks are sorted and canonical, and normalizing them changes nothing |
| RichText.NormalizeInlineIsNormal | app/richText.ts:529-550 | normalization leaves no empty node, only canonical marks and no two neighbours with equal marks, and keeps the concatenated text |
| RichText.NormalInlineIsFixed | app/richText.ts:529-550 | such a list is left exactly as it is |
| RichText.NormalizeInlineNodes | app/richText.ts:529-550 | the loop over the nodes computes that normal form |
| RichText.NormalizeBlockIsProjection | app/richText.ts:503-527 | normalizing a normalized block changes nothing, nested list items included |
| RichText.NormalizeBlocksIsProjection | app/richText.ts:110-126 | creating a document from its own blocks gives the same blocks |
| RichText.NormalMarkIsValidIff | app/richText.ts:569-583 | a normalized mark is valid unless it is a mention or hashtag whose href was the empty string |
| RichTextMarks.NormalizeMarkIs | app/richText.ts:559-583 | what becomes of each mark type: links stay exactly with a safe absolute href, mentions and hashtags lose an unsafe one, the plain marks stay, all others go, and no other field is touched |
| RichTextMarks.NormalMarksAre | app/richText.ts:552-557 | normalized marks stand in the order strong, em, code, strike, spoiler, link, mention, hashtag, each as often as the given marks normalize to it |
| RichTextMarks.NormalizeKeepsPaint | app/richText.ts:529-550 | merging and dropping nodes leaves every character in its place with its normalized marks |
| RichTextMarks.NormalizeKeepsDocument | app/richText.ts:497-527 | normalizing a document loses no block, no field of a block and no character |
| RichTextMarks.ValidIff | app/richText.ts:589-691 | a document is accepted exactly when it consists of known blocks with items in lists, a storage id in attachments and marks of known types with safe absolute hrefs |
| RichTextPlain.AttachmentSays | app/richText.ts:423-425 | an attachment exports its alt text, or its title when there is no alt text |
| AtProto.ExportIsPieces | app/richText.ts:693-824 | for every valid document the nested appends, joins and shifts equal one flat list of pieces: the text is their concatenation and each facet spans its piece's byte offsets |
| AtProto.FacetsAreOrderedAndInRange | app/richText.ts:730-750 | for every document and any strings facets are non-empty, strictly ordered, disjoint and inside the text |
| AtProto.FacetsCoverExactly | app/richText.ts:730-824 | with well-formed nodes the bytes under each facet are exactly the encoding of the node it came from |
| AtProto.FacetsCoverNodes | app/richText.ts:730-750 | the same whenever no piece boundary splits a character |
| AtProtoFacets.FacetsSayTheirMarks | app/richText.ts:722-801 | for every valid document: a non-empty node has a facet exactly when one of its normalized marks is a safe absolute link, a mention of a DID or a hashtag with a tag; its features are, in mark order, exactly the link with that href, the mention with that id and the tag; and there is no other facet |
| AtProtoFacets.FeatureSays | app/richText.ts:758-801 | a normalized mark gives a feature exactly when the feature is its safe href, its DID, or the tag of its name, or of the text when it has no name |
| AtProtoFacets.DidIff | app/richText.ts:834-836 | a value is taken as a DID exactly when it is did, a method of lower-case letters and digits, and a non-empty identifier of the permitted units |
| AtProtoFacets.TagIff | app/richText.ts:826-832 | a value gives a tag exactly when it is that tag between white space and behind at most one #, of 1 to 640 units without white space |
| AtProto.TextIsPlainText | app/richText.ts:171-194 | the exported text equals the plain-text export of every document |
| AtProto.BlockPiecesExport | app/richText.ts:693-720 | each block, a list of items included, exports as its own pieces |
| AtProto.JoinPiecesExport | app/richText.ts:803-814 | joining parts skips empty ones, separates by one line break and shifts every facet to its place |
| AtProto.InlinePiecesExport | app/richText.ts:722-750 | the loop over one inline list exports one piece for each non-empty node |
| AtProto.AtProtoText.AppendInlineNode | app/richText.ts:730-750 | appending a node in place is the specified append |
| AtProto.AtProtoText.AppendTextPart | app/richText.ts:803-812 | appending a part in place is the specified append with its shift |
| AtProto.InlineNodesToAtProtoText | app/richText.ts:722-728 | the loop over the nodes builds the export of the list |
| AtProto.JoinAtProtoTextParts | app/richText.ts:803-814 | the loop over the parts builds their join |
| Farcaster.MentionsAreConsistent | app/richText.ts:853-962 | for every document as many positions as mentions, at most ten, strictly increasing and inside the text, and the shared counter equals the mentions emitted |
| Farcaster.CastIsRendering | app/richText.ts:853-976 | for every valid document the cast is the rendering of one flat line: words and mentions in order, each mention at the byte length of what precedes it; an invalid document gives the empty cast |
| Farcaster.EmbedsAreFirstTwo | app/richText.ts:921-972 | although urls are capped and de-duplicated per inline list, per list and per document, the embeds are the first two distinct eligible link urls of the flattened document, in order |
| Farcaster.AddEmbedsIsFirstTwo | app/richText.ts:921-941 | adding urls one by one under the cap gives the first two distinct urls of everything seen |
| Farcaster.CappedPartSuffices | app/richText.ts:950-972 | a part that was capped before decides as much as all its urls would |
| FarcasterMarks.NodeMeans | app/richText.ts:904-941 | which fid and which urls a node gives the cast: the fid of its first mention, and its safe absolute links of at most 256 bytes in mark order |
| FarcasterMarks.ParseFidIff | app/richText.ts:986-998 | an id is a fid exactly when it is a positive safe integer, as a number or in decimal digits without a leading zero |
| Farcaster.InlineRenders | app/richText.ts:896-919 | one inline list with the shared counter writes exactly the rendering of its line |
| Farcaster.JoinRenders | app/richText.ts:950-962 | appending a part renders the joined line, with a separator only between parts that have content |
| Farcaster.BlockRenders | app/richText.ts:863-894 | every block writes the rendering of its line |
| Farcaster.PositionsInRange | app/richText.ts:904-919 | positions never exceed the text, and one equals its length exactly behind a trailing mention |
| Farcaster.CastBuilder.AppendEmbeds | app/richText.ts:921-927 | the loop over urls adds them under the cap |
| Farcaster.CastBuilder.AppendInlineNode | app/richText.ts:904-919 | appending a node in place updates the cast and the shared counter as specified |
| Farcaster.CastBuilder.AppendCastPart | app/richText.ts:950-962 | appending a part in place is the specified append |
| Farcaster.InlineNodesToFarcasterCast | app/richText.ts:896-902 | the loop over the nodes builds the cast of the list and advances the counter |
| Html.SanitizeCleans | app/htmlSafety.ts:85-171 | whatever the tree and the policy, only allowed tags and attributes in their final form are left, and no comment, script or style |
| Html.CleanIsFixed | app/htmlSafety.ts:91-120 | a clean tree is left exactly as it is |
| Html.SanitizeIsIdempotent | app/htmlSafety.ts:85-120 | sanitizing twice is sanitizing once, with the forced rel, the lowered target and the trimmed href |
| Html.SanitizeAttributeIsProjection | app/htmlSafety.ts:132-219 | every attribute's sanitized value is left alone by the same rule |
| Html.SanitizeAttrsIsProjection | app/htmlSafety.ts:122-130 | the sanitized attributes of an element are left alone, the forced rel included |
| Html.CleanAttributesAreSafe | app/htmlSafety.ts:122-171 | in posts attributes remain only on links: a non-empty trimmed safe href, a listed target, a non-empty rel or a title, and a blank target has the forced rel |
| HtmlMeaning.LinkAttributesAre | app/htmlSafety.ts:122-171 | every attribute of a link in a post after sanitizing, with the four targets and the forced rel written out |
| HtmlMeaning.OtherAttributesGo | app/htmlSafety.ts:156-159 | every other element of a post loses all its attributes |
| HtmlMeaning.LayoutAttributesAre | app/htmlSafety.ts:138-159 | in a layout class names stay on every element and an image keeps its source and 512 units of alt and title, and nothing else stays |
| HtmlMeaning.RelWordsAre | app/htmlSafety.ts:207-219 | the sanitized rel has exactly the words of the given one that consist of letters, digits, underscores and hyphens, in lower case |
| HtmlMeaning.ClassNamesAre | app/htmlSafety.ts:138-141 | the sanitized class has the first 16 class names of the given one |
| HtmlMeaning.ElementBecomes | app/htmlSafety.ts:3-5 | which elements stay with their sanitized attributes, which go with their content and which leave their content in their place, with the tag names written out |
| Html.SanitizeKeepsText | app/htmlSafety.ts:91-120 | exactly the text outside blocked elements, scripts, styles and comments remains, in order |
| Html.EscapeIsOnePass | app/htmlSafety.ts:66-77 | the five replacements in sequence equal one pass over the characters: none rewrites another's output |
| Html.EscapeRoundTrip | app/htmlSafety.ts:66-77 | an escaped attribute value contains no raw delimiter and decodes to the original |
| Html.ElementNode.SanitizeHtmlAttribute | app/htmlSafety.ts:132-219 | editing one attribute in place removes it or sets its sanitized value and touches no other |
| Html.ElementNode.SanitizeHtmlAttributes | app/htmlSafety.ts:122-130 | the loop over a copy of the keys, in any order, leaves the sanitized attributes and forces rel on a blank target |
| HtmlRichText.PrintedTreeIsLeftAlone | app/richText.ts:433-495 | the sanitizer changes nothing in the tree printed for any document |
| HtmlRichText.PrintKeepsWords | app/richText.ts:433-495 | for every document, whatever its marks, the printed page shows exactly the words of its blocks, in order |
| HtmlRichText.RoundTrip | app/richText.ts:272-294 | a normalized document of paragraphs, quotes, code blocks, lists and line breaks with strong, em, code, strike and at most one link per node is parsed back unchanged from its printed, sanitized tree |
| HtmlRichText.ReverseNormalizes | app/richText.ts:461-467 | marks printed innermost first and read outermost first normalize to their own order |
| HtmlRichText.WrapReads | app/richText.ts:354-376 | text wrapped in any plain marks parses, under any outer marks, to one node with the outer marks followed by the wrapping ones outermost first |
| HtmlMeaning.BlockReadsAs | app/richText.ts:305-348 | which elements become blocks: a pre with all text inside it, a list with one item for each li directly in it, paragraphs and quotes with their running text, br as a line break; every other element is running text |
| HtmlMeaning.TextReadsAs | app/richText.ts:354-408 | text inside one element reads as one paragraph whose node has the mark of that element: strong and b, em and i, code, s, and a with a safe absolute href; any other element adds no mark |
| HtmlMeaning.MarkPrintsAs | app/richText.ts:461-495 | each mark prints as its own element around the text, a mention or hashtag with an href as a link, a spoiler as nothing |
| HtmlMeaning.ImportKeepsText | app/richText.ts:272-294 | importing running text keeps all of it in order, with a line feed for every break, whatever the tags |
| HtmlRichText.BlockReads | app/richText.ts:305-348 | each representable block prints as one element that parses to the same block |
| SafeHtml.SafeHtmlRoundTrip | app/htmlSafety.ts:79-83 | through safe HTML a normalized representable document without empty code blocks comes back exactly when it has no line break at its ends, no empty quote or list before another block, no empty paragraph before a line break and no oddly spelled break tag in a link; if only the line breaks are in the way, only they are lost |
| SafeHtml.SafeHtmlIsPrinted | app/richText.ts:181-186 | the page of a valid document is its printed tree, without the breaks at its ends, written and read once; an invalid document has none |
| SafeHtml.SafeHtmlKeepsWords | app/richText.ts:181-186 | no word of a valid document is lost on its page and none is added, whatever falls into which block there |
| SafeHtml.EmptyQuoteSwallows | app/htmlSafety.ts:81-81 | a family that does not come back: behind an empty quote the whole rest of the document ends up in the quote |
| SafeHtml.RereadBlocks | app/htmlSafety.ts:81-81 | the parser sees the printed blocks again exactly when none falls into another one, and fewer blocks otherwise |
| SafeHtml.ReadDocumentIsTidy | app/richText.ts:354-376 | a document read from a tree in whose attributes every break tag is spelled `<br/>` has only links of that kind |
| NormalizeHtml.TidyBreaksTidies | app/htmlSafety.ts:80-80 | replacing break tags leaves no other spelling, and changes nothing exactly when there was none |
| NormalizeHtml.RereadCloses | app/htmlSafety.ts:81-81 | what the parser makes of the serialized tree has nothing left open for a following sibling |
| NormalizeHtml.RereadKeepsText | app/htmlSafety.ts:81-81 | whatever is left open, the parser reads all text again, in order |
| NormalizeHtml.RereadIsFixed | app/htmlSafety.ts:18-26 | sanitizing what the parser made of a clean, tidy and stripped tree changes nothing any more |
| NormalizeHtml.StripStrips | app/htmlSafety.ts:80-80 | stripping leaves no break at either end and changes nothing exactly when there was none |
| HtmlRichText.PrintedTreeIsSettled | app/richText.ts:433-495 | a printed tree has no empty text, no two adjacent texts and no link inside a link |
| HtmlRichText.ImportIsStable | app/richText.ts:128-133 | whatever tree without nested links is imported, the document is normalized, valid and representable, and exporting and importing it again changes nothing |
| HtmlRichText.RepresentableIsValid | app/richText.ts:598-691 | a normalized representable document passes validation |
| HtmlRichText.HtmlNodesToBlocks | app/richText.ts:272-294 | the loop with its inline buffer computes the parsed blocks, running text becoming paragraphs where it stands |
| Tables.DistinctOnIsFirst | check/databaseStorageObjectsIntegrity.ts:252-261 | DISTINCT ON keeps exactly one row for each key, one that no row of its key comes before |
| Tables.UpsertAt | check/databaseStorageObjectsIntegrity.ts:164-170 | with distinct keys every row lands once, as an update of the stored row or as a new row |
| Tables.UpsertElsewhere | check/databaseStorageObjectsIntegrity.ts:164-170 | a row whose key is not in the view is left alone |
| Tables.InsertOnConflict | check/databaseStorageObjectsIntegrity.ts:164-170 | row by row the statement computes that upsert, and fails exactly when it would touch a row twice |
| StorageRepair.ViewsAreDistinct | check/databaseStorageObjectsIntegrity.ts:249-320 | each canonical view has one row for each of its keys, the first by content id and preview order |
| StorageRepair.NoRowIsTouchedTwice | check/databaseStorageObjectsIntegrity.ts:164-242 | no upsert can touch a row of its table twice |
| StorageRepair.ObjectViewIsLive | check/databaseStorageObjectsIntegrity.ts:252-261 | the content view has a row exactly for the storage ids of contents that are not deleted |
| StorageRepair.LowestIdDescribes | check/databaseStorageObjectsIntegrity.ts:253-260 | that row carries the columns of the content with the lowest id |
| StorageRepair.PreviewKeysAreDisjoint | check/databaseStorageObjectsIntegrity.ts:289-299 | the content view and the preview view have no key in common, so the second upsert cannot undo the first |
| StorageRepair.CleanMeansSound | check/databaseStorageObjectsIntegrity.ts:82-141 | a report without issues says exactly that every row of the three views is present and equal in every compared column |
| StorageRepair.ObjectsAreSound | check/databaseStorageObjectsIntegrity.ts:143-201 | after the first two upserts, from any table, both storage-object views match |
| StorageRepairRows.LiveObjectIs | check/databaseStorageObjectsIntegrity.ts:143-171 | the whole row of every live storageId after the first two statements, from any tables: the columns of the content with the lowest id, pinned exactly when the old row was or some content that is not deleted is, else the old pin or false, created once and updated now |
| StorageRepairRows.PreviewObjectIs | check/databaseStorageObjectsIntegrity.ts:173-201 | the whole row of every pure preview: type, mime type, extension and size of its first preview over what was stored, the old pin or false |
| StorageRepairRows.OtherObjectIs | check/databaseStorageObjectsIntegrity.ts:164-201 | a storageId that no live content stores or previews keeps its row, or stays absent |
| StorageRepairRows.ReferenceIs | check/databaseStorageObjectsIntegrity.ts:203-243 | the whole reference of every preview: source column, name, type as it is stored, size and times, from the first content and size that has it |
| StorageRepairRows.OtherReferenceIs | check/databaseStorageObjectsIntegrity.ts:236-242 | no other reference changes |
| StorageRepairRows.TypesAreStored | app/modules/database/models/storageObjectReference.ts:32-34 | the third statement can be applied exactly when every type of a preview fits the column but for trailing blanks, and stores all of them unchanged exactly when each has at most 100 characters |
| StorageRepairRows.ReportCounts | check/databaseStorageObjectsIntegrity.ts:82-141 | the six numbers are the numbers of live storageIds, pure previews and references without a row, and of those whose row differs in a compared column |
| StorageRepair.RepairIsSound | check/databaseStorageObjectsIntegrity.ts:49-54 | from any tables the three repairs make all six counts zero exactly when every copied preview type fits its narrower column |
| StorageRepair.LongTypeIsNotStorable | check/databaseStorageObjectsIntegrity.ts:203-243 | one content with a preview type of 101 characters makes the third statement fail |
| StorageRepair.RepairKeepsRows | check/databaseStorageObjectsIntegrity.ts:154-192 | no storage object disappears, no pin is cleared, creation times stay, and a row outside both views is not touched |
| StorageRepair.PreviewsKeep | check/databaseStorageObjectsIntegrity.ts:186-192 | the preview upsert changes only type, mime type, extension, size and the update time |
| StorageRepair.ReferencesElsewhere | check/databaseStorageObjectsIntegrity.ts:236-242 | a reference outside the view is not touched |
| StorageRepair.RepairIsIdempotent | check/databaseStorageObjectsIntegrity.ts:143-201 | a second repair of the storage objects at any later time changes nothing but update times |
| StorageRepair.ReferencesAreIdempotent | check/databaseStorageObjectsIntegrity.ts:203-243 | a second repair of the references changes nothing but update times |
| StorageRepair.EveryPreviewIsRegistered | check/databaseStorageObjectsIntegrity.ts:280-369 | after the repair every preview of a content that is not deleted is a storage object and is referenced from its content |
| StorageRepair.ReferenceSaysPreview | check/databaseStorageObjectsIntegrity.ts:303-369 | a repaired reference names the column, the size class and the size of a preview that its source content really has |
| StorageRepair.ObjectSaysPreview | check/databaseStorageObjectsIntegrity.ts:280-369 | the repaired storage object of a pure preview has the type, mime type, extension and size of one content's preview |
| StorageRepair.Database.RepairStorageObjects | check/databaseStorageObjectsIntegrity.ts:143-171 | the first statement always applies and upserts the content view |
| StorageRepair.Database.RepairPreviewStorageObjects | check/databaseStorageObjectsIntegrity.ts:173-201 | the second statement always applies and upserts the preview view |
| StorageRepair.Database.RepairPreviewStorageObjectReferences | check/databaseStorageObjectsIntegrity.ts:203-243 | the third statement applies exactly when every type can be stored, and otherwise changes nothing |
| StorageRepair.Database.Run | check/databaseStorageObjectsIntegrity.ts:33-71 | without confirmation, without --repair or without issues nothing is written; a repair exits clean exactly when every type fits, and a failing third statement leaves the first two applied |
| Keyset.ClauseContinues | app/helpers.ts:270-284 | the cursor clause selects exactly the rows that come after the row the cursor was made from |
| Keyset.TraversalListsEachOnce | app/helpers.ts:181-283 | following matching cursors to a short page lists in order, whatever is inserted or deleted between pages; a row that stays is listed, and then once, exactly when it has a cursor value, nulls sort first, or the first page is the only one |
| Keyset.TraversalIsBounded | app/helpers.ts:247-257 | the full pages of a traversal that goes on from its first page never hold more rows than were ever in the table, so it ends when insertions stop |
| Keyset.ListsEverythingIffMatching | app/helpers.ts:216-223 | a configuration lists every staying row in all traversals exactly when the first page and the cursor pages are sorted the way the cursor moves |
| Keyset.MismatchLosesRow | app/helpers.ts:216-223 | for every other configuration a finished traversal of three constant rows that never lists the middle one |
| Keyset.ListsEverythingIff | app/helpers.ts:216-223 | every traversal lists every staying row exactly for these options: before a cursor, a descending first page and an orderDir that is absent, empty or does not read ASC in upper case; after one, an ascending first page and an orderDir that is given and does not read DESC |
| Keyset.UsualOptionsListEverything | app/modules/group/index.ts:884-892 | the default options and those of a caller that walks forward with ASC list everything; walking forward without an orderDir, or starting ascending before a cursor, does not |
| Keyset.CursorIffValue | app/helpers.ts:169-171 | a full page hands on no cursor exactly when its last row is null in the cursor column |
| Keyset.RestartsIff | app/helpers.ts:169-195 | the second page starts from the beginning exactly when at least a page of rows is null (nulls first) or fewer than a page of rows have a value (nulls last) |
| Keyset.RestartsForEver | app/helpers.ts:169-195 | over a table that stays the same a restarted traversal restarts after every page |
| Keyset.ConstantTableIff | app/helpers.ts:169-195 | over a table that stays the same a restarted traversal never finishes, and a finished one lists every row exactly when nulls sort first, there are none, or the table is smaller than a page |
| Keyset.Where.AppendAndWhereClause | app/helpers.ts:201-207 | appending keeps all earlier conditions and adds exactly the new one |
| Keyset.Where.AddCursorWhere | app/helpers.ts:270-284 | the where object is narrowed by the cursor and by nothing else, and not at all without a cursor |
| Keyset.Where.AddBothCursors | app/modules/group/index.ts:1933-1939 | two cursors on one where object select exactly the rows between them |
| Upserts.RunKeepsInv | app/modules/activityPub/flagState.ts:19-37 | in every interleaving keys stay unique and every caller that is about to update holds the row of its key |
| Upserts.NobodyRethrows | app/index.ts:514-526 | there is never a second row for a key, a caller that returned has its row, and the rethrow after the second lookup is never reached |
| Upserts.FailsIff | app/index.ts:504-527 | a call fails exactly when one of its queries does; losing the race for the insert is no failure |
| Upserts.QueryCount | app/index.ts:508-525 | how many queries a call has made in each phase: an updated limit is read back, an updated flag is not |
| Upserts.StepEffect | app/index.ts:504-527 | every step leaves the row of a key alone or adds exactly the caller's written fields to it |
| Upserts.LastWriterWins | app/index.ts:504-527 | limits: the final row has every field the last writer gave and, in all others, what was there before |
| Upserts.ReturnedIsMixture | app/modules/activityPub/flagState.ts:19-46 | when every delivery for a key carries one of two data over the same fields, once any delivery has returned, every field of the row has the value of one of the two |
| Upserts.OneOfTheTwoIff | app/modules/activityPub/flagState.ts:19-46 | in every run with those two data the row agrees with one of them from the first return on exactly when the two differ in at most one field |
| Upserts.RedeliveriesAgree | app/modules/activityPub/flagState.ts:19-46 | once one of any number of redeliveries with the same data has returned, the row has that data and keeps it |
| Upserts.DifferentFlagsCanMix | app/modules/activityPub/flagState.ts:39-46 | for any two data that differ in two fields, a run after which the row agrees with neither |
| Upserts.GetChangedFlagData | app/modules/activityPub/flagState.ts:75-84 | the loop over the given keys collects exactly the fields that differ |
| Upserts.UniqueTable.UpdateFlagRecord | app/modules/activityPub/flagState.ts:39-46 | writing only the changed fields leaves the row as writing all of them would |
| Upserts.UniqueTable.SyncInboundFlagRecord | app/modules/activityPub/flagState.ts:19-37 | whether or not another session inserts the key between the lookup and the create, the row of the key ends with the data over what was there, and every other row is unchanged |
| Workers.StepKeepsInv | app/backgroundWorker.ts:15-49 | every tick, completion, failure and stop keeps at most one run in flight, known to runPromise and, once stopped, to the stop promise |
| Workers.OneRunAtATime | app/backgroundWorker.ts:22-32 | in every state of every group run all runs of a worker but the last are settled |
| Workers.NothingScheduledAfterStop | app/backgroundWorker.ts:40-72 | from a group's stop on no member is added and no run is scheduled |
| Workers.ResolvedStopIsQuiet | app/backgroundWorker.ts:63-71 | once a group's stop has resolved, no member run is in progress, then or ever after |
| Workers.OnlyThrowingRejects | app/backgroundWorker.ts:26-31 | as long as onError never throws, no stop rejects |
| Workers.RejectedStopMayBeBusy | app/backgroundWorker.ts:63-71 | a run in which onError throws and the group's stop rejects while another member is still running |
| Workers.StopSettles | app/backgroundWorker.ts:40-47 | while a stop waits some event is due, and every event of the run brings it nearer to settling |
| Workers.BeginsAfterStopIff | app/backgroundWorker.ts:22-72 | at any moment after a group's stop a callback can begin exactly when its run was queued at the stop and has not begun since |
| Workers.OneQueuedRun | app/backgroundWorker.ts:22-27 | each member has at most one queued run |
| Workers.AddGives | app/backgroundWorker.ts:57-62 | add changes nothing in a stopped group and otherwise gives one new member, with a run scheduled exactly when it is to run at once |
| Workers.QueuedAtStop | app/backgroundWorker.ts:26-27 | a run with a callback still queued at the stop |
| Workers.StoppedSchedulesNothing | app/backgroundWorker.ts:22-25 | a stopped worker schedules no run and keeps waiting for the same one |
| WorkersRuntime.IntervalWorker.constructor | app/backgroundWorker.ts:19-37 | a new worker has no run, or one scheduled run when it is to run immediately |
| WorkersRuntime.IntervalWorker.RunOnce | app/backgroundWorker.ts:22-32 | a tick schedules a run unless one is in flight or the worker is stopped |
| WorkersRuntime.IntervalWorker.OnError | app/backgroundWorker.ts:28-28 | the error handler's own outcome decides how the run settles |
| WorkersRuntime.IntervalWorker.Finally | app/backgroundWorker.ts:29-31 | the finally callback clears runPromise and settles the run |
| WorkersRuntime.IntervalWorker.Stop | app/backgroundWorker.ts:40-47 | every call returns the promise of the first one |
| WorkersRuntime.IntervalWorkerGroup.Add | app/backgroundWorker.ts:57-62 | a stopped group refuses; otherwise a new worker joins the ones there |
| WorkersRuntime.IntervalWorkerGroup.Stop | app/backgroundWorker.ts:63-71 | every member is stopped, once, and the worker list is emptied |
| Cron.RunKeepsInv | app/modules/activityPub/cronService.ts:33-95 | over any run each flag is set exactly while one call of its kind is with the module |
| Cron.SkippedExactlyWhenBusy | app/modules/activityPub/cronService.ts:33-95 | at most one call of a kind is with the module, and a call is skipped exactly when another of its own kind is |
| Cron.EndsIff | app/modules/activityPub/cronService.ts:33-95 | a call returns or throws exactly when its module call does |
| Cron.ActivityPubDeliveryCronService.Process | app/modules/activityPub/cronService.ts:33-43 | entry skips on a set flag and otherwise sets it and calls the module |
| Cron.ActivityPubDeliveryCronService.Settled | app/modules/activityPub/cronService.ts:44-46 | success or failure clears the flag of that kind only |
| Accounting.RunKeepsInv | app/memoryProfiler.ts:62-133 | all counters, service entries, owners and the timer stay consistent over any run |
| Accounting.InFlightIsUnsettled | app/memoryProfiler.ts:66-80 | in flight is the number of requests that started on these counters and have neither finished nor closed, across restarts of the profiler |
| Accounting.ClampNeverActs | app/memoryProfiler.ts:79-79 | settling a request never finds zero in flight |
| Accounting.SnapshotsBalance | app/memoryProfiler.ts:191-241 | the in-flight number of one snapshot plus started less completed and aborted is the in-flight number of the next |
| Accounting.IntervalCounts | app/memoryProfiler.ts:66-88 | between two snapshots each counter of a service, by method and by status class, has exactly the requests that started, completed or were aborted on it, each counted at its first end |
| Accounting.SnapshotClears | app/memoryProfiler.ts:234-241 | a snapshot starts every counter again except the requests in flight |
| Accounting.OldCountersStay | app/memoryProfiler.ts:62-88 | counters that no service has any more change only when a request that was counted on them ends |
| Accounting.StartGives | app/memoryProfiler.ts:94-114 | starting gives a handle that owns the timer unless nothing is enabled and nobody else owns it; only the first owner decides whether requests are counted |
| Accounting.StopGives | app/memoryProfiler.ts:116-133 | stopping a handle takes away its own owner and no other, stopping the profiler all of them; without owners nothing is timed or counted and no service is kept, with one left everything goes on, and the counters stay with their requests |
| Accounting.TimerIffOwner | app/memoryProfiler.ts:94-133 | the timer is live exactly when an owner exists, and every owner belongs to a handle that was not stopped |
| Accounting.ReportAndReset | app/memoryProfiler.ts:191-210 | the loop reports every service as it was and resets exactly the reported counters |
| Accounting.MemoryProfiler.TrackRuntimeHttpRequest | app/memoryProfiler.ts:62-71 | a request is counted on its service's counters, new ones when there are none, and ignored when the profiler is off |
| Accounting.MemoryProfiler.Settle | app/memoryProfiler.ts:74-88 | the first of finish and close counts the request completed or aborted; the second changes nothing |
| Accounting.MemoryProfiler.RecordRuntimeSnapshot | app/memoryProfiler.ts:48-60 | the report holds every service's numbers and starts a new interval |
| Accounting.MemoryProfiler.StartMemoryProfiler | app/memoryProfiler.ts:94-114 | a running profiler gains an owner, a disabled one starts nothing, and otherwise timer and owner begin together |
| Accounting.MemoryProfiler.StopOwner | app/memoryProfiler.ts:337-351 | a handle gives up its owner once, and the last owner stops the profiler |
| Accounting.MemoryProfiler.StopMemoryProfiler | app/memoryProfiler.ts:116-133 | stopping drops every owner, the timer and the counters of all services |
| Shutdown.StopOrderCount | app/index.ts:812-822 | every module is in the stop order as often as configured, an ingress module once |
| Shutdown.StopOrderIsPermutationIff | app/index.ts:812-822 | the stop order is a permutation of the configuration exactly when no ingress module is configured twice |
| Shutdown.StopOrderIsStaged | app/index.ts:812-822 | gateway, then api, then the rest, then the database, whatever the configured order |
| Shutdown.LaterModulesStopFirst | app/index.ts:812-822 | of two ordinary modules the one configured later stops first |
| Shutdown.EachModuleStopsOnce | app/index.ts:776-788 | with distinct modules every available one is stopped exactly once and no other |
| Shutdown.StopSequenceIsStaged | app/index.ts:776-788 | ingress modules are stopped first, and the fence, the profiler and the database after every other module |
| Shutdown.StopSequenceEnds | app/index.ts:776-788 | every stop of distinct modules is all other modules, then the fence, the profiler and the database when the database is configured, and the profiler once more |
| Shutdown.GeesomeApp.CleanupResource | app/resourceCleanup.ts:1-14 | a throwing cleanup becomes a warning and nothing else |
| Shutdown.GeesomeApp.StopModules | app/index.ts:776-788 | all cleanups are attempted in order, fence and profiler before the database and the profiler again at the end, whichever of them throw |
| Shutdown.GeesomeApp.Stop | app/index.ts:769-774 | however often it is called, the modules are stopped once |
| Shutdown.ShutsDownOnce | app/processShutdown.ts:35-74 | for any events app.stop is called at most once, the shutdown concludes at most once, and only the codes 0, 1, 130 and 143 are used |
| Shutdown.StopSettlesOnce | app/processShutdown.ts:84-98 | app.stop settles at most once and is not called again after it |
| Shutdown.SecondSignalExitsAtOnce | app/processShutdown.ts:56-63 | a signal exits at once exactly when a shutdown has begun, SIGTERM with 143 and SIGINT with 130, and removes the listeners |
| Shutdown.BeginsIff | app/processShutdown.ts:41-63 | a shutdown has begun exactly when a signal was received or shutdown was called |
| Shutdown.CodeSaysHowItEnded | app/processShutdown.ts:41-98 | the shutdown ends with code 0 exactly when app.stop succeeded before the deadline, and with code 1 exactly when it failed before the deadline or the deadline came first |
| Shutdown.ListensIff | app/processShutdown.ts:37-72 | signals are listened for from the start until the first dispose, the end of the shutdown or an exit at once |
| Shutdown.DisposedIsSilent | app/processShutdown.ts:37-40 | after dispose no signal is handled any more |
| Shutdown.ShutdownController.HandleSignal | app/processShutdown.ts:56-63 | the first signal begins the shutdown, a later one disposes and exits |
| Shutdown.ShutdownController.Shutdown | app/processShutdown.ts:41-55 | a request begins a shutdown unless one has begun |
| Shutdown.ShutdownController.RaceSettles | app/processShutdown.ts:86-98 | app.stop settling or the deadline passing decides how the shutdown ends, whichever comes first; the later one decides nothing |
| Shutdown.ShutdownController.Conclude | app/processShutdown.ts:44-52 | the listeners are removed before the exit with 0, or with 1 and one logged error |

## Left out

- The HTML parser and serializer beyond what `NormalizeHtml` models: white-space trimming of running text at the ends and characters a parser rewrites.
- SafeHtml.SafeHtmlRoundTrip: assumes that every code block has text; an empty one leaves a `code` element open, which the parser opens again in later text, and `Reread` does not model that.
- NormalizeHtml.RereadIsFixed: for the same reason, only of trees whose inline elements have children.
- `URL` parsing of image sources: an arbitrary function that is stable on its results.
- Sanitizing the tree itself by `remove` and `replaceWith` in place: the tree is a value; only the attribute record of one element is edited in place.
- Lower-casing beyond ASCII and the Kelvin sign; tag and attribute names are taken in lower case, as the parser gives them.
- The key order inside a mark object, which `JSON.stringify` makes part of the mark signature: a mark is a record.
- Html.SanitizeKeepsText: under the layout policy it assumes that images have no children, which the parser guarantees.
- HtmlRichText.ImportIsStable: assumes no link inside a link, which the parser guarantees.
- AtProto.FacetsCoverExactly: an ill-formed node may join a surrogate half of its neighbour; then only the order and the range of facets are promised.
- A statement's answer that is still on its way when its session ends: it counts as a failed statement.
- StorageFenceProgress.NeverDeadlocks: the fence alone; waiting across the fence, control and worker pools ends only by the connection timeout.
- The branch of `withStorageFence` for other databases, `storageFenceSignal`, `stopStorageFence` during a call, and `fenceStorageMethods` beyond the shared fence it takes.
- Several holds of one advisory lock by one session: the invariants show that a session never asks for a lock it holds.
- Column widths other than that of `targetType`; the contents table does not change during a repair.
- Keyset.TraversalListsEachOnce: the first page is sorted by the cursor column, timestamps have the database's precision, and a changed row counts as deleted and inserted.
- Upserts.LastWriterWins: rows are never deleted, and the unique index on the key is assumed; the model file of the flag table is not part of this model.
- Nostr, Matrix and ActivityPub tag exports, plain-text import, list-parameter clamping, and every route, job and report around these functions: they would add only easy members.
- Durations, averages, CPU and event-loop figures, log writing and real time: only events and their order are modelled.
