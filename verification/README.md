# dbotter: a verified model of its core

dbotter is a desktop and command-line client for MySQL and Redis. This project models seven of its components in Dafny
and proves what they promise, for every input, every run and every interleaving. `dafny verify dfyconfig.toml` checks
all of it.

## What is modelled

**The generation and session protocol** (`src/service.rs`). `ServiceCore.dfy` holds the locked sections of
`ApplicationService` as functions on the state behind its lock; `ApplicationService.dfy` is the object itself, with the
fields, the loops and the in-place updates, each method tied to its section. `SessionProtocol.dfy` interleaves the
sections: any number of operations check, connect, install and observe while reloads, mutations, uncertainty episodes,
evictions, deferred cleanups, dropped tasks and a shutdown run between any two of their steps. The snapshot a mutation
reads and the publish of its plan are separate steps, so sessions may be installed and evicted in between.
`SessionInvariant.dfy` proves one inductive invariant over every step, and `SessionTheorems.dfy` what follows for whole
runs. `ServiceLaws.dfy` says what each section and each plan does in terms of profiles, numbers and cached sessions
alone, and `SessionLaws.dfy` what a step must do: hand out the session that is there, and keep the numbers of unchanged
profiles. It is not claimed that no stale session is left in the cache after a cleanup: one installed between the
snapshot and the publish is in no list of targets. What is proved is that such a session is never handed out. A task may
be dropped at any await, also the one that holds the lane of the mutations. One such drop matters: after the flag is set
and before the numbers are replaced it tears the episode, and an observation over a torn episode can succeed, as
`TornEpisodes.dfy` shows. Of the tasks it has started the desktop runtime aborts only those of the class `AsyncNetwork`
(`src/ui/runtime.rs:410-425`), so there no episode is torn.

**RESP measurement and decoding** (`src/drivers/redis.rs`). `Decimals.dfy` bounds the decimal digits of a number by its
bit count, from `2^100000 < 10^30103` reached by twelve squarings. `Json.dfy` is the compact JSON text byte by byte,
with UTF-8, the escapes of section 7 of RFC 8259 and the base64 of section 4 of RFC 4648. `Resp.dfy` says what a reply
becomes and what it weighs; `RespMeter.dfy` is the meter, with its counters and its recursion; `RedisRows.dfy` is the
decode budget and `value_rows`. `JsonReader.dfy` reads JSON and base64 back; with it `RespDocuments.dfy` and
`RedisLaws.dfy` say what cells, documents and rows hold of a reply.

**Snapshot retention** (`src/model.rs`). `CellRetention.dfy` cuts text at a character boundary and documents at a depth,
`RetainedCells.dfy` retains one cell, `ResultSnapshot.dfy` is `retain` with its nested loops and its rollback, and
`SnapshotTheorems.dfy` proves what every snapshot has in common.

**The MySQL statement scanner** (`src/execution.rs`). `MysqlScanner.dfy` is the scanner, `MysqlStatements.dfy` where
statements lie in every text, and `MysqlTargets.dfy` the way from a caret or a selection to the statement that is run.
`MysqlLaws.dfy` says by characters and positions alone what tokens, flags, open rests and targets are. Backslashes
inside backticks skip a character, as in the code; nothing is claimed of quoted identifiers beyond that.

**Catalog retention, paging and the explorer** (`src/drivers/mysql_catalog.rs`, `src/ui/mysql_explorer.rs`).
`Catalog.dfy` is the retention, `CatalogRecount.dfy` its agreement with a recount, `CatalogSelection.dfy` which nodes of
a list it keeps, `CatalogRequests.dfy`, `CatalogTokens.dfy`, `CatalogPages.dfy` and `CatalogChains.dfy` the pages, their
tokens and what a chain of them returns, and `MysqlExplorer.dfy` the explorer state over any events. `CatalogLaws.dfy`
says what is refused and in which order nodes come, `ExplorerLaws.dfy` what is shown of answers and of whole chains.

**Config commit and profile ids** (`src/config.rs`, `src/service.rs`). `ProfileIds.dfy` makes ids from names and makes
them unique; `ConfigMutations.dfy` applies mutations; `ConfigWriter.dfy` is the staged commit on a disk on which any of
the twelve failpoints and any system call may fail, and another process may write the main file just before it is read
again or put a backup in the way. The object holds the states the disk has passed through; the last is the disk as it
is, and every change adds one. `ConfigLaws.dfy` says what ids, checks and mutations come to.

**Export** (`src/export.rs`). `ExportText.dfy` is the CSV and TSV text with readers for both, `Utf8Reader.dfy` reads the
bytes, `ExportWriter.dfy` is the chunking, cancellable writer over a sink that takes any part of a chunk or is
interrupted, and `ExportTable.dfy` the two table writers.

`Wrappers.dfy`, `Numbers.dfy`, `Sets.dfy`, `Profiles.dfy`, `Limits.dfy` and `Cells.dfy` hold the values the others
share.

## How the model abstracts

- Connecting, disk failures, other processes, the sink and the user are parameters or nondeterministic steps; what a
  theorem says holds whatever they do.
- A float is the two texts the libraries print for it, its display and its JSON. A bulk string is split by whether its
  bytes are UTF-8.
- The scanner works on characters. All characters it looks for are ASCII, and no byte of a longer character equals one,
  so character and byte positions agree.
- TOML and token serialization are functions of which only decoding after encoding is assumed, and that encoded token
  parts have no dot. Digests stand for what they digest.
- A listing a catalog chain follows is fixed, in the order of the queries, with distinct identities, non-empty names and
  ordinals from 1, as MySQL has them. An empty name would restart the listing, since the query takes it for no name.
- Lists that the planning loops take from a hash map come in any order: the order is a parameter of the step.

## Model

| member | source | states |
|---|---|---|
| SessionTheorems.LeaseMatchesPublishedProfile | src/service.rs:2824-2960 | In every interleaving, a lease newly handed out (cache hit, fresh install or lost race) is for the profile published at that moment under that generation, with no uncertainty, and its handle is cached, open and was connected with exactly that profile's fingerprint |
| SessionTheorems.LeaseStaysNamed | src/service.rs:2462-2502 | However long a lease is kept, through retags and cleanups, its handle stays the one connected for its profile content and generation |
| SessionTheorems.ObservationCoversTheInterval | src/service.rs:2804-2822 | If the closing observation of an operation succeeds, then in every state since it read its profile the published profile was the one it read, and every uncertainty episode that began since was torn: no episode began, not even one cleared since, exactly if none of those torn began since the read |
| SessionTheorems.ObservationMissesNothing | src/service.rs:2375-2394 | Where no task is dropped between setting the flag and giving new numbers, success means that no episode began since the read, whatever else was dropped |
| TornEpisodes.TornEpisodeIsMissed | src/service.rs:2375-2378 | For any profile, a run in which an episode is torn, a reload clears its flag, and an observation over all of it succeeds |
| SessionTheorems.GenerationNamesOneProfile | src/service.rs:2537-2595 | Over any run, a generation number stands for one profile id and one content |
| SessionTheorems.NewNumbersAreLarger | src/service.rs:2537-2595 | Over any stretch of a run, a generation or tombstone in effect at its end, with its id and content, was in effect at its start or has a number above all that had ever been used by then |
| SessionTheorems.NeverReused | src/service.rs:2375-2401 | What a number stands for, an id with its content or a deletion, is in effect over one unbroken stretch of a run |
| SessionTheorems.GenerationIsNeverReused | src/service.rs:2537-2595 | If two states of a run publish one number, it is for one id, and every state between them publishes it for that id and that content: an id deleted and made again, or changed and set back, has a new number |
| SessionTheorems.TombstoneIsNeverReused | src/service.rs:2583-2587 | The number of a tombstone is never that of a generation, before or after, nor of another id, and the tombstone keeps it in every state between |
| SessionTheorems.GenerationsIncrease | src/service.rs:2375-2401 | Generations of an id only grow: past every earlier tombstone of it, and past an earlier generation unless every state between published the id with that number and that content; a later tombstone is past every earlier generation |
| SessionTheorems.ReconcileIsTotal | src/service.rs:2620-2732 | Exactly the configured ids have generations in every state, and a mutation that may be reconciled always is: the two `ok_or(ConfigUncertain)` exits are unreachable |
| SessionTheorems.HandlesAreConserved | src/service.rs:2881-2959 | Every handle the connector returned is in exactly one place: with the one task that connected it, in one cache slot, taken for close, closed, or dropped with the task that held it |
| SessionTheorems.ClosedForGood | src/service.rs:2403-2418 | A closed handle was closed once, stays closed and is never cached again |
| SessionTheorems.CleanupIsExact | src/service.rs:2504-2516 | A deferred cleanup removes the very session it captured or none, and leaves every other slot as it was |
| SessionTheorems.FenceIsExact | src/service.rs:2480-2502 | A fence, retagging or evicting, touches the session it was issued for or none, and no slot changes its handle |
| SessionTheorems.RunHolds | src/service.rs:2375-2960 | The protocol invariant holds in every state of every run |
| SessionInvariant.StepKeeps | src/service.rs:2375-2960 | Every enabled step keeps the invariant |
| SessionInvariant.StartHolds | src/service.rs:1009-1046 | The invariant holds of the service made from any loaded config with different ids |
| SessionInvariant.ReconcileSucceeds | src/service.rs:2681-2716 | Under the invariant the reconcile plan is never an error |
| SessionInvariant.PlanAdvances | src/service.rs:2620-2732 | A plan made from an earlier snapshot still only moves generations forward when it is published |
| SessionInvariant.PublishKeeps | src/service.rs:2718-2726 | Publishing a plan keeps the invariant, whatever was installed or evicted since its snapshot |
| SessionInvariant.InstallKeeps | src/service.rs:2887-2930 | Installing, replacing, losing the race, or finding the profile stale or uncertain keeps the invariant |
| SessionInvariant.ResolveKeeps | src/service.rs:2480-2502 | A deferred retag or eviction, at any later time, keeps the invariant |
| SessionInvariant.DropKeeps | src/ui/runtime.rs:2044-2073 | A task cancelled or timed out between its connect and its install, which drops the handle it connected, keeps the invariant |
| SessionInvariant.DropLaneKeeps | src/service.rs:2375-2394 | A mutation or reload dropped at any of its steps keeps the invariant |
| SessionInvariant.AllBumped | src/service.rs:2390-2392 | Entering uncertainty leaves no operation in flight with the published number of its profile |
| ServiceCore.AssignKeys | src/service.rs:2570-2582 | The loop over the loaded profiles gives a generation to exactly their ids |
| ServiceCore.AssignAt | src/service.rs:2571-2582 | The profile at a position gets the number it is assigned: the one it has, or the next |
| ServiceCore.AssignDistinct | src/service.rs:2571-2582 | No two profiles get the same new number |
| ServiceCore.AllotMeaning | src/service.rs:2390-2392 | Numbers handed out in any order of the ids are new, different and change nothing else |
| ServiceLaws.FingerprintMeaning | src/service.rs:657-671 | Two profiles have one fingerprint exactly if they are equal in all but id and name |
| ServiceLaws.CheckMeaning | src/service.rs:2835-2863 | A published profile with a session in the cache under its number and fingerprint is given exactly that session; without one, nothing; unpublished or uncertain, the error for it |
| ServiceLaws.InstallMeaning | src/service.rs:2887-2930 | After connecting, a cached session that serves the profile wins and the cache stays; else the new one takes the place under the id, gives back what it displaces, and leaves every other slot; nothing is cached for a profile that is not the published one |
| ServiceLaws.TakeMeaning | src/service.rs:2420-2441 | The session with both numbers leaves the cache with its handle, and no other |
| ServiceLaws.RetagMeaning | src/service.rs:2462-2478 | Exactly the session with that identity and that fingerprint gets the new number, and nothing else changes |
| ServiceLaws.ObservationMeaning | src/service.rs:2804-2822 | Uncertain while the flag is up, stale where the number is not the published one, else current |
| ServiceLaws.ReloadPlanMeaning | src/service.rs:2537-2611 | A reload leaves the number of every profile that is as it was, gives every other a new one of its own, buries exactly the ids that are gone under new numbers, and names for cleanup exactly the profiles that were published and are so no more, each with its cached session |
| ServiceLaws.ReconcilePlanMeaning | src/service.rs:2620-2717 | A mutation leaves the number of every profile that is as it was, unless it is the one created or updated; that one and every changed one get new numbers of their own; ids that are gone are buried; the targets and the fence are those of the profiles that are affected |
| ServiceLaws.BumpMeaning | src/service.rs:2378-2394 | Entering uncertainty gives every published id a new number of its own, changes nothing else, and captures every session of these ids |
| SessionLaws.CachedSessionIsLeased | src/service.rs:2835-2902 | In any state, an operation whose profile is published as it read it, and which has a session in the cache, is given that session: at its check, and instead of its own after connecting |
| SessionLaws.NewSessionIsLeased | src/service.rs:2824-2960 | Where there is none it connects, and is given its own session, which is then in the cache; what was cached is taken for close |
| SessionLaws.ConfirmedMeaning | src/service.rs:2804-2822 | The closing observation of an operation succeeds exactly while its number is the published one and nothing is uncertain |
| SessionLaws.ResolveMeaning | src/service.rs:2480-2502 | A fence that may be retagged renumbers its session if that is still there and connects as the profile now does; any other fence evicts it; every other slot stays |
| SessionLaws.PlanIsPublished | src/service.rs:2718-2726 | Whatever runs in between, what is published is what was planned |
| SessionLaws.PublishHandsOn | src/service.rs:2597-2618 | Over a run, the publish of a plan leaves every cached session, and hands on for cleanup, for each target, the very session that was cached when it was planned, and the fence with its session; the flag is to be cleared only after a reload |
| SessionLaws.FlagMeaning | src/service.rs:2375-2394 | The flag rises exactly where an episode begins and falls only where a reload that was published clears it |
| SessionLaws.MutationKeepsTheOthers | src/service.rs:2655-2668 | Over a run, from the plan of a mutation to its publish: every profile it leaves as it was, and did not create or update, has the very number it had |
| SessionLaws.MutationRenewsItsProfile | src/service.rs:2655-2668 | And the one created or updated has a number beyond all that were ever used, a deleted one a tombstone beyond them |
| SessionLaws.ReloadKeepsTheUnchanged | src/service.rs:2570-2582 | Over a run, from the plan of a reload to its publish: a profile has the number it had exactly if it is as it was, and a new one otherwise |
| ApplicationServiceObject.ApplicationService.constructor | src/service.rs:1009-1046 | The service starts with one generation for each loaded profile |
| ApplicationServiceObject.ApplicationService.AssignGenerations | src/service.rs:2570-2582 | The loop computes the assignment the protocol publishes |
| ApplicationServiceObject.ApplicationService.BuryRemoved | src/service.rs:2583-2587 | Each removed id, in whatever order, gets a tombstone of its own |
| ApplicationServiceObject.ApplicationService.CollectReloadTargets | src/service.rs:2597-2611 | Exactly the changed or removed ids become targets, with the session identity of the snapshot |
| ApplicationServiceObject.ApplicationService.PlanReload | src/service.rs:2537-2595 | The plan of a reload, leaving the published state as it is |
| ApplicationServiceObject.ApplicationService.CollectTouched | src/service.rs:2681-2716 | The targets and the fence of a mutation |
| ApplicationServiceObject.ApplicationService.PlanReconcile | src/service.rs:2620-2717 | The plan of a mutation, leaving the published state as it is |
| ApplicationServiceObject.ApplicationService.PublishObserved | src/service.rs:2718-2726 | The publish replaces the observed state and nothing else |
| ApplicationServiceObject.ApplicationService.BumpGenerations | src/service.rs:2378-2394 | Every published id gets a new generation, and its session as it was becomes a target |
| ApplicationServiceObject.ApplicationService.CheckCachedSession | src/service.rs:2835-2863 | The first locked section of `session_for`: uncertain, stale, hit or miss |
| ApplicationServiceObject.ApplicationService.InstallConnected | src/service.rs:2887-2930 | The second: installed with what it displaces, existing, stale or uncertain |
| ApplicationServiceObject.ApplicationService.TakeCachedSessionExact | src/service.rs:2420-2441 | A session is taken exactly when both generations match, and no other is |
| ApplicationServiceObject.ApplicationService.RetagCachedSessionExact | src/service.rs:2462-2478 | Only the profile generation of the very session changes, and only for the same fingerprint |
| ApplicationServiceObject.ApplicationService.EnsureSessionObservation | src/service.rs:2804-2822 | Uncertain, current or stale |
| ApplicationServiceObject.ApplicationService.EvictTargets | src/service.rs:2504-2516 | Of the cache exactly the sessions that some target names are removed, and their handles returned |
| Decimals.TwoPowerChain | src/drivers/redis.rs:577-590 | A chain of squarings bounds 2^100000 |
| Decimals.TwoPowerBelowTenPower | src/drivers/redis.rs:577-590 | 2^100000 < 10^30103 |
| Decimals.TwoPowerFits | src/drivers/redis.rs:577-590 | For every bit count, two to it is at most ten to the quotient the code computes |
| Decimals.UpperBoundHolds | src/drivers/redis.rs:577-590 | For every bit count and every signed number whose magnitude fits in it, the decimal text is no longer than the bound |
| Decimals.UpperBoundMeaning | src/drivers/redis.rs:577-590 | The bound is one for the sign and the least number of digits whose ratio to the bits covers 30103 to 100000; none only where the product leaves the machine word |
| Decimals.DecimalLength | src/drivers/redis.rs:548-558 | A text of d digits is of a number from 10^(d-1) to below 10^d |
| Decimals.DecimalReadsBack | src/config.rs:728-732 | Decimal text reads back to its number, so different numbers have different texts |
| Decimals.DecimalDigits | src/drivers/redis.rs:548-558 | The loop counts the digits of the decimal text |
| Decimals.SignedDecimalDigits | src/drivers/redis.rs:560-571 | The loop counts the characters of the signed decimal text |
| Decimals.BitsMeaning | src/drivers/redis.rs:491-493 | The bit count of a magnitude bounds it from above and below |
| Json.QuotedLength | src/drivers/redis.rs:531-542 | The bytes of a quoted, escaped text are two more than its characters' lengths |
| Json.Base64Length | src/drivers/redis.rs:544-546 | The padded encoding of n bytes has four characters for every three bytes begun |
| Json.ArrayLength | src/drivers/redis.rs:505-515 | Brackets, separators and items |
| Json.ObjectLength | src/drivers/redis.rs:517-529 | Braces, quotes, colons, separators, names and values |
| JsonReader.Base64ReadsBack | src/drivers/redis.rs:665-672 | Decoding the base64 of any bytes by section 4 of RFC 4648 gives the bytes |
| JsonReader.CompactReadsBack | src/drivers/redis.rs:643-677 | Reading the compact text of any document by RFC 8259 gives the document |
| Utf8Reader.Utf8ReadsBack | src/export.rs:185-207 | Reading the bytes of any text by section 3 of RFC 3629 gives the text |
| Utf8Reader.DecodedIsExact | src/export.rs:185-207 | Bytes that read as a text are exactly the bytes of that text |
| Resp.BytesDocumentLength | src/drivers/redis.rs:466-477 | The JSON of a byte string is exactly 47 bytes, its base64 and the digits of its length |
| Resp.PushText | src/drivers/redis.rs:494-497 | A push is exactly 23 bytes around its items |
| Resp.AttributeText | src/drivers/redis.rs:485-489 | An attribute is exactly 23 bytes around its entries and its data |
| Resp.EntryText | src/drivers/redis.rs:523-527 | An entry is charged 17 bytes around its key and value, and that bounds its text |
| Resp.BigNumberBounded | src/drivers/redis.rs:491-493 | Sign, digits and quotes of a big number are within what is charged for it |
| Resp.ChargeBoundsText | src/drivers/redis.rs:457-529 | For every nested reply the bytes charged are at least the bytes of the compact JSON it becomes, and equal to them when it holds no big number |
| RespDocuments.DocumentShows | src/drivers/redis.rs:592-677 | For every reply, to any depth, the document holds it: item i for item i; for pair i an object whose member `key` holds the key and whose member `value` the value; `data`, `attributes` and `type` of attributes and pushes; the very text, truth value or digits of a scalar; the bytes of a byte string in base64 |
| RespDocuments.CellHolds | src/drivers/redis.rs:592-627 | And so does the cell that is made of a reply |
| RespDocuments.CellDocumentMeaning | src/drivers/redis.rs:643-677 | The document of any cell, also of previews and of parts of bytes, which no reply becomes |
| RespDocuments.ReplyReadsBack | src/drivers/redis.rs:457-529 | The JSON text that is charged for a reply reads back to a document that holds the reply |
| RespMeter.JsonStringBytes | src/drivers/redis.rs:531-542 | The loop computes the quoted length, or nothing where it leaves the machine word |
| RespMeter.CompositeMeter.ConsumeNode | src/drivers/redis.rs:423-430 | A node is taken exactly when the depth and the node budget allow it |
| RespMeter.CompositeMeter.AddBytes | src/drivers/redis.rs:432-436 | Bytes are taken exactly when they fit |
| RespMeter.CompositeMeter.MeasureValue | src/drivers/redis.rs:457-503 | Measuring from any state and depth succeeds exactly when the value fits in what is left, and spends exactly its size |
| RespMeter.CompositeMeter.MeasureArray | src/drivers/redis.rs:505-515 | The same for the items of an array |
| RespMeter.CompositeMeter.MeasureEntries | src/drivers/redis.rs:517-529 | The same for the entries of a map |
| RespMeter.SmallValueIsBounded | src/drivers/redis.rs:491-493 | Under the limit of a cell no big number makes the arithmetic fail |
| RespMeter.MeasureComposite | src/drivers/redis.rs:439-455 | An answer exactly when the reply has at most eight levels and its nodes and bytes fit; the answer is its size and bounds the JSON that is then built |
| RedisRows.DecodeBudget.DecodeComposite | src/drivers/redis.rs:352-367 | A composite is kept whole exactly when there is room, at exactly its cost, with no clamp |
| RedisRows.DecodeBudget.DecodeScalar | src/drivers/redis.rs:369-395 | A scalar is kept whole, kept to be cut short, or refused, each exactly where the code says so |
| RedisRows.ArrayRows | src/drivers/redis.rs:305-321 | The rows are the decodings of a prefix, ended exactly where the budget or the limit ends it |
| RedisRows.ValueRows | src/drivers/redis.rs:298-332 | For every reply and limit: rows are a prefix's decodings within the limit; nodes are within the cell limit; all but a final value that can be cut are within the byte limit; the flag is false exactly when every value was decoded completely |
| RedisRows.PrefixIsWhole | src/drivers/redis.rs:305-321 | A prefix of values that fit fits |
| RedisRows.ChargeCoversRetention | src/drivers/redis.rs:397-413 | What a value is charged covers what its cell counts for in a snapshot, except exactly for `true` and for a double with a longer display |
| RedisLaws.RowsShowTheReply | src/drivers/redis.rs:298-332 | The rows of a reply hold its first items, one a row and in order, or the reply itself; all of it where the flag is down |
| RedisLaws.PreviewableMeaning | src/drivers/redis.rs:397-413 | A value may be cut exactly if its cell is text or bytes that the server sent |
| RedisLaws.ScalarCharge | src/drivers/redis.rs:397-413 | A scalar is charged the bytes of its text, of the bytes it is, or of its JSON; a big number the bound from its bits, which covers its text |
| RedisLaws.ScalarCellBytes | src/model.rs:2196-2207 | A number or null counts for the bytes of its JSON, and a truth value for those of the longer of the two |
| RedisLaws.HeldCellBytes | src/model.rs:2196-2207 | A cell counts for the UTF-8 bytes of its text or JSON, or for the bytes it holds |
| RedisLaws.CompleteMeaning | src/drivers/redis.rs:298-332 | Nothing is missing exactly where no more values came than were asked for, each of at most 64 KiB and eight levels, and all together of at most ten thousand nodes and 8 MiB |
| RedisLaws.MarksOfParts | src/drivers/redis.rs:491-493 | A charge is exact for precisely the replies with no big number in them, to any depth, and within the word for those whose big numbers are |
| RedisLaws.SizeOfParts | src/drivers/redis.rs:457-529 | The nodes of a reply are one and those of its parts, keys and values among them; its levels are one and those of its deepest part |
| CellRetention.CutMeaning | src/model.rs:2150-2159 | The cut is the longest prefix within the cap: a prefix, and one character more would not fit |
| CellRetention.CutWhole | src/model.rs:2150-2159 | Text is left alone exactly when it fits |
| CellRetention.TruncateUtf8 | src/model.rs:2150-2159 | Stepping back to a character boundary finds that longest prefix |
| CellRetention.ShallowLevels | src/model.rs:2161-2194 | The depth cut leaves at most the levels allowed, and leaves alone exactly the documents with no more |
| CellRetention.ShallowIsShorter | src/model.rs:2161-2194 | The depth cut never lengthens the text |
| CellRetention.ShallowIsCut | src/model.rs:2161-2194 | At every place of the document: above the last level all is as it was, at the last level scalars stay and arrays and objects are empty, below it there is nothing |
| CellRetention.TruncateJsonDepth | src/model.rs:2161-2194 | The recursion computes the cut, and reports exactly whether anything was cut |
| RetainedCells.RetainTextCell | src/model.rs:2098-2131 | The retained text cell with its record |
| RetainedCells.RetainCell | src/model.rs:1982-2096 | The retained cell for every kind of cell |
| RetainedCells.KeptMeaning | src/model.rs:1982-2148 | For every cell: refused exactly for a decimal or date that does not fit; counted as what it is; within the cap unless a number, truth value or null; recorded as cut exactly where a preview is kept, with an original length no shorter; kept as it was where it is not cut; and where it is, the longest beginning that fits: of the text, of the bytes, or of the compact text of the document cut at the depth |
| ResultSnapshot.NoticesFit | src/model.rs:2210-2214 | Notices without repetition never reach the limit on their number |
| ResultSnapshot.PushNotice | src/model.rs:2210-2214 | A notice is added once and none is lost |
| ResultSnapshot.ColumnBytesMeaning | src/model.rs:1853-1854 | A column counts for the UTF-8 bytes of its name and of its type |
| ResultSnapshot.RetainColumns | src/model.rs:1850-1865 | The columns kept are the longest prefix the limits admit |
| ResultSnapshot.RetainRow | src/model.rs:1901-1930 | The inner loop keeps cells one by one until one does not fit |
| ResultSnapshot.RetainRows | src/model.rs:1878-1947 | The outer loop keeps the longest prefix of rows that fit whole, and undoes every trace of the row it drops |
| ResultSnapshot.Retain | src/model.rs:1825-1972 | The snapshot of every result under every policy |
| SnapshotTheorems.SnapshotIsBounded | src/model.rs:1825-1972 | The byte count is that of columns and cells and within the limit; rows are a prefix, all of full width, within the row and cell limits |
| SnapshotTheorems.CellsAreImages | src/model.rs:1901-1930 | Every cell is what `retain_cell` makes of the source cell at its place under the space its predecessors leave |
| SnapshotTheorems.CellsHoldTheirContent | src/model.rs:1901-1930 | Every cell of a snapshot holds the content of the source cell at its place: whole where it fits the cap of a cell and what is left of the result, else the longest beginning that does |
| SnapshotTheorems.RowsEndForAReason | src/model.rs:1878-1947 | Where rows are missing that were asked for, the next one is too short, or does not fit in the cells left, or has a first cell that cannot be kept in the bytes left behind the cells before it |
| SnapshotTheorems.CutsAreRecorded | src/model.rs:1921-1945 | The record of cuts is strictly in order and names exactly the previews, each with its kept and original length |
| SnapshotTheorems.TruncatedMeaning | src/model.rs:1866-1952 | Marked truncated exactly when the driver said so, or a column, a row, a cell of a row or a part of a cell is missing |
| SnapshotTheorems.UntruncatedIsWhole | src/model.rs:1866-1952 | A snapshot not marked truncated is its source, where byte cells are well formed |
| SnapshotTheorems.NoticesMeaning | src/model.rs:1841-1958 | Each notice is given exactly under its condition (`CellPreviewTruncated` exactly when the record of cuts is not empty, the depth notice exactly when a document at a retained place has too many levels), through all rollbacks |
| MysqlScanner.QuotedSpan | src/execution.rs:510-548 | The loop finds the end of quoted text and whether it depends on the SQL mode |
| MysqlScanner.ScanMysql | src/execution.rs:402-486 | The loop, for every text, ends and finds what reading token by token finds |
| MysqlStatements.StatementsAreApart | src/execution.rs:402-486 | Statements are ordered, disjoint and not empty, and begin and end with other than white space; what is left open begins behind the last |
| MysqlStatements.EveryTokenIsCovered | src/execution.rs:402-486 | Every token before what is left open is blank, lies in a statement, or is a stray terminator; and there is one of those exactly when the scan says so |
| MysqlStatements.EveryCharacterIsCovered | src/execution.rs:402-486 | For every text, each character before what is left open is white space, lies in a plain comment, lies in exactly one statement, or is a terminator that ends nothing |
| MysqlStatements.OneStatementAtTheCaret | src/execution.rs:611-614 | At most one statement contains the caret |
| MysqlStatements.CutToken | src/execution.rs:488-548 | A token cut off behind its end is the same token, whatever followed it |
| MysqlLaws.SpanClosing | src/execution.rs:510-548 | For any text, the runs and skips of the scanner end quoted text at the delimiter that ends it when read character by character |
| MysqlLaws.SpanFlag | src/execution.rs:510-548 | Quoted text is flagged exactly where one of its delimiters, the first included and backticks apart, is behind an odd number of backslashes |
| MysqlLaws.LexIsToken | src/execution.rs:402-508 | The token at any place, by its characters alone: a line comment is a `#`, or two dashes before white space or a control character or at the end, up to the line break; a block comment ends at the first `*/` behind its opening; quoted text at its delimiter; else one character |
| MysqlLaws.WhitespaceMeaning | src/execution.rs:402-486 | White space is the 25 characters of the Unicode property |
| MysqlLaws.FlaggedStatements | src/execution.rs:434-457 | A statement is flagged exactly if quoted text in it is |
| MysqlLaws.IssueMeaning | src/execution.rs:402-486 | Something is left open exactly where a comment or quoted text does not close; it begins with the first executable token behind the last terminator and is flagged exactly where quoted text from there on is doubtful |
| MysqlTargets.ValidateSelection | src/execution.rs:567-580 | The error of a selection, or none exactly for one whole statement |
| MysqlTargets.InferenceMeaning | src/execution.rs:582-609 | Inference succeeds exactly when an unflagged statement contains the caret, with that statement; the position error cannot occur |
| MysqlLaws.StatementAtTheCaret | src/execution.rs:582-614 | For every text and caret: in a statement from its first character up to before its end, or at its end where the text ends, the answer is the text of that statement, or that it is flagged; in none it is an error, and which |
| MysqlLaws.SelectionMeaning | src/execution.rs:567-580 | A selection is refused as left open, as empty, as more than one statement or with a stray terminator, in this order, and accepted otherwise |
| MysqlLaws.ExtractionMeaning | src/execution.rs:290-330 | What the editor sends, by positions alone: the limits are checked, then the caret, then the range; a selection is trimmed of white space and nothing else |
| MysqlTargets.InferredIsAccepted | src/execution.rs:582-609 | For every text and caret, what is inferred is fixed by trimming and accepted unchanged as exactly one statement, with nothing left open and no stray terminator |
| MysqlTargets.ServedIsExtracted | src/service.rs:3022-3048 | The service accepts whatever the editor extracts, from a caret or a selection, and runs precisely that |
| MysqlTargets.SpanInBothModes | src/execution.rs:510-548 | Quoted text that is not flagged ends in the same place whether or not backslashes escape |
| MysqlTargets.UnflaggedMeansTheSameInBothModes | src/execution.rs:434-457 | Where nothing is left open and no statement is flagged, reading backslashes in single and double quotes as ordinary characters finds the very same statements |
| Catalog.CatalogRetention.CurrentCounts | src/drivers/mysql_catalog.rs:553-563 | The counts with the largest count by relation |
| Catalog.CatalogRetention.RetainOne | src/drivers/mysql_catalog.rs:627-657 | A node is accepted when new and within every cap, and refused exactly for a cap |
| Catalog.CatalogRetention.Retain | src/drivers/mysql_catalog.rs:503-519 | The nodes accepted, the new state, and whether any was refused; a refusal does not stop the loop |
| Catalog.CatalogRetention.Remove | src/drivers/mysql_catalog.rs:521-551 | The new state after removing a list |
| CatalogRecount.AddedIsDescribed | src/drivers/mysql_catalog.rs:627-657 | Retaining keeps counts, counts by relation and bytes equal to a recount, within the caps |
| CatalogRecount.DroppedIsDescribed | src/drivers/mysql_catalog.rs:521-551 | So does removing, and no `saturating_sub` clamps |
| CatalogRecount.KeptIsDescribed | src/drivers/mysql_catalog.rs:503-519 | So does retaining a list; what is accepted is new and different |
| CatalogRecount.DroppedAllIsDescribed | src/drivers/mysql_catalog.rs:521-551 | So does removing a list |
| CatalogSelection.SelectedMeaning | src/drivers/mysql_catalog.rs:503-519 | For any list, the node at a position is kept exactly when its identity is not kept before it and there is room for it there |
| CatalogSelection.FirstIsSelected | src/drivers/mysql_catalog.rs:503-519 | Where there was room, the nodes kept are the first ones of their identities |
| CatalogLaws.NodeBytesMeaning | src/drivers/mysql_catalog.rs:666-671 | A node counts for the UTF-8 bytes of its name and of its type |
| CatalogLaws.RoomMeaning | src/drivers/mysql_catalog.rs:595-625 | A node is refused exactly if it is new and a recount with it beside the nodes held would exceed a cap |
| CatalogLaws.CheckpointMeaning | src/drivers/mysql_catalog.rs:569-593 | A checkpoint is refused exactly for a number above its cap or for columns without a relation, and else restores just its numbers |
| CatalogTokens.TokenRoundTrip | src/drivers/mysql_catalog.rs:1013-1109 | Every emitted token decodes, for its request, to what was encoded |
| CatalogLaws.AcceptedToken | src/drivers/mysql_catalog.rs:1054-1109 | A token is accepted only if it is a payload under its own signature, of this version, for this profile, generation, branch, prefix and page size, with an ordinal exactly for columns and a checkpoint that is not refused; and it says what its payload says |
| CatalogPages.FinishPage | src/drivers/mysql_catalog.rs:952-1011 | The page from what was fetched and what the token carried |
| CatalogPages.FetchResumes | src/drivers/mysql_catalog.rs:446-475 | The query conditions resume a listing exactly behind the last node of the page before |
| CatalogLaws.OrderMeaning | src/drivers/mysql_catalog.rs:446-475 | The first page begins with any node; a listing goes on by the bytes of the names, columns by their ordinals and by the bytes of the names only among equal ones |
| CatalogLaws.LessBytesMeaning | src/drivers/mysql_catalog.rs:446-475 | Bytes come before others exactly if those go on where they end, or are greater where they first differ |
| CatalogLaws.AnswerMeaning | src/drivers/mysql_catalog.rs:988-1011 | A page names the operation, the level and the parent of its request, and has no more nodes than were asked for |
| CatalogChains.CheckpointRestores | src/drivers/mysql_catalog.rs:569-593 | A checkpoint is never refused and restores the counters of the retention it was taken from |
| CatalogChains.KeptAllAlike | src/drivers/mysql_catalog.rs:595-657 | A restored retention decides about new nodes as the original would |
| CatalogChains.PageOfChain | src/drivers/mysql_catalog.rs:952-1011 | A page asked for with a token is the page of one uninterrupted retention, truncated exactly where that refuses a node of it or the one after it |
| CatalogChains.TokenCarries | src/drivers/mysql_catalog.rs:977-986 | The token of a page carries the counts and bytes of everything up to it |
| CatalogChains.ContinuedPagesAreAPrefix | src/drivers/mysql_catalog.rs:952-1011 | For any requests, each with the token of the page before: continued pages concatenate to a prefix of the listing without gap or repetition |
| CatalogChains.CheckpointsAreUninterrupted | src/drivers/mysql_catalog.rs:569-593 | The counts and bytes of every page are those of one uninterrupted retention |
| CatalogChains.NextInChain | src/drivers/mysql_catalog.rs:736-760 | A request with the token of a page is answered exactly if it lists what the first one listed, under whatever operation id, and then with the page that follows |
| CatalogChains.EndedChainIsWhole | src/drivers/mysql_catalog.rs:952-1011 | A chain that ends has returned the whole listing unless truncated, and is truncated exactly where one retention of the listing would refuse a node |
| CatalogChains.ChainGoesOn | src/drivers/mysql_catalog.rs:1054-1109 | A request with the last token is answered, and its page continues the chain, exactly if it lists the same thing |
| MysqlExplorer.EventKeepsCounts | src/ui/mysql_explorer.rs:90-156 | Every event keeps the retention equal to a recount of the nodes shown |
| MysqlExplorer.CountsAgreeAfterAnyEvents | src/ui/mysql_explorer.rs:90-156 | After any events no identity is shown twice, and counts, counts by relation and bytes are those of the nodes shown, within every cap |
| MysqlExplorer.LoadShowsThePage | src/ui/mysql_explorer.rs:101-132 | For any page, also one that repeats nodes or has nodes of other branches: after a refresh alone, when appended behind the earlier nodes, exactly those of its nodes are shown, in order, that are shown nowhere else, are not shown from earlier in the page and have room; where all have room, the first of each identity not shown elsewhere. The branch is truncated exactly where the page was or a node has no room; no other branch changes; there is a continuation exactly where the page answers a pending request, has a token and leaves the branch untruncated, and it is that request with that token |
| MysqlExplorer.LoadMissesNothing | src/ui/mysql_explorer.rs:101-132 | After a load that is not truncated every identity of the page is shown in some branch |
| MysqlExplorer.RefreshNeverClamps | src/ui/mysql_explorer.rs:118-120 | Every node a refresh removes was counted, so no subtraction clamps |
| ExplorerLaws.AnswerIsShown | src/ui/mysql_explorer.rs:90-132 | After any events: the answer to a request that was submitted with a page token leaves all the branch showed before and puts nodes of the page behind it; to one submitted without a token, only nodes of the page are shown. No other branch changes, and the continuation is exact |
| ExplorerLaws.ChainIsShown | src/ui/mysql_explorer.rs:90-132 | From an empty explorer, submitting and loading any number of pages of a chain, none truncated, shows exactly the listing from its start to the last of these pages, and nothing in any other branch |
| ExplorerLaws.BranchOfPage | src/ui/mysql_explorer.rs:28-40 | A page belongs to the branch whose nodes it lists, and to none if level and parent do not match |
| ExplorerLaws.SubmitMeaning | src/ui/mysql_explorer.rs:90-99 | A submit waits for its answer, forgets the error and changes nothing that is shown |
| ExplorerLaws.FailMeaning | src/ui/mysql_explorer.rs:134-142 | A failure leaves everything shown, marks its branch stale and keeps its request for another try |
| ExplorerLaws.TakenPage | src/ui/mysql_explorer.rs:101-132 | A page that is taken settles what was pending, to be tried again, or wrong |
| ExplorerLaws.ForgetMeaning | src/ui/mysql_explorer.rs:144-156 | Dismissing the error changes nothing else; clearing leaves nothing |
| ExplorerLaws.StrayPage | src/ui/mysql_explorer.rs:101-116 | A page of another level than was asked for, or of no branch, changes nothing but what is awaited |
| MysqlExplorer.MySqlExplorerState.MarkSubmitted | src/ui/mysql_explorer.rs:90-99 | The request becomes pending and the error goes |
| MysqlExplorer.MySqlExplorerState.HandleLoaded | src/ui/mysql_explorer.rs:101-132 | The whole new state: replaced or extended branch, retention, continuation and flags, or nothing for a page that fits no branch |
| MysqlExplorer.MySqlExplorerState.HandleFailed | src/ui/mysql_explorer.rs:134-142 | The branch is kept and marked stale, and the request can be tried again |
| MysqlExplorer.MySqlExplorerState.ClearAll | src/ui/mysql_explorer.rs:144-152 | Everything is as at the start |
| ProfileIds.SlugifyProfileId | src/service.rs:3292-3311 | The runs of letters and digits in lower case joined by hyphens, and always a valid id |
| ProfileIds.SuffixIsBounded | src/config.rs:722-734 | The pigeonhole: base and earlier candidates cannot all be taken beyond the number of profiles |
| ProfileIds.AllocateProfileId | src/config.rs:722-734 | Ends within one try more than there are profiles, with the base if free and else the base, a hyphen and the least free number from 2 in decimal; valid if the base is |
| ProfileIds.IdForName | src/service.rs:1532-1538 | From any display name an id that is new and accepted by `valid_profile_id` |
| ConfigLaws.SlugMeaning | src/service.rs:3292-3311 | A run of letters and digits becomes itself in lower case; anything else separates, with one hyphen where letters or digits are on both sides and nothing elsewhere; without any the id is `connection`. This determines the id of every name |
| ConfigLaws.IdMeaning | src/service.rs:3436-3444 | An id is accepted exactly if it begins with an ASCII letter or digit and has only these, dots, underscores and hyphens |
| ConfigMutations.ApplyMutation | src/config.rs:657-720 | One profile added under a free id, exactly the expected one replaced or removed; each error exactly under its condition |
| ConfigLaws.IdentityMeaning | src/service.rs:3226-3235 | A config is accepted exactly if all its ids are valid and each profile is the one found under its id |
| ConfigLaws.CheckMeaning | src/service.rs:3237-3273 | A mutation is refused before anything is read of it exactly if what it writes does not pass the checks or the ids it names differ |
| ConfigLaws.MutationMeaning | src/config.rs:657-720 | A mutation adds, replaces or removes the one profile it names: the profiles with other ids stay, in their order; a new one is last under an id that was free; a replaced one keeps its place and was exactly the expected one; and what is written has passed the checks |
| ConfigLaws.FailureMeaning | src/config.rs:657-720 | Each error exactly under its condition, by what is found under the id |
| ConfigWriter.ConfigWriter.LoadPath | src/config.rs:602-641 | What the main file says, an empty config of version 2 without one, or the error for why it cannot be read |
| ConfigWriter.ConfigWriter.StageBackup | src/config.rs:396-434 | Whatever fails, the main file and an existing backup stay; it succeeds exactly if none of its operations fails, or if another process has put the very backup there, and then the backup is exactly the original |
| ConfigWriter.ConfigWriter.MakeBackup | src/config.rs:396-434 | The same from opening the directory to its sync, with a temporary file whose name must be free and which is gone at the end |
| ConfigWriter.ConfigWriter.WriteBackup | src/config.rs:372-434 | A backup that is there is left alone and accepted exactly if it is a plain copy; one that is not is made |
| ConfigWriter.ConfigWriter.StageMain | src/config.rs:445-475 | The rename happens exactly if no operation up to it fails and the main file still holds the bytes that were read; it puts the whole new text in place |
| ConfigWriter.ConfigWriter.WriteMain | src/config.rs:436-488 | An error leaves the main file; it succeeds exactly if no operation up to the rename fails, the temporary name is free and the main file is as it was read, and then it is the new text; committed exactly if the syncs after it did not fail |
| ConfigWriter.ConfigWriter.MutatePath | src/config.rs:299-336 | For every fault: in every state the disk passes through, the main file is old or whole and new, and new only when, for version 1, the backup holds the original; an error leaves the main file as it was and no temporary file, and names a stage that failed or the reason there was; success means it is exactly the encoding of the mutated config; and, where the names of temporary files are free and the new config can be encoded, it succeeds exactly if the config can be read and is valid, the mutation passes its check and applies, and no operation up to the rename fails or is interfered with |
| ExportText.CsvReadsBack | src/export.rs:159-207 | For every grid with a column, reading the CSV by section 2 of RFC 4180 gives the grid |
| ExportText.QuotedWhereNeeded | src/export.rs:185-207 | A CSV field is quoted exactly where it has a comma, a quote or a line break, and is its own text otherwise |
| ExportText.TsvReadsBack | src/export.rs:209-233 | For every grid with a column, splitting the TSV and unescaping gives the grid |
| ExportText.TsvFieldReadsBack | src/export.rs:74-86 | Unescaping an escaped field gives the field |
| ExportText.TsvFieldIsPlain | src/export.rs:74-86 | An escaped field has no tab and no line break |
| ExportText.EscapeTsv | src/export.rs:74-86 | The loop escapes each character |
| ExportWriter.StreamingWriter.Write | src/export.rs:141-148 | At most one chunk, of which the sink takes what it will; nothing when cancelled, interrupted or failed, and which of these is said |
| ExportWriter.StreamingWriter.WriteText | src/export.rs:136-157 | For any sink, with any interruptions, which are repeated: the whole text on success, a prefix of it otherwise; it fails exactly where a write is cancelled, fails or takes nothing, and asks for no more then |
| ExportWriter.StreamingWriter.WriteCsvField | src/export.rs:185-207 | The same for a field, whose quotes are doubled piece by piece |
| ExportTable.WriteTable | src/export.rs:159-233 | The whole text, the text before a row of the wrong width, or the part before the writer stopped |
| ExportTable.WriteExport | src/export.rs:96-118 | The same for an export. It says that it was cancelled exactly where its last write was, that it failed exactly where that failed or took nothing, and no earlier write did; the bytes of one that succeeds read back as the table |
| ExportTable.ExportReadsBack | src/export.rs:159-233 | The bytes a successful export left in the sink, decoded as UTF-8 and read as CSV or TSV, are the column names and the texts of the cells |
| ExportTable.PartReadsBack | src/export.rs:172-181 | The bytes left before a row of the wrong width read back as the column names and the rows before it |

## Left out

- Live drivers, TLS, timeouts and the network: connecting is a step that returns a new handle or fails.
- Secrets, credentials and draft sessions of the service: they are beside the protocol of generations and sessions.
- Wrap-around of the generation, session and result counters: fewer than 2^64 allocations are assumed.
- `ok_or(ConfigUncertain)` in `reconcile_after_mutation` after the loop: proved unreachable rather than modelled further.
- The result's provenance, elapsed time and transient-allocation tag: copied through unchanged.
- Redis arms of `extract_and_validate_target`, the deny and read-only lists and `shell_words`: an external parser and
  fixed tables.
- ExportWriter.StreamingWriter.WriteText: a sink that interrupts every write from some point on is not modelled, as
  `write_all` then never returns; neither is `flush`.
- JSON export and the canonical forms of floats, decimals, dates and documents: the text of a cell is a parameter.
- ConfigWriter.ConfigWriter.MutatePath: the process-wide writer lock is not modelled; the recheck and the rename are two
  system calls with nothing of another process between them, as the writer itself does not claim more.
- The private-file checks of a backup are one flag of the file; directories and symbolic links are not modelled.
- Checks of a profile other than of its id: a parameter of the format.
- The prefix filter of a catalog listing: the listing is what is left after it. Request timeouts are not modelled.
- The explorer's expanded rows, name filter and drawing.
- `src/export_file.rs` and the token-key file repeat the staged commit of the config writer.
- `src/drivers/redis_browser.rs` and the row budget of `src/drivers/mysql.rs`: simpler capped sums.
