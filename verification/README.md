# QWBE core: a verified model

QWBE keeps its data as JSON rows in PostgreSQL, one schema per cube, and serves them through one
generic list. This project models that core in Dafny and proves what it promises. Three groups of
modules follow the program's own structure.

**Lists and stores.** A list query is normalised to a page request and a filter (`Pagination`), the
filter is compiled to an SQL predicate (`Filters`, `Like`), rows are ordered by byte-comparable keys
that the store computes and keeps in `_sort` (`Doubles`, `SortKeys`, `Rows`, `Pages`), and the kernel
narrows the request to the ids an actor may see (`Mediation`). The test tools read the same filters
in memory (`Memory`). Inserts, updates and raw batches are atomic steps on a table, its outbox and
its activity log (`CustomValues`, `Diff`, `Store`, `History`, `Batch`). A background walk repairs
stale keys while other writers run (`Rekey`). The main results are statements about whole listings,
whole runs and every interleaving.

**Boot.** Declared data migrations are checked against the kernel's own ledger (`Ownership`) and
carried out as a batch of schema renames with rollback (`SchemaNames`, `Migrate`).

**Packages.** A package source is judged by a comment stripper (`Lexer`), walked and copied (`Trees`),
fingerprinted and compared (`Fingerprints`), and staged and installed with rollback (`Installer`).

`Wrappers`, `Text`, `Strings`, `Listings` and `JsonValues` hold what the components share. What the
platform decides (text folding, JSON and timestamp rendering, collations, hashes, date parsing,
manifest decoding) enters as function parameters, so every result holds whatever they are. Schema
renames, file copies, removals and the replacing of the ledger take their failures from a parameter,
so every result about them holds for every pattern of failures.

Where the code does not do what one would expect, it is modelled as it is and the exact condition is
proved:

- The in-memory store of the test tools reads a filter as if its ranges were not there (`Memory.MemoryFinds`, `Memory.BareRange`).
- `deleted` compared with anything but `true` and `false` selects the live rows (`Filters.EqualsMeaning`, `Memory.DeletedMisspelled`).
- A blank `ids` parameter means "nothing" to the mediation and "no filter" to the list, and a derived offset above the
  safe integers comes back clamped (`Mediation.MediatedExactly`). A visible id with a comma or outer blanks is read back
  as other ids. Hidden rows reached that way are never answered, because a page that shows one is a defect, but they are
  counted: the total of a page that shows none of them includes them (`Mediation.AnyIdsMediation`,
  `Mediation.HiddenRowsExactly`, `Mediation.HiddenRowCounted`).
- A write that edits a row it leaves deleted is stored but not recorded (`History.UpdateReplayExact`, `History.EditedDelete`).
- Two migrations with one source or one destination pass the preflight, and the batch then fails at the second rename
  (`Migrate.PlanCompletes`, `Migrate.MigrateDataSchemas`).
- A row whose `custom` is over the caps already, as a raw batch can leave it, refuses every update that says nothing
  about `custom` (`Store.RefusedExactly`).
- A package that mounts a cube under the name another one migrated from takes its record over
  (`Ownership.BootSettledExactly`, `Ownership.TakeoverHappens`).
- A boot that fails puts the trusted ledger back; when that fails too, what package code left of the file stays
  (`Ownership.Provenance.Boot`).
- The cube name read back from a schema is wrong when the name has `--` or `-/` (`SchemaNames.CubeNameRoundTrip`).
- The ledger accepts at writing what it refuses at reading: a migration source not spelled like a cube
  identity, granted by the operator, stops the next boot (`Ownership.ReadableNext`, `Ownership.UnreadableNext`).
- A source that carries a top-level `qwbe-source.json` reads as drifted as soon as it is staged, and is
  refused as different content when staged again (`Fingerprints.FreshShelfInSync`, `Installer.StagedAgain`).
- When the staging directory cannot be removed after publication, the operation fails and the shelf stays
  (`Installer.Store.Publish`, `Installer.Store.StageAndInstall`).
- A fingerprint reads through symbolic links, so a link to a file with the same bytes is not a change, and
  a newline in a name can hide one (`Fingerprints.NewlineConfuses`).

## Model

| member | source | states |
|---|---|---|
| Doubles.MagnitudeOrder | core/src/kernel/sort-key.ts:27-38 | Among finite doubles read by section 3.4 of IEEE 754-2019, magnitudes compare as the bit patterns without the sign do: exponent first, then fraction, subnormals included. |
| SortKeys.ComputeNumberKey | core/src/kernel/sort-key.ts:28-38 | The in-place buffer version, word by word, spells exactly the key the order results are about. |
| SortKeys.HexOrder | core/src/kernel/sort-key.ts:25 | Hexadecimal text compares byte for byte as the bytes it spells, both ways. |
| SortKeys.NumberKeyOrder | core/src/kernel/sort-key.ts:27-38 | For any two doubles that are not NaN, the keys compare as the numbers do in both directions, and are equal exactly when the values are (the two zeros share a key). |
| SortKeys.SortKeyOrder | core/src/kernel/sort-key.ts:43-51 | Two stored keys compare as missing < null < false < true < numbers by value < text by the first difference within its first 32 folded bytes, a string by its own text and an array or object by its JSON text, in both directions. |
| SortKeys.KeysSpelled | core/src/kernel/sort-key.ts:23-51 | The keys themselves: `0` for null, `10` and `11`, `2bff0000000000000` for the number 1, and for a string `3` and two lower-case hexadecimal digits for each of its first 32 folded bytes. |
| SortKeys.FreshSpelled | core/src/kernel/sort-key.ts:60-64 | Up-to-date keys are an object with version 1 and one key for exactly each sortable field present, or no object at all when none is: keys without a version or with another one are stale. |
| SortKeys.WithSortKeysFresh | core/src/kernel/sort-key.ts:66-71 | Whatever `_sort` a caller sent, the stored body's keys are the ones its fields give, absent when it has no sortable field, and nothing else in it changed. |
| SortKeys.KeysIgnoreSort | core/src/kernel/sort-key.ts:60-71 | Two bodies that agree outside `_sort` have the same keys. |
| SortKeys.FreshStoredKey | core/src/pg/rows.ts:129-134 | On an up-to-date body, the expression a sorted page orders by is the key of the value stored under that field, or none when the field is missing. |
| Like.EscapedPrefix | core/src/pg/rows.ts:163-172 | Under the LIKE rules of section 9.7.1 of the PostgreSQL documentation, the escaped text followed by `%` matches exactly the values whose folded beginning is the folded text, wildcards and backslashes included. |
| Filters.BuildFlatConditions | core/src/pg/rows.ts:175-194 | The pushing loop produces the predicates of the equalities, ids, sets, range and search, in that order. |
| Filters.BuildConditions | core/src/pg/rows.ts:175-207 | The whole list of conditions, with alternatives and negation, is the one the meaning results are about. |
| Filters.BuildGroup | core/src/pg/rows.ts:209-212 | A group is TRUE when empty and the conjunction of its conditions otherwise, at any nesting. |
| Filters.EqualsMeaning | core/src/pg/rows.ts:142-159 | The equality predicates are all TRUE exactly when every pair holds: a field's text equals the value, and a missing field never does; `deleted` is the boolean that the value `true` asks for and any other value denies. |
| Filters.InMeaning | core/src/pg/rows.ts:181-186 | The set predicates are all TRUE exactly when each field has a text and it is in its set; an empty set matches nothing. |
| Filters.RangeMeaning | core/src/pg/rows.ts:187-191 | The bound predicates are all TRUE exactly when the field's text lies within the given bounds in byte order. |
| Filters.SearchMeaning | core/src/pg/rows.ts:165-172 | The OR of search branches is TRUE exactly when some searched field begins with the text. |
| Filters.GroupMeaning | core/src/pg/rows.ts:209-212 | In three-valued logic a compiled group evaluates to TRUE exactly when the plain boolean reading of it holds. |
| Filters.ConditionsMeaning | core/src/pg/rows.ts:174-207 | Every filter, nested to any depth: all compiled conditions are TRUE exactly when the boolean reading holds, including rows missing a field under `not`, empty ids, sets and alternatives, and empty groups. |
| Filters.SelectsMeaning | core/src/pg/rows.ts:214-222 | A page or lookup statement returns exactly the live rows the plain reading accepts. |
| Filters.PairsMeaning | core/src/pg/rows.ts:214-222 | A filter given as an array of pairs selects exactly the live rows on which every pair holds, and one given as a single pair those on which that pair does. |
| Filters.IdsNarrow | core/src/pg/rows.ts:178-180 | Adding an ids condition selects exactly the previously selected rows among those ids. |
| Memory.SameTextExactly | core/src/test-cube-tools.ts:39-44 | A field of a row reads as one text in both stores exactly when the two renderers agree on it: always for strings, nulls and missing fields, and never for the reserved keys, which only SQL sees. |
| Memory.MemoryReads | core/src/test-cube-tools.ts:21-62 | The in-memory reading of a filter, nested to any depth, over row objects with its own rendering and lower case, is the boolean reading of the filter with every range taken out. |
| Memory.MemoryFinds | core/src/test-cube-tools.ts:64-73 | The in-memory lookups find exactly the rows the SQL statement selects for the filter with every range, at any depth, taken out, where the renderers agree on the fields named, lower case goes character by character and `deleted` is spelled `true` or `false`. |
| Memory.PairsFound | core/src/test-cube-tools.ts:21-73 | In memory too, an array of pairs finds the live objects with all of those texts, and a single pair those with that text. |
| Memory.MemoryAgrees | core/src/test-cube-tools.ts:14-31 | So without a range the two stores agree on the row. |
| Memory.BareRange | core/src/test-cube-tools.ts:21-31 | With one they do not: on a row that lacks the field, a bare range is found in memory and not selected by SQL, and the other way round under `not`. |
| Memory.DeletedMisspelled | core/src/pg/rows.ts:155-156 | A third spelling of `deleted` selects every live row in SQL and finds none in memory. |
| Pagination.Normalise | core/src/kernel/pagination.ts:129-144 | The limit lies between 1 and 200, the offset is never negative, and a sort field is the one asked for and survives only when it is shaped like a field name. |
| Pagination.AskedSize | core/src/kernel/list.ts:57-64 | `pageSize` before `limit`, cut to a whole number between 1 and 200, and 25 when it is no finite number; with neither, a batch of ids is its own size up to the cap, and otherwise the page is 25. |
| Pagination.AskedOffset | core/src/kernel/pagination.ts:122-135 | Where a page starts, for every query: at 0 when neither page nor offset is given or the offset is negative or no finite number, at the whole part of any other offset up to the largest safe integer, and with a page number after the pages before it, the first page for a number below 1 or not finite. |
| Pagination.AskedPlace | core/src/kernel/list.ts:65-75 | `sort` names the field and, after a colon, the direction, descending exactly when it says `desc`; without it `sortBy` and `descending` do; a field that is not a letter or underscore followed by letters, digits and underscores sorts by nothing. |
| Pagination.AskedPairsExactly | core/src/kernel/list.ts:84-86 | The equalities are exactly the declared filter fields the query gives a non-blank value. |
| Pagination.QueryMeaning | core/src/kernel/list.ts:78-95 | From query string to rows: the statement returns exactly the live rows that meet every declared filter given a value, the ids if any and the search if any. |
| Pages.AtPageRequest | core/src/kernel/pagination.ts:129-135 | Asking for a page number moves the offset to that many capped limits and changes nothing else. |
| Rows.RowOrderTotal | core/src/pg/rows.ts:115-137 | Every ORDER BY of a page is a strict total order on the rows: paging never meets a tie. |
| Pages.PagesCoverListing | core/src/kernel/list.ts:55-138 | On an unchanged table, pages 1 to ceil(total/limit) concatenate to exactly the ordered list of matching live rows, for any filter, sort and asked size; the last of them has a row and the next page is empty. |
| Pages.PageIsSlice | core/src/pg/store.ts:134-154 | The answer to any query holds exactly the listing's rows from the offset on, up to the limit, with the size of the whole listing, the offset and limit applied, and the name of the meta column or declared field it was sorted by. |
| Pages.PlainList | core/src/kernel/list.ts:55-76 | Asked for nothing but filters, the answer is the first 25 rows of the listing, oldest first, ties by id, and says so. |
| Pages.WalkedOnce | core/src/pg/store.ts:134-154 | That list holds each matching live row once and nothing else. |
| Pages.DescendingReverses | core/src/pg/rows.ts:121-136 | The descending listing is the ascending one read backwards, for every sort term. |
| Pages.SortedPage | core/src/pg/rows.ts:125-136 | A request sorted by a declared field, on a table with up-to-date keys, is answered with a page that names that field and whose rows run through its values, ties by id, in the direction asked for. |
| Pages.DirectionReverses | core/src/kernel/list.ts:65-75 | Asked with `:desc`, a query walks exactly the reverse of the list it walks without. |
| Pages.SortedByValue | core/src/pg/rows.ts:129-136 | With up-to-date keys, a listing sorted by a declared field runs through the values stored there, ties by id. |
| Pages.SortedByMeta | core/src/pg/rows.ts:124-128 | A listing sorted by a meta column runs through that column, ties by id; asked by nothing or by an undeclared field it runs through creation time. |
| Mediation.Gate.MediateList | core/src/entity-enforcement.ts:152-185 | One handler call and at most one audit row: the answer and the audit trail are those of the mediation function; an actor who sees everything gets the handler's own answer, audited row by row under the right source; a scoped one never gets a row outside the visible set, for any handler. |
| Mediation.IdsReadAreClean | core/src/kernel/list.ts:48-52 | Whatever text is read as ids yields trimmed, non-blank, comma-free ids. |
| Mediation.IdsReadExactly | core/src/kernel/list.ts:48-52 | The ids read from a comma-separated text are its parts without the white space around them, blank ones left out. |
| Strings.TrimExactly | core/src/kernel/list.ts:51 | Trimming takes off the white space and line ends of ECMA-262 at both ends, all of it and nothing else. |
| Mediation.JoinedIdsReadBackExactly | core/src/entity-enforcement.ts:127-137 | Ids injected as one comma-separated parameter read back as themselves exactly when each is non-blank, trimmed and free of commas. |
| Mediation.NarrowedExactly | core/src/entity-enforcement.ts:110-116 | The ids injected are all the visible ones, or those asked for that are visible, in the order and as often as the list handler itself would read them from the request, no visible id being blank; in any case exactly the visible ids that are the trimmed text of some part asked for. |
| Mediation.ScopedQuery | core/src/entity-enforcement.ts:126-137 | The rewritten request asks for the same page with the offset clamped to the safe integers, and keeps the caller's other filters, whatever ids are injected. |
| Mediation.AnyIdsMediation | core/src/entity-enforcement.ts:139-185 | Whatever the visible ids look like, the answer is the asked page of the rows whose ids the handler reads back, audited row by row, or a defect as soon as one of them is not visible: a hidden row is never answered. |
| Mediation.ScopedMediation | core/src/entity-enforcement.ts:155-185 | With clean visible ids the wrapper never trips its own check, and the audit row names exactly the rows returned. |
| Mediation.MediatedExactly | core/src/entity-enforcement.ts:110-185 | For clean visible ids, a scoped actor's list equals, in rows, total, offset and limit, the same request on the table cut down to the visible rows under this condition and no other: with `ids` absent or naming something, no id asked for is visible or the offset is a safe integer; with a blank `ids`, no visible row passes the other filters. |
| Mediation.MediatedEverywhere | core/src/entity-enforcement.ts:110-185 | For any visible ids at all: the mediated answer is the list of the visible rows on every table exactly when nothing is asked of what is visible or the offset is a safe integer, and, wherever a row can pass the other filters, the injected query reaches its id exactly when it is visible and asked for. |
| Mediation.AnswerCounts | core/src/entity-enforcement.ts:139-150 | The total of an answer counts every row the injected query reaches and that passes the other filters, hidden ones included; a defect means a hidden one was among them. |
| Mediation.HiddenRowsExactly | core/src/entity-enforcement.ts:110-185 | Tables with the same visible rows are answered and audited alike, whatever hidden rows they hold, exactly when no hidden id the injected query reaches can carry a row that passes the caller's other filters. |
| Mediation.CleanHidesRows | core/src/entity-enforcement.ts:110-185 | With visible ids free of commas and outer blanks that is always so: hidden rows influence neither rows nor total nor audit, for every generic-list request. |
| Mediation.CommaSplitsAnId | core/src/entity-enforcement.ts:126-131 | One visible id with a comma is read back as two hidden ones. |
| Mediation.HiddenRowCounted | core/src/entity-enforcement.ts:126-150 | With such an id a hidden row turns the first page into a defect and is counted in the total of every later page. |
| Rekey.ChunkCovers | core/src/pg/setup.ts:252-254 | A short chunk holds every candidate row after the cursor; a full one holds every candidate up to its last id. |
| Rekey.RepairRowSafe | core/src/pg/setup.ts:259-264 | The guarded write changes nothing outside `_sort`, and when the hash matches it leaves the row's keys up to date. |
| Rekey.GuardExactly | core/src/pg/setup.ts:259-264 | A row takes the keys computed for it exactly when its body outside `_sort` is still the one that was read, and is left as it is otherwise. |
| Rekey.RunKeepsInv | core/src/pg/setup.ts:240-269 | In every interleaving of chunk reads, guarded writes, cursor moves and other writers, rows behind the cursor are up to date or still to be repaired by the pending write. |
| Rekey.CursorAdvances | core/src/pg/setup.ts:250-267 | In every run, whoever else writes, each chunk read moves the cursor strictly forward: a read and the write after it leave the walk ended or reading after a later id, and no id is come back to. |
| Rekey.RekeyEndsFresh | core/src/pg/setup.ts:231-239 | For a table with sortable fields: whenever the walk has ended, whoever else wrote meanwhile, every row's keys are what its fields give. |
| Rekey.AloneEnds | core/src/pg/setup.ts:240-269 | With nobody else writing, the same machine ends after exactly two steps for each full chunk of rows looked at and a short chunk or an empty read, not before, and leaves the table in which every stale row is repaired. |
| Rekey.AloneRuns | core/src/pg/setup.ts:240-269 | Those steps are a run of the interleaved machine, so everything said about runs holds of them. |
| Rekey.RekeyTouchesOnlyKeys | core/src/pg/setup.ts:259-264 | At every point of every run the walk's write changes no row outside `_sort`. |
| Rekey.RekeyedMeaning | core/src/pg/setup.ts:231-239 | Undisturbed, the walk brings every row in scope up to date, leaves all other rows and all other keys alone, and a second walk finds nothing to do. |
| Rekey.ChunkRound | core/src/pg/setup.ts:250-268 | One round finishes the rows of its chunk, moves the cursor past them and leaves fewer rows to look at. |
| Rekey.RepairsChange | core/src/pg/setup.ts:255-264 | A chunk's write changes the table exactly when some row in it was stale. |
| Rekey.StoredTable.Rekey | core/src/pg/setup.ts:240-269 | The cursor loop ends with the table of the previous rows, and sends an UPDATE only when a key in scope was stale. |
| CustomValues.CheckExplicit | core/src/custom-values.ts:138-147 | The request's own `custom` object is accepted only when it is an object and each value is accepted by an active definition; a refusal carries a reason that holds. |
| CustomValues.MoveUndeclared | core/src/custom-values.ts:149-168 | Payload keys are sorted into declared ones, kept as sent, and undeclared ones, each accepted and none of them unsafe; a refusal carries a reason that holds. |
| CustomValues.CheckRequired | core/src/custom-values.ts:169-181 | A required definition without a value is found exactly when there is one. |
| CustomValues.AcceptsExactly | core/src/custom-values.ts:68-93 | A definition takes null and the empty string unless a value is required, and otherwise text of at most 1000 characters, a finite number, a date written as four, two and two digits that parses, a boolean or its two words, or one of its options, by type. |
| CustomValues.RefusalExactly | core/src/custom-values.ts:130-136 | A custom value is let through exactly when its name is no part of the object prototype and the last definition of that name takes it; the reason tells an unsafe name and an undefined one. |
| CustomValues.FoldableExactly | core/src/custom-values.ts:108-191 | When a payload is accepted, on the payload itself: `custom` an object, no unsafe key, every custom value let through, on creation a value other than null and the empty string for each required definition, and at most 32 names and 8192 characters. |
| CustomValues.FoldCustom | core/src/custom-values.ts:108-191 | The fold accepts exactly the payloads that meet its rules and returns the folded payload; every refusal's reason applies to the payload. |
| CustomValues.FoldedMeaning | core/src/custom-values.ts:95-107 | Declared keys are unchanged; under `custom` sits, for each name, exactly the undeclared key sent or else what the sent `custom` says, let through by an active definition and within 32 names and 8192 characters; creating gives every required definition a value. |
| CustomValues.FoldIdempotent | core/src/custom-values.ts:108-191 | Folding an accepted payload again accepts it and changes nothing. |
| CustomValues.FoldOff | core/src/custom-values.ts:98-99 | With no active definition the fold strips undeclared keys and stores nothing, and refuses exactly a `custom` that is not an object or an unsafe key. |
| Diff.DiffCustom | core/src/pg/rows.ts:92-101 | Two `custom` objects are recorded per sub-key: every value that differs, and of the others only objects and arrays spelled with their keys in another order. |
| Diff.DiffBody | core/src/pg/rows.ts:70-112 | The record has an entry for every key whose values differ, per sub-key inside two `custom` objects, each with both values, and no other entry except for objects and arrays whose JSON text is spelled in another order. |
| Diff.DiffReplays | core/src/pg/rows.ts:72-112 | A record replayed over the old body is the new body on every key but `custom`. |
| Diff.DiffUndoes | core/src/pg/rows.ts:72-112 | A record undone over the new body is the old body on every key but `custom`. |
| Diff.CustomReplays | core/src/pg/rows.ts:88-103 | Between two `custom` objects the record gives both values of every name that changed; a name without an entry has not. |
| Store.CubeStore.Insert | core/src/pg/store.ts:163-186 | One step adds the row at version 1, one outbox row and, for the captured type only, one activity row; a taken id changes nothing. |
| Store.CubeStore.Update | core/src/pg/store.ts:188-215 | One step rewrites the row at the next version with the merged body, appends its outbox row (`delete` when left deleted) and its activity row when captured; no such row or a cap refusal changes nothing. |
| Store.InsertIsGiven | core/src/pg/store.ts:169-179 | What an insert stores: every value given, defaults for the meta columns that are not, version 1, and no other row touched. |
| Store.UpdateIsPatch | core/src/pg/store.ts:194-202 | What an update stores, key by key: the patch's value (`undefined` removes it) or else the previous one, and inside two `custom` objects the same per name; of the meta columns those the patch gives, the next version, and no other row touched. |
| Store.RefusedExactly | core/src/pg/rows.ts:235-258 | An update is refused exactly when the stored `custom` object and the patch's, or the stored one alone when the patch has none, merge to more than 32 names or 8192 characters. |
| Store.ReturnedIsStored | core/src/pg/store.ts:50-59 | The body an update returns is the body a later read shows. |
| Store.InsertIsWriter | core/src/pg/store.ts:177-179 | To the key repair, an insert is a writer that leaves the row it touches up to date. |
| Store.UpdateIsWriter | core/src/pg/store.ts:199-202 | To the key repair, an update is a writer that leaves the row it touches up to date. |
| History.OutboxVersionsCount | core/src/pg/store.ts:163-215 | At every point of every serial run, a row's outbox versions are 1, 2, 3, ... up to the stored version, and rows never written have none. |
| History.UpdateReplayExact | core/src/pg/store.ts:203-210 | After an update, replaying a captured row's activity still gives its body outside `custom` exactly when the write does not leave the row deleted while its patch gives some key outside `custom` another value. |
| History.SamePlainBody | core/src/pg/store.ts:194-197 | A patch leaves the body outside `custom` as it was exactly when it gives no other key another value. |
| History.EditedDelete | core/src/pg/store.ts:204-209 | Such a write: a note deleted and retitled in one patch, whose activity replays to the former title. |
| History.ActivityRebuildsBodies | core/src/pg/store.ts:163-215 | Over a whole serial run without such an edit, without retyping and without body keys spelled `custom.<name>`, replaying activity rebuilds every captured row's body outside `custom`. |
| History.FoldGivesFoldedPayload | core/src/custom-values.ts:183-191 | A payload that went through the fold carries a `custom` object within both caps, or none. |
| History.CustomStaysWithinCaps | core/src/pg/rows.ts:235-258 | In every state reached by such writes, every row's `custom` object is within the key cap and the size cap. |
| History.PatchKeepsOtherCustom | core/src/pg/rows.ts:217-221 | An accepted patch keeps every custom value it does not mention. |
| Batch.RekeyTargets | core/src/pg/batch.ts:33-42 | The targets are exactly the tables some statement names ids for, each with all the ids named for it. |
| Batch.NamedExactly | core/src/pg/batch.ts:33-42 | A row is named for a table exactly when some statement of the batch declares that id for that table. |
| Batch.BatchStore.Batch | core/src/pg/batch.ts:58-86 | The raw effects in order, then every named row re-keyed, in one transaction; naming a table that is not there changes nothing. |
| Batch.BatchIsWriter | core/src/pg/batch.ts:51-57 | A batch that names every row it changes is, to the key repair, one more writer that leaves its rows up to date. |
| Batch.ReachableFresh | core/src/pg/batch.ts:51-57 | Every table reached by inserts, updates and such batches has up-to-date keys on every row. |
| Batch.ReachablePagesSorted | core/src/pg/rows.ts:125-136 | In every such table, the page answered to a request sorted by a declared field names that field and is ordered by the values stored there, ties by id, in the direction asked for; the whole descending list is the exact reverse of the ascending one. |
| SchemaNames.CubeNameRoundTrip | core/src/kernel/migrate.ts:111-119 | The cube name written on outbox rows after a rename is the cube's own exactly when its name has no dash followed by a dash or a slash. |
| SchemaNames.SchemaNameInjective | core/src/pg/setup.ts:20 | Among such names, two cubes never share a schema. |
| SchemaNames.CollidingNames | core/src/pg/setup.ts:20 | Outside them they can: two names with one schema, and a name read back differently. |
| Migrate.RunConserves | core/src/kernel/migrate.ts:81-87 | Any sequence of renames conserves the contents of the database, each as often as it was held. |
| Migrate.Database.Rename | core/src/kernel/migrate.ts:106-128 | One transaction: the whole schema moves exactly when the source is there, the destination is not and this statement does not go wrong; otherwise nothing does. |
| Migrate.Plan | core/src/kernel/migrate.ts:72-79 | The preflight pass refuses at the first migration whose source and destination both exist, and otherwise plans every migration whose source exists, in order. |
| Migrate.Rollback | core/src/kernel/migrate.ts:88-96 | The rollback reports a failed step exactly when one of its own statements goes wrong; without one it has restored the starting state; failed or not, no contents are lost. |
| Migrate.MigrateDataSchemas | core/src/kernel/migrate.ts:65-99 | Under any pattern of rename failures: a conflict moves nothing; the batch succeeds exactly when there is none, the plan can be carried out and none of its statements goes wrong, and then performs exactly the plan; a failure names the first move that could not be made or went wrong, and restores the start unless a statement of its rollback goes wrong; contents are conserved throughout. |
| Migrate.PlanCompletes | core/src/kernel/migrate.ts:72-87 | A plan without conflicts can be carried out exactly when no two of its moves share a source or a destination schema. |
| Migrate.CompletedPlan | core/src/kernel/migrate.ts:81-87 | After a completed plan every source's data sits at its destination, every schema no move names is untouched, and no two moves share a source or a destination. |
| Migrate.SuccessfulMigration | core/src/kernel/migrate.ts:54-64 | A migration that reports success has moved every present source and nothing else. |
| Ownership.CheckClaim | core/src/kernel/migrate-ownership.ts:72-128 | One declared migration passes exactly when it is owned, and is refused by the first check it fails. |
| Ownership.CheckMigrationOwnership | core/src/kernel/migrate-ownership.ts:51-132 | Accepting means every declared migration is owned and is returned in order under its declarer; refusing names the first that is not, and why. |
| Ownership.OwnedIsEveryCheck | core/src/kernel/migrate-ownership.ts:36-50 | Passing the seven checks one by one is the same as: one package owns the declarer and both ends, and the ledger records the source for it or, without a record, the operator granted it. |
| Ownership.GrantSpelled | core/src/kernel/migrate-ownership.ts:62-65 | Whatever follows a second colon, an item `cube:package` of the operator's list grants that cube to that package, `core` to core; without a package it grants nothing. |
| Ownership.GrantsReadBack | core/src/kernel/migrate-ownership.ts:57-67 | Of trimmed items without commas, the list grants exactly the cubes some item names, and to each what the last item of that cube says. |
| Ownership.Provenance.VerifyUnchanged | core/src/kernel/ledger.ts:112-124 | The boot goes on exactly when the ledger file can be read and is what the trusted snapshot says; otherwise the snapshot is put back, unless replacing the file fails. |
| Ownership.Provenance.ReplaceLedger | core/src/kernel/ledger.ts:82-101 | Written aside, synced, renamed, the directory synced, each step with its own failure: the file reads as the old ledger or the new one, and so it does after a crash at any moment, never torn; a return without error means a crash can leave only the new one. |
| Ownership.Provenance.WriteLedger | core/src/kernel/ledger.ts:126-134 | The ledger written is the snapshot with the entries laid over it in order; a write that fails leaves the old file or the new one, a crash at any moment too, and after one that succeeds only the new one can be left. |
| Ownership.Provenance.Boot | core/src/main.ts:67-133 | A boot goes through exactly when the ledger was readable and nobody touched it, the declared migrations are accepted, the other steps succeed and the write is safe. One that fails before the write leaves the trusted ledger as it found it, unless putting it back fails too, and then leaves what package code left; one that fails in writing leaves the old ledger or the new one. Untouched by package code, a crash at any moment leaves the old ledger or the new one. One that goes through records the cubes it mounted and the sources it moved. |
| Ownership.BootRecords | core/src/main.ts:124-133 | Name by name, the ledger of an accepted boot: a migration source is on record for its declarer, any other mounted name for the package that mounts it, and every other name keeps the entry it had or has none. |
| Ownership.SoundExactly | core/src/kernel/ledger.ts:26-44 | A ledger file can be read exactly when it is absent, or parses and every name is a cube identity and every owner a package name or null. |
| Ownership.IdentitySpelled | core/src/kernel/ledger.ts:26-27 | A cube identity is one lower-case letter followed by lower-case letters, digits and dashes, or two such with a slash between. |
| Ownership.AcceptedIsSettled | core/src/main.ts:126-133 | The ledger an accepted boot writes records every migration source for the package that declared it. |
| Ownership.AcceptedAlone | core/src/kernel/migrate-ownership.ts:102-122 | With no operator list, definitions are accepted exactly when their cubes are placed right and every source is on record for its declarer. |
| Ownership.BootSettledExactly | core/src/kernel/ledger.ts:126-134 | An accepted boot of any other definitions keeps those records exactly when it mounts no source's name under another package. |
| Ownership.TakeoverRefuses | core/src/kernel/migrate-ownership.ts:102-122 | After a boot that does, the former definitions are refused without the operator's list. |
| Ownership.TakeoverHappens | core/src/kernel/migrate-ownership.ts:102-122 | Such a boot: another package mounts a cube under the name a package migrated from. |
| Ownership.AcceptedForGood | core/src/kernel/migrate-ownership.ts:36-50 | Once accepted, the same definitions are accepted after every later run of boots without such a takeover, with no operator list at all. |
| Ownership.SameLedgerAgain | core/src/main.ts:127-133 | Booting the same definitions again writes the same ledger. |
| Ownership.ReadableNext | core/src/kernel/ledger.ts:26-44 | The next boot can read the written ledger exactly when every migration source is spelled like a cube identity, given that the mounted cubes and packages are. |
| Ownership.UnreadableNext | core/src/kernel/ledger.ts:26-44 | An accepted boot whose ledger stops the next one: a source with a capital letter granted by the operator. |
| Lexer.StripCode | core/src/package-contract-lex.ts:13-53 | The character loop emits what is left of the source's segments, however the source is split into code characters, quoted strings, line comments and block comments. |
| Lexer.SkipLine | core/src/package-contract-lex.ts:39-42 | A line comment is skipped up to its newline or the end of the source. |
| Lexer.SkipBlock | core/src/package-contract-lex.ts:43-48 | A block comment is skipped past its first end mark, or past the end of the source. |
| Lexer.StripIsSegments | core/src/package-contract-lex.ts:5-12 | Any fitting split gives the same output: comments vanish, strings keep or lose their contents, code stays. |
| Lexer.SegmentsOf | core/src/package-contract-lex.ts:5-12 | Every source has a fitting split that spells it, unclosed strings and comments included. |
| Lexer.StripTwice | core/src/package-contract-lex.ts:13-53 | Stripping twice is stripping once in every mix of dropping: contents dropped by either pass are dropped and nothing else changes. |
| Lexer.Idempotent | core/src/package-contract-lex.ts:13-53 | Stripping what is stripped changes nothing. |
| Lexer.DropLater | core/src/package-contract-lex.ts:10-12 | Dropping strings from the stripped text equals stripping with strings dropped. |
| Lexer.NoCommentLeft | core/src/package-contract-lex.ts:6-8 | However the output is split, it has no comment: removing one never makes another. |
| Trees.Visit | core/src/files.ts:49-56 | One directory's walk finds exactly the entries below it that nothing on the way is skipped for, each once, directories before what is in them. |
| Trees.Walk | core/src/files.ts:24-59 | The same for a whole tree: a skipped entry is left out, and a skipped directory is not entered. |
| Trees.CopyTree | core/src/files.ts:69-79 | Whatever writes fail, a copy that reports success is exactly the kept part of the tree, every entry made inside a directory already there; a failed one holds only entries of it. |
| Trees.CopiedExactly | core/src/files.ts:69-79 | A copy holds, at every kept path, a directory for a directory and a file for a file or a link with the bytes read through it; it can be made exactly when no kept entry is a dangling link or a special file. |
| Fingerprints.TopSkipLeaves | core/src/package-source.ts:86-92 | The fingerprint reads exactly the entries whose first name is neither excluded nor, for a source, local tooling. |
| Fingerprints.LocalEntryExactly | core/src/package-source.ts:19-48 | Local tooling is exactly the hidden names, nine directories, three files, and the names ending in `.test` or `.spec` and one of three extensions. |
| Fingerprints.StagingLeaves | core/src/package-source.ts:49-50 | Staging copies exactly what the source fingerprint reads. |
| Fingerprints.InstallLeaves | core/src/package-source.ts:67-70 | Installing leaves out local tooling at the top and anything under a bookkeeping name at any depth, and nothing else. |
| Fingerprints.PackageSourceFingerprint | core/src/package-source.ts:86-102 | Walk, hash, sort, join and hash: a fingerprint of the files read, or none exactly when one cannot be read. |
| Fingerprints.FilesRead | core/src/package-source.ts:86-104 | What is hashed of a tree: for every entry reached the bytes of a file, or of what a link points at; a dangling link or a special file stops it. |
| Fingerprints.FingerprintDecides | core/src/package-source.ts:80-101 | For newline-free names, two packages have one fingerprint exactly when they hold the same files with the same bytes. |
| Fingerprints.NewlineConfuses | core/src/package-source.ts:94-101 | With a newline in a name, one file and two files share a fingerprint. |
| Fingerprints.ShelvedFiles | core/src/package-source.ts:104-110 | A staged shelf, read the shelf's way, holds exactly the files of its source less a top-level provenance file. |
| Fingerprints.FreshShelfMatches | core/src/package-source.ts:104-110 | A freshly staged shelf has its source's fingerprint exactly when the source carries no top-level provenance file of its own. |
| Fingerprints.ShelfDrift | core/src/store-drift.ts:30-82 | The verdict is ok exactly when the record, the source and the shelf answer with one fingerprint; a drifted verdict lists exactly the reasons that hold. |
| Fingerprints.DriftInputExactly | core/src/store-drift.ts:30-60 | The verdict is drawn from what the shelf's own provenance file decodes to and from the directory it names, if that is there. |
| Fingerprints.InSyncIsSameContent | core/src/store-drift.ts:1-9 | For a record made from some content, ok means source and shelf both still hold exactly that content. |
| Fingerprints.FreshShelfInSync | core/src/store-drift.ts:59-81 | A shelf just staged with a record that decodes to its source and fingerprint is in sync with that unchanged source exactly when the source has no top-level provenance file. |
| Installer.ValidatePackageSourceTree | core/src/package-source.ts:112-121 | The source is accepted exactly when every kept entry is a plain file or directory. |
| Installer.Store.InstallExisting | core/src/kernel/install.ts:98-144 | From a shelf to its place, below the core cubes or the plugins under the package's own name: no overwrite; refused for its cubes exactly when it is a package with a free place that brings a cube of core or one some plugin has a directory for; a failed copy whose removal succeeds leaves every place as it was. |
| Installer.CubesOnDiskExactly | core/src/kernel/install.ts:82-92 | The cubes on disk are the core cubes and, for every plugin, the directories in its `cubes`. |
| Installer.Store.Publish | core/src/kernel/install-from.ts:165-179 | Staging and publishing is one step: the whole shelf, with the record of the source's path and fingerprint, appears or, short of a failed removal of the staging directory, nothing changes. |
| Installer.Store.StageAndInstall | core/src/kernel/install-from.ts:63-188 | All or nothing under failure of any step as long as the removals succeed; success means the stated shelf and place and no cube of the package on disk before, in core or in a plugin; without failures it succeeds exactly on the admissible sources and is refused for its cubes exactly when nothing else stands in the way; earlier shelves and places survive every failure. |
| Installer.Store.PublishAndInstall | core/src/kernel/install-from.ts:161-188 | The last two steps: the published shelf is taken back when installing from it fails. |
| Installer.NamedLikeItsDirectory | core/src/kernel/install-from.ts:111 | A package is called what the last part of its path says. |
| Installer.InstalledIsShipped | core/src/kernel/install.ts:126-141 | What ends up at the place is the source less top-level tooling and bookkeeping files, entry for entry. |
| Installer.StagedAgain | core/src/kernel/install-from.ts:121-140 | Once its place is free again, a staged package installs again from the same unchanged source exactly when that source has no top-level provenance file, and nothing changes then but the place. |
| Installer.StagedReadsUpToDate | core/src/kernel/install-from.ts:171-177 | The shelf a successful staging leaves is found up to date by the drift check as long as the source stays as it was, exactly when that source has no top-level provenance file. |
| Installer.ReusedFiles | core/src/kernel/install-from.ts:128-135 | Reusing a shelf with the same fingerprint ships the files of the source, byte for byte. |

## Left out

- Diff.DiffBody: JSON values have no key order here, so where the code compares texts, which equal objects and arrays are spelled otherwise is a parameter, and such a one may or may not be recorded.
- Diff.DiffReplays: takes bodies without keys spelled `custom.<name>`, which share a record with a custom value.
- Memory.MemoryFinds: takes fields on which the two renderers agree (JavaScript and PostgreSQL space JSON text and write timestamps differently), lower case that goes character by character, and `deleted` spelled `true` or `false`; `Memory.SameTextExactly` and `Memory.DeletedMisspelled` say what happens at a field outside.
- The in-memory store's `page`, which compares one property by identity, and its inserts and updates.
- Mediation.MediatedExactly: takes visible ids that survive being joined and split, and is about one table; `Mediation.MediatedEverywhere` takes any ids and is about all tables at once. `sortedBy` is not compared, because the empty page echoes the request instead of the applied order.
- Pages.PagesCoverListing: offsets are exact integers; above 2^53 the code's product of page and limit rounds as a double, and a total is bound as a 32-bit count.
- Rekey.RekeyEndsFresh: md5 is taken to be injective, `_sort` is not itself a sortable field, and ids are not empty. A stored `_sort` of null on a row without sortable fields counts as up to date, as it does in the code.
- Ownership.Provenance.ReplaceLedger: a directory sync is taken to settle the name, a file sync the contents; closing files and two boots replacing the file at once are not modelled.
- Store.CubeStore.Update: one table, one atomic step; overlapping updates of one row take no lock in the code and nothing is claimed about them.
- History.ActivityRebuildsBodies: a run with a write that edits a row it leaves deleted is excluded, because it fails there; the row-level condition is exact in `History.UpdateReplayExact`.
- Fingerprints.FingerprintDecides: SHA-256 is taken to be injective, and its hexadecimal text to hold no colon and no newline.
- Ownership.AcceptedForGood: the reading of the ledger file at each boot is part of the run; which ledgers can be read is said by `Ownership.ReadableNext`.
- Ownership.CheckMigrationOwnership: a source named `constructor` finds an inherited property in the code's plain ledger object and is refused; the model looks up recorded names only.
- Installer.Store.StageAndInstall: parent directories made on the way (the store, the plugins directory) are not part of the state, and the source lies outside the store.
- Body values are JSON numbers: NaN, infinities and minus zero, which the store would key before JSON text turns them into null or zero, are not modelled.
- Body keys spelled like the meta columns, which only a raw batch can store, and sortable fields named like inherited properties of JavaScript objects.
- Meta keys of a payload with values of other types than their columns, and a payload that sets them to undefined.
- UTF-16 code units against code points: lengths and characters are those of Dafny strings.
- The `map` and `before` options and the permission check of the generic list, and deriving searchable and filterable fields from a manifest: the fields are an input.
- The lookups `first`, `where`, `customRows`, `byId` and `count`: they order by creation time without a tie-break, or only read one row.
- The database's own check of the custom caps, roles, grants, advisory locks, index and table creation.
- Outbox rows written by a schema rename, role renames, and an existence query that fails.
- Manifest decoding, name checks of packages, the source-contract rules and the compiler gate: parameters of the installer.
- The directory scan of the install page, which compares the same two fingerprints, and forgetting or uninstalling a package.
- Error messages: each refusal is a constructor. Which of several reasons a custom-field fold reports first depends on the order of object entries and is left open.
- The catalogue, the bus, the HTTP layer, the web interface and the command line: they would only add easy members.
