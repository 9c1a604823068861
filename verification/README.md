# memory-cli: the event log, its derived store, and the algorithms around it

memory-cli keeps an append-only log of raw entries and derives everything else from it: memory
rows, tags, links, a full-text index, supersede marks and consumption masks. Every write goes
through one command gate and one transaction; a full rebuild wipes the derived tables and replays
the log. This project models that store as a class over its tables, ties every method to a
function of the old tables, and proves what the store promises about whole runs of commands:
ingest, delete, mark, link, unlink, resolve, reindex and rebuild, in any order. Around the store
it models keyword search and rank fusion, the entity graph with its extraction loop, the batching
and selection algorithms, and the transcript scanners.

## How the project is laid out

- `Tables` holds the tables as values and one function per statement of the write path; `Store`
  holds the class `SqliteStore`, whose methods run the loops and branches of the Go code and are
  each proved equal to the corresponding function.
- `Promises` says what each operation of the store leaves, of the tables before and after and of its
  arguments alone; the methods carry these promises in their contracts.
- `Runs`, `WriteLaws`, `ProvenanceLaws`, `Duplicates`, `Replay`, `Agreement`, `Relabel`, `Links`,
  `Supersession` and `Cycles` prove laws of those functions over all runs. `Counterexamples` holds
  the runs that break a law once its condition is dropped.
- `Search`, `SearchLaws` and `Fusion`: the keyword search, what it returns in which order, and the
  rank fusion. `Entities` (class) and `EntityLaws`; `Backlog` and `Extraction` (class): entity
  extraction with arbitrary model replies on any entity table, and the drain loop.
- `Chunking`, `Sessions`, `Spread`: batching and selection. `PromptHash`, `PromptChain`,
  `Pairing`, `FrontMatter`: hashing, scanning, printing and parsing.
- `Text`, `Lists`, `Consumers`: shared strings, sequences and bit masks.

## Reading the model

- A table is a sequence in rowid order, or a set where order is never read. A transaction that
  fails leaves the tables as they were. Content hashes are idealised as collision free: a `Digest`
  is the text it was taken of.
- The text functions of the write path (keywords, categories, terms, wiki-links, titles, the noise
  test) are the fields of an arbitrary `Extractors` value, so every theorem holds for any
  deterministic choice of them. Model replies, generated ids and clock readings are arbitrary too.
- Weights are reals; the logarithm is a parameter, monotone where that matters. Event times are
  whole seconds, request times nanoseconds; a row keeps only the seconds, as RFC 3339 text does.
- SQL's LIKE and lower() fold ASCII case only. The search takes the character table of Go's
  strings.ToLower as a parameter beside it; elsewhere both are the ASCII fold.

## Where the code falls short of its own description

Each entry names the lemma that shows the failing input and the one that says exactly when the
code does meet the description.

- The full rebuild is described as restoring content and provenance exactly and leaving the log
  alone (internal/store/rebuild.go:18-25). The fact processor hashes content before the gate trims
  it (internal/factprocessor/factprocessor.go:328), the gate keeps that hash, and a replay then
  appends a second event: `UntrimmedHashBreaksReplay`. `RebuildFixesLogIff`: the log survives
  exactly when every event it replays is there under the hash of its own text with nothing to add.
  Two events may hold one text, once under its untrimmed hash; the replay then leaves one memory
  for both: `RebuildPartsThem`. `RebuildRestoresIff`: one memory per event that is not noise, with
  its text, provenance and time, exactly when no two of those events hold the same text.
- The same untrimmed hash puts one text into two live rows: `UntrimmedHashDuplicates`.
  `AlwaysDistinctIff`: that never happens exactly when every write that commits under a new hash
  brings a text that is not live. A full rebuild undoes it (`RebuildDistinct`).
- After a delete and a re-ingest the event knows more provenance than the live row
  (`DeleteSplitsProvenance`), and after a full rebuild of a log that holds untrimmed hashes the two
  may carry different values (`RebuildPartsThem`). `AlwaysAgreeIff`: rows and events agree in
  every state of a run exactly when each committed write finds a live row or delivers everything
  the log knows of its content, and each full rebuild is of a log in which, for every event whose
  hash is replayed, what is replayed under that hash gives back all the event knows. It covers
  every run whose hashes belong to their texts, trimmed or not, and whose rebuilds generate fresh
  ids; with canonical hashes any ids will do, and without rebuilds any hashes and ids.
- A dedup hit adopts the old row's id but keeps the caller's time, so a fact that was replaced and
  is ingested again replaces its own successor: `ReingestMakesTwoCycle`. `AlwaysAcyclicIff`: over
  every run of any commands, marks are acyclic in every state exactly when no committed write closes
  a cycle. Writing known content closes one when its row's marks lead to a row the write overtakes
  (`ReingestCycleIff`); while all marks go forward that row is the newest version
  (`ReingestCycleIffLatest`). Writing new content closes one when a mark it brings itself leads to a
  row it overtakes or back to its own id (`NewRowCycleIff`; `OwnMarkMakesTwoCycle`), and never
  without such a mark (`PlainClosesNone`).
- Deleting by unique prefix (internal/store/sqlite.go:601-639) hands the argument to LIKE, where `%`
  and `_` are wildcards: `WildcardDeletes`. `LikePrefixIff`: the pattern means "starts with, up to
  case" exactly when the argument holds no wildcard.
- The search prefilter (internal/store/sqlite.go:974-1003) reads LIKE, which folds ASCII only, and
  the scores read strings.ToLower: a text in upper-case letters beyond ASCII is scored but never
  fetched (`UmlautMissed`). `PrefilterIsFullScanIff`: nothing is lost exactly when no row slips
  between the two; texts that fold alike in both never do (`PrefilterIsFullScan`).
- A search whose every keyword is empty builds an empty condition, which SQLite rejects; the
  search then fails instead of returning nothing (`PrefilterIsFullScanIff`, first clause).
- The drain loop takes a round that returns 0 for a drained backlog
  (internal/cmd/entity_build.go:79-81). Replies that report nothing, or fail, also make it 0:
  `ZeroIsNotDrained`. `RoundClearsIff`: a round empties the backlog exactly when it lists all of it
  and every reply settles its whole batch, that is, is unreadable or reports on every index
  (`SettlesWholeIff`). `Drain` stops with something waiting only after a round that recorded
  nothing.
- A session whose id is the time stamp of a sessionless run shares its group with that run:
  `StampedSessionTakesOthers`. `SessionGroupIff`: a session's group is its own items exactly when no
  run starts in the second its id stamps.
- The prompt hash is called FNV-1a; its offset basis (internal/llm/usage.go:215) is one digit short
  of the one FNV-1a defines, and so no prompt has its FNV-1a hash (`NeverFnv`).
- Merging an entity with an empty name does not carry that name over; merging into the entity
  itself, or an entity without mentions into an id that is no entity, commits and deletes it with
  all its names (`NamesLost`). `MergeIsQuotientIff`: a committed merge is resolution with source
  mapped to target exactly when its source is no entity, or source and target are two entities and
  the source's name is not empty or is also an alias. Neither caller of CreateEntity passes a blank
  name (internal/daemon/entity_extract.go:140-147, internal/entity/resolver.go:22-34), so that case
  needs a direct call. A self-merge also drops the entity's mentions (`MergeKeepsMentionsIff`).
- Lookups trim the mention but adding an alias does not trim the alias, so an alias with white
  space at an edge is stored and never found (`AliasResolvesIff`).

## Model

| member | source | states |
|---|---|---|
| Store.SqliteStore.IngestMemory | internal/store/sqlite.go:1725-1776 | gate, transaction, then supersede check; in every consistent state the error or id, the log, every column of every row, tags, index and links after it, in terms of the request |
| Store.SqliteStore.Validate | internal/store/sqlite.go:1726-1763 | the command gate: trims, rejects empty and oversized content and unknown phases, falls back on unknown categories, fills id, hash and time |
| Store.SqliteStore.InsertMemory | internal/store/sqlite.go:1317-1472 | the transaction: event appended once per hash, provenance backfilled on event and row, dedup hit adopts the old id, a rejected primary key changes nothing |
| Store.NormalizeTags | internal/store/sqlite.go:1702-1713 | the loop with its seen set computes the trimmed tags without empties and repeats |
| Store.MergeTags | internal/store/keywords.go:97-117 | the two loops keep the first of all tags that are equal up to case and edge space |
| Store.SqliteStore.CheckAndSupersede | internal/store/versioning.go:52-107 | marks and counts exactly the other current rows of the same phase, category and project that are strictly older and share three of their terms; nothing else of any row changes |
| Store.CountShared | internal/store/versioning.go:93-99 | counts the old row's terms that occur among the new ones |
| Store.SqliteStore.Delete | internal/store/sqlite.go:287-295 | finds a live id, or the only row the argument matches, never anything for the empty string; removes that row, its index entry, its tags and its outgoing links and keeps everything else; a missing or ambiguous id changes nothing |
| Store.SqliteStore.MarkConsumed | internal/store/sqlite.go:479-496 | ORs the bit of the stage with that name into the row's mask, and changes nothing else; an unknown name changes nothing |
| Store.SqliteStore.LinkMemories | internal/store/sqlite.go:1224-1235 | adds exactly both directions when both rows exist, and fails without change otherwise |
| Store.SqliteStore.UnlinkMemories | internal/store/sqlite.go:1237-1247 | removes exactly both directions when both rows exist |
| Store.SqliteStore.ResolveBacklinks | internal/store/sqlite.go:1139-1183 | keeps all links, adds those the texts ask for, and counts the rows that bring one which is not there and which no row listed before asks for |
| Store.SqliteStore.BuildTitleIndex | internal/store/sqlite.go:1145-1151 | folded titles, the last listed row wins |
| Store.SqliteStore.RebuildIndexes | internal/store/rebuild.go:110-147 | the index mirrors the rows, the links are those the texts ask for, every keyword of every row is a tag beside the old tags; the counts are of rows, rows that bring a link, and tags that were not there |
| Store.SqliteStore.ReplayEvent | internal/store/rebuild.go:180-208 | one turn of the replay loop: noise and gate failures count as skipped, the rest goes through the write path |
| Store.SqliteStore.RebuildFromEvents | internal/store/rebuild.go:152-218 | wipes, replays in order and resolves links; refuses an empty log without touching anything |
| Store.OvertakenIsListed | internal/store/versioning.go:57-69 | listing rows by topic and newest first does not change which rows are overtaken |
| Promises.IngestWrites | internal/store/sqlite.go:1317-1776 | what a write promises in terms of its request: refused exactly for its reasons; else the event appended or its empty columns filled, the row of a known hash filled, or a row with the request's own columns, whole-second time and category rule appended, and exactly the replaced rows marked |
| Promises.SupersedeMarks | internal/store/versioning.go:52-107 | exactly the replaced rows get the mark, beside whatever else their metadata holds |
| Promises.TagsAreFirst | internal/store/sqlite.go:1451-1459 | a write's tags are the first of each kind, up to case and edge space, among the caller's trimmed tags and then the keywords |
| Promises.LogsEvent | internal/store/sqlite.go:1328-1372 | an event goes to the end under a new hash; under a known one only its empty provenance columns are filled |
| Promises.DeleteTakesOut | internal/store/sqlite.go:287-295 | which row a delete finds and what it leaves alone: rows, tags, links and index of every other row |
| Promises.ResolveKeepsPromise | internal/store/sqlite.go:1139-1183 | a wiki-link means the row with that title that is oldest, the last stored of those equally old; links and count follow from the texts |
| Promises.ReindexKeepsPromise | internal/store/rebuild.go:110-147 | index, links, keyword tags and all six counts of a reindex |
| Promises.MarkKeepsPromise | internal/store/sqlite.go:479-496 | each stage's name sets its own bit and nothing else |
| Tables.FindByHash | internal/store/sqlite.go:1389-1391 | finds a row with the hash exactly when one exists |
| Runs.RunKeeps | internal/store/sqlite.go:1317-1472 | every run keeps keys unique, rows traced to events, the index equal to the rows, tags and links on live rows, and the old log a prefix of the new one up to empty provenance |
| Runs.ReachableKeeps | internal/store/sqlite.go:1725-1776 | the same for every state reachable from the empty database |
| Runs.StepKeeps | internal/store/rebuild.go:110-218 | each single command, rebuilds and failures included, keeps that invariant |
| Runs.LogGrows | internal/store/sqlite.go:1328-1372 | one write keeps events distinct, in place and enriched, and records its own hash |
| Runs.EnrichesFields | internal/store/sqlite.go:1349-1358 | a non-empty provenance field never changes |
| Runs.BackfillLaws | internal/store/sqlite.go:1395-1404 | backfilling is associative and idempotent with the empty record as unit |
| Runs.GrowsAntisymmetric | internal/store/sqlite.go:1328-1372 | a log that grew and came back never changed |
| Runs.RemoveKeeps | internal/store/sqlite_schema.go:35-49 | deleting a row leaves no tag, outgoing link or index entry behind and keeps the rest |
| WriteLaws.IngestFailsIff | internal/store/sqlite.go:1725-1776 | a write fails exactly for the gate's reasons or for a taken id under new content, and then changes nothing |
| WriteLaws.ReingestIsSafe | internal/store/sqlite.go:1381-1430 | a content keeps its id: whatever happens in between short of deletes and full rebuilds, writing it again returns the same id and adds no row and no event |
| WriteLaws.DedupKeepsState | internal/store/sqlite.go:1381-1430 | a dedup hit leaves phase, category, mask, times, links and index alone and loses no tag |
| WriteLaws.RunMarks | internal/store/sqlite.go:479-496 | over every run without deletes and full rebuilds, whatever comes in between, each row's mask is its initial mask OR the bits of the marks that name it |
| WriteLaws.RunRowsStay | internal/store/sqlite.go:1317-1472 | rows keep place, id and content over every run without deletes and full rebuilds |
| WriteLaws.MergedTagsAre | internal/store/keywords.go:95-117 | merging loses no tag up to case, repeats none, invents none, and the caller's spelling wins |
| WriteLaws.NormalizedTagsAre | internal/store/sqlite.go:1700-1714 | exactly the trimmed non-empty tags, each once |
| WriteLaws.DeleteRemovesOne | internal/store/sqlite.go:287-295 | a delete that finds its row takes out exactly that row, named by its full id or as the only match of the argument as a LIKE pattern, and leaves the log alone; otherwise nothing changes |
| WriteLaws.DeleteByPrefix | internal/store/sqlite.go:607-639 | an argument without wildcards names the removed row by its id or by a prefix, up to case, that no other row has |
| WriteLaws.WildcardDeletes | internal/store/sqlite.go:620-634 | deleting "%" removes the only row though its id does not start with that character |
| WriteLaws.UnlinkUndoesLink | internal/store/sqlite.go:1224-1247 | unlinking undoes a link that was new |
| ProvenanceLaws.RowsTraceToEvents | internal/store/sqlite.go:1317-1472 | over every run, each live row names an event that exists and holds the same text |
| Duplicates.StoredDistinctIff | internal/store/sqlite.go:1381-1430 | a committed write keeps live texts different if and only if its hash is known or its text is not live |
| Duplicates.RebuildDistinct | internal/store/rebuild.go:176-208 | after a full rebuild no text is live twice, whatever the log holds |
| Duplicates.AlwaysDistinctIff | internal/store/sqlite.go:1381-1430 | over every run of any commands no text is ever live twice if and only if each write under a new hash brings a text that is not live |
| Duplicates.NoDuplicateContent | internal/store/sqlite.go:1752-1754 | so with canonical hashes no text is ever live twice |
| ProvenanceLaws.EventProvenance | internal/store/sqlite.go:1347-1372 | without full rebuilds, each event carries field by field the first non-empty value that any committed ingest of its content delivered, deletes or not |
| ProvenanceLaws.RowProvenance | internal/store/sqlite.go:1381-1430 | the same for rows, without deletes and full rebuilds |
| Agreement.RowsCarryFirstIff | internal/store/sqlite.go:1347-1430 | the same for rows over runs with deletes, and with rebuilds if all hashes are canonical: in a state it holds if and only if rows and events agree there |
| Agreement.StoredAgreesIff | internal/store/sqlite.go:1347-1430 | a committed write keeps rows and events agreeing if and only if its content has a live row or it delivers everything the log knows of it |
| Agreement.DeleteAgrees | internal/store/sqlite.go:287-295 | a delete keeps them agreeing |
| Agreement.RebuildAgrees | internal/store/rebuild.go:152-218 | a full rebuild of a canonical log makes them agree, whatever the rows were and whatever ids are generated |
| Agreement.RebuildAgreesIff | internal/store/rebuild.go:152-218 | a full rebuild of any log under fresh ids makes them agree if and only if, for every event whose hash is replayed, the first non-empty values replayed under it give back all the event knows |
| Agreement.AlwaysAgreeIff | internal/store/sqlite.go:1347-1430 | over every run with sound hashes and fresh rebuild ids, deletes and rebuilds of any log included, they agree in every state if and only if each committed write is informed and each rebuild meets that condition; likewise for any ids with canonical hashes, and for any hashes without rebuilds |
| Agreement.RowAgreesWithEvent | internal/store/sqlite.go:1347-1430 | so when that condition holds each live row has the provenance of the event it names |
| Agreement.WithoutDeletesInformed | internal/store/sqlite.go:1381-1430 | runs without deletes and rebuilds are of that kind, whatever is delivered |
| Agreement.EventProvenanceOfAll | internal/store/rebuild.go:176-208 | over every run with sound hashes and fresh rebuild ids, each event carries the first non-empty values over all committed ingests and all that rebuilds replayed under its hash |
| Agreement.RowsCarryAllIff | internal/store/rebuild.go:176-208 | and the rows carry those values in a state if and only if rows and events agree there |
| ProvenanceLaws.RunSourced | internal/store/sqlite.go:1725-1755 | all stored text is trimmed, non-empty and within the size limit, and belongs to its hash |
| Replay.RebuildFixesLogIff | internal/store/rebuild.go:152-218 | a rebuild leaves the log unchanged if and only if every event it replays is already there under the hash of its own text with nothing to add |
| Replay.RebuildFixesCanonicalLog | internal/store/rebuild.go:152-218 | a canonical log survives every rebuild, whatever ids are generated |
| Replay.EventProvenanceReplayed | internal/store/rebuild.go:176-208 | with canonical hashes the first-non-empty law of the log survives full rebuilds anywhere in the run |
| Replay.ReplayClosedForm | internal/store/rebuild.go:176-208 | the tables after replaying any prefix of the log, in closed form, with the counters |
| Replay.FixedOnlyIfAbsorbed | internal/store/rebuild.go:176-208 | the log can only stay fixed if each replayed event was absorbed |
| Relabel.RebuildRestoresIff | internal/store/rebuild.go:152-218 | a full rebuild of any log under fresh ids recreates one memory per event that is not noise, in log order with text, provenance and time, if and only if no two of those events hold the same text |
| Relabel.RebuildRestores | internal/store/rebuild.go:152-218 | the replay theorem for canonical logs: log unchanged, one row per event that is not noise in log order with text, hash and all nine provenance fields, rebuilt plus skipped equals events, and what replay resets |
| Relabel.RebuildReports | internal/store/rebuild.go:152-218 | after a rebuild of any log the tags are the keywords of the rows, the links those the texts ask for, the index mirrors the rows; under fresh ids the counts are of events, of those that are not noise, and of those that are |
| Relabel.CanonicalRunRebuilds | internal/store/rebuild.go:152-218 | that theorem for every run of commands with canonical hashes, deletes and earlier rebuilds included, with both rebuilds |
| Relabel.SecondRebuildSameUpToIds | internal/store/rebuild.go:152-218 | a second rebuild reaches the same tables under an injective renaming of ids |
| Relabel.ReplayedRowsMatch | internal/store/rebuild.go:185-202 | row by row: text, provenance and time restored, phase, mask, scope and metadata reset |
| Counterexamples.UntrimmedHashBreaksReplay | internal/factprocessor/factprocessor.go:325-328 | content hashed before trimming makes a replay change the log |
| Counterexamples.UntrimmedHashDuplicates | internal/store/sqlite.go:1752-1754 | and the same text ends up in two live rows |
| Counterexamples.RebuildPartsThem | internal/store/rebuild.go:176-208 | one text from two sessions, once under its untrimmed hash: all writes are informed, and a rebuild leaves one row that disagrees with its event |
| Counterexamples.DeleteSplitsProvenance | internal/store/sqlite.go:287-295 | delete and re-ingest leave the row without provenance its event still has |
| Counterexamples.ReingestMakesTwoCycle | internal/store/sqlite.go:1419-1422 | an old fact ingested again replaces its successor, and the two marks form a cycle |
| Counterexamples.OwnMarkMakesTwoCycle | internal/store/versioning.go:80-105 | so does a new fact that brings a mark naming the row it replaces |
| Links.LinksStaySymmetric | internal/store/sqlite.go:1139-1247 | over every run with fresh ids, links between live rows are symmetric and every link has a live source |
| Links.NewRowSymmetricIff | internal/store/sqlite_schema.go:44-49 | a new row keeps symmetry exactly when no dangling link names its id |
| Links.ResolveAddsWanted | internal/store/sqlite.go:1139-1183 | resolving keeps all links and adds exactly those the texts ask for; it returns 0 exactly when nothing was added |
| Links.ResolveTwice | internal/store/sqlite.go:1139-1183 | a second call returns 0 and changes nothing |
| Links.ReindexDependsOnRows | internal/store/rebuild.go:110-147 | links after a reindex depend on the rows alone, and a second reindex changes no table and adds no tag |
| Links.IndexIsMeaning | internal/store/sqlite.go:1145-1151 | the title index finds the last listed row with the title, and no other |
| Supersession.SupersessionForward | internal/store/versioning.go:52-107 | over every run whose writes bring no mark of their own and whose facts have new content, without delete, each mark points to a live, later-inserted row |
| Supersession.SupersessionLiveForward | internal/store/versioning.go:52-107 | with deletes too, each mark whose target is live points to a later-inserted row |
| Supersession.MarkForwardIff | internal/store/versioning.go:80-105 | marking keeps all marks forward exactly when every marked row came first |
| Supersession.NoCycle | internal/store/versioning.go:80-105 | then no chain of marks returns to its start |
| Cycles.MarkCycleIff | internal/store/versioning.go:80-105 | marking rows as replaced by one row closes a cycle if and only if the marks lead from that row to one of them |
| Cycles.ReingestCycleIff | internal/store/sqlite.go:1419-1422 | writing known content again makes a cycle if and only if its row's marks lead to a row the write overtakes |
| Cycles.ReingestCycleIffLatest | internal/store/sqlite.go:1419-1422 | while all marks go forward: if and only if the write overtakes the newest version of that same fact |
| Cycles.NewRowCycleIff | internal/store/sqlite.go:1419-1472 | writing new content makes a cycle if and only if the mark it brings itself leads back to its own id or to a row the write overtakes |
| Cycles.PlainClosesNone | internal/store/versioning.go:80-105 | new content that brings no mark never does |
| Cycles.AlwaysAcyclicIff | internal/store/versioning.go:52-107 | over every run of any commands, marks are acyclic in every state if and only if no committed write closes a cycle in one of these two ways |
| Supersession.Latest | internal/store/versioning.go:24-43 | following the marks ends at a row without one |
| Supersession.EdgeWrittenOnce | internal/store/versioning.go:89-91 | a superseded row keeps the mark it has, whatever is written later |
| Consumers.MarksAccumulate | internal/store/sqlite.go:479-486 | any interleaving of marks leaves the initial mask OR the union of the bits |
| Consumers.MarksCommute | internal/store/sqlite.go:475-478 | only the set of marks matters, not their order or number |
| Consumers.MaskRefinesSet | internal/store/consumers.go:51-57 | the integer mask represents a set of consumers: set bits, no others, and unknown names are ignored |
| Consumers.DistinctBits | internal/store/consumers.go:10-39 | no two consumers share a bit |
| Search.PrefilterIsFullScanIff | internal/store/sqlite.go:889-1113 | for every query with a keyword, the indexed prefilter with scoring returns exactly what scoring all memories would, in the same order, CJK prefixes and first-keyword boost included, if and only if no row passes the filters and is found by a keyword in Go's fold while no pattern matches it in SQL's; without a keyword it fails |
| Search.PrefilterIsFullScan | internal/store/sqlite.go:889-1113 | so it loses nothing when each stored text folds alike in Go and in SQL |
| Search.SearchNeverMisses | internal/store/sqlite.go:974-1113 | and so in every state with such texts that a run can reach |
| Search.ScoredIffFound | internal/store/sqlite.go:1073-1102 | a text has a positive score if and only if some counted keyword, or the prefix fallback of one, occurs in its folded form |
| Search.FoundIsMatched | internal/store/sqlite.go:977-996 | a text that folds alike and is found matches one of the prefilter's patterns |
| Counterexamples.UmlautMissed | internal/store/sqlite.go:1066-1098 | an umlaut in upper case is scored by the loop and missed by the prefilter |
| Search.RarerWeighsMore | internal/store/sqlite.go:907-926 | for a monotone logarithm a rarer keyword weighs at least as much, never below the floor |
| SearchLaws.KeywordsAre | internal/store/sqlite.go:686-696 | the keywords are the trimmed maximal runs between delimiters of the folded query |
| SearchLaws.FieldsSplit | internal/store/sqlite.go:689-691 | splitting cuts at the delimiters and nowhere else and keeps every other character |
| SearchLaws.FirstReplaced | internal/store/sqlite.go:688 | the first " or " becomes a bar, and so on behind it |
| SearchLaws.NothingReplaced | internal/store/sqlite.go:688 | without " or " the query stays as it is |
| SearchLaws.CountIsHits | internal/store/sqlite.go:938-943 | both count probes count the rows whose text contains the keyword as SQL reads it |
| SearchLaws.WeightIsFloored | internal/store/sqlite.go:917-926 | a weight is the logarithm of the rarity, or 0.1 where that is less |
| SearchLaws.FallbackIs | internal/store/sqlite.go:950-971 | only a keyword with a Chinese character has a fallback, its longest proper prefix of two characters or more that some text contains |
| SearchLaws.SearchFinds | internal/store/sqlite.go:974-1111 | on texts that fold alike the result holds, once each, exactly the rows that pass phase, scope, source and tag filters and that some keyword finds |
| SearchLaws.OrderIs | internal/store/sqlite.go:1047-1105 | of two returned rows the one whose keywords weigh more together comes first, the first keyword counting twice; of equals the newer, then the one stored first |
| SearchLaws.FirstKeywordWins | internal/store/sqlite.go:1049-1094 | a row found by the first keyword alone comes before one found by another keyword alone that is no rarer |
| SearchLaws.MoreKeywordsWin | internal/store/sqlite.go:1070-1105 | a row found by all the keywords that find another one, through strings no more common, never ranks below it unless listed below, and ranks above it if one more keyword finds it |
| SearchLaws.SameKeywordsByAge | internal/store/sqlite.go:1014-1105 | rows found by the same keywords stand newest first, equally old ones as stored |
| Search.SearchLike | internal/store/sqlite.go:889-1113 | the loops over keywords and candidates compute the prefiltered search: statistics, candidates, scores, stable sort, tag filter; the SearchLaws rows say what that returns and in which order |
| Search.FindFallback | internal/store/sqlite.go:950-971 | the longest prefix of at least two characters that some text matches, only for CJK keywords |
| Search.WeighKeywords | internal/store/sqlite.go:927-972 | the three weight maps hold the corpus statistics |
| Search.CollectPatterns | internal/store/sqlite.go:978-996 | the candidate patterns, each once |
| Search.ScoreMemory | internal/store/sqlite.go:1073-1102 | one memory's score |
| Search.KeepTagged | internal/store/sqlite.go:1126-1137 | keeps the rows that carry all requested tags |
| Text.ContainsImpliesLike | internal/store/sqlite.go:989-1093 | on a text that folds alike, whatever Go's folded substring test accepts, the LIKE pattern accepts, wildcards in the keyword included |
| Text.LikeIgnoresCase | internal/store/sqlite.go:938-942 | the two count probes agree on case |
| Text.LikePrefixIff | internal/store/sqlite.go:619-620 | the pattern built from an id means starts with it, up to case, if and only if the id holds no wildcard |
| Text.LikeContains | internal/store/sqlite.go:938-942 | the pattern built from a keyword without wildcards means contains it, up to case |
| Text.LikeOne | internal/store/sqlite.go:938-942 | an underscore matches any one character |
| Text.TrimIs | internal/store/sqlite.go:1730 | trimming takes the white space off both ends, all of it, and nothing else |
| Text.SpaceIs | internal/store/sqlite.go:1730 | white space is Unicode's |
| Text.BytesOfChar | internal/store/sqlite.go:1734 | one to four bytes of UTF-8 by the range of the character |
| Text.ByteLenAppend | internal/store/sqlite.go:1734 | the byte length of a text is that of its parts together |
| Text.LowerIs | internal/entity/store.go:198-214 | folding maps each capital to its small letter and keeps every other character |
| Fusion.Fuse | internal/store/sqlite.go:848-887 | each document once, exactly those of the two lists, in order of fused score |
| Fusion.AddRank | internal/store/sqlite.go:864-873 | adds each occurrence's share to the score map |
| Fusion.DominanceWins | internal/store/sqlite.go:848-887 | at least as good in both lists and better in one comes first |
| Fusion.AgreementBound | internal/store/sqlite.go:857-887 | the top n of both lists always beat single-list documents if and only if n is at most 61 |
| Entities.EntityStore.CreateEntity | internal/entity/store.go:33-50 | appends an entity with the folded name, its kind and no alias, or fails exactly when the name or id is taken |
| Entities.EntityStore.AddAlias | internal/entity/store.go:130-148 | the entity gets the alias as written unless it has it up to case; fails on a missing entity |
| Entities.EntityStore.FindAlias | internal/entity/store.go:103-122 | the first entity with the alias up to case |
| Entities.EntityStore.ResolveMention | internal/entity/store.go:198-214 | names first, then aliases |
| Entities.EntityStore.RecordMention | internal/entity/store.go:191-196 | appends the mention, or fails on a missing entity |
| Entities.EntityStore.MergeEntities | internal/entity/store.go:150-189 | the source is gone, the target keeps id, name and kind and gets its own aliases, the source's name and the source's aliases, each once in that order, mentions of the source are the target's; everything else stays; a failed transaction changes nothing |
| Entities.UniqueStrings | internal/entity/store.go:258-269 | keeps first occurrences |
| Entities.UniqueAre | internal/entity/store.go:258-269 | no repeats, in the order of first occurrence |
| Entities.CreateKeepsPromise | internal/entity/store.go:33-50 | what creating promises, on any table |
| Entities.RecordKeepsPromise | internal/entity/store.go:191-196 | what recording promises, on any table |
| Entities.AliasKeepsPromise | internal/entity/store.go:130-148 | what adding an alias promises |
| Entities.MergeKeepsPromise | internal/entity/store.go:150-189 | what merging two entities promises, row by row and mention by mention |
| EntityLaws.ResolvesFirst | internal/entity/store.go:198-214 | on any table a mention means the first entity with its folded name, else the first with such an alias, else nothing |
| EntityLaws.MentionDoes | internal/daemon/entity_extract.go:139-156 | one name of a reply is recorded under what it resolves to, or under a new entity with the folded name and the given kind |
| EntityLaws.ResolveIsOwner | internal/entity/store.go:198-214 | while keys are disjoint, a mention resolves to the one entity that owns its folded key |
| EntityLaws.MergedKeys | internal/entity/store.go:161-177 | the keys of the merged entity are both entities' keys |
| EntityLaws.MergeKeeps | internal/entity/store.go:150-189 | a merge keeps keys disjoint and every mention, now pointing at the target |
| EntityLaws.MergeKeepsMentionsIff | internal/entity/store.go:150-189 | a merge that commits keeps every mention if and only if it merges two different entities, or one without mentions into itself |
| EntityLaws.MergeIsQuotientIff | internal/entity/store.go:150-214 | for every merge that commits: resolution after it is resolution before it with source mapped to target, if and only if the source is no entity, or source and target are two entities and the source's name is not empty or is also an alias |
| EntityLaws.NamesLost | internal/entity/store.go:150-189 | a self-merge, or a merge into an id that is no entity, commits and loses the source's names |
| EntityLaws.MergeResolves | internal/entity/store.go:150-214 | what every mention resolves to after a merge, the empty one included |
| EntityLaws.MentionResolves | internal/daemon/entity_extract.go:144-154 | a recorded mention is the last one, and its text resolves to the entity it points at |
| EntityLaws.AliasResolvesIff | internal/entity/store.go:103-148 | a new alias resolves to its entity if and only if it has no white space at an edge, or its trimmed form did already |
| EntityLaws.RunIsQuotient | internal/entity/store.go:33-214 | over any run of mentions, merges and free aliases, names and mentions follow the merges, none is lost or left dangling |
| Extraction.EntityExtractionTask.RunBatch | internal/daemon/entity_extract.go:108-160 | for any reply on any entity table: exactly the rows the reply settles are marked, and exactly the admissible names are resolved or created and recorded, in order |
| Extraction.EntityExtractionTask.RecordNames | internal/daemon/entity_extract.go:139-156 | trims, skips empty and overlong names, and counts what it recorded |
| Extraction.EntityExtractionTask.Run | internal/daemon/entity_extract.go:47-165 | one reply per batch, exactly the rows those settle marked and exactly the names they ask for looked up and recorded, in order; it empties the backlog if and only if they clear it, and shrinks it strictly whenever it records anything |
| Extraction.EntityExtractionTask.Drain | internal/cmd/entity_build.go:72-90 | ends for every sequence of replies within one round more than there were pending memories; something waits at the end only if the last round recorded nothing, and whether it does is decided by that round's replies |
| Extraction.ZeroIsNotDrained | internal/cmd/entity_build.go:79-81 | replies that report nothing make a round return 0 with the backlog unchanged |
| Backlog.SettlesWholeIff | internal/daemon/entity_extract.go:122-158 | a reply settles its whole batch if and only if it is unreadable or reports on every index |
| Backlog.RoundClearsIff | internal/daemon/entity_extract.go:60-161 | a round empties the backlog if and only if it lists all of it and every reply settles its whole batch |
| Backlog.WaitingAfter | internal/store/sqlite.go:504-544 | after marking, exactly those still wait that waited and were not settled |
| Backlog.SettledShrinks | internal/store/sqlite.go:504-544 | settling any listed row makes the backlog strictly smaller |
| Backlog.NothingPending | internal/store/sqlite.go:504-544 | the listing is empty, for any limit, if and only if nothing waits |
| Backlog.PendingOrder | internal/store/sqlite.go:504-544 | the listing is oldest first, as long as the limit allows (a hundred without one), and holds no row without every older one that waits |
| Backlog.BatchesOfFive | internal/daemon/entity_extract.go:77-84 | the batches are the listing cut into fives |
| Extraction.NameAsksAre | internal/daemon/entity_extract.go:139-147 | one ask per name that is not empty and at most fifty bytes once trimmed, in order, with its kind |
| Extraction.OneFindingAsks | internal/daemon/entity_extract.go:131-147 | a finding asks for its own names under the memory its index names, or for none outside the batch |
| Extraction.FindingAsksConcat | internal/daemon/entity_extract.go:131-147 | the findings are taken in order |
| Extraction.ExtractionOnlyAdds | internal/daemon/entity_extract.go:131-160 | on a table with disjoint keys, whatever the model answers, every name keeps its entity and every mention stays |
| Chunking.ChunkContents | internal/factprocessor/factprocessor.go:174-199 | chunks concatenate to the input, fit both limits or hold one item, are filled greedily, and projects stay aligned |
| Chunking.ChunkingIsOptimal | internal/factprocessor/factprocessor.go:174-199 | no contiguous partition that meets the limits has fewer chunks |
| Chunking.GreedyIsShortest | internal/factprocessor/factprocessor.go:180-193 | the greedy partition is never behind another one at any cut |
| Sessions.SortSessionByPrompt | internal/factprocessor/factprocessor.go:263-288 | buckets by prompt in first-seen order, each sorted stably by time |
| Sessions.ArrangedLaws | internal/factprocessor/factprocessor.go:259-288 | a permutation with contiguous prompts in first-seen order and stable time order inside |
| Sessions.ArrangedOrder | internal/factprocessor/factprocessor.go:276-286 | the items of one prompt stand in time order, those of one time as they arrived |
| Sessions.GroupBySession | internal/factprocessor/factprocessor.go:221-257 | sessions by id, the rest appended run by run, for any order of equal times and any stamp format |
| Sessions.ItemsConserved | internal/factprocessor/factprocessor.go:221-257 | every item is in one group, as often as in the input, whatever the ids are |
| Sessions.SameGroupIffConnected | internal/factprocessor/factprocessor.go:241-255 | two sessionless items share a group if and only if a chain of items at most thirty minutes apart joins them |
| Sessions.SessionGroupIff | internal/factprocessor/factprocessor.go:231-255 | a session's group is its own items, arranged, if and only if no sessionless run starts in the second its id stamps |
| Sessions.SessionGroup | internal/factprocessor/factprocessor.go:231-239 | then it is a permutation of them with prompts contiguous in first-seen order and time order inside |
| Sessions.StampedSessionTakesOthers | internal/factprocessor/factprocessor.go:245-246 | a session named like the stamp of a sessionless item receives that item |
| Spread.SpreadByDate | internal/dashboard/agent.go:605-635 | exactly n distinct positions, a prefix of each date's list, fair between dates; the loop ends |
| Spread.GroupByDate | internal/dashboard/agent.go:609-617 | positions per date in order, dates in first-seen order |
| Spread.DealtIsFair | internal/dashboard/agent.go:618-634 | no date gets two more than a date that was not exhausted |
| PromptHash.PromptHash | internal/llm/usage.go:211-223 | the byte loop computes the hash; empty stays empty, else 16 hexadecimal digits |
| PromptHash.HashByte | internal/llm/usage.go:218-221 | each byte goes in behind the ones before it: exclusive or, then times the FNV prime modulo 2^64 |
| PromptHash.XorBit | internal/llm/usage.go:219 | bit by bit, the exclusive or |
| PromptHash.HexAt | internal/llm/usage.go:222 | digit by digit, the lower-case hexadecimal form |
| PromptHash.StepInjective | internal/llm/usage.go:218-221 | one xor-multiply step is injective in the state and in the byte |
| PromptHash.TimesPrimeInverse | internal/llm/usage.go:216-220 | the multiplier has an inverse modulo 2^64 |
| PromptHash.PrintedFormInjective | internal/llm/usage.go:222 | equal printed forms mean equal hashes |
| PromptHash.NeverFnv | internal/llm/usage.go:208-222 | no prompt's printed hash is the one FNV-1a would print |
| PromptHash.OneByteNeverCollides | internal/llm/usage.go:208-223 | prompts of equal length that differ in one byte never share a printed hash |
| PromptChain.BuildIndex | internal/ingest/conversations.go:96-107 | the index maps each uuid to the last entry that carries it |
| PromptChain.IndexIs | internal/ingest/conversations.go:96-107 | a uuid is indexed with what the last entry that carries it says, the empty one never |
| PromptChain.Resolver.ResolvePromptID | internal/ingest/conversations.go:116-130 | ends on every parent graph, cyclic or dangling, with the prompt id of the nearest chain element that has one, or empty if none has |
| PromptChain.PromptIsDetermined | internal/ingest/conversations.go:112-130 | that prompt id is unique |
| PromptChain.NoneOnCycle | internal/ingest/conversations.go:114-119 | cutting a cycle loses nothing |
| PromptChain.EntryPrompt | internal/ingest/conversations.go:153-157 | an entry's own prompt id comes before an inherited one |
| Pairing.ParseRollout | internal/ingest/zcode.go:98-180 | the two state variables pair a prompt with exactly the turn that opens its block; noise contents are dropped, order kept |
| Pairing.ExchangesAre | internal/ingest/zcode.go:98-118 | one exchange per model turn whose trimmed answer has twenty bytes, in order |
| Pairing.Admit | internal/ingest/zcode.go:119-137 | one turn of that state machine, with the invariant that ties it to the last prompt seen |
| Pairing.BlockHasOneOpening | internal/ingest/zcode.go:91-97 | every turn that shows a prompt lies in a block with exactly one opening turn |
| Pairing.AskedAgain | internal/ingest/zcode.go:119-128 | the same prompt is paired again only after a different one |
| Pairing.EveryBlockIsRemembered | internal/ingest/zcode.go:139-148 | a block's prompt and first answer always reach the store |
| Pairing.PairIsKept | internal/ingest/conversations.go:264-315 | prefixed content always passes the noise filter |
| Pairing.LastUserPrompt | internal/ingest/zcode.go:187-219 | the newest user message with usable text decides |
| Pairing.WindowPromptIsNewest | internal/ingest/zcode.go:185-219 | what that means, and that empty means no message offers any |
| Pairing.OfferIs | internal/ingest/zcode.go:189-217 | a user message offers its trimmed text, or that of its first block, that is not empty and no system reminder |
| Pairing.ShouldFilterContent | internal/ingest/conversations.go:264-315 | the noise filter, its scanning loop included |
| Pairing.FilteredIff | internal/ingest/conversations.go:264-315 | exactly short contents, commands and tool outputs, texts without a letter, digit or Chinese character, and the stock replies are noise |
| FrontMatter.WriteToFile | internal/store/store.go:348-358 | what the builder holds at the end, and exactly when reading it gives header and trimmed body back |
| FrontMatter.RoundTripIff | internal/store/store.go:348-397 | reading back gives the header and the trimmed body if and only if no line inside the header looks like the separator; the body may hold anything |
| FrontMatter.RewriteIsStable | internal/store/store.go:375-397 | any file that can be read survives being written and read again |
| FrontMatter.ReadFailsIff | internal/store/store.go:375-397 | reading fails exactly without a separator line at the start or without a second one |
| FrontMatter.TrimSplits | internal/store/store.go:392 | only newlines are trimmed, all of them, at both ends |

## Left out

- SHA-256 is taken as injective; a collision would make two contents one event.
- The columns expires_at, version, access_count, updated_at, processed_by and the tags column of the full-text index: no modelled statement reads them. Agreement of the index with the rows is therefore claimed for ids, content, scope and source.
- Keyword extraction, categorisation, term extraction, titles, wiki-link scanning and the noise test are arbitrary functions, so nothing is said about their own tables and patterns.
- The entity tables that a full rebuild also wipes, and links that name a deleted entity's memory: the entity graph is modelled apart from the memory tables.
- Unicode case folding outside the search: tags, titles, entity names and the noise filter fold ASCII case only. Invalid UTF-8: text is a sequence of characters with its UTF-8 length.
- LIKE escapes, the LIKE length limit, and bm25: the full-text half of the hybrid search enters rank fusion as an arbitrary duplicate-free list.
- The project, session, category and date filters of the search; only phase, scope, excluded sources and tags are modelled, as in the code.
- Direct updates made outside the store (project stamps, retagging, evidence rewriting), phase upgrades and resets, reminders, graduation, statistics: easy members.
- Ties of ORDER BY created_at are taken in row order, and all times in one zone.
- Statement errors other than the key constraints, and cancelled contexts: a statement that reaches the database succeeds or the transaction rolls back.
- RebuildFromEvents runs its replay without a surrounding transaction; an interruption between its statements is not modelled.
- YAML encoding and decoding of the header, file names and directories: the header is any text that ends in a newline, and the legacy phase defaults are left out.
- JSON decoding of transcripts: a line is malformed or a turn, a message holds text, blocks or something else. The fields a scanner merely copies (times, tags, model names) are left out.
- HTTP, MCP, sockets, the command line, the dashboard, notifications, file watching and model prompts.
- Fusion.Fuse: does not fix the order of documents with equal scores, because the code collects them from a map in random order.
- Sessions.GroupBySession: does not fix the order of sessionless items with equal times, because the code sorts them with an unstable sort.
- Chunking.ChunkContents: states the limits only for a count limit of at least one, because with a smaller one the code starts by emitting an empty chunk.
