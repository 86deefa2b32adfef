# tagz: a verified model of the tag catalogue

tagz is an HTTP service that keeps a catalogue of file names annotated with
tags, stored in SQLite. This project models the catalogue's data layer and
its route handlers in Dafny and proves what they do.

- **Store.** `Database.Store` is a class holding the three tables of the schema in
  `src/config.rs`:
  - `files`, a map from id to name;
  - `tags`, a map from id to name;
  - `file_tags`, a set of `(file_id, tag_id)` pairs;
  - the two AUTOINCREMENT counters.

  Its invariant `Valid` is the schema's constraints: names are UNIQUE and ids
  come from the counters.
- **Model layer.** The statements of `src/models/*.rs` are methods on that state
  where they write to it. Where they only read, they are functions of it, or
  read-only methods: `FindSpecificAmountByTagsIdsOnPage` is proved equal to
  the function `Page`, and `Relationships.AllInFileIds` fixes the set of rows
  but leaves their order open.
- **Handlers.** The handlers of `src/serv/routes/api/files.rs` and
  `src/serv/routes/api/tags.rs` are methods that run the same check-then-mutate
  sequences. Each handler's contract gives its result and its new state for
  every branch.
- **SQL errors.** Constraint violations are values of `SqlError`, carrying
  SQLite's `UNIQUE constraint failed: ...` text.
- **Service errors.** `ServiceErrors` models the error type that the handlers
  turn them into.

Modules:

- `Wrappers`: `Option`, `Result`.
- `Seqs`: distinctness and element sets of sequences.
- `Config`: the default page sizes of `src/config.rs:5-7` (50, 50 and 2),
  as constants; `FileModel.DefaultSizesExact` states what they give as
  LIMIT and OFFSET.
- `Sql`: the `?,?,?` placeholder list.
- `ServiceErrors`: the error type and its constructors.
- `Database`: the store.
- `TagModel`, `FileModel`, `Relationships`: the model layer.
- `FilesApi`, `TagsApi`: the handlers.
- `Scenarios`: scenarios on small stores, with their outcomes proved.

Some behaviour is modelled as the code is written, not as one might expect
(see "Behaviour as written" below).

- `create_with_tags` is not atomic.
- The relationship existence check and delete bind their ids swapped.
- The paged query repeats a file once per matching tag.

## Model

| member | source | states |
|---|---|---|
| ServiceErrors.BadRequest | src/serv/service_error.rs:22-32 | status code 400, the given status and message, no details |
| ServiceErrors.NotFound | src/serv/service_error.rs:34-44 | status code 404, the given status and message, no details |
| ServiceErrors.WithDetails | src/serv/service_error.rs:46-52 | details become `Some(details)`; status code, status and message are kept |
| ServiceErrors.FromSql | src/serv/service_error.rs:62-71 | every SQL error becomes status code 500 with status `SQL` and the error's text as message |
| ServiceErrors.SqlMessage | src/serv/service_error.rs:68 | the error's `Display` text: `UNIQUE constraint failed: ` followed by the constrained columns |
| ServiceErrors.SqlMessageInjective | src/serv/service_error.rs:68 | two constraint errors have the same text exactly when they are the same error, so the 500 message names the failed constraint |
| ServiceErrors.StatusCode | src/serv/service_error.rs:73-77 | the stored status code is returned |
| ServiceErrors.WithMessage | src/serv/routes/api/tags.rs:40 | only the message is replaced; code, status and details are kept |
| Database.Store.Valid | src/config.rs:13-36 | the schema's constraints: file and tag names are UNIQUE (and never null), and every id lies between 1 and its table's AUTOINCREMENT counter; the primary key of `file_tags` is the link set being a set |
| Database.Store.constructor | src/config.rs:10-38 | a new database has three empty tables, both counters at 0, and satisfies the schema invariant |
| Database.FirstWithName | src/models/tag.rs:56 | a `name = ? LIMIT 1` lookup over an id range finds an id carrying that name, or proves that none in the range does |
| Database.FirstWithNameFinds | src/models/file.rs:85 | over the ids a counter has handed out, the lookup succeeds exactly when some row has the name |
| Sql.Placeholders | src/models/file.rs:96-98 | the string is `n` question marks separated by single commas, and empty for `n = 0` |
| Sql.PlaceholderCounts | src/models/relationships.rs:38-42 | a placeholder list for `n` values holds exactly `n` `?` and `n - 1` commas, and starts and ends with `?` |
| TagModel.TagScan | src/models/tag.rs:104 | a rowid-order scan returns exactly the rows of the kept ids in the range, in strictly increasing id order |
| TagModel.Create | src/models/tag.rs:11-18 | a taken name fails with the UNIQUE error on `tags.name` and changes nothing; otherwise the tag gets the next counter value, larger than every existing id |
| TagModel.UnlinkAllFiles | src/models/tag.rs:20-26 | exactly the links with this tag id are removed; no related file remains; nothing else changes |
| TagModel.Delete | src/models/tag.rs:28-31 | only the tag row with this id is removed; links are left alone |
| TagModel.HasRelatedFiles | src/models/tag.rs:33-38 | true exactly when some link has this tag id |
| TagModel.FindByName | src/models/tag.rs:52-59 | the result carries the requested name and is a row; under the invariant it is present exactly when the name exists, and it is the only row with that name |
| TagModel.NameExists | src/models/tag.rs:61-69 | under the invariant, true exactly when `FindByName` finds a row |
| TagModel.ExtractFromName | src/models/tag.rs:40-50 | the row named `name`, or `TAG_NOT_FOUND` exactly when there is none |
| TagModel.FindAllWhereInNames | src/models/tag.rs:71-85 | every returned row has a requested name; under the invariant every row with a requested name is returned, ids ascend and names are distinct |
| TagModel.FindAllWhereInIds | src/models/tag.rs:87-93 | the returned rows are exactly the rows whose id was requested, in ascending id order |
| TagModel.All | src/models/tag.rs:103-107 | every returned item is a row; under the invariant every row is returned once, ids ascending |
| TagModel.NamesOf | src/serv/routes/api/tags.rs:57-60 | the names of the rows, position by position |
| TagModel.IdsOf | src/serv/routes/api/files.rs:56 | the ids of the rows, position by position |
| TagModel.ScanNamesFound | src/models/tag.rs:82 | the names of the found rows are exactly the requested names that exist |
| TagModel.ScanNamesDistinct | src/models/tag.rs:82 | the found rows have pairwise different names |
| TagModel.WhereInNamesCount | src/models/tag.rs:71-85 | the name lookup returns one row per distinct existing requested name, never more rows than names, and as many as names exactly when the names are distinct and all exist |
| TagModel.CountFound | src/models/tag.rs:82 | at most one found name per requested name, and as many as requested exactly when the names are distinct and all exist |
| TagModel.ScanAllCount | src/models/tag.rs:104 | the full-table scan has one row per table entry |
| TagModel.ScanAllIds | src/models/tag.rs:104 | the ids of the full scan are exactly the ids of the table |
| TagModel.AllCount | src/models/tag.rs:103-107 | `all` returns as many rows as the table holds |
| TagModel.ScanAllNames | src/models/tag.rs:104 | the names from the full scan are distinct and are exactly the existing names |
| TagModel.ScanAllHasNames | src/models/tag.rs:104 | a name is in the full scan exactly when some tag carries it |
| FileModel.Insert | src/models/file.rs:13-22 | a taken name fails with the UNIQUE error on `files.name` and changes nothing; otherwise the row gets the next counter value |
| FileModel.CreateWithTags | src/models/file.rs:25-45 | a taken name changes nothing. Otherwise the file row is always added. The links are added exactly when the ids are distinct and none is already linked; otherwise the links roll back and the primary-key error is returned. A returned row has empty `tags` |
| FileModel.Create | src/models/file.rs:47-54 | a taken name fails and changes nothing; otherwise the file read back has the new id, larger than every existing id, and empty `tags` |
| FileModel.Delete | src/models/file.rs:56-59 | only the file row with this id is removed; links are left alone |
| FileModel.UnlinkAllTags | src/models/file.rs:61-67 | exactly the links with this file id are removed, and none remains |
| FileModel.FindByName | src/models/file.rs:81-88 | the row named `name` with empty `tags`; under the invariant it is present exactly when the name exists, and it is unique |
| FileModel.NameExists | src/models/file.rs:112-120 | under the invariant, true exactly when `FindByName` finds a row |
| FileModel.ExtractFromName | src/models/file.rs:69-79 | the row named `name`, or `FILE_NOT_FOUND` exactly when there is none |
| FileModel.ExtractIdExists | src/serv/routes/api/files.rs:143 | succeeds exactly when the id is a file row; its error is a client error |
| FileModel.JoinRows | src/models/file.rs:102-104 | every join row is a file row with empty `tags` that is linked to a queried tag id; rows come in non-increasing id order |
| FileModel.JoinRowsOf | src/models/file.rs:102 | the join rows one file contributes are copies of its row with empty `tags`, present only if it links a queried tag id |
| FileModel.JoinRowsOfCount | src/models/file.rs:102 | one file contributes exactly as many join rows as queried tag ids link it |
| FileModel.JoinRowCount | src/models/file.rs:102 | with no DISTINCT, a file linked to `k` of the queried tag ids occurs exactly `k` times in the join; a non-row occurs zero times |
| FileModel.ToI32 | src/models/file.rs:108 | `as i32` on a u32 gives a value in the i32 range, equal to the input or to the input minus 2^32 |
| FileModel.LimitParam | src/models/file.rs:108 | `amount as i32`: the amount itself when it fits in i32, otherwise negative, which SQLite reads as no limit |
| FileModel.OffsetParam | src/models/file.rs:108 | `(amount * page) as i32` with the u32 product wrapping: an i32 value congruent to `amount * page` modulo 2^32 |
| FileModel.WrapCongruent | src/models/file.rs:108 | reducing a product modulo 2^32 and reinterpreting it as i32 changes it by a multiple of 2^32 |
| FileModel.Window | src/models/file.rs:104 | LIMIT/OFFSET select the slice starting at the offset (negative counts as 0), of at most `limit` rows (negative: no limit) |
| FileModel.Page | src/models/file.rs:100-108 | the rows the query returns: the LIMIT/OFFSET window of the join ordered by id descending; under the schema invariant the join over ids up to the counter sees every file row |
| FileModel.FindSpecificAmountByTagsIdsOnPage | src/models/file.rs:90-110 | the rows are the LIMIT/OFFSET window of the descending join. At most `amount` rows when `amount` fits in i32. Every row is a file linked to a queried tag, in non-increasing id order |
| FileModel.PageRows | src/models/file.rs:100-108 | `PageShape` of the page: at most `amount` rows when `amount` fits in i32, every row the row of a stored file linked to a queried tag id (`Linked`), ids non-increasing |
| FileModel.JoinRowsLinked | src/models/file.rs:100-104 | every row of the join is the row of a stored file that a link ties to one of the queried tag ids |
| FileModel.SliceShape | src/models/file.rs:104 | a LIMIT/OFFSET slice of linked rows in descending id order is linked and descending too |
| FileModel.OffsetExact | src/models/file.rs:108 | when `amount * page` fits in i32 the OFFSET parameter is exactly that product |
| FileModel.DefaultOffsetFits | src/config.rs:7 | with the default page size 2 and a u16 page number, OFFSET is `2 * page` and at most 131070, and LIMIT is 2 |
| FileModel.DefaultSizesExact | src/config.rs:5-7 | each default page size (50, 50, 2) with a u16 page number gives LIMIT equal to the size and OFFSET exactly `size * page`, with no wrap-around |
| FileModel.LargePageSizeWraps | src/models/file.rs:108 | with page size 65536 and page 65535 the u32 product wraps and OFFSET becomes -65536, which SQLite reads as 0 |
| FileModel.FirstPagesArePrefix | src/models/file.rs:104 | pages 0 to k-1 of size `n`, laid end to end, are exactly the first `n * k` rows; nothing is skipped or repeated |
| FileModel.PageAfterPrefix | src/models/file.rs:104 | the page of `n` rows at offset `off` extends the first `off` rows to the first `off + n` |
| FileModel.DefaultPagesArePrefix | src/serv/routes/api/files.rs:81-86 | with the default page size and u16 page numbers, each page is the window at `2 * page` of the join, so consecutive pages tile it |
| Relationships.FileIdAndTagIdExists | src/models/relationships.rs:3-8 | as bound, true exactly when the swapped pair (file `tagId`, tag `fileId`) is a link |
| Relationships.DeleteBetweenFileIdAndTagId | src/models/relationships.rs:10-19 | as bound, removes exactly the swapped pair. It always returns `false`. Nothing else changes |
| Relationships.CreateFileTag | src/models/relationships.rs:28-31 | adds exactly the pair (file `fileId`, tag `tagId`); a pair already present fails with the primary-key error and changes nothing |
| Relationships.AllInFileIds | src/models/relationships.rs:33-47 | the rows are exactly the links whose file id is requested, each once |
| Relationships.ExistsCheckIsSwapped | src/models/relationships.rs:4-5 | with the single link (1, 2), the check says no for (1, 2) and yes for (2, 1) |
| FilesApi.TagsNotFound | src/serv/routes/api/files.rs:27-31 | the error is 400 `TAGS_NOT_FOUND` with the lost names as details |
| FilesApi.Split | src/serv/routes/api/files.rs:76 | splitting gives at least one piece and no piece contains the separator |
| FilesApi.JoinSplit | src/serv/routes/api/files.rs:76 | joining the pieces with the separator gives back the query text |
| FilesApi.SplitJoin | src/serv/routes/api/files.rs:76 | splitting a join of separator-free pieces gives back the pieces |
| FilesApi.JoinFirst | src/serv/routes/api/files.rs:76 | a join whose first piece is non-empty starts with that piece's first character, followed by the join with it dropped |
| FilesApi.Lost | src/serv/routes/api/files.rs:21-25 | never longer than the request; a name is lost exactly when it was requested and no found tag carries it |
| FilesApi.LostCounts | src/serv/routes/api/files.rs:21-25 | each name occurs in `lost` as often as in the request if no found tag has it, and never otherwise |
| FilesApi.ResolveTags | src/serv/routes/api/files.rs:3-35 | a successful resolution has exactly as many tags as names |
| FilesApi.CollectNames | src/serv/routes/api/files.rs:13-17 | the hash set holds exactly the names of the found tags |
| FilesApi.CollectLost | src/serv/routes/api/files.rs:19-25 | `lost` is the requested names missing from the set, in request order with repetitions; a name is in it exactly when requested and missing |
| FilesApi.FindTagsByNames | src/serv/routes/api/files.rs:3-35 | its two loops compute exactly the resolution of the names. The capacity subtraction cannot underflow |
| FilesApi.ResolveTagsSucceeds | src/serv/routes/api/files.rs:10-12 | resolution succeeds exactly when the names are distinct and all exist; the resolved tags then carry exactly the requested names |
| FilesApi.ResolveTagsLost | src/serv/routes/api/files.rs:19-31 | on failure the details list each non-existent requested name as often as requested, and no existing name |
| FilesApi.RepeatedNameFails | src/serv/routes/api/files.rs:12 | repeating an existing name fails even though every name exists, with an empty list of lost names |
| FilesApi.Create | src/serv/routes/api/files.rs:43-63 | a taken name is `DUPLICATION`, and unresolvable tags are the resolution error, both changing nothing. Otherwise the file gets the next id and links to exactly the resolved tag ids, and the response has the resolved tags. It can fail only when a link already names the new id, which never happens while links name handed-out ids |
| FilesApi.CreateLinked | src/serv/routes/api/files.rs:53-62 | with the name free and the tags resolved, the file gets the next id; the result is OK with the resolved tags and exactly their links exactly when none of those links is already stored, and otherwise the `file_tags` UNIQUE error with the links unchanged; under `LinksAssigned` it is always OK |
| FilesApi.List | src/serv/routes/api/files.rs:73-90 | the split names are resolved; on success the result is the page of the join over the resolved ids; `exact` has no effect |
| FilesApi.Delete | src/serv/routes/api/files.rs:93-105 | an unknown name is `FILE_NOT_FOUND` with no change; otherwise every link of the file and then its row are removed, and no link names its id |
| FilesApi.Remove | src/serv/routes/api/files.rs:108-126 | an unknown tag is `TAG_NOT_FOUND`. The swapped pair is deleted when it exists; otherwise the result is `RELATIONSHIP_NOT_FOUND` with no change |
| FilesApi.Add | src/serv/routes/api/files.rs:129-149 | unknown tag, swapped pair present, or unknown file id each give their error with no change. An existing link gives the 500 SQL error. Otherwise exactly the pair `(fileId, tag.id)` is added |
| TagsApi.Create | src/serv/routes/api/tags.rs:8-17 | a taken name is `TAG_DUPLICATION` with no change; otherwise the tag is created with the next id |
| TagsApi.Delete | src/serv/routes/api/tags.rs:25-50 | an unknown name is `TAG_NOT_FOUND`. A tag with links and no `confirm=true` gives `CONFIRMATION_REQUIRED` with the rewritten message and no change. Otherwise its links and then its row are removed, and the name is gone |
| TagsApi.List | src/serv/routes/api/tags.rs:53-61 | one name per row of `all`, in order |
| TagsApi.ListNames | src/serv/routes/api/tags.rs:53-61 | the list holds every tag name exactly once and nothing else |
| Scenarios.CreateWithRepeatedTagKeepsFile | src/models/file.rs:30-42 | a repeated tag id makes `create_with_tags` fail, yet the file row stays and no link is left |
| Scenarios.AddExistingLinkIsSqlError | src/serv/routes/api/files.rs:137-145 | `add` of a link already present answers the 500 SQL error, not `RELATIONSHIP_EXISTS` |
| Scenarios.RemoveDeletesSwappedLink | src/serv/routes/api/files.rs:116-117 | `remove` of tag 1 from file 2 deletes the link of file 1 to tag 2 and keeps the requested link |
| Scenarios.RemoveMissesExistingLink | src/serv/routes/api/files.rs:116-125 | `remove` of an existing link whose swapped twin is absent answers `RELATIONSHIP_NOT_FOUND` and keeps the link |

## Behaviour as written

In each of these points the model states what the code does, not what one
might expect of a tag catalogue.

- **`create_with_tags` is not atomic.** It inserts the file row before it opens
  the transaction (`src/models/file.rs:30-34`). When a link insert fails, the
  links roll back but the file row stays, where one might expect
  all-or-nothing creation. `FileModel.CreateWithTags` states the
  code's behaviour, and `Scenarios.CreateWithRepeatedTagKeepsFile` exhibits it.
  Through the `create` handler, though, the links step cannot fail: the tag
  ids are resolved distinct rows, and the new id is beyond every link.
  `FilesApi.Create` proves this under the invariant `LinksAssigned`, which
  every handler preserves.
- **Swapped binding.** `file_id_and_tag_id_exists` and
  `delete_between_file_id_and_tag_id` bind `(file_id, tag_id)` into
  `tag_id=? AND file_id=?`. So `remove` tests and deletes the link with the ids
  exchanged, and the guard in `add` does not test the pair it then inserts.
- **No DISTINCT.** The paged query repeats a file once per matching tag
  (`FileModel.JoinRowCount`).
- **No referential integrity.** The schema declares no FOREIGN KEY, so a link
  may name ids that are not rows. Links read as references that must not
  dangle, but nothing enforces it, and the model keeps no such invariant.
- **No exact mode, no hydration.** An exact tag-set mode and per-file tag
  lists in the listing would be expected. The code has neither: `list`
  passes its `exact` flag to a page query that takes no such parameter, and
  the returned files keep the empty `tags` of the row reader.

## Left out

- HTTP routing, scopes and the JSON/no-content response macros: framework plumbing. A handler's response is its `Result` value.
- The connection mutex and the page sizes held in global mutexes: concurrency. Handlers run one at a time, and `FilesApi.List` takes the page size as a parameter.
- Database opening, table creation, the command-line entry point and the application configuration: start-up I/O.
- The `FromRow` derive macro: only its effect is modelled. `File.tags` is read back as the empty default.
- SQL text and its parsing: tables are maps and a set, and statements are model operations. The `?,?,?` builder is the one string modelled.
- `Tag::find_related_to_file` and `File::update_tags`: their SQL puts `WHERE` before `INNER JOIN`, so SQLite would reject it.
- Timestamps (`CURRENT_TIMESTAMP`, `NaiveDateTime`): they depend on the clock. The `serde_json` form of `details` is modelled as a list of strings.
- Storage faults other than UNIQUE and primary-key violations (I/O errors, a busy database): reads never fail in the model.
- Row order of unordered queries: SQLite gives no guarantee. The model fixes rowid order for the tag queries and leaves `all_in_file_ids` open.
- Id width: ids are unbounded integers, while the source uses `i32` and SQLite 64-bit integers.
- `File::extract_id_exists`, `service_error::consts` and `with_message` are not part of this model's sources. `extract_id_exists` is taken as `FILE_NOT_FOUND` unless the id is a file row. `TAG_DUPLICATION` and `CONFIRMATION_REQUIRED` are taken to be 400 errors with those statuses and an empty message. `with_message` is taken to replace only the message.
- FileModel.OffsetParam: the `u32` product `amount * page` is modelled with release-build wrap-around; a debug build would panic on overflow instead.
- FilesApi.List: the `exact` flag is accepted and ignored, as in the code; no exact-match filtering is modelled.
- TagsApi.Create: the SQL-error branch of the insert is kept, though the preceding name check means it is never taken.
