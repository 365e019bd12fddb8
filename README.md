# Reviews import and store, modelled in Dafny

This project models the core of a Spring service that imports product reviews
from an upstream HTTP API and keeps them in a `reviews` table. Each review is
identified by its natural key `(source, external_id)`.

There are two import paths and two writers:

- **ReviewImportService** is the paged importer. Its `importAll` loop asks
  for pages 1, 2, … of the upstream. `parseAndValidate` decodes each page as
  a `{"reviews": [...], "paging": {...}}` envelope and drops the records that
  fail Bean Validation (`ReviewInDto`: `@NotBlank` id and source, rating in
  1..5). It then hands the valid rows to **BulkReviewWriter.upsertBatch**: one
  JDBC batch of `INSERT … ON DUPLICATE KEY UPDATE` in one transaction, with one
  timestamp. The loop stops on an empty page, on any exception, or after the
  last page announced by the upstream.
- **ImportService** is the older single-request importer. It walks the
  response as a JSON tree, applies only null checks and the rating range, and
  calls **ReviewService.upsert** once per surviving node. `upsert` finds or
  creates the entity, overwrites its fields, stamps it and replaces its tag
  set. ReviewService also offers `get`, `delete` and `toDto`.
- **PaginationUtil.createPageable** turns a 1-based page and a requested size
  into a 0-based page request, with the size clamped to 1..200.

Module layout, one module per source file plus shared values:

| file | module | models |
|---|---|---|
| `wrappers.dfy` | `Wrappers` | `Option` (a nullable reference), `Attempt` (a call that returns or throws) |
| `java_text.dfy` | `JavaText` | `Character.isWhitespace`, `String.isBlank`, `String.trim` |
| `schema.dfy` | `Schema` | timestamps, the natural key, the `AppProperties` bean |
| `upstream.dfy` | `Upstream` | `ReviewInDto` and its validation constraints |
| `pagination_util.dfy` | `PaginationUtil` | both `createPageable` overloads |
| `bulk_review_writer.dfy` | `BulkWriter` | class `BulkReviewWriter` over a table keyed by natural key; `getNormalized` |
| `review_import_service.dfy` | `ReviewImport` | class `ReviewImportService`: `parseAndValidate` and the `importAll` page loop, each proved against a specification function |
| `review_import_proofs.dfy` | `ReviewImportProofs` | properties of the validation pass and of the page loop, and an end-to-end example |
| `review_service.dfy` | `Reviews` | class `ReviewService` over reviews by id plus the natural-key index |
| `import_service.dfy` | `LegacyImport` | the JSON tree, `text`, and class `ImportService` with `importAll` |

The world outside the program is passed in as parameters:

- the upstream's response to each page;
- what the database does with each batch or each save (commits at a given
  clock reading, or rolls back);
- Jackson's text-to-int conversion and the date parser of the legacy importer.

In these places the model follows the code:

- The paged importer decodes only the envelope. A bare JSON array, or a record
  whose `tags` is an array (the DTO field is a single `String`), fails to
  decode and the page counts as empty.
- The legacy importer keeps every non-null tag, as a set. It does not keep the
  first string only.
- The legacy importer accepts a blank id or source. Only null is rejected
  there.
- `AppProperties` declares `url`, `key` and `itemsPerPage`. The paged importer
  reads `getPageSize()`. The model keeps an optional page size that defaults
  to 500, as the importer does.
- `ReviewDto.java` declares an immutable value with a single `tag` field.
  `toDto` assigns `id`, `source`, …, `tags`. The model follows `toDto`.

## Model

| member | source | states |
|---|---|---|
| `JavaText.LeadingTrimmable` | src/main/java/com/example/reviews/service/ReviewService.java:67 | the number of leading characters ≤ U+0020: all of them are trimmable and the next one is not |
| `JavaText.TrailingTrimmable` | src/main/java/com/example/reviews/service/ReviewService.java:67 | the number of trailing characters ≤ U+0020: all of them are trimmable and the one before is not |
| `JavaText.TrimBounds` | src/main/java/com/example/reviews/service/ReviewService.java:67 | `trim` keeps exactly the slice between the first and the last non-trimmable character, or nothing when there is none |
| `JavaText.TrimIdempotent` | src/main/java/com/example/reviews/service/ReviewService.java:67 | a trimmed string starts and ends with a non-trimmable character, and trimming twice equals trimming once |
| `Upstream.ValidIff` | src/main/java/com/example/reviews/model/upstream/ReviewInDto.java:15-18 | a record is valid iff id and source each hold a non-whitespace character and the rating is null or in 1..5 |
| `Upstream.RatingBoundary` | src/main/java/com/example/reviews/model/upstream/ReviewInDto.java:18 | the rating bounds are inclusive: 1, 5 and null pass, 0 and 6 fail |
| `Upstream.FreeFieldsIrrelevant` | src/main/java/com/example/reviews/model/upstream/ReviewInDto.java:17-22 | author, content, reviewDate and tags never affect validity |
| `Upstream.BlankIdRejected` | src/main/java/com/example/reviews/model/upstream/ReviewInDto.java:15 | an id made only of whitespace is rejected |
| `PaginationUtil.Wrap32` | src/main/java/com/example/reviews/util/PaginationUtil.java:15 | the 32-bit result is congruent to the exact value modulo 2^32 |
| `PaginationUtil.MinValuePageWraps` | src/main/java/com/example/reviews/util/PaginationUtil.java:15 | as written, page Integer.MIN_VALUE gives 0-based page Integer.MAX_VALUE |
| `PaginationUtil.ZeroBased` | src/main/java/com/example/reviews/util/PaginationUtil.java:13-15 | the 0-based page is never negative: page − 1 for pages ≥ 1, and 0 for every page ≤ 1 |
| `PaginationUtil.ZeroBasedAgreesAwayFromMinValue` | src/main/java/com/example/reviews/util/PaginationUtil.java:15 | the corrected page equals the code as written for every page except Integer.MIN_VALUE |
| `PaginationUtil.ClampSize` | src/main/java/com/example/reviews/util/PaginationUtil.java:8-16 | the size lies in 1..200, equals the request when it is in range, is 1 below and 200 above |
| `PaginationUtil.ClampIdempotent` | src/main/java/com/example/reviews/util/PaginationUtil.java:16 | clamping a clamped size changes nothing |
| `PaginationUtil.CreatePageable` | src/main/java/com/example/reviews/util/PaginationUtil.java:14-22 | the page request holds the corrected 0-based page and the clamped size; a null sort becomes unsorted and any other sort is kept |
| `PaginationUtil.CreatePageableUnsorted` | src/main/java/com/example/reviews/util/PaginationUtil.java:25-27 | the overload equals the three-argument form with an unsorted sort |
| `BulkWriter.LastRowFor` | src/main/java/com/example/reviews/repository/BulkReviewWriter.java:85-95 | the row that decides a key's stored values is a row of the batch with that key after which no row of the batch has that key; there is one iff the key occurs in the batch |
| `BulkWriter.UpsertAllAt` | src/main/java/com/example/reviews/repository/BulkReviewWriter.java:84-120 | after the batch, a key is stored iff it was stored before or is in the batch. Keys outside the batch keep their row. A batch key holds its last row's values, updatedAt = the batch timestamp, and createdAt = the old createdAt or the batch timestamp for a new key |
| `BulkWriter.UpsertAllKeys` | src/main/java/com/example/reviews/repository/BulkReviewWriter.java:84-95 | the stored keys are the old keys plus the batch keys; no duplicate natural key can arise |
| `BulkWriter.ReimportIdempotent` | src/main/java/com/example/reviews/repository/BulkReviewWriter.java:89-95 | writing the same batch again changes only updatedAt of the batch keys |
| `BulkWriter.NormalizedSumAppend` | src/main/java/com/example/reviews/repository/BulkReviewWriter.java:144-164 | the normalized total of concatenated code arrays is the sum of their totals |
| `BulkWriter.FailedCodeIgnored` | src/main/java/com/example/reviews/repository/BulkReviewWriter.java:151-153 | inserting an EXECUTE_FAILED code anywhere leaves the total unchanged |
| `BulkWriter.NormalizedExample` | src/main/java/com/example/reviews/repository/BulkReviewWriter.java:148-157 | codes [1, SUCCESS_NO_INFO, 1] normalize to 3 |
| `BulkWriter.OnePerStatement` | src/main/java/com/example/reviews/repository/BulkReviewWriter.java:148-157 | when the driver reports SUCCESS_NO_INFO or 1 for every statement, the count equals the number of statements |
| `BulkWriter.GetNormalized` | src/main/java/com/example/reviews/repository/BulkReviewWriter.java:144-164 | the loop returns the normalized sum of the codes, which is never negative |
| `BulkWriter.BulkReviewWriter.UpsertBatch` | src/main/java/com/example/reviews/repository/BulkReviewWriter.java:80-132 | a null or empty batch returns 0 and writes nothing. A committed batch whose rows all have keys leaves the table as the rows applied in order, and returns the normalized count. Otherwise it fails and the table is unchanged |
| `ReviewImport.NonNull` | src/main/java/com/example/reviews/service/ReviewImportService.java:154-161 | at most as many rows as list elements, and exactly as many when no element is null |
| `ReviewImport.PageStep` | src/main/java/com/example/reviews/service/ReviewImportService.java:97-132 | a pass of the loop body continues only for a page within the upstream's responses, and then to the next page |
| `ReviewImport.ReviewImportService.ParseAndValidate` | src/main/java/com/example/reviews/service/ReviewImportService.java:149-184 | the single pass computes the page specification: good + skipped = received, and every good row is valid |
| `ReviewImport.ReviewImportService.ImportAll` | src/main/java/com/example/reviews/service/ReviewImportService.java:81-140 | the do-while loop returns the run specification's total and leaves the writer's table as that run does |
| `ReviewImportProofs.ValidateAccounting` | src/main/java/com/example/reviews/service/ReviewImportService.java:158-174 | every row is either kept or counted as skipped |
| `ReviewImportProofs.ValidateCharacterized` | src/main/java/com/example/reviews/service/ReviewImportService.java:161-174 | the kept rows are exactly the valid rows, in their original order |
| `ReviewImportProofs.ValidateSound` | src/main/java/com/example/reviews/service/ReviewImportService.java:161-173 | every kept row is valid and comes from the input |
| `ReviewImportProofs.NonNullValues` | src/main/java/com/example/reviews/service/ReviewImportService.java:154-161 | with no null element, the rows are the elements' values position by position |
| `ReviewImportProofs.ParsePageProperties` | src/main/java/com/example/reviews/service/ReviewImportService.java:149-184 | received = good + skipped; good rows are valid; a body that is not an envelope, or that holds a null element, gives the empty page; a null list gives 0 rows; absent paging gives a null totalPages |
| `ReviewImportProofs.ParsePageOrder` | src/main/java/com/example/reviews/service/ReviewImportService.java:154-174 | the good rows are the valid raw rows at increasing positions, and a position is kept iff its row is valid |
| `ReviewImportProofs.ValidRowsKeyed` | src/main/java/com/example/reviews/repository/BulkReviewWriter.java:106-107 | rows that passed validation always carry both parts of their natural key |
| `ReviewImportProofs.NextTotalPagesAtLeastOne` | src/main/java/com/example/reviews/service/ReviewImportService.java:113-115 | totalPages stays ≥ 1: a supplied count becomes max(1, count) and an absent one keeps the old value |
| `ReviewImportProofs.StepPreserves` | src/main/java/com/example/reviews/service/ReviewImportService.java:97-132 | a pass of the body keeps the loop-head facts (consecutive requests from page 1, totals equal the sums over completed pages) or ends in a finished state |
| `ReviewImportProofs.RunFinished` | src/main/java/com/example/reviews/service/ReviewImportService.java:97-132 | every run of the loop ends in a finished state |
| `ReviewImportProofs.ImportRunFinished` | src/main/java/com/example/reviews/service/ReviewImportService.java:81-140 | pages are requested from 1 without gaps or repeats, totalPages ≥ 1, and the returned total is the sum of the completed pages' affected counts |
| `ReviewImportProofs.NotConfiguredDoesNothing` | src/main/java/com/example/reviews/service/ReviewImportService.java:83-105 | without a usable URL and key the run makes no request and returns 0 |
| `ReviewImportProofs.EmptyPageEndsRun` | src/main/java/com/example/reviews/service/ReviewImportService.java:108-112 | a page with no rows, an undecodable page included, ends the run before any write |
| `ReviewImportProofs.FailureEndsRun` | src/main/java/com/example/reviews/service/ReviewImportService.java:127-131 | a failed fetch or a failed batch ends the run and keeps the totals and the table of the earlier pages |
| `ReviewImportProofs.AllInvalidPageAdvances` | src/main/java/com/example/reviews/service/ReviewImportService.java:117-126 | a page whose rows are all invalid writes nothing, counts all of them as skipped, and moves on |
| `ReviewImportProofs.ExactlyNFetches` | src/main/java/com/example/reviews/service/ReviewImportService.java:97-132 | when page 1 announces n pages and pages 1..n all deliver rows and commit, exactly n requests are made and n pages complete |
| `ReviewImportProofs.FullPageStep` | src/main/java/com/example/reviews/service/ReviewImportService.java:97-132 | a pass over a full, committed page completes it, moves to the next page, keeps totalPages at n and adds one request and one completed page |
| `ReviewImportProofs.ScenarioParse` | src/main/java/com/example/reviews/service/ReviewImportService.java:149-184 | a page rated 4, 9, 2 keeps the first and the last row and skips one |
| `ReviewImportProofs.EndToEndScenario` | src/main/java/com/example/reviews/service/ReviewImportService.java:81-140 | for that single announced page: affected 2, skipped 1, one request, and the table gains the two keys |
| `Reviews.NormalizeTagsProperties` | src/main/java/com/example/reviews/service/ReviewService.java:62-70 | a null tag set stores no tags. Every stored tag is the trim of a non-null, non-blank input and has no removable end characters. Every such input is stored |
| `Reviews.ControlCharacterTagTrimsToEmpty` | src/main/java/com/example/reviews/service/ReviewService.java:66-67 | the tag U+0001 passes the blank check but is stored as the empty string |
| `Reviews.CollectTags` | src/main/java/com/example/reviews/service/ReviewService.java:63-70 | the tag loop builds exactly the normalized tag set |
| `Reviews.UniqueNaturalKey` | src/main/java/com/example/reviews/model/entity/Review.java:8-11 | under a consistent index, no two stored reviews share (source, external_id) |
| `Reviews.UpsertSemantics` | src/main/java/com/example/reviews/service/ReviewService.java:48-72 | an existing key keeps its id and createdAt and the count; a new key gets a fresh id, createdAt = now and one more review. updatedAt = now, the fields and tags come from the arguments, other reviews are untouched and the index stays consistent |
| `Reviews.UpsertKeepsIndex` | src/main/java/com/example/reviews/service/ReviewService.java:48-72 | upsert keeps the id/key index consistent and removes no review |
| `Reviews.UpsertTwice` | src/main/java/com/example/reviews/service/ReviewService.java:48-72 | upserting the same arguments again changes only updatedAt |
| `Reviews.DeleteSemantics` | src/main/java/com/example/reviews/service/ReviewService.java:42-47 | after delete the id is absent, the others are kept, the index stays consistent, a missing id changes nothing, and deleting twice equals deleting once |
| `Reviews.ToDtoForgetsOnlyTimestamps` | src/main/java/com/example/reviews/service/ReviewService.java:74-86 | two reviews have the same DTO iff they differ at most in createdAt and updatedAt |
| `Reviews.ReviewService.Delete` | src/main/java/com/example/reviews/service/ReviewService.java:36-47 | the store becomes the delete specification of the old store and the invariant holds; afterwards get(id) is NotFound and get of every other old id still finds its review's DTO |
| `Reviews.ReviewService.Upsert` | src/main/java/com/example/reviews/service/ReviewService.java:36-72 | a rollback returns failure and changes nothing; a commit returns the saved review and moves the store as the upsert specification says, and get of the saved id then finds a DTO with the call's fields and its normalized tags |
| `LegacyImport.DigitsRoundTrip` | src/main/java/com/example/reviews/service/ImportService.java:87 | the decimal digits of a natural number read back as that number |
| `LegacyImport.DecimalText` | src/main/java/com/example/reviews/service/ImportService.java:87 | a number's text is its canonical decimal form and reads back as the number: at least one digit and no leading zero (other than "0" itself) for n ≥ 0, and a minus sign followed by the digits of −n, without a leading zero, for n < 0 |
| `LegacyImport.ReviewList` | src/main/java/com/example/reviews/service/ImportService.java:53-58 | the list is the root when it is an array, else the items of the root's "reviews" field when that is an array, and otherwise there is none |
| `LegacyImport.CandidateCharacterized` | src/main/java/com/example/reviews/service/ImportService.java:60-76 | a node is upserted iff id and source are non-null and the rating is null or in 1..5; the call carries the node's texts, the parsed review date (when the node has one), and its non-blank tags, trimmed |
| `LegacyImport.LiftedTags` | src/main/java/com/example/reviews/service/ImportService.java:67-72 | the tag set passed to upsert is stored as the trims of its non-blank members |
| `LegacyImport.BlankIdAccepted` | src/main/java/com/example/reviews/service/ImportService.java:73 | an id of whitespace is imported here, while the paged importer's validation rejects it |
| `LegacyImport.NumericIdBecomesText` | src/main/java/com/example/reviews/service/ImportService.java:61 | a numeric id 42 is stored as the external id "42" |
| `LegacyImport.WideRatingWraps` | src/main/java/com/example/reviews/service/ImportService.java:64 | a rating of 2^32 + 3 is read by asInt as 3 and accepted |
| `LegacyImport.AcceptedAppend` | src/main/java/com/example/reviews/service/ImportService.java:60-78 | nodes are processed in list order: the calls of a concatenation are the calls of the first part followed by those of the second |
| `LegacyImport.AcceptedSingle` | src/main/java/com/example/reviews/service/ImportService.java:60-78 | one node yields its call when it is accepted and no call otherwise |
| `LegacyImport.AcceptedMembers` | src/main/java/com/example/reviews/service/ImportService.java:60-78 | every call comes from an accepted node of the list; when all nodes are accepted the calls are their candidates in order; there is no call iff no node is accepted |
| `LegacyImport.CommittedPrefix` | src/main/java/com/example/reviews/service/ImportService.java:76-82 | the count r lies between the start and the number of calls, every call before r commits, and call r rolls back when r is short of all calls |
| `LegacyImport.ProcessCount` | src/main/java/com/example/reviews/service/ImportService.java:60-83 | the walk counts exactly the accepted nodes whose upsert commits before the first failing one |
| `LegacyImport.WalkIsFold` | src/main/java/com/example/reviews/service/ImportService.java:60-82 | for any node reader and store step, the walk from index i returns the number of accepted calls that commit before the first rollback, and the store with the accepted calls applied in list order up to that rollback |
| `LegacyImport.ProcessStore` | src/main/java/com/example/reviews/service/ImportService.java:60-82 | the store after the walk is the old store with the first r accepted calls applied in list order, the j-th under the (count + j)-th transaction, where r is the walk's count and lies between count and count plus the number of accepted calls |
| `LegacyImport.ProcessKeepsStore` | src/main/java/com/example/reviews/service/ImportService.java:60-78 | the walk keeps the store's index consistent and removes no review |
| `LegacyImport.ImportCount` | src/main/java/com/example/reviews/service/ImportService.java:36-84 | importAll returns 0 and changes nothing without url or key, on a transport failure, on a non-2xx status, on a null or unparseable body, or when there is no node list. Otherwise it counts the commits before the first failure, which is every accepted node when all commit; the store afterwards is the old store with exactly those counted calls applied in list order |
| `LegacyImport.WalkFromStart` | src/main/java/com/example/reviews/service/ImportService.java:60-82 | a walk over a whole list from count 0 keeps the index consistent, returns the committed prefix of the accepted calls (all of them when every call commits), and leaves the store with exactly those calls applied in order |
| `LegacyImport.CollectTagTexts` | src/main/java/com/example/reviews/service/ImportService.java:67-72 | the tag loop collects asText of exactly the non-null elements |
| `LegacyImport.ReadNode` | src/main/java/com/example/reviews/service/ImportService.java:61-74 | reading a node's fields and applying the checks yields the node's upsert call, or none when it is skipped |
| `LegacyImport.ImportService.ImportAll` | src/main/java/com/example/reviews/service/ImportService.java:36-84 | the method returns the count and leaves the store as the importAll specification says, and the store's invariant holds |
| `LegacyImport.ImportService.WalkNodes` | src/main/java/com/example/reviews/service/ImportService.java:60-83 | the for loop returns the walk specification's count and store |

## Left out

- HTTP: RestTemplate, URI building, headers and status handling. A fetch is given as its outcome: a body, or an exception.
- JSON decoding by Jackson and the `@JsonFormat` date pattern. The paged importer sees an already-decoded payload. The legacy importer sees a JSON tree with integral numbers only; floating-point numbers are not modelled.
- `asInt` on a text node and `parseDate` are Jackson and java.time routines. They are parameters of the legacy importer.
- SQL, JDBC and JPA. The table is a map; a transaction is a commit with its clock reading, or a rollback. Which rows the database rejects (column lengths, NOT NULL, deadlocks) is part of that outcome, apart from a missing key, which the writer model fails on by itself.
- `ReviewImportService` holds its writer as `BulkReviewRepository`, which is not part of this model. The writer is modelled by `BulkReviewWriter`, whose `upsertBatch` it calls.
- Both writers write the same `reviews` table, but the model keeps them in two separate stores: `BulkWriter`'s table keyed by natural key and `Reviews`' store of entities. This loses three things. The natural-key uniqueness shared by the two writers is not modelled: a bulk row and an entity with the same key are not seen as one. The surrogate ids of bulk-inserted rows are not modelled. The bulk writer's single `tag` column is not related to the entity's `review_tags` rows (`ReviewTag`), whose identity and flush order are not modelled either. `ReviewTag` defines no equality of its own, so on a new review the tags `{"a", " a"}` become two `ReviewTag` objects with the same composite key, and that save fails and rolls back. The model's store keeps one tag `"a"` when the given transaction outcome is a commit; the rollback is only one of the outcomes a caller may supply.
- Logging, `LocalDateTime.now()` (a parameter), and the `failed` counter of `getNormalized`, which only feeds a log line.
- `ReviewService.search`, the controllers, the specifications, the mappers and the startup importers are outside this model.
- The page size is only sent with each request. Whether the upstream honours it is part of the upstream's responses.
- `BulkWriter.GetNormalized`: the total is an unbounded integer; 32-bit wrap-around of a sum beyond Integer.MAX_VALUE is not modelled.
- `ReviewImport.ReviewImportService.ImportAll`: `totalAffected` and `totalSkipped` are unbounded integers; 32-bit wrap-around is not modelled.
- `LegacyImport.ImportService.ImportAll`: `count` is an unbounded integer; 32-bit wrap-around is not modelled.
- `Reviews.ReviewService.Upsert`: surrogate ids come from a counter starting at 1. The database's identity generator may leave gaps; the model does not.

## Findings

| source | as written | input that shows it | evidently intended | confidence | as-written member | corrected member |
|---|---|---|---|---|---|---|
| src/main/java/com/example/reviews/util/PaginationUtil.java:15 | `Math.max(0, page - 1)` computes `page - 1` in 32-bit int | page = Integer.MIN_VALUE (−2147483648): `page - 1` wraps to 2147483647, so the 0-based page is 2147483647 | every page ≤ 1 maps to 0-based page 0 | high that it is unintended; not executed | `PaginationUtil.MinValuePageWraps` | `PaginationUtil.ZeroBased` |
