# School pack scraper: a Dafny model of its data shaping

The scraper collects school stationery "packs" from schoolpacks.co.nz in two stages:

- The **listing fetcher** (`fetch_schools`) pages through the catalogue's GraphQL
  connection and collects one node per school.
- The **pack extractor** (`fetch_school_pack`) reads the pack payload embedded in
  each school's product page. It flattens the payload's year section → subject →
  product nesting into flat 16-field rows. Every key that is absent gets a fixed
  default.
- The **batch driver** (`fetch_all_school_packs`) runs the extractor over every
  school in order. It concatenates the rows and writes them out with a fixed CSV
  column order.

This project models these three stages as pure Dafny code. The network, HTML and
file I/O are taken away and replaced by inputs:

- The GraphQL server is a finite sequence of decoded response pages. Request n
  gets page n.
- The web is a total function from request URL (`Pack.Url`) to a school page.
  A school page is reduced to its two payload containers. Each container is
  absent, present but undecodable, or holds a decoded pack.
- Decoded JSON objects are typed records. Every key is an `Option`, and `None`
  means the key is absent.

Modules:

- `wrappers.dfy`: `Option` and `Result`.
- `seqs.dfy`: `Join` (concatenating a sequence of sequences) and `SumOf`
  (prefix sums), with their lemmas.
- `listing.dfy`: the pagination loop as a method, with a nested loop that
  appends each edge's node.
- `pack.dfy`: the data model, the defaults, the recursive flattening, the
  payload choice and the single-school extractor.
- `batch.dfy`: the batch as an ordered fold over the per-school outcomes.
- `export.dfy`: the CSV header, the row dictionary and the CSV records.

Three behaviours of the code are worth knowing, and the model keeps them:

- **No per-school error isolation.** A page without a payload container raises
  at a.py:63 and ends the whole batch, so `Batch.FetchAllSchoolPacks` fails
  with the error of the first failing school.
- **An empty page does not stop pagination.** The loop stops only on
  `hasNextPage`. An empty page keeps the cursor (a.py:42), so the next request
  repeats it. `CursorChain` states this.
- **Primary container without fallback.** If the primary container is on the
  page, it is used even when it does not decode. The fallback is tried only when
  the primary container is absent (a.py:60-63).

## Model

| member | source | states |
|---|---|---|
| Listing.FetchSchools | a.py:18-43 | Fails exactly when every page still continues. Otherwise it makes one request per page, up to and including the first page whose `hasNextPage` is false or absent, and never more requests than there are pages. The first cursor sent is null and the sent cursors form a `CursorChain`. The schools are the nodes of all consumed pages, joined in arrival order. |
| Listing.AppendNodes | a.py:36-37 | Appending a page edge by edge yields the old list followed by the page's nodes in edge order. |
| Pack.PageUrlTextInjective | a.py:51-53 | The page URL is the fixed origin followed by the school path. Two schools get the same URL exactly when their paths (default "") agree. |
| Pack.MakeRowDefaults | a.py:51-93 | Each of the 16 row fields comes from its key when present, copied unchanged. An absent key gives "" for text, false for `compulsory`/`deduplicate`/`locked`, and 0 for `quantity`. The name defaults to "Unknown School" and the path to "". |
| Pack.ProductRowsAt | a.py:76-94 | Row k of a subject's rows is the row built from product k, so the subject yields one row per product, in product order. |
| Pack.SubjectRows | a.py:69-94 | A section yields the sum of its subjects' product counts (0 for an absent `products` key). |
| Pack.SubjectRowsCarrySchool | a.py:77-79 | Every row of a section carries the school's name and path. |
| Pack.SectionRows | a.py:67-94 | The payload yields the sum over sections of the section counts (0 for an absent `subjects` key). |
| Pack.SectionRowsCarrySchool | a.py:67-79 | Every row of every section carries the school's name and path. |
| Pack.Flatten | a.py:66-94 | The row count equals the payload's total product count. An absent `sections` key yields no rows. All rows carry the same school name and path. |
| Pack.SubjectRowsAt | a.py:69-77 | Within a section, product k of subject j sits right after all products of subjects 0..j-1, built from that subject and product. |
| Pack.SectionRowsAt | a.py:67-77 | Product k of subject j of section i sits at `RowIndex`: all earlier sections' rows, then the earlier subjects' rows, then k. |
| Pack.FlattenRowAt | a.py:66-94 | Every (section, subject, product) triple of the payload has its own row at `RowIndex`, built from exactly those three entries. |
| Pack.RowIndexOrdered | a.py:67-77 | Row positions follow lexicographic (section, subject, product) order. With the row count, this places every output row. |
| Pack.SubjectRowsAppend | a.py:69-77 | The rows of two consecutive runs of subjects are the rows of each run, concatenated. |
| Pack.SectionRowsAppend | a.py:67-77 | The rows of two consecutive runs of sections are the rows of each run, concatenated. |
| Pack.SubjectWithoutProductsAddsNothing | a.py:76 | A subject with no `products` key can be removed without changing the section's rows. |
| Pack.SectionWithoutSubjectsAddsNothing | a.py:69 | A section with no `subjects` key can be removed without changing the school's rows. |
| Pack.SelectPayload | a.py:59-63 | A primary container on the page is used. If it does not decode, extraction fails with no fallback. The fallback is read only when the primary is absent. With neither container present, the error is `MissingPayload`. |
| Pack.FetchSchoolPack | a.py:50-97 | Succeeds exactly when the page at the school's URL yields a payload and fails with that payload error otherwise. On success the row count is the payload's product count, and every row carries the school's name and path. |
| Pack.FallbackMatchesPrimary | a.py:59-63 | The same pack gives the same rows whether it sits in the primary container or only in the fallback one. |
| Batch.Concatenate | a.py:101-111 | The fold succeeds exactly when every outcome succeeds. |
| Batch.ConcatenateJoins | a.py:101-111 | On success the fold's rows are the outcomes' rows joined in order. |
| Batch.ConcatenateFirstFailure | a.py:101-111 | On failure the fold's error is that of an outcome that failed while every earlier outcome succeeded, that is, of the first failing outcome. |
| Batch.FetchAllSchoolPacks | a.py:99-111 | Succeeds exactly when every school's extraction succeeds, and then the result is the schools' row lists joined in input order. Otherwise the error is that of the first failing school. |
| Batch.BatchAppend | a.py:101-111 | The batch over a + b is the batch over a followed by the batch over b: the first failure wins, otherwise the rows concatenate. |
| Batch.ConcatenateSkipsEmpty | a.py:109-111 | An outcome that succeeds with no rows can be removed from the fold without changing its result. |
| Batch.BatchOfOne | a.py:101-111 | The batch over a single school is that school's extraction outcome. |
| Batch.BatchSkipsEmptySchool | a.py:109-111 | A school whose extraction yields zero rows can be removed without changing the batch result. |
| Export.RowDictKeysAreHeader | a.py:77-94 | The keys of a row's dictionary are exactly the CSV header names of a.py:124, so no header column is missing and there is no extra key. |
| Export.HeaderDistinct | a.py:124 | The header has sixteen columns and names no column twice. |
| Export.CsvRecordFollowsHeader | a.py:124-128 | Column c of a row's CSV record is the value that the row dictionary gives to header name c. |
| Export.CsvTable | a.py:125-128 | The table is the header line followed by one record per row, in row order, so it has one more line than there are rows. |

## Left out

- The HTTP POST and GET, the response status and the JSON body decoding (a.py:31-32, a.py:55) are network I/O. Responses are inputs: a sequence of pages and a function from URL to page.
- HTML parsing and the double `json.loads` of the primary container (a.py:56-63) are library calls. Each container is reduced to absent, undecodable, or holding a decoded pack.
- Loading the environment and bearer token, reading `school.graphql`, the `json.dump` snapshots, CSV file writing and quoting, and how booleans become text (a.py:9, a.py:13-16, a.py:21, a.py:47, a.py:120-128) are configuration and file I/O. Only the column order and the dictionary lookup by header are modelled.
- Progress `print`s and the `__main__` entry point (a.py:45, a.py:96, a.py:107-117, a.py:130-136) produce no data.
- Response shape errors are not modelled: a missing `data`, `edges`, `pageInfo`, `node` or `cursor` key, or a payload that is not a JSON object (a.py:34-43, a.py:67-76). The typed records always have these parts.
- A key that is present with JSON `null` or with a value of an unexpected type is outside the typed records. For the 16 row fields Python copies such a value through unchanged. A non-boolean `hasNextPage` decides the loop by its truthiness (a.py:23, a.py:40); the model keeps only true, false and absent. A `null` school `path` is rendered as the text "None" inside the URL (a.py:53); the model's path is absent or a string. Iterating a non-list `sections`/`subjects`/`products` value is not modelled either.
- Catalogue nodes are kept generic in the listing (`N`). The extractor reads only `name` and `path` from a school. Other passthrough fields are not represented.
- Listing.FetchSchools: the server is a fixed page sequence that is consumed in order whatever cursor is sent. A request after the last page fails with `NoResponse`. The model therefore does not relate a server's answer to the cursor it receives.
- Batch.FetchAllSchoolPacks: every school's outcome is computed before the fold. Python stops requesting pages after the first failure. Extraction is pure here, so the result is the same, but the requests that would not be sent are not modelled.
