# kindle-insights: the clippings parser and importer, in Dafny

This project models how kindle-insights turns a Kindle `My Clippings.txt`
file into stored rows. It covers two pieces:

- **The parser** (`backend/app/parsing/parser.py`).
  - Lines are stripped and split into entries at every line of ten `=`.
  - `parse_entry` reads each entry: the title line (`LINE1_PATTERN`, title and
    optional author in parentheses), the header line (`LINE2_PATTERN`: clipping
    type, page and/or location, date text) and the clipped text.
  - The author is normalised (`normalize_author`). The text is hashed to 64
    lower-case hex digits of SHA-256 over its UTF-8 form
    (`generate_content_hash`).
- **The importer** (`backend/app/services/clipping_service.py`).
  - `get_or_create_book` finds or creates the book row for a (title, author)
    pair, recovering from an integrity conflict by rolling back and looking
    the book up again.
  - `import_clippings` stores every parsed clipping once, keyed by (book,
    type, location, content hash). Each record is counted as added, duplicate
    or error. All rows go in one transaction committed at the end; a failed
    commit turns every added record into an error.

Files:

| file | models |
|---|---|
| `wrappers.dfy` | `Option` and `Result` |
| `pytext.dfy` | the Python `str` operations used: `isspace`, `strip`, `lower`, `title`, `split()`, `join` |
| `grammar.dfy` | `LINE1_PATTERN` and `LINE2_PATTERN` as recognisers, with the regex's leftmost, lazy and alternation semantics written out |
| `authors.dfy` | `normalize_author` |
| `hashing.dfy` | `generate_content_hash`: UTF-8 encoding, hex digest; SHA-256 itself is a parameter |
| `parser.dfy` | `parse_entry` and the splitting loop of `parse_clippings_file` (a method with a loop, proved against a fold) |
| `database.dfy` | the SQLAlchemy session as the service uses it (committed tables plus a staged layer), as functions and as a `Session` class |
| `clipping_service.dfy` | `get_or_create_book` and `import_clippings`, as methods on a `Session` proved against functions, and the lemmas about them |

Where the code and its description disagree, the model follows the code:

- The "Last, First" reordering in `normalize_author` can never run. Commas
  are removed before the words are split, so no word contains one.
  `Authors.ReorderUnreachable` proves this.
- An author made only of `.` and `,` normalises to the empty string, not to
  a missing author.
- The `processed` count of `parse_clippings_file` counts only entries
  `parse_entry` accepted. Entries with exactly one line, or that the patterns
  or the date parser reject, are counted as skipped. An empty entry (two
  delimiter lines in a row, or a delimiter on the first line) is counted
  only as an entry, as `Parser.CloseBlock` states.
- Rows staged for earlier records are dropped by every rollback in the run,
  because each one rolls back the whole session. This happens when a later
  record's book cannot be resolved (the rollback in the loop's error branch).
  It also happens when a book flush meets an integrity conflict and the book
  is then recovered (the rollback inside `get_or_create_book`). Either way
  the dropped rows stay counted as added, and their signatures stay in the
  run's signature set. `ClippingService.FailedRecordDropsStaging` and
  `ClippingService.ConflictRecovery` state this.
- The session is made with `autoflush=False`, so the duplicate query sees
  only committed rows and rows a book flush has already sent, not rows that
  were only added. The model keeps track of which staged rows are flushed.
  `ClippingService.StepIgnoresFlushing` proves that this never changes how
  a record is counted, because every staged row's signature is also in the
  run's signature set.

## Model

| member | source | states |
|---|---|---|
| Grammar.ParseLine1 | backend/app/parsing/parser.py:16 | a match of the title pattern has a stripped title |
| Grammar.Line1Total | backend/app/parsing/parser.py:128-131 | the title pattern matches every line without an inner newline, so its error branch is dead |
| Grammar.Line1Author | backend/app/parsing/parser.py:132-133 | when the author group first matches at split point k, the title is the stripped text before k and the author the stripped capture |
| Grammar.Line1NoAuthor | backend/app/parsing/parser.py:133 | when the author group matches nowhere, the whole stripped line is the title and there is no author |
| Grammar.Line1TitleAndAuthor | backend/app/parsing/parser.py:16 | `title (author)` gives back exactly that title and author whenever every bracket opened in the title is closed in it, so `A (B) C (D)` has the title `A (B) C` and the author `D` |
| Grammar.Line1TitleOnly | backend/app/parsing/parser.py:16 | a line not ending in `)` is all title, with no author |
| Grammar.Line1EmptyParens | backend/app/parsing/parser.py:196 | `Title ()` keeps ` ()` in its title and has no author (`[^)]+` needs one character), for any title whose brackets are closed |
| Grammar.ParseLine2 | backend/app/parsing/parser.py:20-34 | a match of the header pattern is well formed: the page starts with a digit, page and location are digit/dash runs, the date text is stripped |
| Grammar.LocationGroupExcludesDate | backend/app/parsing/parser.py:28 | when the optional location after a page can match, skipping it cannot lead to a match |
| Grammar.Line2RoundTrip | backend/app/parsing/parser.py:20-34 | reading back a rendered well-formed header gives the same type, page, location and date text |
| Grammar.PageAndLocationLine | backend/app/parsing/parser.py:27-28 | `on page P \| Location L` captures page P and location L |
| Grammar.LocationOnlyLine | backend/app/parsing/parser.py:31 | `on Location L` captures no page and location L |
| Grammar.SampleHighlightLine | backend/app/parsing/parser.py:181 | the sample highlight header gives page `10` and location `100-105` |
| Grammar.SampleBookmarkLine | backend/app/parsing/parser.py:197 | the sample bookmark header gives location `300` and no page |
| Grammar.MissingYourRejected | backend/app/parsing/parser.py:21 | a header that does not go on with `Your` after the dash is rejected, whatever follows (`- Yes`, `- You Highlight` and `- Invalid` alike) |
| Grammar.SampleInvalidLine | backend/app/parsing/parser.py:203 | the sample malformed header is rejected |
| Grammar.LowerCaseTypeRejected | backend/app/parsing/parser.py:22 | the clipping type is case-sensitive |
| Authors.NormalizeAuthor | backend/app/parsing/parser.py:38-61 | `None` exactly for a missing or empty author; the result has no `.` or `,` |
| Authors.ReorderUnreachable | backend/app/parsing/parser.py:54-59 | the "Last, First" test never succeeds |
| Authors.NormalizeKeepsOrder | backend/app/parsing/parser.py:47-61 | up to case, the result is the stripped, lower-cased author without periods and commas, in the same word order; it is title-cased |
| Authors.OnlyPunctuation | backend/app/parsing/parser.py:44-51 | an author of only periods and commas becomes `""`, not `None` |
| Hashing.Utf8RoundTrip | backend/app/parsing/parser.py:68 | UTF-8 decoding undoes `content.encode('utf-8')` |
| Hashing.HexRoundTrip | backend/app/parsing/parser.py:68 | `hexdigest()` loses nothing: the digest can be read back from it |
| Hashing.ContentHash | backend/app/parsing/parser.py:63-69 | `None` exactly for missing or empty content; otherwise 64 lower-case hex digits |
| Hashing.ContentHashDigest | backend/app/parsing/parser.py:68 | the hash determines the SHA-256 digest of the UTF-8 content |
| Parser.Content | backend/app/parsing/parser.py:156-160 | content exists exactly for a highlight or note with body lines that do not strip to nothing; it is stripped |
| Parser.ContentOfLines | backend/app/parsing/parser.py:157-158 | for a highlight or note whose first and last body lines are stripped and not empty, the content is the body lines joined with newlines, unchanged |
| Parser.ParseEntry | backend/app/parsing/parser.py:120-174 | a record exactly when there are two lines, both patterns match and the date parses; every record is well formed (stripped title, clean author, hash present exactly with content) |
| Parser.EntryOfRendered | backend/app/parsing/parser.py:120-174 | an entry written from a title with closed brackets, an author, a header and a body parses back to those parts, normalised and hashed |
| Parser.EntryFailsOnlyOnHeader | backend/app/parsing/parser.py:124-154 | an entry of two or more lines is dropped only for its header line or its date |
| Parser.ParseClippingsFile | backend/app/parsing/parser.py:71-118 | the loop returns the records and the entry, processed and skipped counts of the scan of the stripped lines; an unreadable file gives nothing |
| Parser.Turn | backend/app/parsing/parser.py:92-113 | one turn of the loop is one step of the scan |
| Parser.ScanCounted | backend/app/parsing/parser.py:86-113 | at every turn: one record per processed entry, processed plus skipped at most the entries, one entry per delimiter line |
| Parser.ScanPrefix | backend/app/parsing/parser.py:91-113 | the scan of a prefix does not depend on the lines that follow |
| Parser.TrailingLinesIgnored | backend/app/parsing/parser.py:111-118 | lines after the last delimiter make no record and change no counter |
| Parser.ScanAppend | backend/app/parsing/parser.py:111 | after a delimiter the rest of the file is parsed as a file of its own |
| Parser.ScanGathers | backend/app/parsing/parser.py:112-113 | lines without a delimiter are only gathered, the blank ones dropped |
| Parser.ScanSkipsBlank | backend/app/parsing/parser.py:112 | the loop over any lines is the loop over their non-empty lines alone |
| Parser.CloseBlock | backend/app/parsing/parser.py:93-111 | a delimiter closes the gathered lines: one entry counted, at most one record, one processed-or-skipped count when lines were pending |
| Parser.SingleEntry | backend/app/parsing/parser.py:93-111 | one entry and its delimiter give exactly the record the entry parser makes of it, if any |
| Parser.ScanOfEntries | backend/app/parsing/parser.py:91-113 | a file of clean entries gives exactly the accepted entries, in order, and one entry per delimiter |
| Parser.FileOfEntries | backend/app/parsing/parser.py:71-118 | on any file whose stripped non-blank lines are entries each closed by a delimiter, `parse_clippings_file` returns exactly the entries `parse_entry` accepts, in file order, and counts one entry per delimiter |
| Parser.KindleFile | backend/app/parsing/parser.py:71-118 | the same for a file as a device writes it: every line ends in a newline and a blank line follows each header |
| PyText.StripNewline | backend/app/parsing/parser.py:92 | stripping a stripped line with its newline gives the line back |
| Database.Lookup | backend/app/services/clipping_service.py:19 | a book found in a valid session has an id of at least 1 |
| Database.InsertBook | backend/app/services/clipping_service.py:24-28 | the flush succeeds exactly when the database accepts it, and then the book is found under the next id and every staged clipping row is sent; validity and the clippings are kept |
| Database.Stage | backend/app/services/clipping_service.py:126 | an added clipping stays pending: no query sees it until the next flush, and a commit writes it after the rows staged before it; validity is kept |
| Database.RolledBack | backend/app/services/clipping_service.py:150 | a rollback drops the staged layer and keeps the committed tables and validity |
| Database.Committed | backend/app/services/clipping_service.py:161 | a successful commit appends the staged rows to the committed ones and adds the staged books to the committed books; a failed one changes nothing and raises |
| Database.RollbackIdempotent | backend/app/services/clipping_service.py:150 | rolling back twice is rolling back once, as when the loop's rollback here follows the one inside `get_or_create_book` (lines 33 and 46) |
| Database.CommittedBooksStay | backend/app/services/clipping_service.py:161 | a committed book keeps its id across a commit and a rollback |
| Database.CommitKeepsUnique | backend/app/database/models.py:49 | committing new rows of distinct, not yet committed signatures keeps the clipping uniqueness constraint |
| Database.Session.FindBook | backend/app/services/clipping_service.py:19 | the book query on the session object is `Lookup` |
| Database.Session.ClippingExists | backend/app/services/clipping_service.py:98-103 | the duplicate query on the session object sees the committed and the flushed rows, not the pending ones |
| Database.Session.AddAndFlushBook | backend/app/services/clipping_service.py:24-28 | `add` and `flush` of a book on the session object is `InsertBook` |
| Database.Session.Add | backend/app/services/clipping_service.py:126 | `add` of a clipping on the session object is `Stage` |
| Database.Session.Rollback | backend/app/services/clipping_service.py:150 | `rollback` on the session object is `RolledBack` |
| Database.Session.Commit | backend/app/services/clipping_service.py:161 | `commit` on the session object is `Committed` |
| ClippingService.ResolveBook | backend/app/services/clipping_service.py:13-48 | an existing book is returned untouched; a returned id is at least 1 and the book is found under it; validity and the clippings are kept; an error leaves nothing staged |
| ClippingService.CreatedBook | backend/app/services/clipping_service.py:24-30 | a new book that flushes gets the next id, and every other lookup is unchanged |
| ClippingService.ConflictRecovery | backend/app/services/clipping_service.py:31-44 | after a conflict the session is rolled back, dropping every staged row; the other writer's book is returned exactly when it is visible, otherwise the call fails |
| ClippingService.GetOrCreateBook | backend/app/services/clipping_service.py:13-48 | the method on a session is `ResolveBook` |
| ClippingService.StepCounts | backend/app/services/clipping_service.py:78-151 | each record moves exactly one counter |
| ClippingService.StepKeeps | backend/app/services/clipping_service.py:78-151 | each record only adds signatures and leaves the committed clippings alone |
| ClippingService.FailedRecordDropsStaging | backend/app/services/clipping_service.py:143-151 | a record whose book cannot be resolved rolls back the rows staged for earlier records, which stay counted as added |
| ClippingService.StepSound | backend/app/services/clipping_service.py:105-112 | each record keeps the staged rows' signatures tracked, distinct and not yet committed |
| ClippingService.DuplicateTestIgnoresFlushing | backend/app/services/clipping_service.py:98-107 | when every staged signature is in the run's set, the duplicate test answers the same whether the query sees none, the flushed or all of the staged rows |
| ClippingService.StepIgnoresFlushing | backend/app/services/clipping_service.py:98-107 | in the loop, each record's duplicate test answers as if the query saw only the committed rows |
| ClippingService.StoredIsDuplicate | backend/app/services/clipping_service.py:98-109 | a record whose book and signature are stored counts as a duplicate and changes nothing else |
| ClippingService.NonNegative | backend/app/services/clipping_service.py:175 | `max(0, x)`: `x` when it is not negative, 0 otherwise |
| ClippingService.Import | backend/app/services/clipping_service.py:50-182 | no parsed clippings gives all zeros and an untouched session; otherwise `processed` is the number of clippings and added + duplicates + errors equals it |
| ClippingService.ImportClippings | backend/app/services/clipping_service.py:50-182 | the method on a session is `Import` |
| ClippingService.ImportOne | backend/app/services/clipping_service.py:79-151 | one turn of the loop is `Step` |
| ClippingService.CommitRun | backend/app/services/clipping_service.py:158-182 | the final commit and the summary are `Finish` |
| ClippingService.LoopCounts | backend/app/services/clipping_service.py:78-151 | every parsed record is counted exactly once |
| ClippingService.LoopSignaturesGrow | backend/app/services/clipping_service.py:112 | the run's signature set only grows |
| ClippingService.ImportKeepsUnique | backend/app/database/models.py:49 | an import never breaks the clipping uniqueness constraint, whether the commit succeeds or not |
| ClippingService.CommitAllOrNothing | backend/app/services/clipping_service.py:159-168 | on commit success the staged rows join the committed ones; on failure none persist, added is 0 and every added record is an error |
| ClippingService.ReimportAddsNothing | backend/app/services/clipping_service.py:96-109 | importing records that are all stored adds nothing: all are duplicates and the committed clippings are unchanged |

## Left out

- File I/O is not modelled. The file is the list of lines `readlines()` returns, or `None` where opening or reading raises.
- Logging is not modelled, including the debug lines after the import loop.
- `dateutil.parser.parse` is not modelled. It is a function parameter that returns a date or `None` where it raises.
- SHA-256 itself is not modelled. It is a function parameter from bytes to a 32-byte digest; the UTF-8 encoding and the hex digest are modelled.
- Letter case (`lower`, `title`) and `\d` are modelled for ASCII only; whitespace follows `str.isspace`.
- ClippingService.ConflictRecovery: the other writer's book is assumed to have the id this session would have used next (`Database.InsertBook`); the database promises no particular id, so that part of the result is a modelling choice.
- Concurrency is not modelled. Another writer shows up only as the `Conflict` outcome of a book flush, the only place the source reacts to one.
- Only the book flush and the final commit can fail in the model. Failures of queries, of the flush of pending clipping rows and of the rollback itself are not modelled.
- The `KeyError` branch of `import_clippings` is not modelled: every parsed record has every key.
- The exception branch around `parse_clippings_file` in `import_clippings` is not modelled: the modelled parser cannot raise.
- The `not book.id` guard of `import_clippings` is not modelled. `ClippingService.ResolveBook` proves that a returned id is at least 1.
- Database.Signature: two missing locations or hashes compare equal, as the `filter_by` duplicate query compares them. SQL's unique constraint treats two NULLs as distinct, and that is not modelled.
- Row ids: book ids are positive and distinct. A rollback gives back the ids of its inserts, as SQLite reuses them; other id schemes are not modelled.
- `sentiment_score` is not modelled: the importer never writes it.
- `list_books`, `get_clippings_for_book`, `get_random_clipping`, the web layer in `main.py` and the demonstration block of `parser.py` are not part of this model. The demonstration's header lines are covered by the `Sample…Line` lemmas.
- Fuzzy author matching is not modelled: it is imported but never used.
