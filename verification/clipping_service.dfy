/**
 * `get_or_create_book` and `import_clippings` of
 * backend/app/services/clipping_service.py: the parsed clippings of a file
 * are stored once each, keyed by (book, type, location, content hash), in
 * one transaction committed at the end of the run.
 */
module ClippingService {
  import opened Wrappers
  import opened Grammar
  import opened Parser
  import opened Database

  /** What `get_or_create_book` raises: a database error it re-raises, or the `ValueError` of a failed recovery. */
  datatype BookError = DatabaseError(error: DbError) | NotRecovered

  /** The summary dictionary `import_clippings` returns. */
  datatype Summary = Summary(processed: nat, added: nat, duplicates: nat, errors: nat)

  function KeyOf(c: ParsedClipping): BookKey {
    BookKey(c.bookTitle, c.author)
  }

  /** `models.Clipping(book_id=…, …)` built from a parsed clipping. */
  function RowOf(c: ParsedClipping, bookId: nat): ClippingRow {
    ClippingRow(bookId, c.clippingType, c.location, c.page, c.clippingDate, c.content, c.contentHash)
  }

  // ------------------------------------------------------------------
  // get_or_create_book
  // ------------------------------------------------------------------

  /**
   * `get_or_create_book(db, title, author)`: the id of the book with exactly
   * this title and author, creating it when no query finds it. On an
   * integrity conflict the session is rolled back and the book looked up
   * again; on any other error it is rolled back and the error goes to the
   * caller. It never touches the clippings.
   */
  function ResolveBook(s: DbState, key: BookKey, outcome: FlushOutcome): (r: (DbState, Result<nat, BookError>))
    ensures Valid(s) ==> Valid(r.0)
    ensures Valid(s) && r.1.Ok? ==> r.1.value >= 1 && Lookup(r.0, key) == Some(r.1.value)
    ensures Lookup(s, key).Some? ==> r == (s, Ok(Lookup(s, key).value))
    ensures r.0.clippings == s.clippings
    ensures r.1.Ok? ==> r.0.staged == s.staged || r.0.staged == []
    ensures r.1.Err? ==> r.0.staged == []
  {
    match Lookup(s, key)
    case Some(id) => (s, Ok(id))
    case None =>
      var (s1, err) := InsertBook(s, key, outcome);
      match err
      case None => (s1, Ok(s.nextId))
      case Some(IntegrityError) =>
        var s2 := RolledBack(s1);
        (match Lookup(s2, key)
         case Some(id) => (s2, Ok(id))
         case None => (s2, Err(NotRecovered)))
      case Some(e) => (RolledBack(s1), Err(DatabaseError(e)))
  }

  /** A book that does not exist yet and whose row flushes is created with the next id, and nothing else changes. */
  lemma CreatedBook(s: DbState, key: BookKey)
    requires Lookup(s, key).None?
    ensures var r := ResolveBook(s, key, Flushed);
      && r.1 == Ok(s.nextId) && Lookup(r.0, key) == Some(s.nextId)
      && r.0.books == s.books && r.0.staged == s.staged
      && forall k :: k != key ==> Lookup(r.0, k) == Lookup(s, k)
  {
  }

  /** After a conflict the book the other writer committed is returned; when it cannot be read, the caller gets the error. */
  lemma ConflictRecovery(s: DbState, key: BookKey, visible: bool)
    requires Lookup(s, key).None?
    ensures var r := ResolveBook(s, key, Conflict(visible));
      && r.0.staged == [] && r.0.stagedBooks == map[]
      && (r.1.Ok? <==> visible)
      && (visible ==> r.1.value == s.nextId && key in r.0.books)
  {
  }

  method GetOrCreateBook(db: Session, title: string, author: Option<string>, outcome: FlushOutcome)
    returns (r: Result<nat, BookError>)
    modifies db
    ensures (db.State(), r) == ResolveBook(old(db.State()), BookKey(title, author), outcome)
  {
    var key := BookKey(title, author);
    var book := db.FindBook(key);
    if book.Some? {
      return Ok(book.value);
    }
    var id := db.nextId;
    var err := db.AddAndFlushBook(key, outcome);
    if err.None? {
      return Ok(id);
    }
    db.Rollback();
    if err.value == IntegrityError {
      book := db.FindBook(key);
      if book.Some? {
        return Ok(book.value);
      }
      return Err(NotRecovered);
    }
    return Err(DatabaseError(err.value));
  }

  // ------------------------------------------------------------------
  // import_clippings
  // ------------------------------------------------------------------

  /** The state of the loop of `import_clippings`: the session, `session_added_signatures` and three counters. */
  datatype Progress = Progress(db: DbState, signatures: set<Signature>, added: nat, duplicates: nat, errors: nat)

  /**
   * One record: resolve its book, and count it as an error (rolling the whole
   * session back), as a duplicate (its signature is in the store or was
   * added earlier in this run) or as added (its row is staged).
   */
  function Step(p: Progress, c: ParsedClipping, outcome: FlushOutcome): Progress {
    match ResolveBook(p.db, KeyOf(c), outcome)
    case (s1, Err(_)) => p.(db := RolledBack(s1), errors := p.errors + 1)
    case (s1, Ok(id)) =>
      var g := SignatureOf(RowOf(c, id));
      if HasSignature(s1, g) || g in p.signatures then p.(db := s1, duplicates := p.duplicates + 1)
      else p.(db := Stage(s1, RowOf(c, id)), signatures := p.signatures + {g}, added := p.added + 1)
  }

  /** The number of records counted so far. */
  function Total(p: Progress): nat {
    p.added + p.duplicates + p.errors
  }

  /** The step of the loop for the record at index `i`; `outcomes(i)` is what a flush meets there. */
  function StepOf(outcomes: nat -> FlushOutcome): (Progress, ParsedClipping, nat) -> Progress {
    (p: Progress, c: ParsedClipping, i: nat) => Step(p, c, outcomes(i))
  }

  /**
   * The loop after the first `n` records. The step is a parameter so that
   * the properties below can be proved about any step that has them, and
   * then about `StepOf(outcomes)`.
   */
  function Run(records: seq<ParsedClipping>, n: nat, step: (Progress, ParsedClipping, nat) -> Progress, start: Progress): Progress
    requires n <= |records|
  {
    if n == 0 then start else step(Run(records, n - 1, step, start), records[n - 1], n - 1)
  }

  /** `max(0, x)`. */
  function NonNegative(x: int): (r: nat)
    ensures r >= x && (x >= 0 ==> r == x) && (x < 0 ==> r == 0)
  {
    if x < 0 then 0 else x
  }

  /**
   * The final commit and the summary: when the commit fails every added
   * record becomes an error and the session is rolled back.
   */
  function Finish(db: DbState, processed: nat, added: nat, errors: nat, commitOk: bool): (DbState, Summary) {
    var (s, err) := Committed(db, commitOk);
    var (final, added', errors') := if err.None? then (s, added, errors) else (RolledBack(s), 0, errors + added);
    (final, Summary(processed, added', NonNegative(NonNegative(processed - added' - errors')), errors'))
  }

  /** The loop's starting state on a session. */
  function Fresh(db: DbState): Progress {
    Progress(db, {}, 0, 0, 0)
  }

  /** The loop of `import_clippings` over the parsed records. */
  function Loop(records: seq<ParsedClipping>, outcomes: nat -> FlushOutcome, db: DbState): Progress {
    Run(records, |records|, StepOf(outcomes), Fresh(db))
  }

  /**
   * `import_clippings(db, file)`: all zeros, and the session untouched, when
   * the file yields no clippings; otherwise every clipping is counted once,
   * as added, duplicate or error, and `processed` is the number of clippings.
   */
  function Import(file: Option<seq<string>>, env: Collaborators, outcomes: nat -> FlushOutcome, commitOk: bool, db: DbState)
    : (r: (DbState, Summary))
    ensures ParseFile(file, env).records == [] ==> r == (db, Summary(0, 0, 0, 0))
    ensures r.1.processed == |ParseFile(file, env).records|
    ensures r.1.added + r.1.duplicates + r.1.errors == r.1.processed
  {
    var records := ParseFile(file, env).records;
    if records == [] then (db, Summary(0, 0, 0, 0))
    else
      LoopCounts(records, outcomes, db);
      var p := Loop(records, outcomes, db);
      Finish(p.db, |records|, p.added, p.errors, commitOk)
  }

  method ImportClippings(db: Session, file: Option<seq<string>>, env: Collaborators, outcomes: nat -> FlushOutcome, commitOk: bool)
    returns (summary: Summary)
    modifies db
    ensures (db.State(), summary) == Import(file, env, outcomes, commitOk, old(db.State()))
  {
    var records, _, _, _ := ParseClippingsFile(file, env);
    if records == [] {
      return Summary(0, 0, 0, 0);
    }
    ghost var start := Fresh(db.State());
    ghost var step := StepOf(outcomes);
    var signatures: set<Signature> := {};
    var added, duplicates, errors := 0, 0, 0;
    for i := 0 to |records|
      invariant Progress(db.State(), signatures, added, duplicates, errors) == Run(records, i, step, start)
    {
      ghost var before := Progress(db.State(), signatures, added, duplicates, errors);
      signatures, added, duplicates, errors := ImportOne(db, signatures, added, duplicates, errors, records[i], outcomes(i));
      assert step(before, records[i], i) == Step(before, records[i], outcomes(i));
    }
    summary := CommitRun(db, |records|, added, errors, commitOk);
  }

  /** The final commit of `import_clippings` and the summary it returns. */
  method CommitRun(db: Session, processed: nat, added: nat, errors: nat, commitOk: bool) returns (summary: Summary)
    modifies db
    ensures (db.State(), summary) == Finish(old(db.State()), processed, added, errors, commitOk)
  {
    var added, errors := added, errors;
    var err := db.Commit(commitOk);
    if err.Some? {
      errors := errors + added;
      added := 0;
      db.Rollback();
    }
    summary := Summary(processed, added, NonNegative(NonNegative(processed - added - errors)), errors);
  }

  /** The body of the loop of `import_clippings`, on one record. */
  method ImportOne(db: Session, signatures: set<Signature>, added: nat, duplicates: nat, errors: nat,
                   c: ParsedClipping, outcome: FlushOutcome)
    returns (signatures': set<Signature>, added': nat, duplicates': nat, errors': nat)
    modifies db
    ensures Progress(db.State(), signatures', added', duplicates', errors')
      == Step(Progress(old(db.State()), signatures, added, duplicates, errors), c, outcome)
  {
    signatures', added', duplicates', errors' := signatures, added, duplicates, errors;
    var book := GetOrCreateBook(db, c.bookTitle, c.author, outcome);
    if book.Err? {
      errors' := errors + 1;
      db.Rollback();
      return;
    }
    var row := RowOf(c, book.value);
    var g := SignatureOf(row);
    var existing := db.ClippingExists(g);
    if existing || g in signatures {
      duplicates' := duplicates + 1;
      return;
    }
    signatures' := signatures + {g};
    db.Add(row);
    added' := added + 1;
  }

  // ------------------------------------------------------------------
  // Properties of one record
  // ------------------------------------------------------------------

  /** Each record moves exactly one counter. */
  lemma StepCounts(p: Progress, c: ParsedClipping, outcome: FlushOutcome)
    ensures Total(Step(p, c, outcome)) == Total(p) + 1
  {
  }

  /** Each record only adds signatures and leaves the committed clippings alone. */
  lemma StepKeeps(p: Progress, c: ParsedClipping, outcome: FlushOutcome)
    ensures p.signatures <= Step(p, c, outcome).signatures
    ensures Step(p, c, outcome).db.clippings == p.db.clippings
  {
  }

  /**
   * A record whose book cannot be resolved rolls back the whole session:
   * rows staged for earlier records are dropped, yet they stay counted as
   * added and their signatures stay in `session_added_signatures`.
   */
  lemma FailedRecordDropsStaging(p: Progress, c: ParsedClipping, outcome: FlushOutcome)
    requires ResolveBook(p.db, KeyOf(c), outcome).1.Err?
    ensures var q := Step(p, c, outcome);
      q.db.staged == [] && q.signatures == p.signatures && q.added == p.added && q.errors == p.errors + 1
  {
  }

  /**
   * What the loop keeps true of the staged rows: each signature is in
   * `session_added_signatures`, no two share one and none is already
   * committed.
   */
  ghost predicate StagingSound(p: Progress) {
    && (forall i :: 0 <= i < |p.db.staged| ==> SignatureOf(p.db.staged[i]) in p.signatures)
    && UniqueSignatures(p.db.staged)
    && (forall i :: 0 <= i < |p.db.staged| ==> SignatureOf(p.db.staged[i]) !in Signatures(p.db.clippings))
  }

  lemma StepSound(p: Progress, c: ParsedClipping, outcome: FlushOutcome)
    requires StagingSound(p)
    ensures StagingSound(Step(p, c, outcome))
  {
    var (s1, r) := ResolveBook(p.db, KeyOf(c), outcome);
    if r.Ok? {
      var row := RowOf(c, r.value);
      var g := SignatureOf(row);
      if !(HasSignature(s1, g) || g in p.signatures) {
        var q := Step(p, c, outcome);
        assert q.db.staged == s1.staged + [row];
        StagedAppend(s1.staged, row, p.signatures, s1.clippings);
      }
    }
  }

  /** Staging a row whose signature is new keeps the staged rows sound. */
  lemma StagedAppend(staged: seq<ClippingRow>, row: ClippingRow, signatures: set<Signature>, committed: seq<ClippingRow>)
    requires forall i :: 0 <= i < |staged| ==> SignatureOf(staged[i]) in signatures
    requires UniqueSignatures(staged)
    requires forall i :: 0 <= i < |staged| ==> SignatureOf(staged[i]) !in Signatures(committed)
    requires SignatureOf(row) !in signatures && SignatureOf(row) !in Signatures(committed)
    ensures var t := staged + [row];
      && (forall i :: 0 <= i < |t| ==> SignatureOf(t[i]) in signatures + {SignatureOf(row)})
      && UniqueSignatures(t)
      && (forall i :: 0 <= i < |t| ==> SignatureOf(t[i]) !in Signatures(committed))
  {
    var t := staged + [row];
    forall i | 0 <= i < |t| ensures t[i] == if i < |staged| then staged[i] else row {
    }
  }

  /**
   * The duplicate test asks the query and `session_added_signatures`. When
   * every staged row's signature is in that set, the answer is the same
   * whatever the query sees of the staged rows: none of them, the flushed
   * ones, or all of them.
   */
  lemma DuplicateTestIgnoresFlushing(s: DbState, signatures: set<Signature>, g: Signature)
    requires forall i :: 0 <= i < |s.staged| ==> SignatureOf(s.staged[i]) in signatures
    ensures (HasSignature(s, g) || g in signatures) <==> (g in Signatures(s.clippings) || g in signatures)
    ensures (HasSignature(s, g) || g in signatures) <==>
      (g in Signatures(s.clippings) || g in Signatures(s.staged) || g in signatures)
  {
    if g in Signatures(FlushedRows(s)) {
      var i := SignatureSource(FlushedRows(s), g);
      assert FlushedRows(s)[i] == s.staged[i];
    }
    if g in Signatures(s.staged) {
      var i := SignatureSource(s.staged, g);
    }
  }

  /**
   * In the loop, a record's duplicate test gives the answer it would give
   * if the query saw only the committed rows: when rows are flushed does
   * not change how any record is counted.
   */
  lemma StepIgnoresFlushing(p: Progress, c: ParsedClipping, outcome: FlushOutcome)
    requires StagingSound(p)
    ensures var (s1, r) := ResolveBook(p.db, KeyOf(c), outcome);
      r.Ok? ==> var g := SignatureOf(RowOf(c, r.value));
        (HasSignature(s1, g) || g in p.signatures) <==> (g in Signatures(p.db.clippings) || g in p.signatures)
  {
    var (s1, r) := ResolveBook(p.db, KeyOf(c), outcome);
    if r.Ok? {
      DuplicateTestIgnoresFlushing(s1, p.signatures, SignatureOf(RowOf(c, r.value)));
    }
  }

  /** A record already stored, book and signature, is a duplicate and changes nothing else. */
  lemma StoredIsDuplicate(p: Progress, c: ParsedClipping, outcome: FlushOutcome)
    requires Lookup(p.db, KeyOf(c)).Some?
    requires SignatureOf(RowOf(c, Lookup(p.db, KeyOf(c)).value)) in Signatures(p.db.clippings)
    ensures Step(p, c, outcome) == p.(duplicates := p.duplicates + 1)
  {
  }

  // ------------------------------------------------------------------
  // Properties of the loop, for any step that has them per record
  // ------------------------------------------------------------------

  ghost predicate CountsOne(step: (Progress, ParsedClipping, nat) -> Progress) {
    forall p, c, i :: Total(step(p, c, i)) == Total(p) + 1
  }

  ghost predicate KeepsCommitted(step: (Progress, ParsedClipping, nat) -> Progress) {
    forall p, c, i :: step(p, c, i).db.clippings == p.db.clippings
  }

  ghost predicate GrowsSignatures(step: (Progress, ParsedClipping, nat) -> Progress) {
    forall p: Progress, c, i :: p.signatures <= step(p, c, i).signatures
  }

  ghost predicate KeepsSound(step: (Progress, ParsedClipping, nat) -> Progress) {
    forall p, c, i :: StagingSound(p) ==> StagingSound(step(p, c, i))
  }

  lemma StepOfHasAll(outcomes: nat -> FlushOutcome)
    ensures CountsOne(StepOf(outcomes)) && KeepsCommitted(StepOf(outcomes))
    ensures GrowsSignatures(StepOf(outcomes)) && KeepsSound(StepOf(outcomes))
  {
    var step := StepOf(outcomes);
    forall p, c, i ensures Total(step(p, c, i)) == Total(p) + 1 {
      StepCounts(p, c, outcomes(i));
    }
    forall p, c, i ensures step(p, c, i).db.clippings == p.db.clippings && p.signatures <= step(p, c, i).signatures {
      StepKeeps(p, c, outcomes(i));
    }
    forall p, c, i | StagingSound(p) ensures StagingSound(step(p, c, i)) {
      StepSound(p, c, outcomes(i));
    }
  }

  /** Every record moves exactly one counter. */
  lemma {:induction false} RunCounts(records: seq<ParsedClipping>, n: nat, step: (Progress, ParsedClipping, nat) -> Progress, start: Progress)
    requires n <= |records| && CountsOne(step)
    ensures Total(Run(records, n, step, start)) == Total(start) + n
  {
    if n > 0 {
      RunCounts(records, n - 1, step, start);
    }
  }

  /** The loop never writes a committed clipping. */
  lemma {:induction false} RunKeepsCommitted(records: seq<ParsedClipping>, n: nat, step: (Progress, ParsedClipping, nat) -> Progress, start: Progress)
    requires n <= |records| && KeepsCommitted(step)
    ensures Run(records, n, step, start).db.clippings == start.db.clippings
  {
    if n > 0 {
      RunKeepsCommitted(records, n - 1, step, start);
    }
  }

  /** A signature, once in `session_added_signatures`, stays there for the rest of the run. */
  lemma {:induction false} SignaturesOnlyGrow(records: seq<ParsedClipping>, m: nat, n: nat, step: (Progress, ParsedClipping, nat) -> Progress, start: Progress)
    requires m <= n <= |records| && GrowsSignatures(step)
    ensures Run(records, m, step, start).signatures <= Run(records, n, step, start).signatures
  {
    if m < n {
      SignaturesOnlyGrow(records, m, n - 1, step, start);
    }
  }

  lemma {:induction false} RunSound(records: seq<ParsedClipping>, n: nat, step: (Progress, ParsedClipping, nat) -> Progress, start: Progress)
    requires n <= |records| && KeepsSound(step) && StagingSound(start)
    ensures StagingSound(Run(records, n, step, start))
  {
    if n > 0 {
      RunSound(records, n - 1, step, start);
    }
  }

  /** A step that only counts a duplicate on every record of a stored database. */
  ghost predicate DuplicateOnStored(step: (Progress, ParsedClipping, nat) -> Progress, records: seq<ParsedClipping>, db: DbState) {
    forall p: Progress, i :: 0 <= i < |records| && p.db == db ==> step(p, records[i], i) == p.(duplicates := p.duplicates + 1)
  }

  lemma {:induction false} RunOfStored(records: seq<ParsedClipping>, n: nat, step: (Progress, ParsedClipping, nat) -> Progress, start: Progress)
    requires n <= |records| && DuplicateOnStored(step, records, start.db)
    ensures Run(records, n, step, start) == start.(duplicates := start.duplicates + n)
  {
    if n > 0 {
      RunOfStored(records, n - 1, step, start);
    }
  }

  // ------------------------------------------------------------------
  // Properties of the import
  // ------------------------------------------------------------------

  /** Every parsed record is counted exactly once. */
  lemma LoopCounts(records: seq<ParsedClipping>, outcomes: nat -> FlushOutcome, db: DbState)
    ensures Total(Loop(records, outcomes, db)) == |records|
  {
    StepOfHasAll(outcomes);
    RunCounts(records, |records|, StepOf(outcomes), Fresh(db));
  }

  /** `session_added_signatures` only grows during the run. */
  lemma LoopSignaturesGrow(records: seq<ParsedClipping>, outcomes: nat -> FlushOutcome, db: DbState, m: nat, n: nat)
    requires m <= n <= |records|
    ensures Run(records, m, StepOf(outcomes), Fresh(db)).signatures <= Run(records, n, StepOf(outcomes), Fresh(db)).signatures
  {
    StepOfHasAll(outcomes);
    SignaturesOnlyGrow(records, m, n, StepOf(outcomes), Fresh(db));
  }

  /**
   * An import on a session with nothing staged never breaks the clipping
   * uniqueness constraint: if the committed rows had distinct signatures,
   * so do they after the import, whether the commit succeeds or not.
   */
  lemma ImportKeepsUnique(file: Option<seq<string>>, env: Collaborators, outcomes: nat -> FlushOutcome, commitOk: bool, db: DbState)
    requires db.staged == [] && UniqueSignatures(db.clippings)
    ensures UniqueSignatures(Import(file, env, outcomes, commitOk, db).0.clippings)
  {
    var records := ParseFile(file, env).records;
    if records != [] {
      var p := Loop(records, outcomes, db);
      assert StagingSound(p) && p.db.clippings == db.clippings by {
        StepOfHasAll(outcomes);
        RunSound(records, |records|, StepOf(outcomes), Fresh(db));
        RunKeepsCommitted(records, |records|, StepOf(outcomes), Fresh(db));
      }
      if commitOk {
        CommitKeepsUnique(p.db);
      }
    }
  }

  /**
   * The final commit is all or nothing: on success the committed clippings
   * are the earlier ones followed by the rows the run left staged; on
   * failure none of the run's rows persist, nothing counts as added and
   * every added record counts as an error.
   */
  lemma CommitAllOrNothing(file: Option<seq<string>>, env: Collaborators, outcomes: nat -> FlushOutcome, commitOk: bool, db: DbState)
    requires ParseFile(file, env).records != []
    ensures var p := Loop(ParseFile(file, env).records, outcomes, db);
      var (s, summary) := Import(file, env, outcomes, commitOk, db);
      && s.staged == []
      && (commitOk ==> s.clippings == db.clippings + p.db.staged && summary.added == p.added && summary.errors == p.errors)
      && (!commitOk ==> s.clippings == db.clippings && summary.added == 0 && summary.errors == p.errors + p.added)
      && summary.duplicates == p.duplicates
  {
    var records := ParseFile(file, env).records;
    StepOfHasAll(outcomes);
    RunKeepsCommitted(records, |records|, StepOf(outcomes), Fresh(db));
    LoopCounts(records, outcomes, db);
  }

  /** Every record already stored: its book exists and a row with its signature is committed. */
  ghost predicate AllStored(db: DbState, records: seq<ParsedClipping>) {
    forall i :: 0 <= i < |records| ==>
      Lookup(db, KeyOf(records[i])).Some?
      && SignatureOf(RowOf(records[i], Lookup(db, KeyOf(records[i])).value)) in Signatures(db.clippings)
  }

  /**
   * Importing records that are all stored already adds nothing: every one is
   * a duplicate and the committed clippings are the same as before.
   */
  lemma ReimportAddsNothing(file: Option<seq<string>>, env: Collaborators, outcomes: nat -> FlushOutcome, commitOk: bool, db: DbState)
    requires db.staged == [] && AllStored(db, ParseFile(file, env).records)
    ensures var (s, summary) := Import(file, env, outcomes, commitOk, db);
      summary.added == 0 && summary.duplicates == summary.processed && s.clippings == db.clippings
  {
    var records := ParseFile(file, env).records;
    if records != [] {
      var step := StepOf(outcomes);
      forall p: Progress, i | 0 <= i < |records| && p.db == db ensures step(p, records[i], i) == p.(duplicates := p.duplicates + 1) {
        StoredIsDuplicate(p, records[i], outcomes(i));
      }
      RunOfStored(records, |records|, step, Fresh(db));
      assert db.clippings + [] == db.clippings;
    }
  }
}
