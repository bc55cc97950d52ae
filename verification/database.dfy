/**
 * The store `import_clippings` works through: the `books` and `clippings`
 * tables of backend/app/database/models.py behind one SQLAlchemy session.
 * Rows a transaction has added but not committed form a staged layer on top
 * of the committed tables. The session is made with `autoflush=False`
 * (backend/app/database/database.py), so a query sees the committed rows and
 * only those staged rows an explicit `flush()` has already sent; a row that
 * was only `add`ed stays pending and invisible. Only the calls the service
 * makes are modelled; what the database answers to a flush or a commit is a
 * parameter.
 */
module Database {
  import opened Wrappers
  import opened Grammar
  import Parser

  /** The key of `UniqueConstraint('title', 'author')` on `books`. */
  datatype BookKey = BookKey(title: string, author: Option<string>)

  /** A row of `clippings`; `sentiment_score` is never written and is left out. */
  datatype ClippingRow = ClippingRow(
    bookId: nat,
    clippingType: ClippingType,
    location: Option<string>,
    page: Option<string>,
    clippingDate: Parser.DateTime,
    content: Option<string>,
    contentHash: Option<string>)

  /**
   * The columns of `UniqueConstraint('book_id', 'clipping_type', 'location',
   * 'content_hash')` on `clippings`; a missing location or hash compares equal
   * to another missing one, as the `filter_by` lookup compares them.
   */
  datatype Signature = Signature(bookId: nat, clippingType: ClippingType, location: Option<string>, contentHash: Option<string>)

  function SignatureOf(c: ClippingRow): Signature {
    Signature(c.bookId, c.clippingType, c.location, c.contentHash)
  }

  /** The signatures of some rows. */
  function Signatures(rows: seq<ClippingRow>): (r: set<Signature>)
    ensures forall i :: 0 <= i < |rows| ==> SignatureOf(rows[i]) in r
  {
    if rows == [] then {} else Signatures(rows[..|rows| - 1]) + {SignatureOf(rows[|rows| - 1])}
  }

  /** A signature of some rows is the signature of one of them. */
  lemma {:induction false} SignatureSource(rows: seq<ClippingRow>, g: Signature) returns (i: nat)
    requires g in Signatures(rows)
    ensures i < |rows| && SignatureOf(rows[i]) == g
  {
    var front := rows[..|rows| - 1];
    if g in Signatures(front) {
      i := SignatureSource(front, g);
      assert rows[i] == front[i];
    } else {
      i := |rows| - 1;
    }
  }

  /** `IntegrityError` and every other error the database raises. */
  datatype DbError = IntegrityError | OperationalError

  /** What the database does with the flush of a new book row. */
  datatype FlushOutcome =
    | Flushed
      /** Another writer holds the same title and author; `visible` when its row is committed and can be read. */
    | Conflict(visible: bool)
    | Failed

  /**
   * The session: the committed tables, the id the next committed book row
   * would get, and the staged layer with its own next id. `flushed` counts
   * the staged clipping rows, from the front, that a flush has already sent;
   * the rest are pending. A rollback drops the staged layer and the ids it
   * used, as SQLite reuses the row ids of a rolled-back insert.
   */
  datatype DbState = DbState(
    books: map<BookKey, nat>,
    clippings: seq<ClippingRow>,
    committedNextId: nat,
    stagedBooks: map<BookKey, nat>,
    staged: seq<ClippingRow>,
    flushed: nat,
    nextId: nat)

  /** No two keys share an id: `id` is the primary key of `books`. */
  ghost predicate Injective(m: map<BookKey, nat>) {
    forall k1, k2 :: k1 in m && k2 in m && k1 != k2 ==> m[k1] != m[k2]
  }

  /**
   * Book ids are positive (SQLite row ids start at 1) and lie below their
   * layer's counter, a key is in one layer at most and no id is used twice;
   * the flushed rows are some of the staged ones.
   */
  ghost predicate Valid(s: DbState) {
    && 1 <= s.committedNextId <= s.nextId
    && s.flushed <= |s.staged|
    && (forall k :: k in s.books ==> 1 <= s.books[k] < s.committedNextId)
    && (forall k :: k in s.stagedBooks ==> 1 <= s.stagedBooks[k] < s.nextId && k !in s.books)
    && Injective(s.books + s.stagedBooks)
  }

  /** An empty database. */
  function Empty(): (s: DbState)
    ensures Valid(s)
  {
    DbState(map[], [], 1, map[], [], 0, 1)
  }

  /** `query(Book).filter_by(title=…, author=…).first()`, over both layers. */
  function Lookup(s: DbState, key: BookKey): (r: Option<nat>)
    ensures Valid(s) && r.Some? ==> r.value >= 1
  {
    if key in s.stagedBooks then Some(s.stagedBooks[key])
    else if key in s.books then Some(s.books[key])
    else None
  }

  /** The staged clipping rows a flush has sent to the database. */
  function FlushedRows(s: DbState): seq<ClippingRow> {
    if s.flushed <= |s.staged| then s.staged[..s.flushed] else s.staged
  }

  /**
   * `query(Clipping.id).filter_by(…).first()` is not `None`: a committed or
   * a flushed row has this signature. Pending rows are not seen.
   */
  predicate HasSignature(s: DbState, g: Signature) {
    g in Signatures(s.clippings) || g in Signatures(FlushedRows(s))
  }

  /**
   * `db.add(Book(title, author)); db.flush()` for a key no query finds.
   * Flushed: the row is staged under the next id, and the flush sends every
   * pending clipping row with it. Conflict: the flush raises `IntegrityError`,
   * and a row the other writer committed becomes visible. Failed: any other
   * error. Nothing is staged or sent unless the flush succeeds.
   */
  function InsertBook(s: DbState, key: BookKey, outcome: FlushOutcome): (r: (DbState, Option<DbError>))
    requires Lookup(s, key).None?
    ensures Valid(s) ==> Valid(r.0)
    ensures r.1.None? <==> outcome == Flushed
    ensures r.1.None? ==> Lookup(r.0, key) == Some(s.nextId)
    ensures r.0.clippings == s.clippings && r.0.staged == s.staged
    ensures r.1.None? ==> FlushedRows(r.0) == s.staged
  {
    match outcome
    case Flushed =>
      InjectiveAdd(s.books + s.stagedBooks, key, s.nextId);
      assert s.books + s.stagedBooks[key := s.nextId] == (s.books + s.stagedBooks)[key := s.nextId];
      (s.(stagedBooks := s.stagedBooks[key := s.nextId], flushed := |s.staged|, nextId := s.nextId + 1), None)
    case Conflict(visible) =>
      // The other writer's book is given the id this session would have used;
      // the model assumes that id, since the database promises none in particular.
      if visible then
        InjectiveAdd(s.books + s.stagedBooks, key, s.nextId);
        assert s.books[key := s.nextId] + s.stagedBooks == (s.books + s.stagedBooks)[key := s.nextId];
        (s.(books := s.books[key := s.nextId], committedNextId := s.nextId + 1, nextId := s.nextId + 1), Some(IntegrityError))
      else (s, Some(IntegrityError))
    case Failed => (s, Some(OperationalError))
  }

  /** An id above every id of an injective map keeps it injective. */
  lemma InjectiveAdd(m: map<BookKey, nat>, key: BookKey, id: nat)
    ensures Injective(m) && key !in m && (forall k :: k in m ==> m[k] < id) ==> Injective(m[key := id])
  {
  }

  /**
   * `db.add(Clipping(…))`: the row joins the staged layer as pending, so no
   * query sees it until the next flush; the commit will write it.
   */
  function Stage(s: DbState, row: ClippingRow): (r: DbState)
    ensures Valid(s) ==> Valid(r)
    ensures Valid(s) ==> forall g :: HasSignature(r, g) == HasSignature(s, g)
    ensures Committed(r, true).0.clippings == s.clippings + s.staged + [row]
  {
    var r := s.(staged := s.staged + [row]);
    assert Valid(s) ==> FlushedRows(r) == FlushedRows(s);
    r
  }

  /** `db.rollback()`: the staged layer and its ids are gone, the committed tables stay. */
  function RolledBack(s: DbState): (r: DbState)
    ensures Valid(s) ==> Valid(r)
    ensures r.books == s.books && r.clippings == s.clippings && r.staged == [] && r.stagedBooks == map[]
  {
    CommittedInjective(s);
    assert s.books + map[] == s.books;
    s.(stagedBooks := map[], staged := [], flushed := 0, nextId := s.committedNextId)
  }

  /** The committed layer alone has distinct ids. */
  lemma CommittedInjective(s: DbState)
    ensures Valid(s) ==> Injective(s.books)
  {
    if Valid(s) {
      var all := s.books + s.stagedBooks;
      forall k | k in s.books ensures all[k] == s.books[k] {
        assert k !in s.stagedBooks;
      }
    }
  }

  /**
   * `db.commit()`: when the database accepts it, the staged layer becomes
   * part of the committed tables; otherwise it raises and nothing changes
   * until the rollback that follows.
   */
  function Committed(s: DbState, ok: bool): (r: (DbState, Option<DbError>))
    ensures Valid(s) ==> Valid(r.0)
    ensures r.1.None? <==> ok
    ensures ok ==> r.0.clippings == s.clippings + s.staged && r.0.staged == [] && r.0.stagedBooks == map[]
    ensures ok ==> r.0.books == s.books + s.stagedBooks && r.0.flushed == 0
    ensures ok ==> r.0.committedNextId == s.nextId && r.0.nextId == s.nextId
    ensures !ok ==> r.0 == s
  {
    if ok then
      (DbState(s.books + s.stagedBooks, s.clippings + s.staged, s.nextId, map[], [], 0, s.nextId), None)
    else (s, Some(OperationalError))
  }

  /** Rolling back twice is rolling back once. */
  lemma RollbackIdempotent(s: DbState)
    ensures RolledBack(RolledBack(s)) == RolledBack(s)
  {
  }

  /** A committed book is found, under its own id, after a commit, and after a rollback too. */
  lemma CommittedBooksStay(s: DbState, key: BookKey, ok: bool)
    requires Valid(s) && Lookup(s, key).Some?
    ensures Lookup(Committed(s, ok).0, key) == Lookup(s, key)
    ensures key in s.books ==> Lookup(RolledBack(s), key) == Lookup(s, key)
  {
  }

  /** Rows of distinct signatures: the clipping uniqueness constraint holds. */
  ghost predicate UniqueSignatures(rows: seq<ClippingRow>) {
    forall i, j :: 0 <= i < j < |rows| ==> SignatureOf(rows[i]) != SignatureOf(rows[j])
  }

  /**
   * Committing staged rows of distinct signatures, none of them already
   * committed, keeps the committed rows' signatures distinct.
   */
  lemma CommitKeepsUnique(s: DbState)
    requires UniqueSignatures(s.clippings) && UniqueSignatures(s.staged)
    requires forall i :: 0 <= i < |s.staged| ==> SignatureOf(s.staged[i]) !in Signatures(s.clippings)
    ensures UniqueSignatures(Committed(s, true).0.clippings)
  {
    var rows := s.clippings + s.staged;
    forall i, j | 0 <= i < j < |rows| ensures SignatureOf(rows[i]) != SignatureOf(rows[j]) {
      if j >= |s.clippings| {
        assert rows[j] == s.staged[j - |s.clippings|];
        if i < |s.clippings| {
          assert rows[i] == s.clippings[i];
        } else {
          assert rows[i] == s.staged[i - |s.clippings|];
        }
      }
    }
  }

  /**
   * The session object: the same state, updated in place by the calls the
   * service makes on it.
   */
  class Session {
    var books: map<BookKey, nat>
    var clippings: seq<ClippingRow>
    var committedNextId: nat
    var stagedBooks: map<BookKey, nat>
    var staged: seq<ClippingRow>
    var flushed: nat
    var nextId: nat

    function State(): DbState
      reads this
    {
      DbState(books, clippings, committedNextId, stagedBooks, staged, flushed, nextId)
    }

    /** A session on a database in the given state. */
    constructor(s: DbState)
      ensures State() == s
    {
      books, clippings, committedNextId := s.books, s.clippings, s.committedNextId;
      stagedBooks, staged, flushed, nextId := s.stagedBooks, s.staged, s.flushed, s.nextId;
    }

    method FindBook(key: BookKey) returns (id: Option<nat>)
      ensures id == Lookup(State(), key)
    {
      if key in stagedBooks {
        id := Some(stagedBooks[key]);
      } else if key in books {
        id := Some(books[key]);
      } else {
        id := None;
      }
    }

    method ClippingExists(g: Signature) returns (found: bool)
      ensures found == HasSignature(State(), g)
    {
      var sent := if flushed <= |staged| then staged[..flushed] else staged;
      found := g in Signatures(clippings) || g in Signatures(sent);
    }

    method AddAndFlushBook(key: BookKey, outcome: FlushOutcome) returns (err: Option<DbError>)
      requires Lookup(State(), key).None?
      modifies this
      ensures (State(), err) == InsertBook(old(State()), key, outcome)
    {
      err := None;
      match outcome {
        case Flushed =>
          stagedBooks := stagedBooks[key := nextId];
          flushed := |staged|;
          nextId := nextId + 1;
        case Conflict(visible) =>
          if visible {
            books := books[key := nextId];
            committedNextId := nextId + 1;
            nextId := nextId + 1;
          }
          err := Some(IntegrityError);
        case Failed =>
          err := Some(OperationalError);
      }
    }

    method Add(row: ClippingRow)
      modifies this
      ensures State() == Stage(old(State()), row)
    {
      staged := staged + [row];
    }

    method Rollback()
      modifies this
      ensures State() == RolledBack(old(State()))
    {
      stagedBooks, staged, flushed, nextId := map[], [], 0, committedNextId;
    }

    method Commit(ok: bool) returns (err: Option<DbError>)
      modifies this
      ensures (State(), err) == Committed(old(State()), ok)
    {
      if ok {
        books, clippings, committedNextId := books + stagedBooks, clippings + staged, nextId;
        stagedBooks, staged, flushed := map[], [], 0;
        err := None;
      } else {
        err := Some(OperationalError);
      }
    }
  }
}
