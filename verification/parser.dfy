/**
 * `parse_entry` and the splitting loop of `parse_clippings_file`
 * (backend/app/parsing/parser.py). A clippings file is a run of entries,
 * each closed by a line of ten `=`; an entry is a title line, a header line
 * and, for highlights and notes, the clipped text.
 */
module Parser {
  import opened Wrappers
  import opened PyText
  import opened Grammar
  import opened Authors
  import opened Hashing

  /** The naive date and time `dateutil.parser.parse` returns. */
  datatype DateTime = DateTime(year: int, month: int, day: int, hour: int, minute: int, second: int)

  /**
   * The two calls the parser makes into code outside this model: the date
   * parser (`None` where it raises) and the SHA-256 digest.
   */
  datatype Collaborators = Collaborators(parseDate: string -> Option<DateTime>, sha256: seq<byte> -> Digest)

  /** The dictionary `parse_entry` returns. */
  datatype ParsedClipping = ParsedClipping(
    bookTitle: string,
    author: Option<string>,
    clippingType: ClippingType,
    page: Option<string>,
    location: Option<string>,
    clippingDate: DateTime,
    content: Option<string>,
    contentHash: Option<string>)

  /** `DELIMITER`. */
  const Delimiter: string := "=========="

  /** `line == DELIMITER`: exactly ten `=`. */
  predicate IsDelimiter(line: string) {
    |line| == 10 && forall i :: 0 <= i < 10 ==> line[i] == '='
  }

  lemma DelimiterIsOne()
    ensures IsDelimiter(Delimiter) && IsStripped(Delimiter)
  {
  }

  // ------------------------------------------------------------------
  // parse_entry
  // ------------------------------------------------------------------

  function PageOf(m: Metadata): Option<string> {
    match m
    case PageWithOptionalLocation(p, _) => Some(p)
    case LocationOnly(_) => None
  }

  /** `location if page else location2`: the location after a page, or the one after `on`. */
  function LocationOf(m: Metadata): Option<string> {
    match m
    case PageWithOptionalLocation(_, l) => l
    case LocationOnly(l) => Some(l)
  }

  /**
   * The clipped text: the lines after the header, joined with newlines and
   * stripped, for a highlight or a note; `None` for a bookmark, for no lines
   * and for text that strips to nothing.
   */
  function Content(t: ClippingType, body: seq<string>): (c: Option<string>)
    ensures c.Some? <==> t != Bookmark && body != [] && Strip(Join("\n", body)) != []
    ensures c.Some? ==> IsStripped(c.value)
  {
    if t != Bookmark && body != [] then
      var text := Strip(Join("\n", body));
      if text == [] then None else Some(text)
    else None
  }

  /**
   * The text of a highlight or note whose first and last body lines are
   * stripped and not empty, as the loop hands them over, is the body lines
   * joined with newlines, unchanged.
   */
  lemma ContentOfLines(t: ClippingType, body: seq<string>)
    requires t != Bookmark && body != []
    requires body[0] != [] && IsStripped(body[0])
    requires body[|body| - 1] != [] && IsStripped(body[|body| - 1])
    ensures Content(t, body) == Some(Join("\n", body))
  {
    var j, last := Join("\n", body), body[|body| - 1];
    JoinEnds("\n", body);
    assert j[0] == body[0][0];
    assert j[|j| - 1] == last[|last| - 1] by {
      assert j[|j| - |last|..][|last| - 1] == last[|last| - 1];
    }
    StripOfStripped(j);
  }

  /** What every parsed clipping satisfies, whatever the file held. */
  ghost predicate WellFormedRecord(c: ParsedClipping) {
    && IsStripped(c.bookTitle)
    && (c.author.Some? ==> '.' !in c.author.value && ',' !in c.author.value)
    && (c.page.Some? ==> c.page.value != [] && IsDigit(c.page.value[0]) && IsRange(c.page.value))
    && (c.location.Some? ==> c.location.value != [] && IsRange(c.location.value))
    && (c.content.Some? ==> c.clippingType != Bookmark && c.content.value != [] && IsStripped(c.content.value))
    && (c.contentHash.Some? <==> c.content.Some?)
    && (c.contentHash.Some? ==> |c.contentHash.value| == 64 && IsLowerHex(c.contentHash.value))
  }

  /**
   * `parse_entry(entry_lines)`: `None` for fewer than two lines, a title line
   * or a header line the patterns reject, or a date the date parser rejects.
   */
  function ParseEntry(lines: seq<string>, env: Collaborators): (r: Option<ParsedClipping>)
    ensures r.Some? <==>
      && |lines| >= 2
      && ParseLine1(lines[0]).Some?
      && ParseLine2(lines[1]).Some?
      && env.parseDate(ParseLine2(lines[1]).value.dateText).Some?
    ensures r.Some? ==> WellFormedRecord(r.value)
  {
    if |lines| < 2 then None
    else
      match (ParseLine1(lines[0]), ParseLine2(lines[1]))
      case (Some(l1), Some(h)) =>
        (match env.parseDate(h.dateText)
         case Some(date) =>
           var content := Content(h.clippingType, lines[2..]);
           Some(ParsedClipping(l1.title, NormalizeAuthor(l1.rawAuthor), h.clippingType,
                               PageOf(h.meta), LocationOf(h.meta), date,
                               content, ContentHash(content, env.sha256)))
         case None => None)
      case _ => None
  }

  /**
   * An entry written out from its parts is read back into those parts: the
   * title, the normalised author, the header's type, page, location and date,
   * and the body as content.
   */
  lemma EntryOfRendered(title: string, author: string, h: Header2, body: seq<string>, env: Collaborators)
    requires IsStripped(title) && BracketsClosed(title) && '\n' !in title
    requires author != [] && IsStripped(author) && ')' !in author && '\n' !in author
    requires WellFormedHeader(h) && env.parseDate(h.dateText).Some?
    ensures var content := Content(h.clippingType, body);
      ParseEntry([title + " (" + author + ")", RenderLine2(h)] + body, env) ==
      Some(ParsedClipping(title, NormalizeAuthor(Some(author)), h.clippingType,
                          PageOf(h.meta), LocationOf(h.meta), env.parseDate(h.dateText).value,
                          content, ContentHash(content, env.sha256)))
  {
    var lines := [title + " (" + author + ")", RenderLine2(h)] + body;
    TwoThen(title + " (" + author + ")", RenderLine2(h), body);
    Line1TitleAndAuthor(title, author);
    Line2RoundTrip(h);
  }

  /**
   * The title pattern cannot fail on a line without a newline, so an entry
   * of two lines or more is dropped only for its header line or its date.
   */
  lemma EntryFailsOnlyOnHeader(lines: seq<string>, env: Collaborators)
    requires |lines| >= 2 && '\n' !in lines[0]
    ensures ParseEntry(lines, env).None? <==>
      ParseLine2(lines[1]).None? || env.parseDate(ParseLine2(lines[1]).value.dateText).None?
  {
    Line1Total(lines[0]);
  }

  // ------------------------------------------------------------------
  // The splitting loop of parse_clippings_file
  // ------------------------------------------------------------------

  /**
   * The loop's variables: the lines gathered since the last delimiter, the
   * records made so far and the three counters. The loop does not look
   * inside an entry, so the record type and the entry parser are parameters.
   */
  datatype ScanState<R> = ScanState(current: seq<string>, records: seq<R>, entries: nat, processed: nat, skipped: nat)

  function Start<R>(): ScanState<R> {
    ScanState([], [], 0, 0, 0)
  }

  /** Lines as the loop gathers them: not empty and not a delimiter. */
  predicate CleanBlock(b: seq<string>) {
    forall i :: 0 <= i < |b| ==> b[i] != [] && !IsDelimiter(b[i])
  }

  /** Every line of `lines`, stripped, as the loop sees them. */
  function StripAll(lines: seq<string>): (r: seq<string>)
    ensures |r| == |lines| && forall i :: 0 <= i < |r| ==> IsStripped(r[i])
  {
    seq(|lines|, i requires 0 <= i < |lines| => Strip(lines[i]))
  }

  /** The number of delimiter lines among the first `n`. */
  function DelimiterCount(lines: seq<string>, n: nat): nat
    requires n <= |lines|
  {
    if n == 0 then 0
    else DelimiterCount(lines, n - 1) + (if IsDelimiter(lines[n - 1]) then 1 else 0)
  }

  /** The lines that are not empty, in order: what the loop keeps of stripped lines. */
  function NonBlank(lines: seq<string>): seq<string> {
    if lines == [] then []
    else NonBlank(lines[..|lines| - 1]) + (if lines[|lines| - 1] != [] then [lines[|lines| - 1]] else [])
  }

  /** One turn of the loop, given the stripped line. */
  function ScanLine<R>(st: ScanState<R>, line: string, entry: seq<string> -> Option<R>): ScanState<R> {
    if IsDelimiter(line) then
      var closed := st.(current := [], entries := st.entries + 1);
      if |st.current| >= 2 then
        match entry(st.current)
        case Some(c) => closed.(records := st.records + [c], processed := st.processed + 1)
        case None => closed.(skipped := st.skipped + 1)
      else if st.current != [] then closed.(skipped := st.skipped + 1)
      else closed
    else if line != [] then st.(current := st.current + [line])
    else st
  }

  /** What holds of the loop's variables at every turn. */
  predicate Counted<R>(st: ScanState<R>) {
    st.processed == |st.records| && st.processed + st.skipped <= st.entries && CleanBlock(st.current)
  }

  lemma CleanAppend(b: seq<string>, line: string)
    requires CleanBlock(b) && line != [] && !IsDelimiter(line)
    ensures CleanBlock(b + [line])
  {
    var c := b + [line];
    forall i | 0 <= i < |c| ensures c[i] != [] && !IsDelimiter(c[i]) {
      if i < |b| { assert c[i] == b[i]; } else { assert c[i] == line; }
    }
  }

  /** One turn keeps the counters in step and counts a delimiter exactly when it sees one. */
  lemma ScanLineCounted<R>(st: ScanState<R>, line: string, entry: seq<string> -> Option<R>)
    requires Counted(st)
    ensures Counted(ScanLine(st, line, entry))
    ensures ScanLine(st, line, entry).entries == st.entries + (if IsDelimiter(line) then 1 else 0)
  {
    if !IsDelimiter(line) && line != [] {
      CleanAppend(st.current, line);
    }
  }

  /** The state after the loop has seen the first `n` (stripped) lines. */
  function Scan<R>(lines: seq<string>, n: nat, entry: seq<string> -> Option<R>): ScanState<R>
    requires n <= |lines|
  {
    if n == 0 then Start() else ScanLine(Scan(lines, n - 1, entry), lines[n - 1], entry)
  }

  /**
   * At every turn: one record per processed entry, processed and skipped
   * entries together no more than the delimiters seen, one entry counted per
   * delimiter line, and only clean lines pending.
   */
  lemma {:induction false} ScanCounted<R>(lines: seq<string>, n: nat, entry: seq<string> -> Option<R>)
    requires n <= |lines|
    ensures Counted(Scan(lines, n, entry)) && Scan(lines, n, entry).entries == DelimiterCount(lines, n)
  {
    if n > 0 {
      ScanCounted(lines, n - 1, entry);
      ScanLineCounted(Scan(lines, n - 1, entry), lines[n - 1], entry);
    }
  }

  /** The loop over a whole file. */
  function ScanAll<R>(lines: seq<string>, entry: seq<string> -> Option<R>): ScanState<R> {
    Scan(lines, |lines|, entry)
  }

  /** `parse_entry`, as the loop calls it. */
  function EntryParser(env: Collaborators): seq<string> -> Option<ParsedClipping> {
    b => ParseEntry(b, env)
  }

  /** What `parse_clippings_file` computes: nothing at all for a file that cannot be read. */
  function ParseFile(file: Option<seq<string>>, env: Collaborators): ScanState<ParsedClipping> {
    match file
    case None => Start()
    case Some(lines) => ScanAll(StripAll(lines), EntryParser(env))
  }

  /**
   * `parse_clippings_file`: `file` is what `readlines()` gave, or `None`
   * where opening or reading raised. Besides the clippings it returns the
   * three counters the source logs.
   */
  method ParseClippingsFile(file: Option<seq<string>>, env: Collaborators)
    returns (clippings: seq<ParsedClipping>, entryCount: nat, processedCount: nat, skippedCount: nat)
    ensures var st := ParseFile(file, env);
      clippings == st.records && entryCount == st.entries
      && processedCount == st.processed && skippedCount == st.skipped
  {
    clippings, entryCount, processedCount, skippedCount := [], 0, 0, 0;
    if file.None? {
      return;
    }
    var lines := file.value;
    var entry := EntryParser(env);
    ghost var stripped := StripAll(lines);
    var current: seq<string> := [];
    for i := 0 to |lines|
      invariant ScanState(current, clippings, entryCount, processedCount, skippedCount) == Scan(stripped, i, entry)
    {
      var line := Strip(lines[i]);
      assert line == stripped[i];
      current, clippings, entryCount, processedCount, skippedCount :=
        Turn(current, clippings, entryCount, processedCount, skippedCount, line, entry);
    }
  }

  /** The body of the loop, on one stripped line. */
  method Turn<R>(current: seq<string>, records: seq<R>, entries: nat, processed: nat, skipped: nat,
                 line: string, entry: seq<string> -> Option<R>)
    returns (current': seq<string>, records': seq<R>, entries': nat, processed': nat, skipped': nat)
    ensures ScanState(current', records', entries', processed', skipped')
      == ScanLine(ScanState(current, records, entries, processed, skipped), line, entry)
  {
    current', records', entries', processed', skipped' := current, records, entries, processed, skipped;
    if IsDelimiter(line) {
      entries' := entries' + 1;
      if |current| >= 2 {
        var parsed := entry(current);
        if parsed.Some? {
          records' := records' + [parsed.value];
          processed' := processed' + 1;
        } else {
          skipped' := skipped' + 1;
        }
      } else if current != [] {
        skipped' := skipped' + 1;
      }
      current' := [];
    } else if line != [] {
      current' := current' + [line];
    }
  }

  // ------------------------------------------------------------------
  // Properties of the loop
  // ------------------------------------------------------------------

  // Sequence facts, stated over any element type so that the solver does not
  // look inside the elements (here, lines).

  lemma PrefixAll<T>(a: seq<T>)
    ensures a[..|a|] == a
  {
  }

  lemma AppendEmpty<T>(a: seq<T>)
    ensures a + [] == a
  {
  }

  lemma Assoc<T>(a: seq<T>, b: seq<T>, c: seq<T>)
    ensures a + b + c == a + (b + c)
  {
  }

  lemma TwoThen<T>(x: T, y: T, rest: seq<T>)
    ensures ([x, y] + rest)[0] == x && ([x, y] + rest)[1] == y && ([x, y] + rest)[2..] == rest
  {
  }

  lemma IndexAppend<T>(a: seq<T>, b: seq<T>, k: nat)
    requires k < |a| + |b|
    ensures (a + b)[k] == if k < |a| then a[k] else b[k - |a|]
  {
  }

  lemma PrefixSnoc<T>(b: seq<T>, n: nat)
    requires n < |b|
    ensures b[..n + 1] == b[..n] + [b[n]]
  {
  }

  /** The first lines of a file are scanned the same whatever follows them. */
  lemma {:induction false} ScanPrefix<R>(a: seq<string>, b: seq<string>, n: nat, entry: seq<string> -> Option<R>)
    requires n <= |a|
    ensures Scan(a + b, n, entry) == Scan(a, n, entry)
  {
    if n > 0 {
      ScanPrefix(a, b, n - 1, entry);
      IndexAppend(a, b, n - 1);
    }
  }

  /** Lines after the last delimiter never make a record and change no counter. */
  lemma {:induction false} TrailingLinesIgnored<R>(lines: seq<string>, tail: seq<string>, k: nat, entry: seq<string> -> Option<R>)
    requires k <= |tail| && forall j :: 0 <= j < |tail| ==> !IsDelimiter(tail[j])
    ensures var a, b := ScanAll(lines, entry), Scan(lines + tail, |lines| + k, entry);
      b.records == a.records && b.entries == a.entries && b.processed == a.processed && b.skipped == a.skipped
  {
    if k == 0 {
      ScanPrefix(lines, tail, |lines|, entry);
    } else {
      TrailingLinesIgnored(lines, tail, k - 1, entry);
      IndexAppend(lines, tail, |lines| + k - 1);
    }
  }

  /** The loop state after `b`, when it started from the closed state `a` instead of from scratch. */
  function Combine<R>(a: ScanState<R>, b: ScanState<R>): ScanState<R> {
    ScanState(b.current, a.records + b.records, a.entries + b.entries, a.processed + b.processed, a.skipped + b.skipped)
  }

  lemma CombineStart<R>(x: ScanState<R>)
    requires x.current == []
    ensures Combine(x, Start()) == x
  {
    AppendEmpty(x.records);
  }

  lemma ScanLineAfter<R>(a: ScanState<R>, b: ScanState<R>, line: string, entry: seq<string> -> Option<R>)
    requires a.current == []
    ensures ScanLine(Combine(a, b), line, entry) == Combine(a, ScanLine(b, line, entry))
  {
    forall c { Assoc(a.records, b.records, [c]); }
  }

  /**
   * Entries are independent: once a delimiter has closed the pending lines,
   * what follows is parsed as if it were a file of its own.
   */
  lemma {:induction false} ScanAppend<R>(a: seq<string>, b: seq<string>, k: nat, entry: seq<string> -> Option<R>)
    requires k <= |b| && ScanAll(a, entry).current == []
    ensures Scan(a + b, |a| + k, entry) == Combine(ScanAll(a, entry), Scan(b, k, entry))
  {
    if k == 0 {
      ScanPrefix(a, b, |a|, entry);
      CombineStart(ScanAll(a, entry));
    } else {
      ScanAppend(a, b, k - 1, entry);
      IndexAppend(a, b, |a| + k - 1);
      ScanLineAfter(ScanAll(a, entry), Scan(b, k - 1, entry), b[k - 1], entry);
    }
  }

  /** Lines without a delimiter are only gathered, blank ones dropped. */
  lemma {:induction false} ScanGathers<R>(b: seq<string>, n: nat, entry: seq<string> -> Option<R>)
    requires n <= |b| && forall j :: 0 <= j < |b| ==> !IsDelimiter(b[j])
    ensures Scan(b, n, entry) == ScanState(NonBlank(b[..n]), [], 0, 0, 0)
  {
    if n > 0 {
      ScanGathers(b, n - 1, entry);
      NonBlankStep(b, n - 1);
    }
  }

  /** Keeping the non-empty lines of one more line. */
  lemma NonBlankStep(lines: seq<string>, n: nat)
    requires n < |lines|
    ensures NonBlank(lines[..n + 1]) == NonBlank(lines[..n]) + (if lines[n] != [] then [lines[n]] else [])
  {
    PrefixSnoc(lines, n);
    assert lines[..n + 1][..n] == lines[..n];
  }

  /** A clean block keeps all its lines. */
  lemma {:induction false} NonBlankOfClean(b: seq<string>)
    requires CleanBlock(b)
    ensures NonBlank(b) == b
  {
    if b != [] {
      var front := b[..|b| - 1];
      assert CleanBlock(front) by {
        forall i | 0 <= i < |front| ensures front[i] == b[i] { }
      }
      NonBlankOfClean(front);
      assert b == front + [b[|b| - 1]];
    }
  }

  /** Keeping the non-empty lines of a concatenation. */
  lemma {:induction false} NonBlankAppend(a: seq<string>, b: seq<string>)
    ensures NonBlank(a + b) == NonBlank(a) + NonBlank(b)
  {
    if b == [] {
      assert a + b == a;
    } else {
      var front := b[..|b| - 1];
      var x := b[|b| - 1];
      NonBlankAppend(a, front);
      assert (a + b)[..|a + b| - 1] == a + front;
      assert (a + b)[|a + b| - 1] == x;
      Assoc(NonBlank(a), NonBlank(front), if x != [] then [x] else []);
    }
  }

  /** One more line after a whole scan. */
  lemma ScanSnoc<R>(a: seq<string>, x: string, entry: seq<string> -> Option<R>)
    ensures ScanAll(a + [x], entry) == ScanLine(ScanAll(a, entry), x, entry)
  {
    ScanPrefix(a, [x], |a|, entry);
    IndexAppend(a, [x], |a|);
  }

  /**
   * Blank lines are skipped: the loop over any lines is the loop over their
   * non-empty lines alone.
   */
  lemma {:induction false} ScanSkipsBlank<R>(lines: seq<string>, n: nat, entry: seq<string> -> Option<R>)
    requires n <= |lines|
    ensures Scan(lines, n, entry) == ScanAll(NonBlank(lines[..n]), entry)
  {
    if n > 0 {
      ScanSkipsBlank(lines, n - 1, entry);
      NonBlankStep(lines, n - 1);
      var kept := NonBlank(lines[..n - 1]);
      if lines[n - 1] != [] {
        ScanSnoc(kept, lines[n - 1], entry);
      } else {
        AppendEmpty(kept);
      }
    }
  }

  /** A delimiter closes the gathered lines: at most one record, one entry counted. */
  lemma CloseBlock<R>(b: seq<string>, line: string, entry: seq<string> -> Option<R>)
    requires IsDelimiter(line)
    ensures var st := ScanLine(ScanState(b, [], 0, 0, 0), line, entry);
      && st.current == [] && st.entries == 1
      && st.records == (if |b| >= 2 && entry(b).Some? then [entry(b).value] else [])
      && st.processed + st.skipped == (if b == [] then 0 else 1)
  {
  }

  /** One entry followed by its delimiter yields exactly the record the entry parser makes of it, if any. */
  lemma SingleEntry<R>(b: seq<string>, delimiter: string, entry: seq<string> -> Option<R>)
    requires CleanBlock(b) && IsDelimiter(delimiter)
    ensures var st := ScanAll(b + [delimiter], entry);
      && st.current == [] && st.entries == 1
      && st.records == (if |b| >= 2 && entry(b).Some? then [entry(b).value] else [])
      && st.processed + st.skipped == (if b == [] then 0 else 1)
  {
    assert ScanAll(b, entry) == ScanState(b, [], 0, 0, 0) by {
      ScanGathers(b, |b|, entry);
      PrefixAll(b);
      NonBlankOfClean(b);
    }
    ScanSnoc(b, delimiter, entry);
    CloseBlock(b, delimiter, entry);
  }

  /** A file written out as entries, each followed by a delimiter. */
  function Render(blocks: seq<seq<string>>): seq<string> {
    if blocks == [] then [] else Render(blocks[..|blocks| - 1]) + blocks[|blocks| - 1] + [Delimiter]
  }

  /** The entry parser over every entry of two lines or more, keeping what it accepts, in file order. */
  function ParseAll<R>(blocks: seq<seq<string>>, entry: seq<string> -> Option<R>): seq<R> {
    if blocks == [] then []
    else
      var last := blocks[|blocks| - 1];
      ParseAll(blocks[..|blocks| - 1], entry) + (if |last| >= 2 && entry(last).Some? then [entry(last).value] else [])
  }

  /**
   * Reading a file of clean entries gives exactly the entries the entry
   * parser accepts, in order, and counts one entry per delimiter.
   */
  lemma {:induction false} ScanOfEntries<R>(blocks: seq<seq<string>>, entry: seq<string> -> Option<R>)
    requires forall i :: 0 <= i < |blocks| ==> CleanBlock(blocks[i])
    ensures ScanAll(Render(blocks), entry).current == []
    ensures ScanAll(Render(blocks), entry).records == ParseAll(blocks, entry)
    ensures ScanAll(Render(blocks), entry).entries == |blocks|
  {
    if blocks != [] {
      var front := blocks[..|blocks| - 1];
      var last := blocks[|blocks| - 1];
      var head, tail := Render(front), last + [Delimiter];
      var a, b := ScanAll(head, entry), ScanAll(tail, entry);
      assert a.current == [] && a.records == ParseAll(front, entry) && a.entries == |front| by {
        ScanOfEntries(front, entry);
      }
      assert b.records == (if |last| >= 2 && entry(last).Some? then [entry(last).value] else [])
        && b.entries == 1 && b.current == [] by {
        DelimiterIsOne();
        SingleEntry(last, Delimiter, entry);
      }
      assert ScanAll(Render(blocks), entry) == Combine(a, b) by {
        assert Render(blocks) == head + tail by { Assoc(head, last, [Delimiter]); }
        ScanAppend(head, tail, |tail|, entry);
      }
      assert ParseAll(blocks, entry) == a.records + b.records;
    }
  }

  /**
   * `parse_clippings_file` on any file whose stripped, non-blank lines are
   * entries each closed by a delimiter: the clippings are exactly the
   * entries `parse_entry` accepts, in file order, and every delimiter counts
   * one entry. Newlines, surrounding whitespace and blank lines anywhere in
   * the file make no difference.
   */
  lemma FileOfEntries(lines: seq<string>, blocks: seq<seq<string>>, env: Collaborators)
    requires forall i :: 0 <= i < |blocks| ==> CleanBlock(blocks[i])
    requires NonBlank(StripAll(lines)) == Render(blocks)
    ensures ParseFile(Some(lines), env).records == ParseAll(blocks, EntryParser(env))
    ensures ParseFile(Some(lines), env).entries == |blocks|
  {
    var stripped := StripAll(lines);
    assert ScanAll(stripped, EntryParser(env)) == ScanAll(Render(blocks), EntryParser(env)) by {
      ScanSkipsBlank(stripped, |stripped|, EntryParser(env));
      PrefixAll(stripped);
    }
    ScanOfEntries(blocks, EntryParser(env));
  }

  predicate AllStripped(lines: seq<string>) {
    forall i :: 0 <= i < |lines| ==> IsStripped(lines[i])
  }

  /**
   * An entry as a Kindle device writes it: the title line, the header line,
   * a blank line, then the clipped text.
   */
  function Layout(b: seq<string>): seq<string> {
    if |b| >= 2 then b[..2] + [""] + b[2..] else b
  }

  /** A clippings file as a device writes it, before the line ends. */
  function KindleLines(blocks: seq<seq<string>>): seq<string> {
    if blocks == [] then [] else KindleLines(blocks[..|blocks| - 1]) + Layout(blocks[|blocks| - 1]) + [Delimiter]
  }

  /** Lines as `readlines()` returns them: each ends in a newline. */
  function Terminated(lines: seq<string>): seq<string> {
    seq(|lines|, i requires 0 <= i < |lines| => lines[i] + "\n")
  }

  /**
   * `parse_clippings_file` on a file laid out as a device writes it, every
   * line ending in a newline and a blank line after each header: the
   * clippings are exactly the entries `parse_entry` accepts, in file order.
   */
  lemma KindleFile(blocks: seq<seq<string>>, env: Collaborators)
    requires forall i :: 0 <= i < |blocks| ==> CleanBlock(blocks[i]) && AllStripped(blocks[i])
    ensures ParseFile(Some(Terminated(KindleLines(blocks))), env).records == ParseAll(blocks, EntryParser(env))
    ensures ParseFile(Some(Terminated(KindleLines(blocks))), env).entries == |blocks|
  {
    var lines := KindleLines(blocks);
    KindleStripped(blocks);
    StripTerminated(lines);
    KindleNonBlank(blocks);
    FileOfEntries(Terminated(lines), blocks, env);
  }

  /** Stripping lines that were stripped before their newline gives them back. */
  lemma StripTerminated(lines: seq<string>)
    requires AllStripped(lines)
    ensures StripAll(Terminated(lines)) == lines
  {
    forall i | 0 <= i < |lines| ensures StripAll(Terminated(lines))[i] == lines[i] {
      StripNewline(lines[i]);
    }
  }

  /** Dropping the blank lines of a device's layout gives the plain rendering. */
  lemma {:induction false} KindleNonBlank(blocks: seq<seq<string>>)
    requires forall i :: 0 <= i < |blocks| ==> CleanBlock(blocks[i])
    ensures NonBlank(KindleLines(blocks)) == Render(blocks)
  {
    if blocks != [] {
      var front := blocks[..|blocks| - 1];
      var last := blocks[|blocks| - 1];
      KindleNonBlank(front);
      LayoutNonBlank(last);
      NonBlankAppend(KindleLines(front) + Layout(last), [Delimiter]);
      NonBlankAppend(KindleLines(front), Layout(last));
      assert NonBlank([Delimiter]) == [Delimiter] by {
        assert [Delimiter][..0] == [];
      }
    }
  }

  /** The blank line after the header is the only line of a layout dropped. */
  lemma LayoutNonBlank(b: seq<string>)
    requires CleanBlock(b)
    ensures NonBlank(Layout(b)) == b
  {
    if |b| >= 2 {
      var head, tail := b[..2], b[2..];
      assert CleanBlock(head) && CleanBlock(tail) by {
        forall i | 0 <= i < 2 ensures head[i] == b[i] { }
        forall i | 0 <= i < |tail| ensures tail[i] == b[i + 2] { }
      }
      BlankDropped(head, tail);
      assert head + tail == b;
    } else {
      NonBlankOfClean(b);
    }
  }

  /** One blank line between two clean runs of lines is dropped. */
  lemma BlankDropped(head: seq<string>, tail: seq<string>)
    requires CleanBlock(head) && CleanBlock(tail)
    ensures NonBlank(head + [""] + tail) == head + tail
  {
    NonBlankOfClean(head);
    NonBlankOfClean(tail);
    NonBlankAppend(head + [""], tail);
    NonBlankAppend(head, [""]);
    assert NonBlank([""]) == [] by {
      assert [""][..0] == [];
    }
  }

  /** A device's layout of stripped entries has only stripped lines. */
  lemma {:induction false} KindleStripped(blocks: seq<seq<string>>)
    requires forall i :: 0 <= i < |blocks| ==> AllStripped(blocks[i])
    ensures AllStripped(KindleLines(blocks))
  {
    if blocks != [] {
      var front := KindleLines(blocks[..|blocks| - 1]);
      var last := Layout(blocks[|blocks| - 1]);
      KindleStripped(blocks[..|blocks| - 1]);
      DelimiterIsOne();
      assert AllStripped(last) by {
        var b := blocks[|blocks| - 1];
        if |b| >= 2 {
          forall i | 0 <= i < |last| ensures IsStripped(last[i]) {
            if i < 2 { assert last[i] == b[i]; }
            else if i > 2 { assert last[i] == b[i - 1]; }
          }
        }
      }
      forall i | 0 <= i < |front + last + [Delimiter]| ensures IsStripped((front + last + [Delimiter])[i]) {
        IndexAppend(front + last, [Delimiter], i);
        if i < |front + last| {
          IndexAppend(front, last, i);
        }
      }
    }
  }
}
