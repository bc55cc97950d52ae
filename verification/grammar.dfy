/**
 * The two header-line grammars of a clipping entry, `LINE1_PATTERN` and
 * `LINE2_PATTERN` of backend/app/parsing/parser.py, written as recursive
 * descent over `seq<char>`.
 *
 * Python's `re` backtracks, this parser does not. That is faithful because
 * every greedy run in the two patterns (`\s+`, `\s*`, `[^)]+`, `\d+[\-\d]*`,
 * `[\d\-]+`) but one is followed by a character outside its own class, so a
 * shorter run can never let the rest match. The exception is the `\s+` after
 * `Added on`, followed by the lazy date group `(.*?)$`, which matches
 * whitespace too. There the full run is what `re` tries first, and when it
 * fails (a newline before the end) every shorter run fails the same way;
 * when it succeeds `re` keeps it. The two remaining choice points are
 * modelled explicitly: the lazy title group of line 1 tries split points from
 * the left (`Line1At`), and the optional `| Location` group of line 2 is taken
 * whenever it matches (`LocationGroupExcludesDate` shows that skipping it could
 * not have matched either).
 */
module Grammar {
  import opened Wrappers
  import opened PyText

  // ------------------------------------------------------------------
  // Pieces shared by both lines
  // ------------------------------------------------------------------

  /** `$` without MULTILINE: the end of `s`, or just before a final newline. */
  predicate AtEnd(s: string, k: nat) {
    k == |s| || (k + 1 == |s| && s[k] == '\n')
  }

  /** A literal: consumes `w` from the front of `s`. */
  function Lit(w: string, s: string): (r: Option<string>)
    ensures r.Some? <==> w <= s
    ensures r.Some? ==> s == w + r.value
  {
    if w <= s then Some(s[|w|..]) else None
  }

  /** `\s+`: at least one whitespace character, and then all of them. */
  function Spaces1(s: string): (r: Option<string>)
    ensures r.Some? <==> s != [] && IsSpace(s[0])
    ensures r.Some? ==> |r.value| < |s| && (r.value == [] || !IsSpace(r.value[0]))
  {
    if s != [] && IsSpace(s[0]) then Some(StripStart(s)) else None
  }

  lemma LitThen(w: string, t: string)
    ensures Lit(w, w + t) == Some(t)
  {
    assert w <= w + t;
    assert (w + t)[|w|..] == t;
  }

  // ------------------------------------------------------------------
  // Line 1:  ^(.*?)(?:\s+\(([^)]+)\))?$
  // ------------------------------------------------------------------

  datatype TitleAuthor = TitleAuthor(title: string, rawAuthor: Option<string>)

  /** `[^)]*`, greedy: the longest prefix without a closing parenthesis. */
  function TakeNonParen(s: string): (x: string)
    ensures x <= s && ')' !in x
    ensures |x| < |s| ==> s[|x|] == ')'
  {
    if s == [] || s[0] == ')' then [] else [s[0]] + TakeNonParen(s[1..])
  }

  /**
   * The optional author group `\s+\(([^)]+)\)` followed by `$`, tried at the
   * start of `t`; the result is the captured author text.
   */
  function AuthorGroup(t: string): (a: Option<string>)
    ensures a.Some? ==> a.value != [] && ')' !in a.value
    ensures a.Some? ==> t != [] && (t[|t| - 1] == ')' || t[|t| - 1] == '\n')
  {
    var u :- Spaces1(t);
    var v :- Lit("(", u);
    var x := TakeNonParen(v);
    var rest := v[|x|..];
    assert u == t[|t| - |u|..] && v == u[1..];
    if x != [] && rest != [] && AtEnd(rest, 1) then Some(x) else None
  }

  /**
   * `(.*?)` is lazy: the match is the first split point `k`, from the left, at
   * which the author group matches up to `$`, or else `$` itself. `.` does not
   * match a newline, so the scan stops at one.
   */
  function Line1At(s: string, k: nat): (r: Option<TitleAuthor>)
    requires k <= |s|
    ensures r.Some? ==> IsStripped(r.value.title)
    decreases |s| - k
  {
    match AuthorGroup(s[k..])
    case Some(a) => Some(TitleAuthor(Strip(s[..k]), Some(Strip(a))))
    case None =>
      if AtEnd(s, k) then Some(TitleAuthor(Strip(s[..k]), None))
      else if s[k] == '\n' then None
      else Line1At(s, k + 1)
  }

  /** `LINE1_PATTERN.match(line)`, with the title stripped and the author group stripped. */
  function ParseLine1(s: string): (r: Option<TitleAuthor>)
    ensures r.Some? ==> IsStripped(r.value.title)
  {
    Line1At(s, 0)
  }

  lemma {:induction false} Line1AtTotal(s: string, k: nat)
    requires k <= |s| && NewlineOnlyAtEnd(s)
    ensures Line1At(s, k).Some?
    decreases |s| - k
  {
    if AuthorGroup(s[k..]).None? && !AtEnd(s, k) {
      Line1AtTotal(s, k + 1);
    }
  }

  /** Line 1 never fails on a line without an inner newline: the error branch for it is dead. */
  lemma Line1Total(s: string)
    requires NewlineOnlyAtEnd(s)
    ensures ParseLine1(s).Some?
  {
    Line1AtTotal(s, 0);
  }

  lemma {:induction false} Line1AtLeftmost(s: string, j: nat, k: nat, a: string)
    requires j <= k <= |s| && '\n' !in s[..k]
    requires AuthorGroup(s[k..]) == Some(a)
    requires forall i :: j <= i < k ==> AuthorGroup(s[i..]).None?
    ensures Line1At(s, j) == Some(TitleAuthor(Strip(s[..k]), Some(Strip(a))))
    decreases k - j
  {
    if j < k {
      assert s[j] == s[..k][j];
      Line1AtLeftmost(s, j + 1, k, a);
    }
  }

  /**
   * When the author group matches at split point `k` and nowhere to its left,
   * the title is the stripped text before `k` and the author is the stripped capture.
   */
  lemma Line1Author(s: string, k: nat, a: string)
    requires k <= |s| && '\n' !in s[..k]
    requires AuthorGroup(s[k..]) == Some(a)
    requires forall i :: 0 <= i < k ==> AuthorGroup(s[i..]).None?
    ensures ParseLine1(s) == Some(TitleAuthor(Strip(s[..k]), Some(Strip(a))))
  {
    Line1AtLeftmost(s, 0, k, a);
  }

  lemma {:induction false} Line1AtNoGroup(s: string, j: nat)
    requires j <= |s| && '\n' !in s
    requires forall i :: j <= i <= |s| ==> AuthorGroup(s[i..]).None?
    ensures Line1At(s, j) == Some(TitleAuthor(Strip(s), None))
    decreases |s| - j
  {
    if j < |s| {
      Line1AtNoGroup(s, j + 1);
    } else {
      assert s[..j] == s;
    }
  }

  /** When the author group matches at no split point, the whole stripped line is the title. */
  lemma Line1NoAuthor(s: string)
    requires '\n' !in s
    requires forall i :: 0 <= i <= |s| ==> AuthorGroup(s[i..]).None?
    ensures ParseLine1(s) == Some(TitleAuthor(Strip(s), None))
  {
    Line1AtNoGroup(s, 0);
  }

  /** The author group matches whitespace, `(`, a run free of `)`, `)` and the end. */
  lemma AuthorGroupMatches(w: string, a: string, e: string)
    requires w != [] && AllSpace(w) && (e == "" || e == "\n")
    requires a != [] && ')' !in a
    ensures AuthorGroup(w + "(" + a + ")" + e) == Some(a)
  {
    var close := ")" + e;
    var v := a + close;
    var u := "(" + v;
    Regroup(w, "(", a, ")", e);
    Spaces1Then(w, u);
    LitThen("(", v);
    TakeNonParenOf(a, close);
    assert v[|a|..] == close;
    AuthorGroupOf(w + u, u, v);
  }

  /** `\s+` consumes a non-empty run of whitespace up to the first other character. */
  lemma Spaces1Then(w: string, u: string)
    requires w != [] && AllSpace(w) && u != [] && !IsSpace(u[0])
    ensures Spaces1(w + u) == Some(u)
  {
    StripStartConcat(w, u);
    assert (w + u)[0] == w[0];
  }

  /** The author group, once `\s+` and `(` have matched. */
  lemma AuthorGroupOf(t: string, u: string, v: string)
    requires Spaces1(t) == Some(u) && Lit("(", u) == Some(v)
    ensures var x := TakeNonParen(v); var rest := v[|x|..];
      AuthorGroup(t) == if x != [] && rest != [] && AtEnd(rest, 1) then Some(x) else None
  {
  }

  lemma {:induction false} TakeNonParenOf(a: string, t: string)
    requires ')' !in a && t != [] && t[0] == ')'
    ensures TakeNonParen(a + t) == a
  {
    if a != [] {
      assert (a + t)[1..] == a[1..] + t;
      TakeNonParenOf(a[1..], t);
    } else {
      assert a + t == t;
    }
  }

  /** Whitespace in front of text that starts with a non-space is what `lstrip` removes. */
  lemma {:induction false} StripStartConcat(w: string, t: string)
    requires AllSpace(w) && t != [] && !IsSpace(t[0])
    ensures StripStart(w + t) == t
  {
    if w != [] {
      assert (w + t)[1..] == w[1..] + t;
      StripStartConcat(w[1..], t);
    } else {
      assert w + t == t;
    }
  }

  /** Text with a non-space character keeps its tail when left-stripped. */
  lemma {:induction false} StripStartKeepsTail(x: string, y: string)
    requires exists k :: 0 <= k < |x| && !IsSpace(x[k])
    ensures StripStart(x + y) == StripStart(x) + y
    ensures StripStart(x) != [] && StripStart(x)[0] in x
  {
    if IsSpace(x[0]) {
      var k :| 0 <= k < |x| && !IsSpace(x[k]);
      assert k > 0 && x[1..][k - 1] == x[k];
      assert (x + y)[1..] == x[1..] + y;
      StripStartKeepsTail(x[1..], y);
    } else {
      assert x[0] in x;
    }
  }

  /** Every `(` of `title` is closed by a `)` further on in `title`. */
  predicate BracketsClosed(title: string) {
    forall i :: 0 <= i < |title| && title[i] == '(' ==> ')' in title[i + 1..]
  }

  /**
   * A stripped title whose brackets are all closed, followed by ` (author)`:
   * the title and author come back unchanged, so `A (B) C (D)` has the title
   * `A (B) C` and the author `D`.
   */
  lemma Line1TitleAndAuthor(title: string, author: string)
    requires IsStripped(title) && BracketsClosed(title) && '\n' !in title
    requires author != [] && IsStripped(author) && ')' !in author && '\n' !in author
    ensures ParseLine1(title + " (" + author + ")") == Some(TitleAuthor(title, Some(author)))
  {
    var tail := " (" + author + ")";
    var s := title + tail;
    assert s == title + " (" + author + ")";
    var k := |title|;
    assert s[..k] == title;
    assert s[k..] == tail == " " + "(" + author + ")" + "";
    AuthorGroupMatches(" ", author, "");
    forall i | 0 <= i < k ensures AuthorGroup(s[i..]).None? {
      NoGroupInsideTitle(title, tail, i);
      DropConcat(title, tail, i);
    }
    StripOfStripped(title);
    StripOfStripped(author);
    Line1Author(s, k, author);
    assert ParseLine1(s) == Some(TitleAuthor(title, Some(author)));
  }

  /** Re-associates a concatenation; keeps `AuthorGroupMatches` within its resource bound. */
  lemma Regroup(p: string, q: string, r: string, s: string, t: string)
    ensures p + q + r + s + t == p + (q + (r + (s + t)))
  {
  }

  lemma DropConcat(a: string, b: string, i: nat)
    requires i <= |a|
    ensures (a + b)[i..] == a[i..] + b
  {
  }

  lemma DropConcatRight(a: string, b: string, i: nat)
    requires |a| <= i <= |a| + |b|
    ensures (a + b)[i..] == b[i - |a|..]
  {
  }

  /**
   * No author group starts inside a stripped title whose brackets are closed:
   * the `)` that closes the bracket ends `[^)]+` too early for `$`.
   */
  lemma NoGroupInsideTitle(title: string, tail: string, i: nat)
    requires IsStripped(title) && BracketsClosed(title) && i < |title| && |tail| >= 2
    ensures AuthorGroup(title[i..] + tail).None?
  {
    var x := title[i..];
    var r := StripStart(x);
    assert !IsSpace(x[|x| - 1]);
    StripStartKeepsTail(x, tail);
    var p := |x| - |r|;
    assert r == title[i + p..] by {
      assert r == x[p..];
    }
    assert r[0] == '(' ==> ')' in r[1..] by {
      assert r[0] == title[i + p] && r[1..] == title[i + p + 1..];
    }
    NoGroupAfter(x, tail);
  }

  /**
   * `NoGroupInsideTitle` for the rest `x` of the title: after its spaces
   * comes no `(`, or a `(` closed inside `x`.
   */
  lemma NoGroupAfter(x: string, tail: string)
    requires x != [] && !IsSpace(x[|x| - 1]) && |tail| >= 2
    requires StripStart(x) != [] && (StripStart(x)[0] == '(' ==> ')' in StripStart(x)[1..])
    ensures AuthorGroup(x + tail).None?
  {
    var t := x + tail;
    if !IsSpace(t[0]) {
      NoGroupWithoutSpace(t);
    } else {
      var r := StripStart(x);
      var u := r + tail;
      assert Spaces1(t) == Some(u) by {
        StripStartKeepsTail(x, tail);
      }
      if r[0] != '(' {
        assert u[0] == r[0];
        NoGroupWithoutOpen(t, u);
      } else {
        OpenClosedEarly(t, r, tail);
      }
    }
  }

  /** `\s+(` followed by a `)` with at least two characters after it. */
  lemma OpenClosedEarly(t: string, r: string, tail: string)
    requires r != [] && r[0] == '(' && ')' in r[1..] && |tail| >= 2
    requires Spaces1(t) == Some(r + tail)
    ensures AuthorGroup(t).None?
  {
    var y := r[1..];
    var v := y + tail;
    OpenThen(r, tail);
    LitThen("(", v);
    var q :| 0 <= q < |y| && y[q] == ')';
    assert v[q] == y[q];
    ClosedTooEarly(t, r + tail, v, q);
  }

  /** `\s+` needs a space first. */
  lemma NoGroupWithoutSpace(t: string)
    requires t == [] || !IsSpace(t[0])
    ensures AuthorGroup(t).None?
  {
  }

  /** After `\s+` the group needs `(`. */
  lemma NoGroupWithoutOpen(t: string, u: string)
    requires Spaces1(t) == Some(u) && (u == [] || u[0] != '(')
    ensures AuthorGroup(t).None?
  {
    assert !("(" <= u);
  }

  lemma OpenThen(r: string, tail: string)
    requires r != [] && r[0] == '('
    ensures r + tail == "(" + (r[1..] + tail)
  {
    assert r == [r[0]] + r[1..];
  }

  /** After `\s+(`, a `)` more than two characters before the end leaves `$` unmatched. */
  lemma ClosedTooEarly(t: string, u: string, v: string, q: nat)
    requires Spaces1(t) == Some(u) && Lit("(", u) == Some(v)
    requires q < |v| && v[q] == ')' && |v| - q >= 3
    ensures AuthorGroup(t).None?
  {
    AuthorGroupOf(t, u, v);
  }

  /** The author group needs the text to end in `)` or a newline. */
  lemma NoGroupWithoutCloser(t: string)
    requires t == [] || (t[|t| - 1] != ')' && t[|t| - 1] != '\n')
    ensures AuthorGroup(t).None?
  {
  }

  /** A stripped line that does not end in `)` has no author. */
  lemma Line1TitleOnly(title: string)
    requires IsStripped(title) && '\n' !in title
    requires title == [] || title[|title| - 1] != ')'
    ensures ParseLine1(title) == Some(TitleAuthor(title, None))
  {
    forall i | 0 <= i <= |title| ensures AuthorGroup(title[i..]).None? {
      var t := title[i..];
      if i < |title| {
        assert t[|t| - 1] == title[|title| - 1];
      }
      NoGroupWithoutCloser(t);
    }
    StripOfStripped(title);
    Line1NoAuthor(title);
  }

  /**
   * Empty parentheses are not an author: `[^)]+` needs at least one character,
   * so `Title ()` keeps `()` in its title and has no author.
   */
  lemma Line1EmptyParens(title: string)
    requires IsStripped(title) && title != [] && BracketsClosed(title) && '\n' !in title
    ensures ParseLine1(title + " ()") == Some(TitleAuthor(title + " ()", None))
  {
    NoGroupBeforeEmptyParens(title);
    EmptyParensAllTitle(title);
  }

  /** With no author group anywhere, `title ()` is all title. */
  lemma EmptyParensAllTitle(title: string)
    requires IsStripped(title) && title != [] && '\n' !in title
    requires forall i :: 0 <= i <= |title + " ()"| ==> AuthorGroup((title + " ()")[i..]).None?
    ensures ParseLine1(title + " ()") == Some(TitleAuthor(title + " ()", None))
  {
    var s := title + " ()";
    assert '\n' !in s by { assert '\n' !in " ()"; }
    assert IsStripped(s);
    StripOfStripped(s);
    Line1NoAuthor(s);
  }

  lemma NoGroupBeforeEmptyParens(title: string)
    requires IsStripped(title) && BracketsClosed(title)
    ensures forall i :: 0 <= i <= |title + " ()"| ==> AuthorGroup((title + " ()")[i..]).None?
  {
    var s := title + " ()";
    forall i | 0 <= i <= |s| ensures AuthorGroup(s[i..]).None? {
      if i < |title| {
        NoGroupInsideTitle(title, " ()", i);
        DropConcat(title, " ()", i);
      } else {
        EmptyParensNoGroup(i - |title|);
        DropConcatRight(title, " ()", i);
      }
    }
  }

  /** No suffix of ` ()` holds an author group. */
  lemma EmptyParensNoGroup(j: nat)
    requires j <= 3
    ensures AuthorGroup(" ()"[j..]).None?
  {
    if j == 0 {
      EmptyParensNoAuthor();
    } else if j < 3 {
      assert !IsSpace(" ()"[j]);
    }
  }

  /** ` ()`: `[^)]+` finds nothing between the parentheses. */
  lemma EmptyParensNoAuthor()
    ensures AuthorGroup(" ()").None?
  {
    assert " ()" == " " + "(" + ")" + "";
    ClosedAtOnce(" ", "");
  }

  /** Spaces, `(` and at once `)`: the author group needs one character between the parentheses. */
  lemma ClosedAtOnce(w: string, e: string)
    requires w != [] && AllSpace(w)
    ensures AuthorGroup(w + "(" + ")" + e).None?
  {
    var t := w + "(" + ")" + e;
    var u := "(" + ")" + e;
    assert t == w + u && u[0] == '(';
    Spaces1Then(w, u);
    var v := ")" + e;
    LitThen("(", v);
    assert u == "(" + v;
    assert TakeNonParen(v) == [];
    AuthorGroupOf(t, u, v);
  }

  // ------------------------------------------------------------------
  // Line 2:
  //   ^\-\s+Your\s+(Highlight|Note|Bookmark)\s+
  //   (?:(?:on\s+page\s+(\d+[\-\d]*))(?:\s*\|\s*Location\s+([\d\-]+))?
  //     |(?:on\s+Location\s+([\d\-]+)))
  //   \s*\|\s*Added\s+on\s+(.*?)$
  // ------------------------------------------------------------------

  datatype ClippingType = Highlight | Note | Bookmark

  function TypeName(t: ClippingType): string {
    match t
    case Highlight => "Highlight"
    case Note => "Note"
    case Bookmark => "Bookmark"
  }

  /** The two shapes of the metadata part; a page capture takes the location that follows it. */
  datatype Metadata =
    | PageWithOptionalLocation(page: string, location: Option<string>)
    | LocationOnly(onlyLocation: string)

  datatype Header2 = Header2(clippingType: ClippingType, meta: Metadata, dateText: string)

  predicate IsRangeChar(c: char) { IsDigit(c) || c == '-' }

  predicate IsRange(x: string) {
    forall i :: 0 <= i < |x| ==> IsRangeChar(x[i])
  }

  /** `[\d\-]*`, greedy. */
  function RangeRun(s: string): (x: string)
    ensures x <= s && IsRange(x)
    ensures |x| < |s| ==> !IsRangeChar(s[|x|])
  {
    if s != [] && IsRangeChar(s[0]) then [s[0]] + RangeRun(s[1..]) else []
  }

  /** `(Highlight|Note|Bookmark)`: the three names are tried in order, case-sensitively. */
  function TypeWord(s: string): (r: Option<(ClippingType, string)>)
    ensures r.Some? ==> s == TypeName(r.value.0) + r.value.1
    ensures r.None? <==> !("Highlight" <= s || "Note" <= s || "Bookmark" <= s)
  {
    if "Highlight" <= s then Some((Highlight, s[9..]))
    else if "Note" <= s then Some((Note, s[4..]))
    else if "Bookmark" <= s then Some((Bookmark, s[8..]))
    else None
  }

  /** `(?:\s*\|\s*Location\s+([\d\-]+))`: the location that may follow a page. */
  function LocationGroup(s: string): (r: Option<(string, string)>)
    ensures r.Some? ==> r.value.0 != [] && IsRange(r.value.0)
  {
    var r :- Lit("|", StripStart(s));
    var r :- Lit("Location", StripStart(r));
    var r :- Spaces1(r);
    var loc := RangeRun(r);
    if loc == [] then None else Some((loc, r[|loc|..]))
  }

  /** The values the metadata part can capture: non-empty ranges, a page starting with a digit. */
  predicate WellFormedMeta(m: Metadata) {
    match m
    case PageWithOptionalLocation(p, l) =>
      p != [] && IsDigit(p[0]) && IsRange(p) && (l.Some? ==> l.value != [] && IsRange(l.value))
    case LocationOnly(l) => l != [] && IsRange(l)
  }

  /** `page\s+(\d+[\-\d]*)` and the optional location group after it. */
  function PagePart(s: string): (r: Option<(Metadata, string)>)
    ensures r.Some? ==> WellFormedMeta(r.value.0)
  {
    var r :- Spaces1(s);
    if r == [] || !IsDigit(r[0]) then None
    else
      var page := RangeRun(r);
      var r := r[|page|..];
      match LocationGroup(r)
      case Some((loc, r')) => Some((PageWithOptionalLocation(page, Some(loc)), r'))
      case None => Some((PageWithOptionalLocation(page, None), r))
  }

  /** `Location\s+([\d\-]+)`. */
  function LocationPart(s: string): (r: Option<(Metadata, string)>)
    ensures r.Some? ==> WellFormedMeta(r.value.0)
  {
    var r :- Lit("Location", s);
    var r :- Spaces1(r);
    var loc := RangeRun(r);
    if loc == [] then None else Some((LocationOnly(loc), r[|loc|..]))
  }

  /**
   * The alternation. Both branches start with `on\s+`; they then need `page`
   * and `Location`, so at most one branch can apply and the choice is made on
   * the next word.
   */
  function MetadataPart(s: string): (r: Option<(Metadata, string)>)
    ensures r.Some? ==> WellFormedMeta(r.value.0)
  {
    var r :- Lit("on", s);
    var r :- Spaces1(r);
    if "page" <= r then PagePart(r[4..]) else LocationPart(r)
  }

  /** `(.*?)$` followed by `.strip()`: the rest of the line, which must hold no inner newline. */
  function LazyRest(r: string): (d: Option<string>)
    ensures d.Some? ==> IsStripped(d.value) && '\n' !in d.value
  {
    var e := if r != [] && r[|r| - 1] == '\n' then |r| - 1 else |r|;
    if '\n' in r[..e] then None
    else
      StripKeepsAbsent(r[..e], '\n');
      Some(Strip(r[..e]))
  }

  /** `\s*\|\s*Added\s+on\s+(.*?)$`: the date text. */
  function DateTail(s: string): (d: Option<string>)
    ensures d.Some? ==> IsStripped(d.value) && '\n' !in d.value
  {
    var r :- Lit("|", StripStart(s));
    var r :- Lit("Added", StripStart(r));
    var r :- Spaces1(r);
    var r :- Lit("on", r);
    var r :- Spaces1(r);
    LazyRest(r)
  }

  /** The values line 2 can deliver: ranges of digits and dashes, a page starting with a digit, a stripped date. */
  predicate WellFormedHeader(h: Header2) {
    WellFormedMeta(h.meta) && IsStripped(h.dateText) && '\n' !in h.dateText
  }

  /** `LINE2_PATTERN.match(line)`, with the date text stripped. */
  function ParseLine2(s: string): (r: Option<Header2>)
    ensures r.Some? ==> WellFormedHeader(r.value)
  {
    var r :- Lit("-", s);
    var r :- Spaces1(r);
    var r :- Lit("Your", r);
    var r :- Spaces1(r);
    var tr :- TypeWord(r);
    var r :- Spaces1(tr.1);
    var mr :- MetadataPart(r);
    var date :- DateTail(mr.1);
    Some(Header2(tr.0, mr.0, date))
  }

  /**
   * Taking the optional location group is never a wrong choice: wherever it
   * matches, the date tail cannot match, so skipping it would fail too.
   */
  lemma LocationGroupExcludesDate(s: string)
    requires LocationGroup(s).Some?
    ensures DateTail(s).None?
  {
    var r := Lit("|", StripStart(s)).value;
    var q := StripStart(r);
    assert "Location" <= q;
    assert q[0] == 'L';
    assert !("Added" <= q);
  }

  // ------------------------------------------------------------------
  // Rendering a header line, and reading it back
  // ------------------------------------------------------------------

  /** ` | Added on <date>`. */
  function DateSuffix(d: string): string {
    " " + ("|" + (" " + ("Added" + (" " + ("on" + (" " + d))))))
  }

  /** ` | Location <l>` when there is a location, nothing otherwise. */
  function LocationSuffix(l: Option<string>, rest: string): string {
    match l
    case Some(x) => " " + ("|" + (" " + ("Location" + (" " + (x + rest)))))
    case None => rest
  }

  /** The metadata part followed by `rest`. */
  function RenderMeta(m: Metadata, rest: string): string {
    match m
    case PageWithOptionalLocation(p, l) => "page" + (" " + (p + LocationSuffix(l, rest)))
    case LocationOnly(l) => "Location" + (" " + (l + rest))
  }

  /** The canonical text of a header line, as the device writes it, single spaces between tokens. */
  function RenderLine2(h: Header2): string {
    var tail := RenderMeta(h.meta, DateSuffix(h.dateText));
    "-" + (" " + ("Your" + (" " + (TypeName(h.clippingType) + (" " + ("on" + (" " + tail)))))))
  }

  lemma HeadOf(w: string, t: string)
    requires w != []
    ensures (w + t)[0] == w[0]
  {
  }

  /** One space in front of text that does not start with a space is exactly what `\s+` takes. */
  lemma OneSpace(t: string)
    requires t == [] || !IsSpace(t[0])
    ensures Spaces1(" " + t) == Some(t) && StripStart(" " + t) == t
  {
    if t == [] {
      assert " " + t == " ";
      assert " "[1..] == [];
    } else {
      Spaces1Then(" ", t);
    }
  }

  /** `\s*w` after a single space. */
  lemma SpacedLitOf(w: string, t: string)
    requires w != [] && !IsSpace(w[0])
    ensures Lit(w, StripStart(" " + (w + t))) == Some(t)
  {
    HeadOf(w, t);
    OneSpace(w + t);
    LitThen(w, t);
  }

  /** `\s+w` after a single space. */
  lemma SpacesLitOf(w: string, t: string)
    requires w != [] && !IsSpace(w[0])
    ensures Spaces1(" " + (w + t)) == Some(w + t) && Lit(w, w + t) == Some(t)
  {
    HeadOf(w, t);
    OneSpace(w + t);
    LitThen(w, t);
  }

  /** `(.*?)$` on a stripped text without newlines takes all of it. */
  lemma LazyRestOf(d: string)
    requires IsStripped(d) && '\n' !in d
    ensures LazyRest(d) == Some(d)
  {
    assert d == [] || d[|d| - 1] != '\n' by {
      if d != [] { assert d[|d| - 1] in d; }
    }
    assert d[..|d|] == d;
    StripOfStripped(d);
  }

  lemma DateTailOf(d: string)
    requires IsStripped(d) && '\n' !in d
    ensures DateTail(DateSuffix(d)) == Some(d)
  {
    var r5 := " " + d;
    var r3 := " " + ("on" + r5);
    SpacedLitOf("|", " " + ("Added" + r3));
    SpacedLitOf("Added", r3);
    SpacesLitOf("on", r5);
    OneSpace(d);
    LazyRestOf(d);
  }

  /** The date tail cannot start with `| Location`. */
  lemma NoLocationBeforeDate(d: string)
    ensures LocationGroup(DateSuffix(d)).None?
  {
    var r2 := "Added" + (" " + ("on" + (" " + d)));
    SpacedLitOf("|", " " + r2);
    HeadOf("Added", " " + ("on" + (" " + d)));
    OneSpace(r2);
    assert r2[0] != "Location"[0];
  }

  lemma ConcatDrop(a: string, b: string)
    ensures (a + b)[|a|..] == b
  {
  }

  /** A range is never whitespace at its start. */
  lemma RangeStart(x: string)
    requires x != [] && IsRange(x)
    ensures !IsSpace(x[0]) && IsRangeChar(x[0])
  {
  }

  /** `\s+([\d\-]+)`: one space, then a range ended by a character outside it. */
  lemma SpacedRangeOf(x: string, rest: string)
    requires x != [] && IsRange(x) && (rest == [] || !IsRangeChar(rest[0]))
    ensures Spaces1(" " + (x + rest)) == Some(x + rest)
    ensures RangeRun(x + rest) == x && (x + rest)[|x|..] == rest
  {
    RangeStart(x);
    HeadOf(x, rest);
    OneSpace(x + rest);
    RangeRunOf(x, rest);
    ConcatDrop(x, rest);
  }

  lemma LocationGroupOf(l: string, rest: string)
    requires l != [] && IsRange(l) && (rest == [] || !IsRangeChar(rest[0]))
    ensures LocationGroup(LocationSuffix(Some(l), rest)) == Some((l, rest))
  {
    var r3 := " " + (l + rest);
    SpacedLitOf("|", " " + ("Location" + r3));
    SpacedLitOf("Location", r3);
    SpacedRangeOf(l, rest);
  }

  /** `[\d\-]*` takes a whole range and stops at the first other character. */
  lemma {:induction false} RangeRunOf(x: string, rest: string)
    requires IsRange(x) && (rest == [] || !IsRangeChar(rest[0]))
    ensures RangeRun(x + rest) == x
  {
    if x == [] {
      assert x + rest == rest;
    } else {
      assert (x + rest)[1..] == x[1..] + rest;
      RangeRunOf(x[1..], rest);
    }
  }

  /** After ` <page>`, the page part is decided by the location group alone. */
  lemma PageRunOf(p: string, ls: string)
    requires p != [] && IsDigit(p[0]) && IsRange(p) && ls != [] && ls[0] == ' '
    ensures PagePart(" " + (p + ls)) ==
      match LocationGroup(ls)
      case Some((loc, r)) => Some((PageWithOptionalLocation(p, Some(loc)), r))
      case None => Some((PageWithOptionalLocation(p, None), ls))
  {
    SpacedRangeOf(p, ls);
    HeadOf(p, ls);
  }

  lemma PagePartOf(p: string, l: Option<string>, d: string)
    requires WellFormedMeta(PageWithOptionalLocation(p, l))
    ensures PagePart(" " + (p + LocationSuffix(l, DateSuffix(d))))
      == Some((PageWithOptionalLocation(p, l), DateSuffix(d)))
  {
    var rest := DateSuffix(d);
    var ls := LocationSuffix(l, rest);
    match l
    case Some(x) =>
      HeadOf(" ", "|" + (" " + ("Location" + (" " + (x + rest)))));
      PageRunOf(p, ls);
      HeadOf(" ", "|" + (" " + ("Added" + (" " + ("on" + (" " + d))))));
      LocationGroupOf(x, rest);
    case None =>
      HeadOf(" ", "|" + (" " + ("Added" + (" " + ("on" + (" " + d))))));
      PageRunOf(p, ls);
      NoLocationBeforeDate(d);
  }

  lemma LocationPartOf(l: string, d: string)
    requires l != [] && IsRange(l)
    ensures LocationPart("Location" + (" " + (l + DateSuffix(d)))) == Some((LocationOnly(l), DateSuffix(d)))
  {
    var rest := DateSuffix(d);
    HeadOf(" ", "|" + (" " + ("Added" + (" " + ("on" + (" " + d))))));
    LitThen("Location", " " + (l + rest));
    SpacedRangeOf(l, rest);
  }

  lemma MetadataPartOf(m: Metadata, d: string)
    requires WellFormedMeta(m)
    ensures MetadataPart("on" + (" " + RenderMeta(m, DateSuffix(d)))) == Some((m, DateSuffix(d)))
  {
    var rest := DateSuffix(d);
    var tail := RenderMeta(m, rest);
    LitThen("on", " " + tail);
    match m
    case PageWithOptionalLocation(p, l) =>
      var r1 := " " + (p + LocationSuffix(l, rest));
      HeadOf("page", r1);
      OneSpace(tail);
      LitThen("page", r1);
      ConcatDrop("page", r1);
      PagePartOf(p, l, d);
    case LocationOnly(l) =>
      HeadOf("Location", " " + (l + rest));
      OneSpace(tail);
      assert tail[0] != "page"[0];
      LocationPartOf(l, d);
  }

  lemma TypeWordOf(t: ClippingType, rest: string)
    ensures TypeWord(TypeName(t) + rest) == Some((t, rest))
  {
    var s := TypeName(t) + rest;
    LitThen(TypeName(t), rest);
    HeadOf(TypeName(t), rest);
    match t
    case Highlight =>
    case Note => assert s[0] != "Highlight"[0];
    case Bookmark => assert s[0] != "Highlight"[0] && s[0] != "Note"[0];
  }

  /** Reading back a rendered header line gives the header again. */
  lemma Line2RoundTrip(h: Header2)
    requires WellFormedHeader(h)
    ensures ParseLine2(RenderLine2(h)) == Some(h)
  {
    var tail := RenderMeta(h.meta, DateSuffix(h.dateText));
    var r6 := "on" + (" " + tail);
    var r5 := " " + r6;
    var r4 := TypeName(h.clippingType) + r5;
    var r3 := " " + r4;
    var r2 := "Your" + r3;
    var r1 := " " + r2;
    LitThen("-", r1);
    HeadOf("Your", r3);
    OneSpace(r2);
    LitThen("Your", r3);
    HeadOf(TypeName(h.clippingType), r5);
    assert !IsSpace(r4[0]) by { match h.clippingType { case Highlight => case Note => case Bookmark => } }
    OneSpace(r4);
    TypeWordOf(h.clippingType, r5);
    HeadOf("on", " " + tail);
    OneSpace(r6);
    MetadataPartOf(h.meta, h.dateText);
    DateTailOf(h.dateText);
  }

  // ------------------------------------------------------------------
  // The sample header lines of the parser's own demonstration input
  // ------------------------------------------------------------------

  /** Re-associates a concatenation; keeps `LocationOnlyLine` within its resource bound. */
  lemma Regroup6(a: string, b: string, c: string, d: string, e: string, f: string)
    ensures a + b + c + d + e + f == a + (b + (c + (d + (e + f))))
  {
  }

  /** Re-associates a concatenation; keeps `PageAndLocationLine` within its resource bound. */
  lemma Regroup8(a: string, b: string, c: string, d: string, e: string, f: string, g: string, h: string)
    ensures a + b + c + d + e + f + g + h == a + (b + (c + (d + (e + (f + (g + h))))))
  {
  }

  /** The literal pieces of a header line, token by token. */
  lemma Tokens(x: string)
    ensures "- Your " + x == "-" + (" " + ("Your" + (" " + x)))
    ensures " on Location " + x == " " + ("on" + (" " + ("Location" + (" " + x))))
    ensures " on page " + x == " " + ("on" + (" " + ("page" + (" " + x))))
    ensures " | Location " + x == " " + ("|" + (" " + ("Location" + (" " + x))))
    ensures " | Added on " + x == DateSuffix(x)
  {
  }

  /** A page followed by a location: both are captured, in that order. */
  lemma PageAndLocationLine(t: ClippingType, p: string, l: string, d: string)
    requires WellFormedHeader(Header2(t, PageWithOptionalLocation(p, Some(l)), d))
    ensures ParseLine2("- Your " + TypeName(t) + " on page " + p + " | Location " + l + " | Added on " + d)
      == Some(Header2(t, PageWithOptionalLocation(p, Some(l)), d))
  {
    var h := Header2(t, PageWithOptionalLocation(p, Some(l)), d);
    Line2RoundTrip(h);
    Regroup8("- Your ", TypeName(t), " on page ", p, " | Location ", l, " | Added on ", d);
    Tokens(TypeName(t) + (" on page " + (p + (" | Location " + (l + (" | Added on " + d))))));
    Tokens(p + (" | Location " + (l + (" | Added on " + d))));
    Tokens(l + (" | Added on " + d));
    Tokens(d);
  }

  /** A location without a page: the page is absent and the location is the location-only capture. */
  lemma LocationOnlyLine(t: ClippingType, l: string, d: string)
    requires WellFormedHeader(Header2(t, LocationOnly(l), d))
    ensures ParseLine2("- Your " + TypeName(t) + " on Location " + l + " | Added on " + d)
      == Some(Header2(t, LocationOnly(l), d))
  {
    var h := Header2(t, LocationOnly(l), d);
    Line2RoundTrip(h);
    Regroup6("- Your ", TypeName(t), " on Location ", l, " | Added on ", d);
    Tokens(TypeName(t) + (" on Location " + (l + (" | Added on " + d))));
    Tokens(l + (" | Added on " + d));
    Tokens(d);
  }

  /** The highlight line of the demonstration input, whatever its date text: page `10`, location `100-105`. */
  lemma SampleHighlightLine(d: string)
    requires IsStripped(d) && '\n' !in d
    ensures ParseLine2("- Your " + "Highlight" + " on page " + "10" + " | Location " + "100-105" + " | Added on " + d)
      == Some(Header2(Highlight, PageWithOptionalLocation("10", Some("100-105")), d))
  {
    PageAndLocationLine(Highlight, "10", "100-105", d);
  }

  /** The bookmark line of the demonstration input, whatever its date text: location `300`, no page. */
  lemma SampleBookmarkLine(d: string)
    requires IsStripped(d) && '\n' !in d
    ensures ParseLine2("- Your " + "Bookmark" + " on Location " + "300" + " | Added on " + d)
      == Some(Header2(Bookmark, LocationOnly("300"), d))
  {
    LocationOnlyLine(Bookmark, "300", d);
  }

  /** A line that does not go on with `Your` after the dash does not match. */
  lemma MissingYourRejected(rest: string)
    requires rest != [] && !IsSpace(rest[0]) && !("Your" <= rest)
    ensures ParseLine2("- " + rest).None?
  {
    assert "- " + rest == "-" + (" " + rest);
    LitThen("-", " " + rest);
    OneSpace(rest);
  }

  /** The malformed header line of the demonstration input is rejected. */
  lemma SampleInvalidLine(rest: string)
    ensures ParseLine2("- " + "Invalid" + rest).None?
  {
    assert "- " + "Invalid" + rest == "- " + ("Invalid" + rest);
    HeadOf("Invalid", rest);
    assert ("Invalid" + rest)[0] != "Your"[0];
    MissingYourRejected("Invalid" + rest);
  }

  /** After `- Your `, a word that is none of the three type names is rejected. */
  lemma Line2NeedsType(t: string)
    requires t != [] && !IsSpace(t[0]) && TypeWord(t).None?
    ensures ParseLine2("- Your " + t).None?
  {
    Tokens(t);
    LitThen("-", " " + ("Your" + (" " + t)));
    SpacesLitOf("Your", " " + t);
    OneSpace(t);
  }

  /** The clipping type is case-sensitive: `highlight` is not a type. */
  lemma LowerCaseTypeRejected(rest: string)
    ensures ParseLine2("- Your " + "highlight" + rest).None?
  {
    var t := "highlight" + rest;
    assert "- Your " + "highlight" + rest == "- Your " + t;
    HeadOf("highlight", rest);
    assert TypeWord(t).None? by {
      assert t[0] != "Highlight"[0] && t[0] != "Note"[0] && t[0] != "Bookmark"[0];
    }
    Line2NeedsType(t);
  }
}
