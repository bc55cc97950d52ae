/**
 * `normalize_author` of backend/app/parsing/parser.py: strip, lower-case,
 * drop every `.` and `,`, then title-case. The "Last, First" reordering that
 * follows the comma removal is kept as written and proved unreachable.
 */
module Authors {
  import opened Wrappers
  import opened PyText

  /** The characters `re.sub(r'[.,]', '', s)` removes. */
  const Punctuation: set<char> := {'.', ','}

  /** The reordering guarded by the "Last, First" test: the first word moves to the end. */
  function Reordered(parts: seq<string>): (r: string)
    requires |parts| > 1
  {
    var lastName := Strip(Remove(parts[0], {','}));
    var firstNames := Strip(Join(" ", parts[1..]));
    Strip(firstNames + " " + lastName)
  }

  /** The "Last, First" test: several words, a last word of two characters or more, a comma in the first. */
  predicate LooksReversed(parts: seq<string>) {
    |parts| > 1 && |parts[|parts| - 1]| > 1 && ',' in parts[0]
  }

  /** The text `normalize_author` title-cases, after the punctuation is gone. */
  function Cleaned(author: string): string {
    Remove(Lower(Strip(author)), Punctuation)
  }

  /** `normalize_author(author)`: `None` for a missing or empty author. */
  function NormalizeAuthor(author: Option<string>): (r: Option<string>)
    ensures r.None? <==> author.None? || author.value == []
    ensures r.Some? ==> '.' !in r.value && ',' !in r.value
  {
    if author.None? || author.value == [] then None
    else
      var cleaned := Cleaned(author.value);
      var parts := Split(cleaned);
      var normalized := if LooksReversed(parts) then Reordered(parts) else cleaned;
      ReorderUnreachable(author.value);
      TitleKeepsAbsent(normalized, '.');
      TitleKeepsAbsent(normalized, ',');
      Some(Title(normalized))
  }

  /** Title-casing never introduces a character that is not a letter. */
  lemma TitleKeepsAbsent(s: string, c: char)
    requires c !in s && !IsLetter(c)
    ensures c !in Title(s)
  {
    var r := Title(s);
    forall i | 0 <= i < |r| ensures r[i] != c {
      assert Lower(r)[i] == Lower(s)[i];
      if !IsLetter(s[i]) {
        assert r[i] == s[i];
      } else {
        assert IsLetter(ToLower(r[i]));
      }
    }
  }

  /**
   * The comma test can never succeed: commas are removed before the text is
   * split, so no word holds one, and the reordering is dead code.
   */
  lemma ReorderUnreachable(author: string)
    ensures !LooksReversed(Split(Cleaned(author)))
  {
    var cleaned := Cleaned(author);
    assert ',' !in cleaned;
    SplitAvoids(cleaned, ',');
  }

  /**
   * Word order is kept: up to letter case, the result is the stripped,
   * lower-cased input with its periods and commas removed, and it is title-cased.
   */
  lemma NormalizeKeepsOrder(author: string)
    requires author != []
    ensures NormalizeAuthor(Some(author)).Some?
    ensures Lower(NormalizeAuthor(Some(author)).value) == Lower(Cleaned(author))
    ensures IsTitleCased(NormalizeAuthor(Some(author)).value)
  {
    ReorderUnreachable(author);
  }

  /** An author made only of periods and commas normalises to the empty string, not to `None`. */
  lemma OnlyPunctuation(author: string)
    requires author != [] && forall i :: 0 <= i < |author| ==> author[i] in Punctuation
    ensures NormalizeAuthor(Some(author)) == Some("")
  {
    assert !IsSpace(author[0]) && !IsSpace(author[|author| - 1]);
    StripOfStripped(author);
    var l := Lower(author);
    assert forall i :: 0 <= i < |l| ==> l[i] in Punctuation;
    RemoveAll(l, Punctuation);
    assert Cleaned(author) == [];
    ReorderUnreachable(author);
  }

  lemma RemoveAll(s: string, drop: set<char>)
    requires forall i :: 0 <= i < |s| ==> s[i] in drop
    ensures Remove(s, drop) == []
  {
  }
}
