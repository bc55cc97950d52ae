/**
 * The handful of Python `str` operations the parser relies on: `isspace`,
 * `strip`, `lower`, `title`, `split()` and `sep.join`, over `seq<char>`.
 * Letter case is modelled for the ASCII letters only.
 */
module PyText {

  /** `c.isspace()`; it is also the class that `\s` matches in a `str` pattern. */
  predicate IsSpace(c: char) {
    var n := c as int;
    n == 0x20 || 0x09 <= n <= 0x0D || 0x1C <= n <= 0x1F || n == 0x85 || n == 0xA0
    || n == 0x1680 || 0x2000 <= n <= 0x200A || n == 0x2028 || n == 0x2029
    || n == 0x202F || n == 0x205F || n == 0x3000
  }

  /** `\d`, restricted to the ASCII digits. */
  predicate IsDigit(c: char) { '0' <= c <= '9' }

  predicate IsUpper(c: char) { 'A' <= c <= 'Z' }
  predicate IsLower(c: char) { 'a' <= c <= 'z' }
  predicate IsLetter(c: char) { IsUpper(c) || IsLower(c) }

  function ToLower(c: char): (d: char)
    ensures IsLetter(d) == IsLetter(c) && !IsUpper(d)
    ensures !IsLetter(c) ==> d == c
  {
    if IsUpper(c) then (c as int + 32) as char else c
  }

  function ToUpper(c: char): (d: char)
    ensures IsLetter(d) == IsLetter(c) && !IsLower(d)
    ensures ToLower(d) == ToLower(c)
  {
    if IsLower(c) then (c as int - 32) as char else c
  }

  ghost predicate AllSpace(s: string) {
    forall i :: 0 <= i < |s| ==> IsSpace(s[i])
  }

  /** Neither end of `s` is whitespace: `s.strip() == s`. */
  predicate IsStripped(s: string) {
    s == [] || (!IsSpace(s[0]) && !IsSpace(s[|s| - 1]))
  }

  /** What `file.readlines()` yields: a newline can only be the last character. */
  ghost predicate NewlineOnlyAtEnd(s: string) {
    forall i :: 0 <= i < |s| - 1 ==> s[i] != '\n'
  }

  /** `s.lstrip()`: drops the longest all-whitespace prefix (see `StripStartDropsSpace`). */
  function StripStart(s: string): (r: string)
    ensures |r| <= |s| && r == s[|s| - |r|..]
    ensures r == [] || !IsSpace(r[0])
  {
    if s != [] && IsSpace(s[0]) then StripStart(s[1..]) else s
  }

  /** `s.rstrip()`: drops the longest all-whitespace suffix (see `StripEndDropsSpace`). */
  function StripEnd(s: string): (r: string)
    ensures |r| <= |s| && r == s[..|r|]
    ensures r == [] || !IsSpace(r[|r| - 1])
  {
    if s != [] && IsSpace(s[|s| - 1]) then StripEnd(s[..|s| - 1]) else s
  }

  /** `s.strip()`: neither end of the result is whitespace (see `StripIsSlice`). */
  function Strip(s: string): (r: string)
    ensures IsStripped(r) && |r| <= |s|
  {
    StripEnd(StripStart(s))
  }

  /** What `lstrip` drops is whitespace. */
  lemma {:induction false} StripStartDropsSpace(s: string)
    ensures AllSpace(s[..|s| - |StripStart(s)|])
  {
    if s != [] && IsSpace(s[0]) {
      StripStartDropsSpace(s[1..]);
      var n := |s| - |StripStart(s)|;
      forall i | 0 <= i < n ensures IsSpace(s[i]) {
        if i > 0 { assert s[i] == s[1..][..n - 1][i - 1]; }
      }
    }
  }

  /** What `rstrip` drops is whitespace. */
  lemma {:induction false} StripEndDropsSpace(s: string)
    ensures AllSpace(s[|StripEnd(s)|..])
  {
    if s != [] && IsSpace(s[|s| - 1]) {
      var t := s[..|s| - 1];
      StripEndDropsSpace(t);
      var m := |StripEnd(s)|;
      forall i | m <= i < |s| ensures IsSpace(s[i]) {
        if i < |s| - 1 { assert s[i] == t[m..][i - m]; }
      }
    }
  }

  /** `s.strip()` is the slice `s[i..i + |r|]` with only whitespace around it. */
  lemma StripIsSlice(s: string) returns (i: nat)
    ensures i + |Strip(s)| <= |s| && Strip(s) == s[i..i + |Strip(s)|]
    ensures AllSpace(s[..i]) && AllSpace(s[i + |Strip(s)|..])
  {
    var t := StripStart(s);
    var r := StripEnd(t);
    i := |s| - |t|;
    StripStartDropsSpace(s);
    StripEndDropsSpace(t);
    SliceOfSlice(s, i, |r|);
  }

  lemma SliceOfSlice<T>(s: seq<T>, i: nat, j: nat)
    requires i + j <= |s|
    ensures s[i..][..j] == s[i..i + j] && s[i..][j..] == s[i + j..]
  {
  }

  lemma StripOfStripped(s: string)
    requires IsStripped(s)
    ensures Strip(s) == s
  {
  }

  /** `s.strip()` is empty exactly when `s` is all whitespace. */
  lemma StripEmptyIffAllSpace(s: string)
    ensures Strip(s) == [] <==> AllSpace(s)
  {
    var r := Strip(s);
    var i := StripIsSlice(s);
    if r == [] {
      forall k | 0 <= k < |s| ensures IsSpace(s[k]) {
        if k < i { assert s[k] == s[..i][k]; } else { assert s[k] == s[i..][k - i]; }
      }
    } else {
      assert !IsSpace(s[i]);
    }
  }

  /** A character that is not whitespace survives stripping, so the result is not empty. */
  lemma StripKeepsNonSpace(s: string, k: nat)
    requires k < |s| && !IsSpace(s[k])
    ensures Strip(s) != []
  {
    StripEmptyIffAllSpace(s);
  }

  /** A character absent from `s` is absent from `s.strip()`. */
  lemma StripKeepsAbsent(s: string, c: char)
    requires c !in s
    ensures c !in Strip(s)
  {
    var i := StripIsSlice(s);
    var r := Strip(s);
    assert forall k :: 0 <= k < |r| ==> r[k] == s[i + k];
  }

  /** Stripping a line as `readlines()` yields it removes its newline, if any. */
  lemma StripRemovesNewline(s: string)
    requires NewlineOnlyAtEnd(s)
    ensures '\n' !in Strip(s)
  {
    var i := StripIsSlice(s);
    var r := Strip(s);
    forall k | 0 <= k < |r| ensures r[k] != '\n' {
      if k == |r| - 1 {
        assert !IsSpace(r[k]);
      } else {
        assert r[k] == s[i + k] && i + k < |s| - 1;
      }
    }
  }

  /** `s.lower()` on ASCII letters. */
  function Lower(s: string): (r: string)
    ensures |r| == |s| && forall i :: 0 <= i < |s| ==> r[i] == ToLower(s[i])
  {
    seq(|s|, i requires 0 <= i < |s| => ToLower(s[i]))
  }

  ghost predicate HasNoUpper(s: string) {
    forall i :: 0 <= i < |s| ==> !IsUpper(s[i])
  }

  /**
   * Python's title-casing rule: a letter is upper-case exactly when it opens a
   * word, that is when it is first or follows a character that is not a letter.
   */
  ghost predicate IsTitleCased(s: string) {
    forall i :: 0 <= i < |s| && IsLetter(s[i]) ==> (IsUpper(s[i]) <==> (i == 0 || !IsLetter(s[i - 1])))
  }

  /** `s.title()`, scanning with "was the previous character cased" as its state. */
  function TitleFrom(s: string, prevCased: bool): (r: string)
    ensures |r| == |s|
    ensures forall i :: 0 <= i < |s| ==> ToLower(r[i]) == ToLower(s[i]) && IsLetter(r[i]) == IsLetter(s[i])
    ensures forall i :: 0 <= i < |s| && !IsLetter(s[i]) ==> r[i] == s[i]
    ensures forall i :: 0 <= i < |s| && IsLetter(s[i]) ==>
      (IsUpper(r[i]) <==> if i == 0 then !prevCased else !IsLetter(s[i - 1]))
  {
    if s == [] then []
    else
      var c := s[0];
      var d := if !IsLetter(c) then c else if prevCased then ToLower(c) else ToUpper(c);
      [d] + TitleFrom(s[1..], IsLetter(c))
  }

  /** `s.title()`: the same characters up to letter case, title-cased. */
  function Title(s: string): (r: string)
    ensures |r| == |s| && IsTitleCased(r)
    ensures Lower(r) == Lower(s)
    ensures forall i :: 0 <= i < |s| && !IsLetter(s[i]) ==> r[i] == s[i]
  {
    var r := TitleFrom(s, false);
    assert forall i :: 0 <= i < |r| ==> IsLetter(r[i]) == IsLetter(s[i]);
    r
  }

  /** `s` with every character of `drop` removed, as `re.sub('[...]', '', s)` does. */
  function Remove(s: string, drop: set<char>): (r: string)
    ensures forall c :: c in r ==> c in s && c !in drop
    ensures forall c :: c in s && c !in drop ==> c in r
  {
    if s == [] then []
    else (if s[0] in drop then [] else [s[0]]) + Remove(s[1..], drop)
  }

  /** The longest prefix of `t` free of whitespace. */
  function TakeWord(t: string): (w: string)
    ensures w <= t
    ensures forall k :: 0 <= k < |w| ==> !IsSpace(w[k])
    ensures t != [] && !IsSpace(t[0]) ==> w != []
  {
    if t == [] || IsSpace(t[0]) then [] else [t[0]] + TakeWord(t[1..])
  }

  /** `s.split()` with no argument: the maximal whitespace-free runs, empty ones dropped. */
  function Split(s: string): (parts: seq<string>)
    ensures forall i :: 0 <= i < |parts| ==> parts[i] != []
    decreases |s|
  {
    if s == [] then []
    else if IsSpace(s[0]) then Split(s[1..])
    else
      var w := TakeWord(s);
      [w] + Split(s[|w|..])
  }

  /** A character absent from `s` is absent from every word of `s.split()`. */
  lemma {:induction false} SplitAvoids(s: string, c: char)
    requires c !in s
    ensures forall i :: 0 <= i < |Split(s)| ==> c !in Split(s)[i]
    decreases |s|
  {
    if s == [] {
    } else if IsSpace(s[0]) {
      assert c !in s[1..] by { assert forall k :: 0 <= k < |s| - 1 ==> s[1..][k] == s[k + 1]; }
      SplitAvoids(s[1..], c);
    } else {
      var w := TakeWord(s);
      var t := s[|w|..];
      assert c !in w by { assert forall k :: 0 <= k < |w| ==> w[k] == s[k]; }
      assert c !in t by { assert forall k :: 0 <= k < |t| ==> t[k] == s[|w| + k]; }
      SplitAvoids(t, c);
      var p := Split(s);
      assert p == [w] + Split(t);
      forall i | 0 <= i < |p| ensures c !in p[i] {
        if i > 0 { assert p[i] == Split(t)[i - 1]; }
      }
    }
  }

  /** `sep.join(parts)`. */
  function Join(sep: string, parts: seq<string>): (r: string)
    ensures forall i, c :: 0 <= i < |parts| && c in parts[i] ==> c in r
  {
    if |parts| == 0 then ""
    else if |parts| == 1 then parts[0]
    else parts[0] + sep + Join(sep, parts[1..])
  }

  /** `sep.join(parts)` starts with the first part and ends with the last. */
  lemma {:induction false} JoinEnds(sep: string, parts: seq<string>)
    requires parts != []
    ensures parts[0] <= Join(sep, parts)
    ensures var j, last := Join(sep, parts), parts[|parts| - 1];
      |last| <= |j| && j[|j| - |last|..] == last
  {
    if |parts| > 1 {
      JoinEnds(sep, parts[1..]);
      var j, rest := Join(sep, parts), Join(sep, parts[1..]);
      assert j == parts[0] + sep + rest;
      assert j[|j| - |rest|..] == rest;
    }
  }

  /** Stripping a stripped line with its newline gives the line back. */
  lemma StripNewline(s: string)
    requires IsStripped(s)
    ensures Strip(s + "\n") == s
  {
    var t := s + "\n";
    if s == [] {
      assert t[1..] == [];
    } else {
      assert t[0] == s[0];
      assert StripStart(t) == t;
      assert IsSpace(t[|t| - 1]) && t[..|t| - 1] == s;
      assert StripEnd(t) == StripEnd(s);
      assert StripEnd(s) == s;
    }
  }
}
