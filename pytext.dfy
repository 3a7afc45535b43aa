/** The Python `str` built-ins the pipeline relies on, over Dafny strings:
    `str.isspace` (per character), `str.strip`, `str.split(sep)`,
    `str.split()` and `str.join`. */
module PyText {

  /** `c.isspace()` in Python 3: the Unicode white-space characters plus the
      ASCII information separators U+001C..U+001F. */
  predicate IsSpace(c: char) {
    || c == ' '
    || ('\t' <= c <= '\r')
    || ('\U{1C}' <= c <= '\U{1F}')
    || c == '\U{85}'
    || c == '\U{A0}'
    || c == '\U{1680}'
    || ('\U{2000}' <= c <= '\U{200A}')
    || c == '\U{2028}'
    || c == '\U{2029}'
    || c == '\U{202F}'
    || c == '\U{205F}'
    || c == '\U{3000}'
  }

  /** Every character of `s[lo..hi]` is white space. */
  predicate SpaceBetween(s: string, lo: int, hi: int)
    requires 0 <= lo <= hi <= |s|
  {
    forall i :: lo <= i < hi ==> IsSpace(s[i])
  }

  predicate AllSpace(s: string) {
    SpaceBetween(s, 0, |s|)
  }

  /** The index of the first character at or after `i` that is not white
      space, or `|s|` when there is none. */
  function SkipSpace(s: string, i: nat): (j: nat)
    requires i <= |s|
    ensures i <= j <= |s| && SpaceBetween(s, i, j)
    ensures j == |s| || !IsSpace(s[j])
    decreases |s| - i
  {
    if i < |s| && IsSpace(s[i]) then SkipSpace(s, i + 1) else i
  }

  /** The index just past the last character before `j`, and at or after
      `lo`, that is not white space, or `lo` when there is none. */
  function SkipSpaceBack(s: string, lo: nat, j: nat): (k: nat)
    requires lo <= j <= |s|
    ensures lo <= k <= j && SpaceBetween(s, k, j)
    ensures k == lo || !IsSpace(s[k - 1])
    decreases j
  {
    if lo < j && IsSpace(s[j - 1]) then SkipSpaceBack(s, lo, j - 1) else j
  }

  /** `s.strip()`: `s` without its leading and trailing white space. */
  function Strip(s: string): string {
    var a := SkipSpace(s, 0);
    s[a..SkipSpaceBack(s, a, |s|)]
  }

  /** `s.strip()` is the infix `s[a..b]` of `s` with only white space
      before and after it; it neither starts nor ends with white space,
      and it is empty exactly when `s` is all white space. */
  lemma StripBounds(s: string)
    ensures var a := SkipSpace(s, 0); var b := SkipSpaceBack(s, a, |s|); var r := Strip(s);
      && r == s[a..b]
      && SpaceBetween(s, 0, a) && SpaceBetween(s, b, |s|)
      && (r == [] <==> AllSpace(s))
      && (r == [] || (!IsSpace(r[0]) && !IsSpace(r[|r| - 1])))
  {
    var a := SkipSpace(s, 0);
    var b := SkipSpaceBack(s, a, |s|);
    if a < b {
      assert Strip(s)[0] == s[a];
      assert !AllSpace(s);
    } else {
      SpaceBetweenJoin(s, 0, a, |s|);
    }
  }

  /** `s.strip()` is no longer than `s`, neither starts nor ends with white
      space, and is empty exactly when `s` is all white space. */
  lemma StripFacts(s: string)
    ensures |Strip(s)| <= |s|
    ensures var r := Strip(s); r == [] || (!IsSpace(r[0]) && !IsSpace(r[|r| - 1]))
    ensures Strip(s) == [] <==> AllSpace(s)
  {
    StripBounds(s);
  }

  /** Two adjacent all-white-space stretches make one. */
  lemma SpaceBetweenJoin(s: string, lo: int, mid: int, hi: int)
    requires 0 <= lo <= mid <= hi <= |s|
    requires SpaceBetween(s, lo, mid) && SpaceBetween(s, mid, hi)
    ensures SpaceBetween(s, lo, hi)
  {
  }

  /** Stripping removes at least one character from a string that ends in
      white space. */
  lemma StripShortensTrailingSpace(s: string)
    requires s != [] && IsSpace(s[|s| - 1])
    ensures |Strip(s)| < |s|
  {
    StripBounds(s);
  }

  /** `s.split(sep)` for a non-empty separator: the pieces between the
      leftmost non-overlapping occurrences of `sep`. */
  function Split(s: string, sep: string): (parts: seq<string>)
    requires sep != []
    ensures |parts| >= 1
    decreases |s|
  {
    if |s| < |sep| then [s]
    else if s[..|sep|] == sep then [""] + Split(s[|sep|..], sep)
    else
      var rest := Split(s[1..], sep);
      [[s[0]] + rest[0]] + rest[1..]
  }

  /** The elements of a list of lists, in order. */
  function Flatten<T>(lists: seq<seq<T>>): seq<T> {
    if lists == [] then [] else lists[0] + Flatten(lists[1..])
  }

  /** `sep.join(parts)`. */
  function Join(parts: seq<string>, sep: string): string {
    if |parts| == 0 then ""
    else if |parts| == 1 then parts[0]
    else parts[0] + sep + Join(parts[1..], sep)
  }

  /** Splitting loses nothing: joining the pieces with the separator gives
      the string back. */
  lemma {:induction false} JoinSplit(s: string, sep: string)
    requires sep != []
    ensures Join(Split(s, sep), sep) == s
    decreases |s|
  {
    if |s| < |sep| {
    } else if s[..|sep|] == sep {
      var rest := s[|sep|..];
      assert Split(s, sep) == [""] + Split(rest, sep);
      JoinSplit(rest, sep);
      JoinConsEmpty(Split(rest, sep), sep);
      assert s == sep + rest;
    } else {
      var parts := Split(s[1..], sep);
      assert Split(s, sep) == [[s[0]] + parts[0]] + parts[1..];
      JoinSplit(s[1..], sep);
      JoinConsChar(s[0], parts, sep);
      assert s == [s[0]] + s[1..];
    }
  }

  /** An empty first piece puts the separator in front of the join. */
  lemma JoinConsEmpty(parts: seq<string>, sep: string)
    requires |parts| >= 1
    ensures Join([""] + parts, sep) == sep + Join(parts, sep)
  {
    var glued := [""] + parts;
    assert glued[1..] == parts;
    assert glued[0] + sep == sep;
  }

  /** Gluing a character onto the first piece glues it onto the join. */
  lemma JoinConsChar(c: char, parts: seq<string>, sep: string)
    requires |parts| >= 1
    ensures Join([[c] + parts[0]] + parts[1..], sep) == [c] + Join(parts, sep)
  {
    var glued := [[c] + parts[0]] + parts[1..];
    if |parts| > 1 {
      assert glued[1..] == parts[1..];
    }
  }

  /** `sep` occurs in `p` starting at index `i`. */
  predicate OccursAt(sep: string, p: string, i: int) {
    0 <= i && i + |sep| <= |p| && p[i..i + |sep|] == sep
  }

  /** `sep` occurs in `p` as a contiguous slice. */
  predicate Occurs(sep: string, p: string) {
    exists i :: 0 <= i <= |p| && OccursAt(sep, p, i)
  }

  /** The first piece of `s.split(sep)` is a prefix of `s`. */
  lemma {:induction false} SplitFirstIsPrefix(s: string, sep: string)
    requires sep != []
    ensures |Split(s, sep)[0]| <= |s| && Split(s, sep)[0] == s[..|Split(s, sep)[0]|]
    decreases |s|
  {
    if |s| >= |sep| && s[..|sep|] != sep {
      SplitFirstIsPrefix(s[1..], sep);
    }
  }

  /** A character that does not start `sep` in `s`, glued onto a prefix of
      the rest of `s` that avoids `sep`, gives a piece that avoids `sep`. */
  lemma GluedAvoidsSep(s: string, sep: string, first: string)
    requires sep != [] && |s| >= |sep| && s[..|sep|] != sep
    requires |first| < |s| && first == s[1..][..|first|]
    requires !Occurs(sep, first)
    ensures !Occurs(sep, [s[0]] + first)
  {
    var p := [s[0]] + first;
    assert p == s[..|p|];
    forall i | 0 <= i <= |p| ensures !OccursAt(sep, p, i) {
      if i == 0 {
        if |sep| <= |p| {
          assert p[..|sep|] == s[..|sep|];
        }
      } else if i + |sep| <= |p| {
        assert p[i..i + |sep|] == first[i - 1..i - 1 + |sep|];
        assert !OccursAt(sep, first, i - 1);
      }
    }
  }

  /** No piece of `s.split(sep)` contains `sep`: every occurrence of the
      separator was cut out. */
  lemma {:induction false} SplitPiecesAvoidSep(s: string, sep: string)
    requires sep != []
    ensures forall j :: 0 <= j < |Split(s, sep)| ==> !Occurs(sep, Split(s, sep)[j])
    decreases |s|
  {
    if |s| < |sep| {
      assert Split(s, sep) == [s];
    } else if s[..|sep|] == sep {
      var rest := Split(s[|sep|..], sep);
      SplitPiecesAvoidSep(s[|sep|..], sep);
      assert Split(s, sep) == [""] + rest;
      assert forall j :: 1 <= j < |Split(s, sep)| ==> Split(s, sep)[j] == rest[j - 1];
    } else {
      var rest := Split(s[1..], sep);
      SplitPiecesAvoidSep(s[1..], sep);
      SplitFirstIsPrefix(s[1..], sep);
      var p := [s[0]] + rest[0];
      GluedAvoidsSep(s, sep, rest[0]);
      assert Split(s, sep) == [p] + rest[1..];
      assert forall j :: 1 <= j < |Split(s, sep)| ==> Split(s, sep)[j] == rest[j];
    }
  }

  /** A whitespace-separated word of `str.split()`. */
  predicate IsWord(w: string) {
    w != [] && forall i :: 0 <= i < |w| ==> !IsSpace(w[i])
  }

  /** Length of the run of non-white-space characters that starts `s`. */
  function WordLength(s: string): (n: nat)
    ensures n <= |s|
    ensures forall i :: 0 <= i < n ==> !IsSpace(s[i])
    ensures n < |s| ==> IsSpace(s[n])
  {
    if s == [] || IsSpace(s[0]) then 0 else 1 + WordLength(s[1..])
  }

  /** `s.split()`: the maximal runs of non-white-space characters, in order. */
  function Words(s: string): (ws: seq<string>)
    ensures forall i :: 0 <= i < |ws| ==> IsWord(ws[i])
    decreases |s|
  {
    if s == [] then []
    else if IsSpace(s[0]) then Words(s[1..])
    else
      var n := WordLength(s);
      [s[..n]] + Words(s[n..])
  }

  /** `s.split()` is empty exactly when `s` is empty or all white space. */
  lemma {:induction false} WordsEmpty(s: string)
    ensures Words(s) == [] <==> AllSpace(s)
    decreases |s|
  {
    if s != [] && IsSpace(s[0]) {
      WordsEmpty(s[1..]);
      assert s == [s[0]] + s[1..];
    }
  }

  /** A word followed by white space splits off as the first word. */
  lemma WordsAfterWord(w: string, rest: string)
    requires IsWord(w)
    requires rest == [] || IsSpace(rest[0])
    ensures Words(w + rest) == [w] + Words(rest)
  {
    var s := w + rest;
    var n := WordLength(s);
    assert n == |w| by {
      assert forall i :: 0 <= i < |w| ==> s[i] == w[i];
      assert rest != [] ==> s[|w|] == rest[0];
    }
    assert s[..n] == w && s[n..] == rest;
  }

  /** `s` with its white-space characters removed. */
  function NonSpace(s: string): string {
    if s == [] then []
    else (if IsSpace(s[0]) then [] else [s[0]]) + NonSpace(s[1..])
  }

  /** A leading run without white space passes whole into `NonSpace`. */
  lemma {:induction false} NonSpaceOfRun(s: string, n: nat)
    requires n <= |s|
    requires forall i :: 0 <= i < n ==> !IsSpace(s[i])
    ensures NonSpace(s) == s[..n] + NonSpace(s[n..])
    decreases n
  {
    if n > 0 {
      NonSpaceOfRun(s[1..], n - 1);
      assert s[1..][n - 1..] == s[n..];
      assert [s[0]] + s[1..][..n - 1] == s[..n];
    }
  }

  /** `s.split()` loses only white space: its words, concatenated, are the
      characters of `s` that are not white space, in order. */
  lemma {:induction false} WordsCoverNonSpace(s: string)
    ensures Flatten(Words(s)) == NonSpace(s)
    decreases |s|
  {
    if s != [] {
      if IsSpace(s[0]) {
        WordsCoverNonSpace(s[1..]);
      } else {
        var n := WordLength(s);
        var ws := Words(s[n..]);
        WordsCoverNonSpace(s[n..]);
        NonSpaceOfRun(s, n);
        assert Words(s) == [s[..n]] + ws;
        assert ([s[..n]] + ws)[1..] == ws;
      }
    }
  }

  /** The words of single-space-joined words are those words: `" ".join`
      and `str.split()` are inverse on lists of words. */
  lemma {:induction false} WordsOfJoin(ws: seq<string>)
    requires forall i :: 0 <= i < |ws| ==> IsWord(ws[i])
    ensures Words(Join(ws, " ")) == ws
    decreases |ws|
  {
    if |ws| == 0 {
    } else if |ws| == 1 {
      WordsAfterWord(ws[0], "");
      assert ws[0] + "" == ws[0];
    } else {
      var tail := Join(ws[1..], " ");
      WordsOfJoin(ws[1..]);
      WordsAfterWord(ws[0], " " + tail);
      assert ws[0] + " " + tail == ws[0] + (" " + tail);
      assert Words(" " + tail) == Words(tail) by {
        assert (" " + tail)[1..] == tail;
      }
    }
  }

  /** A string in which white space only appears as single ' ' characters
      between non-white-space ones: no leading, trailing or doubled white
      space. */
  predicate SingleSpaced(s: string) {
    && s != []
    && !IsSpace(s[0])
    && !IsSpace(s[|s| - 1])
    && forall i :: 0 <= i < |s| && IsSpace(s[i]) ==> s[i] == ' ' && 0 < i < |s| - 1 && !IsSpace(s[i + 1])
  }

  /** Joining a non-empty list of words with single spaces gives a
      single-spaced string. */
  lemma {:induction false} JoinSingleSpaced(ws: seq<string>)
    requires |ws| >= 1
    requires forall i :: 0 <= i < |ws| ==> IsWord(ws[i])
    ensures SingleSpaced(Join(ws, " "))
    decreases |ws|
  {
    if |ws| > 1 {
      var w := ws[0];
      var tail := Join(ws[1..], " ");
      JoinSingleSpaced(ws[1..]);
      var s := w + " " + tail;
      assert Join(ws, " ") == s;
      forall i | 0 <= i < |s| && IsSpace(s[i])
        ensures s[i] == ' ' && 0 < i < |s| - 1 && !IsSpace(s[i + 1])
      {
        if i > |w| {
          assert s[i] == tail[i - |w| - 1];
          if i + 1 < |s| {
            assert s[i + 1] == tail[i - |w|];
          }
        }
      }
    }
  }
}
