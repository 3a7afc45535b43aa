/** `PDFParser.chunk_text` (backend/utils/pdf_parser.py): splits a text into
    its white-space separated words and packs them greedily, in order, into
    chunks of single-space-joined words under a character budget. */
module PdfParser {
  import opened PyText

  /** The default `chunk_size`. */
  const DefaultChunkSize := 2000

  /** `current_length` for a list of words: each word counts its length plus
      one for a space. */
  function Width(words: seq<string>): nat {
    if words == [] then 0 else |words[0]| + 1 + Width(words[1..])
  }

  /** The groups of words the loop closes, given the words it has still to
      visit and the words in `current_chunk`. A word joins a non-empty
      current group only while the group's width plus the word's stays
      within `chunkSize`; a first word always joins. */
  function Pack(words: seq<string>, chunkSize: int, current: seq<string>): seq<seq<string>>
    decreases |words|
  {
    if words == [] then
      if current == [] then [] else [current]
    else if Width(current) + |words[0]| + 1 > chunkSize && current != [] then
      [current] + Pack(words[1..], chunkSize, [words[0]])
    else
      Pack(words[1..], chunkSize, current + [words[0]])
  }

  /** The word groups behind the chunks of `text`. */
  function WordGroups(text: string, chunkSize: int): seq<seq<string>> {
    Pack(Words(text), chunkSize, [])
  }

  /** Each group joined with single spaces. */
  function JoinEach(groups: seq<seq<string>>): (chunks: seq<string>)
    ensures |chunks| == |groups|
  {
    seq(|groups|, k requires 0 <= k < |groups| => Join(groups[k], " "))
  }

  /** The white-space separated words of each chunk. */
  function WordsEach(chunks: seq<string>): (words: seq<seq<string>>)
    ensures |words| == |chunks|
  {
    seq(|chunks|, k requires 0 <= k < |chunks| => Words(chunks[k]))
  }

  /** What `chunk_text(text, chunk_size)` returns. */
  function Chunks(text: string, chunkSize: int): seq<string> {
    JoinEach(WordGroups(text, chunkSize))
  }

  /** `chunk_text`: the word-packing loop, computing `Chunks`. */
  method ChunkText(text: string, chunkSize: int) returns (chunks: seq<string>)
    ensures chunks == Chunks(text, chunkSize)
  {
    var words := Words(text);
    chunks := [];
    var currentChunk: seq<string> := [];
    var currentLength := 0;
    ghost var done: seq<seq<string>> := [];
    for i := 0 to |words|
      invariant currentLength == Width(currentChunk)
      invariant done + Pack(words[i..], chunkSize, currentChunk) == Pack(words, chunkSize, [])
      invariant chunks == JoinEach(done)
    {
      var word := words[i];
      var wordLength := |word| + 1;
      assert words[i..][0] == word && words[i..][1..] == words[i + 1..];
      if currentLength + wordLength > chunkSize && currentChunk != [] {
        assert JoinEach(done + [currentChunk]) == chunks + [Join(currentChunk, " ")];
        chunks := chunks + [Join(currentChunk, " ")];
        done := done + [currentChunk];
        currentChunk := [word];
        currentLength := wordLength;
      } else {
        WidthAppend(currentChunk, word);
        currentChunk := currentChunk + [word];
        currentLength := currentLength + wordLength;
      }
    }
    assert words[|words|..] == [];
    if currentChunk != [] {
      assert JoinEach(done + [currentChunk]) == chunks + [Join(currentChunk, " ")];
      chunks := chunks + [Join(currentChunk, " ")];
      done := done + [currentChunk];
    } else {
      assert done + [] == done;
    }
  }

  // ---------------------------------------------------------------------
  // Properties of the packing.

  /** Appending a word adds its length plus one to the width. */
  lemma {:induction false} WidthAppend(words: seq<string>, w: string)
    ensures Width(words + [w]) == Width(words) + |w| + 1
    decreases |words|
  {
    if words != [] {
      WidthAppend(words[1..], w);
      assert (words + [w])[1..] == words[1..] + [w];
    }
  }

  /** The width of a non-empty group is its joined length plus one. */
  lemma {:induction false} WidthJoin(words: seq<string>)
    requires words != []
    ensures Width(words) == |Join(words, " ")| + 1
    decreases |words|
  {
    if |words| > 1 {
      WidthJoin(words[1..]);
    }
  }

  /** Packing neither loses, duplicates nor reorders words. */
  lemma {:induction false} PackFlatten(words: seq<string>, chunkSize: int, current: seq<string>)
    ensures Flatten(Pack(words, chunkSize, current)) == current + words
    decreases |words|
  {
    if words == [] {
      assert current + [] == current;
    } else {
      var w, rest := words[0], words[1..];
      assert words == [w] + rest;
      PackFlatten(rest, chunkSize, current + [w]);
      PackFlatten(rest, chunkSize, [w]);
    }
  }

  /** The first group extends the current one. */
  lemma {:induction false} PackFirst(words: seq<string>, chunkSize: int, current: seq<string>)
    requires current != []
    ensures Pack(words, chunkSize, current) != []
    ensures |Pack(words, chunkSize, current)[0]| >= |current|
    ensures Pack(words, chunkSize, current)[0][..|current|] == current
    decreases |words|
  {
    if words != [] && !(Width(current) + |words[0]| + 1 > chunkSize) {
      var next := current + [words[0]];
      PackFirst(words[1..], chunkSize, next);
      assert next[..|current|] == current;
    }
  }

  /** Every group holds at least one word. */
  lemma {:induction false} PackNonEmpty(words: seq<string>, chunkSize: int, current: seq<string>)
    ensures forall k :: 0 <= k < |Pack(words, chunkSize, current)| ==> Pack(words, chunkSize, current)[k] != []
    decreases |words|
  {
    if words != [] {
      var w := words[0];
      if Width(current) + |w| + 1 > chunkSize && current != [] {
        PackNonEmpty(words[1..], chunkSize, [w]);
      } else {
        PackNonEmpty(words[1..], chunkSize, current + [w]);
      }
    }
  }

  /** Every group of two or more words has width at most `chunkSize`. */
  predicate Fits(groups: seq<seq<string>>, chunkSize: int) {
    forall k :: 0 <= k < |groups| && |groups[k]| >= 2 ==> Width(groups[k]) <= chunkSize
  }

  lemma {:induction false} PackFits(words: seq<string>, chunkSize: int, current: seq<string>)
    requires |current| >= 2 ==> Width(current) <= chunkSize
    ensures Fits(Pack(words, chunkSize, current), chunkSize)
    decreases |words|
  {
    if words != [] {
      var w := words[0];
      if Width(current) + |w| + 1 > chunkSize && current != [] {
        PackFits(words[1..], chunkSize, [w]);
      } else {
        WidthAppend(current, w);
        PackFits(words[1..], chunkSize, current + [w]);
      }
    }
  }

  /** Every group after the first is non-empty, and its first word would
      have taken the previous group past `chunkSize`. */
  predicate Greedy(groups: seq<seq<string>>, chunkSize: int) {
    forall k :: 0 < k < |groups| ==> groups[k] != [] && Width(groups[k - 1]) + |groups[k][0]| + 1 > chunkSize
  }

  lemma {:induction false} PackGreedy(words: seq<string>, chunkSize: int, current: seq<string>)
    ensures Greedy(Pack(words, chunkSize, current), chunkSize)
    decreases |words|
  {
    if words != [] {
      var w := words[0];
      if Width(current) + |w| + 1 > chunkSize && current != [] {
        var rest := Pack(words[1..], chunkSize, [w]);
        var groups := [current] + rest;
        PackGreedy(words[1..], chunkSize, [w]);
        PackFirst(words[1..], chunkSize, [w]);
        assert rest[0][0] == w by {
          assert rest[0][..1] == [w];
        }
        forall k | 0 < k < |groups|
          ensures groups[k] != [] && Width(groups[k - 1]) + |groups[k][0]| + 1 > chunkSize
        {
          if k > 1 {
            assert groups[k] == rest[k - 1] && groups[k - 1] == rest[k - 2];
          }
        }
      } else {
        PackGreedy(words[1..], chunkSize, current + [w]);
        assert Pack(words, chunkSize, current) == Pack(words[1..], chunkSize, current + [w]);
      }
    }
  }

  // ---------------------------------------------------------------------
  // Properties of the chunks.

  /** Each chunk holds at least one word and is its group's words joined by
      single spaces: splitting the chunk gives the group back, and the
      chunk has no leading, trailing or doubled white space. */
  lemma ChunkWords(text: string, chunkSize: int)
    ensures var groups := WordGroups(text, chunkSize); var chunks := Chunks(text, chunkSize);
      && |chunks| == |groups|
      && forall k :: 0 <= k < |chunks| ==>
           && groups[k] != []
           && Words(chunks[k]) == groups[k]
           && SingleSpaced(chunks[k])
  {
    var groups := WordGroups(text, chunkSize);
    PackNonEmpty(Words(text), chunkSize, []);
    PackFlatten(Words(text), chunkSize, []);
    forall k | 0 <= k < |groups|
      ensures Words(Join(groups[k], " ")) == groups[k] && SingleSpaced(Join(groups[k], " "))
    {
      GroupWordsAreWords(groups, k);
      WordsOfJoin(groups[k]);
      JoinSingleSpaced(groups[k]);
    }
  }

  /** The groups hold words of `str.split()` only. */
  lemma GroupWordsAreWords(groups: seq<seq<string>>, k: nat)
    requires k < |groups|
    requires forall i :: 0 <= i < |Flatten(groups)| ==> IsWord(Flatten(groups)[i])
    ensures forall i :: 0 <= i < |groups[k]| ==> IsWord(groups[k][i])
  {
    FlattenHolds(groups, k);
  }

  /** A list of lists' elements include those of each of its lists. */
  lemma {:induction false} FlattenHolds(groups: seq<seq<string>>, k: nat)
    requires k < |groups|
    ensures multiset(groups[k]) <= multiset(Flatten(groups))
    ensures forall i :: 0 <= i < |groups[k]| ==> groups[k][i] in Flatten(groups)
    decreases k
  {
    if k > 0 {
      FlattenHolds(groups[1..], k - 1);
    }
  }

  /** No word is lost, duplicated or reordered: flattening the words of the
      chunks gives `text.split()`; in particular empty or white-space-only
      text gives no chunk. */
  lemma ChunkTextLossless(text: string, chunkSize: int)
    ensures Flatten(WordsEach(Chunks(text, chunkSize))) == Words(text)
    ensures Chunks(text, chunkSize) == [] <==> AllSpace(text)
  {
    var groups := WordGroups(text, chunkSize);
    ChunkWords(text, chunkSize);
    assert WordsEach(Chunks(text, chunkSize)) == groups;
    PackFlatten(Words(text), chunkSize, []);
    assert [] + Words(text) == Words(text);
    WordsEmpty(text);
    if groups == [] {
      assert Words(text) == Flatten(groups) == [];
    }
  }

  /** A chunk of two or more words has at most `chunkSize - 1` characters;
      only a single word can make a chunk longer. */
  lemma ChunkTextSize(text: string, chunkSize: int)
    ensures var chunks := Chunks(text, chunkSize);
      forall k :: 0 <= k < |chunks| && |Words(chunks[k])| >= 2 ==> |chunks[k]| <= chunkSize - 1
  {
    var groups := WordGroups(text, chunkSize);
    ChunkWords(text, chunkSize);
    PackFits(Words(text), chunkSize, []);
    forall k | 0 <= k < |groups| && |groups[k]| >= 2
      ensures |Join(groups[k], " ")| <= chunkSize - 1
    {
      WidthJoin(groups[k]);
    }
  }

  /** Packing is greedy: for consecutive chunks, the last chunk's length,
      a space, the next chunk's first word and its space would not have fit
      in `chunkSize`. */
  lemma ChunkTextGreedy(text: string, chunkSize: int)
    ensures var chunks := Chunks(text, chunkSize);
      forall k :: 0 < k < |chunks| ==>
        Words(chunks[k]) != [] && |chunks[k - 1]| + 1 + |Words(chunks[k])[0]| + 1 > chunkSize
  {
    var groups := WordGroups(text, chunkSize);
    ChunkWords(text, chunkSize);
    PackGreedy(Words(text), chunkSize, []);
    forall k | 0 < k < |groups|
      ensures |Join(groups[k - 1], " ")| + 1 + |groups[k][0]| + 1 > chunkSize
    {
      WidthJoin(groups[k - 1]);
    }
  }
}
