/** How `generate_audio` (backend/graph/nodes.py) cuts the podcast script
    into pieces for the speech service: a script over 4000 characters is
    split on ". " and its sentences are packed greedily, each followed by
    ". ", into chunks that are stripped of outer white space. */
module SpeechChunking {
  import opened PyText

  /** `max_chars`: the speech service's input ceiling. */
  const MaxChars := 4000

  /** The sentence separator, also appended after every packed sentence. */
  const SentenceBreak := ". "

  /** The text `current_chunk` holds after the sentences of `group` were
      added to it: each sentence followed by ". ". It is empty only for the
      empty group, and otherwise ends in ". ". */
  function Terminated(group: seq<string>): (r: string)
    ensures r == "" <==> group == []
    ensures group != [] ==> |r| >= 2 && r[|r| - 2] == '.' && r[|r| - 1] == ' '
  {
    if group == [] then ""
    else Terminated(group[..|group| - 1]) + group[|group| - 1] + SentenceBreak
  }

  /** The groups of consecutive sentences the loop closes, given the
      sentences it has still to visit and the group held in
      `current_chunk`. A sentence joins the current group while the
      group's text plus the sentence stays under `MaxChars`; otherwise the
      current group, even an empty one, is closed. */
  function Pack(sentences: seq<string>, current: seq<string>): seq<seq<string>>
    decreases |sentences|
  {
    if sentences == [] then
      if current == [] then [] else [current]
    else if |Terminated(current)| + |sentences[0]| < MaxChars then
      Pack(sentences[1..], current + [sentences[0]])
    else
      [current] + Pack(sentences[1..], [sentences[0]])
  }

  /** `script.split('. ')`. */
  function Sentences(script: string): (ss: seq<string>)
    ensures |ss| >= 1
  {
    Split(script, SentenceBreak)
  }

  /** The sentence groups behind the chunks of a long script. */
  function SentenceGroups(script: string): seq<seq<string>> {
    Pack(Sentences(script), [])
  }

  /** The chunk text of each group: its terminated text, stripped. */
  function StripEach(groups: seq<seq<string>>): (chunks: seq<string>)
    ensures |chunks| == |groups|
  {
    seq(|groups|, k requires 0 <= k < |groups| => Strip(Terminated(groups[k])))
  }

  /** `script_chunks` as `generate_audio` computes it. */
  function ScriptChunks(script: string): seq<string> {
    if |script| > MaxChars then StripEach(SentenceGroups(script)) else [script]
  }

  /** The texts of a list of groups, concatenated. */
  function TerminatedAll(groups: seq<seq<string>>): string {
    if groups == [] then "" else Terminated(groups[0]) + TerminatedAll(groups[1..])
  }

  /** The chunking of `generate_audio`: computes `ScriptChunks`, which is
      the whole script alone when it has at most `MaxChars` characters. */
  method SplitScript(script: string) returns (chunks: seq<string>)
    ensures chunks == ScriptChunks(script)
    ensures |script| <= MaxChars ==> chunks == [script]
  {
    if |script| > MaxChars {
      var sentences := Split(script, SentenceBreak);
      chunks := PackSentences(sentences);
    } else {
      chunks := [script];
    }
  }

  /** The sentence loop of `generate_audio`: the stripped texts of the
      sentence groups that `Pack` closes. */
  method PackSentences(sentences: seq<string>) returns (chunks: seq<string>)
    ensures chunks == StripEach(Pack(sentences, []))
  {
    var currentChunk := "";
    chunks := [];
    ghost var current: seq<string> := [];
    ghost var done: seq<seq<string>> := [];
    assert sentences[0..] == sentences;
    for i := 0 to |sentences|
      invariant currentChunk == Terminated(current)
      invariant done + Pack(sentences[i..], current) == Pack(sentences, [])
      invariant chunks == StripEach(done)
    {
      var sentence := sentences[i];
      if |currentChunk| + |sentence| < MaxChars {
        JoinStep(sentences, i, current, done, Pack(sentences, []));
        currentChunk := currentChunk + sentence + SentenceBreak;
        current := current + [sentence];
      } else {
        CloseStep(sentences, i, current, done, Pack(sentences, []));
        chunks := chunks + [Strip(currentChunk)];
        done := done + [current];
        currentChunk := sentence + SentenceBreak;
        current := [sentence];
      }
    }
    assert sentences[|sentences|..] == [];
    if currentChunk != "" {
      StripEachSnoc(done, current);
      chunks := chunks + [Strip(currentChunk)];
      done := done + [current];
    } else {
      assert done == done + [];
    }
  }

  /** One step of the packing loop: the next sentence joins the current
      group while the group's text plus the sentence stays under
      `MaxChars`, otherwise the current group is closed. */
  lemma PackStep(sentences: seq<string>, current: seq<string>)
    requires sentences != []
    ensures |Terminated(current)| + |sentences[0]| < MaxChars ==>
      Pack(sentences, current) == Pack(sentences[1..], current + [sentences[0]])
    ensures |Terminated(current)| + |sentences[0]| >= MaxChars ==>
      Pack(sentences, current) == [current] + Pack(sentences[1..], [sentences[0]])
  {
  }

  /** The loop invariant of `PackSentences` survives the next sentence
      joining the current group: the group's text grows by the sentence and
      ". ". */
  lemma JoinStep(sentences: seq<string>, i: nat, current: seq<string>, done: seq<seq<string>>, target: seq<seq<string>>)
    requires i < |sentences|
    requires done + Pack(sentences[i..], current) == target
    requires |Terminated(current)| + |sentences[i]| < MaxChars
    ensures done + Pack(sentences[i + 1..], current + [sentences[i]]) == target
    ensures Terminated(current + [sentences[i]]) == Terminated(current) + sentences[i] + SentenceBreak
  {
    PackStep(sentences[i..], current);
    assert sentences[i..][1..] == sentences[i + 1..];
    TerminatedSnoc(current, sentences[i]);
  }

  /** The loop invariant of `PackSentences` survives the next sentence
      closing the current group: the group's stripped text becomes the next
      chunk, and the sentence starts a new group. */
  lemma CloseStep(sentences: seq<string>, i: nat, current: seq<string>, done: seq<seq<string>>, target: seq<seq<string>>)
    requires i < |sentences|
    requires done + Pack(sentences[i..], current) == target
    requires |Terminated(current)| + |sentences[i]| >= MaxChars
    ensures (done + [current]) + Pack(sentences[i + 1..], [sentences[i]]) == target
    ensures StripEach(done + [current]) == StripEach(done) + [Strip(Terminated(current))]
    ensures Terminated([sentences[i]]) == sentences[i] + SentenceBreak
  {
    var rest := Pack(sentences[i + 1..], [sentences[i]]);
    PackStep(sentences[i..], current);
    assert sentences[i..][1..] == sentences[i + 1..];
    assert done + ([current] + rest) == (done + [current]) + rest;
    StripEachSnoc(done, current);
    TerminatedSingle(sentences[i]);
  }

  /** Adding a sentence to a group appends it and ". " to the group's text. */
  lemma TerminatedSnoc(group: seq<string>, sentence: string)
    ensures Terminated(group + [sentence]) == Terminated(group) + sentence + SentenceBreak
  {
    assert (group + [sentence])[..|group|] == group;
  }

  /** A group of one sentence has that sentence and ". " as its text. */
  lemma TerminatedSingle(sentence: string)
    ensures Terminated([sentence]) == sentence + SentenceBreak
  {
    assert [sentence][..0] == [];
  }

  /** Closing one more group appends its stripped text to the chunks. */
  lemma StripEachSnoc(groups: seq<seq<string>>, group: seq<string>)
    ensures StripEach(groups + [group]) == StripEach(groups) + [Strip(Terminated(group))]
  {
  }

  // ---------------------------------------------------------------------
  // Properties of the packing.

  /** Packing neither loses, duplicates nor reorders sentences. */
  lemma {:induction false} PackFlatten(sentences: seq<string>, current: seq<string>)
    ensures Flatten(Pack(sentences, current)) == current + sentences
    decreases |sentences|
  {
    if sentences == [] {
      assert current + [] == current;
    } else {
      var s, rest := sentences[0], sentences[1..];
      assert sentences == [s] + rest;
      PackFlatten(rest, current + [s]);
      PackFlatten(rest, [s]);
    }
  }

  /** The first group extends the current one. */
  lemma {:induction false} PackFirst(sentences: seq<string>, current: seq<string>)
    requires current != []
    ensures Pack(sentences, current) != []
    ensures |Pack(sentences, current)[0]| >= |current|
    ensures Pack(sentences, current)[0][..|current|] == current
    decreases |sentences|
  {
    if sentences != [] && |Terminated(current)| + |sentences[0]| < MaxChars {
      var next := current + [sentences[0]];
      PackFirst(sentences[1..], next);
      assert next[..|current|] == current;
    }
  }

  /** Only the first group can be empty, and only when packing starts from
      an empty current group. */
  lemma {:induction false} PackNonEmpty(sentences: seq<string>, current: seq<string>)
    ensures var groups := Pack(sentences, current);
      && (forall k :: 0 < k < |groups| ==> groups[k] != [])
      && (groups != [] && groups[0] == [] ==> current == [])
    decreases |sentences|
  {
    if sentences != [] {
      var s := sentences[0];
      if |Terminated(current)| + |s| < MaxChars {
        PackNonEmpty(sentences[1..], current + [s]);
      } else {
        PackNonEmpty(sentences[1..], [s]);
        PackFirst(sentences[1..], [s]);
      }
    }
  }

  /** Starting from an empty group, the first group is empty exactly when
      the first sentence alone reaches `MaxChars`. */
  lemma FirstGroupEmpty(sentences: seq<string>)
    requires sentences != []
    ensures Pack(sentences, []) != []
    ensures Pack(sentences, [])[0] == [] <==> |sentences[0]| >= MaxChars
  {
    if |sentences[0]| < MaxChars {
      PackFirst(sentences[1..], [sentences[0]]);
    }
  }

  /** A group of two or more sentences has text of at most `MaxChars + 1`
      characters, its trailing ". " included. */
  lemma {:induction false} PackFits(sentences: seq<string>, current: seq<string>)
    requires |current| >= 2 ==> |Terminated(current)| <= MaxChars + 1
    ensures forall k :: 0 <= k < |Pack(sentences, current)| && |Pack(sentences, current)[k]| >= 2 ==>
      |Terminated(Pack(sentences, current)[k])| <= MaxChars + 1
    decreases |sentences|
  {
    if sentences != [] {
      var s := sentences[0];
      if |Terminated(current)| + |s| < MaxChars {
        var next := current + [s];
        assert next[..|current|] == current;
        PackFits(sentences[1..], next);
      } else {
        PackFits(sentences[1..], [s]);
      }
    }
  }

  /** Every group after the first is non-empty, and its first sentence
      would have taken the previous group's text to `MaxChars` or more. */
  predicate Greedy(groups: seq<seq<string>>) {
    forall k :: 0 < k < |groups| ==> groups[k] != [] && |Terminated(groups[k - 1])| + |groups[k][0]| >= MaxChars
  }

  /** Packing is greedy: a group is closed only when the next sentence does
      not fit. */
  lemma {:induction false} PackGreedy(sentences: seq<string>, current: seq<string>)
    ensures Greedy(Pack(sentences, current))
    decreases |sentences|
  {
    if sentences != [] {
      var s := sentences[0];
      if |Terminated(current)| + |s| < MaxChars {
        PackGreedy(sentences[1..], current + [s]);
        assert Pack(sentences, current) == Pack(sentences[1..], current + [s]);
      } else {
        var rest := Pack(sentences[1..], [s]);
        var groups := [current] + rest;
        PackGreedy(sentences[1..], [s]);
        PackFirst(sentences[1..], [s]);
        assert rest[0][0] == s by {
          assert rest[0][..1] == [s];
        }
        forall k | 0 < k < |groups|
          ensures groups[k] != [] && |Terminated(groups[k - 1])| + |groups[k][0]| >= MaxChars
        {
          if k > 1 {
            assert groups[k] == rest[k - 1] && groups[k - 1] == rest[k - 2];
          }
        }
      }
    }
  }

  /** The texts of two lists of sentences, one after the other, are the text
      of the two lists together. */
  lemma {:induction false} TerminatedAppend(a: seq<string>, b: seq<string>)
    ensures Terminated(a + b) == Terminated(a) + Terminated(b)
    decreases |b|
  {
    if b != [] {
      var b' := b[..|b| - 1];
      TerminatedAppend(a, b');
      assert (a + b)[..|a + b| - 1] == a + b';
      assert b[..|b| - 1] == b';
    } else {
      assert a + b == a;
    }
  }

  /** Concatenating the texts of the groups is the text of all their
      sentences. */
  lemma {:induction false} TerminatedAllFlatten(groups: seq<seq<string>>)
    ensures TerminatedAll(groups) == Terminated(Flatten(groups))
    decreases |groups|
  {
    if groups != [] {
      TerminatedAllFlatten(groups[1..]);
      TerminatedAppend(groups[0], Flatten(groups[1..]));
    }
  }

  /** The text of a non-empty list of sentences is their ". "-join followed
      by one more ". ". */
  lemma {:induction false} TerminatedJoin(sentences: seq<string>)
    requires sentences != []
    ensures Terminated(sentences) == Join(sentences, SentenceBreak) + SentenceBreak
    decreases |sentences|
  {
    var s := sentences[0];
    assert Terminated([s]) == s + SentenceBreak by {
      assert [s][..0] == [];
    }
    if |sentences| > 1 {
      TerminatedJoin(sentences[1..]);
      TerminatedAppend([s], sentences[1..]);
      assert [s] + sentences[1..] == sentences;
    }
  }

  /** Splitting a long script loses nothing: its groups hold every sentence
      of `script.split('. ')` exactly once, in order, and their texts
      concatenate to the script followed by one more ". " (so the chunks,
      which are those texts stripped, do not simply concatenate back to the
      script). */
  lemma LongScriptLossless(script: string)
    requires |script| > MaxChars
    ensures Flatten(SentenceGroups(script)) == Sentences(script)
    ensures TerminatedAll(SentenceGroups(script)) == script + SentenceBreak
    ensures var chunks := ScriptChunks(script); var groups := SentenceGroups(script);
      |chunks| == |groups| && forall k :: 0 <= k < |chunks| ==> chunks[k] == Strip(Terminated(groups[k]))
  {
    var sentences := Sentences(script);
    PackFlatten(sentences, []);
    assert [] + sentences == sentences;
    TerminatedAllFlatten(SentenceGroups(script));
    TerminatedJoin(sentences);
    JoinSplit(script, SentenceBreak);
  }

  /** A script over `MaxChars` characters is always cut: it gives at least
      two chunks (one of which may be empty). */
  lemma LongScriptSeveralChunks(script: string)
    requires |script| > MaxChars
    ensures |ScriptChunks(script)| >= 2
  {
    var sentences := Sentences(script);
    LongScriptLossless(script);
    FirstGroupEmpty(sentences);
    PackFits(sentences, []);
    JoinSplit(script, SentenceBreak);
  }

  /** A long script gives at least one chunk; the first is empty exactly
      when the first sentence has `MaxChars` characters or more, and every
      later chunk is non-empty. */
  lemma LongScriptEmptyChunks(script: string)
    requires |script| > MaxChars
    ensures var chunks := ScriptChunks(script);
      && |chunks| >= 1
      && (chunks[0] == "" <==> |Sentences(script)[0]| >= MaxChars)
      && (forall k :: 0 < k < |chunks| ==> chunks[k] != "")
  {
    var sentences := Sentences(script);
    var groups := SentenceGroups(script);
    FirstGroupEmpty(sentences);
    PackNonEmpty(sentences, []);
    forall k | 0 <= k < |groups|
      ensures Strip(Terminated(groups[k])) == "" <==> groups[k] == []
    {
      ChunkOfGroup(groups[k]);
    }
  }

  /** In a long script, a chunk made of two or more sentences has at most
      `MaxChars` characters; only a single sentence can exceed it. */
  lemma LongScriptChunkSize(script: string)
    requires |script| > MaxChars
    ensures var chunks := ScriptChunks(script); var groups := SentenceGroups(script);
      forall k :: 0 <= k < |chunks| && |groups[k]| >= 2 ==> |chunks[k]| <= MaxChars
  {
    var groups := SentenceGroups(script);
    PackFits(Sentences(script), []);
    forall k | 0 <= k < |groups| && |groups[k]| >= 2
      ensures |Strip(Terminated(groups[k]))| <= MaxChars
    {
      ChunkOfGroup(groups[k]);
    }
  }

  /** In a long script, every chunk after the first starts a new group only
      because its first sentence did not fit: the previous group's text plus
      that sentence reaches `MaxChars`. */
  lemma LongScriptGreedy(script: string)
    requires |script| > MaxChars
    ensures Greedy(SentenceGroups(script))
  {
    PackGreedy(Sentences(script), []);
  }

  /** A group's chunk is empty exactly when the group is, and is at least
      one character shorter than the group's text. */
  lemma ChunkOfGroup(group: seq<string>)
    ensures Strip(Terminated(group)) == "" <==> group == []
    ensures group != [] ==> |Strip(Terminated(group))| < |Terminated(group)|
  {
    StripFacts(Terminated(group));
    var t := Terminated(group);
    if group != [] {
      assert !IsSpace(t[|t| - 2]);
      StripShortensTrailingSpace(t);
    }
  }
}
