/** The four stages of backend/graph/nodes.py. Each reads the shared
    record, makes one external call (the language model, or the speech
    service once per chunk) and, when the call succeeds, writes its output
    field and `current_step`; when the call raises, it writes only a
    stage-tagged `error`. The external calls are parameters: `Llm` answers a
    prompt, `Tts` answers a speech request, each with content or with the
    message of the exception it raised. */
module Nodes {
  import opened PyText
  import opened State
  import SpeechChunking

  /** The prompt templates of backend/utils/prompts.py, kept opaque: a
      prompt is identified by what its template is formatted with. */
  datatype Prompt =
    | SummarizePrompt(text: string)
    | KeyPointsPrompt(text: string)
    | ScriptPrompt(summary: string, keyPoints: string)

  /** The chat model: a prompt's response content, or the exception message. */
  type Llm = Prompt -> Reply<string>

  /** A call to the speech service. */
  datatype SpeechRequest = SpeechRequest(model: string, voice: string, input: string)

  /** The speech service: the encoded audio, or the exception message. */
  type Tts = SpeechRequest -> Reply<Audio>

  /** `config.TTS_MODEL` and `config.TTS_VOICE`. */
  const TtsModel := "tts-1"
  const TtsVoice := "alloy"

  /** How many leading characters of the document the summary prompt sees. */
  const SummaryInputLimit := 10000

  /** The prefixes of the error each stage records. */
  const SummarizationError := "Summarization error: "
  const KeyPointsError := "Key points extraction error: "
  const ScriptError := "Script generation error: "
  const AudioError := "Audio generation error: "

  // ---------------------------------------------------------------------
  // Stage 1: summarize_content.

  /** `pdf_text[:10000]`: the first 10000 characters, or the whole text
      when it is no longer, with nothing appended. */
  function Truncate(text: string): (t: string)
    ensures t <= text
    ensures |text| <= SummaryInputLimit ==> t == text
    ensures |text| > SummaryInputLimit ==> |t| == SummaryInputLimit
  {
    if |text| <= SummaryInputLimit then text else text[..SummaryInputLimit]
  }

  function SummarizeReply(s: Snapshot, llm: Llm): Reply<string> {
    llm(SummarizePrompt(Truncate(s.pdfText)))
  }

  function SummarizeStep(s: Snapshot, llm: Llm): Snapshot {
    match SummarizeReply(s, llm)
    case Ok(content) => s.(summary := content, currentStep := "summarize_complete")
    case Err(e) => s.(error := Some(SummarizationError + e))
  }

  method SummarizeContent(state: PodcastState, llm: Llm)
    modifies state
    ensures state.Value() == SummarizeStep(old(state.Value()), llm)
  {
    var reply := llm(SummarizePrompt(Truncate(state.pdfText)));
    match reply
    case Ok(content) =>
      state.summary := content;
      state.currentStep := "summarize_complete";
    case Err(e) =>
      state.error := Some(SummarizationError + e);
  }

  // ---------------------------------------------------------------------
  // Stage 2: extract_key_points.

  /** The comprehension's filter `if point.strip()` drops the line: it is
      empty or all white space (`StripFacts`). */
  predicate IsBlank(line: string) {
    Strip(line) == ""
  }

  /** A non-empty string with no white space at either end. */
  predicate IsPoint(p: string) {
    p != "" && !IsSpace(p[0]) && !IsSpace(p[|p| - 1])
  }

  /** The lines that are not blank, each stripped, in order. */
  function StrippedNonBlank(lines: seq<string>): seq<string> {
    if lines == [] then []
    else if !IsBlank(lines[0]) then [Strip(lines[0])] + StrippedNonBlank(lines[1..])
    else StrippedNonBlank(lines[1..])
  }

  /** A line that is not blank strips to a non-empty string with no outer
      white space. */
  lemma NonBlankStripsToPoint(line: string)
    requires !IsBlank(line)
    ensures IsPoint(Strip(line))
  {
    StripFacts(line);
  }

  /** Every key point is a non-empty string with no outer white space. */
  lemma {:induction false} StrippedNonBlankArePoints(lines: seq<string>)
    ensures forall j :: 0 <= j < |StrippedNonBlank(lines)| ==> IsPoint(StrippedNonBlank(lines)[j])
  {
    if lines != [] {
      StrippedNonBlankArePoints(lines[1..]);
      var tail := StrippedNonBlank(lines[1..]);
      if !IsBlank(lines[0]) {
        NonBlankStripsToPoint(lines[0]);
        var points := [Strip(lines[0])] + tail;
        assert StrippedNonBlank(lines) == points;
        forall j | 0 <= j < |points| ensures IsPoint(points[j]) {
          if j > 0 {
            assert points[j] == tail[j - 1];
          }
        }
      }
    }
  }

  /** `[p.strip() for p in content.split('\n') if p.strip()]`. */
  function KeyPoints(content: string): seq<string> {
    StrippedNonBlank(Split(content, "\n"))
  }

  /** Which lines are not blank. */
  function NonBlankFlags(lines: seq<string>): (keep: seq<bool>)
    ensures |keep| == |lines|
    ensures forall i :: 0 <= i < |lines| ==> keep[i] == !IsBlank(lines[i])
  {
    seq(|lines|, i requires 0 <= i < |lines| => !IsBlank(lines[i]))
  }

  /** The positions, from `from` on, whose flag is set, first to last. */
  function Kept(keep: seq<bool>, from: nat): seq<nat>
    requires from <= |keep|
    decreases |keep| - from
  {
    if from == |keep| then []
    else if keep[from] then [from] + Kept(keep, from + 1)
    else Kept(keep, from + 1)
  }

  /** `idx` lists, in increasing order and each once, exactly the positions
      from `from` on whose flag is set. */
  predicate ListsKept(keep: seq<bool>, from: nat, idx: seq<nat>) {
    && (forall j :: 0 <= j < |idx| ==> from <= idx[j] < |keep| && keep[idx[j]])
    && (forall j, k :: 0 <= j < k < |idx| ==> idx[j] < idx[k])
    && (forall i :: from <= i < |keep| && keep[i] ==> i in idx)
  }

  lemma {:induction false} KeptCorrect(keep: seq<bool>, from: nat)
    requires from <= |keep|
    ensures ListsKept(keep, from, Kept(keep, from))
    decreases |keep| - from
  {
    if from < |keep| {
      KeptCorrect(keep, from + 1);
    }
  }

  /** The key points are the non-blank lines of the response, stripped, in
      response order: `Kept(NonBlankFlags(lines), 0)` lists the positions
      of the non-blank lines, and the j-th key point is the line at the
      j-th of them, stripped; so there are as many key points as non-blank
      lines. */
  lemma {:induction false} KeyPointsFollowLines(lines: seq<string>, from: nat)
    requires from <= |lines|
    ensures var points := StrippedNonBlank(lines[from..]); var idx := Kept(NonBlankFlags(lines), from);
      && |points| == |idx|
      && forall j :: 0 <= j < |points| ==> idx[j] < |lines| && points[j] == Strip(lines[idx[j]])
    decreases |lines| - from
  {
    var keep := NonBlankFlags(lines);
    KeptCorrect(keep, from);
    if from < |lines| {
      KeyPointsFollowLines(lines, from + 1);
      StrippedNonBlankStep(lines, from);
      var points := StrippedNonBlank(lines[from..]);
      var tail := StrippedNonBlank(lines[from + 1..]);
      var idx := Kept(keep, from);
      var idxTail := Kept(keep, from + 1);
      if keep[from] {
        assert points == [Strip(lines[from])] + tail;
        assert idx == [from] + idxTail;
        forall j | 0 <= j < |points| ensures idx[j] < |lines| && points[j] == Strip(lines[idx[j]]) {
          if j > 0 {
            assert points[j] == tail[j - 1] && idx[j] == idxTail[j - 1];
          }
        }
      } else {
        assert points == tail;
        assert idx == idxTail;
      }
    }
  }

  /** Stage 2's parse of a reply: with `idx` the positions of the reply's
      non-blank lines, in order, the j-th key point is the line at `idx[j]`
      stripped, and nothing else is a key point. */
  lemma KeyPointsAreNonBlankLines(content: string)
    ensures var lines := Split(content, "\n"); var keep := NonBlankFlags(lines);
      var idx := Kept(keep, 0); var points := KeyPoints(content);
      && ListsKept(keep, 0, idx)
      && |points| == |idx|
      && forall j :: 0 <= j < |points| ==> idx[j] < |lines| && points[j] == Strip(lines[idx[j]])
  {
    var lines := Split(content, "\n");
    KeptCorrect(NonBlankFlags(lines), 0);
    KeyPointsFollowLines(lines, 0);
    assert lines[0..] == lines;
  }

  /** One line of the comprehension: a non-blank line contributes its
      stripped self, a blank one nothing. */
  lemma StrippedNonBlankStep(lines: seq<string>, from: nat)
    requires from < |lines|
    ensures StrippedNonBlank(lines[from..])
      == (if IsBlank(lines[from]) then [] else [Strip(lines[from])]) + StrippedNonBlank(lines[from + 1..])
  {
    var rest := lines[from..];
    assert rest[1..] == lines[from + 1..];
  }

  function KeyPointsReply(s: Snapshot, llm: Llm): Reply<string> {
    llm(KeyPointsPrompt(s.summary))
  }

  function ExtractKeyPointsStep(s: Snapshot, llm: Llm): Snapshot {
    match KeyPointsReply(s, llm)
    case Ok(content) => s.(keyPoints := KeyPoints(content), currentStep := "key_points_complete")
    case Err(e) => s.(error := Some(KeyPointsError + e))
  }

  method ExtractKeyPoints(state: PodcastState, llm: Llm)
    modifies state
    ensures state.Value() == ExtractKeyPointsStep(old(state.Value()), llm)
  {
    var reply := llm(KeyPointsPrompt(state.summary));
    match reply
    case Ok(keyPointsText) =>
      state.keyPoints := KeyPoints(keyPointsText);
      state.currentStep := "key_points_complete";
    case Err(e) =>
      state.error := Some(KeyPointsError + e);
  }

  // ---------------------------------------------------------------------
  // Stage 3: generate_script.

  function ScriptReply(s: Snapshot, llm: Llm): Reply<string> {
    llm(ScriptPrompt(s.summary, Join(s.keyPoints, "\n")))
  }

  function GenerateScriptStep(s: Snapshot, llm: Llm): Snapshot {
    match ScriptReply(s, llm)
    case Ok(content) => s.(podcastScript := content, currentStep := "script_complete")
    case Err(e) => s.(error := Some(ScriptError + e))
  }

  method GenerateScript(state: PodcastState, llm: Llm)
    modifies state
    ensures state.Value() == GenerateScriptStep(old(state.Value()), llm)
  {
    var keyPointsStr := Join(state.keyPoints, "\n");
    var reply := llm(ScriptPrompt(state.summary, keyPointsStr));
    match reply
    case Ok(content) =>
      state.podcastScript := content;
      state.currentStep := "script_complete";
    case Err(e) =>
      state.error := Some(ScriptError + e);
  }

  /** The key points joined with "\n" hold every point, in order: splitting
      on "\n" gives them back whenever no point itself holds a "\n" (which
      holds of the points stage 2 produces). */
  lemma {:induction false} KeyPointsJoinRoundTrip(points: seq<string>)
    requires points != []
    requires forall j :: 0 <= j < |points| ==> '\n' !in points[j]
    ensures Split(Join(points, "\n"), "\n") == points
    decreases |points|
  {
    var p := points[0];
    if |points| == 1 {
      SplitWithout(p, "");
      assert p + "" == p;
    } else {
      KeyPointsJoinRoundTrip(points[1..]);
      var rest := Join(points[1..], "\n");
      SplitWithout(p, "\n" + rest);
      assert p + "\n" + rest == p + ("\n" + rest);
      var after := Split("\n" + rest, "\n");
      assert after == [""] + points[1..] by {
        assert ("\n" + rest)[..1] == "\n" && ("\n" + rest)[1..] == rest;
      }
      assert Join(points, "\n") == p + ("\n" + rest);
      assert p + after[0] == p;
      assert after[1..] == points[1..];
      assert [p] + points[1..] == points;
    }
  }

  /** A piece without a line break, followed by a line break or nothing,
      splits off as the first line. */
  lemma {:induction false} SplitWithout(p: string, rest: string)
    requires '\n' !in p
    requires rest == [] || rest[0] == '\n'
    ensures Split(p + rest, "\n") == if rest == [] then [p] else [p + Split(rest, "\n")[0]] + Split(rest, "\n")[1..]
    ensures rest != [] ==> Split(rest, "\n")[0] == ""
    decreases |p|
  {
    if rest != [] {
      SplitAtBreak(rest);
    }
    if p == [] {
      assert p + rest == rest;
    } else {
      SplitWithout(p[1..], rest);
      SplitAtOther(p[0], p[1..] + rest);
      assert p + rest == [p[0]] + (p[1..] + rest);
      if rest == [] {
        assert [p[0]] + p[1..] == p;
      } else {
        assert [p[0]] + (p[1..] + Split(rest, "\n")[0]) == p + Split(rest, "\n")[0];
      }
    }
  }

  /** A leading line break ends an empty first line. */
  lemma SplitAtBreak(rest: string)
    requires rest != [] && rest[0] == '\n'
    ensures Split(rest, "\n") == [""] + Split(rest[1..], "\n")
  {
    assert rest[..1] == "\n";
  }

  /** A leading character other than a line break starts the first line. */
  lemma SplitAtOther(c: char, t: string)
    requires c != '\n'
    ensures Split([c] + t, "\n") == [[c] + Split(t, "\n")[0]] + Split(t, "\n")[1..]
  {
    var s := [c] + t;
    assert s[..1] == [c];
    assert s[1..] == t;
  }

  /** No piece of `s.split('\n')` holds a line break. */
  lemma LinesHaveNoBreak(s: string)
    ensures forall j :: 0 <= j < |Split(s, "\n")| ==> '\n' !in Split(s, "\n")[j]
  {
    var lines := Split(s, "\n");
    SplitPiecesAvoidSep(s, "\n");
    forall j | 0 <= j < |lines| ensures '\n' !in lines[j] {
      if '\n' in lines[j] {
        var i :| 0 <= i < |lines[j]| && lines[j][i] == '\n';
        assert lines[j][i..i + 1] == "\n";
        assert OccursAt("\n", lines[j], i);
      }
    }
  }

  /** Stripping a line adds no character to it. */
  lemma StripKeepsNoBreak(line: string)
    requires '\n' !in line
    ensures '\n' !in Strip(line)
  {
    StripBounds(line);
  }

  /** The non-blank lines, stripped, hold no line break when the lines hold
      none. */
  lemma {:induction false} StrippedNonBlankNoBreak(lines: seq<string>)
    requires forall i :: 0 <= i < |lines| ==> '\n' !in lines[i]
    ensures forall j :: 0 <= j < |StrippedNonBlank(lines)| ==> '\n' !in StrippedNonBlank(lines)[j]
  {
    if lines != [] {
      StrippedNonBlankNoBreak(lines[1..]);
      var tail := StrippedNonBlank(lines[1..]);
      if !IsBlank(lines[0]) {
        StripKeepsNoBreak(lines[0]);
        var points := [Strip(lines[0])] + tail;
        assert StrippedNonBlank(lines) == points;
        forall j | 0 <= j < |points| ensures '\n' !in points[j] {
          if j > 0 {
            assert points[j] == tail[j - 1];
          }
        }
      }
    }
  }

  /** The key points stage 2 stores reach stage 3's prompt intact: joining
      them with "\n" and splitting the result on "\n" gives back exactly
      the list, point for point. */
  lemma KeyPointsSurviveJoin(content: string)
    requires KeyPoints(content) != []
    ensures Split(Join(KeyPoints(content), "\n"), "\n") == KeyPoints(content)
  {
    LinesHaveNoBreak(content);
    StrippedNonBlankNoBreak(Split(content, "\n"));
    KeyPointsJoinRoundTrip(KeyPoints(content));
  }

  // ---------------------------------------------------------------------
  // Stage 4: generate_audio.

  /** The speech request for one chunk. */
  function SpeechFor(chunk: string): SpeechRequest {
    SpeechRequest(TtsModel, TtsVoice, chunk)
  }

  /** Synthesizing `chunks[i..]` after the segments `acc`: stops at the
      first chunk whose request fails and reports that failure; otherwise
      gives `acc` followed by one segment per remaining chunk, in order. */
  function SynthesizeFrom(chunks: seq<string>, tts: Tts, i: nat, acc: seq<Audio>): (r: Reply<seq<Audio>>)
    requires i <= |chunks|
    ensures r.Ok? <==> forall j :: i <= j < |chunks| ==> tts(SpeechFor(chunks[j])).Ok?
    ensures r.Ok? ==>
      && |r.value| == |acc| + |chunks| - i
      && r.value[..|acc|] == acc
      && forall j :: i <= j < |chunks| ==> tts(SpeechFor(chunks[j])) == Ok(r.value[|acc| + j - i])
    ensures r.Err? ==>
      exists j :: i <= j < |chunks| && tts(SpeechFor(chunks[j])) == Err(r.message)
        && (forall j' :: i <= j' < j ==> tts(SpeechFor(chunks[j'])).Ok?)
    decreases |chunks| - i
  {
    if i == |chunks| then Ok(acc)
    else
      match tts(SpeechFor(chunks[i]))
      case Err(e) => Err(e)
      case Ok(segment) =>
        var r := SynthesizeFrom(chunks, tts, i + 1, acc + [segment]);
        assert r.Ok? ==> r.value[..|acc|] == (acc + [segment])[..|acc|];
        r
  }

  /** One segment per chunk, in chunk order, or the message of the first
      chunk whose request failed. */
  function Synthesize(chunks: seq<string>, tts: Tts): Reply<seq<Audio>> {
    SynthesizeFrom(chunks, tts, 0, [])
  }

  /** The speech loop of `generate_audio`. */
  method SynthesizeSegments(chunks: seq<string>, tts: Tts) returns (r: Reply<seq<Audio>>)
    ensures r == Synthesize(chunks, tts)
  {
    var audioSegments: seq<Audio> := [];
    var i := 0;
    while i < |chunks|
      invariant i <= |chunks|
      invariant SynthesizeFrom(chunks, tts, i, audioSegments) == Synthesize(chunks, tts)
    {
      var response := tts(SpeechFor(chunks[i]));
      if response.Err? {
        return Err(response.message);
      }
      audioSegments := audioSegments + [response.value];
      i := i + 1;
    }
    return Ok(audioSegments);
  }

  /** `final_audio` from the segments: the segment itself when there is one,
      otherwise `b''.join(segments)`; either way their concatenation. */
  function Combine(segments: seq<Audio>): (audio: Audio)
    ensures audio == Flatten(segments)
  {
    if |segments| == 1 then
      assert Flatten(segments) == segments[0] + [];
      segments[0]
    else Flatten(segments)
  }

  function AudioReply(s: Snapshot, tts: Tts): Reply<seq<Audio>> {
    Synthesize(SpeechChunking.ScriptChunks(s.podcastScript), tts)
  }

  function GenerateAudioStep(s: Snapshot, tts: Tts): Snapshot {
    match AudioReply(s, tts)
    case Ok(segments) =>
      s.(audioSegments := segments, finalAudio := Some(Combine(segments)), currentStep := "audio_complete")
    case Err(e) => s.(error := Some(AudioError + e))
  }

  method GenerateAudio(state: PodcastState, tts: Tts)
    modifies state
    ensures state.Value() == GenerateAudioStep(old(state.Value()), tts)
  {
    var script := state.podcastScript;
    var scriptChunks := SpeechChunking.SplitScript(script);
    var reply := SynthesizeSegments(scriptChunks, tts);
    match reply
    case Ok(audioSegments) =>
      state.audioSegments := audioSegments;
      if |audioSegments| == 1 {
        state.finalAudio := Some(audioSegments[0]);
      } else {
        state.finalAudio := Some(Flatten(audioSegments));
      }
      state.currentStep := "audio_complete";
    case Err(e) =>
      state.error := Some(AudioError + e);
  }

  /** When every chunk's speech request succeeds, stage 4 stores one
      segment per chunk, in chunk order, sets `final_audio` to their
      concatenation and the step to "audio_complete", and changes nothing
      else. */
  lemma AudioStepSucceeds(s: Snapshot, tts: Tts)
    requires var chunks := SpeechChunking.ScriptChunks(s.podcastScript);
      forall j :: 0 <= j < |chunks| ==> tts(SpeechFor(chunks[j])).Ok?
    ensures var chunks := SpeechChunking.ScriptChunks(s.podcastScript); var r := GenerateAudioStep(s, tts);
      && |r.audioSegments| == |chunks|
      && (forall j :: 0 <= j < |chunks| ==> tts(SpeechFor(chunks[j])) == Ok(r.audioSegments[j]))
      && r.finalAudio == Some(Flatten(r.audioSegments))
      && r.currentStep == "audio_complete"
      && r == s.(audioSegments := r.audioSegments, finalAudio := r.finalAudio, currentStep := r.currentStep)
  {
    var reply := Synthesize(SpeechChunking.ScriptChunks(s.podcastScript), tts);
    assert reply.value[..0] == [];
  }

  /** When some chunk's speech request fails, stage 4 records the message
      of the first failing chunk, tagged, in `error`, and changes nothing
      else: no partial segments are kept. */
  lemma AudioStepFails(s: Snapshot, tts: Tts)
    requires var chunks := SpeechChunking.ScriptChunks(s.podcastScript);
      exists j :: 0 <= j < |chunks| && tts(SpeechFor(chunks[j])).Err?
    ensures var chunks := SpeechChunking.ScriptChunks(s.podcastScript); var r := GenerateAudioStep(s, tts);
      exists j :: 0 <= j < |chunks| && tts(SpeechFor(chunks[j])).Err?
        && (forall j' :: 0 <= j' < j ==> tts(SpeechFor(chunks[j'])).Ok?)
        && r == s.(error := Some(AudioError + tts(SpeechFor(chunks[j])).message))
  {
    var chunks := SpeechChunking.ScriptChunks(s.podcastScript);
    var j := FirstFailure(chunks, tts);
    assert GenerateAudioStep(s, tts) == s.(error := Some(AudioError + tts(SpeechFor(chunks[j])).message));
  }

  /** When some request fails, synthesis reports the first failing chunk,
      `j`, and every chunk before it succeeded. */
  lemma FirstFailure(chunks: seq<string>, tts: Tts) returns (j: nat)
    requires exists j :: 0 <= j < |chunks| && tts(SpeechFor(chunks[j])).Err?
    ensures j < |chunks| && tts(SpeechFor(chunks[j])) == Err(Synthesize(chunks, tts).message)
    ensures Synthesize(chunks, tts).Err?
    ensures forall j' :: 0 <= j' < j ==> tts(SpeechFor(chunks[j'])).Ok?
  {
    var reply := Synthesize(chunks, tts);
    j :| 0 <= j < |chunks| && tts(SpeechFor(chunks[j])) == Err(reply.message)
      && (forall j' :: 0 <= j' < j ==> tts(SpeechFor(chunks[j'])).Ok?);
  }
}
