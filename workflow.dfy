/** The podcast workflow of backend/graph/workflow.py: a graph with one
    node per stage, entered at "summarize" and followed by "extract_points",
    "generate_script", "generate_audio" and END, run from the initial record
    of `run_podcast_generation`. The graph never branches on `error`, so
    running it is the sequential composition of the four stages. */
module Workflow {
  import opened PyText
  import opened State
  import Nodes
  import SpeechChunking

  /** The graph's nodes, by the name each was added under. */
  datatype Node = Summarize | ExtractPoints | GenerateScript | GenerateAudio

  /** `set_entry_point`. */
  const Entry: Node := Summarize

  /** The `add_edge` relation: the node that follows, or None for END. */
  function Next(n: Node): Option<Node> {
    match n
    case Summarize => Some(ExtractPoints)
    case ExtractPoints => Some(GenerateScript)
    case GenerateScript => Some(GenerateAudio)
    case GenerateAudio => None
  }

  /** The nodes in the order the graph visits them. */
  const Order: seq<Node> := [Summarize, ExtractPoints, GenerateScript, GenerateAudio]

  /** `Order` is the walk along the edges from the entry point to END: it
      starts at the entry, each node is followed by its successor, the last
      one leads to END, and every node is visited exactly once. */
  lemma OrderFollowsEdges()
    ensures |Order| == 4 && Order[0] == Entry
    ensures forall i :: 0 <= i < |Order| - 1 ==> Next(Order[i]) == Some(Order[i + 1])
    ensures Next(Order[|Order| - 1]) == None
    ensures forall n: Node :: n in Order
    ensures forall i, j :: 0 <= i < j < |Order| ==> Order[i] != Order[j]
  {
    forall n: Node ensures n in Order {
      match n
      case Summarize => assert Order[0] == n;
      case ExtractPoints => assert Order[1] == n;
      case GenerateScript => assert Order[2] == n;
      case GenerateAudio => assert Order[3] == n;
    }
  }

  /** The function a node was added with. */
  function Run(n: Node, s: Snapshot, llm: Nodes.Llm, tts: Nodes.Tts): Snapshot {
    match n
    case Summarize => Nodes.SummarizeStep(s, llm)
    case ExtractPoints => Nodes.ExtractKeyPointsStep(s, llm)
    case GenerateScript => Nodes.GenerateScriptStep(s, llm)
    case GenerateAudio => Nodes.GenerateAudioStep(s, tts)
  }

  /** The error a node records when its external call fails, or None when
      the call succeeds. */
  function Failure(n: Node, s: Snapshot, llm: Nodes.Llm, tts: Nodes.Tts): Option<string> {
    match n
    case Summarize => Tagged(Nodes.SummarizationError, Nodes.SummarizeReply(s, llm))
    case ExtractPoints => Tagged(Nodes.KeyPointsError, Nodes.KeyPointsReply(s, llm))
    case GenerateScript => Tagged(Nodes.ScriptError, Nodes.ScriptReply(s, llm))
    case GenerateAudio => Tagged(Nodes.AudioError, Nodes.AudioReply(s, tts))
  }

  function Tagged<T>(prefix: string, reply: Reply<T>): (e: Option<string>)
    ensures e.None? <==> reply.Ok?
  {
    if reply.Ok? then None else Some(prefix + reply.message)
  }

  /** The `current_step` a node writes when it completes. */
  function CompleteLabel(n: Node): string {
    match n
    case Summarize => "summarize_complete"
    case ExtractPoints => "key_points_complete"
    case GenerateScript => "script_complete"
    case GenerateAudio => "audio_complete"
  }

  /** What one node does to the record, in terms of whether its call
      failed: a failing node writes its tagged error and nothing else; a
      succeeding one keeps `error` and writes its completion label. Neither
      touches the document text. */
  lemma RunOutcome(n: Node, s: Snapshot, llm: Nodes.Llm, tts: Nodes.Tts)
    ensures var r := Run(n, s, llm, tts);
      && r.pdfText == s.pdfText
      && (Failure(n, s, llm, tts).Some? ==> r == s.(error := Failure(n, s, llm, tts)))
      && (Failure(n, s, llm, tts).None? ==> r.error == s.error && r.currentStep == CompleteLabel(n))
  {
  }

  /** Running the nodes one after the other, each on the record the
      previous one left. */
  function RunAll(nodes: seq<Node>, s: Snapshot, llm: Nodes.Llm, tts: Nodes.Tts): Snapshot
    decreases |nodes|
  {
    if nodes == [] then s else RunAll(nodes[1..], Run(nodes[0], s, llm, tts), llm, tts)
  }

  /** `run_podcast_generation(pdf_text)`: the graph run from the initial
      record. */
  function Pipeline(pdfText: string, llm: Nodes.Llm, tts: Nodes.Tts): Snapshot {
    RunAll(Order, Initial(pdfText), llm, tts)
  }

  /** Each node's failure, in the order the nodes run, each judged on the
      record the node actually receives. */
  function Failures(nodes: seq<Node>, s: Snapshot, llm: Nodes.Llm, tts: Nodes.Tts): (fs: seq<Option<string>>)
    ensures |fs| == |nodes|
    decreases |nodes|
  {
    if nodes == [] then []
    else [Failure(nodes[0], s, llm, tts)] + Failures(nodes[1..], Run(nodes[0], s, llm, tts), llm, tts)
  }

  /** Each node's completion label when its call succeeds, None when it
      fails, in the order the nodes run. */
  function Completions(nodes: seq<Node>, s: Snapshot, llm: Nodes.Llm, tts: Nodes.Tts): (cs: seq<Option<string>>)
    ensures |cs| == |nodes|
    decreases |nodes|
  {
    if nodes == [] then []
    else
      var c := if Failure(nodes[0], s, llm, tts).None? then Some(CompleteLabel(nodes[0])) else None;
      [c] + Completions(nodes[1..], Run(nodes[0], s, llm, tts), llm, tts)
  }

  /** The value of a field that each entry of `updates` overwrites when it
      is Some, starting from `start`. */
  function Latest(updates: seq<Option<string>>, start: Option<string>): Option<string>
    decreases |updates|
  {
    if updates == [] then start
    else Latest(updates[1..], if updates[0].Some? then updates[0] else start)
  }

  /** `Latest` is the last Some entry, or `start` when every entry is None. */
  lemma {:induction false} LatestIsLast(updates: seq<Option<string>>, start: Option<string>)
    ensures (forall j :: 0 <= j < |updates| ==> updates[j].None?) ==> Latest(updates, start) == start
    ensures forall j :: 0 <= j < |updates| && updates[j].Some? && (forall k :: j < k < |updates| ==> updates[k].None?) ==>
              Latest(updates, start) == updates[j]
    decreases |updates|
  {
    if updates != [] {
      var next := if updates[0].Some? then updates[0] else start;
      LatestIsLast(updates[1..], next);
      forall j | 0 <= j < |updates| && updates[j].Some? && (forall k :: j < k < |updates| ==> updates[k].None?)
        ensures Latest(updates, start) == updates[j]
      {
        if j > 0 {
          assert updates[1..][j - 1] == updates[j];
          assert forall k :: j - 1 < k < |updates| - 1 ==> updates[1..][k] == updates[k + 1];
        } else {
          assert forall k :: 0 <= k < |updates| - 1 ==> updates[1..][k] == updates[k + 1];
        }
      }
    }
  }

  /** A field that some entry sets is Some afterwards, whatever it started as. */
  lemma {:induction false} LatestKeepsSome(updates: seq<Option<string>>, start: Option<string>)
    ensures Latest(updates, start).None? <==> start.None? && forall j :: 0 <= j < |updates| ==> updates[j].None?
    decreases |updates|
  {
    if updates != [] {
      LatestKeepsSome(updates[1..], if updates[0].Some? then updates[0] else start);
      assert forall j :: 1 <= j < |updates| ==> updates[j] == updates[1..][j - 1];
    }
  }

  /** After running a sequence of nodes: the document text is unchanged,
      `error` holds the error of the last node whose call failed (or what it
      held before, when none failed), and `current_step` the label of the
      last node whose call succeeded (or what it held before). Nodes after a
      failure still run. */
  lemma {:induction false} RunAllOutcome(nodes: seq<Node>, s: Snapshot, llm: Nodes.Llm, tts: Nodes.Tts)
    ensures var r := RunAll(nodes, s, llm, tts);
      && r.pdfText == s.pdfText
      && r.error == Latest(Failures(nodes, s, llm, tts), s.error)
      && Some(r.currentStep) == Latest(Completions(nodes, s, llm, tts), Some(s.currentStep))
    decreases |nodes|
  {
    if nodes != [] {
      var n := nodes[0];
      RunOutcome(n, s, llm, tts);
      RunAllOutcome(nodes[1..], Run(n, s, llm, tts), llm, tts);
    }
  }

  /** The final record keeps the document text, and its `error` is None
      exactly when none of the four calls failed; otherwise it is the error
      of the last failing stage, even when stages after it succeeded. */
  lemma PipelineError(pdfText: string, llm: Nodes.Llm, tts: Nodes.Tts)
    ensures var r := Pipeline(pdfText, llm, tts); var fs := Failures(Order, Initial(pdfText), llm, tts);
      && r.pdfText == pdfText
      && (r.error.None? <==> forall j :: 0 <= j < |fs| ==> fs[j].None?)
      && (forall j :: 0 <= j < |fs| && fs[j].Some? && (forall k :: j < k < |fs| ==> fs[k].None?) ==> r.error == fs[j])
  {
    var s := Initial(pdfText);
    var fs := Failures(Order, s, llm, tts);
    RunAllOutcome(Order, s, llm, tts);
    LatestKeepsSome(fs, None);
    LatestIsLast(fs, None);
  }

  /** The final `current_step` is the label of the last stage whose call
      succeeded, or "initialized" when every call failed. */
  lemma PipelineStep(pdfText: string, llm: Nodes.Llm, tts: Nodes.Tts)
    ensures var r := Pipeline(pdfText, llm, tts); var cs := Completions(Order, Initial(pdfText), llm, tts);
      && ((forall j :: 0 <= j < |cs| ==> cs[j].None?) ==> r.currentStep == "initialized")
      && (forall j :: 0 <= j < |cs| && cs[j].Some? && (forall k :: j < k < |cs| ==> cs[k].None?) ==>
            r.currentStep == CompleteLabel(Order[j]))
  {
    var s := Initial(pdfText);
    var cs := Completions(Order, s, llm, tts);
    RunAllOutcome(Order, s, llm, tts);
    LatestIsLast(cs, Some(s.currentStep));
    CompletionsLabel(Order, s, llm, tts);
  }

  /** A Some entry of `Completions` is the label of its node. */
  lemma {:induction false} CompletionsLabel(nodes: seq<Node>, s: Snapshot, llm: Nodes.Llm, tts: Nodes.Tts)
    ensures var cs := Completions(nodes, s, llm, tts);
      forall j :: 0 <= j < |cs| && cs[j].Some? ==> cs[j] == Some(CompleteLabel(nodes[j]))
    decreases |nodes|
  {
    if nodes != [] {
      CompletionsLabel(nodes[1..], Run(nodes[0], s, llm, tts), llm, tts);
    }
  }

  /** The run of the graph is the four steps composed in edge order. */
  lemma PipelineUnfolds(pdfText: string, llm: Nodes.Llm, tts: Nodes.Tts)
    ensures Pipeline(pdfText, llm, tts)
      == Nodes.GenerateAudioStep(Nodes.GenerateScriptStep(Nodes.ExtractKeyPointsStep(
           Nodes.SummarizeStep(Initial(pdfText), llm), llm), llm), tts)
  {
    assert Order[1..][1..][1..][1..] == [];
  }

  /** The failures of the four stages, each judged on the record the
      previous stages leave. */
  lemma FailuresInOrder(s: Snapshot, llm: Nodes.Llm, tts: Nodes.Tts)
    ensures var s1 := Nodes.SummarizeStep(s, llm);
      var s2 := Nodes.ExtractKeyPointsStep(s1, llm);
      var s3 := Nodes.GenerateScriptStep(s2, llm);
      Failures(Order, s, llm, tts) == [Failure(Summarize, s, llm, tts), Failure(ExtractPoints, s1, llm, tts),
                                       Failure(GenerateScript, s2, llm, tts), Failure(GenerateAudio, s3, llm, tts)]
  {
    assert Order[1..][1..][1..][1..] == [];
  }

  /** No failure among the calls the run makes means each stage's call
      succeeds on the record the previous stages leave. */
  lemma NoFailureStages(s: Snapshot, llm: Nodes.Llm, tts: Nodes.Tts)
    requires forall j :: 0 <= j < |Order| ==> Failures(Order, s, llm, tts)[j].None?
    ensures var s1 := Nodes.SummarizeStep(s, llm);
      var s2 := Nodes.ExtractKeyPointsStep(s1, llm);
      var s3 := Nodes.GenerateScriptStep(s2, llm);
      && Nodes.SummarizeReply(s, llm).Ok?
      && Nodes.KeyPointsReply(s1, llm).Ok?
      && Nodes.ScriptReply(s2, llm).Ok?
      && Nodes.AudioReply(s3, tts).Ok?
  {
    FailuresInOrder(s, llm, tts);
    var fs := Failures(Order, s, llm, tts);
    assert fs[0].None? && fs[1].None? && fs[2].None? && fs[3].None?;
  }

  /** When none of the calls the run makes fails, the pipeline ends at
      "audio_complete" with no error, and each field holds what its stage
      derives from the previous one: the summary of the first 10000
      characters, the non-blank stripped lines of the key points reply, the
      script written from both, and one audio segment per script chunk,
      concatenated into `final_audio`. */
  lemma PipelineSucceeds(pdfText: string, llm: Nodes.Llm, tts: Nodes.Tts)
    requires forall j :: 0 <= j < |Order| ==> Failures(Order, Initial(pdfText), llm, tts)[j].None?
    ensures var r := Pipeline(pdfText, llm, tts); var chunks := SpeechChunking.ScriptChunks(r.podcastScript);
      && r.error == None
      && r.currentStep == "audio_complete"
      && r.pdfText == pdfText
      && llm(Nodes.SummarizePrompt(Nodes.Truncate(pdfText))) == Ok(r.summary)
      && llm(Nodes.KeyPointsPrompt(r.summary)).Ok?
      && r.keyPoints == Nodes.KeyPoints(llm(Nodes.KeyPointsPrompt(r.summary)).value)
      && llm(Nodes.ScriptPrompt(r.summary, Join(r.keyPoints, "\n"))) == Ok(r.podcastScript)
      && |r.audioSegments| == |chunks|
      && (forall j :: 0 <= j < |chunks| ==> tts(Nodes.SpeechFor(chunks[j])) == Ok(r.audioSegments[j]))
      && r.finalAudio == Some(Flatten(r.audioSegments))
  {
    NoFailureStages(Initial(pdfText), llm, tts);
    StagesSucceed(pdfText, llm, tts);
  }

  /** The outcome of the run when each stage's call succeeds. */
  lemma StagesSucceed(pdfText: string, llm: Nodes.Llm, tts: Nodes.Tts)
    requires var s0 := Initial(pdfText);
      var s1 := Nodes.SummarizeStep(s0, llm);
      var s2 := Nodes.ExtractKeyPointsStep(s1, llm);
      var s3 := Nodes.GenerateScriptStep(s2, llm);
      && Nodes.SummarizeReply(s0, llm).Ok?
      && Nodes.KeyPointsReply(s1, llm).Ok?
      && Nodes.ScriptReply(s2, llm).Ok?
      && Nodes.AudioReply(s3, tts).Ok?
    ensures var r := Pipeline(pdfText, llm, tts); var chunks := SpeechChunking.ScriptChunks(r.podcastScript);
      && r.error == None
      && r.currentStep == "audio_complete"
      && r.pdfText == pdfText
      && llm(Nodes.SummarizePrompt(Nodes.Truncate(pdfText))) == Ok(r.summary)
      && llm(Nodes.KeyPointsPrompt(r.summary)).Ok?
      && r.keyPoints == Nodes.KeyPoints(llm(Nodes.KeyPointsPrompt(r.summary)).value)
      && llm(Nodes.ScriptPrompt(r.summary, Join(r.keyPoints, "\n"))) == Ok(r.podcastScript)
      && |r.audioSegments| == |chunks|
      && (forall j :: 0 <= j < |chunks| ==> tts(Nodes.SpeechFor(chunks[j])) == Ok(r.audioSegments[j]))
      && r.finalAudio == Some(Flatten(r.audioSegments))
  {
    var s0 := Initial(pdfText);
    var s1 := Nodes.SummarizeStep(s0, llm);
    var s2 := Nodes.ExtractKeyPointsStep(s1, llm);
    var s3 := Nodes.GenerateScriptStep(s2, llm);
    PipelineUnfolds(pdfText, llm, tts);
    assert s1 == s0.(summary := llm(Nodes.SummarizePrompt(Nodes.Truncate(pdfText))).value, currentStep := "summarize_complete");
    assert s2 == s1.(keyPoints := Nodes.KeyPoints(llm(Nodes.KeyPointsPrompt(s1.summary)).value), currentStep := "key_points_complete");
    assert s3 == s2.(podcastScript := llm(Nodes.ScriptPrompt(s2.summary, Join(s2.keyPoints, "\n"))).value, currentStep := "script_complete");
    Nodes.AudioStepSucceeds(s3, tts);
  }

  /** A failed summary does not stop the graph: when only the summary call
      fails, the later stages run on the empty summary, `current_step` still
      ends at "audio_complete", and `error` still holds the summarization
      error. */
  lemma PipelineContinuesAfterFailure(pdfText: string, llm: Nodes.Llm, tts: Nodes.Tts)
    requires llm(Nodes.SummarizePrompt(Nodes.Truncate(pdfText))).Err?
    requires forall p :: p != Nodes.SummarizePrompt(Nodes.Truncate(pdfText)) ==> llm(p).Ok?
    requires forall q :: tts(q).Ok?
    ensures var r := Pipeline(pdfText, llm, tts);
      && r.error == Some(Nodes.SummarizationError + llm(Nodes.SummarizePrompt(Nodes.Truncate(pdfText))).message)
      && r.currentStep == "audio_complete"
      && r.summary == ""
      && r.keyPoints == Nodes.KeyPoints(llm(Nodes.KeyPointsPrompt("")).value)
  {
    var s0 := Initial(pdfText);
    var s1 := Nodes.SummarizeStep(s0, llm);
    var s2 := Nodes.ExtractKeyPointsStep(s1, llm);
    var s3 := Nodes.GenerateScriptStep(s2, llm);
    PipelineUnfolds(pdfText, llm, tts);
    assert s1 == s0.(error := Some(Nodes.SummarizationError + llm(Nodes.SummarizePrompt(Nodes.Truncate(pdfText))).message));
    assert s2 == s1.(keyPoints := Nodes.KeyPoints(llm(Nodes.KeyPointsPrompt("")).value), currentStep := "key_points_complete");
    assert s3.error == s1.error && s3.summary == "" && s3.keyPoints == s2.keyPoints;
    Nodes.AudioStepSucceeds(s3, tts);
  }

  /** Invoking one node on the record in place. */
  method Invoke(n: Node, state: PodcastState, llm: Nodes.Llm, tts: Nodes.Tts)
    modifies state
    ensures state.Value() == Run(n, old(state.Value()), llm, tts)
  {
    match n
    case Summarize => Nodes.SummarizeContent(state, llm);
    case ExtractPoints => Nodes.ExtractKeyPoints(state, llm);
    case GenerateScript => Nodes.GenerateScript(state, llm);
    case GenerateAudio => Nodes.GenerateAudio(state, tts);
  }

  /** `run_podcast_generation`: a fresh record in its initial state, then
      every node along the edges, each on the record the previous one
      left. */
  method RunPodcastGeneration(pdfText: string, llm: Nodes.Llm, tts: Nodes.Tts) returns (state: PodcastState)
    ensures fresh(state)
    ensures state.Value() == Pipeline(pdfText, llm, tts)
  {
    state := new PodcastState(pdfText);
    var i := 0;
    while i < |Order|
      invariant i <= |Order|
      invariant RunAll(Order[i..], state.Value(), llm, tts) == Pipeline(pdfText, llm, tts)
    {
      assert Order[i..][1..] == Order[i + 1..];
      Invoke(Order[i], state, llm, tts);
      i := i + 1;
    }
  }
}
