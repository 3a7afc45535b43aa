# PDF-to-Podcast pipeline, modelled in Dafny

PDF-to-Podcast turns a document's text into a narrated podcast in four
stages that share one mutable record (`PodcastState`):

1. `summarize_content` asks a language model for a summary of the first
   10000 characters of the text;
2. `extract_key_points` asks it for key points and keeps the non-blank
   lines of the reply, stripped;
3. `generate_script` asks it for a podcast script from the summary and the
   key points joined with line breaks;
4. `generate_audio` cuts the script into chunks the speech service accepts
   (a script over 4000 characters is split on ". " and its sentences are
   packed greedily), asks the speech service for one audio segment per
   chunk, in order, and concatenates them.

Each stage catches any exception of its external call and records a
stage-tagged message in `error`; it then writes nothing else. The workflow
runs the four stages in a fixed order and never consults `error`, so a
failure does not stop the later stages. A separate helper, `chunk_text`,
packs a text's words greedily into chunks under a character budget.

The project has six modules:

- `PyText` (`pytext.dfy`): the Python `str` operations the code relies on:
  `isspace`, `strip`, `split(sep)`, `split()` and `join`, with their
  round-trip properties.
- `State` (`state.dfy`): the record, as a class `PodcastState` whose fields
  the stages update in place. Its `Value()` is a `Snapshot` datatype.
- `SpeechChunking` (`speech_chunking.dfy`): the sentence chunker of
  `generate_audio`, as a loop proved against a packing function.
- `Nodes` (`nodes.dfy`): the four stages. Each is a method on the record,
  proved equal to a pure step function on snapshots.
- `PdfParser` (`pdf_parser.dfy`): `chunk_text`, as a loop proved against a
  packing function.
- `Workflow` (`workflow.dfy`): the graph's entry point and edges, the
  initial record, and the run of the whole graph.

The language model and the speech service are parameters:

- `Llm` maps a prompt to a reply: the content, or the exception's message.
- `Tts` maps a speech request (model, voice, input) to the encoded audio,
  or to the exception's message.

Because they are functions, the model assumes that the same request always
gets the same reply within one run.

Two behaviours of the code are worth stating outright:

- A failed stage does not stop the run. The graph in
  `backend/graph/workflow.py:23-27` has no conditional edge, so every stage
  runs whatever `error` holds (`Workflow.PipelineContinuesAfterFailure`,
  `Workflow.PipelineError`).
- A failed audio stage keeps no partial segments. In
  `backend/graph/nodes.py:101-111` the segments are a local list that is
  stored only after every request succeeds (`Nodes.AudioStepFails`).

## Model

| member | source | states |
|---|---|---|
| PyText.SkipSpace | backend/graph/nodes.py:43 | the scan from an index stops at the first character that is not white space, or at the end, with only white space passed over |
| PyText.SkipSpaceBack | backend/graph/nodes.py:43 | the backward scan stops just past the last character that is not white space, or at its lower bound, with only white space passed over |
| PyText.StripFacts | backend/graph/nodes.py:43 | `strip()` is no longer than its input, neither starts nor ends with white space, and is empty exactly when the input is all white space |
| PyText.StripBounds | backend/graph/nodes.py:43 | `strip()` is the infix between the two scans, only white space lies before and after it, it neither starts nor ends with white space, and it is empty exactly when the input is all white space |
| PyText.SpaceBetweenJoin | backend/graph/nodes.py:43 | two adjacent all-white-space stretches form one |
| PyText.StripShortensTrailingSpace | backend/graph/nodes.py:92 | stripping a string that ends in white space makes it strictly shorter |
| PyText.Split | backend/graph/nodes.py:85 | `split(sep)` with a non-empty separator always gives at least one piece; what the pieces hold is stated by JoinSplit and SplitPiecesAvoidSep |
| PyText.SplitFirstIsPrefix | backend/graph/nodes.py:85 | the first piece of `split(sep)` is a prefix of the string |
| PyText.GluedAvoidsSep | backend/graph/nodes.py:85 | a character at which `sep` does not start, followed by a separator-free prefix of the rest, is separator-free |
| PyText.SplitPiecesAvoidSep | backend/graph/nodes.py:85 | no piece of `split(sep)` contains `sep`: every occurrence of the separator is cut out |
| PyText.JoinSplit | backend/graph/nodes.py:85 | joining the pieces of `split(sep)` with `sep` gives back the original string |
| PyText.JoinConsChar | backend/graph/nodes.py:85 | a character glued onto the first piece is glued onto the join |
| PyText.WordLength | backend/utils/pdf_parser.py:42 | the leading run it measures has no white space and is followed by white space or by the end of the string |
| PyText.Words | backend/utils/pdf_parser.py:42 | every item of `split()` is a non-empty run without white space; WordsCoverNonSpace states that together they are all of the text's other characters |
| PyText.NonSpaceOfRun | backend/utils/pdf_parser.py:42 | a leading run without white space is kept whole when white space is removed |
| PyText.WordsCoverNonSpace | backend/utils/pdf_parser.py:42 | the items of `split()`, concatenated, are exactly the characters of the text that are not white space, in order |
| PyText.WordsEmpty | backend/utils/pdf_parser.py:42 | `split()` is empty exactly when the text is empty or all white space |
| PyText.WordsAfterWord | backend/utils/pdf_parser.py:42 | a word followed by white space or by nothing splits off as the first item of `split()` |
| PyText.WordsOfJoin | backend/utils/pdf_parser.py:51 | `" ".join` and then `split()` give back any list of words |
| PyText.JoinSingleSpaced | backend/utils/pdf_parser.py:51 | words joined with single spaces have no leading, trailing or doubled white space |
| State.PodcastState.constructor | backend/graph/workflow.py:45-54 | the initial record holds the text, empty outputs, no audio, no error, and step "initialized" |
| SpeechChunking.Terminated | backend/graph/nodes.py:90 | the accumulated `current_chunk` text is empty exactly when no sentence was added, and otherwise ends in ". " |
| SpeechChunking.Sentences | backend/graph/nodes.py:85 | `script.split('. ')` has at least one sentence |
| SpeechChunking.SplitScript | backend/graph/nodes.py:80-98 | the chunking loop computes the stripped texts of the greedy sentence groups, and a script of at most 4000 characters is the only chunk, unchanged |
| SpeechChunking.PackSentences | backend/graph/nodes.py:86-96 | the sentence loop yields, in order, the stripped text of each group that greedy packing closes, the last one included only when non-empty |
| SpeechChunking.JoinStep | backend/graph/nodes.py:89-90 | when the sentence fits, the loop's account of closed groups plus the packing still to come is kept by adding it to the current group, whose text grows by the sentence and ". " |
| SpeechChunking.CloseStep | backend/graph/nodes.py:91-93 | when the sentence does not fit, the account is kept by closing the current group, whose stripped text becomes the next chunk, and starting a new group with the sentence and ". " |
| SpeechChunking.PackFlatten | backend/graph/nodes.py:88-96 | the groups hold the current group's sentences and then every remaining sentence, each once, in order |
| SpeechChunking.PackFirst | backend/graph/nodes.py:88-96 | a non-empty current group survives as the start of the first group |
| SpeechChunking.PackNonEmpty | backend/graph/nodes.py:88-96 | only the first group can be empty, and only when packing starts from an empty current group |
| SpeechChunking.FirstGroupEmpty | backend/graph/nodes.py:88-93 | the first group is empty exactly when the first sentence has 4000 characters or more |
| SpeechChunking.PackFits | backend/graph/nodes.py:89-90 | a group of two or more sentences has text of at most 4001 characters, its trailing ". " included |
| SpeechChunking.PackGreedy | backend/graph/nodes.py:89-93 | a group is closed only when the next sentence would take its text to 4000 characters or more |
| SpeechChunking.TerminatedAppend | backend/graph/nodes.py:90 | the text of two runs of sentences is the concatenation of their texts |
| SpeechChunking.TerminatedAllFlatten | backend/graph/nodes.py:88-96 | the groups' texts concatenated are the text of all their sentences |
| SpeechChunking.TerminatedJoin | backend/graph/nodes.py:85-90 | the text of a list of sentences is the sentences joined by ". ", plus a final ". " |
| SpeechChunking.LongScriptLossless | backend/graph/nodes.py:83-96 | for a long script, the groups hold every sentence once and in order, their texts concatenate to the script plus ". ", and chunk k is group k's text stripped |
| SpeechChunking.LongScriptSeveralChunks | backend/graph/nodes.py:83-96 | a script over 4000 characters always gives at least two chunks |
| SpeechChunking.LongScriptEmptyChunks | backend/graph/nodes.py:88-96 | the first chunk of a long script is the empty string exactly when its first sentence has 4000 characters or more; every later chunk is non-empty |
| SpeechChunking.LongScriptChunkSize | backend/graph/nodes.py:80-96 | a chunk of two or more sentences has at most 4000 characters; only a single sentence can exceed the limit |
| SpeechChunking.LongScriptGreedy | backend/graph/nodes.py:89-93 | every chunk after the first was started only because its first sentence did not fit into the previous one |
| SpeechChunking.ChunkOfGroup | backend/graph/nodes.py:92 | a group's stripped text is empty exactly when the group is empty, and is shorter than the unstripped text |
| Nodes.Truncate | backend/graph/nodes.py:23 | `pdf_text[:10000]` is a prefix of the text: the whole text when it has at most 10000 characters, otherwise exactly 10000 characters |
| Nodes.SummarizeContent | backend/graph/nodes.py:18-31 | on a reply, stores it as `summary` with step "summarize_complete"; on an exception, writes only `error`, prefixed "Summarization error: " |
| Nodes.NonBlankStripsToPoint | backend/graph/nodes.py:43 | a non-blank line strips to a non-empty string with no white space at either end |
| Nodes.StrippedNonBlankArePoints | backend/graph/nodes.py:43 | every key point is non-empty and neither starts nor ends with white space |
| Nodes.KeptCorrect | backend/graph/nodes.py:43 | the kept positions are exactly the positions of the non-blank lines, each once, in increasing order |
| Nodes.KeyPointsFollowLines | backend/graph/nodes.py:43 | the j-th point is the j-th non-blank line, stripped, and there are as many points as non-blank lines |
| Nodes.KeyPointsAreNonBlankLines | backend/graph/nodes.py:42-43 | the key points are the non-blank lines of the reply, stripped, in reply order, with nothing reordered, dropped or added |
| Nodes.ExtractKeyPoints | backend/graph/nodes.py:33-51 | on a reply, stores its parsed key points with step "key_points_complete"; on an exception, writes only `error`, prefixed "Key points extraction error: " |
| Nodes.GenerateScript | backend/graph/nodes.py:53-70 | asks with the summary and the points joined by "\n"; on a reply, stores the script with step "script_complete"; on an exception, writes only `error`, prefixed "Script generation error: " |
| Nodes.KeyPointsJoinRoundTrip | backend/graph/nodes.py:58 | points without a line break come back unchanged when the "\n"-joined string is split on "\n" |
| Nodes.SplitWithout | backend/graph/nodes.py:58 | a piece without a line break splits off whole as the first line |
| Nodes.LinesHaveNoBreak | backend/graph/nodes.py:43 | no line of `split('\n')` holds a line break (SplitPiecesAvoidSep for the separator "\n") |
| Nodes.StripKeepsNoBreak | backend/graph/nodes.py:43 | stripping a line adds no line break to it |
| Nodes.StrippedNonBlankNoBreak | backend/graph/nodes.py:43 | the stripped non-blank lines hold no line break |
| Nodes.KeyPointsSurviveJoin | backend/graph/nodes.py:58 | when stage 2 produced at least one key point, the points come back one for one when the script prompt's "\n"-joined list is split on "\n" (with no points, the join is "" and splits to `[""]`) |
| Nodes.SynthesizeFrom | backend/graph/nodes.py:101-109 | succeeds exactly when every remaining request succeeds, giving one segment per chunk in chunk order; otherwise gives the message of the first failing chunk |
| Nodes.SynthesizeSegments | backend/graph/nodes.py:101-109 | the request loop stops at the first failing chunk and otherwise collects one segment per chunk, in order |
| Nodes.Combine | backend/graph/nodes.py:114-119 | `final_audio` is the concatenation of the segments, whether there is one segment or several |
| Nodes.GenerateAudio | backend/graph/nodes.py:72-126 | performs the audio step in place: segments, combined audio and step "audio_complete", or only the tagged error |
| Nodes.AudioStepSucceeds | backend/graph/nodes.py:101-121 | when every request succeeds: one segment per chunk in chunk order, `final_audio` their concatenation, step "audio_complete", and nothing else changed |
| Nodes.AudioStepFails | backend/graph/nodes.py:101-124 | when some request fails: only `error` changes, to the first failing chunk's message prefixed "Audio generation error: ", and no partial segments are kept |
| Nodes.FirstFailure | backend/graph/nodes.py:102-109 | when some request fails, synthesis fails with the message of the first failing chunk, and every earlier chunk succeeded |
| Workflow.OrderFollowsEdges | backend/graph/workflow.py:17-27 | the stage order starts at the entry point, follows each edge, ends at END, and visits each of the four nodes exactly once |
| Workflow.Tagged | backend/graph/nodes.py:28-29 | a stage records an error exactly when its call raised |
| Workflow.RunOutcome | backend/graph/nodes.py:18-126 | for each of the four stages: a failing stage writes only its tagged error; a succeeding one keeps `error` and writes its completion label; no stage changes the document text |
| Workflow.LatestIsLast | backend/graph/state.py:12-13 | a field that each stage may overwrite ends holding the last value written, or its start value when nothing was written |
| Workflow.LatestKeepsSome | backend/graph/state.py:12 | `error` ends unset exactly when it started unset and no stage set it, so it is never cleared |
| Workflow.RunAllOutcome | backend/graph/workflow.py:23-27 | after the nodes run in order: the text is unchanged, `error` is the last failure, and `current_step` is the last completion label |
| Workflow.CompletionsLabel | backend/graph/workflow.py:23-27 | a completion entry is the label of its own node |
| Workflow.PipelineUnfolds | backend/graph/workflow.py:23-27 | running the graph is summarize, extract_points, generate_script and generate_audio composed in that order |
| Workflow.PipelineError | backend/graph/workflow.py:34-60 | the final `error` is unset exactly when no call failed, and otherwise is the last failing stage's message; the text is unchanged |
| Workflow.PipelineStep | backend/graph/workflow.py:34-60 | the final `current_step` is the label of the last stage that succeeded, or "initialized" when none did |
| Workflow.FailuresInOrder | backend/graph/workflow.py:23-27 | the run's failures are the four stages' failures, each judged on the record the previous stages leave |
| Workflow.NoFailureStages | backend/graph/workflow.py:23-27 | when none of the run's calls fails, each stage's call succeeds on the record it receives |
| Workflow.PipelineSucceeds | backend/graph/workflow.py:34-60 | when none of the calls the run makes fails: no error, step "audio_complete", and each field derived from the previous stage's output, including one segment per script chunk and their concatenation |
| Workflow.StagesSucceed | backend/graph/workflow.py:34-60 | the same outcome, given that each stage's call succeeds on the record it receives |
| Workflow.PipelineContinuesAfterFailure | backend/graph/workflow.py:23-27 | a failed summary does not stop the run: the later stages run on the empty summary, and the run ends at "audio_complete" with the summarization error still recorded |
| Workflow.Invoke | backend/graph/workflow.py:17-20 | running a node in place is the node's step function |
| Workflow.RunPodcastGeneration | backend/graph/workflow.py:34-60 | creates a fresh record in its initial state and runs the nodes along the edges, ending in the composed state `Pipeline` |
| PdfParser.ChunkText | backend/utils/pdf_parser.py:31-61 | the word-packing loop computes the single-space-joined greedy word groups |
| PdfParser.WidthAppend | backend/utils/pdf_parser.py:48-56 | adding a word adds its length plus one to `current_length` |
| PdfParser.WidthJoin | backend/utils/pdf_parser.py:48-51 | `current_length` is one more than the length of the joined chunk |
| PdfParser.PackFlatten | backend/utils/pdf_parser.py:47-59 | the groups hold the current words and then every remaining word, each once, in order |
| PdfParser.PackFirst | backend/utils/pdf_parser.py:47-59 | a non-empty current group survives as the start of the first group |
| PdfParser.PackNonEmpty | backend/utils/pdf_parser.py:47-59 | no group is empty |
| PdfParser.PackFits | backend/utils/pdf_parser.py:50-56 | a group of two or more words has `current_length` at most `chunk_size` |
| PdfParser.PackGreedy | backend/utils/pdf_parser.py:50-53 | a group is closed only when the next word would push `current_length` past `chunk_size` |
| PdfParser.ChunkWords | backend/utils/pdf_parser.py:42-61 | each chunk holds at least one word, splits back into its group, and has no leading, trailing or doubled white space |
| PdfParser.GroupWordsAreWords | backend/utils/pdf_parser.py:42 | the groups hold only words of `split()` |
| PdfParser.FlattenHolds | backend/utils/pdf_parser.py:47-59 | every group's words occur in the flattened list |
| PdfParser.ChunkTextLossless | backend/utils/pdf_parser.py:31-61 | the chunks' words, in order, are exactly `text.split()`, and there is no chunk exactly when the text is empty or all white space |
| PdfParser.ChunkTextSize | backend/utils/pdf_parser.py:50-56 | a chunk of two or more words has at most `chunk_size - 1` characters; only a single word can exceed it |
| PdfParser.ChunkTextGreedy | backend/utils/pdf_parser.py:50-53 | for consecutive chunks, the first chunk plus a space, the next chunk's first word and its space would exceed `chunk_size` |

## Left out

- `PDFParser.extract_text` (backend/utils/pdf_parser.py:8-28) is not modelled. It reads pages through the PyPDF2 library, and PDF decoding is outside this model. The pipeline receives its text as the `pdfText` parameter.
- The prompt templates of backend/utils/prompts.py are opaque. A `Prompt` value records only what its template is formatted with.
- The language model and the speech service are parameters of every stage. The model does not cover client construction, API keys, temperature, model names other than the TTS model and voice, network failures beyond the exception message, time-outs or latency. As functions, the parameters answer the same request the same way every time.
- The `print` progress lines of each stage are not modelled.
- LangGraph's `compile` and `invoke` are replaced by running the nodes along the edges in order. The model assumes that each node's returned record becomes the next node's input, as the fixed linear graph implies.
- The model does not check that the concatenated MP3 segments form a playable file. Audio is an opaque byte string.
- Exceptions other than those of the external calls are not modelled, for example a missing key in the record. Starting from the initial record they cannot occur.
- Python's `str.isspace` is modelled by its fixed character set. Unicode data beyond that set is not modelled.
- `chunk_text` is not called by the pipeline. It is modelled on its own, with `chunk_size` as a parameter. `PdfParser.DefaultChunkSize` records the default, 2000.
- frontend/app.py, the user interface, is not part of this model.
