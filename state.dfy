/** The shared record that the four stages read and update
    (`PodcastState` in backend/graph/state.py), with the value types it
    holds. */
module State {

  newtype Byte = x: int | 0 <= x < 256

  /** Encoded audio as returned by the speech service: an opaque byte string. */
  type Audio = seq<Byte>

  datatype Option<+T> = None | Some(value: T)

  /** What an external call gives back: its content, or the message of the
      exception it raised (`str(e)`). */
  datatype Reply<+T> = Ok(value: T) | Err(message: string)

  /** A snapshot of every field of the record. */
  datatype Snapshot = Snapshot(
    pdfText: string,
    summary: string,
    keyPoints: seq<string>,
    podcastScript: string,
    audioSegments: seq<Audio>,
    finalAudio: Option<Audio>,
    error: Option<string>,
    currentStep: string)

  /** The record `run_podcast_generation` starts from. */
  function Initial(pdfText: string): Snapshot {
    Snapshot(pdfText, "", [], "", [], None, None, "initialized")
  }

  /** The mutable record the stages update in place. */
  class PodcastState {
    var pdfText: string
    var summary: string
    var keyPoints: seq<string>
    var podcastScript: string
    var audioSegments: seq<Audio>
    var finalAudio: Option<Audio>
    var error: Option<string>
    var currentStep: string

    function Value(): Snapshot
      reads this
    {
      Snapshot(pdfText, summary, keyPoints, podcastScript, audioSegments, finalAudio, error, currentStep)
    }

    /** The initial record: the document text, empty outputs, no error, at
        step "initialized". */
    constructor (pdfText: string)
      ensures this.pdfText == pdfText
      ensures summary == "" && keyPoints == [] && podcastScript == "" && audioSegments == []
      ensures finalAudio == None && error == None
      ensures currentStep == "initialized"
      ensures Value() == Initial(pdfText)
    {
      this.pdfText := pdfText;
      summary := "";
      keyPoints := [];
      podcastScript := "";
      audioSegments := [];
      finalAudio := None;
      error := None;
      currentStep := "initialized";
    }
  }
}
