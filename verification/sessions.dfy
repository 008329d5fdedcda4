/**
 * The state both frame handlers carry between frames, and what one frame
 * delivers to them.
 */
module Sessions {
  import opened Options
  import opened Measures
  import opened VoiceFilter

  /**
   * One `onResults` call: the landmark lists of the detected faces in
   * detection order (the face index is the position), and the analyser's
   * byte spectrum, `None` when no analyser was ever created.
   */
  datatype Frame = Frame(faces: seq<seq<Point>>, spectrum: Option<seq<Byte>>)

  /** Every face reaches landmark 20, and an analyser yields at least one bin. */
  predicate ValidFrame(f: Frame)
  {
    && (forall i | 0 <= i < |f.faces| :: IsFace(f.faces[i]))
    && (f.spectrum.Some? ==> |f.spectrum.value| > 0)
  }

  /** `prevScores`, `activeSpeakerId` and the audio output. */
  datatype Session = Session(history: History, active: Option<nat>, audio: AudioOut)

  /** The score a face must exceed to count as speaking. */
  const SpeakingThreshold: real := 0.3

  /** No entry of the frame exceeds the speaking threshold. */
  predicate AllQuiet(es: seq<Entry>)
  {
    forall i | 0 <= i < |es| :: es[i].score <= SpeakingThreshold
  }

  /** The page state before the first frame. */
  function Start(ready: bool): (s: Session)
    ensures s.active.None? && |s.history| == 0
    ensures FilterTracksSpeaker(s)
  {
    Session(map[], None, AudioOut(ready, None))
  }

  /** The installed filter is the active speaker's, whenever there is an audio context. */
  predicate FilterTracksSpeaker(s: Session)
  {
    s.audio.filter == (if s.audio.ready && s.active.Some? then Some(ConfigFor(s.active.value)) else None)
  }

  /**
   * After a frame, h holds `entries[i]` for each face index i of the frame,
   * and every other index is as it was in h0.
   */
  ghost predicate RecordsFaces(h0: History, h: History, entries: seq<Entry>)
  {
    && (forall i | 0 <= i < |entries| :: i in h && h[i] == entries[i])
    && (forall k: nat | k >= |entries| :: k in h <==> k in h0)
    && (forall k: nat | k >= |entries| && k in h0 :: h[k] == h0[k])
  }

  /** Recording one more face extends what the history records. */
  lemma RecordsOneMore(h0: History, h: History, entries: seq<Entry>)
    requires |entries| > 0
    requires RecordsFaces(h0, h, entries[..|entries| - 1])
    ensures RecordsFaces(h0, h[|entries| - 1 := entries[|entries| - 1]], entries)
  {
    var n := |entries| - 1;
    assert forall i | 0 <= i < n :: entries[..n][i] == entries[i];
  }
}
