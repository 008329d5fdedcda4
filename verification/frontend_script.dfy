/**
 * The frame handler of `frontend/script.js`: every face is scored from lip
 * velocity, volume and centre bias; the history is updated as the faces are
 * visited; the highest score of the frame is picked, and the active speaker
 * switches to it when it is new and its score exceeds the threshold.
 */
module FrontendScript {
  import opened Options
  import opened Measures
  import opened Selection
  import opened VoiceFilter
  import opened Sessions

  const LipWeight: real := 0.6
  const VolumeWeight: real := 0.2
  const BiasWeight: real := 0.2

  /** The activity score of one face. */
  function Score(lip: real, volume: real, bias: real): (s: real)
    ensures lip >= 0.0 && volume >= 0.0 && bias >= 0.0 ==> s >= 0.0
    ensures volume <= 1.0 && bias <= 1.0 ==> s <= LipWeight * lip + VolumeWeight + BiasWeight
  {
    lip * LipWeight + volume * VolumeWeight + bias * BiasWeight
  }

  /** The weights sum to one: the score lies within any bounds of its three inputs. */
  lemma ScoreWithin(lip: real, volume: real, bias: real, low: real, high: real)
    requires low <= lip <= high && low <= volume <= high && low <= bias <= high
    ensures low <= Score(lip, volume, bias) <= high
  {
  }

  /** More lip movement, more volume or a more central face never lowers the score; a strict gain in any input raises it. */
  lemma ScoreMonotone(lip: real, volume: real, bias: real, lip': real, volume': real, bias': real)
    requires lip <= lip' && volume <= volume' && bias <= bias'
    ensures Score(lip, volume, bias) <= Score(lip', volume', bias')
    ensures lip < lip' || volume < volume' || bias < bias' ==> Score(lip, volume, bias) < Score(lip', volume', bias')
  {
  }

  /** What one face of the frame records: its mouth height and activity score. */
  function FaceEntry(lm: seq<Point>, h: History, i: nat, bins: seq<Byte>): (e: Entry)
    requires IsFace(lm) && |bins| > 0
    ensures e.mouthY == MouthY(lm)
    ensures 0.0 <= lm[NoseTip].x <= 1.0 ==> e.score >= 0.0
    ensures (i !in h || h[i].mouthY == 0.0) ==> e.score <= VolumeWeight + BiasWeight
  {
    var mouthY := MouthY(lm);
    Entry(mouthY, Score(LipVelocity(h, i, mouthY), Volume(bins), CenterBias(lm[NoseTip].x)))
  }

  /** The entries of a frame's faces, each scored against the history at the start of the frame. */
  function FreshEntries(faces: seq<seq<Point>>, bins: seq<Byte>, h0: History): (es: seq<Entry>)
    requires forall i | 0 <= i < |faces| :: IsFace(faces[i])
    requires |bins| > 0
    ensures |es| == |faces|
  {
    seq(|faces|, i requires 0 <= i < |faces| => FaceEntry(faces[i], h0, i, bins))
  }

  /** The faces as candidates: face index and score. */
  function Candidates(es: seq<Entry>): seq<Candidate>
  {
    seq(|es|, i requires 0 <= i < |es| => Candidate(i, es[i].score))
  }

  /** The state of the `forEach` over the faces: `prevScores` and the running pick. */
  datatype Pass = Pass(history: History, lead: Pick)

  /** The `forEach` over the first |faces| faces of the frame. */
  function Sweep(faces: seq<seq<Point>>, bins: seq<Byte>, h0: History): (sw: Pass)
    requires forall i | 0 <= i < |faces| :: IsFace(faces[i])
    requires |bins| > 0
    ensures sw.lead.selected.Some? ==> sw.lead.selected.value < |faces| && sw.lead.best > 0.0
    ensures sw.lead.selected.None? ==> sw.lead.best == 0.0
    decreases |faces|
  {
    if |faces| == 0 then Pass(h0, NoPick)
    else
      var i := |faces| - 1;
      var prev := Sweep(faces[..i], bins, h0);
      var e := FaceEntry(faces[i], prev.history, i, bins);
      Pass(prev.history[i := e], Consider(prev.lead, Candidate(i, e.score)))
  }

  /** A face's entry reads the history at its own index only. */
  lemma FaceEntryLocal(lm: seq<Point>, h: History, h': History, i: nat, bins: seq<Byte>)
    requires IsFace(lm) && |bins| > 0
    requires i in h <==> i in h'
    requires i in h ==> h[i] == h'[i]
    ensures FaceEntry(lm, h, i, bins) == FaceEntry(lm, h', i, bins)
  {
  }

  lemma FreshEntriesPrefix(faces: seq<seq<Point>>, bins: seq<Byte>, h0: History, n: nat)
    requires forall i | 0 <= i < |faces| :: IsFace(faces[i])
    requires |bins| > 0 && n <= |faces|
    ensures FreshEntries(faces[..n], bins, h0) == FreshEntries(faces, bins, h0)[..n]
  {
  }

  /**
   * Each face reads only its own history slot, so the sweep records the
   * entries scored against the frame-start history.
   */
  lemma {:induction false} SweepHistory(faces: seq<seq<Point>>, bins: seq<Byte>, h0: History)
    requires forall i | 0 <= i < |faces| :: IsFace(faces[i])
    requires |bins| > 0
    ensures RecordsFaces(h0, Sweep(faces, bins, h0).history, FreshEntries(faces, bins, h0))
  {
    if |faces| > 0 {
      var i := |faces| - 1;
      var entries := FreshEntries(faces, bins, h0);
      SweepHistory(faces[..i], bins, h0);
      var prev := Sweep(faces[..i], bins, h0);
      FreshEntriesPrefix(faces, bins, h0, i);
      assert RecordsFaces(h0, prev.history, entries[..i]);
      assert i in prev.history <==> i in h0;
      FaceEntryLocal(faces[i], prev.history, h0, i, bins);
      assert FaceEntry(faces[i], prev.history, i, bins) == entries[i];
      RecordsOneMore(h0, prev.history, entries);
    }
  }

  /** The sweep's pick is the scan over the frame-start scores in face order. */
  lemma {:induction false} SweepLead(faces: seq<seq<Point>>, bins: seq<Byte>, h0: History)
    requires forall i | 0 <= i < |faces| :: IsFace(faces[i])
    requires |bins| > 0
    ensures Sweep(faces, bins, h0).lead == PickHighest(Candidates(FreshEntries(faces, bins, h0)))
  {
    if |faces| > 0 {
      var i := |faces| - 1;
      var init := faces[..i];
      SweepHistory(init, bins, h0);
      SweepLead(init, bins, h0);
      var prev := Sweep(init, bins, h0);
      var entries := FreshEntries(faces, bins, h0);
      var cs := Candidates(entries);
      FreshEntriesPrefix(faces, bins, h0, i);
      FaceEntryLocal(faces[i], prev.history, h0, i, bins);
      assert Candidates(entries[..i]) == cs[..i];
    }
  }

  /** The sweep picks the lowest face index holding the frame's maximum, if that is positive. */
  lemma SweepSelects(faces: seq<seq<Point>>, bins: seq<Byte>, h0: History, k: nat)
    requires forall i | 0 <= i < |faces| :: IsFace(faces[i])
    requires |bins| > 0
    ensures var lead := Sweep(faces, bins, h0).lead;
            var cs := Candidates(FreshEntries(faces, bins, h0));
            && (lead.selected == Some(k) <==> FirstMaximum(cs, k))
            && (lead.selected.None? <==> NonePositive(cs))
            && (lead.selected == Some(k) ==> lead.best == cs[k].score)
  {
    SweepLead(faces, bins, h0);
    var cs := Candidates(FreshEntries(faces, bins, h0));
    PickHighestNone(cs);
    if FirstMaximum(cs, k) {
      PickHighestSelects(cs, k);
    }
    if !NonePositive(cs) {
      var p := FirstMaximumExists(cs);
      PickHighestSelects(cs, p);
    }
  }

  /** One call of `onResults`. */
  function Step(s: Session, f: Frame): (s': Session)
    requires ValidFrame(f)
    ensures f.spectrum.None? ==> s' == s
    ensures s.active.Some? ==> s'.active.Some?
    ensures s'.active != s.active ==> s'.active.Some? && s'.active.value < |f.faces|
    ensures s'.active != s.active ==> s'.audio == Apply(s.audio, s'.active.value)
    ensures s'.active == s.active ==> s'.audio == s.audio
    ensures s'.audio.ready == s.audio.ready
    ensures FilterTracksSpeaker(s) ==> FilterTracksSpeaker(s')
  {
    match f.spectrum
    case None => s
    case Some(bins) =>
      var sw := Sweep(f.faces, bins, s.history);
      var lead := sw.lead;
      if lead.selected.Some? && lead.selected != s.active && lead.best > SpeakingThreshold then
        Session(sw.history, lead.selected, Apply(s.audio, lead.selected.value))
      else
        Session(sw.history, s.active, s.audio)
  }

  /** After a frame the history holds every present face's new entry and nothing else changed. */
  lemma StepRecordsFaces(s: Session, f: Frame)
    requires ValidFrame(f) && f.spectrum.Some?
    ensures RecordsFaces(s.history, Step(s, f).history, FreshEntries(f.faces, f.spectrum.value, s.history))
  {
    SweepHistory(f.faces, f.spectrum.value, s.history);
  }

  /**
   * The active speaker becomes k exactly when k is the lowest index holding
   * the frame's maximum, that maximum exceeds the threshold, and k was not
   * already active.
   */
  lemma StepSwitches(s: Session, f: Frame, k: nat)
    requires ValidFrame(f) && f.spectrum.Some?
    ensures var cs := Candidates(FreshEntries(f.faces, f.spectrum.value, s.history));
            (Step(s, f).active == Some(k) && s.active != Some(k))
            <==> (FirstMaximum(cs, k) && cs[k].score > SpeakingThreshold && s.active != Some(k))
  {
    SweepSelects(f.faces, f.spectrum.value, s.history, k);
  }

  /** A frame in which no face exceeds the threshold changes neither speaker nor filter. */
  lemma QuietFrameKeepsSpeaker(s: Session, f: Frame)
    requires ValidFrame(f) && f.spectrum.Some?
    requires AllQuiet(FreshEntries(f.faces, f.spectrum.value, s.history))
    ensures Step(s, f).active == s.active && Step(s, f).audio == s.audio
  {
    var lead := Sweep(f.faces, f.spectrum.value, s.history).lead;
    if lead.selected.Some? {
      SweepSelects(f.faces, f.spectrum.value, s.history, lead.selected.value);
    }
  }

  /** A stream of frames. */
  function Run(s: Session, frames: seq<Frame>): (s': Session)
    requires forall n | 0 <= n < |frames| :: ValidFrame(frames[n])
    ensures s.active.Some? ==> s'.active.Some?
    ensures s'.audio.ready == s.audio.ready
    ensures FilterTracksSpeaker(s) ==> FilterTracksSpeaker(s')
    decreases |frames|
  {
    if |frames| == 0 then s else Run(Step(s, frames[0]), frames[1..])
  }
}
