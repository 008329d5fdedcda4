/**
 * The frame handler of the root `script.js`: every face is scored from lip
 * velocity and volume and recorded in the history at once; a face scoring
 * above the threshold triggers a scan of the WHOLE history, in ascending key
 * order, and the scan's winner becomes the active speaker if it is new.
 */
module RootScript {
  import opened Options
  import opened Measures
  import opened Selection
  import opened VoiceFilter
  import opened Sessions

  const LipWeight: real := 0.7
  const VolumeWeight: real := 0.3

  /** The activity score of one face; there is no bias term. */
  function Score(lip: real, volume: real): (s: real)
    ensures lip >= 0.0 && volume >= 0.0 ==> s >= 0.0
    ensures volume <= 1.0 ==> s <= LipWeight * lip + VolumeWeight
  {
    lip * LipWeight + volume * VolumeWeight
  }

  /** The weights sum to one: the score lies within any bounds of its two inputs. */
  lemma ScoreWithin(lip: real, volume: real, low: real, high: real)
    requires low <= lip <= high && low <= volume <= high
    ensures low <= Score(lip, volume) <= high
  {
  }

  /** More lip movement or more volume never lowers the score; a strict gain in either raises it. */
  lemma ScoreMonotone(lip: real, volume: real, lip': real, volume': real)
    requires lip <= lip' && volume <= volume'
    ensures Score(lip, volume) <= Score(lip', volume')
    ensures lip < lip' || volume < volume' ==> Score(lip, volume) < Score(lip', volume')
  {
  }

  /**
   * What one face records. With volume at most 1 the score can exceed the
   * threshold only through lip movement, so a first sighting never does.
   */
  function FaceEntry(lm: seq<Point>, h: History, i: nat, bins: seq<Byte>): (e: Entry)
    requires IsFace(lm) && |bins| > 0
    ensures e.mouthY == MouthY(lm)
    ensures e.score >= 0.0
    ensures e.score > SpeakingThreshold ==> LipVelocity(h, i, MouthY(lm)) > 0.0
    ensures (i !in h || h[i].mouthY == 0.0) ==> e.score <= SpeakingThreshold
  {
    var mouthY := MouthY(lm);
    Entry(mouthY, Score(LipVelocity(h, i, mouthY), Volume(bins)))
  }

  /** A face's entry reads the history at its own index only. */
  lemma FaceEntryLocal(lm: seq<Point>, h: History, h': History, i: nat, bins: seq<Byte>)
    requires IsFace(lm) && |bins| > 0
    requires i in h <==> i in h'
    requires i in h ==> h[i] == h'[i]
    ensures FaceEntry(lm, h, i, bins) == FaceEntry(lm, h', i, bins)
  {
  }

  /** The entries of a frame's faces, each scored against the history at the start of the frame. */
  function FreshEntries(faces: seq<seq<Point>>, bins: seq<Byte>, h0: History): (es: seq<Entry>)
    requires forall i | 0 <= i < |faces| :: IsFace(faces[i])
    requires |bins| > 0
    ensures |es| == |faces|
  {
    seq(|faces|, i requires 0 <= i < |faces| => FaceEntry(faces[i], h0, i, bins))
  }

  lemma FreshEntriesPrefix(faces: seq<seq<Point>>, bins: seq<Byte>, h0: History, n: nat)
    requires forall i | 0 <= i < |faces| :: IsFace(faces[i])
    requires |bins| > 0 && n <= |faces|
    ensures FreshEntries(faces[..n], bins, h0) == FreshEntries(faces, bins, h0)[..n]
  {
  }

  /** The history entries as candidates, in `Object.keys` order. */
  function Candidates(h: History): (cs: seq<Candidate>)
    ensures forall p | 0 <= p < |cs| :: cs[p].id in h && cs[p].score == h[cs[p].id].score
    ensures forall p, q | 0 <= p < q < |cs| :: cs[p].id < cs[q].id
  {
    var ks := SortedKeys(h.Keys);
    seq(|ks|, p requires 0 <= p < |ks| => Candidate(ks[p], h[ks[p]].score))
  }

  /** The `Object.keys(prevScores).forEach` scan. */
  function Scan(h: History): Pick
  {
    PickHighest(Candidates(h))
  }

  /** k is the lowest key holding the history's maximum score, and that score is positive. */
  ghost predicate LowestKeyMaximum(h: History, k: nat)
  {
    && k in h
    && h[k].score > 0.0
    && (forall j | j in h :: h[j].score <= h[k].score)
    && (forall j | j in h && j < k :: h[j].score < h[k].score)
  }

  /** Every stored key has its place among the candidates. */
  lemma CandidateOf(h: History, j: nat) returns (q: nat)
    requires j in h
    ensures q < |Candidates(h)| && Candidates(h)[q] == Candidate(j, h[j].score)
  {
    var ks := SortedKeys(h.Keys);
    assert j in ks;
    q :| 0 <= q < |ks| && ks[q] == j;
  }

  /** The scan finds a winner exactly when some stored score is positive. */
  lemma ScanNone(h: History)
    ensures Scan(h).selected.None? <==> forall j | j in h :: h[j].score <= 0.0
  {
    var cs := Candidates(h);
    PickHighestNone(cs);
    if exists j :: j in h && h[j].score > 0.0 {
      var j :| j in h && h[j].score > 0.0;
      var q := CandidateOf(h, j);
      assert cs[q].score > 0.0;
    }
  }

  /** A winner of the scan is the lowest-keyed maximum of the history. */
  lemma ScanWinner(h: History)
    requires Scan(h).selected.Some?
    ensures LowestKeyMaximum(h, Scan(h).selected.value)
    ensures Scan(h).best == h[Scan(h).selected.value].score
  {
    var cs := Candidates(h);
    PickHighestNone(cs);
    var p := FirstMaximumExists(cs);
    PickHighestSelects(cs, p);
    var k := cs[p].id;
    forall j | j in h ensures h[j].score <= h[k].score && (j < k ==> h[j].score < h[k].score) {
      var q := CandidateOf(h, j);
      if j < k {
        assert q < p;
      }
    }
  }

  /** The scan finds a winner exactly when some stored score is positive, and it is the lowest-keyed maximum. */
  lemma ScanSpec(h: History)
    ensures Scan(h).selected.None? <==> forall j | j in h :: h[j].score <= 0.0
    ensures Scan(h).selected.Some? ==>
              LowestKeyMaximum(h, Scan(h).selected.value) && Scan(h).best == h[Scan(h).selected.value].score
  {
    ScanNone(h);
    if Scan(h).selected.Some? {
      ScanWinner(h);
    }
  }

  /** Ties go to the lowest key: the scan selects k exactly when k is the lowest-keyed positive maximum. */
  lemma ScanSelects(h: History, k: nat)
    ensures Scan(h).selected == Some(k) <==> LowestKeyMaximum(h, k)
  {
    ScanSpec(h);
    if LowestKeyMaximum(h, k) && Scan(h).selected.Some? {
      var w := Scan(h).selected.value;
      assert !(w < k) && !(k < w);
    }
  }

  /** One iteration of the `forEach` over the faces, for face index i. */
  function FaceStep(s: Session, lm: seq<Point>, i: nat, bins: seq<Byte>): (s': Session)
    requires IsFace(lm) && |bins| > 0
    ensures s'.history == s.history[i := FaceEntry(lm, s.history, i, bins)]
    ensures s.active.Some? ==> s'.active.Some?
    ensures s'.active == s.active ==> s'.audio == s.audio
    ensures s'.active != s.active ==> s'.active.Some? && s'.audio == Apply(s.audio, s'.active.value)
    ensures s'.audio.ready == s.audio.ready
    ensures FilterTracksSpeaker(s) ==> FilterTracksSpeaker(s')
  {
    var e := FaceEntry(lm, s.history, i, bins);
    var h := s.history[i := e];
    if e.score > SpeakingThreshold then
      var winner := Scan(h).selected;
      if winner.Some? && winner != s.active then
        Session(h, winner, Apply(s.audio, winner.value))
      else
        Session(h, s.active, s.audio)
    else
      Session(h, s.active, s.audio)
  }

  /**
   * A face at or below the threshold leaves speaker and filter alone; a face
   * above it runs the scan, whose winner, never null, becomes (or stays) the
   * active speaker and scores at least as high as the face that triggered it.
   */
  lemma FaceStepScan(s: Session, lm: seq<Point>, i: nat, bins: seq<Byte>)
    requires IsFace(lm) && |bins| > 0
    ensures var e := FaceEntry(lm, s.history, i, bins);
            var s' := FaceStep(s, lm, i, bins);
            && (e.score <= SpeakingThreshold ==> s'.active == s.active && s'.audio == s.audio)
            && (e.score > SpeakingThreshold ==>
                  && s'.active.Some?
                  && LowestKeyMaximum(s'.history, s'.active.value)
                  && s'.history[s'.active.value].score >= e.score)
  {
    var e := FaceEntry(lm, s.history, i, bins);
    var h := s.history[i := e];
    if e.score > SpeakingThreshold {
      ScanSpec(h);
      assert i in h && h[i].score > 0.0;
    }
  }

  /** The `forEach` over the first |faces| faces of the frame. */
  function Sweep(s: Session, faces: seq<seq<Point>>, bins: seq<Byte>): (s': Session)
    requires forall i | 0 <= i < |faces| :: IsFace(faces[i])
    requires |bins| > 0
    ensures s.active.Some? ==> s'.active.Some?
    ensures s'.audio.ready == s.audio.ready
    ensures FilterTracksSpeaker(s) ==> FilterTracksSpeaker(s')
    decreases |faces|
  {
    if |faces| == 0 then s
    else
      var i := |faces| - 1;
      var prev := Sweep(s, faces[..i], bins);
      FaceStep(prev, faces[i], i, bins)
  }

  lemma SweepLast(s: Session, faces: seq<seq<Point>>, bins: seq<Byte>)
    requires forall i | 0 <= i < |faces| :: IsFace(faces[i])
    requires |bins| > 0 && |faces| > 0
    ensures Sweep(s, faces, bins)
            == FaceStep(Sweep(s, faces[..|faces| - 1], bins), faces[|faces| - 1], |faces| - 1, bins)
  {
  }

  /** After the sweep the history holds every present face's new entry and nothing else changed. */
  lemma {:induction false} SweepHistory(s: Session, faces: seq<seq<Point>>, bins: seq<Byte>)
    requires forall i | 0 <= i < |faces| :: IsFace(faces[i])
    requires |bins| > 0
    ensures RecordsFaces(s.history, Sweep(s, faces, bins).history, FreshEntries(faces, bins, s.history))
  {
    if |faces| > 0 {
      var i := |faces| - 1;
      var entries := FreshEntries(faces, bins, s.history);
      SweepHistory(s, faces[..i], bins);
      var prev := Sweep(s, faces[..i], bins);
      FreshEntriesPrefix(faces, bins, s.history, i);
      assert RecordsFaces(s.history, prev.history, entries[..i]);
      assert i in prev.history <==> i in s.history;
      FaceEntryLocal(faces[i], prev.history, s.history, i, bins);
      assert FaceEntry(faces[i], prev.history, i, bins) == entries[i];
      SweepLast(s, faces, bins);
      RecordsOneMore(s.history, prev.history, entries);
    }
  }

  /** If no face of the frame exceeds the threshold, no scan runs: speaker and filter stay. */
  lemma {:induction false} QuietSweepKeepsSpeaker(s: Session, faces: seq<seq<Point>>, bins: seq<Byte>)
    requires forall i | 0 <= i < |faces| :: IsFace(faces[i])
    requires |bins| > 0
    requires AllQuiet(FreshEntries(faces, bins, s.history))
    ensures Sweep(s, faces, bins).active == s.active && Sweep(s, faces, bins).audio == s.audio
  {
    if |faces| > 0 {
      var i := |faces| - 1;
      var init := faces[..i];
      var entries := FreshEntries(faces, bins, s.history);
      FreshEntriesPrefix(faces, bins, s.history, i);
      assert AllQuiet(entries[..i]) by {
        forall j | 0 <= j < i ensures entries[..i][j].score <= SpeakingThreshold {
          assert entries[..i][j] == entries[j];
        }
      }
      QuietSweepKeepsSpeaker(s, init, bins);
      SweepHistory(s, init, bins);
      var prev := Sweep(s, init, bins);
      assert |FreshEntries(init, bins, s.history)| == i;
      assert i in prev.history <==> i in s.history;
      FaceEntryLocal(faces[i], prev.history, s.history, i, bins);
      assert entries[i] == FaceEntry(faces[i], s.history, i, bins);
      assert entries[i].score <= SpeakingThreshold;
      FaceStepScan(prev, faces[i], i, bins);
      SweepLast(s, faces, bins);
    }
  }

  /** The last face of the frame, if above the threshold, leaves an active speaker. */
  lemma TriggeredByLastFace(s: Session, faces: seq<seq<Point>>, bins: seq<Byte>)
    requires forall j | 0 <= j < |faces| :: IsFace(faces[j])
    requires |bins| > 0 && |faces| > 0
    requires FreshEntries(faces, bins, s.history)[|faces| - 1].score > SpeakingThreshold
    ensures Sweep(s, faces, bins).active.Some?
  {
    var m := |faces| - 1;
    var prev := Sweep(s, faces[..m], bins);
    FreshEntriesPrefix(faces, bins, s.history, m);
    SweepHistory(s, faces[..m], bins);
    assert m in prev.history <==> m in s.history;
    FaceEntryLocal(faces[m], prev.history, s.history, m, bins);
    FaceStepScan(prev, faces[m], m, bins);
    SweepLast(s, faces, bins);
  }

  /** A face above the threshold anywhere in the frame makes sure the frame ends with some active speaker. */
  lemma {:induction false} TriggeredSweepHasSpeaker(s: Session, faces: seq<seq<Point>>, bins: seq<Byte>, i: nat)
    requires forall j | 0 <= j < |faces| :: IsFace(faces[j])
    requires |bins| > 0 && i < |faces|
    requires FreshEntries(faces, bins, s.history)[i].score > SpeakingThreshold
    ensures Sweep(s, faces, bins).active.Some?
    decreases |faces|
  {
    var m := |faces| - 1;
    if i < m {
      FreshEntriesPrefix(faces, bins, s.history, m);
      assert FreshEntries(faces[..m], bins, s.history)[i] == FreshEntries(faces, bins, s.history)[i];
      TriggeredSweepHasSpeaker(s, faces[..m], bins, i);
      SweepLast(s, faces, bins);
    } else {
      TriggeredByLastFace(s, faces, bins);
    }
  }

  /** One call of `onResults`. */
  function Step(s: Session, f: Frame): (s': Session)
    requires ValidFrame(f)
    ensures f.spectrum.None? ==> s' == s
    ensures s.active.Some? ==> s'.active.Some?
    ensures s'.audio.ready == s.audio.ready
    ensures FilterTracksSpeaker(s) ==> FilterTracksSpeaker(s')
  {
    match f.spectrum
    case None => s
    case Some(bins) => Sweep(s, f.faces, bins)
  }

  /** After a frame the history holds every present face's new entry and nothing else changed. */
  lemma StepRecordsFaces(s: Session, f: Frame)
    requires ValidFrame(f) && f.spectrum.Some?
    ensures RecordsFaces(s.history, Step(s, f).history, FreshEntries(f.faces, f.spectrum.value, s.history))
  {
    SweepHistory(s, f.faces, f.spectrum.value);
  }

  /** A frame in which no face exceeds the threshold changes neither speaker nor filter. */
  lemma QuietFrameKeepsSpeaker(s: Session, f: Frame)
    requires ValidFrame(f) && f.spectrum.Some?
    requires AllQuiet(FreshEntries(f.faces, f.spectrum.value, s.history))
    ensures Step(s, f).active == s.active && Step(s, f).audio == s.audio
  {
    QuietSweepKeepsSpeaker(s, f.faces, f.spectrum.value);
  }

  /** A frame in which some face exceeds the threshold ends with an active speaker. */
  lemma TriggeredFrameHasSpeaker(s: Session, f: Frame)
    requires ValidFrame(f) && f.spectrum.Some?
    requires !AllQuiet(FreshEntries(f.faces, f.spectrum.value, s.history))
    ensures Step(s, f).active.Some?
  {
    var entries := FreshEntries(f.faces, f.spectrum.value, s.history);
    var i :| 0 <= i < |entries| && entries[i].score > SpeakingThreshold;
    TriggeredSweepHasSpeaker(s, f.faces, f.spectrum.value, i);
  }

  /** A stream of frames. */
  function Run(s: Session, frames: seq<Frame>): (s': Session)
    requires forall n | 0 <= n < |frames| :: ValidFrame(frames[n])
    ensures s.active.Some? ==> s'.active.Some?
    ensures s'.audio.ready == s.audio.ready
    ensures FilterTracksSpeaker(s) ==> FilterTracksSpeaker(s')
    decreases |frames|
  {
    if |frames| == 0 then s else Run(Step(s, frames[0]), frames[1..])
  }
}
