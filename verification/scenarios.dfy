/**
 * Concrete frames for the two handlers. Two faces whose landmarks all sit at
 * (0.5, 0.5), a silent spectrum, and a history in which face 0's mouth was a
 * little higher last frame while face 1 was still but scored 0.9 then.
 * Face 0 is the one moving now.
 */
module Scenarios {
  import opened Options
  import opened Measures
  import opened Selection
  import opened VoiceFilter
  import opened Sessions
  import FrontendScript
  import RootScript

  function CentredFace(): (lm: seq<Point>)
    ensures IsFace(lm)
  {
    seq(MouthEnd, _ => Point(0.5, 0.5))
  }

  function Silence(): seq<Byte>
  {
    [0]
  }

  function LastFrame(): History
  {
    map[0 := Entry(0.49, 0.0), 1 := Entry(0.5, 0.9)]
  }

  function TwoFaces(): (f: Frame)
    ensures ValidFrame(f)
  {
    Frame([CentredFace(), CentredFace()], Some(Silence()))
  }

  lemma CentredFaceMeasures()
    ensures MouthY(CentredFace()) == 0.5
    ensures Volume(Silence()) == 0.0
    ensures CenterBias(CentredFace()[NoseTip].x) == 1.0
  {
    MouthYWithin(CentredFace(), 0.5, 0.5);
  }

  /**
   * In the root script face 0 triggers the scan, and the scan picks face 1
   * from its stale score of the previous frame; face 1 then scores 0 and
   * runs no scan, so the frame ends with the still face active.
   */
  lemma RootPicksStaleFace()
    ensures RootScript.FreshEntries(TwoFaces().faces, Silence(), LastFrame())[0].score > SpeakingThreshold
    ensures RootScript.FreshEntries(TwoFaces().faces, Silence(), LastFrame())[1].score == 0.0
    ensures RootScript.Step(Session(LastFrame(), None, AudioOut(true, None)), TwoFaces()).active == Some(1)
  {
    CentredFaceMeasures();
    var s := Session(LastFrame(), None, AudioOut(true, None));
    var faces := TwoFaces().faces;
    var bins := Silence();
    assert faces[..1][..0] == [];
    assert faces[..2] == faces;
    var afterNone := RootScript.Sweep(s, faces[..0], bins);
    assert afterNone == s;
    var e0 := RootScript.FaceEntry(faces[0], s.history, 0, bins);
    assert e0.score == 0.42;
    var afterFirst := RootScript.FaceStep(s, faces[0], 0, bins);
    RootScript.SweepLast(s, faces[..1], bins);
    assert RootScript.Sweep(s, faces[..1], bins) == afterFirst;
    var h := s.history[0 := e0];
    assert RootScript.LowestKeyMaximum(h, 1);
    RootScript.ScanSelects(h, 1);
    assert afterFirst.active == Some(1);
    var e1 := RootScript.FaceEntry(faces[1], afterFirst.history, 1, bins);
    assert e1.score == 0.0;
    RootScript.SweepLast(s, faces, bins);
  }

  /** On the same frame the frontend script picks face 0, the one that moved. */
  lemma FrontendPicksMovingFace()
    ensures FrontendScript.Step(Session(LastFrame(), None, AudioOut(true, None)), TwoFaces()).active == Some(0)
  {
    CentredFaceMeasures();
    var faces := TwoFaces().faces;
    var bins := Silence();
    var entries := FrontendScript.FreshEntries(faces, bins, LastFrame());
    assert entries[0].score == 0.56;
    assert entries[1].score == 0.2;
    var cs := FrontendScript.Candidates(entries);
    assert FirstMaximum(cs, 0);
    FrontendScript.SweepSelects(faces, bins, LastFrame(), 0);
  }
}
