/** The page as a whole: either handler, driven from the initial globals. */
module Page {
  import opened Sessions
  import FrontendScript
  import RootScript

  /** From the initial state the installed filter always belongs to the active speaker. */
  lemma StreamsFromStart(ready: bool, frames: seq<Frame>)
    requires forall n | 0 <= n < |frames| :: ValidFrame(frames[n])
    ensures FilterTracksSpeaker(FrontendScript.Run(Start(ready), frames))
    ensures FilterTracksSpeaker(RootScript.Run(Start(ready), frames))
  {
  }
}
