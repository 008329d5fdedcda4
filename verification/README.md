# VoxLock speaker selection, modelled in Dafny

VoxLock is a browser prototype that watches up to two faces and picks the one
that is speaking. It then boosts that speaker with a per-speaker peaking filter.
The repository holds two near-identical copies of the MediaPipe frame handler
`onResults`:

- `frontend/script.js` scores each face as 60% lip velocity, 20% microphone
  volume and 20% centre bias. After the faces it picks the frame's highest
  score, and switches the active speaker when that score exceeds 0.3.
- the root `script.js` scores each face as 70% lip velocity and 30% volume,
  with no bias term. Each face is recorded in the score history at once. A face
  scoring above 0.3 triggers a scan of the whole history (`Object.keys` order),
  and the scan's winner becomes the active speaker.

Both copies share the per-face arithmetic:
- the mean y of landmarks 13–20 is the mouth height;
- the lip velocity is its absolute change against the stored height, times 60;
- the volume is the mean byte of the analyser spectrum divided by 255.

With DOM, canvas and capture removed, each handler is a deterministic step over
a `Session`. A session holds the history (face index to last mouth height and
score), the active speaker (`None` for `null`) and the audio output. The audio
output is whether an audio context exists, plus the one installed filter. Numbers
are Dafny `real`.

Modules, one file each:
- `Options` (`options.dfy`): the null-able value.
- `Measures` (`measures.dfy`): the shared per-face arithmetic.
- `VoiceFilter` (`voice_filter.dfy`): `applyVoiceFilter`.
- `Selection` (`selection.dfy`): the strict-`>` "pick highest" scan that both
  handlers write out, and the ascending key order of `Object.keys`.
- `Sessions` (`sessions.dfy`): frames, the session state and invariants over it.
- `FrontendScript` (`frontend_script.dfy`) and `RootScript` (`root_script.dfy`):
  the two handlers.
- `Scenarios` (`scenarios.dfy`): one concrete frame on which the two handlers
  disagree.
- `Page` (`page.dfy`): both handlers run from the page's initial state.

Where the code may surprise a reader, the model follows it:
- the centre bias is not clamped, so it is negative off-frame;
- the velocity uses the fixed factor 60, not a measured frame interval;
- there is no idle decay back to "no speaker" and no switching margin;
- a missing landmark is a crash, not a reported error.

## Model

| member | source | states |
|---|---|---|
| Sessions.Start | frontend/script.js:36 | The page starts with an empty history and no active speaker, and with no filter installed, so the filter already tracks the (absent) speaker. |
| Page.StreamsFromStart | script.js:32 | From the page's initial state, after any stream of frames through either handler, the installed filter is the active speaker's whenever there is an audio context, and there is no filter otherwise. |
| Measures.MouthYWithin | frontend/script.js:79-81 | The mouth height is a mean. It lies within any bounds that hold for the y of all eight mouth landmarks, so it is in [0,1] for normalised landmarks. |
| Measures.MouthYLocal | script.js:69-71 | The mouth height depends only on the y coordinates of landmarks 13–20. |
| Measures.LipVelocity | frontend/script.js:84-85 | The lip velocity is never negative. It is 0 exactly on a first sighting, when the stored mouth height is 0 (the logical-or fallback), or when the mouth height has not changed. |
| Measures.Volume | frontend/script.js:88-90 | For a non-empty byte spectrum the volume lies in [0,1]. It is 0 exactly when every bin is 0, and 1 exactly when every bin is 255. |
| Measures.CenterBias | frontend/script.js:92-94 | The centre bias is at most 1 and equals 1 exactly when the nose-tip x is 0.5. It is non-negative exactly when x is in [0,1], because it is not clamped. It is 0 exactly at the edges x = 0 and x = 1. |
| Measures.CenterBiasOrder | frontend/script.js:92-94 | A face closer to the centre gets a bias at least as large: one bias is at most another exactly when its nose tip is at least as far from x = 0.5, and strictly smaller exactly when strictly farther. |
| Measures.CenterBiasSymmetric | frontend/script.js:94 | The centre bias is symmetric about x = 0.5. |
| VoiceFilter.ConfigFor | frontend/script.js:126-129 | A speaker's filter is a peaking filter with gain 10, on the 200 Hz grid from 200 Hz. Reading the speaker back from it gives that speaker. |
| VoiceFilter.SpeakerOfInverse | script.js:119-122 | A filter configuration names speaker id exactly when it is that speaker's configuration. |
| VoiceFilter.ConfigForInjective | frontend/script.js:128 | Two speakers share a filter configuration only if they are the same speaker. |
| VoiceFilter.Apply | frontend/script.js:122-131 | Without an audio context nothing changes. Otherwise the single installed filter is replaced by one that names the new speaker. |
| Selection.PickHighestNone | frontend/script.js:71-72 | The scan from (0, null) selects nobody exactly when no score is positive, and then its maximum stays 0. Otherwise its maximum is positive. |
| Selection.PickHighestSelects | frontend/script.js:101-104 | With strict `>` the scan ends on the first position that holds the positive maximum, with that position's score and id. |
| Selection.FirstMaximumExists | script.js:90-95 | If any score is positive, some position is the first to hold the positive maximum. |
| Selection.SortedKeys | script.js:90 | The keys are listed once each, in strictly ascending numeric order: the order `Object.keys` uses for integer-like keys (section 10.1.11.1 of ECMA-262). |
| FrontendScript.Score | frontend/script.js:96-97 | The score is non-negative when lip velocity, volume and bias are. With volume and bias at most 1 it is at most 0.6·lip + 0.4. |
| FrontendScript.ScoreWithin | frontend/script.js:97 | The weights sum to one: the score lies within any bounds of its three inputs. |
| FrontendScript.ScoreMonotone | frontend/script.js:92-97 | The score never decreases when lip velocity, volume or centre bias grows, and increases strictly when any of them grows strictly. |
| FrontendScript.FaceEntry | frontend/script.js:79-98 | A face records its mouth height. Its score is non-negative when the nose tip is inside the frame, and at most 0.4 on a first sighting. |
| FrontendScript.FaceEntryLocal | frontend/script.js:84 | A face's entry reads the history only at its own index. |
| FrontendScript.Sweep | frontend/script.js:73-109 | After the faces, a selected id is a face index of the frame and the running maximum is positive. With no selection the maximum is 0. |
| FrontendScript.SweepHistory | frontend/script.js:98 | The history holds each face's new entry, scored against the history at the start of the frame. Indices absent from the frame are unchanged. |
| FrontendScript.SweepLead | frontend/script.js:100-104 | The per-face pick equals the scan over the frame-start scores in face order. |
| FrontendScript.SweepSelects | frontend/script.js:71-104 | The selected id is k exactly when k is the lowest face index holding the frame's maximum and that maximum is positive. It is null exactly when no face scores above 0, including a frame with no faces. |
| FrontendScript.Step | frontend/script.js:65-119 | Without an analyser the frame changes nothing. An active speaker never returns to null, and a new one is a face of the frame. The filter changes only with the speaker: a switch applies the new speaker's filter, and the filter keeps tracking the speaker. |
| FrontendScript.StepRecordsFaces | frontend/script.js:98 | After a frame the history holds every present face's new entry and nothing else changed. |
| FrontendScript.StepSwitches | frontend/script.js:111-114 | The active speaker becomes k exactly when k was not active, k is the lowest index holding the frame's maximum, and that maximum exceeds 0.3. |
| FrontendScript.QuietFrameKeepsSpeaker | frontend/script.js:111 | A frame in which no face exceeds 0.3 changes neither the speaker nor the filter. |
| FrontendScript.Run | frontend/script.js:24 | Over any stream of frames an active speaker never returns to null, and the installed filter keeps tracking the speaker. |
| RootScript.Score | script.js:82-83 | The score is non-negative for non-negative inputs. With volume at most 1 it is at most 0.7·lip + 0.3. |
| RootScript.ScoreWithin | script.js:83 | The weights sum to one: the score lies within any bounds of its two inputs. |
| RootScript.ScoreMonotone | script.js:82-83 | The score never decreases when lip velocity or volume grows, and increases strictly when either grows strictly. |
| RootScript.FaceEntry | script.js:68-84 | The score is non-negative. It exceeds 0.3 only if the lip velocity is positive, so a first sighting never triggers a scan. |
| RootScript.FaceEntryLocal | script.js:74 | A face's entry reads the history only at its own index. |
| RootScript.ScanSpec | script.js:88-95 | The history scan finds a winner exactly when some stored score is positive. The winner is the lowest-keyed maximum, and the scan's maximum is its score. |
| RootScript.ScanSelects | script.js:88-95 | Ties go to the lowest key: the scan selects k exactly when k is the lowest key holding the positive maximum of the history. |
| RootScript.FaceStep | script.js:63-101 | One face writes its entry before any check. An active speaker never returns to null. The filter changes only with the speaker: a switch applies the new speaker's filter, and the filter keeps tracking the speaker. |
| RootScript.FaceStepScan | script.js:84-100 | A face at or below 0.3 changes neither speaker nor filter. A face above it scans the whole history. The winner is never null, becomes or stays the active speaker, and scores at least as high as the triggering face. |
| RootScript.Sweep | script.js:63-106 | Over the faces of a frame an active speaker never returns to null, and the installed filter keeps tracking the speaker. |
| RootScript.SweepHistory | script.js:84 | After the faces, the history holds each face's entry scored against the frame-start history. Indices absent from the frame are unchanged. |
| RootScript.QuietSweepKeepsSpeaker | script.js:87 | If no face exceeds 0.3, no scan runs and neither speaker nor filter changes. |
| RootScript.TriggeredByLastFace | script.js:84-99 | If the last face of the frame scores above 0.3, the frame ends with an active speaker. |
| RootScript.TriggeredSweepHasSpeaker | script.js:87-99 | A face above 0.3 anywhere in the frame guarantees that the frame ends with an active speaker. |
| RootScript.Step | script.js:57-109 | Without an analyser the frame changes nothing. An active speaker never returns to null, and the filter keeps tracking the speaker. |
| RootScript.StepRecordsFaces | script.js:84 | After a frame the history holds every present face's new entry and nothing else changed. |
| RootScript.QuietFrameKeepsSpeaker | script.js:87 | A frame in which no face exceeds 0.3 changes neither the speaker nor the filter. |
| RootScript.TriggeredFrameHasSpeaker | script.js:87-97 | A frame in which some face exceeds 0.3 ends with an active speaker. |
| RootScript.Run | script.js:20 | Over any stream of frames an active speaker never returns to null, and the installed filter keeps tracking the speaker. |
| Scenarios.RootPicksStaleFace | script.js:84-99 | On a concrete frame, face 0 moves and triggers the scan. The scan picks face 1 from its stale score of the previous frame. Face 1 scores 0 now, so the still face ends active. |
| Scenarios.FrontendPicksMovingFace | frontend/script.js:97-114 | On the same frame the frontend handler picks face 0, the face that moved. |

## Left out

- Canvas drawing, `FACEMESH_LIPS`, score labels and status text: presentation only.
- MediaPipe FaceMesh and Camera setup: landmarks are an input of the frame.
- `initAudio`, `getUserMedia` and `MediaRecorder`: external capture. What they leave behind is modelled as two facts. One is whether an audio context exists (`AudioOut.ready`). The other is whether an analyser exists (`Frame.spectrum` is `None` when none does). The model treats the two facts as independent and lets the analyser differ from frame to frame. In the source an analyser exists only once an audio context does, and then it stays. This over-approximation admits more runs than the page can produce, so every property proved holds for the page's runs too.
- The Web Audio node graph (`createBiquadFilter`, `connect`, `disconnect`, the stream destination): only the installed filter's parameters are modelled, as a single slot.
- `sendToBackend` and all of `backend/app.py`: network I/O and random-noise output, no deterministic logic.
- IEEE floating point: numbers are `real`, so there is no rounding and no NaN. Each frame needs at least one bin, as the 128-bin analyser always provides.
- The analyser is read once per frame. The source reads it again for every face within the same synchronous call.
- Faces with fewer than 21 landmarks: the source would throw reading `landmarks[idx].y`, so `IsFace` is a precondition. FaceMesh always returns far more points.
- Speaker-change events and status messages are not separate outputs. A change shows as the new `active` value and the new filter.
- FrontendScript.Score: monotonicity in each input relates two calls, so it is stated by the lemma FrontendScript.ScoreMonotone and not in Score's own ensures.
- RootScript.Score: monotonicity in lip velocity and volume relates two calls, so it is stated by the lemma RootScript.ScoreMonotone and not in Score's own ensures.
- RootScript.Sweep: does not promise that the filter stays put when the active id is the same at the end of a frame. Inside one frame the root handler can switch A→B→A. The filter still ends on A's configuration, which the filter-tracking invariant states.
