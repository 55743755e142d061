# Light-show client, modelled in Dafny

The light-show client turns a phone into a coloured screen driven by one
admin. The admin's dashboard sends colour and effect commands. An audio
controller can drive the same commands from a music track, using cues taken
either from an onset detector that runs over the track's energy curve or
from a script the admin recorded by hand. Every command is merged into a
show state (`isActive`, `color`, `effect`, `id`) and broadcast. Each
audience screen replaces its state with what it receives and derives a
background colour and an animation class from it.

This project models the sequential logic of that system as pure functions,
with three loop methods (`OnsetDetector.LocalAverages`,
`OnsetDetector.PickPeaks` and `Playback.PlaybackTick`). The modules follow the source layout.

- `ShowTypes` (`show_types.dfy`): the cue event and show state records, the
  effect names, and sortedness predicates.
- `OnsetDetector` (`onset_detector.dfy`): the local moving average, the
  peak-picking scan with its cooldown, effect classification, palette colour
  cycling and frame times (`analyzeFullSong` from the energy series on).
- `Playback` (`playback.dfy`): active-script selection, one tick of
  `playbackLoop`, runs of ticks, `seeked`, `ended`, and a media-event step
  function.
- `CueEdits` (`cue_edits.dfy`): index-based update and delete, the saved
  script's collapse to null, the edit popover's replacement cue, and the
  stable sort by time.
- `AudioController` (`audio_controller.dfy`): the cue gate `onPatternEvent`,
  the recording capture effect, start/stop/save/discard, the editing
  handlers, the auto/custom mode and the reset on upload.
- `ShowContext` (`show_context.dfy`): the initial state, the admin's
  merge-and-emit `triggerStateUpdate`, and the audience's replace-on-receive.
- `AdminDashboard` (`admin.dfy`): colour select, show toggle and effect
  trigger.
- `AudienceView` (`audience.dfy`): the `localColor` derivation and the
  container class string.

Modelling choices:

- Colours and effect names are strings, because the code accepts any
  effect name.
- In a received show state, the empty string stands for an absent or
  falsy `color` or `effect`.
- JavaScript `null` is `Option.None`.
- Every `Date.now()` reading is a parameter `now`.
- The audio element's clock is a parameter `t` (`audioTime` during
  capture).
- Energies and times are exact reals.

Facts about the code that shape the model:

- The averaging window is `[max(0, i-10), min(n, i+10))`: ten frames
  before the frame and nine after it.
- `triggerStateUpdate` sends the whole merged state.
- A cue fires at most once while playing without a seek, whatever the
  clock does (`Playback.RunFiresAtMostOnce`).
  - A cue passed 0.1 s or more late is skipped unless it is the first
    cue of its tick.
  - Every cue of a sorted script fires when ticks are less than 0.1 s apart
    and the first tick comes less than 0.1 s after the cue under the cursor
    (`Playback.DenseRunFiresEvery`). A cursor left behind the clock, for
    instance by a switch between the detected and the saved script, can
    pass cues without firing them.

## Model

| member | source | states |
|---|---|---|
| `OnsetDetector.Window` | src/hooks/useAudioAnalyzer.js:86-89 | the window of frame `i` contains `i`, holds at most 20 frames, starts at `max(0, i-10)` and ends at `min(n, i+10)`: 10 before `i` or at 0, and 10 after `i` or at the series' end, never further from `i` |
| `OnsetDetector.LocalAvgWithinWindow` | src/hooks/useAudioAnalyzer.js:86-95 | the local average of every frame lies between the smallest and the largest energy of its window |
| `OnsetDetector.LocalAverages` | src/hooks/useAudioAnalyzer.js:87-95 | the nested summing loops produce, for every frame, the window sum divided by the window length |
| `OnsetDetector.ClassifyEffect` | src/hooks/useAudioAnalyzer.js:112-117 | the effect is `strobe` iff energy exceeds 2.5 times the average, `pulse` iff not that but above 1.8 times, and `none` otherwise |
| `OnsetDetector.ClassifyMonotone` | src/hooks/useAudioAnalyzer.js:112-117 | over a non-negative average, a stronger peak never gets a weaker effect |
| `OnsetDetector.PeakFrames` | src/hooks/useAudioAnalyzer.js:101-110 | accepted frames lie in `1 .. n-2`, are at least five apart, and number at most the frames scanned |
| `OnsetDetector.PeakFramesExact` | src/hooks/useAudioAnalyzer.js:101-127 | a frame is accepted iff it is a peak (a strict local maximum above 1.6 times its floor and above 0.5) not swallowed by the four-frame cooldown of an earlier acceptance |
| `OnsetDetector.FrameTimes` | src/hooks/useAudioAnalyzer.js:71-84 | frame `f` starts at `f * windowSize / sampleRate`, and frame start times strictly increase |
| `OnsetDetector.PeakScript` | src/hooks/useAudioAnalyzer.js:97-127 | every cue comes from a peak frame with that frame's time, energy and classified effect; the `k`-th cue has palette colour `k mod 8`; there are at most `n` cues and none when `n < 3`; when the frame times strictly increase, so do the cue times |
| `OnsetDetector.PeakScriptComplete` | src/hooks/useAudioAnalyzer.js:97-127 | every peak frame outside the cooldown of an earlier accepted frame has its cue in the script, at its rank |
| `OnsetDetector.ScanFrame` | src/hooks/useAudioAnalyzer.js:101-128 | one pass of the scan's loop body moves forward and keeps the invariant "accepted so far plus what the rest of the scan accepts is the whole scan" |
| `OnsetDetector.PickPeaks` | src/hooks/useAudioAnalyzer.js:97-129 | the scan loop with its colour counter and cooldown skip produces exactly the script that `PeakScript` characterises |
| `OnsetDetector.AnalyzeEnergies` | src/hooks/useAudioAnalyzer.js:71-131 | from the energy series: cues come from onsets over the local average, colours cycle the palette, times strictly increase, at most `n` cues, none for fewer than three frames |
| `Playback.ActiveScript` | src/hooks/useAudioAnalyzer.js:144 | playback follows the custom script iff the custom flag is set and a custom script exists, and the detected pattern otherwise |
| `Playback.ScanSpec` | src/hooks/useAudioAnalyzer.js:154-165 | the tick loop from an index stops at the first cue not yet due; every cue it passes is due; it fires exactly the passed cues that are the first or lag by under 0.1 s, in increasing order |
| `Playback.Tick` | src/hooks/useAudioAnalyzer.js:140-167 | a tick does nothing when not running, on an empty script, or with the cursor at or past the end; otherwise the cursor never decreases and stops at the first cue not due; the due first cue always fires; any later passed cue fires iff it lags the clock by under 0.1 s |
| `Playback.PlaybackTick` | src/hooks/useAudioAnalyzer.js:140-167 | the while loop as written computes the same cursor and fired list as `Tick` |
| `Playback.Run` | src/hooks/useAudioAnalyzer.js:154-167 | across successive ticks every fired index lies between the starting and the final cursor |
| `Playback.RunFiresAtMostOnce` | src/hooks/useAudioAnalyzer.js:154-167 | for any sequence of clock readings and any script, no cue fires twice and cues fire in increasing index order |
| `Playback.DenseRunFiresEvery` | src/hooks/useAudioAnalyzer.js:157-165 | over a sorted script, with ticks under 0.1 s apart and the first tick less than 0.1 s after the cue under the starting cursor, every cue passed fires exactly once, in order |
| `Playback.OnSeeked` | src/hooks/useAudioAnalyzer.js:195-205 | after a seek the cursor is the smallest index whose cue is at or after the position, or the script's length; an empty script leaves the cursor alone |
| `Playback.SeekThenTick` | src/hooks/useAudioAnalyzer.js:195-205 | over a sorted script, the first tick after a seek fires nothing earlier than the seek position, and fires the cue at the new cursor once it is due |
| `Playback.OnEnded` | src/hooks/useAudioAnalyzer.js:191-194 | `ended` stops playback and returns the cursor to 0 |
| `Playback.Step` | src/hooks/useAudioAnalyzer.js:183-205 | play sets the playing flag and pause clears it, both keeping the cursor; ended stops playback and returns the cursor to 0; a seek moves the cursor to `OnSeeked`'s position; a frame gives exactly the tick's cursor and fired cues and never moves the cursor back; only frames fire cues |
| `Playback.PausedFramesAreInert` | src/hooks/useAudioAnalyzer.js:141 | while paused, any number of animation frames fire nothing and leave the cursor unchanged |
| `Playback.EndedReplaysFromStart` | src/hooks/useAudioAnalyzer.js:191-194 | after `ended`, playing again fires the first cue once it is due |
| `CueEdits.UpdateAt` | src/components/AudioController.jsx:241-243 | an in-range update equals replacing that one position; an out-of-range index leaves the sequence unchanged |
| `CueEdits.UpdateIdempotent` | src/components/AudioController.jsx:249-251 | updating twice with the same cue is the same as updating once |
| `CueEdits.DeleteAt` | src/components/AudioController.jsx:252-254 | an in-range delete removes exactly that cue, keeping the others in order; an out-of-range index changes nothing |
| `CueEdits.DeleteAtMultiset` | src/components/AudioController.jsx:252-254 | a delete removes exactly one occurrence of the deleted cue, and the length drops by one |
| `CueEdits.DeleteSaved` | src/components/AudioController.jsx:244-246 | the saved script's delete collapses to null exactly when nothing remains |
| `CueEdits.PopoverEffect` | src/components/AudioController.jsx:19 | the popover starts from the cue's effect, or `none` when the cue has none, and never from an empty effect |
| `CueEdits.EditEvent` | src/components/AudioController.jsx:29 | the popover's replacement takes the picked colour and effect and keeps the cue's time and energy |
| `CueEdits.UntouchedPopoverSave` | src/components/AudioController.jsx:18-29 | saving the popover with untouched pickers returns the cue unchanged exactly when it had an effect; a cue without one comes back with effect `none` |
| `CueEdits.EditKeepsSorted` | src/components/AudioController.jsx:29 | a popover edit of a sorted script leaves it sorted |
| `CueEdits.DeleteKeepsSorted` | src/components/AudioController.jsx:244-254 | deleting a cue leaves a sorted script sorted |
| `CueEdits.Insert` | src/components/AudioController.jsx:235 | insertion adds exactly the new cue and one to the length |
| `CueEdits.InsertKeepsSorted` | src/components/AudioController.jsx:235 | insertion into a sorted sequence keeps it sorted |
| `CueEdits.SortByTime` | src/components/AudioController.jsx:235 | the sort's result is sorted by time, has the same length, and is a permutation of the buffer |
| `CueEdits.SortIsStable` | src/components/AudioController.jsx:235 | for every time, the cues at that time keep their buffer order |
| `AudioController.OnPatternEvent` | src/components/AudioController.jsx:180-184 | a cue gives no update while the show is inactive; otherwise the update carries exactly the cue's colour and effect and leaves `isActive` alone |
| `AudioController.CueDrivesShow` | src/components/AudioController.jsx:180-182 | a cue fired on an active show sets the admin's state to that cue's colour and effect, still active |
| `AudioController.UseCustomScript` | src/components/AudioController.jsx:186 | custom playback holds iff the mode is custom and a saved script exists |
| `AudioController.PlaybackScript` | src/components/AudioController.jsx:186-189 | playback follows the saved script when custom playback holds, and the detected pattern otherwise |
| `AudioController.Capture` | src/components/AudioController.jsx:192-200 | without recording, playback or an audio element nothing changes; otherwise the snapshot becomes the current state, and the buffer grows by one cue `{audio time, colour, effect}` iff the id changed and the colour or effect changed |
| `AudioController.CaptureOnce` | src/components/AudioController.jsx:194-199 | observing the same state twice records it at most once |
| `AudioController.RecordingFidelity` | src/components/AudioController.jsx:192-200 | while recording and playing, a series of observations appends exactly the observed changes (as read off the observations alone) and leaves the last one as snapshot |
| `AudioController.StartRecording` | src/components/AudioController.jsx:226-231 | without an audio element nothing happens; otherwise the buffer empties, recording starts and the snapshot is the current state |
| `AudioController.FreshRecording` | src/components/AudioController.jsx:226-228 | after a start, the buffer holds only the changes observed since |
| `AudioController.StopRecording` | src/components/AudioController.jsx:233 | recording stops and nothing else changes |
| `AudioController.SaveRecording` | src/components/AudioController.jsx:234-237 | the saved script is the buffer sorted stably by time, a permutation of it with the same length; the mode becomes custom; the buffer is kept |
| `AudioController.DiscardRecording` | src/components/AudioController.jsx:238 | the buffer empties and recording stops; the saved script and mode are untouched |
| `AudioController.UploadReset` | src/components/AudioController.jsx:216 | a new upload clears the saved script and the buffer, stops recording and selects auto mode |
| `AudioController.SelectAuto` | src/components/AudioController.jsx:308 | the auto button selects auto mode and changes nothing else |
| `AudioController.SelectCustom` | src/components/AudioController.jsx:311 | the custom button selects custom mode only when a saved script exists, and changes nothing else |
| `AudioController.UpdateSaved` | src/components/AudioController.jsx:241-243 | the saved script is updated at the index and nothing else changes |
| `AudioController.DeleteSaved` | src/components/AudioController.jsx:244-246 | the saved script loses the cue at the index, collapsing to null when emptied, and nothing else changes |
| `AudioController.UpdateBuffer` | src/components/AudioController.jsx:249-251 | the buffer is updated at the index and nothing else changes |
| `AudioController.DeleteBuffer` | src/components/AudioController.jsx:252-254 | the buffer loses the cue at the index and nothing else changes |
| `AudioController.DeleteLastSavedFallsBack` | src/components/AudioController.jsx:244-246 | deleting the only saved cue leaves no saved script; the mode still says custom, but playback follows the detected pattern |
| `AudioController.DeleteLastBufferedStaysEmpty` | src/components/AudioController.jsx:252-254 | deleting the only buffered cue leaves an empty buffer, not null |
| `AudioController.SavedScriptPlaysSorted` | src/components/AudioController.jsx:234-243 | after a save, playback follows the sorted recording, and the script stays sorted through any popover edit |
| `AudioController.StoppedRecorderIgnoresChanges` | src/components/AudioController.jsx:192-200 | once recording is stopped, any series of observed show changes leaves the recorder exactly as the stop left it |
| `AudioController.InitialRecorderPlaysPattern` | src/components/AudioController.jsx:172-175 | a freshly mounted controller plays the detected pattern, offers no save, and the custom button does nothing |
| `AudioController.SaveOfferedAfterTake` | src/components/AudioController.jsx:341 | after start, capture while playing and stop, the buffer holds exactly the observed changes, and the save banner shows iff there is at least one |
| `AudioController.StartRecordingPlaysFromTop` | src/components/AudioController.jsx:226-230 | starting a recording, then its rewind and `play`, leaves the recorder armed and the player playing, with its cursor on the first cue at or after time 0 (index 0 when no cue is negative) |
| `AudioController.DiscardKeepsPlayback` | src/components/AudioController.jsx:238 | a discard hides the save-or-discard banner and leaves the script being played unchanged |
| `AudioController.UploadPlaysPattern` | src/components/AudioController.jsx:216 | after a new upload, playback follows the new pattern, the custom button is inert, and no save is offered |
| `AudioController.ModeButtonsChooseScript` | src/components/AudioController.jsx:186-189 | the auto button makes playback follow the pattern; the custom button makes it follow the saved script when one exists, and the pattern otherwise |
| `ShowContext.InitialStateIsDark` | src/context/ShowContext.jsx:5-10 | the initial state is inactive, `#000000`, effect `none`, id 0 |
| `ShowContext.Merge` | src/context/ShowContext.jsx:46-51 | fields present in the update take its values, absent ones keep the previous values, and the id is always the supplied clock |
| `ShowContext.MergeComposes` | src/context/ShowContext.jsx:46-51 | two merges in a row equal one merge of the combined update under the later clock |
| `ShowContext.ReapplyChangesOnlyId` | src/context/ShowContext.jsx:50 | re-applying an update changes only the id, and a new clock makes the state differ anyway |
| `ShowContext.TriggerStateUpdate` | src/context/ShowContext.jsx:43-60 | a non-admin call changes nothing and sends nothing; an admin call merges; a payload is sent iff admin and connected, and it is the whole new state |
| `ShowContext.PayloadIsWholeState` | src/context/ShowContext.jsx:54-57 | an effect-only update still sends the current colour and `isActive` |
| `ShowContext.Receive` | src/context/ShowContext.jsx:30-32 | the replica's state becomes exactly the received message |
| `ShowContext.AdminRun` | src/context/ShowContext.jsx:43-60 | a series of admin updates sends one payload per update, stamped with that update's clock; the last payload is the final state |
| `ShowContext.ReplicaConverges` | src/context/ShowContext.jsx:30-57 | a replica that receives every payload ends in the admin's state, whatever it held before |
| `AdminDashboard.HandleColorSelect` | src/pages/AdminDashboard.jsx:21-26 | the selection always becomes the pressed colour; `{color}` is sent iff the show is active |
| `AdminDashboard.ToggleShow` | src/pages/AdminDashboard.jsx:28-34 | an active show gets `{isActive: false, effect: none}`; an inactive one gets `{isActive: true, color: selected, effect: none}` |
| `AdminDashboard.TriggerEffect` | src/pages/AdminDashboard.jsx:36-39 | nothing while inactive; otherwise `{effect, color: selected}` |
| `AdminDashboard.ToggleTwiceRestores` | src/pages/AdminDashboard.jsx:28-34 | two merged toggles restore `isActive`, leave effect `none`, and show the selected colour |
| `AdminDashboard.InactiveShowIgnoresCommands` | src/pages/AdminDashboard.jsx:23-37 | while inactive, colour presses and effect buttons send nothing |
| `AdminDashboard.EffectOnActiveShow` | src/pages/AdminDashboard.jsx:36-39 | an effect on an active show yields an active state with that effect and the selected colour |
| `AudienceView.DisplayColor` | src/pages/AudienceView.jsx:15-26 | black when inactive; `#ff0000` for a rainbow on black or on no colour; the state's colour when active with a colour, outside that rainbow case; black when active with neither a colour nor a rainbow |
| `AudienceView.DisplayColorDefined` | src/pages/AudienceView.jsx:15-26 | the screen colour is never empty, and is black exactly when the show is off, or when there is no rainbow and the colour is black or absent |
| `AudienceView.LocalColor` | src/pages/AudienceView.jsx:15-26 | the colour is recomputed iff `isActive`, `color` or `id` changed, and kept otherwise |
| `AudienceView.FreshStampRefreshesColor` | src/pages/AudienceView.jsx:26 | a payload with a new clock stamp makes the replica recompute its colour from the admin's state |
| `AudienceView.EffectOnlyChangeIsNotShown` | src/pages/AudienceView.jsx:26 | without a new stamp, switching a black show to rainbow keeps the screen black, although the derivation asks for red |
| `AudienceView.AnimationClass` | src/pages/AudienceView.jsx:31-45 | no class while inactive or for `none`; a class only for strobe, pulse, glitch, rainbow, blink and breathe |
| `AudienceView.AnimationClassIsTable` | src/pages/AudienceView.jsx:31-45 | the if-chain equals lookup in the effect-to-class table, with any effect not listed getting no class |
| `AudienceView.ContainerClasses` | src/pages/AudienceView.jsx:28-48 | the class string is the base classes, plus one space and the table's class when the show is active with a listed effect |
| `AudienceView.ToggleOnShowsSelectedColor` | src/pages/AudienceView.jsx:15-45 | when the admin switches an inactive show on, every replica receiving the payload shows the selected palette colour, without animation |
| `AudienceView.FirstToggleShowsRed` | src/pages/AdminDashboard.jsx:19 | the first toggle from the initial show state with the dashboard's initial selection shows the first palette colour, red, on every replica |

## Left out

- Web Audio decoding, the 150 Hz low-pass filter and offline rendering
  (src/hooks/useAudioAnalyzer.js:45-69) are browser APIs. The energy
  series is an input.
- The RMS per frame (square root and ×100 scaling, src/hooks/useAudioAnalyzer.js:74-84)
  is floating-point numerics. Energies are exact reals given as input.
  Frame times are modelled as `f * windowSize / sampleRate`.
- `OnsetDetector.AnalyzeEnergies` requires `windowSize > 0`. The source
  computes `floor(sampleRate * 0.05)`, and its framing loop would not
  terminate for a zero window (a sample rate below 20 Hz).
- The realtime analyser and the VU meter (src/hooks/useAudioAnalyzer.js:20-39,146-152)
  are device-bound and do not affect the cues.
- `requestAnimationFrame` rescheduling and the event-listener wiring
  (src/hooks/useAudioAnalyzer.js:170,173-231) are left out. One tick and
  one media event are modelled as functions.
- `togglePlayback`'s rewind to 0 and `play()` call, `startRecording`'s
  rewind to 0 and `play()` call (src/components/AudioController.jsx:230),
  and the pause inside `stopRecording` act on the media element. They are
  represented by the `Seeked`, `Play` and `Pause` media events
  (`AudioController.StartRecordingPlaysFromTop` composes the start with them).
- `startRecording`'s first-use `initRealtimeAudio()` call
  (src/components/AudioController.jsx:229) sets up the realtime analyser,
  which is device-bound and does not affect cues or recording.
- The 150 ms `setTimeout` that resets the effect to `none` after each cue
  (src/components/AudioController.jsx:183) is a timer. `Date.now()` is the
  parameter `now`.
- The socket.io connection, emit and disconnect (src/context/ShowContext.jsx:21-40)
  are transport. A payload counts as sent when the socket object exists.
- JSX rendering, popover positioning, the timeline layout, src/App.jsx
  (routing) and tailwind.config.js (styling) are presentation only.
- src/hooks/useShow.js is a thin context wrapper that is not part of this
  model. It imports a `ShowContext` that src/context/ShowContext.jsx does
  not export.
- `AudioController.UpdateSaved` and `AudioController.DeleteSaved` require
  that a saved script exists. The source maps or filters the saved script
  unguarded, which would throw on null; the editing UI only offers these
  handlers while a saved script exists.
- `AudienceView.LocalColor` models only the colour derivation. The 100 ms
  fade-in of the audience page is a timer and is left out.
