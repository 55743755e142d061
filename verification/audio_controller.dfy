/** The audio controller's recorder and cue plumbing: the gate on cues fired by
    playback, the capture of show-state changes into the recording buffer,
    start/stop/save/discard, the editing handlers on the buffer and the saved
    script, the auto/custom mode and the reset on upload. The audio element is
    reduced to whether it exists and, while it does, its current time. */
module AudioController {
  import opened ShowTypes
  import opened ShowContext
  import CueEdits
  import Playback

  datatype Mode = Auto | Custom

  /** The controller's recording state. `saved` is null until a recording is
      saved; `snapshot` is the show state last seen by the capture effect. */
  datatype Recorder = Recorder(isRecording: bool, buffer: seq<CueEvent>, saved: Option<seq<CueEvent>>,
                               mode: Mode, snapshot: ShowState)

  /** A controller as first mounted: not recording, nothing recorded or saved,
      auto mode, and the provider's initial state as snapshot. */
  const InitialRecorder := Recorder(false, [], None, Auto, InitialShowState)

  /** onPatternEvent: a cue fired by playback becomes an update carrying exactly
      its colour and effect, stamped with the clock; nothing while the show is
      inactive. */
  function OnPatternEvent(show: ShowState, ev: CueEvent, now: int): (u: Option<Update>)
    ensures u.None? <==> !show.isActive
    ensures u.Some? ==> u.value.color == Some(ev.color) && u.value.effect == Some(ev.effect)
                        && u.value.isActive.None?
  {
    if !show.isActive then None
    else Some(Update(None, Some(ev.color), Some(ev.effect), Some(now)))
  }

  /** A cue fired on an active show takes the admin's state to the cue's colour
      and effect and keeps the show active. */
  lemma CueDrivesShow(show: ShowState, ev: CueEvent, now: int)
    requires show.isActive
    ensures TriggerStateUpdate(true, true, show, OnPatternEvent(show, ev, now).value, now).state
            == ShowState(true, ev.color, ev.effect, now)
  {
  }

  /** `useCustomScript`: custom playback needs custom mode and a saved script. */
  function UseCustomScript(r: Recorder): (b: bool)
    ensures b ==> r.saved.Some?
    ensures b <==> r.mode == Custom && r.saved.Some?
  {
    r.mode == Custom && r.saved.Some?
  }

  /** The script the playback hook follows for this controller state. */
  function PlaybackScript(r: Recorder, pattern: seq<CueEvent>): (s: seq<CueEvent>)
    ensures UseCustomScript(r) ==> s == r.saved.value
    ensures !UseCustomScript(r) ==> s == pattern
  {
    Playback.ActiveScript(UseCustomScript(r), r.saved, pattern)
  }

  /** The capture effect on a show-state change. It does nothing at all unless
      the controller is recording, playback is running and the audio element
      exists (its time given as `audioTime`). Otherwise the snapshot becomes the
      current state, and one cue `{time, color, effect}` is appended exactly when
      the id changed and the colour or the effect changed. */
  function Capture(r: Recorder, isPlaying: bool, audioTime: Option<real>, curr: ShowState): (r': Recorder)
    ensures r'.isRecording == r.isRecording && r'.saved == r.saved && r'.mode == r.mode
    ensures !r.isRecording || !isPlaying || audioTime.None? ==> r' == r
    ensures r.isRecording && isPlaying && audioTime.Some? ==> r'.snapshot == curr
    ensures r'.buffer == r.buffer || (|r'.buffer| == |r.buffer| + 1 && r'.buffer[..|r.buffer|] == r.buffer)
    ensures |r'.buffer| == |r.buffer| + 1 <==>
              && r.isRecording && isPlaying && audioTime.Some?
              && curr.id != r.snapshot.id
              && (curr.color != r.snapshot.color || curr.effect != r.snapshot.effect)
    ensures |r'.buffer| == |r.buffer| + 1 ==>
              r'.buffer[|r.buffer|] == CueEvent(audioTime.value, curr.color, curr.effect, None)
  {
    if !r.isRecording || !isPlaying || audioTime.None? then r
    else
      var prev := r.snapshot;
      var buffer :=
        if curr.id != prev.id && (curr.color != prev.color || curr.effect != prev.effect)
        then r.buffer + [CueEvent(audioTime.value, curr.color, curr.effect, None)]
        else r.buffer;
      r.(buffer := buffer, snapshot := curr)
  }

  /** Observing the same state twice (the audio element present both times)
      records it at most once. */
  lemma CaptureOnce(r: Recorder, isPlaying: bool, t1: real, t2: real, curr: ShowState)
    ensures var r1 := Capture(r, isPlaying, Some(t1), curr);
            Capture(r1, isPlaying, Some(t2), curr).buffer == r1.buffer
  {
  }

  /** A series of observations `(audio time, state)` during one recording. */
  function CaptureAll(r: Recorder, isPlaying: bool, obs: seq<(real, ShowState)>): (r': Recorder)
    decreases |obs|
  {
    if |obs| == 0 then r
    else CaptureAll(Capture(r, isPlaying, Some(obs[0].0), obs[0].1), isPlaying, obs[1..])
  }

  /** The cues a recording of `obs` should hold, read off the observations
      alone: an observation is recorded when its id and its colour or effect
      differ from the observation before it (the snapshot, for the first). */
  function Changes(prev: ShowState, obs: seq<(real, ShowState)>): (cues: seq<CueEvent>)
    decreases |obs|
  {
    if |obs| == 0 then []
    else
      var (t, s) := obs[0];
      (if s.id != prev.id && (s.color != prev.color || s.effect != prev.effect)
       then [CueEvent(t, s.color, s.effect, None)] else [])
      + Changes(s, obs[1..])
  }

  /** While recording and playing, capturing a series of observations appends
      exactly their changes to the buffer, and leaves the last one as snapshot. */
  lemma {:induction false} RecordingFidelity(r: Recorder, obs: seq<(real, ShowState)>)
    requires r.isRecording
    ensures CaptureAll(r, true, obs).buffer == r.buffer + Changes(r.snapshot, obs)
    ensures |obs| > 0 ==> CaptureAll(r, true, obs).snapshot == obs[|obs| - 1].1
    decreases |obs|
  {
    if |obs| > 0 {
      var r1 := Capture(r, true, Some(obs[0].0), obs[0].1);
      RecordingFidelity(r1, obs[1..]);
      var d := Changes(obs[0].1, obs[1..]);
      var c := Changes(r.snapshot, obs);
      assert c == (c[..|c| - |d|]) + d;
      assert r1.buffer == r.buffer + c[..|c| - |d|];
      assert r.buffer + c == r1.buffer + d;
      if |obs| > 1 {
        assert obs[1..][|obs[1..]| - 1] == obs[|obs| - 1];
      }
    } else {
      assert r.buffer + [] == r.buffer;
    }
  }

  /** startRecording: without an audio element nothing happens; otherwise the
      buffer is emptied, recording starts and the snapshot is the current state. */
  function StartRecording(r: Recorder, hasAudio: bool, curr: ShowState): (r': Recorder)
    ensures !hasAudio ==> r' == r
    ensures hasAudio ==> r'.isRecording && r'.buffer == [] && r'.snapshot == curr
    ensures r'.saved == r.saved && r'.mode == r.mode
  {
    if !hasAudio then r else r.(buffer := [], isRecording := true, snapshot := curr)
  }

  /** stopRecording: recording stops; the buffer is kept for saving or editing. */
  function StopRecording(r: Recorder): (r': Recorder)
    ensures !r'.isRecording
    ensures r'.buffer == r.buffer && r'.saved == r.saved && r'.mode == r.mode && r'.snapshot == r.snapshot
  {
    r.(isRecording := false)
  }

  /** saveRecording: the saved script becomes the buffer sorted stably by time
      and the mode switches to custom. The buffer itself is left as it was, and
      saving an empty buffer still yields a (present, empty) saved script. */
  function SaveRecording(r: Recorder): (r': Recorder)
    ensures r'.saved.Some? && r'.mode == Custom
    ensures SortedByTime(r'.saved.value)
    ensures multiset(r'.saved.value) == multiset(r.buffer) && |r'.saved.value| == |r.buffer|
    ensures forall tau :: CueEdits.AtTime(r'.saved.value, tau) == CueEdits.AtTime(r.buffer, tau)
    ensures r'.buffer == r.buffer && r'.isRecording == r.isRecording && r'.snapshot == r.snapshot
  {
    var sorted := CueEdits.SortByTime(r.buffer);
    assert forall tau :: CueEdits.AtTime(sorted, tau) == CueEdits.AtTime(r.buffer, tau) by {
      forall tau
        ensures CueEdits.AtTime(sorted, tau) == CueEdits.AtTime(r.buffer, tau)
      {
        CueEdits.SortIsStable(r.buffer, tau);
      }
    }
    r.(saved := Some(sorted), mode := Custom)
  }

  /** discardRecording: the buffer is emptied and recording stops; the saved
      script and the mode are untouched. */
  function DiscardRecording(r: Recorder): (r': Recorder)
    ensures r'.buffer == [] && !r'.isRecording
    ensures r'.saved == r.saved && r'.mode == r.mode && r'.snapshot == r.snapshot
  {
    r.(buffer := [], isRecording := false)
  }

  /** The reset on a new upload: no saved script, an empty buffer, not
      recording, auto mode. */
  function UploadReset(r: Recorder): (r': Recorder)
    ensures r'.saved.None? && r'.buffer == [] && !r'.isRecording && r'.mode == Auto
    ensures r'.snapshot == r.snapshot
  {
    r.(saved := None, buffer := [], isRecording := false, mode := Auto)
  }

  /** The auto button: always switches to auto mode. */
  function SelectAuto(r: Recorder): (r': Recorder)
    ensures r'.mode == Auto && r' == r.(mode := Auto)
  {
    r.(mode := Auto)
  }

  /** The custom button: switches to custom mode only when a script is saved. */
  function SelectCustom(r: Recorder): (r': Recorder)
    ensures r.saved.Some? ==> r'.mode == Custom
    ensures r.saved.None? ==> r' == r
    ensures r' == r.(mode := r'.mode)
  {
    if r.saved.Some? then r.(mode := Custom) else r
  }

  /** handleUpdateSavedEvent; the source maps over the saved script, which is
      only offered for editing while one exists. */
  function UpdateSaved(r: Recorder, i: int, updated: CueEvent): (r': Recorder)
    requires r.saved.Some?
    ensures r'.saved.Some? && r'.saved.value == CueEdits.UpdateAt(r.saved.value, i, updated)
    ensures r' == r.(saved := r'.saved)
  {
    r.(saved := Some(CueEdits.UpdateAt(r.saved.value, i, updated)))
  }

  /** handleDeleteSavedEvent: the filtered script, collapsing to null when it
      becomes empty; as with update, a saved script must exist. */
  function DeleteSaved(r: Recorder, i: int): (r': Recorder)
    requires r.saved.Some?
    ensures r'.saved == CueEdits.DeleteSaved(r.saved.value, i)
    ensures r' == r.(saved := r'.saved)
  {
    r.(saved := CueEdits.DeleteSaved(r.saved.value, i))
  }

  /** handleUpdateBufferEvent. */
  function UpdateBuffer(r: Recorder, i: int, updated: CueEvent): (r': Recorder)
    ensures r'.buffer == CueEdits.UpdateAt(r.buffer, i, updated)
    ensures r' == r.(buffer := r'.buffer)
  {
    r.(buffer := CueEdits.UpdateAt(r.buffer, i, updated))
  }

  /** handleDeleteBufferEvent: an emptied buffer stays an empty list. */
  function DeleteBuffer(r: Recorder, i: int): (r': Recorder)
    ensures r'.buffer == CueEdits.DeleteAt(r.buffer, i)
    ensures r' == r.(buffer := r'.buffer)
  {
    r.(buffer := CueEdits.DeleteAt(r.buffer, i))
  }

  /** Deleting the only saved cue leaves no saved script: playback falls back
      to the detected pattern although the mode still says custom. */
  lemma DeleteLastSavedFallsBack(r: Recorder, pattern: seq<CueEvent>)
    requires r.saved.Some? && |r.saved.value| == 1 && r.mode == Custom
    ensures var r' := DeleteSaved(r, 0);
            r'.saved.None? && r'.mode == Custom && !UseCustomScript(r') && PlaybackScript(r', pattern) == pattern
  {
  }

  /** Deleting the only buffered cue leaves an empty buffer, never null. */
  lemma DeleteLastBufferedStaysEmpty(r: Recorder)
    requires |r.buffer| == 1
    ensures DeleteBuffer(r, 0).buffer == []
  {
  }

  /** After a save, playback follows the sorted recording, and keeps following a
      sorted script through any popover edit. */
  lemma SavedScriptPlaysSorted(r: Recorder, pattern: seq<CueEvent>, i: int, color: string, effect: string)
    ensures var r1 := SaveRecording(r);
            && PlaybackScript(r1, pattern) == CueEdits.SortByTime(r.buffer)
            && SortedByTime(PlaybackScript(r1, pattern))
            && (0 <= i < |r.buffer| ==>
                  SortedByTime(PlaybackScript(UpdateSaved(r1, i, CueEdits.EditEvent(r1.saved.value[i], color, effect)), pattern)))
  {
    var r1 := SaveRecording(r);
    CueEdits.EditKeepsSorted(r1.saved.value, i, color, effect);
  }

  /** A recording started in the middle of a session keeps no cue from before:
      after start, capture while playing records exactly the changes observed. */
  lemma FreshRecording(r: Recorder, curr: ShowState, obs: seq<(real, ShowState)>)
    ensures CaptureAll(StartRecording(r, true, curr), true, obs).buffer == Changes(curr, obs)
  {
    RecordingFidelity(StartRecording(r, true, curr), obs);
    assert [] + Changes(curr, obs) == Changes(curr, obs);
  }

  /** Once recording is stopped, later show-state changes leave the buffer and
      the snapshot alone, however many are observed. */
  lemma {:induction false} StoppedRecorderIgnoresChanges(r: Recorder, isPlaying: bool, obs: seq<(real, ShowState)>)
    ensures CaptureAll(StopRecording(r), isPlaying, obs) == StopRecording(r)
    decreases |obs|
  {
    if |obs| > 0 {
      StoppedRecorderIgnoresChanges(r, isPlaying, obs[1..]);
    }
  }

  /** The unsaved-recording banner, which holds the save and discard buttons:
      shown while recording is stopped and the buffer is not empty. */
  predicate SaveOffered(r: Recorder)
  {
    !r.isRecording && |r.buffer| > 0
  }

  /** A freshly mounted controller plays the detected pattern, offers no save,
      and ignores the custom button until something is saved. */
  lemma InitialRecorderPlaysPattern(pattern: seq<CueEvent>)
    ensures PlaybackScript(InitialRecorder, pattern) == pattern
    ensures !SaveOffered(InitialRecorder)
    ensures SelectCustom(InitialRecorder) == InitialRecorder
  {
  }

  /** A take (start, capture while playing, stop) ends with the save offered
      exactly when it captured at least one change. */
  lemma SaveOfferedAfterTake(r: Recorder, curr: ShowState, obs: seq<(real, ShowState)>)
    ensures var taken := StopRecording(CaptureAll(StartRecording(r, true, curr), true, obs));
            && taken.buffer == Changes(curr, obs)
            && (SaveOffered(taken) <==> |Changes(curr, obs)| > 0)
  {
    FreshRecording(r, curr, obs);
  }

  /** startRecording's media side, as the media events it causes: a rewind to
      0 and `play`. Afterwards the recorder is armed, the player is playing,
      and its cursor is on the first cue at or after time 0, so over a
      script of non-negative times playback resumes from the first cue. */
  lemma StartRecordingPlaysFromTop(r: Recorder, curr: ShowState, p: Playback.Player, script: seq<CueEvent>)
    ensures var q := Playback.Step(Playback.Step(p, script, Playback.Seeked(0.0)).0, script, Playback.Play).0;
            && StartRecording(r, true, curr).isRecording
            && q.isPlaying
            && (|script| > 0 ==> forall k :: 0 <= k < q.cursor ==> script[k].time < 0.0)
            && (q.cursor < |script| ==> script[q.cursor].time >= 0.0)
            && (|script| > 0 && (forall k :: 0 <= k < |script| ==> script[k].time >= 0.0) ==> q.cursor == 0)
  {
  }

  /** A discard withdraws the save offer and leaves playback as it was: the
      saved script and the mode, and so the script played, are untouched. */
  lemma DiscardKeepsPlayback(r: Recorder, pattern: seq<CueEvent>)
    ensures !SaveOffered(DiscardRecording(r))
    ensures PlaybackScript(DiscardRecording(r), pattern) == PlaybackScript(r, pattern)
  {
  }

  /** After a new upload the controller plays the new detected pattern, the
      custom button does nothing, and no save is offered until a new recording
      captures something. */
  lemma UploadPlaysPattern(r: Recorder, pattern: seq<CueEvent>)
    ensures var r' := UploadReset(r);
            && PlaybackScript(r', pattern) == pattern
            && SelectCustom(r') == r'
            && !SaveOffered(r')
  {
  }

  /** The mode buttons choose the script: auto always plays the detected
      pattern; custom plays the saved script whenever one exists. */
  lemma ModeButtonsChooseScript(r: Recorder, pattern: seq<CueEvent>)
    ensures PlaybackScript(SelectAuto(r), pattern) == pattern
    ensures r.saved.Some? ==> PlaybackScript(SelectCustom(r), pattern) == r.saved.value
    ensures r.saved.None? ==> PlaybackScript(SelectCustom(r), pattern) == pattern
  {
  }
}
