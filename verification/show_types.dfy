/** Records shared by every part of the light-show client: the cue event that the
    onset detector, the recorder and the playback scheduler pass around, and the
    show state that the admin originates and the audience replicas display. */
module ShowTypes {

  /** A present value, or None for JavaScript's `null`. */
  datatype Option<T> = None | Some(value: T) {

    /** The wrapped value, or `default` when there is none. */
    function GetOr(default: T): T
    {
      match this
      case Some(v) => v
      case None => default
    }
  }

  /** One cue: a colour/effect change tied to a track timestamp in seconds.
      `energy` is present only on cues produced by the onset detector. */
  datatype CueEvent = CueEvent(time: real, color: string, effect: string, energy: Option<real>)

  /** The show state. `id` carries no business meaning: it changes on every
      admin update so that receivers re-apply even an unchanged colour/effect.
      A received message may lack fields; the empty string stands for an absent
      (falsy) `color` or `effect`. */
  datatype ShowState = ShowState(isActive: bool, color: string, effect: string, id: int)

  const Black := "#000000"

  const NoEffect := "none"
  const Pulse := "pulse"
  const Strobe := "strobe"
  const Glitch := "glitch"
  const Rainbow := "rainbow"
  const Blink := "blink"
  const Breathe := "breathe"

  /** Event times never decrease along the sequence. */
  ghost predicate SortedByTime(s: seq<CueEvent>)
  {
    forall i, j :: 0 <= i <= j < |s| ==> s[i].time <= s[j].time
  }

  /** Strictly increasing natural numbers: a list of distinct indices in order. */
  ghost predicate StrictlyIncreasing(s: seq<nat>)
  {
    forall i, j :: 0 <= i < j < |s| ==> s[i] < s[j]
  }

  /** The same order on times, which are reals rather than indices. */
  ghost predicate StrictlyIncreasingTimes(times: seq<real>)
  {
    forall j, k :: 0 <= j < k < |times| ==> times[j] < times[k]
  }
}
