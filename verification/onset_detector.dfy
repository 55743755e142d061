/** The offline onset detector of `analyzeFullSong`: from a series of per-frame
    low-band energies, a moving-average noise floor, a peak picker with a
    cooldown, and the cue script it produces. Decoding, the low-pass filter and
    the RMS computation are outside the model: energies arrive as reals, one per
    frame of `windowSize` samples at `sampleRate` samples per second. */
module OnsetDetector {
  import opened ShowTypes

  /** The palette cycled through in onset order. */
  const Colors: seq<string> := ["#ef4444", "#3b82f6", "#10b981", "#8b5cf6", "#eab308", "#06b6d4", "#ec4899", "#ffffff"]

  /** Half of the 20-frame averaging window. */
  const HalfWindow: nat := 10
  /** Frames skipped after an accepted onset (on top of the loop's own step). */
  const CooldownFrames: nat := 4

  const PeakRatio := 1.6
  const EnergyFloor := 0.5
  const StrobeRatio := 2.5
  const PulseRatio := 1.8

  function Sum(s: seq<real>): real
  {
    if |s| == 0 then 0.0 else Sum(s[..|s| - 1]) + s[|s| - 1]
  }

  function Min(s: seq<real>): (m: real)
    requires |s| > 0
    ensures m in s
    ensures forall k :: 0 <= k < |s| ==> m <= s[k]
  {
    if |s| == 1 then s[0]
    else
      var r := Min(s[..|s| - 1]);
      assert r in s[..|s| - 1];
      if s[|s| - 1] < r then s[|s| - 1] else r
  }

  function Max(s: seq<real>): (m: real)
    requires |s| > 0
    ensures m in s
    ensures forall k :: 0 <= k < |s| ==> s[k] <= m
  {
    if |s| == 1 then s[0]
    else
      var r := Max(s[..|s| - 1]);
      assert r in s[..|s| - 1];
      if s[|s| - 1] > r then s[|s| - 1] else r
  }

  /** The averaging window of frame `i` among `n` frames, as the half-open
      range `[max(0, i - 10), min(n, i + 10))`: never empty, at most 20 frames,
      always holding `i` itself. */
  function Window(n: nat, i: nat): (w: (nat, nat))
    requires i < n
    ensures w.0 <= i < w.1 <= n
    ensures w.1 - w.0 <= 2 * HalfWindow
    ensures w.0 == 0 || w.0 + HalfWindow == i
    ensures w.1 == n || w.1 == i + HalfWindow
    ensures i <= w.0 + HalfWindow && w.1 <= i + HalfWindow
  {
    (if i >= HalfWindow then i - HalfWindow else 0, if i + HalfWindow <= n then i + HalfWindow else n)
  }

  /** The adaptive noise floor of frame `i`: the mean energy over its window. */
  function LocalAvg(e: seq<real>, i: nat): real
    requires i < |e|
  {
    var w := Window(|e|, i);
    Sum(e[w.0..w.1]) / (w.1 - w.0) as real
  }

  lemma LowerStep(n: real, lo: real, prefixSum: real, last: real)
    requires n >= 0.0 && lo <= last && n * lo <= prefixSum
    ensures (n + 1.0) * lo <= prefixSum + last
  {
  }

  lemma UpperStep(n: real, hi: real, prefixSum: real, last: real)
    requires n >= 0.0 && last <= hi && prefixSum <= n * hi
    ensures prefixSum + last <= (n + 1.0) * hi
  {
  }

  /** A sum of terms each at least `lo` is at least `|s|` times `lo`. */
  lemma {:induction false} SumAtLeast(s: seq<real>, lo: real)
    requires forall k :: 0 <= k < |s| ==> lo <= s[k]
    ensures |s| as real * lo <= Sum(s)
    decreases |s|
  {
    if |s| > 0 {
      var p := s[..|s| - 1];
      SumAtLeast(p, lo);
      var x := s[|s| - 1];
      var n := |p| as real;
      var ps := Sum(p);
      assert Sum(s) == ps + x;
      assert |s| as real == n + 1.0;
      LowerStep(n, lo, ps, x);
    }
  }

  /** A sum of terms each at most `hi` is at most `|s|` times `hi`. */
  lemma {:induction false} SumAtMost(s: seq<real>, hi: real)
    requires forall k :: 0 <= k < |s| ==> s[k] <= hi
    ensures Sum(s) <= |s| as real * hi
    decreases |s|
  {
    if |s| > 0 {
      var p := s[..|s| - 1];
      SumAtMost(p, hi);
      var x := s[|s| - 1];
      var n := |p| as real;
      var ps := Sum(p);
      assert Sum(s) == ps + x;
      assert |s| as real == n + 1.0;
      UpperStep(n, hi, ps, x);
    }
  }

  lemma MeanBounds(sum: real, n: real, lo: real, hi: real)
    requires n > 0.0 && n * lo <= sum <= n * hi
    ensures lo <= sum / n <= hi
  {
    assert sum / n - lo == (sum - n * lo) / n;
    assert hi - sum / n == (n * hi - sum) / n;
  }

  /** The mean of a non-empty series bounded by `lo` and `hi` is bounded by them. */
  lemma MeanWithin(s: seq<real>, lo: real, hi: real)
    requires |s| > 0
    requires forall k :: 0 <= k < |s| ==> lo <= s[k] <= hi
    ensures lo <= Sum(s) / |s| as real <= hi
  {
    SumAtLeast(s, lo);
    SumAtMost(s, hi);
    MeanBounds(Sum(s), |s| as real, lo, hi);
  }

  /** The noise floor of every frame lies between the least and the greatest
      energy of its window. */
  lemma LocalAvgWithinWindow(e: seq<real>, i: nat)
    requires i < |e|
    ensures var w := Window(|e|, i);
            Min(e[w.0..w.1]) <= LocalAvg(e, i) <= Max(e[w.0..w.1])
  {
    var w := Window(|e|, i);
    var s := e[w.0..w.1];
    MeanWithin(s, Min(s), Max(s));
  }

  /** The noise floor of every frame, computed as the source does with a
      running sum over each window. */
  method LocalAverages(e: seq<real>) returns (avg: seq<real>)
    ensures |avg| == |e|
    ensures forall i :: 0 <= i < |e| ==> avg[i] == LocalAvg(e, i)
  {
    avg := [];
    var i := 0;
    while i < |e|
      invariant 0 <= i <= |e|
      invariant |avg| == i
      invariant forall k :: 0 <= k < i ==> avg[k] == LocalAvg(e, k)
    {
      var start := if i >= HalfWindow then i - HalfWindow else 0;
      var end := if i + HalfWindow <= |e| then i + HalfWindow else |e|;
      var localSum := 0.0;
      var j := start;
      while j < end
        invariant start <= j <= end
        invariant localSum == Sum(e[start..j])
      {
        assert e[start..j + 1][..j - start] == e[start..j];
        localSum := localSum + e[j];
        j := j + 1;
      }
      avg := avg + [localSum / (end - start) as real];
      i := i + 1;
    }
  }

  /** The noise floor of every frame, as a series. */
  function NoiseFloors(e: seq<real>): (fl: seq<real>)
    ensures |fl| == |e|
    ensures forall i :: 0 <= i < |e| ==> fl[i] == LocalAvg(e, i)
  {
    seq(|e|, i requires 0 <= i < |e| => LocalAvg(e, i))
  }

  /** Frame `i` is a peak over the noise floor `floor`: a strict local maximum,
      more than 1.6 times its floor and above the absolute floor 0.5. Only
      frames `1 .. n-2` qualify. */
  predicate IsPeak(e: seq<real>, floor: seq<real>, i: nat)
    requires |floor| == |e|
  {
    && 1 <= i && i + 1 < |e|
    && e[i] > e[i - 1]
    && e[i] > e[i + 1]
    && e[i] > floor[i] * PeakRatio
    && e[i] > EnergyFloor
  }

  /** The effect of an onset from its peak-to-floor ratio. */
  function ClassifyEffect(energy: real, avg: real): (fx: string)
    ensures fx == Strobe <==> energy > avg * StrobeRatio
    ensures fx == Pulse <==> !(energy > avg * StrobeRatio) && energy > avg * PulseRatio
    ensures fx == NoEffect <==> !(energy > avg * StrobeRatio) && !(energy > avg * PulseRatio)
  {
    if energy > avg * StrobeRatio then Strobe
    else if energy > avg * PulseRatio then Pulse
    else NoEffect
  }

  /** Intensity order of the three detector effects. */
  function EffectRank(fx: string): nat
  {
    if fx == Strobe then 2 else if fx == Pulse then 1 else 0
  }

  /** Over a non-negative floor, a stronger peak never gets a weaker effect. */
  lemma ClassifyMonotone(e1: real, e2: real, avg: real)
    requires avg >= 0.0 && e1 <= e2
    ensures EffectRank(ClassifyEffect(e1, avg)) <= EffectRank(ClassifyEffect(e2, avg))
  {
  }

  /** The frames the peak picker accepts, scanning from frame `i`: after an
      acceptance the scan resumes five frames later (cooldown of four plus the
      loop's own step). Accepted frames lie in `1 .. n-2` and are at least five
      apart, so there are never more of them than frames scanned. */
  function PeakFrames(e: seq<real>, floor: seq<real>, i: nat): (fs: seq<nat>)
    requires |floor| == |e|
    ensures forall k :: 0 <= k < |fs| ==> i <= fs[k] && fs[k] + 1 < |e|
    ensures forall j, k :: 0 <= j < k < |fs| ==> fs[j] + CooldownFrames + 1 <= fs[k]
    ensures i <= |e| ==> |fs| <= |e| - i
    decreases |e| - i
  {
    if i + 1 >= |e| then []
    else if IsPeak(e, floor, i) then [i] + PeakFrames(e, floor, i + CooldownFrames + 1)
    else PeakFrames(e, floor, i + 1)
  }

  /** Frame `j` lies inside the cooldown of some accepted frame. */
  predicate InCooldown(fs: seq<nat>, j: nat)
  {
    exists k :: 0 <= k < |fs| && fs[k] < j <= fs[k] + CooldownFrames
  }

  /** Cooldown bookkeeping when an acceptance at `i` is followed by later
      acceptances `rest`, all at least five frames on. */
  lemma CooldownAfterAccept(i: nat, rest: seq<nat>, j: nat)
    requires forall k :: 0 <= k < |rest| ==> i + CooldownFrames + 1 <= rest[k]
    requires i < j
    ensures j <= i + CooldownFrames ==> InCooldown([i] + rest, j) && j !in [i] + rest
    ensures j > i + CooldownFrames ==> (InCooldown([i] + rest, j) <==> InCooldown(rest, j)) && (j in [i] + rest <==> j in rest)
  {
    var fs := [i] + rest;
    if j <= i + CooldownFrames {
      assert fs[0] < j <= fs[0] + CooldownFrames;
    } else {
      if InCooldown(rest, j) {
        var k :| 0 <= k < |rest| && rest[k] < j <= rest[k] + CooldownFrames;
        assert fs[k + 1] == rest[k];
      }
      if InCooldown(fs, j) {
        var k :| 0 <= k < |fs| && fs[k] < j <= fs[k] + CooldownFrames;
        assert k > 0;
        assert rest[k - 1] == fs[k];
      }
    }
  }

  /** The scan is exactly greedy: a frame at or after the start is accepted iff
      it is a peak not swallowed by the cooldown of an earlier acceptance. */
  lemma {:induction false} PeakFramesExact(e: seq<real>, floor: seq<real>, i: nat, j: nat)
    requires |floor| == |e| && i <= j
    ensures j in PeakFrames(e, floor, i) <==> IsPeak(e, floor, j) && !InCooldown(PeakFrames(e, floor, i), j)
    decreases |e| - i
  {
    if i + 1 >= |e| {
      assert !IsPeak(e, floor, j);
    } else if IsPeak(e, floor, i) {
      var rest := PeakFrames(e, floor, i + CooldownFrames + 1);
      PeakFramesStep(e, floor, i);
      if j == i {
        assert PeakFrames(e, floor, i)[0] == j;
        assert !InCooldown(PeakFrames(e, floor, i), j);
      } else {
        CooldownAfterAccept(i, rest, j);
        if j > i + CooldownFrames {
          PeakFramesExact(e, floor, i + CooldownFrames + 1, j);
        }
      }
    } else {
      PeakFramesStep(e, floor, i);
      if j > i {
        PeakFramesExact(e, floor, i + 1, j);
      }
    }
  }

  /** One step of the scan from frame `i`: a peak is accepted and the scan
      resumes after the cooldown; any other frame is passed over. */
  lemma PeakFramesStep(e: seq<real>, floor: seq<real>, i: nat)
    requires |floor| == |e| && i + 1 < |e|
    ensures IsPeak(e, floor, i) ==> PeakFrames(e, floor, i) == [i] + PeakFrames(e, floor, i + CooldownFrames + 1)
    ensures !IsPeak(e, floor, i) ==> PeakFrames(e, floor, i) == PeakFrames(e, floor, i + 1)
  {
  }

  /** Start time in seconds of frame `f`: its first sample over the sample rate. */
  function FrameTime(f: nat, windowSize: nat, sampleRate: real): real
    requires sampleRate > 0.0
  {
    (f * windowSize) as real / sampleRate
  }

  lemma FrameTimeIncreasing(f1: nat, f2: nat, windowSize: nat, sampleRate: real)
    requires f1 < f2 && windowSize > 0 && sampleRate > 0.0
    ensures FrameTime(f1, windowSize, sampleRate) < FrameTime(f2, windowSize, sampleRate)
  {
    assert f1 * windowSize < f2 * windowSize by {
      assert f2 * windowSize == f1 * windowSize + (f2 - f1) * windowSize;
    }
    var a := (f1 * windowSize) as real;
    var b := (f2 * windowSize) as real;
    assert b / sampleRate - a / sampleRate == (b - a) / sampleRate;
  }

  /** The start times of `n` frames of `windowSize` samples each. */
  function FrameTimes(n: nat, windowSize: nat, sampleRate: real): (times: seq<real>)
    requires windowSize > 0 && sampleRate > 0.0
    ensures |times| == n
    ensures forall f :: 0 <= f < n ==> times[f] == FrameTime(f, windowSize, sampleRate)
    ensures StrictlyIncreasingTimes(times)
  {
    var times := seq(n, f requires 0 <= f < n => FrameTime(f, windowSize, sampleRate));
    assert StrictlyIncreasingTimes(times) by {
      forall j, k | 0 <= j < k < n
        ensures times[j] < times[k]
      {
        FrameTimeIncreasing(j, k, windowSize, sampleRate);
      }
    }
    times
  }

  /** The cue for the `k`-th accepted peak, found at a frame with the given
      start time, energy and noise floor. */
  function PeakCue(k: nat, time: real, energy: real, floor: real): CueEvent
  {
    CueEvent(time, Colors[k % |Colors|], ClassifyEffect(energy, floor), Some(energy))
  }

  /** The cues for a list of accepted frames, ranked in list order. */
  function CueList(e: seq<real>, times: seq<real>, floor: seq<real>, frames: seq<nat>): (cues: seq<CueEvent>)
    requires |times| == |e| && |floor| == |e|
    requires forall k :: 0 <= k < |frames| ==> frames[k] < |e|
  {
    seq(|frames|, k requires 0 <= k < |frames| => PeakCue(k, times[frames[k]], e[frames[k]], floor[frames[k]]))
  }

  lemma CueListAppend(e: seq<real>, times: seq<real>, floor: seq<real>, frames: seq<nat>, f: nat)
    requires |times| == |e| && |floor| == |e| && f < |e|
    requires forall k :: 0 <= k < |frames| ==> frames[k] < |e|
    ensures CueList(e, times, floor, frames + [f])
            == CueList(e, times, floor, frames) + [PeakCue(|frames|, times[f], e[f], floor[f])]
  {
  }

  /** `ev` is the cue of rank `k` for some peak frame: that frame's start time,
      the palette colour of rank `k`, the effect classified from the frame's
      peak-to-floor ratio, and the frame's energy. */
  ghost predicate FromPeak(e: seq<real>, times: seq<real>, floor: seq<real>, ev: CueEvent, k: nat)
    requires |times| == |e| && |floor| == |e|
  {
    exists f: nat :: IsPeak(e, floor, f) && ev == PeakCue(k, times[f], e[f], floor[f])
  }

  /** The script the scan produces over the noise floor `floor`: one cue per
      accepted peak, in scan order. Every cue comes from a peak frame and takes
      the palette colour of its rank; there are never more cues than frames,
      none for fewer than three frames, and cue times strictly increase when
      frame times do. */
  function PeakScript(e: seq<real>, times: seq<real>, floor: seq<real>): (script: seq<CueEvent>)
    requires |times| == |e| && |floor| == |e|
    ensures |script| <= |e|
    ensures |e| < 3 ==> script == []
    ensures forall k :: 0 <= k < |script| ==> script[k].color == Colors[k % 8]
    ensures forall k :: 0 <= k < |script| ==> FromPeak(e, times, floor, script[k], k)
    ensures StrictlyIncreasingTimes(times) ==> forall j, k :: 0 <= j < k < |script| ==> script[j].time < script[k].time
  {
    var fs := PeakFrames(e, floor, 1);
    var script := CueList(e, times, floor, fs);
    assert forall k :: 0 <= k < |script| ==> FromPeak(e, times, floor, script[k], k) by {
      forall k | 0 <= k < |script|
        ensures FromPeak(e, times, floor, script[k], k)
      {
        PeakFramesExact(e, floor, 1, fs[k]);
        assert IsPeak(e, floor, fs[k]);
      }
    }
    script
  }

  /** The script misses no peak: every peak frame the cooldown does not
      swallow has its cue in the script, at its rank among the accepted frames. */
  lemma PeakScriptComplete(e: seq<real>, times: seq<real>, floor: seq<real>, f: nat)
    requires |times| == |e| && |floor| == |e|
    requires IsPeak(e, floor, f) && !InCooldown(PeakFrames(e, floor, 1), f)
    ensures exists k :: 0 <= k < |PeakScript(e, times, floor)|
                        && PeakScript(e, times, floor)[k] == PeakCue(k, times[f], e[f], floor[f])
  {
    var fs := PeakFrames(e, floor, 1);
    PeakFramesExact(e, floor, 1, f);
    var k :| 0 <= k < |fs| && fs[k] == f;
    assert PeakScript(e, times, floor)[k] == PeakCue(k, times[f], e[f], floor[f]);
  }

  /** The scan's loop invariant at frame `i`: the frames accepted so far,
      followed by what the scan from `i` accepts, make up the whole scan, and
      `script` holds the cues of the accepted frames. */
  ghost predicate ScanInvariant(e: seq<real>, times: seq<real>, floor: seq<real>, i: nat, accepted: seq<nat>, script: seq<CueEvent>)
    requires |times| == |e| && |floor| == |e|
  {
    && 1 <= i
    && PeakFrames(e, floor, 1) == accepted + PeakFrames(e, floor, i)
    && (forall k :: 0 <= k < |accepted| ==> accepted[k] < |e|)
    && script == CueList(e, times, floor, accepted)
  }

  /** Accepting the peak at `i` appends its cue and resumes after the cooldown. */
  lemma ScanAcceptStep(e: seq<real>, times: seq<real>, floor: seq<real>, i: nat, accepted: seq<nat>, script: seq<CueEvent>)
    requires |times| == |e| && |floor| == |e| && i + 1 < |e|
    requires ScanInvariant(e, times, floor, i, accepted, script) && IsPeak(e, floor, i)
    ensures |script| == |accepted|
    ensures ScanInvariant(e, times, floor, i + CooldownFrames + 1, accepted + [i],
                          script + [PeakCue(|script|, times[i], e[i], floor[i])])
  {
    PeakFramesStep(e, floor, i);
    assert accepted + ([i] + PeakFrames(e, floor, i + CooldownFrames + 1))
        == (accepted + [i]) + PeakFrames(e, floor, i + CooldownFrames + 1);
    CueListAppend(e, times, floor, accepted, i);
  }

  /** Passing over a frame that is not a peak keeps the invariant. */
  lemma ScanSkipStep(e: seq<real>, times: seq<real>, floor: seq<real>, i: nat, accepted: seq<nat>, script: seq<CueEvent>)
    requires |times| == |e| && |floor| == |e| && i + 1 < |e|
    requires ScanInvariant(e, times, floor, i, accepted, script) && !IsPeak(e, floor, i)
    ensures ScanInvariant(e, times, floor, i + 1, accepted, script)
  {
    PeakFramesStep(e, floor, i);
  }

  /** When the scan runs off the end, the cues collected are the whole script. */
  lemma ScanDone(e: seq<real>, times: seq<real>, floor: seq<real>, i: nat, accepted: seq<nat>, script: seq<CueEvent>)
    requires |times| == |e| && |floor| == |e| && i + 1 >= |e|
    requires ScanInvariant(e, times, floor, i, accepted, script)
    ensures script == PeakScript(e, times, floor)
  {
    assert accepted == PeakFrames(e, floor, 1);
  }

  /** One pass of the scan's loop body at frame `i`: the peak test, the
      effect from the peak-to-floor ratio, the cue with the next palette
      colour, and the cooldown skip. */
  method ScanFrame(e: seq<real>, times: seq<real>, floor: seq<real>, i: nat, colorIndex: nat,
                   ghost accepted: seq<nat>, script: seq<CueEvent>)
    returns (next: nat, nextColor: nat, ghost accepted': seq<nat>, script': seq<CueEvent>)
    requires |times| == |e| && |floor| == |e| && i + 1 < |e|
    requires ScanInvariant(e, times, floor, i, accepted, script) && colorIndex == |script|
    ensures ScanInvariant(e, times, floor, next, accepted', script') && nextColor == |script'|
    ensures i < next
  {
    var current := e[i];
    if current > e[i - 1] && current > e[i + 1] && current > floor[i] * PeakRatio && current > EnergyFloor {
      var effect := NoEffect;
      if current > floor[i] * StrobeRatio {
        effect := Strobe;
      } else if current > floor[i] * PulseRatio {
        effect := Pulse;
      }
      ScanAcceptStep(e, times, floor, i, accepted, script);
      script' := script + [CueEvent(times[i], Colors[colorIndex % |Colors|], effect, Some(current))];
      accepted' := accepted + [i];
      nextColor := colorIndex + 1;
      next := i + CooldownFrames + 1;
    } else {
      ScanSkipStep(e, times, floor, i, accepted, script);
      script', accepted', nextColor, next := script, accepted, colorIndex, i + 1;
    }
  }

  /** The peak-picking scan over precomputed frame times and noise floors. */
  method PickPeaks(e: seq<real>, times: seq<real>, floor: seq<real>) returns (script: seq<CueEvent>)
    requires |times| == |e| && |floor| == |e|
    ensures script == PeakScript(e, times, floor)
  {
    script := [];
    var colorIndex := 0;
    ghost var accepted: seq<nat> := [];
    var i: nat := 1;
    while i + 1 < |e|
      invariant ScanInvariant(e, times, floor, i, accepted, script)
      invariant colorIndex == |script|
      decreases |e| - i
    {
      i, colorIndex, accepted, script := ScanFrame(e, times, floor, i, colorIndex, accepted, script);
    }
    ScanDone(e, times, floor, i, accepted, script);
  }

  /** `analyzeFullSong` from the energy series on: frame start times, the local
      averages, then the peak-picking scan over them. Every cue comes from an
      onset frame (a peak over its local average) and carries the palette
      colour of its rank; cue times strictly increase; a series of fewer than
      three frames yields no cue. */
  method AnalyzeEnergies(e: seq<real>, windowSize: nat, sampleRate: real) returns (script: seq<CueEvent>)
    requires windowSize > 0 && sampleRate > 0.0
    ensures script == PeakScript(e, FrameTimes(|e|, windowSize, sampleRate), NoiseFloors(e))
    ensures |script| <= |e|
    ensures |e| < 3 ==> script == []
    ensures forall k :: 0 <= k < |script| ==> script[k].color == Colors[k % 8]
    ensures forall j, k :: 0 <= j < k < |script| ==> script[j].time < script[k].time
  {
    var times := FrameTimes(|e|, windowSize, sampleRate);
    var avg := LocalAverages(e);
    assert avg == NoiseFloors(e);
    script := PickPeaks(e, times, avg);
  }
}
