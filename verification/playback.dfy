/** The playback cursor of the audio hook: which script is active, what one
    animation-frame tick fires, and how `seeked` and `ended` move the cursor.
    Animation-frame scheduling and listener wiring are left out: one tick and
    one media event are modelled as functions of the clock reading. */
module Playback {
  import opened ShowTypes

  /** A passed cue later than the tick's first one still fires only if it is
      less than this many seconds behind the clock. */
  const StaleWindow: real := 0.1

  /** The script playback follows: the custom (saved) one when the custom flag
      is set and a custom script exists, the detected pattern otherwise. An
      empty custom script still counts as existing. */
  function ActiveScript(useCustom: bool, custom: Option<seq<CueEvent>>, pattern: seq<CueEvent>): (s: seq<CueEvent>)
    ensures useCustom && custom.Some? ==> s == custom.value
    ensures !useCustom || custom.None? ==> s == pattern
  {
    if useCustom && custom.Some? then custom.value else pattern
  }

  /** The outcome of a tick: the new cursor and the indices fired, in order. */
  datatype TickResult = TickResult(cursor: nat, fired: seq<nat>)

  /** The consecutive indices `a, a+1, ..., b-1`. */
  function Range(a: nat, b: nat): (r: seq<nat>)
    requires a <= b
    ensures |r| == b - a
    ensures forall k :: 0 <= k < |r| ==> r[k] == a + k
    decreases b - a
  {
    if a == b then [] else [a] + Range(a + 1, b)
  }

  /** The tick's loop from index `j`, for a tick that started at `start`: it
      passes every due cue (time at most `t`) until the first one that is not
      due, firing the starting cue unconditionally and a later one only when it
      lags the clock by less than StaleWindow. */
  function Scan(script: seq<CueEvent>, start: nat, j: nat, t: real): (r: TickResult)
    requires start <= j
    ensures j <= r.cursor
    decreases |script| - j
  {
    if j < |script| && t >= script[j].time then
      var rest := Scan(script, start, j + 1, t);
      if j == start || t - script[j].time < StaleWindow then TickResult(rest.cursor, [j] + rest.fired)
      else rest
    else TickResult(j, [])
  }

  /** Where the loop from `j` stops: at the first cue from `j` on that is not
      due, or at the end, every cue it passes being due. */
  lemma {:induction false} ScanStops(script: seq<CueEvent>, start: nat, j: nat, t: real)
    requires start <= j
    ensures var r := Scan(script, start, j, t);
            && (j <= |script| ==> r.cursor <= |script|)
            && (j >= |script| ==> r == TickResult(j, []))
            && (forall k :: j <= k < r.cursor ==> k < |script| && script[k].time <= t)
            && (r.cursor < |script| ==> script[r.cursor].time > t)
    decreases |script| - j
  {
    if j < |script| && t >= script[j].time {
      ScanStops(script, start, j + 1, t);
    }
  }

  /** The loop from `j` fires, in increasing order, only cues it passes. */
  lemma {:induction false} ScanFiresInOrder(script: seq<CueEvent>, start: nat, j: nat, t: real)
    requires start <= j
    ensures var r := Scan(script, start, j, t);
            && (forall k :: 0 <= k < |r.fired| ==> j <= r.fired[k] < r.cursor)
            && StrictlyIncreasing(r.fired)
    decreases |script| - j
  {
    if j < |script| && t >= script[j].time {
      ScanFiresInOrder(script, start, j + 1, t);
      var rest := Scan(script, start, j + 1, t);
      if j == start || t - script[j].time < StaleWindow {
        PrependIncreasing(j, rest.fired);
      }
    }
  }

  /** An index below every element of a strictly increasing list can go first. */
  lemma PrependIncreasing(x: nat, s: seq<nat>)
    requires StrictlyIncreasing(s)
    requires forall k :: 0 <= k < |s| ==> x < s[k]
    ensures StrictlyIncreasing([x] + s)
  {
    var r := [x] + s;
    forall a, b | 0 <= a < b < |r|
      ensures r[a] < r[b]
    {
      assert r[b] == s[b - 1];
      if a > 0 {
        assert r[a] == s[a - 1];
      }
    }
  }

  /** Which passed cues the loop from `j` fires: the tick's first, and any
      other lagging the clock by less than StaleWindow. */
  lemma {:induction false} ScanFiresExactly(script: seq<CueEvent>, start: nat, j: nat, t: real)
    requires start <= j
    ensures var r := Scan(script, start, j, t);
            forall f :: f in r.fired <==> j <= f < r.cursor && f < |script| && (f == start || t - script[f].time < StaleWindow)
    decreases |script| - j
  {
    if j < |script| && t >= script[j].time {
      ScanFiresExactly(script, start, j + 1, t);
    }
  }

  /** Everything the loop from `j` does, gathered for the tick. */
  lemma ScanSpec(script: seq<CueEvent>, start: nat, j: nat, t: real)
    requires start <= j
    ensures var r := Scan(script, start, j, t);
            && (j <= |script| ==> r.cursor <= |script|)
            && (j >= |script| ==> r == TickResult(j, []))
            && (forall k :: j <= k < r.cursor ==> k < |script| && script[k].time <= t)
            && (r.cursor < |script| ==> script[r.cursor].time > t)
            && (forall f :: f in r.fired <==> j <= f < r.cursor && (f == start || t - script[f].time < StaleWindow))
            && (forall k :: 0 <= k < |r.fired| ==> j <= r.fired[k] < r.cursor)
            && StrictlyIncreasing(r.fired)
  {
    ScanStops(script, start, j, t);
    ScanFiresInOrder(script, start, j, t);
    ScanFiresExactly(script, start, j, t);
  }

  /** One tick of the playback loop with clock `t`. Nothing happens unless
      playback is running (playing, with an audio element), the active script
      is non-empty and the cursor is still inside it. Otherwise the cursor moves
      to the first cue at or after it that is not yet due, every cue passed is
      due, and the cues fired are exactly the passed ones that are the tick's
      first or lag the clock by less than StaleWindow, each once and in order. */
  function Tick(running: bool, script: seq<CueEvent>, cursor: nat, t: real): (r: TickResult)
    ensures !running || |script| == 0 || cursor >= |script| ==> r == TickResult(cursor, [])
    ensures cursor <= r.cursor
    ensures cursor <= |script| ==> r.cursor <= |script|
    ensures forall k :: cursor <= k < r.cursor ==> k < |script| && script[k].time <= t
    ensures running && cursor < |script| && r.cursor < |script| ==> script[r.cursor].time > t
    ensures forall f :: f in r.fired <==> cursor <= f < r.cursor && (f == cursor || t - script[f].time < StaleWindow)
    ensures forall k :: 0 <= k < |r.fired| ==> cursor <= r.fired[k] < r.cursor && r.fired[k] < |script|
    ensures StrictlyIncreasing(r.fired)
    ensures running && cursor < |script| && script[cursor].time <= t ==> |r.fired| > 0 && r.fired[0] == cursor
  {
    if !running || |script| == 0 then TickResult(cursor, [])
    else (ScanSpec(script, cursor, cursor, t); Scan(script, cursor, cursor, t))
  }

  /** The tick as the source writes it: a while loop over the cursor that
      fires through a callback, collected here as the list of indices fired. */
  method PlaybackTick(running: bool, script: seq<CueEvent>, cursor: nat, t: real) returns (next: nat, fired: seq<nat>)
    ensures TickResult(next, fired) == Tick(running, script, cursor, t)
  {
    next, fired := cursor, [];
    if !running {
      return;
    }
    if |script| > 0 {
      var idx := cursor;
      while idx < |script| && t >= script[idx].time
        invariant cursor <= idx
        invariant Scan(script, cursor, idx, t).cursor == Scan(script, cursor, cursor, t).cursor
        invariant fired + Scan(script, cursor, idx, t).fired == Scan(script, cursor, cursor, t).fired
        decreases |script| - idx
      {
        ScanStep(script, cursor, idx, t);
        if idx == cursor || t - script[idx].time < StaleWindow {
          assert fired + ([idx] + Scan(script, cursor, idx + 1, t).fired)
              == (fired + [idx]) + Scan(script, cursor, idx + 1, t).fired;
          fired := fired + [idx];
        }
        idx := idx + 1;
      }
      ScanStep(script, cursor, idx, t);
      next := idx;
    }
  }

  /** One iteration of the tick's loop: a due cue is passed, and fired when it
      is the first or lags the clock by less than StaleWindow; a cue not yet due
      ends the loop. */
  lemma ScanStep(script: seq<CueEvent>, start: nat, j: nat, t: real)
    requires start <= j
    ensures j < |script| && t >= script[j].time && (j == start || t - script[j].time < StaleWindow)
            ==> Scan(script, start, j, t) == TickResult(Scan(script, start, j + 1, t).cursor, [j] + Scan(script, start, j + 1, t).fired)
    ensures j < |script| && t >= script[j].time && !(j == start || t - script[j].time < StaleWindow)
            ==> Scan(script, start, j, t) == Scan(script, start, j + 1, t)
    ensures !(j < |script| && t >= script[j].time) ==> Scan(script, start, j, t) == TickResult(j, [])
  {
  }

  /** Successive ticks of running playback over one script, with the clock
      readings `clocks`; the result collects every index fired. */
  function Run(script: seq<CueEvent>, cursor: nat, clocks: seq<real>): (r: TickResult)
    ensures cursor <= r.cursor
    ensures cursor <= |script| ==> r.cursor <= |script|
    ensures forall k :: 0 <= k < |r.fired| ==> cursor <= r.fired[k] < r.cursor
    decreases |clocks|
  {
    if |clocks| == 0 then TickResult(cursor, [])
    else
      var a := Tick(true, script, cursor, clocks[0]);
      var b := Run(script, a.cursor, clocks[1..]);
      TickResult(b.cursor, a.fired + b.fired)
  }

  /** Whatever the clock does (jumps, stalls, runs backwards) and whatever
      the script's order, no cue fires twice while playing without a seek,
      and cues fire in increasing index order. */
  lemma {:induction false} RunFiresAtMostOnce(script: seq<CueEvent>, cursor: nat, clocks: seq<real>)
    ensures StrictlyIncreasing(Run(script, cursor, clocks).fired)
    decreases |clocks|
  {
    if |clocks| > 0 {
      var a := Tick(true, script, cursor, clocks[0]);
      var b := Run(script, a.cursor, clocks[1..]);
      RunFiresAtMostOnce(script, a.cursor, clocks[1..]);
      var s := a.fired + b.fired;
      forall i, j | 0 <= i < j < |s|
        ensures s[i] < s[j]
      {
        if j < |a.fired| {
        } else if i < |a.fired| {
          assert a.fired[i] in a.fired;
          assert s[j] == b.fired[j - |a.fired|];
        } else {
          assert s[i] == b.fired[i - |a.fired|] && s[j] == b.fired[j - |a.fired|];
        }
      }
    }
  }

  /** Over a sorted script, a tick whose starting cue lags the clock by less
      than StaleWindow fires every cue it passes. */
  lemma {:induction false} ScanFiresAllPassed(script: seq<CueEvent>, start: nat, j: nat, t: real)
    requires SortedByTime(script) && start <= j
    requires start < |script| ==> t - script[start].time < StaleWindow
    ensures Scan(script, start, j, t).fired == Range(j, Scan(script, start, j, t).cursor)
    decreases |script| - j
  {
    if j < |script| && t >= script[j].time {
      ScanFiresAllPassed(script, start, j + 1, t);
      assert script[start].time <= script[j].time;
    }
  }

  /** With ticks less than StaleWindow apart over a sorted script, starting with
      the cursor's cue less than StaleWindow behind the first clock reading,
      playback fires every cue it passes: each exactly once, in order. */
  lemma {:induction false} DenseRunFiresEvery(script: seq<CueEvent>, cursor: nat, clocks: seq<real>)
    requires SortedByTime(script) && cursor <= |script|
    requires |clocks| > 0 && cursor < |script| ==> clocks[0] - script[cursor].time < StaleWindow
    requires forall k :: 0 < k < |clocks| ==> clocks[k] - clocks[k - 1] < StaleWindow
    ensures Run(script, cursor, clocks).fired == Range(cursor, Run(script, cursor, clocks).cursor)
    decreases |clocks|
  {
    if |clocks| > 0 {
      var a := Tick(true, script, cursor, clocks[0]);
      if |script| > 0 {
        ScanFiresAllPassed(script, cursor, cursor, clocks[0]);
      }
      assert a.fired == Range(cursor, a.cursor);
      var rest := clocks[1..];
      if |rest| > 0 && a.cursor < |script| {
        assert rest[0] == clocks[1];
        assert script[a.cursor].time > clocks[0];
      }
      DenseRunFiresEvery(script, a.cursor, rest);
      RangeAppend(cursor, a.cursor, Run(script, a.cursor, rest).cursor);
    }
  }

  lemma RangeAppend(a: nat, b: nat, c: nat)
    requires a <= b <= c
    ensures Range(a, b) + Range(b, c) == Range(a, c)
  {
    assert forall k :: 0 <= k < c - a ==> (Range(a, b) + Range(b, c))[k] == a + k;
  }

  /** The first index at or after `j` whose cue is at or after `pos`. */
  function SeekFrom(script: seq<CueEvent>, j: nat, pos: real): (r: nat)
    requires j <= |script|
    ensures j <= r <= |script|
    ensures forall k :: j <= k < r ==> script[k].time < pos
    ensures r < |script| ==> script[r].time >= pos
    decreases |script| - j
  {
    if j < |script| && script[j].time < pos then SeekFrom(script, j + 1, pos) else j
  }

  /** `seeked`: the cursor becomes the smallest index whose cue is at or after
      the new position (the script's length when there is none); with an
      empty active script the cursor is left alone. */
  function OnSeeked(script: seq<CueEvent>, cursor: nat, pos: real): (c: nat)
    ensures |script| == 0 ==> c == cursor
    ensures |script| > 0 ==> c <= |script|
    ensures |script| > 0 ==> forall k :: 0 <= k < c ==> script[k].time < pos
    ensures c < |script| ==> script[c].time >= pos
  {
    if |script| > 0 then SeekFrom(script, 0, pos) else cursor
  }

  /** Over a sorted script, the first tick after a seek never fires a cue that
      lies before the seek position, and fires the cue at the new cursor as soon
      as it is due. */
  lemma SeekThenTick(script: seq<CueEvent>, cursor: nat, pos: real, t: real)
    requires SortedByTime(script)
    ensures var c := OnSeeked(script, cursor, pos);
            var r := Tick(true, script, c, t);
            && (forall k :: 0 <= k < |r.fired| ==> script[r.fired[k]].time >= pos)
            && (c < |script| && script[c].time <= t ==> c in r.fired)
  {
    var c := OnSeeked(script, cursor, pos);
    var r := Tick(true, script, c, t);
    forall k | 0 <= k < |r.fired|
      ensures script[r.fired[k]].time >= pos
    {
      assert r.fired[k] in r.fired;
      assert script[c].time <= script[r.fired[k]].time;
    }
  }

  /** The media element's state as the tick sees it. */
  datatype Player = Player(isPlaying: bool, cursor: nat)

  /** What can happen to the media element: `play`, `pause`, `ended`, a
      completed seek to a position, or an animation frame with its clock. */
  datatype MediaEvent = Play | Pause | Ended | Seeked(pos: real) | Frame(t: real)

  /** `ended`: playback stops and the cursor returns to the start. */
  function OnEnded(p: Player): (q: Player)
    ensures !q.isPlaying && q.cursor == 0
  {
    Player(false, 0)
  }

  /** One media event over the active script: the new player state and the
      cues fired. `play` and `pause` set and clear the playing flag, `ended`
      stops and rewinds, `seeked` moves the cursor, and an animation frame is
      one tick; only frames fire cues. */
  function Step(p: Player, script: seq<CueEvent>, ev: MediaEvent): (r: (Player, seq<nat>))
    ensures !ev.Frame? ==> r.1 == []
    ensures ev.Play? ==> r.0 == Player(true, p.cursor)
    ensures ev.Pause? ==> r.0 == Player(false, p.cursor)
    ensures ev.Ended? ==> !r.0.isPlaying && r.0.cursor == 0
    ensures ev.Seeked? ==> r.0.isPlaying == p.isPlaying && r.0.cursor == OnSeeked(script, p.cursor, ev.pos)
    ensures ev.Frame? ==> r.0.isPlaying == p.isPlaying && TickResult(r.0.cursor, r.1) == Tick(p.isPlaying, script, p.cursor, ev.t)
    ensures ev.Frame? ==> p.cursor <= r.0.cursor
  {
    match ev
    case Play => (p.(isPlaying := true), [])
    case Pause => (p.(isPlaying := false), [])
    case Ended => (OnEnded(p), [])
    case Seeked(pos) => (p.(cursor := OnSeeked(script, p.cursor, pos)), [])
    case Frame(t) =>
      var r := Tick(p.isPlaying, script, p.cursor, t);
      (p.(cursor := r.cursor), r.fired)
  }

  /** A series of media events; the result collects every index fired. */
  function Steps(p: Player, script: seq<CueEvent>, evs: seq<MediaEvent>): (r: (Player, seq<nat>))
    decreases |evs|
  {
    if |evs| == 0 then (p, [])
    else
      var a := Step(p, script, evs[0]);
      var b := Steps(a.0, script, evs[1..]);
      (b.0, a.1 + b.1)
  }

  /** While paused, animation frames fire nothing and leave the cursor alone. */
  lemma {:induction false} PausedFramesAreInert(p: Player, script: seq<CueEvent>, evs: seq<MediaEvent>)
    requires !p.isPlaying
    requires forall k :: 0 <= k < |evs| ==> evs[k].Frame?
    ensures Steps(p, script, evs).0 == p && Steps(p, script, evs).1 == []
    decreases |evs|
  {
    if |evs| > 0 {
      assert evs[0].Frame?;
      var a := Step(p, script, evs[0]);
      assert a == (p, []);
      assert forall k :: 0 <= k < |evs[1..]| ==> evs[1..][k] == evs[k + 1];
      PausedFramesAreInert(p, script, evs[1..]);
      assert Steps(p, script, evs) == (Steps(a.0, script, evs[1..]).0, a.1 + Steps(a.0, script, evs[1..]).1);
    }
  }

  /** After `ended`, playing again and ticking once the first cue is due fires
      that first cue: the show replays from the start. */
  lemma EndedReplaysFromStart(p: Player, script: seq<CueEvent>, t: real)
    requires |script| > 0 && script[0].time <= t
    ensures var r := Steps(p, script, [Ended, Play, Frame(t)]);
            |r.1| > 0 && r.1[0] == 0
  {
    var ended := Player(false, 0);
    var q := Player(true, 0);
    var last := Step(q, script, Frame(t));
    assert last.1 == Tick(true, script, 0, t).fired;
    var evs := [Ended, Play, Frame(t)];
    assert evs[1..] == [Play, Frame(t)] && evs[1..][1..] == [Frame(t)] && [Frame(t)][1..] == [];
    assert Step(p, script, Ended) == (ended, []);
    assert Step(ended, script, Play) == (q, []);
    var s3 := Steps(q, script, [Frame(t)]);
    assert s3 == (last.0, last.1 + Steps(last.0, script, []).1);
    assert s3.1 == last.1;
    var s2 := Steps(ended, script, [Play, Frame(t)]);
    assert s2 == (s3.0, [] + s3.1);
    var s1 := Steps(p, script, evs);
    assert s1 == (s2.0, [] + s2.1);
  }
}
