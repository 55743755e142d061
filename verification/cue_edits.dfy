/** The sequence operations behind the recorder's editing handlers: index-based
    update and delete (shared by the saved script and the in-progress buffer),
    the saved script's collapse to null when its last cue is deleted, the edit
    popover's replacement cue, and the stable sort by time applied on save. */
module CueEdits {
  import opened ShowTypes

  /** `map((ev, k) => k === i ? updated : ev)`: the cue at index `i` is
      replaced; an index outside the sequence matches nothing. */
  function UpdateAt(s: seq<CueEvent>, i: int, updated: CueEvent): (r: seq<CueEvent>)
    ensures 0 <= i < |s| ==> r == s[i := updated]
    ensures !(0 <= i < |s|) ==> r == s
  {
    seq(|s|, k requires 0 <= k < |s| => if k == i then updated else s[k])
  }

  /** `filter((_, k) => k !== i)`, walking the sequence with `i` counted down
      as the position moves on. An index outside the sequence drops nothing;
      otherwise exactly the cue at `i` goes and the rest keep their order. */
  function DeleteAt(s: seq<CueEvent>, i: int): (r: seq<CueEvent>)
    ensures 0 <= i < |s| ==> r == s[..i] + s[i + 1..]
    ensures !(0 <= i < |s|) ==> r == s
    decreases |s|
  {
    if |s| == 0 then []
    else
      var rest := DeleteAt(s[1..], i - 1);
      assert 0 < i < |s| ==> s[1..][..i - 1] + s[1..][i..] == s[1..i] + s[i + 1..];
      assert 0 < i < |s| ==> s[..i] == [s[0]] + s[1..i];
      if i == 0 then rest else [s[0]] + rest
  }

  /** Deleting one cue removes exactly that cue from the multiset. */
  lemma DeleteAtMultiset(s: seq<CueEvent>, i: int)
    requires 0 <= i < |s|
    ensures multiset(DeleteAt(s, i)) + multiset{s[i]} == multiset(s)
    ensures |DeleteAt(s, i)| == |s| - 1
  {
    SliceOutMultiset(s, i);
  }

  lemma SliceOutMultiset<T>(s: seq<T>, i: nat)
    requires i < |s|
    ensures multiset(s[..i] + s[i + 1..]) + multiset{s[i]} == multiset(s)
  {
    assert s == s[..i] + ([s[i]] + s[i + 1..]);
  }

  /** The saved script's delete: the filtered script, or null once it is empty. */
  function DeleteSaved(s: seq<CueEvent>, i: int): (r: Option<seq<CueEvent>>)
    ensures r.None? <==> |s| == 0 || (|s| == 1 && i == 0)
    ensures r.Some? ==> r.value == DeleteAt(s, i) && |r.value| > 0
  {
    var n := DeleteAt(s, i);
    if |n| > 0 then Some(n) else None
  }

  /** The effect the edit popover starts from: the cue's own, or `none` when
      the cue has no effect. */
  function PopoverEffect(ev: CueEvent): (fx: string)
    ensures ev.effect != "" ==> fx == ev.effect
    ensures ev.effect == "" ==> fx == NoEffect
    ensures fx != ""
  {
    if ev.effect != "" then ev.effect else NoEffect
  }

  /** The popover's replacement `{...event, color, effect}`: colour and effect
      from the picker, time and energy from the original cue. */
  function EditEvent(ev: CueEvent, color: string, effect: string): (r: CueEvent)
    ensures r.time == ev.time && r.energy == ev.energy
    ensures r.color == color && r.effect == effect
  {
    ev.(color := color, effect := effect)
  }

  /** Saving the popover with its pickers untouched gives back the cue
      exactly when the cue had an effect; a cue without one comes back with
      `none`, everything else kept. */
  lemma UntouchedPopoverSave(ev: CueEvent)
    ensures EditEvent(ev, ev.color, PopoverEffect(ev)) == ev <==> ev.effect != ""
    ensures EditEvent(ev, ev.color, PopoverEffect(ev)) == ev.(effect := NoEffect) <==> ev.effect == "" || ev.effect == NoEffect
  {
  }

  /** Updating twice with the same cue is updating once. */
  lemma UpdateIdempotent(s: seq<CueEvent>, i: int, updated: CueEvent)
    ensures UpdateAt(UpdateAt(s, i, updated), i, updated) == UpdateAt(s, i, updated)
  {
  }

  /** An edit from the popover keeps the cue's time, so a sorted script stays
      sorted. */
  lemma EditKeepsSorted(s: seq<CueEvent>, i: int, color: string, effect: string)
    requires SortedByTime(s)
    ensures 0 <= i < |s| ==> SortedByTime(UpdateAt(s, i, EditEvent(s[i], color, effect)))
  {
  }

  /** Deleting a cue keeps a sorted script sorted. */
  lemma DeleteKeepsSorted(s: seq<CueEvent>, i: int)
    requires SortedByTime(s)
    ensures SortedByTime(DeleteAt(s, i))
  {
    if 0 <= i < |s| {
      var r := DeleteAt(s, i);
      forall a, b | 0 <= a <= b < |r|
        ensures r[a].time <= r[b].time
      {
        var a' := if a < i then a else a + 1;
        var b' := if b < i then b else b + 1;
        assert r[a] == s[a'] && r[b] == s[b'];
      }
    }
  }

  /** Inserts `x` into a sorted sequence before the first cue that is strictly
      later, so it lands after every cue with the same time. */
  function Insert(x: CueEvent, s: seq<CueEvent>): (r: seq<CueEvent>)
    ensures |r| == |s| + 1
    ensures multiset(r) == multiset(s) + multiset{x}
    decreases |s|
  {
    if |s| == 0 then [x]
    else if x.time < s[0].time then [x] + s
    else
      var rest := Insert(x, s[1..]);
      assert s == [s[0]] + s[1..];
      [s[0]] + rest
  }

  /** Insertion keeps a sorted sequence sorted. */
  lemma {:induction false} InsertKeepsSorted(x: CueEvent, s: seq<CueEvent>)
    requires SortedByTime(s)
    ensures SortedByTime(Insert(x, s))
    ensures |s| > 0 ==> Insert(x, s)[0].time == (if x.time < s[0].time then x.time else s[0].time)
    decreases |s|
  {
    if |s| == 0 {
    } else if x.time < s[0].time {
      PrependSorted(x, s);
    } else {
      var rest := Insert(x, s[1..]);
      InsertKeepsSorted(x, s[1..]);
      if |s| > 1 {
        assert s[0].time <= s[1].time;
      }
      PrependSorted(s[0], rest);
    }
  }

  /** A cue no later than the first of a sorted sequence can go first. */
  lemma PrependSorted(x: CueEvent, s: seq<CueEvent>)
    requires SortedByTime(s)
    requires |s| > 0 ==> x.time <= s[0].time
    ensures SortedByTime([x] + s)
  {
    var r := [x] + s;
    forall a, b | 0 <= a <= b < |r|
      ensures r[a].time <= r[b].time
    {
      if b > 0 {
        assert r[b] == s[b - 1];
        if a > 0 {
          assert r[a] == s[a - 1];
        } else {
          assert s[0].time <= s[b - 1].time;
        }
      }
    }
  }

  /** `[...buffer].sort((a, b) => a.time - b.time)`: a stable sort by time,
      here an insertion sort. The result is sorted, has the same length and is
      a permutation of the input. */
  function SortByTime(s: seq<CueEvent>): (r: seq<CueEvent>)
    ensures |r| == |s|
    ensures multiset(r) == multiset(s)
    ensures SortedByTime(r)
    decreases |s|
  {
    if |s| == 0 then []
    else
      assert s == s[..|s| - 1] + [s[|s| - 1]];
      InsertKeepsSorted(s[|s| - 1], SortByTime(s[..|s| - 1]));
      Insert(s[|s| - 1], SortByTime(s[..|s| - 1]))
  }

  /** The cues with time exactly `tau`, in sequence order. */
  function AtTime(s: seq<CueEvent>, tau: real): (r: seq<CueEvent>)
    decreases |s|
  {
    if |s| == 0 then []
    else (if s[0].time == tau then [s[0]] else []) + AtTime(s[1..], tau)
  }

  lemma {:induction false} AtTimeAppend(a: seq<CueEvent>, b: seq<CueEvent>, tau: real)
    ensures AtTime(a + b, tau) == AtTime(a, tau) + AtTime(b, tau)
    decreases |a|
  {
    if |a| == 0 {
      assert a + b == b;
    } else {
      var head := if a[0].time == tau then [a[0]] else [];
      assert (a + b)[0] == a[0];
      assert (a + b)[1..] == a[1..] + b;
      AtTimeAppend(a[1..], b, tau);
      calc {
        AtTime(a + b, tau);
        head + AtTime(a[1..] + b, tau);
        head + (AtTime(a[1..], tau) + AtTime(b, tau));
        (head + AtTime(a[1..], tau)) + AtTime(b, tau);
        AtTime(a, tau) + AtTime(b, tau);
      }
    }
  }

  /** Every cue of a sorted sequence whose first cue is later than `tau` is
      later than `tau`, so none is at `tau`. */
  lemma {:induction false} AtTimeAllLater(s: seq<CueEvent>, tau: real)
    requires SortedByTime(s) && |s| > 0 && tau < s[0].time
    ensures AtTime(s, tau) == []
    decreases |s|
  {
    assert AtTime(s, tau) == AtTime(s[1..], tau);
    if |s| > 1 {
      assert s[0].time <= s[1].time;
      AtTimeAllLater(s[1..], tau);
    }
  }

  /** Inserting `x` into a sorted sequence puts it after every cue with the
      same time. */
  lemma {:induction false} InsertStable(x: CueEvent, s: seq<CueEvent>, tau: real)
    requires SortedByTime(s)
    ensures AtTime(Insert(x, s), tau) == AtTime(s, tau) + AtTime([x], tau)
    decreases |s|
  {
    if |s| == 0 {
    } else if x.time < s[0].time {
      if x.time == tau {
        AtTimeAllLater(s, tau);
      }
      AtTimeAppend([x], s, tau);
    } else {
      assert SortedByTime(s[1..]);
      InsertStable(x, s[1..], tau);
      AtTimeAppend([s[0]], Insert(x, s[1..]), tau);
      AtTimeAppend([s[0]], s[1..], tau);
      assert [s[0]] + s[1..] == s;
    }
  }

  /** The sort is stable: for every time, the cues at that time keep their
      order from the buffer. With sortedness and the permutation property this
      pins the result down completely. */
  lemma {:induction false} SortIsStable(s: seq<CueEvent>, tau: real)
    ensures AtTime(SortByTime(s), tau) == AtTime(s, tau)
    decreases |s|
  {
    if |s| > 0 {
      var init := s[..|s| - 1];
      SortIsStable(init, tau);
      InsertStable(s[|s| - 1], SortByTime(init), tau);
      AtTimeAppend(init, [s[|s| - 1]], tau);
      assert init + [s[|s| - 1]] == s;
    }
  }
}
