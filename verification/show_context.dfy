/** The show-state provider: the admin's authoritative merge-and-emit path and
    the audience's replace-on-receive path. The socket is reduced to a flag
    saying whether a connection object exists; `Date.now()` is a parameter. */
module ShowContext {
  import opened ShowTypes

  /** A partial update handed to triggerStateUpdate; a present field overrides. */
  datatype Update = Update(isActive: Option<bool>, color: Option<string>, effect: Option<string>, id: Option<int>)

  /** The result of triggerStateUpdate: the new local state and the
      `ADMIN_UPDATE` payload sent, if any. */
  datatype Emission = Emission(state: ShowState, sent: Option<ShowState>)

  /** The state every provider starts from. */
  const InitialShowState := ShowState(false, Black, NoEffect, 0)

  /** The state before any message: inactive, black, no effect, id 0. */
  lemma InitialStateIsDark()
    ensures !InitialShowState.isActive
    ensures InitialShowState.color == "#000000" && InitialShowState.effect == "none"
    ensures InitialShowState.id == 0
  {
  }

  /** Shallow merge `{...prev, ...u, id: now}`. */
  function Merge(prev: ShowState, u: Update, now: int): (s: ShowState)
    ensures s.isActive == (if u.isActive.Some? then u.isActive.value else prev.isActive)
    ensures s.color == (if u.color.Some? then u.color.value else prev.color)
    ensures s.effect == (if u.effect.Some? then u.effect.value else prev.effect)
    ensures s.id == now
  {
    ShowState(u.isActive.GetOr(prev.isActive), u.color.GetOr(prev.color), u.effect.GetOr(prev.effect), now)
  }

  /** The update that applies `u` and then `v`: fields of `v` win. */
  function Then(u: Update, v: Update): Update
  {
    Update(if v.isActive.Some? then v.isActive else u.isActive,
           if v.color.Some? then v.color else u.color,
           if v.effect.Some? then v.effect else u.effect,
           if v.id.Some? then v.id else u.id)
  }

  /** Two merges in a row are one merge of the combined update, stamped with
      the later clock; the earlier stamp leaves no trace. */
  lemma MergeComposes(prev: ShowState, u: Update, v: Update, n1: int, n2: int)
    ensures Merge(Merge(prev, u, n1), v, n2) == Merge(prev, Then(u, v), n2)
  {
  }

  /** Re-applying the same update changes nothing but the id; if the clock
      moved, the two emitted states still differ, so receivers see two
      distinct messages although no business field changed. */
  lemma ReapplyChangesOnlyId(prev: ShowState, u: Update, n1: int, n2: int)
    ensures var s1 := Merge(prev, u, n1);
            var s2 := Merge(s1, u, n2);
            s2.(id := n1) == s1 && (n1 != n2 ==> s2 != s1)
  {
  }

  /** triggerStateUpdate: ignored unless this provider is the admin; otherwise
      merges, stamps the clock and sends the whole new state when a socket
      exists. */
  function TriggerStateUpdate(isAdmin: bool, connected: bool, prev: ShowState, u: Update, now: int): (e: Emission)
    ensures !isAdmin ==> e.state == prev && e.sent.None?
    ensures isAdmin ==> e.state == Merge(prev, u, now)
    ensures e.sent.Some? <==> isAdmin && connected
    ensures e.sent.Some? ==> e.sent.value == e.state
  {
    if !isAdmin then Emission(prev, None)
    else
      var s := Merge(prev, u, now);
      Emission(s, if connected then Some(s) else None)
  }

  /** An update that changes only `effect` still sends `color` and `isActive`:
      the payload is the whole state, not only the fields the update names. */
  lemma PayloadIsWholeState(prev: ShowState, fx: string, now: int)
    ensures var e := TriggerStateUpdate(true, true, prev, Update(None, None, Some(fx), None), now);
            e.sent == Some(ShowState(prev.isActive, prev.color, fx, now))
  {
  }

  /** `SHOW_STATE_UPDATE`: the replica's state becomes the message itself. */
  function Receive(replica: ShowState, msg: ShowState): (s: ShowState)
    ensures s == msg
  {
    msg
  }

  /** The admin folding a series of `(update, clock)` pairs; the result carries
      the final state and every payload sent, in order. */
  function AdminRun(prev: ShowState, steps: seq<(Update, int)>): (r: (ShowState, seq<ShowState>))
    ensures |r.1| == |steps|
    ensures |steps| > 0 ==> r.1[|steps| - 1] == r.0
    ensures forall k :: 0 <= k < |r.1| ==> r.1[k].id == steps[k].1
    decreases |steps|
  {
    if |steps| == 0 then (prev, [])
    else
      var e := TriggerStateUpdate(true, true, prev, steps[0].0, steps[0].1);
      var rest := AdminRun(e.state, steps[1..]);
      (rest.0, [e.sent.value] + rest.1)
  }

  /** The replica folding received messages with Receive. */
  function ReplicaRun(replica: ShowState, msgs: seq<ShowState>): ShowState
    decreases |msgs|
  {
    if |msgs| == 0 then replica else ReplicaRun(Receive(replica, msgs[0]), msgs[1..])
  }

  /** A replica that receives every payload the admin sent ends in the admin's
      state, whatever it held before; with nothing sent it keeps its state. */
  lemma {:induction false} ReplicaConverges(admin: ShowState, replica: ShowState, steps: seq<(Update, int)>)
    ensures |steps| > 0 ==> ReplicaRun(replica, AdminRun(admin, steps).1) == AdminRun(admin, steps).0
    ensures |steps| == 0 ==> ReplicaRun(replica, AdminRun(admin, steps).1) == replica
    decreases |steps|
  {
    if |steps| > 0 {
      var e := TriggerStateUpdate(true, true, admin, steps[0].0, steps[0].1);
      var msgs := AdminRun(admin, steps).1;
      assert msgs[1..] == AdminRun(e.state, steps[1..]).1;
      ReplicaConverges(e.state, Receive(replica, msgs[0]), steps[1..]);
      if |steps| == 1 {
        assert msgs == [e.state];
      }
    }
  }
}
