/** The audience view's derivations from the show state: the background colour
    and the animation class added to the full-screen container. */
module AudienceView {
  import opened ShowTypes
  import opened ShowContext
  import AdminDashboard

  /** The base colour a rainbow needs for its hue rotation. */
  const RainbowBase := "#ff0000"

  /** The container's classes when no animation applies. */
  const BaseClasses := "min-h-screen w-full flex flex-col items-center justify-center transition-colors duration-[150ms] overflow-hidden fixed inset-0"

  /** The animation class of each effect that has one. */
  const Animations: map<string, string> := map[
    Strobe := "animate-strobe",
    Pulse := "animate-pulse-fast",
    Glitch := "animate-glitch",
    Rainbow := "animate-rainbow",
    Blink := "animate-blink",
    Breathe := "animate-breathe"
  ]

  /** The `localColor` derivation: black while the show is off or when there is
      neither a colour nor a rainbow; the rainbow base red for a rainbow on black
      or on no colour; the state's colour otherwise. */
  function DisplayColor(s: ShowState): (c: string)
    ensures !s.isActive ==> c == Black
    ensures s.isActive && s.effect == Rainbow && (s.color == Black || s.color == "") ==> c == RainbowBase
    ensures s.isActive && s.color != "" && !(s.effect == Rainbow && s.color == Black) ==> c == s.color
    ensures s.isActive && s.color == "" && s.effect != Rainbow ==> c == Black
  {
    if s.isActive && (s.color != "" || s.effect == Rainbow) then
      if s.effect == Rainbow && (s.color == Black || s.color == "") then RainbowBase
      else s.color
    else Black
  }

  /** The screen never gets an empty colour, and it is black exactly when the
      show is off, or when there is no rainbow and the colour is black or absent. */
  lemma DisplayColorDefined(s: ShowState)
    ensures DisplayColor(s) != ""
    ensures DisplayColor(s) == Black <==> !s.isActive || (s.effect != Rainbow && (s.color == "" || s.color == Black))
  {
  }

  /** The `localColor` state: the derivation re-runs only when `isActive`,
      `color` or `id` changed, so an effect change alone keeps the colour shown. */
  function LocalColor(local: string, prev: ShowState, curr: ShowState): (c: string)
    ensures prev.isActive != curr.isActive || prev.color != curr.color || prev.id != curr.id ==> c == DisplayColor(curr)
    ensures prev.isActive == curr.isActive && prev.color == curr.color && prev.id == curr.id ==> c == local
  {
    if prev.isActive != curr.isActive || prev.color != curr.color || prev.id != curr.id then DisplayColor(curr)
    else local
  }

  /** Every admin payload carries a fresh clock stamp, so a replica whose id
      differs from the stamp recomputes its colour from the received state, the
      effect included. */
  lemma FreshStampRefreshesColor(local: string, replica: ShowState, admin: ShowState, u: Update, now: int)
    requires replica.id != now
    ensures var e := TriggerStateUpdate(true, true, admin, u, now);
            LocalColor(local, replica, Receive(replica, e.sent.value)) == DisplayColor(e.state)
  {
  }

  /** Without a new stamp, switching the effect to rainbow on a black, active
      show leaves the screen black although the derivation asks for red. */
  lemma EffectOnlyChangeIsNotShown(id: int)
    ensures var before := ShowState(true, Black, NoEffect, id);
            var after := before.(effect := Rainbow);
            LocalColor(DisplayColor(before), before, after) == Black && DisplayColor(after) == RainbowBase
  {
  }

  /** The `getContainerClasses` chain: an animation class only while the show
      is active, for the six effects that have one. */
  function AnimationClass(s: ShowState): (a: Option<string>)
    ensures !s.isActive ==> a.None?
    ensures s.effect == NoEffect ==> a.None?
    ensures a.Some? ==> s.isActive && s.effect in {Strobe, Pulse, Glitch, Rainbow, Blink, Breathe}
  {
    if !s.isActive then None
    else if s.effect == Strobe then Some("animate-strobe")
    else if s.effect == Pulse then Some("animate-pulse-fast")
    else if s.effect == Glitch then Some("animate-glitch")
    else if s.effect == Rainbow then Some("animate-rainbow")
    else if s.effect == Blink then Some("animate-blink")
    else if s.effect == Breathe then Some("animate-breathe")
    else None
  }

  /** The if-chain is the lookup table: an active show gets the class listed for
      its effect, and any effect not listed, `none` included, gets none. */
  lemma AnimationClassIsTable(s: ShowState)
    ensures AnimationClass(s) == if s.isActive && s.effect in Animations then Some(Animations[s.effect]) else None
  {
  }

  /** The container's class string: the base classes, followed by one space and
      the class the table lists for the effect when the show is active. */
  function ContainerClasses(s: ShowState): (c: string)
    ensures c == BaseClasses + (if s.isActive && s.effect in Animations then " " + Animations[s.effect] else "")
  {
    AnimationClassIsTable(s);
    match AnimationClass(s)
    case None => BaseClasses
    case Some(a) => BaseClasses + " " + a
  }

  /** End to end: the admin switches an inactive show on; every replica that
      receives the payload shows the selected dashboard colour, unanimated. */
  lemma ToggleOnShowsSelectedColor(admin: ShowState, replica: ShowState, k: nat, now: int)
    requires !admin.isActive && k < |AdminDashboard.Palette|
    ensures var e := TriggerStateUpdate(true, true, admin, AdminDashboard.ToggleShow(admin, AdminDashboard.Palette[k], now), now);
            var seen := Receive(replica, e.sent.value);
            DisplayColor(seen) == AdminDashboard.Palette[k] && AnimationClass(seen).None?
  {
    var c := AdminDashboard.Palette[k];
    assert c != "" && c != Black by {
      assert c in AdminDashboard.Palette;
    }
  }

  /** The first toggle after start-up, from the provider's initial state with
      the dashboard's initial selection, lights every replica in the first
      palette colour, red. */
  lemma FirstToggleShowsRed(replica: ShowState, now: int)
    ensures var admin := InitialShowState;
            var e := TriggerStateUpdate(true, true, admin, AdminDashboard.ToggleShow(admin, AdminDashboard.InitialSelectedColor, now), now);
            DisplayColor(Receive(replica, e.sent.value)) == "#ef4444"
  {
    InitialStateIsDark();
    ToggleOnShowsSelectedColor(InitialShowState, replica, 0, now);
  }
}
