/** The admin dashboard's command handlers. Each handler reads the admin's own
    show state and returns the update it hands to triggerStateUpdate, if any;
    `Date.now()` is the parameter `now`. */
module AdminDashboard {
  import opened ShowTypes
  import opened ShowContext

  /** The dashboard's colour buttons, in display order. */
  const Palette: seq<string> := ["#ef4444", "#3b82f6", "#10b981", "#8b5cf6", "#eab308", "#06b6d4", "#ec4899", "#ffffff"]

  /** The selected colour before any button is pressed: the first one, red. */
  const InitialSelectedColor: string := Palette[0]

  /** handleColorSelect: the selection always becomes the pressed colour; the
      colour is sent to the show only while it is active. */
  function HandleColorSelect(show: ShowState, colorValue: string, now: int): (r: (string, Option<Update>))
    ensures r.0 == colorValue
    ensures r.1.Some? <==> show.isActive
    ensures r.1.Some? ==> r.1.value.color == Some(colorValue)
                          && r.1.value.isActive.None? && r.1.value.effect.None?
  {
    (colorValue, if show.isActive then Some(Update(None, Some(colorValue), None, Some(now))) else None)
  }

  /** toggleShow: an active show is switched off with its effect cleared; an
      inactive one is switched on in the selected colour with no effect. */
  function ToggleShow(show: ShowState, selectedColor: string, now: int): (u: Update)
    ensures u.isActive == Some(!show.isActive)
    ensures u.effect == Some(NoEffect)
    ensures u.color == (if show.isActive then None else Some(selectedColor))
  {
    if show.isActive then Update(Some(false), None, Some(NoEffect), Some(now))
    else Update(Some(true), Some(selectedColor), Some(NoEffect), Some(now))
  }

  /** triggerEffect: ignored while the show is inactive; otherwise sends the
      effect together with the selected colour. */
  function TriggerEffect(show: ShowState, selectedColor: string, effectName: string, now: int): (u: Option<Update>)
    ensures u.Some? <==> show.isActive
    ensures u.Some? ==> u.value.effect == Some(effectName) && u.value.color == Some(selectedColor)
                        && u.value.isActive.None?
  {
    if !show.isActive then None
    else Some(Update(None, Some(selectedColor), Some(effectName), Some(now)))
  }

  /** Toggling twice, each toggle merged into the admin's state, restores
      `isActive`, leaves the effect at `none`, and, for a show that started
      active, leaves it showing the selected colour. */
  lemma ToggleTwiceRestores(show: ShowState, selectedColor: string, n1: int, n2: int)
    ensures var s1 := Merge(show, ToggleShow(show, selectedColor, n1), n1);
            var s2 := Merge(s1, ToggleShow(s1, selectedColor, n2), n2);
            && s1.isActive == !show.isActive
            && s2.isActive == show.isActive
            && s2.effect == NoEffect
            && (show.isActive ==> s2.color == selectedColor)
            && (!show.isActive ==> s2.color == selectedColor && s1.color == selectedColor)
  {
  }

  /** While the show is inactive, colour presses and effect buttons change
      nothing on the show: the admin's state is untouched and nothing is sent,
      whatever the selection becomes. */
  lemma InactiveShowIgnoresCommands(show: ShowState, colorValue: string, selectedColor: string, effectName: string, now: int)
    requires !show.isActive
    ensures HandleColorSelect(show, colorValue, now).1.None?
    ensures TriggerEffect(show, selectedColor, effectName, now).None?
  {
  }

  /** On an active show, an effect button leaves the show active, sets the
      effect and re-sends the selected colour, stamped with the clock. */
  lemma EffectOnActiveShow(show: ShowState, selectedColor: string, effectName: string, now: int)
    requires show.isActive
    ensures var s := Merge(show, TriggerEffect(show, selectedColor, effectName, now).value, now);
            s == ShowState(true, selectedColor, effectName, now)
  {
  }
}
