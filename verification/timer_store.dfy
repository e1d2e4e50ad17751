/** The running-timer record and its hook (src/hooks/useActiveTimer.ts):
    start and stop write the browser's local storage area and the toolbar
    badge; every open view follows the stored value through change
    notifications. */
module TimerStore {
  import opened Wrappers
  import opened Types

  const ActiveTimerKey := "activeTimer"
  const BadgeOnText := "ON"
  const BadgeOnColor := "#22c55e"

  /** The extension's toolbar badge. */
  datatype Badge = Badge(text: string, color: string)

  /** The shared state: the local storage area (only the timer record
      lives there) and the badge. */
  datatype World = World(local: map<string, ActiveTimer>, badge: Badge)

  /** A storage change notification: the area written and, for each
      changed key, the new value (`None` once removed). */
  datatype StorageChange = StorageChange(area: string, changes: map<string, Option<ActiveTimer>>)

  /** `fetchTimer`: the stored record, or null when none is stored. */
  function ReadTimer(local: map<string, ActiveTimer>): (timer: Option<ActiveTimer>)
    ensures timer.Some? <==> ActiveTimerKey in local
    ensures timer.Some? ==> timer.value == local[ActiveTimerKey]
  {
    if ActiveTimerKey in local then Some(local[ActiveTimerKey]) else None
  }

  /** `startTimer(ticketId)` at clock reading `now`: the new record replaces
      any stored one (last write wins), and the badge turns on in green.
      Nothing else in the area changes. */
  function StartTimer(w: World, ticketId: string, now: int): (w': World)
    ensures ReadTimer(w'.local) == Some(ActiveTimer(ticketId, now))
    ensures w'.badge == Badge(BadgeOnText, BadgeOnColor)
    ensures forall k :: k != ActiveTimerKey ==> (k in w'.local <==> k in w.local)
    ensures forall k :: k != ActiveTimerKey && k in w.local ==> w'.local[k] == w.local[k]
  {
    World(w.local[ActiveTimerKey := ActiveTimer(ticketId, now)], Badge(BadgeOnText, BadgeOnColor))
  }

  /** `stopTimer`: the record is removed and the badge text cleared; the
      badge colour is left as it was. Nothing else in the area changes. */
  function StopTimer(w: World): (w': World)
    ensures ReadTimer(w'.local).None?
    ensures w'.badge == Badge("", w.badge.color)
    ensures forall k :: k != ActiveTimerKey ==> (k in w'.local <==> k in w.local)
    ensures forall k :: k != ActiveTimerKey && k in w.local ==> w'.local[k] == w.local[k]
  {
    World(w.local - {ActiveTimerKey}, w.badge.(text := ""))
  }

  /** The notification the write of `StartTimer` produces. */
  function StartChange(ticketId: string, now: int): StorageChange {
    StorageChange("local", map[ActiveTimerKey := Some(ActiveTimer(ticketId, now))])
  }

  /** The notification the removal of `StopTimer` produces. */
  function StopChange(): StorageChange {
    StorageChange("local", map[ActiveTimerKey := None])
  }

  /** The hook's listener: a view adopts the new value exactly when the
      change concerns the timer key, in whichever area; any other change
      leaves it as it was. */
  function OnChanged(view: Option<ActiveTimer>, change: StorageChange): (view': Option<ActiveTimer>)
    ensures ActiveTimerKey in change.changes ==> view' == change.changes[ActiveTimerKey]
    ensures ActiveTimerKey !in change.changes ==> view' == view
  {
    if ActiveTimerKey in change.changes then change.changes[ActiveTimerKey] else view
  }

  /** After a start or a stop, every open view, whatever it showed before,
      shows what the store now holds. */
  lemma ViewsFollowStore(w: World, ticketId: string, now: int, view: Option<ActiveTimer>)
    ensures OnChanged(view, StartChange(ticketId, now)) == ReadTimer(StartTimer(w, ticketId, now).local)
    ensures OnChanged(view, StopChange()) == ReadTimer(StopTimer(w).local)
  {
  }

  /** One user action on the store. */
  datatype Action = Start(ticketId: string, now: int) | Stop

  function Apply(w: World, a: Action): World {
    match a
    case Start(id, now) => StartTimer(w, id, now)
    case Stop => StopTimer(w)
  }

  function Run(w: World, actions: seq<Action>): World
    decreases |actions|
  {
    if |actions| == 0 then w else Run(Apply(w, actions[0]), actions[1..])
  }

  /** Last write wins: after any run of actions the store holds what the
      last action wrote, or what it held before when there was none. */
  lemma {:induction false} LastWriteWins(w: World, actions: seq<Action>)
    ensures |actions| == 0 ==> ReadTimer(Run(w, actions).local) == ReadTimer(w.local)
    ensures |actions| > 0 && actions[|actions| - 1].Stop? ==> ReadTimer(Run(w, actions).local).None?
    ensures |actions| > 0 && actions[|actions| - 1].Start? ==>
              ReadTimer(Run(w, actions).local)
                == Some(ActiveTimer(actions[|actions| - 1].ticketId, actions[|actions| - 1].now))
    decreases |actions|
  {
    if |actions| > 0 {
      LastWriteWins(Apply(w, actions[0]), actions[1..]);
      if |actions| > 1 {
        assert actions[1..][|actions[1..]| - 1] == actions[|actions| - 1];
      }
    }
  }
}
