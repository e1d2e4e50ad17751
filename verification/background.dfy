/** The background worker (src/background/index.ts): it keeps the toolbar
    badge in step with the stored timer record. */
module Background {
  import opened Wrappers
  import opened Types
  import opened TimerStore

  /** `updateBadge`: a timer record turns the badge on in green; no record
      clears the text and leaves the colour as it was. */
  function UpdateBadge(badge: Badge, timer: Option<ActiveTimer>): (badge': Badge)
    ensures timer.Some? ==> badge' == Badge(BadgeOnText, BadgeOnColor)
    ensures timer.None? ==> badge' == Badge("", badge.color)
  {
    if timer.Some? then Badge(BadgeOnText, BadgeOnColor) else badge.(text := "")
  }

  /** The storage listener: it reacts only to a change of the timer key in
      the local area; any other change leaves the badge alone. */
  function OnStorageChanged(badge: Badge, change: StorageChange): (badge': Badge)
    ensures change.area == "local" && ActiveTimerKey in change.changes ==>
              badge' == UpdateBadge(badge, change.changes[ActiveTimerKey])
    ensures change.area != "local" || ActiveTimerKey !in change.changes ==> badge' == badge
  {
    if change.area == "local" && ActiveTimerKey in change.changes then
      UpdateBadge(badge, change.changes[ActiveTimerKey])
    else badge
  }

  /** The `onInstalled` and `onStartup` listeners, which do the same thing:
      read the stored record and recompute the badge from it. Afterwards the
      badge shows the stored timer, whatever it showed before. */
  function RestoreBadge(w: World): (w': World)
    ensures w'.local == w.local
    ensures w'.badge == UpdateBadge(w.badge, ReadTimer(w.local))
    ensures BadgeShowsTimer(w')
  {
    w.(badge := UpdateBadge(w.badge, ReadTimer(w.local)))
  }

  /** The badge is on exactly when a timer is stored, and green whenever
      it is on. */
  predicate BadgeShowsTimer(w: World) {
    && (w.badge.text == BadgeOnText <==> ReadTimer(w.local).Some?)
    && (ReadTimer(w.local).Some? ==> w.badge.color == BadgeOnColor)
  }

  /** Updating twice with the same record is updating once. */
  lemma UpdateBadgeIdempotent(badge: Badge, timer: Option<ActiveTimer>)
    ensures UpdateBadge(UpdateBadge(badge, timer), timer) == UpdateBadge(badge, timer)
  {
  }

  /** A start or stop in the popup notifies the worker; the hook's own badge
      write and the worker's reaction give the same badge in either order,
      and the result shows the stored timer. */
  lemma BadgeOrderIrrelevant(w: World, ticketId: string, now: int)
    ensures var started := StartTimer(w, ticketId, now);
            var workerFirst := OnStorageChanged(
              UpdateBadge(w.badge, Some(ActiveTimer(ticketId, now))), StartChange(ticketId, now));
            && OnStorageChanged(started.badge, StartChange(ticketId, now)) == started.badge
            && workerFirst == started.badge
            && BadgeShowsTimer(started)
    ensures var stopped := StopTimer(w);
            && OnStorageChanged(stopped.badge, StopChange()) == stopped.badge
            && OnStorageChanged(w.badge, StopChange()).(text := "") == stopped.badge
            && BadgeShowsTimer(stopped)
  {
  }

  /** A run of starts and stops, each followed by the worker's reaction. */
  function Step(w: World, a: Action): World {
    var w' := Apply(w, a);
    var change := match a
      case Start(id, now) => StartChange(id, now)
      case Stop => StopChange();
    w'.(badge := OnStorageChanged(w'.badge, change))
  }

  function Session(w: World, actions: seq<Action>): World
    decreases |actions|
  {
    if |actions| == 0 then w else Session(Step(w, actions[0]), actions[1..])
  }

  /** Once the badge agrees with the store it keeps agreeing through any
      run of starts and stops, and the store ends as the plain run of the
      same actions leaves it. */
  lemma {:induction false} SessionKeepsBadge(w: World, actions: seq<Action>)
    requires BadgeShowsTimer(w)
    ensures BadgeShowsTimer(Session(w, actions))
    ensures Session(w, actions).local == Run(w, actions).local
    decreases |actions|
  {
    if |actions| > 0 {
      var w' := Step(w, actions[0]);
      assert w'.local == Apply(w, actions[0]).local;
      assert BadgeShowsTimer(w');
      SessionKeepsBadge(w', actions[1..]);
      SessionRunAgree(w', Apply(w, actions[0]), actions[1..]);
    }
  }

  /** The store after a run depends only on the store it starts from. */
  lemma {:induction false} SessionRunAgree(w1: World, w2: World, actions: seq<Action>)
    requires w1.local == w2.local
    ensures Session(w1, actions).local == Run(w2, actions).local
    decreases |actions|
  {
    if |actions| > 0 {
      SessionRunAgree(Step(w1, actions[0]), Apply(w2, actions[0]), actions[1..]);
    }
  }
}
