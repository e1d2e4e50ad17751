/** One ticket row of the popup (src/components/TicketItem.tsx): the
    issue-type classification, the timer buttons and the two ways of
    logging time. A handler is modelled as the ordered list of effects it
    causes; the outcome of the worklog call is a parameter. */
module TicketItem {
  import opened Wrappers
  import opened Strings
  import opened Types
  import opened Jira
  import opened TimerStore

  // ---------------------------------------------------------------------
  // Issue-type icon

  /** The icon families, one per branch of the classifier. */
  datatype IssueKind = BugKind | TaskKind | StoryKind | EpicKind | SubtaskKind | RequestKind | AnalysisKind | OtherKind

  /** The name shown and classified: a missing or empty name reads as
      "Unknown". */
  function IssueName(issueType: Option<IssueType>): (name: string)
    ensures issueType.Some? && issueType.value.name != "" ==> name == issueType.value.name
    ensures issueType.None? || issueType.value.name == "" ==> name == "Unknown"
  {
    if issueType.Some? && issueType.value.name != "" then issueType.value.name else "Unknown"
  }

  /** Classification of the lower-cased name by the first rule that
      matches: "bug"; "task" without "sub"; "story"; "epic"; "sub";
      "anfrage"; "analyse"; otherwise the generic icon. */
  function IssueKindOf(issueType: Option<IssueType>): (kind: IssueKind)
    ensures var n := ToLower(IssueName(issueType));
            && (kind == BugKind <==> Contains(n, "bug"))
            && (kind == TaskKind <==> !Contains(n, "bug") && Contains(n, "task") && !Contains(n, "sub"))
            && (kind == StoryKind <==>
                  !Contains(n, "bug") && !(Contains(n, "task") && !Contains(n, "sub")) && Contains(n, "story"))
            && (kind == EpicKind <==>
                  !Contains(n, "bug") && !(Contains(n, "task") && !Contains(n, "sub"))
                  && !Contains(n, "story") && Contains(n, "epic"))
            && (kind == SubtaskKind <==>
                  !Contains(n, "bug") && !Contains(n, "story") && !Contains(n, "epic") && Contains(n, "sub"))
            && (kind == RequestKind <==>
                  !Contains(n, "bug") && !Contains(n, "task") && !Contains(n, "story")
                  && !Contains(n, "epic") && !Contains(n, "sub") && Contains(n, "anfrage"))
            && (kind == AnalysisKind <==>
                  !Contains(n, "bug") && !Contains(n, "task") && !Contains(n, "story")
                  && !Contains(n, "epic") && !Contains(n, "sub")
                  && !Contains(n, "anfrage") && Contains(n, "analyse"))
            && (kind == OtherKind <==>
                  !Contains(n, "bug") && !Contains(n, "task") && !Contains(n, "story")
                  && !Contains(n, "epic") && !Contains(n, "sub")
                  && !Contains(n, "anfrage") && !Contains(n, "analyse"))
  {
    var n := ToLower(IssueName(issueType));
    if Contains(n, "bug") then BugKind
    else if Contains(n, "task") && !Contains(n, "sub") then TaskKind
    else if Contains(n, "story") then StoryKind
    else if Contains(n, "epic") then EpicKind
    else if Contains(n, "sub") then SubtaskKind
    else if Contains(n, "anfrage") then RequestKind
    else if Contains(n, "analyse") then AnalysisKind
    else OtherKind
  }

  /** The colour class drawn for each kind. */
  function KindColor(kind: IssueKind): string {
    match kind
    case BugKind => "text-red-500"
    case TaskKind => "text-blue-500"
    case StoryKind => "text-green-500"
    case EpicKind => "text-purple-500"
    case SubtaskKind => "text-teal-600 dark:text-teal-400"
    case RequestKind => "text-orange-500"
    case AnalysisKind => "text-indigo-500"
    case OtherKind => "text-gray-400"
  }

  /** Every kind has its own colour class, so the colour alone tells the
      kind apart. */
  lemma KindColorsDistinct(a: IssueKind, b: IssueKind)
    ensures KindColor(a) == KindColor(b) <==> a == b
  {
  }

  /** Names that contain none of the keywords get the generic icon. */
  lemma OtherWhenNoKeyword(issueType: Option<IssueType>)
    requires var n := ToLower(IssueName(issueType));
             && !Contains(n, "bug") && !Contains(n, "task") && !Contains(n, "story")
             && !Contains(n, "epic") && !Contains(n, "sub")
             && !Contains(n, "anfrage") && !Contains(n, "analyse")
    ensures IssueKindOf(issueType) == OtherKind
    ensures KindColor(IssueKindOf(issueType)) == "text-gray-400"
  {
  }

  /** A missing type reads as "unknown", which contains no keyword. */
  lemma MissingTypeIsOther()
    ensures IssueKindOf(None) == OtherKind
  {
    var n := ToLower("Unknown");
    assert n == "unknown";
    NoKeyword(n);
  }

  /** "unknown" contains none of the keywords. */
  lemma NoKeyword(n: string)
    requires n == "unknown"
    ensures !Contains(n, "bug") && !Contains(n, "task") && !Contains(n, "story") && !Contains(n, "epic")
    ensures !Contains(n, "sub") && !Contains(n, "anfrage") && !Contains(n, "analyse")
  {
    assert forall k :: 0 <= k < |n| ==> n[k] in "unkow";
    AbsentFirstChar(n, "bug");
    AbsentFirstChar(n, "task");
    AbsentFirstChar(n, "story");
    AbsentFirstChar(n, "epic");
    AbsentFirstChar(n, "sub");
    AbsentFirstChar(n, "anfrage");
    AbsentFirstChar(n, "analyse");
  }

  /** A word whose first letter does not occur in `s` does not occur in `s`. */
  lemma AbsentFirstChar(s: string, word: string)
    requires |word| > 0 && word[0] !in s
    ensures !Contains(s, word)
  {
    forall i: nat
      ensures !OccursAt(s, word, i)
    {
      if i + |word| <= |s| {
        assert s[i..i + |word|][0] == s[i];
        assert s[i] in s;
      }
    }
  }

  // ---------------------------------------------------------------------
  // Timer buttons

  /** `isTimerRunning`: the stored timer belongs to this ticket. */
  predicate IsTimerRunning(active: Option<ActiveTimer>, ticket: Ticket) {
    active.Some? && active.value.ticketId == ticket.id
  }

  /** The start button is disabled while any timer runs. */
  predicate StartDisabled(active: Option<ActiveTimer>) {
    active.Some?
  }

  /** A timer runs for at most one ticket id, and a ticket whose timer runs
      cannot be started again. */
  lemma RunningExcludes(active: Option<ActiveTimer>, t1: Ticket, t2: Ticket)
    ensures IsTimerRunning(active, t1) && IsTimerRunning(active, t2) ==> t1.id == t2.id
    ensures IsTimerRunning(active, t1) ==> StartDisabled(active)
  {
  }

  // ---------------------------------------------------------------------
  // Logging time

  /** What a handler makes happen, in order. */
  datatype Effect =
    | TouchGrassAlert                                 // the eight-hour advisory
    | SubmitWorklog(ticketId: string, timeSpent: TimeSpent)
    | StopActiveTimer                                 // `onStopTimer()`
    | StartActiveTimer(ticketId: string)              // `onStartTimer(id)`
    | RefreshTickets                                  // `onRefresh()`
    | ClearManualInput                                // `setManualTime("")`
    | FailureAlert

  const TouchGrassSeconds := 28800
  const MinimumWorklogSeconds := 60

  /** `checkTouchGrass`: the advisory for eight hours or more. */
  function CheckTouchGrass(seconds: int): (effects: seq<Effect>)
    ensures effects == [TouchGrassAlert] <==> seconds >= TouchGrassSeconds
    ensures effects == [] <==> seconds < TouchGrassSeconds
  {
    if seconds >= TouchGrassSeconds then [TouchGrassAlert] else []
  }

  /** Whole seconds between a start and `now` (both in milliseconds),
      rounded down. */
  function ElapsedSeconds(startTime: int, now: int): int {
    (now - startTime) / 1000
  }

  /** The duration submitted when a timer stops: the elapsed time, but at
      least a minute. */
  function StopDuration(elapsed: int): (seconds: int)
    ensures seconds >= MinimumWorklogSeconds
    ensures elapsed >= MinimumWorklogSeconds ==> seconds == elapsed
    ensures elapsed < MinimumWorklogSeconds ==> seconds == MinimumWorklogSeconds
  {
    if elapsed < MinimumWorklogSeconds then MinimumWorklogSeconds else elapsed
  }

  /** The worklog call succeeded and the follow-ups ran, or it failed and
      the alert was shown. */
  function AfterSubmit(outcome: Result<(), ApiError>, onSuccess: seq<Effect>): seq<Effect> {
    if outcome.Success? then onSuccess else [FailureAlert]
  }

  predicate CountsOnce(effects: seq<Effect>, e: Effect) {
    && e in effects
    && forall i, j :: 0 <= i < |effects| && 0 <= j < |effects| && effects[i] == e && effects[j] == e ==> i == j
  }

  /** Every `a` in the list comes before every `b`. */
  predicate Before(effects: seq<Effect>, a: Effect, b: Effect) {
    forall i, j :: 0 <= i < |effects| && 0 <= j < |effects| && effects[i] == a && effects[j] == b ==> i < j
  }

  /** A handler's list: advisories, then one submission, then follow-ups
      that are neither. The submission is the only one and comes after every
      advisory and before every follow-up; two follow-ups keep their order. */
  lemma Arrange(alerts: seq<Effect>, submit: Effect, tail: seq<Effect>, x: Effect, y: Effect)
    requires forall e :: e in alerts ==> e == TouchGrassAlert
    requires submit.SubmitWorklog?
    requires forall e :: e in tail ==> !e.SubmitWorklog? && e != TouchGrassAlert
    requires Before(tail, x, y)
    ensures var es := alerts + [submit] + tail;
            && CountsOnce(es, submit)
            && (forall e :: e in es && e.SubmitWorklog? ==> e == submit)
            && (forall e :: e in es <==> e in alerts || e == submit || e in tail)
            && Before(es, TouchGrassAlert, submit)
            && (forall e :: e in tail ==> Before(es, submit, e))
            && (x != TouchGrassAlert && !x.SubmitWorklog? && y != TouchGrassAlert && !y.SubmitWorklog?
                ==> Before(es, x, y))
  {
    var es := alerts + [submit] + tail;
    var n := |alerts|;
    forall k | 0 <= k < n
      ensures es[k] == alerts[k] == TouchGrassAlert
    {
      assert alerts[k] in alerts;
    }
    assert es[n] == submit;
    forall k | n < k < |es|
      ensures es[k] == tail[k - n - 1] && !es[k].SubmitWorklog? && es[k] != TouchGrassAlert
    {
      assert tail[k - n - 1] in tail;
    }
    if x != TouchGrassAlert && !x.SubmitWorklog? && y != TouchGrassAlert && !y.SubmitWorklog? {
      forall i, j | 0 <= i < |es| && 0 <= j < |es| && es[i] == x && es[j] == y
        ensures i < j
      {
        assert tail[i - n - 1] == x && tail[j - n - 1] == y;
      }
    }
    forall e
      ensures e in es <==> e in alerts || e == submit || e in tail
    {
      if e in es {
        var i :| 0 <= i < |es| && es[i] == e;
        if i < n { assert alerts[i] == e; } else if i > n { assert tail[i - n - 1] == e; }
      }
      if e in alerts {
        var i :| 0 <= i < n && alerts[i] == e;
        assert es[i] == e;
      }
      if e in tail {
        var i :| 0 <= i < |tail| && tail[i] == e;
        assert es[i + n + 1] == e;
      }
    }
  }

  /** `handleStopTimer`: nothing without a timer. Otherwise the advisory
      when the raw elapsed time reaches eight hours, one worklog of the
      elapsed seconds raised to a minute against this ticket, and then
      either stop-and-refresh or, when the call fails, the failure alert,
      which leaves the timer running. */
  function HandleStopTimer(active: Option<ActiveTimer>, ticket: Ticket, now: int, reply: Reply<()>)
    : (effects: seq<Effect>)
    ensures active.None? ==> effects == []
    ensures active.Some? ==>
              var elapsed := ElapsedSeconds(active.value.startTime, now);
              var submit := SubmitWorklog(ticket.id, Seconds(StopDuration(elapsed)));
              && CountsOnce(effects, submit)
              && (forall e :: e in effects && e.SubmitWorklog? ==> e == submit)
              && (TouchGrassAlert in effects <==> elapsed >= TouchGrassSeconds)
              && (StopActiveTimer in effects <==> IsOk(reply))
              && (RefreshTickets in effects <==> IsOk(reply))
              && (FailureAlert in effects <==> !IsOk(reply))
              && Before(effects, TouchGrassAlert, submit)
              && Before(effects, submit, StopActiveTimer)
              && Before(effects, StopActiveTimer, RefreshTickets)
    ensures forall e :: e in effects ==> !e.StartActiveTimer? && e != ClearManualInput
  {
    if active.None? then []
    else
      var seconds := ElapsedSeconds(active.value.startTime, now);
      var submit := SubmitWorklog(ticket.id, Seconds(StopDuration(seconds)));
      var tail := AfterSubmit(AddWorklogOutcome(reply), [StopActiveTimer, RefreshTickets]);
      Arrange(CheckTouchGrass(seconds), submit, tail, StopActiveTimer, RefreshTickets);
      CheckTouchGrass(seconds) + [submit] + tail
  }

  /** `handleManualSubmit`: nothing for an empty entry. Otherwise the
      advisory when the parsed duration is positive and at least eight
      hours, one worklog carrying the entry's text unchanged, and then
      either clear-and-refresh or the failure alert, which keeps the entry.
      The running timer is never touched. */
  function HandleManualSubmit(manualTime: string, ticket: Ticket, parseDuration: string -> int, reply: Reply<()>)
    : (effects: seq<Effect>)
    ensures manualTime == "" ==> effects == []
    ensures manualTime != "" ==>
              var submit := SubmitWorklog(ticket.id, Text(manualTime));
              && CountsOnce(effects, submit)
              && (forall e :: e in effects && e.SubmitWorklog? ==> e == submit)
              && (TouchGrassAlert in effects <==> parseDuration(manualTime) >= TouchGrassSeconds)
              && (ClearManualInput in effects <==> IsOk(reply))
              && (RefreshTickets in effects <==> IsOk(reply))
              && (FailureAlert in effects <==> !IsOk(reply))
              && Before(effects, TouchGrassAlert, submit)
              && Before(effects, submit, ClearManualInput)
              && Before(effects, ClearManualInput, RefreshTickets)
    ensures forall e :: e in effects ==> !e.StartActiveTimer? && e != StopActiveTimer
  {
    if manualTime == "" then []
    else
      var seconds := parseDuration(manualTime);
      var alerts := if seconds > 0 then CheckTouchGrass(seconds) else [];
      var submit := SubmitWorklog(ticket.id, Text(manualTime));
      var tail := AfterSubmit(AddWorklogOutcome(reply), [ClearManualInput, RefreshTickets]);
      Arrange(alerts, submit, tail, ClearManualInput, RefreshTickets);
      alerts + [submit] + tail
  }

  /** The start button: a click starts a timer for this ticket unless the
      button is disabled because some timer runs. */
  function HandleStartClick(active: Option<ActiveTimer>, ticket: Ticket): (effects: seq<Effect>)
    ensures StartActiveTimer(ticket.id) in effects <==> !StartDisabled(active)
    ensures effects == [StartActiveTimer(ticket.id)] <==> active.None?
    ensures effects == [] <==> active.Some?
    ensures |effects| <= 1
  {
    if StartDisabled(active) then [] else [StartActiveTimer(ticket.id)]
  }

  // ---------------------------------------------------------------------
  // Effects on the popup state

  /** The state the handlers act on: the shared store and badge, and this
      row's manual-entry text. */
  datatype Popup = Popup(world: World, manualTime: string)

  function ApplyEffect(p: Popup, e: Effect, now: int): Popup {
    match e
    case StopActiveTimer => p.(world := StopTimer(p.world))
    case StartActiveTimer(id) => p.(world := StartTimer(p.world, id, now))
    case ClearManualInput => p.(manualTime := "")
    case _ => p
  }

  function ApplyEffects(p: Popup, effects: seq<Effect>, now: int): Popup
    decreases |effects|
  {
    if |effects| == 0 then p else ApplyEffects(ApplyEffect(p, effects[0], now), effects[1..], now)
  }

  lemma {:induction false} ApplyEffectsAppend(p: Popup, xs: seq<Effect>, ys: seq<Effect>, now: int)
    ensures ApplyEffects(p, xs + ys, now) == ApplyEffects(ApplyEffects(p, xs, now), ys, now)
    decreases |xs|
  {
    if |xs| > 0 {
      assert (xs + ys)[1..] == xs[1..] + ys;
      ApplyEffectsAppend(ApplyEffect(p, xs[0], now), xs[1..], ys, now);
    } else {
      assert xs + ys == ys;
    }
  }

  /** Effects that touch neither the store nor the manual entry. */
  lemma {:induction false} InertEffects(p: Popup, effects: seq<Effect>, now: int)
    requires forall e :: e in effects ==> e == TouchGrassAlert || e.SubmitWorklog? || e == RefreshTickets || e == FailureAlert
    ensures ApplyEffects(p, effects, now) == p
    decreases |effects|
  {
    if |effects| > 0 {
      assert effects[0] in effects;
      assert forall e :: e in effects[1..] ==> e in effects;
      InertEffects(p, effects[1..], now);
    }
  }

  /** Stopping the timer: a successful worklog clears the stored timer and
      the badge text; a failed one leaves store, badge and entry as they
      were, so the user can retry. */
  lemma StopTimerOutcome(p: Popup, ticket: Ticket, now: int, reply: Reply<()>)
    requires ReadTimer(p.world.local).Some?
    ensures var after := ApplyEffects(p, HandleStopTimer(ReadTimer(p.world.local), ticket, now, reply), now);
            && (IsOk(reply) ==> ReadTimer(after.world.local).None? && after.world.badge.text == "")
            && (!IsOk(reply) ==> after == p)
            && after.manualTime == p.manualTime
  {
    var active := ReadTimer(p.world.local);
    var seconds := ElapsedSeconds(active.value.startTime, now);
    var front := CheckTouchGrass(seconds) + [SubmitWorklog(ticket.id, Seconds(StopDuration(seconds)))];
    var tail := AfterSubmit(AddWorklogOutcome(reply), [StopActiveTimer, RefreshTickets]);
    assert HandleStopTimer(active, ticket, now, reply) == front + tail;
    ApplyEffectsAppend(p, front, tail, now);
    InertEffects(p, front, now);
    if IsOk(reply) {
      assert tail == [StopActiveTimer] + [RefreshTickets];
      ApplyEffectsAppend(p, [StopActiveTimer], [RefreshTickets], now);
      InertEffects(ApplyEffect(p, StopActiveTimer, now), [RefreshTickets], now);
    } else {
      InertEffects(p, tail, now);
    }
  }

  /** A manual entry never changes the stored timer or the badge; a
      successful one clears the entry and a failed one keeps it. */
  lemma ManualSubmitOutcome(p: Popup, ticket: Ticket, parseDuration: string -> int, reply: Reply<()>)
    ensures var after := ApplyEffects(p, HandleManualSubmit(p.manualTime, ticket, parseDuration, reply), 0);
            && after.world == p.world
            && (p.manualTime != "" && IsOk(reply) ==> after.manualTime == "")
            && (!IsOk(reply) ==> after.manualTime == p.manualTime)
  {
    var effects := HandleManualSubmit(p.manualTime, ticket, parseDuration, reply);
    if p.manualTime == "" {
      assert effects == [];
    } else {
      var seconds := parseDuration(p.manualTime);
      var front := (if seconds > 0 then CheckTouchGrass(seconds) else [])
                   + [SubmitWorklog(ticket.id, Text(p.manualTime))];
      var tail := AfterSubmit(AddWorklogOutcome(reply), [ClearManualInput, RefreshTickets]);
      assert effects == front + tail;
      ApplyEffectsAppend(p, front, tail, 0);
      InertEffects(p, front, 0);
      if IsOk(reply) {
        assert tail == [ClearManualInput] + [RefreshTickets];
        ApplyEffectsAppend(p, [ClearManualInput], [RefreshTickets], 0);
        InertEffects(ApplyEffect(p, ClearManualInput, 0), [RefreshTickets], 0);
      } else {
        InertEffects(p, tail, 0);
      }
    }
  }

  /** Starting from the visible button and stopping from the visible
      button: the worklog goes to the ticket the timer was started on, and
      carries the whole seconds elapsed, or a minute for shorter runs. */
  lemma StartThenStop(w: World, ticket: Ticket, start: int, stop: int, reply: Reply<()>)
    requires ReadTimer(w.local).None?
    requires start <= stop
    ensures var started := ApplyEffects(Popup(w, ""), HandleStartClick(ReadTimer(w.local), ticket), start);
            var active := ReadTimer(started.world.local);
            && active == Some(ActiveTimer(ticket.id, start))
            && IsTimerRunning(active, ticket)
            && var effects := HandleStopTimer(active, ticket, stop, reply);
               && SubmitWorklog(ticket.id, Seconds(StopDuration((stop - start) / 1000))) in effects
               && ((stop - start) / 1000 >= 60 ==>
                     SubmitWorklog(ticket.id, Seconds((stop - start) / 1000)) in effects)
               && ((stop - start) / 1000 < 60 ==> SubmitWorklog(ticket.id, Seconds(60)) in effects)
  {
    assert HandleStartClick(ReadTimer(w.local), ticket) == [StartActiveTimer(ticket.id)];
  }

  /** Two concrete stops: 65 seconds are logged as 65, ten as a minute;
      a timer read from a clock that went backwards still logs a minute. */
  lemma StopExamples(ticket: Ticket, reply: Reply<()>)
    ensures SubmitWorklog(ticket.id, Seconds(65)) in HandleStopTimer(Some(ActiveTimer(ticket.id, 0)), ticket, 65_999, reply)
    ensures SubmitWorklog(ticket.id, Seconds(60)) in HandleStopTimer(Some(ActiveTimer(ticket.id, 0)), ticket, 10_000, reply)
    ensures SubmitWorklog(ticket.id, Seconds(60)) in HandleStopTimer(Some(ActiveTimer(ticket.id, 5_000)), ticket, 0, reply)
    ensures TouchGrassAlert in HandleStopTimer(Some(ActiveTimer(ticket.id, 0)), ticket, 28_800_000, reply)
    ensures TouchGrassAlert !in HandleStopTimer(Some(ActiveTimer(ticket.id, 0)), ticket, 28_799_999, reply)
  {
  }
}
