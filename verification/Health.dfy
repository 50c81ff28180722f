/** Connection health: failure counters and status over every way a run can end. */
module Health {
  import opened Wrappers

  datatype Status =
    | Pending | Healthy | Syncing | NeedsReauth | PermissionDenied | RateLimited
    | InvalidConfig | ProviderUnavailable | Errored | Paused

  const INVALID_CONFIGURATION := "INVALID_CONFIGURATION"

  datatype Ending = Succeeded | PartiallySucceeded | Failed(code: Option<string>) | Cancelled {
    predicate Ok() {
      Succeeded? || PartiallySucceeded?
    }
  }

  /** The health columns of a connection row. */
  datatype Health = Health(status: Status, failures: nat, scheduledFailures: nat, lastError: Option<string>, enabled: bool)

  datatype Event =
    | StartRun
    | CheckFailed(status: Status)
    | Finalize(ending: Ending, scheduled: bool, ownsLease: bool)
    | Reap
    | Pause
    | Resume
    | Preflight

  /** A failed health check stores the status it maps to; none maps to a good one. */
  predicate Possible(e: Event) {
    e.CheckFailed? ==>
      e.status in {NeedsReauth, PermissionDenied, RateLimited, InvalidConfig, ProviderUnavailable, Errored}
  }

  /** Leave the transient state: back to what the failure streak says. */
  function Settled(h: Health): Health {
    if h.status == Syncing then h.(status := if h.failures > 0 then Errored else Healthy) else h
  }

  function Closed(h: Health, ending: Ending, scheduled: bool): Health {
    if ending.Ok() then
      var s := if scheduled then 0 else h.scheduledFailures;
      if s > 0 then
        h.(status := if h.lastError == Some(INVALID_CONFIGURATION) then InvalidConfig else Errored)
      else h.(status := Healthy, failures := 0, scheduledFailures := 0, lastError := None)
    else if ending.Cancelled? then Settled(h)
    else
      h.(failures := h.failures + 1,
         scheduledFailures := h.scheduledFailures + (if scheduled then 1 else 0),
         lastError := ending.code,
         status := if h.status in {Syncing, Healthy} then Errored else h.status)
  }

  function Happen(h: Health, e: Event): Health {
    match e
    case StartRun => h.(status := Syncing)
    case CheckFailed(status) => h.(status := status)
    case Finalize(ending, scheduled, owns) => if owns then Closed(h, ending, scheduled) else h
    case Reap => Settled(h)
    case Pause => h.(status := Paused, enabled := false)
    case Resume => h.(status := Pending, enabled := true)
    case Preflight => if h.status == Syncing then h else h.(status := InvalidConfig)
  }

  function After(h: Health, events: seq<Event>): Health {
    if events == [] then h else Happen(After(h, events[..|events| - 1]), events[|events| - 1])
  }

  // --- what the counters mean -----------------------------------------------------------

  predicate ScheduledSuccess(e: Event) {
    e.Finalize? && e.ownsLease && e.ending.Ok() && e.scheduled
  }

  predicate ScheduledFailure(e: Event) {
    e.Finalize? && e.ownsLease && e.ending.Failed? && e.scheduled
  }

  function Count(events: seq<Event>, of: Event -> bool): nat {
    if events == [] then 0
    else Count(events[..|events| - 1], of) + (if of(events[|events| - 1]) then 1 else 0)
  }

  predicate Never(events: seq<Event>, of: Event -> bool) {
    forall i :: 0 <= i < |events| ==> !of(events[i])
  }

  /** `events[cut..]` is what happened since the last scheduled success, or since the beginning. */
  ghost predicate SinceScheduledSuccess(events: seq<Event>, cut: nat) {
    && cut <= |events|
    && (cut > 0 ==> ScheduledSuccess(events[cut - 1]))
    && Never(events[cut..], ScheduledSuccess)
  }

  const NEW_CONNECTION := Health(Pending, 0, 0, None, true)

  ghost predicate Inv(h: Health) {
    && h.failures >= h.scheduledFailures
    && (h.status == Healthy ==> h.failures == 0)
  }

  lemma HappenKeeps(h: Health, e: Event)
    requires Inv(h) && Possible(e)
    ensures Inv(Happen(h, e))
  {
  }

  ghost predicate AllPossible(events: seq<Event>) {
    forall e :: e in events ==> Possible(e)
  }

  /** On every trace the failures counted include the scheduled ones, and a connection shown
      healthy has neither. */
  lemma {:induction false} HealthyMeansNoFailures(events: seq<Event>)
    requires AllPossible(events)
    ensures var h := After(NEW_CONNECTION, events);
            h.failures >= h.scheduledFailures && (h.status == Healthy ==> h.failures == 0 == h.scheduledFailures)
    ensures Inv(After(NEW_CONNECTION, events))
  {
    if events != [] {
      var init, last := events[..|events| - 1], events[|events| - 1];
      assert events == init + [last];
      assert last in events && forall e :: e in init ==> e in events;
      HealthyMeansNoFailures(init);
      HappenKeeps(After(NEW_CONNECTION, init), last);
    }
  }

  lemma NeverInPrefix(events: seq<Event>, from: nat, of: Event -> bool)
    requires from < |events| && Never(events[from..], of)
    ensures Never(events[..|events| - 1][from..], of) && !of(events[|events| - 1])
  {
    var init := events[..|events| - 1];
    assert events[from..][|events| - 1 - from] == events[|events| - 1];
    forall i | 0 <= i < |init[from..]| ensures !of(init[from..][i]) { assert init[from..][i] == events[from..][i]; }
  }

  /** The scheduled counter is exactly the scheduled failures since the last scheduled success. */
  lemma {:induction false} ScheduledFailuresCounted(events: seq<Event>, cut: nat)
    requires SinceScheduledSuccess(events, cut)
    ensures After(NEW_CONNECTION, events).scheduledFailures == Count(events[cut..], ScheduledFailure)
  {
    if cut == |events| {
      assert events[cut..] == [];
    } else {
      var init, last := events[..|events| - 1], events[|events| - 1];
      NeverInPrefix(events, cut, ScheduledSuccess);
      assert cut > 0 ==> init[cut - 1] == events[cut - 1];
      ScheduledFailuresCounted(init, cut);
      assert events[cut..][..|events[cut..]| - 1] == init[cut..];
      assert events[cut..][|events[cut..]| - 1] == last;
    }
  }

  predicate AnyFailure(e: Event) {
    e.Finalize? && e.ownsLease && e.ending.Failed?
  }

  /** Event `i` wipes the slate: an owned success, scheduled or with no scheduled failure standing. */
  predicate Clears(events: seq<Event>, i: nat)
    requires i < |events|
  {
    var e := events[i];
    e.Finalize? && e.ownsLease && e.ending.Ok() && (e.scheduled || After(NEW_CONNECTION, events[..i]).scheduledFailures == 0)
  }

  ghost predicate SinceClear(events: seq<Event>, cut: nat) {
    && cut <= |events|
    && (cut > 0 ==> Clears(events, cut - 1))
    && forall i: nat :: cut <= i < |events| ==> !Clears(events, i)
  }

  lemma ClearsInPrefix(events: seq<Event>, n: nat, i: nat)
    requires i < n <= |events|
    ensures Clears(events[..n], i) <==> Clears(events, i)
  {
    assert events[..n][..i] == events[..i];
  }

  /** The other counter is every failure since the slate was last wiped, which a manual success
      only does while the schedule is not failing. */
  lemma {:induction false} FailuresCounted(events: seq<Event>, cut: nat)
    requires SinceClear(events, cut)
    ensures After(NEW_CONNECTION, events).failures == Count(events[cut..], AnyFailure)
  {
    if cut == |events| {
      assert events[cut..] == [];
      if cut > 0 { assert Clears(events, cut - 1); }
    } else {
      var init := events[..|events| - 1];
      forall i: nat | i < |init| ensures Clears(init, i) <==> Clears(events, i) { ClearsInPrefix(events, |init|, i); }
      FailuresCounted(init, cut);
      assert !Clears(events, |init|);
      assert events[cut..][..|events[cut..]| - 1] == init[cut..];
      assert events[cut..][|events[cut..]| - 1] == events[|init|];
    }
  }

  /** A failing schedule is never hidden: after a scheduled failure nothing but a scheduled
      success shows the connection healthy again - no manual success, cancellation, reap,
      pause, resume or preflight does. */
  lemma {:induction false} FailingScheduleStaysVisible(events: seq<Event>, i: nat)
    requires AllPossible(events) && i < |events| && ScheduledFailure(events[i])
    requires Never(events[i..], ScheduledSuccess)
    ensures After(NEW_CONNECTION, events).status != Healthy
    ensures After(NEW_CONNECTION, events).scheduledFailures > 0
  {
    HealthyMeansNoFailures(events);
    NeverInPrefix(events, i, ScheduledSuccess);
    if i < |events| - 1 {
      var init := events[..|events| - 1];
      assert init[i] == events[i] && forall e :: e in init ==> e in events;
      FailingScheduleStaysVisible(init, i);
    }
  }

  /** Events that say nothing about the run that is on: a fenced worker's, and a preflight. */
  predicate LeavesRun(e: Event) {
    e.Preflight? || (e.Finalize? && !e.ownsLease)
  }

  /** Event `i` started a run that nothing has ended or overridden since. */
  ghost predicate RunIsOn(events: seq<Event>, i: nat) {
    i < |events| && events[i].StartRun? && forall j :: i < j < |events| ==> LeavesRun(events[j])
  }

  /** A connection shows that it is syncing exactly while the run last started is on: closed, reaped,
      refused by its health check, paused or resumed, it does not; a preflight does not disturb it. */
  lemma {:induction false} SyncingIff(events: seq<Event>)
    requires AllPossible(events)
    ensures After(NEW_CONNECTION, events).status == Syncing <==> exists i: nat :: RunIsOn(events, i)
  {
    if events != [] {
      var init, last := events[..|events| - 1], events[|events| - 1];
      assert events == init + [last] && last in events && forall e :: e in init ==> e in events;
      SyncingIff(init);
      if last.StartRun? { assert RunIsOn(events, |init|); }
      if i: nat :| RunIsOn(init, i) && LeavesRun(last) { assert RunIsOn(events, i); }
      if i: nat :| RunIsOn(events, i) && i < |init| {
        assert events[|init|] == last && LeavesRun(last);
        assert RunIsOn(init, i);
      }
    }
  }

  /** A connection is enabled exactly unless its owner paused it after resuming it last. */
  lemma {:induction false} EnabledIff(events: seq<Event>)
    ensures After(NEW_CONNECTION, events).enabled <==>
              forall i :: 0 <= i < |events| && events[i].Pause? ==> exists j :: i < j < |events| && events[j].Resume?
  {
    if events != [] {
      var init, last := events[..|events| - 1], events[|events| - 1];
      EnabledIff(init);
      if last.Resume? {
        assert events[|init|].Resume?;
      } else {
        forall i | 0 <= i < |init| && init[i].Pause?
          ensures (exists j :: i < j < |events| && events[j].Resume?) <==> exists j :: i < j < |init| && init[j].Resume?
        {
          if j :| i < j < |events| && events[j].Resume? { assert init[j].Resume?; }
          if j :| i < j < |init| && init[j].Resume? { assert events[j].Resume?; }
        }
        assert forall i :: 0 <= i < |init| ==> init[i] == events[i];
      }
    }
  }

  /** A run that ends in the state it started says healthy exactly when no failure is counted. */
  lemma EndingIsHonest(h: Health, ending: Ending, scheduled: bool)
    requires Inv(h) && h.status == Syncing
    ensures Closed(h, ending, scheduled).status == Healthy <==> Closed(h, ending, scheduled).failures == 0
    ensures ending.Cancelled? ==>
              Closed(h, ending, scheduled) == h.(status := if h.failures > 0 then Errored else Healthy)
  {
  }

  /** A pause during a run survives the run's ending exactly when the ending is no success: a
      successful run finalized with its lease shows a disabled connection as healthy or failing. */
  lemma PauseSurvivesIff(h: Health, ending: Ending, scheduled: bool, owns: bool)
    requires h.status == Paused && !h.enabled
    ensures Happen(h, Finalize(ending, scheduled, owns)).status == Paused <==> !(owns && ending.Ok())
    ensures !Happen(h, Finalize(ending, scheduled, owns)).enabled
  {
  }

  /** The row as the program updates it. */
  class Connection {
    var status: Status
    var consecutiveFailures: nat
    var consecutiveScheduledFailures: nat
    var lastErrorCode: Option<string>
    var enabled: bool

    function View(): Health
      reads this
    {
      Health(status, consecutiveFailures, consecutiveScheduledFailures, lastErrorCode, enabled)
    }

    constructor ()
      ensures View() == NEW_CONNECTION
    {
      status, consecutiveFailures, consecutiveScheduledFailures := Pending, 0, 0;
      lastErrorCode, enabled := None, true;
    }

    /** Close the run. A fenced worker closes only its own run row. */
    method Finalize(ending: Ending, scheduled: bool, ownsLease: bool)
      modifies this
      ensures View() == Happen(old(View()), Event.Finalize(ending, scheduled, ownsLease))
      ensures old(Inv(View())) ==> Inv(View())
    {
      HappenKeepsAll(View(), Event.Finalize(ending, scheduled, ownsLease));
      if !ownsLease {
        return;
      }
      if ending.Ok() {
        if scheduled {
          consecutiveScheduledFailures := 0;
        }
        if consecutiveScheduledFailures > 0 && !scheduled {
          status := if lastErrorCode == Some(INVALID_CONFIGURATION) then InvalidConfig else Errored;
        } else {
          consecutiveFailures := 0;
          status := Healthy;
          lastErrorCode := None;
        }
      } else if ending.Cancelled? {
        if status == Syncing {
          status := if consecutiveFailures > 0 then Errored else Healthy;
        }
      } else {
        consecutiveFailures := consecutiveFailures + 1;
        if scheduled {
          consecutiveScheduledFailures := consecutiveScheduledFailures + 1;
        }
        lastErrorCode := ending.code;
        if status == Syncing || status == Healthy {
          status := Errored;
        }
      }
    }

    lemma HappenKeepsAll(h: Health, e: Event)
      requires Possible(e)
      ensures Inv(h) ==> Inv(Happen(h, e))
    {
    }

    /** The reaper closes the orphaned run as cancelled. */
    method Recover()
      modifies this
      ensures View() == Happen(old(View()), Reap)
    {
      if status == Syncing {
        status := if consecutiveFailures > 0 then Errored else Healthy;
      }
    }
  }
}
