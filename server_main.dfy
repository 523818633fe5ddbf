/** The server's cleaning thread (server/src/main.rs, `cleaning_thread`):
    an endless loop of reaper passes with a pause after each, chosen by how
    the pass ended. Real sleeping is replaced by recording the pause. */
module Reaper {
  import opened Common
  import opened Storage
  import Restful

  /** Pause after a pass that returned `Ok`, in milliseconds (0.5 s). */
  const CleanFrequentMs: nat := 500

  /** Pause after a pass that found nothing to look at (10 s). */
  const FinishedClearRelaxDelayMs: nat := 10_000

  /** Pause after a pass that failed otherwise (10 s). */
  const ErrorToCleanDelayMs: nat := 10_000

  /** The pause after a pass that returned; a panicking pass ends the thread
      before any pause is chosen. */
  function DelayAfter(outcome: CleanOutcome): (ms: nat)
    requires !outcome.ClockPanic?
    ensures ms > 0
    ensures ms == CleanFrequentMs <==> outcome.Done?
    ensures outcome == Failed(ItemNotFound) ==> ms == FinishedClearRelaxDelayMs
    ensures outcome.Failed? && outcome.error != ItemNotFound ==> ms == ErrorToCleanDelayMs
  {
    match outcome
    case Done => CleanFrequentMs
    case Failed(ItemNotFound) => FinishedClearRelaxDelayMs
    case Failed(_) => ErrorToCleanDelayMs
  }

  /** What the environment supplies to one pass: the clock reading and the
      failures of the store's steps. */
  datatype Tick = Tick(now: int, faults: CleanFaults)

  /** `states` are the dumps file's records before the first pass and after
      each pass; each pass is a `CleanStep` for the default lifetime at its
      tick's clock. */
  ghost predicate Passes(states: seq<set<ClientInfoRecord>>, ticks: seq<Tick>)
  {
    && 1 <= |states| <= |ticks| + 1
    && forall i :: 0 <= i < |states| - 1 ==>
         CleanStep(states[i], states[i + 1], Restful.DefaultLifetime, ticks[i].now)
  }

  /** A record that no pass could legally remove (another lifetime, or not
      outdated at any pass's clock) is still there after all of them. */
  lemma {:induction false} Survives(states: seq<set<ClientInfoRecord>>, ticks: seq<Tick>, x: ClientInfoRecord)
    requires Passes(states, ticks)
    requires x in states[0]
    requires forall i :: 0 <= i < |states| - 1 ==>
      !(x.lifetime == Restful.DefaultLifetime && ticks[i].now >= x.recordTime &&
        IsOutdated(x, Restful.DefaultLifetime, ticks[i].now))
    ensures x in states[|states| - 1]
  {
    if |states| > 1 {
      var init := states[..|states| - 1];
      assert Passes(init, ticks);
      Survives(init, ticks, x);
      var k := |states| - 2;
      assert CleanStep(states[k], states[k + 1], Restful.DefaultLifetime, ticks[k].now);
    }
  }

  /** Records created under any other lifetime are never reaped. */
  lemma OtherLifetimesSurvive(states: seq<set<ClientInfoRecord>>, ticks: seq<Tick>, x: ClientInfoRecord)
    requires Passes(states, ticks)
    requires x in states[0] && x.lifetime != Restful.DefaultLifetime
    ensures x in states[|states| - 1]
  {
    Survives(states, ticks, x);
  }

  /** The reaper removes only what was there: every pass can only shrink the records. */
  lemma {:induction false} OnlyShrinks(states: seq<set<ClientInfoRecord>>, ticks: seq<Tick>)
    requires Passes(states, ticks)
    ensures states[|states| - 1] <= states[0]
    ensures |states[0]| - |states[|states| - 1]| <= |states| - 1
  {
    if |states| > 1 {
      var init := states[..|states| - 1];
      assert Passes(init, ticks);
      OnlyShrinks(init, ticks);
      var k := |states| - 2;
      assert CleanStep(states[k], states[k + 1], Restful.DefaultLifetime, ticks[k].now);
    }
  }

  /** A pass over a store holding no record with the default lifetime
      neither panics nor changes the records, and the thread then relaxes
      for ten seconds (or waits as long after a failed open). */
  lemma IdlePassRelaxes(before: set<ClientInfoRecord>, after: set<ClientInfoRecord>, now: int,
                        faults: CleanFaults, outcome: CleanOutcome)
    requires CleanResult(before, after, Restful.DefaultLifetime, now, faults, outcome)
    requires !HasLifetime(before, Restful.DefaultLifetime)
    ensures after == before && !outcome.ClockPanic?
    ensures DelayAfter(outcome) == FinishedClearRelaxDelayMs
  {
  }

  /** The thread dies only on a record with the default lifetime whose time
      lies after the clock reading. */
  lemma PanicOnlyBehindClock(before: set<ClientInfoRecord>, after: set<ClientInfoRecord>, now: int,
                             faults: CleanFaults, outcome: CleanOutcome)
    requires CleanResult(before, after, Restful.DefaultLifetime, now, faults, outcome)
    requires outcome == ClockPanic
    ensures after == before
    ensures exists x :: x in before && x.lifetime == Restful.DefaultLifetime && now < x.recordTime
  {
    var x :| x in before && x.lifetime == Restful.DefaultLifetime &&
              PickResult(before, after, Restful.DefaultLifetime, now, faults, outcome, x);
  }

  /** When every record with the default lifetime is outdated and no step
      fails, a pass removes exactly one of them and the thread comes back
      after half a second. */
  lemma OutdatedPassReaps(before: set<ClientInfoRecord>, after: set<ClientInfoRecord>, now: int,
                          faults: CleanFaults, outcome: CleanOutcome)
    requires CleanResult(before, after, Restful.DefaultLifetime, now, faults, outcome)
    requires faults == CleanFaults(false, false, false, false)
    requires HasLifetime(before, Restful.DefaultLifetime)
    requires forall x :: x in before && x.lifetime == Restful.DefaultLifetime ==>
      now >= x.recordTime && IsOutdated(x, Restful.DefaultLifetime, now)
    ensures outcome == Done && DelayAfter(outcome) == CleanFrequentMs
    ensures after < before && |after| == |before| - 1
  {
    var x :| x in before && x.lifetime == Restful.DefaultLifetime &&
              PickResult(before, after, Restful.DefaultLifetime, now, faults, outcome, x);
  }

  /** `cleaning_thread`, over the first `|ticks|` passes: each pass runs
      `clean_outdated(DEFAULT_LIFETIME)` on its tick's clock and faults, with
      the effect `CleanResult` states, and records its pause. No returned
      outcome leaves the loop; only the clock panic ends the thread.
      `outcomes` and `states` name each pass's outcome and the records after it. */
  method CleaningThread(file: DumpFile, ticks: seq<Tick>)
      returns (delays: seq<nat>, panicked: bool,
               ghost outcomes: seq<CleanOutcome>, ghost states: seq<set<ClientInfoRecord>>)
    modifies file
    ensures |states| == |outcomes| + 1 && |outcomes| <= |ticks|
    ensures states[0] == old(file.contents) && states[|states| - 1] == file.contents
    ensures Passes(states, ticks)
    ensures !panicked ==> |delays| == |outcomes| == |ticks|
    ensures panicked ==> |delays| + 1 == |outcomes| && outcomes[|delays|] == ClockPanic
    ensures forall i :: 0 <= i < |delays| ==>
      !outcomes[i].ClockPanic? && delays[i] == DelayAfter(outcomes[i])
    ensures forall i :: 0 <= i < |outcomes| ==>
      CleanResult(states[i], states[i + 1], Restful.DefaultLifetime, ticks[i].now, ticks[i].faults, outcomes[i])
  {
    delays, panicked, outcomes, states := [], false, [], [file.contents];
    var i := 0;
    while i < |ticks|
      invariant 0 <= i <= |ticks|
      invariant |outcomes| == |delays| == i && |states| == i + 1
      invariant states[0] == old(file.contents) && states[i] == file.contents
      invariant Passes(states, ticks)
      invariant forall k :: 0 <= k < i ==> !outcomes[k].ClockPanic? && delays[k] == DelayAfter(outcomes[k])
      invariant forall k :: 0 <= k < i ==>
        CleanResult(states[k], states[k + 1], Restful.DefaultLifetime, ticks[k].now, ticks[k].faults, outcomes[k])
    {
      var outcome;
      ghost var selected;
      outcome, selected := CleanOutdated(file, Restful.DefaultLifetime, ticks[i].now, ticks[i].faults);
      outcomes := outcomes + [outcome];
      states := states + [file.contents];
      if outcome.ClockPanic? {
        panicked := true;
        return;
      }
      delays := delays + [DelayAfter(outcome)];
      i := i + 1;
    }
  }
}
