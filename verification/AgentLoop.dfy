/**
  The scheduling loop of `pqcscan agent` (cli/agent.py).  Each turn of the loop is given the clock
  readings it makes, the outcome of its scan cycle or flush tick, and its random jitter; SIGTERM is the end of the
  list of turns.  Floats are reals.
  */
module AgentLoop {
  import opened Common

  const MAX_BACKOFF_S: real := 3600.0

  function MinInt(a: nat, b: nat): (r: nat)
    ensures r <= a && r <= b && (r == a || r == b)
  {
    if a <= b then a else b
  }

  function MinReal(a: real, b: real): (r: real)
    ensures r <= a && r <= b && (r == a || r == b)
  {
    if a <= b then a else b
  }

  function MaxReal(a: real, b: real): (r: real)
    ensures r >= a && r >= b && (r == a || r == b)
  {
    if a >= b then a else b
  }

  /** `next_delay`; `jitter` is the random draw. */
  function NextDelay(base: real, jitter: real, failures: nat): real {
    if failures > 0 then MinReal(60.0 * Pow2(MinInt(failures - 1, 16)) as real, MAX_BACKOFF_S) else base + jitter
  }

  datatype Cycle = Reported | Spooled | Rejected | Crashed
  datatype Tick = Drained | Progress | Stuck

  predicate FailedCycle(c: Cycle) {
    c.Crashed? || c.Rejected?
  }

  datatype Turn = Turn(now: real, cycle: Cycle, tick: Tick, ended: real, jitter: real, before: real)

  datatype Agent = Agent(failures: nat, retries: nat, rejected: bool, nextScan: real)
  const FRESH := Agent(0, 0, false, 0.0)

  predicate Scans(a: Agent, t: Turn) {
    t.now >= a.nextScan
  }

  /** The loop variables after one turn. */
  function Turned(a: Agent, t: Turn, base: real): Agent {
    if Scans(a, t) then
      var failures := if t.cycle.Crashed? then a.failures + 1 else 0;
      Agent(failures, if t.cycle.Spooled? then 1 else 0, t.cycle.Rejected?,
            t.ended + NextDelay(base, t.jitter, failures))
    else
      a.(retries := match t.tick case Drained => 0 case Progress => 1 case Stuck => a.retries + 1)
  }

  /** How long the turn sleeps, with the variables it ends with. */
  function Sleep(a: Agent, t: Turn, base: real): real {
    var left := a.nextScan - t.before;
    MaxReal(if a.retries > 0 then MinReal(left, NextDelay(base, t.jitter, a.retries)) else left, 0.0)
  }

  /** The loop variables before turn i. */
  function At(a: Agent, turns: seq<Turn>, base: real, i: nat): Agent
    requires i <= |turns|
  {
    if i == 0 then a else Turned(At(a, turns, base, i - 1), turns[i - 1], base)
  }

  /** One entry of the trace: did the turn scan, and how long did it sleep. */
  datatype Event = Event(scan: bool, sleep: real)

  function EventAt(turns: seq<Turn>, base: real, i: nat): Event
    requires i < |turns|
  {
    Event(Scans(At(FRESH, turns, base, i), turns[i]), Sleep(At(FRESH, turns, base, i + 1), turns[i], base))
  }

  /** The loop of `agent_cmd`; with --once it exits after the first turn, with status 1 if that cycle failed. */
  method AgentCmd(base: real, turns: seq<Turn>, once: bool) returns (trace: seq<Event>, exit: Option<int>)
    ensures once && turns != [] ==> exit == Some(if turns[0].now >= 0.0 && FailedCycle(turns[0].cycle) then 1 else 0)
    ensures !once || turns == [] ==>
      && exit == None && |trace| == |turns|
      && forall i :: 0 <= i < |trace| ==> trace[i] == EventAt(turns, base, i)
  {
    var failures: nat, retries: nat, rejected, nextScan := 0, 0, false, 0.0;
    trace, exit := [], None;
    for i := 0 to |turns|
      invariant exit == None && |trace| == i && (once ==> i == 0)
      invariant Agent(failures, retries, rejected, nextScan) == At(FRESH, turns, base, i)
      invariant forall j :: 0 <= j < i ==> trace[j] == EventAt(turns, base, j)
    {
      var t := turns[i];
      var scan := t.now >= nextScan;
      if scan {
        rejected := false;
        if t.cycle.Crashed? {
          failures, retries := failures + 1, 0;
        } else {
          rejected := t.cycle.Rejected?;
          failures, retries := 0, if t.cycle.Spooled? then 1 else 0;
        }
        nextScan := t.ended + NextDelay(base, t.jitter, failures);
      } else {
        retries := if t.tick.Drained? then 0 else if t.tick.Progress? then 1 else retries + 1;
      }
      if once {
        exit := Some(if failures > 0 || rejected then 1 else 0);
        return;
      }
      var wait := nextScan - t.before;
      if retries > 0 {
        wait := MinReal(wait, NextDelay(base, t.jitter, retries));
      }
      trace := trace + [Event(scan, MaxReal(wait, 0.0))];
    }
  }

  // ---- Every clock that does not run backwards, with sleeps cut short only by stop ---------------

  ghost predicate Runs(turns: seq<Turn>, base: real) {
    && base > 0.0
    && (turns != [] ==> turns[0].now >= 0.0)
    && (forall i :: 0 <= i < |turns| ==> turns[i].now <= turns[i].ended <= turns[i].before && turns[i].jitter >= 0.0)
    && (forall i, j :: 0 <= i < |turns| && j == i + 1 && j < |turns| ==>
      turns[j].now >= turns[i].before + EventAt(turns, base, i).sleep)
  }

  lemma ClockAdvances(turns: seq<Turn>, base: real, i: nat, j: nat)
    requires Runs(turns, base) && i < j < |turns|
    ensures turns[i].before <= turns[j].now
    decreases j
  {
    assert EventAt(turns, base, j - 1).sleep >= 0.0;
    if i < j - 1 {
      ClockAdvances(turns, base, i, j - 1);
    }
  }

  /** The first turn scans. */
  lemma FirstTurnScans(turns: seq<Turn>, base: real)
    requires Runs(turns, base) && turns != []
    ensures EventAt(turns, base, 0).scan
  {
  }

  /** A turn that does not scan runs only while something is spooled for retry: when nothing is, the previous sleep
      reached next_scan. */
  lemma FlushOnlyWhileRetrying(turns: seq<Turn>, base: real, i: nat)
    requires Runs(turns, base) && i < |turns| && !EventAt(turns, base, i).scan
    ensures At(FRESH, turns, base, i).retries > 0
  {
    if i > 0 {
      var a := At(FRESH, turns, base, i);
      assert a == Turned(At(FRESH, turns, base, i - 1), turns[i - 1], base);
      assert turns[i].now >= turns[i - 1].before + EventAt(turns, base, i - 1).sleep;
    }
  }

  /** No sleep lasts past the next scan. */
  lemma SleepEndsByNextScan(turns: seq<Turn>, base: real, i: nat)
    requires i < |turns|
    ensures EventAt(turns, base, i).sleep <= MaxReal(At(FRESH, turns, base, i + 1).nextScan - turns[i].before, 0.0)
  {
  }

  /** The scan scheduled at turn i stays scheduled through the flush ticks that follow. */
  lemma {:induction false} ScheduleHolds(turns: seq<Turn>, base: real, i: nat, j: nat)
    requires i < j <= |turns| && forall k :: i < k < j ==> !EventAt(turns, base, k).scan
    ensures At(FRESH, turns, base, j).nextScan == At(FRESH, turns, base, i + 1).nextScan
    decreases j
  {
    if j > i + 1 {
      assert !EventAt(turns, base, j - 1).scan;
      ScheduleHolds(turns, base, i, j - 1);
    }
  }

  /** When the scan of turn i leaves the next one to be: the interval and the jitter after its end, or, after the n-th
      crash in a row, min(60 * 2^(n-1), 3600) seconds after it. */
  lemma NextScanIs(turns: seq<Turn>, base: real, i: nat)
    requires i < |turns| && EventAt(turns, base, i).scan
    ensures At(FRESH, turns, base, i + 1).nextScan ==
      if turns[i].cycle.Crashed?
      then turns[i].ended + MinReal(60.0 * Pow2(CrashesBefore(turns, base, i)) as real, 3600.0)
      else turns[i].ended + base + turns[i].jitter
  {
    if turns[i].cycle.Crashed? {
      CrashCount(turns, base, i);
      BackoffIsUncapped(base, turns[i].jitter, CrashesBefore(turns, base, i) + 1);
    }
  }

  /** Two successive scans are at least that far apart, measured from the end of the first. */
  lemma ScansAreSpaced(turns: seq<Turn>, base: real, i: nat, j: nat)
    requires i < j < |turns| && EventAt(turns, base, i).scan && EventAt(turns, base, j).scan
    requires forall k :: i < k < j ==> !EventAt(turns, base, k).scan
    ensures turns[j].now >=
      if turns[i].cycle.Crashed?
      then turns[i].ended + MinReal(60.0 * Pow2(CrashesBefore(turns, base, i)) as real, 3600.0)
      else turns[i].ended + base + turns[i].jitter
  {
    ScheduleHolds(turns, base, i, j);
    NextScanIs(turns, base, i);
  }

  /** How long turn i sleeps, in terms of the time left to the next scan and the retries n it ends with: the time left,
      or the n-th delay of the ladder if that is shorter, and never less than nothing. */
  lemma SleepIs(turns: seq<Turn>, base: real, i: nat)
    requires i < |turns|
    ensures var n := At(FRESH, turns, base, i + 1).retries;
      var left := At(FRESH, turns, base, i + 1).nextScan - turns[i].before;
      var wish := if n > 0 then MinReal(left, MinReal(60.0 * Pow2(n - 1) as real, 3600.0)) else left;
      EventAt(turns, base, i).sleep == if wish > 0.0 then wish else 0.0
  {
    var n := At(FRESH, turns, base, i + 1).retries;
    if n > 0 { BackoffIsUncapped(base, turns[i].jitter, n); }
  }

  predicate Starts(turns: seq<Turn>, base: real, k: nat)
    requires k < |turns|
  {
    if EventAt(turns, base, k).scan then turns[k].cycle.Spooled? else turns[k].tick.Progress?
  }

  predicate Ends(turns: seq<Turn>, base: real, k: nat)
    requires k < |turns|
  {
    if EventAt(turns, base, k).scan then !turns[k].cycle.Spooled? else turns[k].tick.Drained?
  }

  predicate Climbs(turns: seq<Turn>, base: real, k: nat)
    requires k < |turns|
  {
    !EventAt(turns, base, k).scan && turns[k].tick.Stuck?
  }

  lemma RetriesAfter(turns: seq<Turn>, base: real, k: nat)
    requires k < |turns|
    ensures At(FRESH, turns, base, k + 1).retries ==
      if Starts(turns, base, k) then 1 else if Ends(turns, base, k) then 0 else At(FRESH, turns, base, k).retries + 1
    ensures Starts(turns, base, k) || Ends(turns, base, k) || Climbs(turns, base, k)
    ensures Climbs(turns, base, k) ==> !EventAt(turns, base, k).scan
    ensures Climbs(turns, base, k) ==> !Starts(turns, base, k) && !Ends(turns, base, k)
  {
  }

  /** The retries count where the agent stands on the ladder: n turns ago it was put on it, by a spooled report or by a
      tick that sent something, and every turn since was a tick that sent nothing; it is off the ladder at the start and
      after a scan that spooled nothing or a tick that drained the spool. */
  lemma {:induction false} RetriesCountStuckTicks(turns: seq<Turn>, base: real, i: nat)
    requires Runs(turns, base) && i <= |turns|
    ensures var n := At(FRESH, turns, base, i).retries;
      && n <= i
      && (n == 0 ==> i == 0 || Ends(turns, base, i - 1))
      && (n > 0 ==> Starts(turns, base, i - n) && forall k :: i - n < k < i ==> Climbs(turns, base, k))
  {
    hide At, Runs, Starts, Ends, Climbs, EventAt;
    if i == 0 {
      assert At(FRESH, turns, base, 0).retries == 0 by { NoRetriesYet(turns, base); }
    } else {
      RetriesCountStuckTicks(turns, base, i - 1);
      RetriesAfter(turns, base, i - 1);
      if Climbs(turns, base, i - 1) { FlushOnlyWhileRetrying(turns, base, i - 1); }
    }
  }

  lemma NoRetriesYet(turns: seq<Turn>, base: real)
    ensures At(FRESH, turns, base, 0).retries == 0
  {
  }

  // ---- The backoff ladder --------------------------------------------------------------------------

  lemma {:induction false} Pow2Grows(m: nat, n: nat)
    requires m <= n
    ensures Pow2(m) <= Pow2(n)
    decreases n
  {
    if m < n {
      Pow2Grows(m, n - 1);
    }
  }

  /** The delay after the n-th consecutive failure is min(60 * 2^(n-1), 3600): the cap on the exponent is invisible. */
  lemma BackoffIsUncapped(base: real, jitter: real, n: nat)
    requires n >= 1
    ensures NextDelay(base, jitter, n) == MinReal(60.0 * Pow2(n - 1) as real, 3600.0)
  {
    if n - 1 > 16 {
      Pow2Grows(6, 16);
      Pow2Grows(6, n - 1);
      assert Pow2(6) == 64;
    }
  }

  /** After a crash preceded by exactly n - 1 crashing scans in a row, the failure count is n. */
  ghost function CrashesBefore(turns: seq<Turn>, base: real, i: nat): nat
    requires i <= |turns|
  {
    if i == 0 then 0
    else if !EventAt(turns, base, i - 1).scan then CrashesBefore(turns, base, i - 1)
    else if turns[i - 1].cycle.Crashed? then CrashesBefore(turns, base, i - 1) + 1
    else 0
  }

  lemma {:induction false} FailuresCountCrashes(turns: seq<Turn>, base: real, i: nat)
    requires i <= |turns|
    ensures At(FRESH, turns, base, i).failures == CrashesBefore(turns, base, i)
  {
    if i > 0 {
      FailuresCountCrashes(turns, base, i - 1);
    }
  }

  lemma CrashCount(turns: seq<Turn>, base: real, i: nat)
    requires i < |turns| && EventAt(turns, base, i).scan && turns[i].cycle.Crashed?
    ensures At(FRESH, turns, base, i + 1).failures == CrashesBefore(turns, base, i) + 1
  {
    FailuresCountCrashes(turns, base, i);
  }

  /** So a crashing scan is followed, at the earliest, after the delay its place in the row of crashes gives. */
  lemma CrashBackoff(turns: seq<Turn>, base: real, i: nat, j: nat, n: nat)
    requires i < j < |turns| && EventAt(turns, base, i).scan && EventAt(turns, base, j).scan
    requires forall k :: i < k < j ==> !EventAt(turns, base, k).scan
    requires turns[i].cycle.Crashed? && n == CrashesBefore(turns, base, i) + 1
    ensures turns[j].now >= turns[i].ended + MinReal(60.0 * Pow2(n - 1) as real, 3600.0)
  {
    ScansAreSpaced(turns, base, i, j);
  }

  /** A crash leaves nothing to retry, so the turn after it is the next scan. */
  lemma CrashIsFollowedByAScan(turns: seq<Turn>, base: real, i: nat)
    requires Runs(turns, base) && i + 1 < |turns|
    requires EventAt(turns, base, i).scan && !turns[i].cycle.Spooled?
    ensures EventAt(turns, base, i + 1).scan
  {
  }
}
