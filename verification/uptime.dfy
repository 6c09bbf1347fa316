/** The uptime sweep over a tenant's state transitions, against the state at every millisecond. */
module Uptime {
  import opened Outcomes
  import opened TenantStates

  type Micros = n: nat | n < 1000

  // A state_transitions row. The database keeps its time to the microsecond; the sweep sees at, the
  // milliseconds. A log is in id order, which need not be that of the times: a row's time is the start of
  // its transaction.
  datatype Transition = Transition(from: TState, to: TState, at: int, micros: Micros)

  function Key(t: Transition): int {
    t.at * 1000 + t.micros
  }

  ghost predicate Sorted(ts: seq<Transition>) {
    forall i, j | 0 <= i < j < |ts| :: ts[i].at <= ts[j].at
  }

  // The state at an instant: where the last transition up to it went.
  function StateAt(initial: TState, ts: seq<Transition>, x: int): TState {
    if ts == [] then initial
    else
      var last := ts[|ts| - 1];
      if last.at <= x then last.to else StateAt(initial, ts[..|ts| - 1], x)
  }

  // How many of the milliseconds from lo up to hi the tenant spends in a state.
  function Spent(initial: TState, ts: seq<Transition>, state: TState, lo: int, hi: int): nat
    decreases hi - lo
  {
    if hi <= lo then 0
    else Spent(initial, ts, state, lo, hi - 1) + if StateAt(initial, ts, hi - 1) == state then 1 else 0
  }

  // ------------------------------------------------------------------------------------------
  // The rows the queries select from the whole log.

  function InWindow(log: seq<Transition>, start: int, now: int): seq<Transition> {
    if log == [] then []
    else
      var last := log[|log| - 1];
      InWindow(log[..|log| - 1], start, now) + if start <= last.at < now then [last] else []
  }

  // ORDER BY created_at, id
  function Insert(ts: seq<Transition>, t: Transition): seq<Transition> {
    if ts == [] || Key(ts[|ts| - 1]) <= Key(t) then ts + [t]
    else Insert(ts[..|ts| - 1], t) + [ts[|ts| - 1]]
  }

  function InOrder(log: seq<Transition>): seq<Transition> {
    if log == [] then [] else Insert(InOrder(log[..|log| - 1]), log[|log| - 1])
  }

  // The row with the greatest id before the window ...
  function LastBefore(log: seq<Transition>, start: int): Option<Transition> {
    if log == [] then None
    else if log[|log| - 1].at < start then Some(log[|log| - 1])
    else LastBefore(log[..|log| - 1], start)
  }

  // ... and the latest one, of those of one time the one with the greatest id.
  function LatestBefore(log: seq<Transition>, start: int): (r: Option<Transition>)
    ensures r.Some? <==> LastBefore(log, start).Some?
  {
    if log == [] then None
    else
      var earlier, t := LatestBefore(log[..|log| - 1], start), log[|log| - 1];
      if t.at >= start || (earlier.Some? && Key(earlier.value) > Key(t)) then earlier else Some(t)
  }

  function StateAtWindowStart(log: seq<Transition>, start: int, now: int, current: TState): TState {
    var inside := InOrder(InWindow(log, start, now));
    match LastBefore(log, start)
    case Some(t) => t.to
    case None => if inside != [] then inside[0].from else current
  }

  // The row with the greatest id before the window went where the latest one did.
  predicate StartsRight(log: seq<Transition>, start: int) {
    LastBefore(log, start).Some? ==> LastBefore(log, start).value.to == LatestBefore(log, start).value.to
  }

  datatype Totals = Totals(readyMs: nat, sleepMs: nat, lastSleepMs: Option<nat>)

  // The state before the i-th transition and after those before it, and since when.
  function Before(initial: TState, ts: seq<Transition>, i: nat): TState
    requires i <= |ts|
  {
    if i == 0 then initial else ts[i - 1].to
  }

  function Since(ts: seq<Transition>, start: int, i: nat): int
    requires i <= |ts|
  {
    if i == 0 then start else ts[i - 1].at
  }

  // The i-th transition ends a span of sleep.
  predicate EndsSleep(initial: TState, ts: seq<Transition>, i: nat) {
    i < |ts| && Before(initial, ts, i).Sleeping?
  }

  // Of the spans of sleep that ended, the one that ended last; of those that ended at one instant,
  // the first.
  ghost predicate EndsLastSleep(initial: TState, ts: seq<Transition>, n: nat, i: nat) {
    && i < n <= |ts| && EndsSleep(initial, ts, i)
    && forall j | 0 <= j < n && EndsSleep(initial, ts, j) :: ts[j].at <= ts[i].at && (j < i ==> ts[j].at < ts[i].at)
  }

  ghost predicate LastSleepIs(initial: TState, ts: seq<Transition>, start: int, n: nat, lastSleepMs: Option<nat>)
    requires n <= |ts|
  {
    match lastSleepMs
    case None => forall i | 0 <= i < n :: !EndsSleep(initial, ts, i)
    case Some(ms) => exists i: nat :: EndsLastSleep(initial, ts, n, i) && ms == ts[i].at - Since(ts, start, i)
  }

  function Max(a: int, b: int): int {
    if a > b then a else b
  }

  method SweepWindow(initial: TState, ts: seq<Transition>, start: int, now: int) returns (totals: Totals)
    requires start <= now && Sorted(ts) && forall i | 0 <= i < |ts| :: start <= ts[i].at < now
    ensures totals.readyMs == Spent(initial, ts, Ready, start, now)
    ensures totals.sleepMs == Spent(initial, ts, Sleeping, start, now)
    ensures LastSleepIs(initial, ts, start, |ts|, totals.lastSleepMs)
  {
    hide Spent, StateAt, EndsLastSleep, LastSleepIs, Tracked;
    TrackNothing(initial, ts, start);
    var readyMs: nat, sleepMs: nat := 0, 0;
    var lastSleepMs: Option<nat>, lastCompletedSleepEnd: Option<int> := None, None;
    var state, since := initial, start;
    NoTime(initial, ts, start);
    ghost var k: nat := 0;
    var i := 0;
    while i < |ts|
      invariant 0 <= i <= |ts| && state == Before(initial, ts, i) && since == Since(ts, start, i)
      invariant start <= since <= now
      invariant readyMs == Spent(initial, ts, Ready, start, since)
      invariant sleepMs == Spent(initial, ts, Sleeping, start, since)
      invariant Tracked(initial, ts, start, i, k, lastSleepMs, lastCompletedSleepEnd)
    {
      var end := ts[i].at;
      var duration := Max(0, end - since);
      Interval(initial, ts, start, i, end, Ready);
      Interval(initial, ts, start, i, end, Sleeping);
      if state.Ready? {
        readyMs := readyMs + duration;
      } else if state.Sleeping? {
        sleepMs := sleepMs + duration;
      }
      TrackTurn(initial, ts, start, i, k, lastSleepMs, lastCompletedSleepEnd);
      if state.Sleeping? {
        if lastCompletedSleepEnd.None? || end > lastCompletedSleepEnd.value {
          lastCompletedSleepEnd := Some(end);
          lastSleepMs := Some(duration);
          k := i;
        }
      }
      state, since := ts[i].to, end;
      i := i + 1;
    }
    Interval(initial, ts, start, i, now, Ready);
    Interval(initial, ts, start, i, now, Sleeping);
    var duration := Max(0, now - since);
    if state.Ready? {
      readyMs := readyMs + duration;
    } else if state.Sleeping? {
      sleepMs := sleepMs + duration;
    }
    TrackedSleep(initial, ts, start, k, lastSleepMs, lastCompletedSleepEnd);
    return Totals(readyMs, sleepMs, lastSleepMs);
  }

  // ------------------------------------------------------------------------------------------

  // The sweep's record after i transitions: the span it keeps is the k-th.
  ghost predicate Tracked(initial: TState, ts: seq<Transition>, start: int, i: nat, k: nat, lastSleepMs: Option<nat>,
                          lastCompletedSleepEnd: Option<int>)
  {
    && i <= |ts|
    && match lastSleepMs
       case None => lastCompletedSleepEnd.None? && forall j | 0 <= j < i :: !EndsSleep(initial, ts, j)
       case Some(ms) =>
         && EndsLastSleep(initial, ts, i, k)
         && ms == ts[k].at - Since(ts, start, k) && lastCompletedSleepEnd == Some(ts[k].at)
  }

  lemma TrackNothing(initial: TState, ts: seq<Transition>, start: int)
    ensures Tracked(initial, ts, start, 0, 0, None, None)
  {
  }

  lemma TrackTurn(initial: TState, ts: seq<Transition>, start: int, i: nat, k: nat, lastSleepMs: Option<nat>,
                  lastCompletedSleepEnd: Option<int>)
    requires Tracked(initial, ts, start, i, k, lastSleepMs, lastCompletedSleepEnd) && i < |ts|
    requires Since(ts, start, i) <= ts[i].at && Sorted(ts)
    ensures var newer := Before(initial, ts, i).Sleeping?
                         && (lastCompletedSleepEnd.None? || ts[i].at > lastCompletedSleepEnd.value);
      if newer then Tracked(initial, ts, start, i + 1, i, Some(ts[i].at - Since(ts, start, i)), Some(ts[i].at))
      else Tracked(initial, ts, start, i + 1, k, lastSleepMs, lastCompletedSleepEnd)
  {
    hide Before, Since;
  }

  lemma TrackedSleep(initial: TState, ts: seq<Transition>, start: int, k: nat, lastSleepMs: Option<nat>,
                     lastCompletedSleepEnd: Option<int>)
    requires Tracked(initial, ts, start, |ts|, k, lastSleepMs, lastCompletedSleepEnd)
    ensures LastSleepIs(initial, ts, start, |ts|, lastSleepMs)
  {
  }

  lemma NoTime(initial: TState, ts: seq<Transition>, start: int)
    ensures Spent(initial, ts, Ready, start, start) == 0 && Spent(initial, ts, Sleeping, start, start) == 0
  {
  }

  // Between two transitions the state is where the first of them went.
  lemma {:induction false} Between(initial: TState, ts: seq<Transition>, i: nat, x: int)
    requires Sorted(ts) && i <= |ts| && (i > 0 ==> ts[i - 1].at <= x) && (i < |ts| ==> x < ts[i].at)
    ensures StateAt(initial, ts, x) == Before(initial, ts, i)
    decreases |ts|
  {
    if i < |ts| {
      assert ts[i].at <= ts[|ts| - 1].at;
      Between(initial, ts[..|ts| - 1], i, x);
    }
  }

  lemma {:induction false} Constant(initial: TState, ts: seq<Transition>, i: nat, state: TState, start: int, lo: int,
                                    hi: int)
    requires Sorted(ts) && i <= |ts| && start <= lo <= hi
    requires (i > 0 ==> ts[i - 1].at <= lo) && (i < |ts| ==> hi <= ts[i].at)
    ensures Spent(initial, ts, state, start, hi)
         == Spent(initial, ts, state, start, lo) + (if Before(initial, ts, i) == state then hi - lo else 0)
    decreases hi - lo
  {
    if lo < hi {
      Constant(initial, ts, i, state, start, lo, hi - 1);
      Between(initial, ts, i, hi - 1);
    }
  }

  lemma Interval(initial: TState, ts: seq<Transition>, start: int, i: nat, end: int, state: TState)
    requires Sorted(ts) && i <= |ts| && start <= Since(ts, start, i) <= end && (i < |ts| ==> end <= ts[i].at)
    ensures Spent(initial, ts, state, start, end)
         == Spent(initial, ts, state, start, Since(ts, start, i))
            + if Before(initial, ts, i) == state then end - Since(ts, start, i) else 0
  {
    Constant(initial, ts, i, state, start, Since(ts, start, i), end);
  }

  // No two states share a millisecond, so ready and sleeping time fit in the window together.
  lemma {:induction false} SumFits(initial: TState, ts: seq<Transition>, start: int, now: int)
    requires start <= now
    ensures Spent(initial, ts, Ready, start, now) + Spent(initial, ts, Sleeping, start, now) <= now - start
    decreases now - start
  {
    if start < now {
      SumFits(initial, ts, start, now - 1);
    }
  }

  // The span reported as the last sleep is one the tenant slept through.
  lemma LastSleepWasSlept(initial: TState, ts: seq<Transition>, start: int, i: nat, x: int)
    requires Sorted(ts) && EndsLastSleep(initial, ts, |ts|, i) && Since(ts, start, i) <= x < ts[i].at
    ensures StateAt(initial, ts, x).Sleeping?
  {
    Between(initial, ts, i, x);
  }

  // ------------------------------------------------------------------------------------------
  // The rows of the window against the whole log in the order of its times.

  ghost predicate Keyed(ts: seq<Transition>) {
    forall i, j | 0 <= i < j < |ts| :: Key(ts[i]) <= Key(ts[j])
  }

  lemma KeyedSorted(ts: seq<Transition>)
    requires Keyed(ts)
    ensures Sorted(ts)
  {
    forall i, j | 0 <= i < j < |ts| ensures ts[i].at <= ts[j].at {
      assert Key(ts[i]) <= Key(ts[j]);
    }
  }

  lemma {:induction false} InsertKeyed(ts: seq<Transition>, t: Transition)
    requires Keyed(ts)
    ensures Keyed(Insert(ts, t)) && Insert(ts, t) != []
    ensures forall u | u in Insert(ts, t) :: u in ts || u == t
  {
    if ts != [] && Key(ts[|ts| - 1]) > Key(t) {
      var rest, last := ts[..|ts| - 1], ts[|ts| - 1];
      InsertKeyed(rest, t);
      assert forall u | u in Insert(rest, t) :: Key(u) <= Key(last);
      hide Insert;
    }
  }

  lemma {:induction false} InOrderKeyed(log: seq<Transition>)
    ensures Keyed(InOrder(log))
  {
    if log != [] {
      InOrderKeyed(log[..|log| - 1]);
      InsertKeyed(InOrder(log[..|log| - 1]), log[|log| - 1]);
    }
  }

  // A log whose ids are in the order of its times is in order.
  lemma {:induction false} KeyedInOrder(log: seq<Transition>)
    requires Keyed(log)
    ensures InOrder(log) == log
  {
    if log != [] {
      KeyedInOrder(log[..|log| - 1]);
    }
  }

  lemma {:induction false} InWindowIn(ts: seq<Transition>, start: int, now: int)
    ensures forall t | t in InWindow(ts, start, now) :: t in ts && start <= t.at < now
  {
    if ts != [] {
      InWindowIn(ts[..|ts| - 1], start, now);
    }
  }

  predicate Inside(t: Transition, start: int, now: int) {
    start <= t.at < now
  }

  lemma InWindowMore(ts: seq<Transition>, t: Transition, start: int, now: int)
    ensures InWindow(ts + [t], start, now)
         == if Inside(t, start, now) then InWindow(ts, start, now) + [t] else InWindow(ts, start, now)
  {
    assert (ts + [t])[..|ts|] == ts;
    assert InWindow(ts, start, now) + [] == InWindow(ts, start, now);
  }

  lemma InsertMore(ts: seq<Transition>, last: Transition, t: Transition)
    ensures Insert(ts + [last], t) == if Key(last) <= Key(t) then ts + [last] + [t] else Insert(ts, t) + [last]
  {
    assert (ts + [last])[..|ts|] == ts;
  }

  lemma InsertLast(ts: seq<Transition>, t: Transition)
    requires forall u | u in ts :: Key(u) <= Key(t)
    ensures Insert(ts, t) == ts + [t]
  {
  }

  lemma {:induction false} InsertInWindow(ts: seq<Transition>, t: Transition, start: int, now: int)
    requires Keyed(ts)
    ensures InWindow(Insert(ts, t), start, now)
         == if Inside(t, start, now) then Insert(InWindow(ts, start, now), t) else InWindow(ts, start, now)
  {
    hide InWindow, Inside, Insert;
    if ts == [] || Key(ts[|ts| - 1]) <= Key(t) {
      assert forall u | u in ts :: Key(u) <= Key(t);
      InsertLast(ts, t);
      InWindowMore(ts, t, start, now);
      InWindowIn(ts, start, now);
      InsertLast(InWindow(ts, start, now), t);
    } else {
      var rest, last := ts[..|ts| - 1], ts[|ts| - 1];
      assert ts == rest + [last];
      InsertInWindow(rest, t, start, now);
      hide Keyed, Key;
      InsertMore(rest, last, t);
      InWindowMore(rest, last, start, now);
      InWindowMore(Insert(rest, t), last, start, now);
      InsertMore(InWindow(rest, start, now), last, t);
    }
  }

  // The rows of one time, in order.
  function OfTime(ts: seq<Transition>, at: int, micros: Micros): seq<Transition> {
    if ts == [] then []
    else
      var last := ts[|ts| - 1];
      OfTime(ts[..|ts| - 1], at, micros) + if last.at == at && last.micros == micros then [last] else []
  }

  lemma OfTimeMore(ts: seq<Transition>, t: Transition, at: int, micros: Micros)
    ensures OfTime(ts + [t], at, micros)
         == OfTime(ts, at, micros) + if t.at == at && t.micros == micros then [t] else []
  {
    assert (ts + [t])[..|ts|] == ts;
  }

  lemma {:induction false} InsertOfTime(ts: seq<Transition>, t: Transition, at: int, micros: Micros)
    ensures OfTime(Insert(ts, t), at, micros) == OfTime(ts + [t], at, micros)
  {
    OfTimeMore(ts, t, at, micros);
    if ts != [] && Key(ts[|ts| - 1]) > Key(t) {
      var rest, last := ts[..|ts| - 1], ts[|ts| - 1];
      assert ts == rest + [last];
      InsertOfTime(rest, t, at, micros);
      OfTimeMore(rest, t, at, micros);
      OfTimeMore(rest, last, at, micros);
      OfTimeMore(Insert(rest, t), last, at, micros);
    }
  }

  // The order of the query: by the whole time, and rows of one time by id, which is their order in the log.
  lemma {:induction false} InOrderExactly(log: seq<Transition>)
    ensures var ts := InOrder(log);
      && (forall i, j | 0 <= i < j < |ts| ::
            ts[i].at < ts[j].at || (ts[i].at == ts[j].at && ts[i].micros <= ts[j].micros))
      && forall at, micros :: OfTime(ts, at, micros) == OfTime(log, at, micros)
  {
    InOrderKeyed(log);
    forall at, micros {
      InOrderOfTime(log, at, micros);
    }
  }

  lemma {:induction false} InOrderOfTime(log: seq<Transition>, at: int, micros: Micros)
    ensures OfTime(InOrder(log), at, micros) == OfTime(log, at, micros)
  {
    if log != [] {
      var rest, last := log[..|log| - 1], log[|log| - 1];
      InOrderOfTime(rest, at, micros);
      InsertOfTime(InOrder(rest), last, at, micros);
      OfTimeMore(InOrder(rest), last, at, micros);
      OfTimeMore(rest, last, at, micros);
      assert log == rest + [last];
    }
  }

  // The state in which the sweep starts: where the row with the greatest id before the window went; else where
  // the first row of the window came from; else the tenant's present state.
  lemma {:induction false} StartsExactly(log: seq<Transition>, start: int, now: int, current: TState)
    ensures var first, inside := StateAtWindowStart(log, start, now, current), InOrder(InWindow(log, start, now));
      && (forall i | 0 <= i < |log| && log[i].at < start && (forall j | i < j < |log| :: log[j].at >= start) ::
            first == log[i].to)
      && ((forall i | 0 <= i < |log| :: log[i].at >= start) && inside != [] ==> first == inside[0].from)
      && ((forall i | 0 <= i < |log| :: log[i].at >= start) && inside == [] ==> first == current)
  {
    hide InOrder, InWindow;
    var k := LastBeforeIs(log, start);
    hide LastBefore;
  }

  lemma {:induction false} LastBeforeIs(log: seq<Transition>, start: int) returns (k: int)
    ensures -1 <= k < |log| && forall j | k < j < |log| :: log[j].at >= start
    ensures k >= 0 ==> log[k].at < start && LastBefore(log, start) == Some(log[k])
    ensures k == -1 ==> LastBefore(log, start) == None
  {
    k := -1;
    if log != [] {
      if log[|log| - 1].at < start {
        k := |log| - 1;
      } else {
        k := LastBeforeIs(log[..|log| - 1], start);
      }
    }
  }

  // The window's rows in order are the window of the log in order.
  lemma {:induction false} WindowInOrder(log: seq<Transition>, start: int, now: int)
    ensures InWindow(InOrder(log), start, now) == InOrder(InWindow(log, start, now))
  {
    hide Insert, Inside;
    if log != [] {
      var rest, last := log[..|log| - 1], log[|log| - 1];
      WindowInOrder(rest, start, now);
      InOrderKeyed(rest);
      InsertInWindow(InOrder(rest), last, start, now);
      assert log == rest + [last];
      InWindowMore(rest, last, start, now);
      InOrderMore(InWindow(rest, start, now), last);
      hide InWindow, InOrder;
    }
  }

  lemma InOrderMore(log: seq<Transition>, t: Transition)
    ensures InOrder(log + [t]) == Insert(InOrder(log), t)
  {
    assert (log + [t])[..|log|] == log;
  }

  lemma LastBeforeMore(ts: seq<Transition>, t: Transition, start: int)
    ensures LastBefore(ts + [t], start) == if t.at < start then Some(t) else LastBefore(ts, start)
  {
    assert (ts + [t])[..|ts|] == ts;
  }

  lemma {:induction false} LastBeforeIn(ts: seq<Transition>, start: int)
    ensures LastBefore(ts, start).Some? ==> LastBefore(ts, start).value in ts && LastBefore(ts, start).value.at < start
  {
    if ts != [] {
      LastBeforeIn(ts[..|ts| - 1], start);
    }
  }

  lemma {:induction false} InsertLastBefore(ts: seq<Transition>, t: Transition, start: int)
    requires Keyed(ts)
    ensures var before := LastBefore(ts, start);
      LastBefore(Insert(ts, t), start)
        == if t.at >= start || (before.Some? && Key(before.value) > Key(t)) then before else Some(t)
  {
    hide LastBefore;
    LastBeforeIn(ts, start);
    if ts == [] || Key(ts[|ts| - 1]) <= Key(t) {
      LastBeforeMore(ts, t, start);
    } else {
      var rest, last := ts[..|ts| - 1], ts[|ts| - 1];
      assert ts == rest + [last];
      InsertLastBefore(rest, t, start);
      LastBeforeMore(rest, last, start);
      LastBeforeMore(Insert(rest, t), last, start);
    }
  }

  // In the order of the times the last row before the window is the latest.
  lemma {:induction false} LatestIsLast(log: seq<Transition>, start: int)
    ensures LastBefore(InOrder(log), start) == LatestBefore(log, start)
  {
    hide LastBefore, Insert;
    if log != [] {
      var rest, last := log[..|log| - 1], log[|log| - 1];
      LatestIsLast(rest, start);
      InOrderKeyed(rest);
      InsertLastBefore(InOrder(rest), last, start);
    } else {
      NoneBefore(start);
    }
  }

  lemma NoneBefore(start: int)
    ensures LastBefore([], start) == None
  {
  }

  // If ids are in the order of the times the sweep starts right.
  lemma KeyedStartsRight(log: seq<Transition>, start: int)
    requires Keyed(log)
    ensures StartsRight(log, start)
  {
    KeyedInOrder(log);
    LatestIsLast(log, start);
  }

  // The window's rows and its starting state tell the same as the whole log when the sweep starts right.
  lemma WindowTells(log: seq<Transition>, start: int, now: int, current: TState, initial: TState, x: int)
    requires start <= x < now && StartsRight(log, start)
    requires LastBefore(log, start).None? ==> initial == StateAtWindowStart(log, start, now, current)
    ensures StateAt(initial, InOrder(log), x)
         == StateAt(StateAtWindowStart(log, start, now, current), InOrder(InWindow(log, start, now)), x)
  {
    hide StateAt, InWindow, InOrder, LastBefore, LatestBefore;
    InOrderKeyed(log);
    KeyedSorted(InOrder(log));
    WindowInOrder(log, start, now);
    LatestIsLast(log, start);
    WindowSuffix(InOrder(log), start, now, initial, StateAtWindowStart(log, start, now, current), x);
  }

  // A row at the very start of the window makes the state before it immaterial.
  lemma {:induction false} FirstRowDecides(a: TState, b: TState, ts: seq<Transition>, x: int)
    requires ts != [] && ts[0].at <= x
    ensures StateAt(a, ts, x) == StateAt(b, ts, x)
  {
    if |ts| > 1 {
      FirstRowDecides(a, b, ts[..|ts| - 1], x);
    }
  }

  // With the state of the latest row before the window they always do.
  lemma LatestTells(log: seq<Transition>, start: int, now: int, initial: TState, x: int)
    requires start <= x < now && LatestBefore(log, start).Some?
    ensures StateAt(initial, InOrder(log), x)
         == StateAt(LatestBefore(log, start).value.to, InOrder(InWindow(log, start, now)), x)
  {
    hide StateAt, InWindow, InOrder, LastBefore, LatestBefore;
    InOrderKeyed(log);
    KeyedSorted(InOrder(log));
    WindowInOrder(log, start, now);
    LatestIsLast(log, start);
    WindowSuffix(InOrder(log), start, now, initial, LatestBefore(log, start).value.to, x);
  }

  // Two starting states can be told apart unless a row stands at the very start.
  lemma StartsDiffer(a: TState, b: TState, ts: seq<Transition>, start: int, now: int)
    requires a != b && start < now && Sorted(ts) && forall i | 0 <= i < |ts| :: start <= ts[i].at
    ensures (forall x | start <= x < now :: StateAt(a, ts, x) == StateAt(b, ts, x)) <==> ts != [] && ts[0].at == start
  {
    hide StateAt;
    if ts != [] && ts[0].at == start {
      forall x | start <= x < now ensures StateAt(a, ts, x) == StateAt(b, ts, x) {
        FirstRowDecides(a, b, ts, x);
      }
    } else {
      Between(a, ts, 0, start);
      Between(b, ts, 0, start);
    }
  }

  lemma OrderedWindow(log: seq<Transition>, start: int, now: int)
    ensures var inside := InOrder(InWindow(log, start, now));
      Sorted(inside) && forall i | 0 <= i < |inside| :: start <= inside[i].at < now
  {
    hide InWindow, InOrder;
    InOrderKeyed(log);
    KeyedSorted(InOrder(log));
    WindowInOrder(log, start, now);
    InWindowRows(InOrder(log), start, now);
  }

  // They tell the same at every instant if and only if the sweep starts right or a row stands at the very
  // start of the window.
  lemma WindowTellsExactly(log: seq<Transition>, start: int, now: int, current: TState, initial: TState)
    requires start < now
    requires LastBefore(log, start).None? ==> initial == StateAtWindowStart(log, start, now, current)
    ensures var first, inside := StateAtWindowStart(log, start, now, current), InOrder(InWindow(log, start, now));
      (forall x | start <= x < now :: StateAt(initial, InOrder(log), x) == StateAt(first, inside, x))
      <==> StartsRight(log, start) || (inside != [] && inside[0].at == start)
  {
    var first, inside := StateAtWindowStart(log, start, now, current), InOrder(InWindow(log, start, now));
    hide StateAt, InWindow, InOrder, LastBefore, LatestBefore, Sorted;
    if StartsRight(log, start) {
      forall x | start <= x < now ensures StateAt(initial, InOrder(log), x) == StateAt(first, inside, x) {
        WindowTells(log, start, now, current, initial, x);
      }
    } else {
      var right := LatestBefore(log, start).value.to;
      OrderedWindow(log, start, now);
      forall x | start <= x < now ensures StateAt(initial, InOrder(log), x) == StateAt(right, inside, x) {
        LatestTells(log, start, now, initial, x);
      }
      StartsDiffer(right, first, inside, start, now);
    }
  }

  lemma {:induction false} WindowSuffix(log: seq<Transition>, start: int, now: int, initial: TState, first: TState,
                                        x: int)
    requires Sorted(log) && start <= x < now
    requires match LastBefore(log, start) case None => first == initial case Some(t) => first == t.to
    ensures StateAt(initial, log, x) == StateAt(first, InWindow(log, start, now), x)
  {
    if log != [] {
      var last, rest := log[|log| - 1], log[..|log| - 1];
      if last.at < start {
        OldRows(log, start, now);
      } else {
        WindowSuffix(rest, start, now, initial, first, x);
        var inside := InWindow(rest, start, now);
        assert (inside + [last])[..|inside|] == inside;
        assert inside + [] == inside;
      }
    }
  }

  lemma {:induction false} OldRows(log: seq<Transition>, start: int, now: int)
    requires Sorted(log) && (log != [] ==> log[|log| - 1].at < start)
    ensures InWindow(log, start, now) == []
  {
    if log != [] {
      assert |log| > 1 ==> log[|log| - 2].at <= log[|log| - 1].at;
      OldRows(log[..|log| - 1], start, now);
    }
  }

  lemma {:induction false} InWindowRows(log: seq<Transition>, start: int, now: int)
    requires Sorted(log)
    ensures var inside := InWindow(log, start, now);
      && Sorted(inside)
      && (forall i | 0 <= i < |inside| ::
        start <= inside[i].at < now && (log != [] ==> inside[i].at <= log[|log| - 1].at))
  {
    if log != [] {
      var rest := log[..|log| - 1];
      InWindowRows(rest, start, now);
      assert rest != [] ==> rest[|rest| - 1].at <= log[|log| - 1].at;
    }
  }

  // ------------------------------------------------------------------------------------------

  datatype Report = Report(uptimePct: real, totalSleepMs: nat, lastSleepMs: Option<nat>)

  // The share of the window spent ready, before it is clamped.
  function Share(readyMs: int, windowMs: int): real
    requires windowMs > 0
  {
    (readyMs as real / windowMs as real) * 100.0
  }

  function Clamp(pct: real): real {
    if pct < 0.0 then 0.0 else if pct > 100.0 then 100.0 else pct
  }

  lemma ShareInRange(readyMs: int, windowMs: int)
    requires 0 <= readyMs <= windowMs && windowMs > 0
    ensures 0.0 <= Share(readyMs, windowMs) <= 100.0 && Clamp(Share(readyMs, windowMs)) == Share(readyMs, windowMs)
    ensures Share(readyMs, windowMs) == 100.0 <==> readyMs == windowMs
    ensures Share(readyMs, windowMs) == 0.0 <==> readyMs == 0
  {
    var ratio := readyMs as real / windowMs as real;
    assert ratio * windowMs as real == readyMs as real;
    assert 0.0 <= ratio <= 1.0;
  }

  // One tenant's report: the uptime is the share of the milliseconds at which the window's rows in order
  // have the tenant ready, and no clamp ever changes it. If the sweep starts right, that is what the whole
  // log tells in the order of its times. initial is the state before the log begins, which the log itself
  // tells unless it has neither a row before the window nor one inside it.
  method ReportUptime(log: seq<Transition>, current: TState, start: int, now: int, ghost initial: TState)
    returns (r: Report)
    requires start < now
    requires LastBefore(log, start).None? ==> initial == StateAtWindowStart(log, start, now, current)
    ensures 0.0 <= r.uptimePct <= 100.0
    ensures var first, inside := StateAtWindowStart(log, start, now, current), InOrder(InWindow(log, start, now));
      && r.uptimePct == Share(Spent(first, inside, Ready, start, now), now - start)
      && r.totalSleepMs == Spent(first, inside, Sleeping, start, now)
      && LastSleepIs(first, inside, start, |inside|, r.lastSleepMs)
    ensures StartsRight(log, start) ==>
      && r.uptimePct == Share(Spent(initial, InOrder(log), Ready, start, now), now - start)
      && r.totalSleepMs == Spent(initial, InOrder(log), Sleeping, start, now)
  {
    hide StateAt, Share, InWindow, InOrder, LastBefore, StateAtWindowStart, LastSleepIs, Spent, StartsRight;
    var inside := InOrder(InWindow(log, start, now));
    var first := StateAtWindowStart(log, start, now, current);
    OrderedWindow(log, start, now);
    var totals := SweepWindow(first, inside, start, now);
    if StartsRight(log, start) {
      SameSpent(log, start, now, current, initial, Ready, now);
      SameSpent(log, start, now, current, initial, Sleeping, now);
    }
    SumFits(first, inside, start, now);
    ShareInRange(totals.readyMs, now - start);
    var uptimePct;
    if log == [] {
      uptimePct := if current.Ready? then 100.0 else 0.0;
      EmptyLog(current, start, now);
      ShareInRange(now - start, now - start);
    } else {
      uptimePct := Clamp(Share(totals.readyMs, now - start));
    }
    return Report(uptimePct, totals.sleepMs, totals.lastSleepMs);
  }

  lemma {:induction false} SameSpent(log: seq<Transition>, start: int, now: int, current: TState, initial: TState,
                                     state: TState, hi: int)
    requires StartsRight(log, start) && start <= hi <= now
    requires LastBefore(log, start).None? ==> initial == StateAtWindowStart(log, start, now, current)
    ensures var first, inside := StateAtWindowStart(log, start, now, current), InOrder(InWindow(log, start, now));
      Spent(initial, InOrder(log), state, start, hi) == Spent(first, inside, state, start, hi)
    decreases hi - start
  {
    hide StateAt, InWindow, InOrder, LastBefore, StateAtWindowStart, StartsRight;
    if start < hi {
      SameSpent(log, start, now, current, initial, state, hi - 1);
      WindowTells(log, start, now, current, initial, hi - 1);
    }
  }

  // The default for a tenant without transitions is what the sweep would have given.
  lemma {:induction false} EmptyLog(current: TState, start: int, now: int)
    requires start <= now
    ensures StateAtWindowStart([], start, now, current) == current && InOrder(InWindow([], start, now)) == []
    ensures Spent(current, [], Ready, start, now) == if current.Ready? then now - start else 0
    decreases now - start
  {
    if start < now {
      EmptyLog(current, start, now - 1);
    }
  }
}
