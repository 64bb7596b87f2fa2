/**
 * Fixed windows told by the times of the calls alone, and the limiters of
 * src/rate_limit.rs against them: what is counted, what is let through and what
 * is refused for lack of room.
 */
module FixedWindow {
  import opened Text
  import opened Limits
  import opened RateLimit

  // ----- windows of a list of times -----

  /** When the current window opened: a call that comes after the window has run out opens the next one. */
  function OpenedAt(times: seq<nat>, window: nat, first: nat): nat {
    if times == [] then first
    else
      var before, last := OpenedAt(times[..|times| - 1], window, first), times[|times| - 1];
      if last >= before + window then last else before
  }

  /** How many calls the current window holds. */
  function InWindow(times: seq<nat>, window: nat, first: nat): nat {
    if times == [] then 0
    else
      var init, last := times[..|times| - 1], times[|times| - 1];
      if last >= OpenedAt(init, window, first) + window then 1 else InWindow(init, window, first) + 1
  }

  function CountFrom(times: seq<nat>, start: nat): nat {
    if times == [] then 0
    else CountFrom(times[..|times| - 1], start) + (if times[|times| - 1] >= start then 1 else 0)
  }

  ghost predicate Sorted(times: seq<nat>, first: nat) {
    && (forall i :: 0 <= i < |times| ==> first <= times[i])
    && (forall i, j :: 0 <= i < j < |times| ==> times[i] <= times[j])
  }

  lemma {:induction false} NoneFrom(times: seq<nat>, start: nat)
    requires forall i :: 0 <= i < |times| ==> times[i] < start
    ensures CountFrom(times, start) == 0
  {
    if times != [] { NoneFrom(times[..|times| - 1], start); }
  }

  /** The current window holds exactly the calls made since it opened, and has not run out at the last of them. */
  lemma {:induction false} InWindowIsCalls(times: seq<nat>, window: nat, first: nat)
    requires 0 < window && Sorted(times, first)
    ensures InWindow(times, window, first) == CountFrom(times, OpenedAt(times, window, first))
    ensures forall i :: 0 <= i < |times| ==> times[i] < OpenedAt(times, window, first) + window
    ensures times != [] ==> first <= OpenedAt(times, window, first) <= times[|times| - 1]
    ensures times == [] ==> OpenedAt(times, window, first) == first
  {
    if times != [] {
      var init, last := times[..|times| - 1], times[|times| - 1];
      InWindowIsCalls(init, window, first);
      if last >= OpenedAt(init, window, first) + window {
        NoneFrom(init, last);
      }
    }
  }

  lemma OpenedSnoc(times: seq<nat>, at: nat, window: nat, first: nat)
    ensures var before := OpenedAt(times, window, first);
            && OpenedAt(times + [at], window, first) == (if at >= before + window then at else before)
            && InWindow(times + [at], window, first)
               == (if at >= before + window then 1 else InWindow(times, window, first) + 1)
  {
    assert (times + [at])[..|times|] == times;
  }

  /** A `u32` that saturates. */
  function Capped(n: nat): nat {
    if n <= U32_MAX then n else U32_MAX
  }

  // ----- the per-address limiter -----

  /** The times of the calls of `b` that were not refused for lack of room. */
  function TrackedTimes(c: Config, b: Ip, calls: seq<Call>): seq<nat> {
    if calls == [] then []
    else
      var before, last := TrackedTimes(c, b, calls[..|calls| - 1]), calls[|calls| - 1];
      if last.bucket == b && !LastServed(c, map[], calls).saturated then before + [last.at] else before
  }

  /** The first tracked call opens the first window. */
  function First(times: seq<nat>): nat {
    if times == [] then 0 else times[0]
  }

  /**
   * What the table holds for `b`, in terms of its calls; a bucket that is not
   * tracked has no window that still runs.
   */
  ghost predicate Tells(c: Config, m: Counters, b: Ip, times: seq<nat>, now: nat) {
    if b in m then
      && times != [] && m[b].startedAt == OpenedAt(times, c.window, First(times)) <= now
      && m[b].count == Capped(InWindow(times, c.window, First(times)))
    else times == [] || OpenedAt(times, c.window, First(times)) + c.window <= now
  }

  lemma TellsOwnCall(c: Config, m: Counters, b: Ip, times: seq<nat>, now: nat)
    requires Tells(c, m, b, times, now)
    ensures var w, times' := Spent(if b in m then m[b] else Window(now, 0), c.window, now), times + [now];
            && w.startedAt == OpenedAt(times', c.window, First(times'))
            && w.count == Capped(InWindow(times', c.window, First(times')))
  {
    OpenedSnoc(times, now, c.window, First(times + [now]));
    assert times != [] ==> First(times + [now]) == First(times);
  }

  lemma TellsKept(c: Config, m: Counters, b: Ip, times: seq<nat>, now: nat)
    requires Tells(c, m, b, times, now)
    ensures Tells(c, Kept(c, m, now), b, times, now)
  {
  }

  lemma TellsCall(c: Config, m: Counters, b: Ip, times: seq<nat>, now: nat, x: Ip)
    requires Tells(c, m, b, times, now)
    ensures var served := Serve(c, m, x, now);
            && Tells(c, served.counters, b, if x == b && !served.saturated then times + [now] else times, now)
            && (x == b && !served.saturated ==>
                  served.accepted == (Capped(InWindow(times + [now], c.window, First(times + [now]))) <= c.maxRequests))
  {
    var served := Serve(c, m, x, now);
    var kept := if x !in m && |m| >= c.maxTracked then Kept(c, m, now) else m;
    TellsKept(c, m, b, times, now);
    if x == b && !served.saturated {
      TellsOwnCall(c, kept, b, times, now);
      OpenedSnoc(times, now, c.window, First(times + [now]));
    } else {
      assert b in served.counters <==> b in kept;
    }
  }

  /**
   * Over every history: the table holds, for each bucket it tracks, the time the
   * current window opened and the number of calls in it, capped at `u32::MAX`.
   */
  lemma {:induction false} CountIsCalls(c: Config, b: Ip, calls: seq<Call>, now: nat)
    requires Monotone(map[], calls) && forall i :: 0 <= i < |calls| ==> calls[i].at <= now
    ensures Tells(c, Final(c, map[], calls), b, TrackedTimes(c, b, calls), now)
  {
    if calls != [] {
      var init, last := calls[..|calls| - 1], calls[|calls| - 1];
      CountIsCalls(c, b, init, last.at);
      TellsCall(c, Final(c, map[], init), b, TrackedTimes(c, b, init), last.at, last.bucket);
    }
  }

  lemma {:induction false} TrackedSorted(c: Config, b: Ip, calls: seq<Call>)
    requires Monotone(map[], calls)
    ensures var times := TrackedTimes(c, b, calls);
            Sorted(times, First(times)) && forall i :: 0 <= i < |times| ==> times[i] <= calls[|calls| - 1].at
  {
    if calls != [] {
      TrackedSorted(c, b, calls[..|calls| - 1]);
    }
  }

  lemma LastAnswer(c: Config, calls: seq<Call>, times: seq<nat>)
    requires calls != [] && Monotone(map[], calls) && !LastServed(c, map[], calls).saturated
    requires times == TrackedTimes(c, calls[|calls| - 1].bucket, calls)
    ensures LastServed(c, map[], calls).accepted == (Capped(InWindow(times, c.window, First(times))) <= c.maxRequests)
  {
    var init, last := calls[..|calls| - 1], calls[|calls| - 1];
    CountIsCalls(c, last.bucket, init, last.at);
    TellsCall(c, Final(c, map[], init), last.bucket, TrackedTimes(c, last.bucket, init), last.at, last.bucket);
  }

  /**
   * A call that is not refused for lack of room is accepted exactly when at most
   * `maxRequests` calls of its bucket, itself included, fall in the current
   * window; a budget of `u32::MAX` admits every one.
   */
  lemma AcceptedExactly(c: Config, calls: seq<Call>)
    requires calls != [] && Monotone(map[], calls) && !LastServed(c, map[], calls).saturated
    ensures var times := TrackedTimes(c, calls[|calls| - 1].bucket, calls);
            LastServed(c, map[], calls).accepted <==>
            c.maxRequests >= U32_MAX || InWindow(times, c.window, First(times)) <= c.maxRequests
  {
    LastAnswer(c, calls, TrackedTimes(c, calls[|calls| - 1].bucket, calls));
  }

  /** For a window of positive length these are the calls made since the window opened, less than its length ago. */
  lemma WindowIsCalls(c: Config, b: Ip, calls: seq<Call>)
    requires 0 < c.window && Monotone(map[], calls)
    ensures var times := TrackedTimes(c, b, calls);
            var start := OpenedAt(times, c.window, First(times));
            && InWindow(times, c.window, First(times)) == CountFrom(times, start)
            && forall i :: 0 <= i < |times| ==> times[i] < start + c.window
  {
    TrackedSorted(c, b, calls);
    InWindowIsCalls(TrackedTimes(c, b, calls), c.window, First(TrackedTimes(c, b, calls)));
  }

  /** A call is refused for lack of room exactly when its bucket is new and as many windows as fit are still running. */
  lemma RefusedForRoomExactly(c: Config, m: Counters, b: Ip, now: nat)
    ensures Serve(c, m, b, now).saturated <==>
              b !in m && |set y | y in m && Elapsed(now, m[y].startedAt) < c.window| >= c.maxTracked
    ensures Serve(c, m, b, now).saturated ==> !Serve(c, m, b, now).accepted && b !in Serve(c, m, b, now).counters
  {
    var live := set y | y in m && Elapsed(now, m[y].startedAt) < c.window;
    assert Kept(c, m, now).Keys == live;
    SubsetSize(live, m.Keys);
  }

  // ----- the global budget -----

  /** The budget's window after spends at the given times. */
  function BudgetAfter(times: seq<nat>, window: nat, openedAt: nat): Window {
    if times == [] then Window(openedAt, 0)
    else Spent(BudgetAfter(times[..|times| - 1], window, openedAt), window, times[|times| - 1])
  }

  lemma {:induction false} BudgetTells(times: seq<nat>, window: nat, openedAt: nat)
    requires Sorted(times, openedAt)
    ensures var w := BudgetAfter(times, window, openedAt);
            && w == Window(OpenedAt(times, window, openedAt), Capped(InWindow(times, window, openedAt)))
            && (times != [] ==> w.startedAt <= times[|times| - 1]) && openedAt <= w.startedAt
            && (times == [] ==> w.startedAt == openedAt)
  {
    if times != [] {
      BudgetTells(times[..|times| - 1], window, openedAt);
    }
  }

  /** A unit is available exactly when at most `max` spends, this one included, fall in the current window. */
  lemma SpentExactly(times: seq<nat>, max: nat, window: nat, openedAt: nat)
    requires Sorted(times, openedAt)
    ensures BudgetAfter(times, window, openedAt).count <= max <==>
              max >= U32_MAX || InWindow(times, window, openedAt) <= max
    ensures 0 < window ==>
              InWindow(times, window, openedAt) == CountFrom(times, OpenedAt(times, window, openedAt))
  {
    BudgetTells(times, window, openedAt);
    if 0 < window { InWindowIsCalls(times, window, openedAt); }
  }
}
