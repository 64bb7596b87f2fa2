/**
 * The fixed-window limiters of src/rate_limit.rs.
 *
 * Calls are served in the order of their clock readings. Besides what one call
 * does, the results are about whole call histories: how many calls any interval
 * of one window length can let through, and that dropping expired windows
 * cannot be observed.
 */
module RateLimit {
  import opened Text
  import opened Limits

  type Octet = n: int | 0 <= n < 256
  type V6Octets = s: seq<Octet> | |s| == 16 witness seq(16, _ => 0)
  datatype Ip = V4(address: nat) | V6(octets: V6Octets)

  /** IPv4 keys individually, IPv6 by /64. */
  function Bucket(ip: Ip): Ip {
    match ip {
      case V4(_) => ip
      case V6(o) => V6(o[..8] + seq(8, _ => 0))
    }
  }

  lemma SameBucket(x: V6Octets, y: V6Octets)
    ensures Bucket(V6(x)) == Bucket(V6(y)) <==> x[..8] == y[..8]
  {
    assert Bucket(V6(x)).octets[..8] == x[..8];
    assert Bucket(V6(y)).octets[..8] == y[..8];
  }

  /** IPv4 and IPv6 never share a bucket, and two IPv4 addresses only if they are the same. */
  lemma SameBucketExactly(x: Ip, y: Ip)
    ensures Bucket(x) == Bucket(y) <==> if x.V6? && y.V6? then x.octets[..8] == y.octets[..8] else x == y
  {
    if x.V6? && y.V6? { SameBucket(x.octets, y.octets); }
  }

  datatype Window = Window(startedAt: nat, count: nat)

  datatype Config = Config(maxRequests: nat, window: nat, maxTracked: nat)

  type Counters = map<Ip, Window>

  // ----- one call -----

  /** `Instant::duration_since` saturates at zero. */
  function Elapsed(now: nat, since: nat): nat {
    if now >= since then now - since else 0
  }

  predicate Live(w: Window, window: nat, now: nat) {
    Elapsed(now, w.startedAt) < window
  }

  /** The window after one more unit is spent on it. */
  function Spent(w: Window, window: nat, now: nat): Window {
    var current := if Live(w, window, now) then w else Window(now, 0);
    current.(count := if current.count < U32_MAX then current.count + 1 else U32_MAX)
  }

  /** Only expired windows are dropped. */
  function Kept(c: Config, m: Counters, now: nat): Counters {
    map y | y in m && Live(m[y], c.window, now) :: m[y]
  }

  datatype Served = Served(counters: Counters, accepted: bool, saturated: bool)

  /** `check` for a trusted address in bucket `b`. */
  function Serve(c: Config, m: Counters, b: Ip, now: nat): Served {
    var crowded := b !in m && |m| >= c.maxTracked;
    var kept := if crowded then Kept(c, m, now) else m;
    if crowded && |kept| >= c.maxTracked then Served(kept, false, true)
    else
      var w := Spent(if b in kept then kept[b] else Window(now, 0), c.window, now);
      Served(kept[b := w], w.count <= c.maxRequests, false)
  }

  class PerIpRateLimiter {
    const config: Config
    const allowUntrusted: bool
    var counters: Counters
    var saturated: bool

    constructor (config: Config, allowUntrusted: bool)
      ensures this.config == config && this.allowUntrusted == allowUntrusted && counters == map[] && !saturated
    {
      this.config, this.allowUntrusted := config, allowUntrusted;
      counters, saturated := map[], false;
    }

    method Check(ip: Option<Ip>, now: nat) returns (ok: bool)
      modifies this
      ensures ip.None? ==> ok == allowUntrusted && counters == old(counters) && saturated == old(saturated)
      ensures ip.Some? ==>
                var served := Serve(config, old(counters), Bucket(ip.value), now);
                && counters == served.counters && ok == served.accepted
                && saturated == (served.saturated || (old(saturated) && Bucket(ip.value) in old(counters)))
    {
      if ip.None? { return allowUntrusted; }
      var b := Bucket(ip.value);
      var isNew := b !in counters;
      if isNew && |counters| >= config.maxTracked {
        counters := map x | x in counters && Live(counters[x], config.window, now) :: counters[x];
        if |counters| >= config.maxTracked {
          saturated := true;
          return false;
        }
      }
      if isNew { saturated := false; }
      if b !in counters { counters := counters[b := Window(now, 0)]; }
      if Elapsed(now, counters[b].startedAt) >= config.window { counters := counters[b := Window(now, 0)]; }
      var count := if counters[b].count < U32_MAX then counters[b].count + 1 else U32_MAX;
      counters := counters[b := counters[b].(count := count)];
      return count <= config.maxRequests;
    }
  }

  class GlobalBudget {
    const max: nat
    const window: nat
    var state: Window

    constructor (max: nat, window: nat, now: nat)
      ensures this.max == max && this.window == window && state == Window(now, 0)
    {
      this.max, this.window, state := max, window, Window(now, 0);
    }

    method Spend(now: nat) returns (ok: bool)
      modifies this
      ensures state == Spent(old(state), window, now) && ok == (state.count <= max)
    {
      if Elapsed(now, state.startedAt) >= window { state := Window(now, 0); }
      state := state.(count := if state.count < U32_MAX then state.count + 1 else U32_MAX);
      return state.count <= max;
    }
  }

  // ----- call histories -----

  datatype Call = Call(bucket: Ip, at: nat)

  function Final(c: Config, m: Counters, calls: seq<Call>): Counters {
    if calls == [] then m
    else
      var last := calls[|calls| - 1];
      Serve(c, Final(c, m, calls[..|calls| - 1]), last.bucket, last.at).counters
  }

  /** What the last call of a history is answered. */
  function LastServed(c: Config, m: Counters, calls: seq<Call>): Served
    requires calls != []
  {
    var last := calls[|calls| - 1];
    Serve(c, Final(c, m, calls[..|calls| - 1]), last.bucket, last.at)
  }

  /** An accepted call: when it came and when the window it was counted in began. */
  datatype Grant = Grant(at: nat, start: nat)

  /** The grants of `b` after a call of bucket `x`. */
  function GrantsAfter(g: seq<Grant>, b: Ip, x: Ip, now: nat, served: Served): seq<Grant> {
    if x == b && served.accepted
    then g + [Grant(now, if b in served.counters then served.counters[b].startedAt else 0)]
    else g
  }

  /** The calls of bucket `b` that were accepted, in order. */
  function Grants(c: Config, m: Counters, b: Ip, calls: seq<Call>): seq<Grant> {
    if calls == [] then []
    else
      var last := calls[|calls| - 1];
      GrantsAfter(Grants(c, m, b, calls[..|calls| - 1]), b, last.bucket, last.at, LastServed(c, m, calls))
  }

  function CountBetween(g: seq<Grant>, lo: nat, hi: nat): nat {
    if g == [] then 0
    else CountBetween(g[..|g| - 1], lo, hi) + (if lo <= g[|g| - 1].at <= hi then 1 else 0)
  }

  function CountStart(g: seq<Grant>, start: nat): nat {
    if g == [] then 0
    else CountStart(g[..|g| - 1], start) + (if g[|g| - 1].start == start then 1 else 0)
  }

  /** Clock readings never go back, and no window of the initial table lies in the future. */
  ghost predicate Monotone(m: Counters, calls: seq<Call>) {
    && (forall i, j :: 0 <= i < j < |calls| ==> calls[i].at <= calls[j].at)
    && (forall b, i :: b in m && 0 <= i < |calls| ==> m[b].startedAt <= calls[i].at)
  }

  // ----- the sliding-interval bound -----

  ghost predicate WellSpaced(g: seq<Grant>, window: nat, max: nat) {
    && (forall i :: 0 <= i < |g| ==> g[i].start <= g[i].at < g[i].start + window)
    && (forall i, j :: 0 <= i < j < |g| ==> g[i].start == g[j].start || g[i].start + window <= g[j].start)
    && (forall s :: CountStart(g, s) <= max)
  }

  lemma {:induction false} CountStartPrefix(g: seq<Grant>, s: nat)
    requires g != []
    ensures CountStart(g[..|g| - 1], s) <= CountStart(g, s)
  {
  }

  lemma {:induction false} TwoStarts(g: seq<Grant>, lo: nat, hi: nat, s: nat, t: nat)
    requires forall i :: 0 <= i < |g| && lo <= g[i].at <= hi ==> g[i].start == s || g[i].start == t
    ensures CountBetween(g, lo, hi) <= CountStart(g, s) + CountStart(g, t)
  {
    if g != [] {
      TwoStarts(g[..|g| - 1], lo, hi, s, t);
    }
  }

  /** An interval of one window length meets at most two windows. */
  lemma {:induction false} SpacedBound(g: seq<Grant>, window: nat, max: nat, lo: nat)
    requires WellSpaced(g, window, max)
    ensures CountBetween(g, lo, lo + window) <= 2 * max
  {
    if g != [] {
      var n := |g| - 1;
      if lo <= g[n].at <= lo + window {
        var s := EarlierStart(g, window, max, lo);
        TwoStarts(g, lo, lo + window, s, g[n].start);
      } else {
        forall s ensures CountStart(g[..n], s) <= max { CountStartPrefix(g, s); }
        SpacedBound(g[..n], window, max, lo);
      }
    }
  }

  /** Besides the window of the last grant the interval meets at most one other. */
  lemma EarlierStart(g: seq<Grant>, window: nat, max: nat, lo: nat) returns (s: nat)
    requires WellSpaced(g, window, max) && g != [] && lo <= g[|g| - 1].at <= lo + window
    ensures forall i :: 0 <= i < |g| && lo <= g[i].at <= lo + window ==>
            g[i].start == s || g[i].start == g[|g| - 1].start
  {
    var n := |g| - 1;
    s := g[n].start;
    if i :| 0 <= i < n && lo <= g[i].at <= lo + window && g[i].start != g[n].start {
      s := g[i].start;
      assert s + window <= g[n].start;
    }
  }

  /** `w` is the current window of a bucket whose accepted calls are `g`. */
  ghost predicate Anchored(g: seq<Grant>, window: nat, max: nat, w: Window) {
    && WellSpaced(g, window, max)
    && (forall i :: 0 <= i < |g| ==> g[i].start == w.startedAt || g[i].start + window <= w.startedAt)
    && CountStart(g, w.startedAt) <= w.count
  }

  ghost predicate AllExpired(g: seq<Grant>, window: nat, now: nat) {
    forall i :: 0 <= i < |g| ==> g[i].start + window <= now
  }

  /** The table and the grants of one bucket, `now` being no earlier than the last call. */
  ghost predicate Tracks(c: Config, m: Counters, b: Ip, g: seq<Grant>, now: nat) {
    if b in m then m[b].startedAt <= now && Anchored(g, c.window, c.maxRequests, m[b])
    else WellSpaced(g, c.window, c.maxRequests) && AllExpired(g, c.window, now)
  }

  lemma {:induction false} CountStartNew(g: seq<Grant>, s: nat)
    requires forall i :: 0 <= i < |g| ==> g[i].start != s
    ensures CountStart(g, s) == 0
  {
    if g != [] { CountStartNew(g[..|g| - 1], s); }
  }

  lemma CountStartSnoc(g: seq<Grant>, x: Grant, s: nat)
    ensures CountStart(g + [x], s) == CountStart(g, s) + (if x.start == s then 1 else 0)
  {
    assert (g + [x])[..|g|] == g;
  }

  lemma OpenWindow(g: seq<Grant>, window: nat, max: nat, now: nat)
    requires 0 < window && WellSpaced(g, window, max) && AllExpired(g, window, now)
    ensures Anchored(g, window, max, Window(now, 0))
  {
    CountStartNew(g, now);
  }

  lemma GrantInWindow(g: seq<Grant>, window: nat, max: nat, w: Window, now: nat)
    requires Anchored(g, window, max, w) && w.startedAt <= now < w.startedAt + window && w.count < max
    ensures Anchored(g + [Grant(now, w.startedAt)], window, max, w.(count := w.count + 1))
  {
    var x := Grant(now, w.startedAt);
    forall s ensures CountStart(g + [x], s) <= max {
      CountStartSnoc(g, x, s);
    }
    CountStartSnoc(g, x, w.startedAt);
  }

  /** Serving the bucket itself, from a table that still has room for it. */
  lemma TracksOwnCall(c: Config, m: Counters, b: Ip, g: seq<Grant>, now: nat)
    requires 0 < c.window && c.maxRequests < U32_MAX
    requires Tracks(c, m, b, g, now)
    ensures var w := Spent(if b in m then m[b] else Window(now, 0), c.window, now);
            var g' := if w.count <= c.maxRequests then g + [Grant(now, w.startedAt)] else g;
            w.startedAt <= now && Anchored(g', c.window, c.maxRequests, w)
  {
    var prior := if b in m then m[b] else Window(now, 0);
    var current := if Live(prior, c.window, now) then prior else Window(now, 0);
    if b !in m || !Live(prior, c.window, now) {
      OpenWindow(g, c.window, c.maxRequests, now);
    }
    SpendAnchored(g, c.window, c.maxRequests, current, now);
  }

  lemma SpendAnchored(g: seq<Grant>, window: nat, max: nat, current: Window, now: nat)
    requires max < U32_MAX && current.startedAt <= now < current.startedAt + window
    requires Anchored(g, window, max, current)
    ensures var w := Spent(current, window, now);
            w.startedAt == current.startedAt
            && Anchored(if w.count <= max then g + [Grant(now, w.startedAt)] else g, window, max, w)
  {
    if current.count < max {
      GrantInWindow(g, window, max, current, now);
    }
  }

  lemma TracksKept(c: Config, m: Counters, b: Ip, g: seq<Grant>, now: nat)
    requires Tracks(c, m, b, g, now)
    ensures Tracks(c, Kept(c, m, now), b, g, now)
  {
  }

  lemma TracksCall(c: Config, m: Counters, b: Ip, g: seq<Grant>, now: nat, x: Ip)
    requires 0 < c.window && c.maxRequests < U32_MAX
    requires Tracks(c, m, b, g, now)
    ensures Tracks(c, Serve(c, m, x, now).counters, b, GrantsAfter(g, b, x, now, Serve(c, m, x, now)), now)
  {
    var served := Serve(c, m, x, now);
    var kept := if x !in m && |m| >= c.maxTracked then Kept(c, m, now) else m;
    TracksKept(c, m, b, g, now);
    assert Tracks(c, kept, b, g, now);
    if x == b && !served.saturated {
      TracksOwnCall(c, kept, b, g, now);
    } else {
      assert b in served.counters <==> b in kept;
    }
  }

  lemma {:induction false} HistoryTracks(c: Config, m: Counters, b: Ip, calls: seq<Call>, now: nat)
    requires 0 < c.window && c.maxRequests < U32_MAX
    requires Monotone(m, calls) && (forall i :: 0 <= i < |calls| ==> calls[i].at <= now)
    requires b in m ==> m[b].startedAt <= now
    ensures Tracks(c, Final(c, m, calls), b, Grants(c, m, b, calls), now)
  {
    if calls != [] {
      var init, last := calls[..|calls| - 1], calls[|calls| - 1];
      HistoryTracks(c, m, b, init, last.at);
      TracksCall(c, Final(c, m, init), b, Grants(c, m, b, init), last.at, last.bucket);
      TracksLater(c, Final(c, m, calls), b, Grants(c, m, b, calls), last.at, now);
    }
  }

  lemma TracksLater(c: Config, m: Counters, b: Ip, g: seq<Grant>, now: nat, later: nat)
    requires Tracks(c, m, b, g, now) && now <= later
    ensures Tracks(c, m, b, g, later)
  {
  }

  /**
   * Any closed interval of one window length lets at most twice the budget
   * through for a bucket, across resets, evictions and re-insertions.
   */
  lemma SlidingBound(c: Config, m: Counters, b: Ip, calls: seq<Call>, lo: nat)
    requires 0 < c.window && c.maxRequests < U32_MAX
    requires Monotone(m, calls)
    ensures CountBetween(Grants(c, m, b, calls), lo, lo + c.window) <= 2 * c.maxRequests
  {
    if calls != [] {
      HistoryTracks(c, m, b, calls, calls[|calls| - 1].at);
      SpacedBound(Grants(c, m, b, calls), c.window, c.maxRequests, lo);
    }
  }

  // ----- when exactly the bound holds -----

  /** How many calls of `b` are accepted in the closed interval of one window length from `lo`. */
  ghost function Throughput(c: Config, calls: seq<Call>, b: Ip, lo: nat): nat {
    CountBetween(Grants(c, map[], b, calls), lo, lo + c.window)
  }

  ghost predicate Bounded(c: Config) {
    forall calls: seq<Call>, b: Ip, lo: nat :: Monotone(map[], calls) ==>
      Throughput(c, calls, b, lo) <= 2 * c.maxRequests
  }

  function Burst(n: nat): seq<Call> {
    seq(n, _ => Call(V4(0), 0))
  }

  ghost predicate Unlimited(c: Config) {
    0 < c.maxTracked && 0 < c.maxRequests <= U32_MAX && (c.window == 0 || c.maxRequests == U32_MAX)
  }

  lemma BurstCall(c: Config, m: Counters)
    requires Unlimited(c)
    requires m == map[] || (m.Keys == {V4(0)} && m[V4(0)].startedAt == 0 && m[V4(0)].count <= U32_MAX)
    ensures var served := Serve(c, m, V4(0), 0);
            && served.accepted && served.counters.Keys == {V4(0)}
            && served.counters[V4(0)].startedAt == 0 && served.counters[V4(0)].count <= U32_MAX
  {
  }

  lemma {:induction false} BurstTable(c: Config, n: nat)
    requires Unlimited(c)
    ensures var m := Final(c, map[], Burst(n));
            m == map[] || (m.Keys == {V4(0)} && m[V4(0)].startedAt == 0 && m[V4(0)].count <= U32_MAX)
  {
    if n > 0 {
      BurstTable(c, n - 1);
      assert Burst(n)[..n - 1] == Burst(n - 1);
      BurstCall(c, Final(c, map[], Burst(n - 1)));
    }
  }

  /** One more accepted call adds its grant. */
  lemma GrantsSnoc(c: Config, b: Ip, calls: seq<Call>, at: nat, m: Counters)
    requires m == Final(c, map[], calls)
    requires Serve(c, m, b, at).accepted && b in Serve(c, m, b, at).counters
    ensures Grants(c, map[], b, calls + [Call(b, at)])
            == Grants(c, map[], b, calls) + [Grant(at, Serve(c, m, b, at).counters[b].startedAt)]
  {
    assert (calls + [Call(b, at)])[..|calls|] == calls;
    assert LastServed(c, map[], calls + [Call(b, at)]) == Serve(c, m, b, at);
  }

  lemma BurstGrants(c: Config, n: nat)
    requires Unlimited(c)
    ensures Grants(c, map[], V4(0), Burst(n + 1)) == Grants(c, map[], V4(0), Burst(n)) + [Grant(0, 0)]
  {
    var m := Final(c, map[], Burst(n));
    BurstTable(c, n);
    BurstCall(c, m);
    GrantsSnoc(c, V4(0), Burst(n), 0, m);
    assert Burst(n + 1) == Burst(n) + [Call(V4(0), 0)];
  }

  /** With no window, or a budget the counter cannot exceed, every call of a burst is accepted. */
  lemma {:induction false} BurstAccepted(c: Config, n: nat)
    requires Unlimited(c)
    ensures CountBetween(Grants(c, map[], V4(0), Burst(n)), 0, c.window) == n
  {
    if n > 0 {
      BurstAccepted(c, n - 1);
      BurstGrants(c, n - 1);
      CountBetweenSnoc(Grants(c, map[], V4(0), Burst(n - 1)), Grant(0, 0), 0, c.window);
    }
  }

  lemma CountBetweenSnoc(g: seq<Grant>, x: Grant, lo: nat, hi: nat)
    ensures CountBetween(g + [x], lo, hi) == CountBetween(g, lo, hi) + (if lo <= x.at <= hi then 1 else 0)
  {
    assert (g + [x])[..|g|] == g;
  }

  lemma {:induction false} NeverAccepted(c: Config, b: Ip, calls: seq<Call>)
    requires c.maxTracked == 0 || c.maxRequests == 0
    ensures Grants(c, map[], b, calls) == []
    ensures c.maxTracked == 0 ==> Final(c, map[], calls) == map[]
  {
    if calls != [] { NeverAccepted(c, b, calls[..|calls| - 1]); }
  }

  /**
   * The bound holds exactly for a non-zero window with a budget below the
   * counter's ceiling, or for a limiter that accepts nothing.
   */
  lemma BoundedExactly(c: Config)
    requires c.maxRequests <= U32_MAX
    ensures Bounded(c) <==> c.maxTracked == 0 || c.maxRequests == 0 || (0 < c.window && c.maxRequests < U32_MAX)
  {
    if Unlimited(c) {
      BurstBreaks(c);
    } else {
      forall calls: seq<Call>, b: Ip, lo: nat | Monotone(map[], calls)
        ensures Throughput(c, calls, b, lo) <= 2 * c.maxRequests
      {
        if c.maxTracked == 0 || c.maxRequests == 0 {
          NeverAccepted(c, b, calls);
        } else {
          SlidingBound(c, map[], b, calls, lo);
        }
      }
    }
  }

  lemma BurstBreaks(c: Config)
    requires Unlimited(c)
    ensures !Bounded(c)
  {
    var n := 2 * c.maxRequests + 1;
    BurstAccepted(c, n);
    assert Monotone(map[], Burst(n));
    assert Throughput(c, Burst(n), V4(0), 0) == n;
  }

  // ----- the global budget -----

  /** The budget is a limiter with one bucket that is always tracked. */
  lemma BudgetIsOneBucket(c: Config, b: Ip, w: Window, now: nat)
    ensures var served := Serve(c, map[b := w], b, now);
            && served.counters == map[b := Spent(w, c.window, now)]
            && served.accepted == (Spent(w, c.window, now).count <= c.maxRequests)
  {
  }

  /** The sliding bound for `GlobalBudget`, whose window opens when it is built. */
  lemma BudgetBound(max: nat, window: nat, openedAt: nat, times: seq<nat>, lo: nat)
    requires 0 < window && max < U32_MAX
    requires forall i :: 0 <= i < |times| ==> openedAt <= times[i]
    requires forall i, j :: 0 <= i < j < |times| ==> times[i] <= times[j]
    ensures var calls := seq(|times|, i requires 0 <= i < |times| => Call(V4(0), times[i]));
            CountBetween(Grants(Config(max, window, 1), map[V4(0) := Window(openedAt, 0)], V4(0), calls), lo,
                         lo + window) <= 2 * max
  {
    var calls := seq(|times|, i requires 0 <= i < |times| => Call(V4(0), times[i]));
    SlidingBound(Config(max, window, 1), map[V4(0) := Window(openedAt, 0)], V4(0), calls, lo);
  }

  // ----- eviction -----

  /** A table that grows without limit and drops nothing. */
  function ServeUnbounded(c: Config, u: Counters, b: Ip, now: nat): Served {
    var w := Spent(if b in u then u[b] else Window(now, 0), c.window, now);
    Served(u[b := w], w.count <= c.maxRequests, false)
  }

  function FinalUnbounded(c: Config, calls: seq<Call>): Counters {
    if calls == [] then map[]
    else
      var last := calls[|calls| - 1];
      ServeUnbounded(c, FinalUnbounded(c, calls[..|calls| - 1]), last.bucket, last.at).counters
  }

  /** The bounded table is the unbounded one less some windows that have expired. */
  ghost predicate Forgets(c: Config, m: Counters, u: Counters, now: nat) {
    && (forall b :: b in m ==> b in u && m[b] == u[b])
    && (forall b :: b in u && b !in m ==> !Live(u[b], c.window, now))
    && (forall b :: b in u ==> u[b].startedAt <= now)
  }

  lemma ForgetsCall(c: Config, m: Counters, u: Counters, now: nat, b: Ip)
    requires Forgets(c, m, u, now) && !Serve(c, m, b, now).saturated
    ensures Serve(c, m, b, now).accepted == ServeUnbounded(c, u, b, now).accepted
    ensures Forgets(c, Serve(c, m, b, now).counters, ServeUnbounded(c, u, b, now).counters, now)
  {
    if 0 < c.window && b !in m && b in u {
      assert Spent(u[b], c.window, now) == Spent(Window(now, 0), c.window, now);
    }
  }

  lemma ForgetsLater(c: Config, m: Counters, u: Counters, now: nat, later: nat)
    requires Forgets(c, m, u, now) && now <= later
    ensures Forgets(c, m, u, later)
  {
  }

  ghost predicate NeverSaturated(c: Config, calls: seq<Call>) {
    forall i :: 0 < i <= |calls| ==> !LastServed(c, map[], calls[..i]).saturated
  }

  lemma NeverSaturatedPrefix(c: Config, calls: seq<Call>, n: nat)
    requires NeverSaturated(c, calls) && n <= |calls|
    ensures NeverSaturated(c, calls[..n])
  {
    forall i | 0 < i <= n ensures !LastServed(c, map[], calls[..n][..i]).saturated {
      assert calls[..n][..i] == calls[..i];
    }
  }

  lemma LastNotSaturated(c: Config, calls: seq<Call>)
    requires NeverSaturated(c, calls) && calls != []
    ensures !LastServed(c, map[], calls).saturated
  {
    assert calls[..|calls|] == calls;
  }

  lemma {:induction false} HistoryForgets(c: Config, calls: seq<Call>, now: nat)
    requires Monotone(map[], calls) && (forall i :: 0 <= i < |calls| ==> calls[i].at <= now) && NeverSaturated(c, calls)
    ensures Forgets(c, Final(c, map[], calls), FinalUnbounded(c, calls), now)
  {
    if calls != [] {
      var init, last := calls[..|calls| - 1], calls[|calls| - 1];
      NeverSaturatedPrefix(c, calls, |calls| - 1);
      HistoryForgets(c, init, last.at);
      LastNotSaturated(c, calls);
      ForgetsCall(c, Final(c, map[], init), FinalUnbounded(c, init), last.at, last.bucket);
      ForgetsLater(c, Final(c, map[], calls), FinalUnbounded(c, calls), last.at, now);
    }
  }

  /** On a history with no capacity refusal, every answer is the one the unbounded table gives. */
  lemma EvictionIsInvisible(c: Config, calls: seq<Call>, i: nat)
    requires Monotone(map[], calls) && NeverSaturated(c, calls) && i < |calls|
    ensures Serve(c, Final(c, map[], calls[..i]), calls[i].bucket, calls[i].at).accepted
            == ServeUnbounded(c, FinalUnbounded(c, calls[..i]), calls[i].bucket, calls[i].at).accepted
  {
    var before := calls[..i];
    NeverSaturatedPrefix(c, calls, i);
    HistoryForgets(c, before, calls[i].at);
    assert calls[..i + 1][..i] == before;
    assert !LastServed(c, map[], calls[..i + 1]).saturated;
    ForgetsCall(c, Final(c, map[], before), FinalUnbounded(c, before), calls[i].at, calls[i].bucket);
  }

  /** The table never outgrows its limit. */
  lemma {:induction false} TableStaysBounded(c: Config, calls: seq<Call>)
    ensures |Final(c, map[], calls)| <= c.maxTracked
  {
    if calls != [] {
      var init, last := calls[..|calls| - 1], calls[|calls| - 1];
      TableStaysBounded(c, init);
      var m := Final(c, map[], init);
      var kept := Kept(c, m, last.at);
      SubsetSize(kept.Keys, m.Keys);
      var served := Serve(c, m, last.bucket, last.at).counters;
      assert served.Keys <= kept.Keys + {last.bucket} || served.Keys == m.Keys + {last.bucket};
    }
  }

  /** No call resets or drops a live window of another bucket. */
  lemma LiveWindowsUntouched(c: Config, m: Counters, b: Ip, now: nat, x: Ip)
    requires x != b && x in m && Live(m[x], c.window, now)
    ensures x in Serve(c, m, b, now).counters && Serve(c, m, b, now).counters[x] == m[x]
  {
  }
}
