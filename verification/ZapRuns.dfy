/**
 * Whole runs of the receipt queue with any number of processors. A processor
 * takes a row, later reads the clock, later still publishes, and writes its
 * decision last, so its write may come long after its lease ran out and another
 * processor took the row; or it dies between any two of these.
 */
module ZapRuns {
  import opened Text
  import opened Limits
  import opened Backoff
  import opened ZapQueue

  /** Keeps clock readings clear of i64 saturation for the longest delay ever scheduled. */
  const CLOCK_CAP := I64_MAX - 2_000_000_000

  /** A processor that holds a taken item; `startedAt` is its clock reading, once made. */
  datatype Holder = Holder(item: Item, startedAt: Option<nat>, publishing: bool)

  /** A publish to the relays, with the retry count of the item it was made for. */
  datatype Attempt = Attempt(item: Item, at: nat)

  datatype World = World(clock: nat, rows: Rows, holders: map<nat, Holder>, attempts: seq<Attempt>)

  datatype Action =
    | Tick(ms: nat)
    | Enqueue(hash: string, readAt: nat)
    | Take(hash: string, holder: nat)
    | Begin(holder: nat)
    | Publish(holder: nat)
    | Finish(holder: nat, hasKeys: bool, lookup: Lookup, published: bool, stored: bool)
    | Crash(holder: nat)

  /** The processor found a zap without receipt and the preimage of its invoice. */
  const READY := Looked(Some(false), Some(true))

  ghost predicate Enabled(w: World, a: Action) {
    match a {
      case Tick(ms) => w.clock + ms <= CLOCK_CAP
      case Enqueue(_, at) => at <= w.clock
      case Take(h, k) => h in w.rows && Eligible(w.rows[h], w.clock) && k !in w.holders
      case Begin(k) => k in w.holders && w.holders[k].startedAt.None?
      case Publish(k) =>
        && k in w.holders && w.holders[k].startedAt.Some? && !w.holders[k].publishing
        && Publishes(true, w.holders[k].item, w.holders[k].startedAt.value, READY)
      case Finish(k, hasKeys, lookup, _, _) =>
        && k in w.holders && w.holders[k].startedAt.Some?
        && w.holders[k].publishing == Publishes(hasKeys, w.holders[k].item, w.holders[k].startedAt.value, lookup)
      case Crash(k) => k in w.holders
    }
  }

  ghost function DecisionOf(w: World, a: Action): Decision
    requires a.Finish? && Enabled(w, a)
  {
    var h := w.holders[a.holder];
    Decide(a.hasKeys, h.item, h.startedAt.value, a.lookup, a.published)
  }

  ghost function Step(w: World, a: Action): World {
    if !Enabled(w, a) then w
    else match a {
      case Tick(ms) => w.(clock := w.clock + ms)
      case Enqueue(h, at) => if h in w.rows then w else w.(rows := w.rows[h := Row(at, 0, at, None)])
      case Take(h, k) =>
        w.(rows := w.rows[h := w.rows[h].(claimedAt := Some(w.clock))],
           holders := w.holders[k := Holder(ItemOf(h, w.rows[h]), None, false)])
      case Begin(k) => w.(holders := w.holders[k := w.holders[k].(startedAt := Some(w.clock))])
      case Publish(k) =>
        w.(holders := w.holders[k := w.holders[k].(publishing := true)],
           attempts := w.attempts + [Attempt(w.holders[k].item, w.holders[k].startedAt.value)])
      case Finish(k, _, _, _, stored) =>
        w.(rows := if stored then Apply(w.rows, w.holders[k].item.hash, DecisionOf(w, a)) else w.rows,
           holders := w.holders - {k})
      case Crash(k) => w.(holders := w.holders - {k})
    }
  }

  ghost function Run(w: World, actions: seq<Action>): World {
    if actions == [] then w else Step(Run(w, actions[..|actions| - 1]), actions[|actions| - 1])
  }

  function Start(now: nat): World {
    World(now, map[], map[], [])
  }

  // ----- the backoff bound -----

  /** The n-th retry is never scheduled before the first n delays have passed since the row was created. */
  ghost predicate Spaced(createdAt: nat, retryCount: nat, nextRetryAt: nat) {
    retryCount <= 24 && nextRetryAt >= createdAt + TotalDelay(retryCount)
  }

  ghost predicate RowSpaced(r: Row) {
    Spaced(r.createdAt, r.retryCount, r.nextRetryAt)
  }

  ghost predicate RowsSpaced(rows: Rows) {
    forall h :: h in rows ==> RowSpaced(rows[h])
  }

  /** The spacing of rows and held items, and no publish for an item retried more than 23 times. */
  ghost predicate Paced(w: World) {
    && w.clock <= CLOCK_CAP
    && RowsSpaced(w.rows)
    && (forall k :: k in w.holders ==>
          var item, startedAt := w.holders[k].item, w.holders[k].startedAt;
          && Spaced(item.createdAt, item.retryCount, item.nextRetryAt) && item.nextRetryAt <= w.clock
          && (startedAt.Some? ==> item.nextRetryAt <= startedAt.value <= w.clock))
    && (forall i :: 0 <= i < |w.attempts| ==> w.attempts[i].item.retryCount <= 23)
  }

  /** The action writes a new due time into a row. */
  ghost predicate Reschedules(w: World, a: Action) {
    a.Finish? && Enabled(w, a) && a.stored && w.holders[a.holder].item.hash in w.rows && DecisionOf(w, a).Reschedule?
  }

  /** The row a reschedule lands on is old enough for the retries the item has had. */
  ghost predicate OnTime(w: World, a: Action) {
    Reschedules(w, a) ==>
      var h := w.holders[a.holder];
      w.rows[h.item.hash].createdAt + TotalDelay(h.item.retryCount) <= h.startedAt.value
  }

  ghost predicate OnTimeWrites(w: World, actions: seq<Action>)
    decreases |actions|
  {
    actions == [] ||
    (OnTimeWrites(w, actions[..|actions| - 1]) && OnTime(Run(w, actions[..|actions| - 1]), actions[|actions| - 1]))
  }

  /** A publish is within the cutoff, which bounds how often the item can have been retried before. */
  lemma AttemptBound(item: Item, now: nat, hasKeys: bool, lookup: Lookup)
    requires Spaced(item.createdAt, item.retryCount, item.nextRetryAt) && item.nextRetryAt <= now
    requires Publishes(hasKeys, item, now, lookup)
    ensures item.retryCount <= 23
  {
    RetriesWithinCutoff(item.retryCount);
  }

  /** A failed publish reschedules without saturation, by the next delay of the item. */
  lemma RescheduleIs(item: Item, now: nat, hasKeys: bool, lookup: Lookup)
    requires Spaced(item.createdAt, item.retryCount, item.nextRetryAt) && item.nextRetryAt <= now <= CLOCK_CAP
    requires Publishes(hasKeys, item, now, lookup)
    ensures Decide(hasKeys, item, now, lookup, false)
            == Reschedule(item.retryCount + 1, now + RetryDelay(item.retryCount + 1))
    ensures item.retryCount <= 23
  {
    AttemptBound(item, now, hasKeys, lookup);
    DelaySmall(item.retryCount + 1);
  }

  /** Exactly when a late reschedule keeps the spacing of the row it lands on: that row must be old enough. */
  lemma LateWriteExactly(row: Row, retries: nat, startedAt: nat)
    requires retries <= 23
    ensures var row' := row.(retryCount := retries + 1, nextRetryAt := startedAt + RetryDelay(retries + 1),
                             claimedAt := None);
            RowSpaced(row') <==> row.createdAt + TotalDelay(retries) <= startedAt
  {
    assert TotalDelay(retries + 1) == TotalDelay(retries) + RetryDelay(retries + 1);
  }

  lemma ReplaceSpaced(rows: Rows, hash: string, row: Row)
    requires RowsSpaced(rows)
    ensures RowsSpaced(rows[hash := row]) <==> RowSpaced(row)
  {
    assert RowsSpaced(rows[hash := row]) ==> RowSpaced(rows[hash := row][hash]);
  }

  lemma RescheduleSpacedExactly(rows: Rows, hash: string, retries: nat, startedAt: nat)
    requires RowsSpaced(rows) && hash in rows && retries <= 23
    ensures RowsSpaced(Apply(rows, hash, Reschedule(retries + 1, startedAt + RetryDelay(retries + 1))))
            <==> rows[hash].createdAt + TotalDelay(retries) <= startedAt
  {
    var n, row := retries + 1, rows[hash];
    LateWriteExactly(row, retries, startedAt);
    ReplaceSpaced(rows, hash, row.(retryCount := n, nextRetryAt := startedAt + RetryDelay(n), claimedAt := None));
  }

  /** A processor's write keeps the rows spaced exactly when it is no reschedule or its row is old enough. */
  lemma ApplySpacedExactly(rows: Rows, item: Item, startedAt: nat, hasKeys: bool, lookup: Lookup, published: bool)
    requires RowsSpaced(rows)
    requires Spaced(item.createdAt, item.retryCount, item.nextRetryAt) && item.nextRetryAt <= startedAt <= CLOCK_CAP
    ensures var d := Decide(hasKeys, item, startedAt, lookup, published);
            RowsSpaced(Apply(rows, item.hash, d)) <==>
              (d.Reschedule? && item.hash in rows ==>
               rows[item.hash].createdAt + TotalDelay(item.retryCount) <= startedAt)
  {
    if Decide(hasKeys, item, startedAt, lookup, published).Reschedule? && item.hash in rows {
      RescheduleIs(item, startedAt, hasKeys, lookup);
      RescheduleSpacedExactly(rows, item.hash, item.retryCount, startedAt);
    }
  }

  lemma FinishSpacedExactly(w: World, a: Action)
    requires Paced(w) && a.Finish? && Enabled(w, a)
    ensures RowsSpaced(Step(w, a).rows) <==> OnTime(w, a)
  {
    var h := w.holders[a.holder];
    ApplySpacedExactly(w.rows, h.item, h.startedAt.value, a.hasKeys, a.lookup, a.published);
  }

  /**
   * From a paced state any action keeps the rows spaced exactly when its write
   * is on time; and spaced rows keep the state paced.
   */
  lemma StepSpacedExactly(w: World, a: Action)
    requires Paced(w)
    ensures RowsSpaced(Step(w, a).rows) <==> OnTime(w, a)
    ensures RowsSpaced(Step(w, a).rows) ==> Paced(Step(w, a))
  {
    if a.Finish? && Enabled(w, a) {
      FinishSpacedExactly(w, a);
    } else if a.Publish? && Enabled(w, a) {
      var h := w.holders[a.holder];
      AttemptBound(h.item, h.startedAt.value, true, READY);
    }
  }

  /**
   * On every run whose reschedules are on time, stale lease holders and
   * processors that die after publishing included: every row keeps the spacing
   * of its retries, no publish is made for an item retried more than 23 times,
   * and no stored count exceeds 24.
   */
  lemma {:induction false} BackoffHolds(now: nat, actions: seq<Action>)
    requires now <= CLOCK_CAP && OnTimeWrites(Start(now), actions)
    ensures Paced(Run(Start(now), actions))
  {
    if actions != [] {
      BackoffHolds(now, actions[..|actions| - 1]);
      StepSpacedExactly(Run(Start(now), actions[..|actions| - 1]), actions[|actions| - 1]);
    }
  }

  /** After every action of the run the rows are spaced. */
  ghost predicate AlwaysSpaced(w: World, actions: seq<Action>)
    decreases |actions|
  {
    RowsSpaced(Run(w, actions).rows) && (actions == [] || AlwaysSpaced(w, actions[..|actions| - 1]))
  }

  /** The rows stay spaced throughout a run exactly when all its reschedules are on time. */
  lemma {:induction false} SpacedExactly(now: nat, actions: seq<Action>)
    requires now <= CLOCK_CAP
    ensures AlwaysSpaced(Start(now), actions) <==> OnTimeWrites(Start(now), actions)
  {
    if actions != [] {
      var init := actions[..|actions| - 1];
      SpacedExactly(now, init);
      if OnTimeWrites(Start(now), init) {
        BackoffHolds(now, init);
        StepSpacedExactly(Run(Start(now), init), actions[|actions| - 1]);
      }
    }
  }

  // ----- one condition that makes writes on time, and a run without it -----

  /** The action does not create a row for a hash while a processor still holds an earlier item for it. */
  ghost predicate FreshEnqueue(w: World, a: Action) {
    a.Enqueue? && a.hash !in w.rows ==> forall k :: k in w.holders ==> w.holders[k].item.hash != a.hash
  }

  ghost predicate FreshEnqueues(w: World, actions: seq<Action>)
    decreases |actions|
  {
    actions == [] ||
    (FreshEnqueues(w, actions[..|actions| - 1])
     && FreshEnqueue(Run(w, actions[..|actions| - 1]), actions[|actions| - 1]))
  }

  /** A held item and the row of that hash come from the same enqueue. */
  ghost predicate SameEnqueue(w: World) {
    forall k :: k in w.holders && w.holders[k].item.hash in w.rows ==>
      w.rows[w.holders[k].item.hash].createdAt == w.holders[k].item.createdAt
  }

  lemma SameEnqueueStep(w: World, a: Action)
    requires SameEnqueue(w) && FreshEnqueue(w, a)
    ensures SameEnqueue(Step(w, a))
  {
    var w' := Step(w, a);
    if a.Finish? && Enabled(w, a) {
      assert forall x :: x in w'.rows ==> x in w.rows && w'.rows[x].createdAt == w.rows[x].createdAt;
    }
  }

  /** However late processors write, a run that enqueues no hash still held reschedules on time. */
  lemma {:induction false} FreshEnqueuesAreOnTime(now: nat, actions: seq<Action>)
    requires now <= CLOCK_CAP && FreshEnqueues(Start(now), actions)
    ensures OnTimeWrites(Start(now), actions) && SameEnqueue(Run(Start(now), actions))
  {
    if actions != [] {
      var init, last := actions[..|actions| - 1], actions[|actions| - 1];
      FreshEnqueuesAreOnTime(now, init);
      BackoffHolds(now, init);
      SameEnqueueStep(Run(Start(now), init), last);
    }
  }

  // ----- stale writers -----

  ghost predicate Reachable(now: nat, w: World) {
    exists actions :: Run(Start(now), actions) == w
  }

  lemma ReachableStep(now: nat, w: World, a: Action)
    requires Reachable(now, w)
    ensures Reachable(now, Step(w, a))
  {
    var actions :| Run(Start(now), actions) == w;
    assert (actions + [a])[..|actions|] == actions;
    assert Run(Start(now), actions + [a]) == Step(w, a);
  }

  /** A processor takes a young row, reads the clock and publishes. */
  lemma PicksUp(now: nat, w: World, hash: string, k: nat) returns (v: World)
    requires Reachable(now, w) && hash in w.rows && Eligible(w.rows[hash], w.clock) && k !in w.holders
    requires w.clock - w.rows[hash].createdAt <= MAX_RETRY_DURATION_MS
    ensures Reachable(now, v)
    ensures var item := ItemOf(hash, w.rows[hash]);
            && v.clock == w.clock && v.rows == w.rows[hash := w.rows[hash].(claimedAt := Some(w.clock))]
            && v.holders == w.holders[k := Holder(item, Some(w.clock), true)]
            && v.attempts == w.attempts + [Attempt(item, w.clock)]
  {
    ReachableStep(now, w, Take(hash, k));
    var taken := Step(w, Take(hash, k));
    assert taken.holders[k] == Holder(ItemOf(hash, w.rows[hash]), None, false);
    ReachableStep(now, taken, Begin(k));
    var begun := Step(taken, Begin(k));
    assert begun.holders[k] == Holder(ItemOf(hash, w.rows[hash]), Some(w.clock), false);
    ReachableStep(now, begun, Publish(k));
    v := Step(begun, Publish(k));
  }

  lemma Waits(now: nat, w: World, ms: nat) returns (v: World)
    requires Reachable(now, w) && w.clock + ms <= CLOCK_CAP
    ensures Reachable(now, v) && v == w.(clock := w.clock + ms)
  {
    ReachableStep(now, w, Tick(ms));
    v := Step(w, Tick(ms));
  }

  /** The row has failed `n` times, each time as soon as it was due, and is due again. */
  ghost predicate Due(now: nat, hash: string, n: nat, w: World) {
    && w.clock == now + TotalDelay(n) && w.holders == map[]
    && w.rows == map[hash := Row(now, n, w.clock, None)]
  }

  lemma FailsOnce(now: nat, hash: string, n: nat, w: World) returns (v: World)
    requires LEASE_MS < now <= CLOCK_CAP - 2 * MAX_RETRY_DURATION_MS && n < 23
    requires Reachable(now, w) && Due(now, hash, n, w)
    ensures Reachable(now, v) && Due(now, hash, n + 1, v)
  {
    RetriesWithinCutoff(n);
    RetriesWithinCutoff(n + 1);
    var held := PicksUp(now, w, hash, 0);
    RescheduleIs(held.holders[0].item, w.clock, true, READY);
    var a := Finish(0, true, READY, false, true);
    ReachableStep(now, held, a);
    var later := Step(held, a);
    assert later.rows == map[hash := Row(now, n + 1, w.clock + RetryDelay(n + 1), None)];
    v := Waits(now, later, RetryDelay(n + 1));
  }

  lemma {:induction false} FailsRepeatedly(now: nat, hash: string, n: nat) returns (w: World)
    requires LEASE_MS < now <= CLOCK_CAP - 2 * MAX_RETRY_DURATION_MS && n <= 23
    ensures Reachable(now, w) && Due(now, hash, n, w)
  {
    if n == 0 {
      assert Run(Start(now), []) == Start(now);
      ReachableStep(now, Start(now), Enqueue(hash, now));
      w := Step(Start(now), Enqueue(hash, now));
    } else {
      var before := FailsRepeatedly(now, hash, n - 1);
      w := FailsOnce(now, hash, n - 1, before);
    }
  }

  /** Processor 0 is publishing the item of a row that is gone. */
  ghost predicate Stranded(w: World, item: Item, startedAt: nat) {
    w.rows == map[] && w.holders == map[0 := Holder(item, Some(startedAt), true)]
  }

  /** The item that processor 0 holds in the runs below: `n` failures, publishing since it was due. */
  function HeldItem(now: nat, hash: string, n: nat): Item {
    Item(hash, now, n, now + TotalDelay(n))
  }

  /** Its lease runs out; processor 1 takes the row, publishes and deletes it. */
  lemma Overtaken(now: nat, hash: string, n: nat) returns (w: World)
    requires LEASE_MS < now <= CLOCK_CAP - 2 * MAX_RETRY_DURATION_MS && n <= 23
    ensures Reachable(now, w) && Stranded(w, HeldItem(now, hash, n), now + TotalDelay(n))
    ensures w.clock == now + TotalDelay(n) + LEASE_MS + 1
  {
    var due := FailsRepeatedly(now, hash, n);
    TotalSmall(n);
    var held := PicksUp(now, due, hash, 0);
    var waited := Waits(now, held, LEASE_MS + 1);
    var both := PicksUp(now, waited, hash, 1);
    var a := Finish(1, true, READY, true, true);
    ReachableStep(now, both, a);
    w := Step(both, a);
  }

  /** Its lease runs out; 14 days after the row was created processor 1 takes it and removes it. */
  lemma TimedOut(now: nat, hash: string, n: nat) returns (w: World)
    requires LEASE_MS < now <= CLOCK_CAP - 2 * MAX_RETRY_DURATION_MS && n <= 23
    ensures Reachable(now, w) && Stranded(w, HeldItem(now, hash, n), now + TotalDelay(n))
    ensures w.clock == now + MAX_RETRY_DURATION_MS + 1
  {
    var due := FailsRepeatedly(now, hash, n);
    TotalSmall(n);
    var held := PicksUp(now, due, hash, 0);
    var waited := Waits(now, held, MAX_RETRY_DURATION_MS + 1 - TotalDelay(n));
    w := Drops(now, waited, hash, 1);
  }

  /** A processor takes an old row and removes it. */
  lemma Drops(now: nat, w: World, hash: string, k: nat) returns (v: World)
    requires Reachable(now, w) && hash in w.rows && Eligible(w.rows[hash], w.clock) && k !in w.holders
    requires w.clock - w.rows[hash].createdAt > MAX_RETRY_DURATION_MS
    ensures Reachable(now, v) && v.clock == w.clock && v.rows == w.rows - {hash} && v.holders == w.holders
  {
    ReachableStep(now, w, Take(hash, k));
    var taken := Step(w, Take(hash, k));
    ReachableStep(now, taken, Begin(k));
    var begun := Step(taken, Begin(k));
    assert begun.holders[k] == Holder(ItemOf(hash, w.rows[hash]), Some(w.clock), false);
    var a := Finish(k, true, READY, false, true);
    ReachableStep(now, begun, a);
    v := Step(begun, a);
    assert v.rows == w.rows - {hash};
  }

  /** A handler enqueues the hash anew; then processor 0 fails and reschedules the row that is not its own. */
  lemma WritesLate(now: nat, w: World, item: Item, startedAt: nat) returns (v: World)
    requires Reachable(now, w) && Stranded(w, item, startedAt) && item.retryCount <= 23
    requires Spaced(item.createdAt, item.retryCount, item.nextRetryAt) && item.nextRetryAt <= startedAt <= CLOCK_CAP
    requires startedAt - item.createdAt <= MAX_RETRY_DURATION_MS
    ensures Reachable(now, v) && v.clock == w.clock && v.holders == map[]
    ensures v.rows == map[item.hash := Row(w.clock, item.retryCount + 1,
                                           startedAt + RetryDelay(item.retryCount + 1), None)]
  {
    ReachableStep(now, w, Enqueue(item.hash, w.clock));
    var again := Step(w, Enqueue(item.hash, w.clock));
    assert again.rows == map[item.hash := Row(w.clock, 0, w.clock, None)];
    RescheduleIs(item, startedAt, true, READY);
    var a := Finish(0, true, READY, false, true);
    ReachableStep(now, again, a);
    v := Step(again, a);
  }

  /**
   * A write that is not on time, for every hash and retry count. The row is
   * enqueued anew by a handle_invoice_paid that read the invoice as unpaid, like
   * the one that enqueued it first, and is then due before its delays are over.
   */
  lemma StaleWriterBreaksSpacing(now: nat, hash: string, n: nat) returns (w: World)
    requires LEASE_MS < now <= CLOCK_CAP - 2 * MAX_RETRY_DURATION_MS && n <= 23
    ensures Reachable(now, w) && hash in w.rows && w.rows[hash].retryCount == n + 1
    ensures w.rows[hash].nextRetryAt < w.rows[hash].createdAt + TotalDelay(n + 1)
  {
    RetriesWithinCutoff(n);
    var gone := Overtaken(now, hash, n);
    w := WritesLate(now, gone, HeldItem(now, hash, n), now + TotalDelay(n));
  }

  /** The row that times out with `n` failures is replaced by one that starts with one more. */
  lemma ReplacedByOlder(now: nat, hash: string, n: nat) returns (w: World)
    requires LEASE_MS < now <= CLOCK_CAP - 2 * MAX_RETRY_DURATION_MS && n <= 23
    ensures Reachable(now, w) && w.clock == now + MAX_RETRY_DURATION_MS + 1 && w.holders == map[]
    ensures w.rows == map[hash := Row(w.clock, n + 1, now + TotalDelay(n + 1), None)]
  {
    RetriesWithinCutoff(n);
    var gone := TimedOut(now, hash, n);
    w := WritesLate(now, gone, HeldItem(now, hash, n), now + TotalDelay(n));
    assert TotalDelay(n + 1) == TotalDelay(n) + RetryDelay(n + 1);
  }

  lemma PublishesAgain(now: nat, hash: string, n: nat) returns (w: World)
    requires LEASE_MS < now <= CLOCK_CAP - 2 * MAX_RETRY_DURATION_MS && n == 24
    ensures Reachable(now, w) && w.attempts != [] && w.attempts[|w.attempts| - 1].item.retryCount == n
  {
    RetriesWithinCutoff(n);
    TotalSmall(n);
    var late := ReplacedByOlder(now, hash, n - 1);
    var due := Waits(now, late, now + TotalDelay(n) - late.clock);
    w := PicksUp(now, due, hash, 2);
  }

  /**
   * A late write also breaks the bound on publishes: processor 0 holds an item
   * with 23 failures until the row times out and the hash is enqueued anew; the
   * new row is published with 24 retries.
   */
  lemma StaleWriterBreaksBound(now: nat, hash: string) returns (w: World)
    requires LEASE_MS < now <= CLOCK_CAP - 2 * MAX_RETRY_DURATION_MS
    ensures Reachable(now, w) && exists i :: 0 <= i < |w.attempts| && w.attempts[i].item.retryCount > 23
  {
    w := PublishesAgain(now, hash, 24);
  }

  // ----- lease exclusion -----

  /** A processor's write for the hash: a deletion or a reschedule. */
  ghost predicate Releases(w: World, a: Action, hash: string) {
    a.Finish? && Enabled(w, a) && w.holders[a.holder].item.hash == hash && a.stored && !DecisionOf(w, a).Leave?
  }

  ghost predicate NoRelease(w: World, actions: seq<Action>, hash: string)
    decreases |actions|
  {
    actions == [] ||
    (NoRelease(w, actions[..|actions| - 1], hash)
     && !Releases(Run(w, actions[..|actions| - 1]), actions[|actions| - 1], hash))
  }

  ghost predicate ClaimedSince(w: World, hash: string, since: nat) {
    hash in w.rows && w.rows[hash].claimedAt.Some? && since <= w.rows[hash].claimedAt.value && since <= w.clock
  }

  lemma {:induction false} ClaimPersists(w: World, actions: seq<Action>, hash: string, since: nat)
    requires ClaimedSince(w, hash, since) && NoRelease(w, actions, hash)
    ensures ClaimedSince(Run(w, actions), hash, since)
  {
    if actions != [] {
      ClaimPersists(w, actions[..|actions| - 1], hash, since);
    }
  }

  /** A row taken once is not taken again for five minutes, unless its holder's write came in between. */
  lemma LeaseExcludes(w: World, first: Action, between: seq<Action>, second: Action)
    requires first.Take? && Enabled(w, first) && second.Take? && second.hash == first.hash
    requires NoRelease(Step(w, first), between, first.hash)
    requires Enabled(Run(Step(w, first), between), second)
    ensures Run(Step(w, first), between).clock > w.clock + LEASE_MS
  {
    ClaimPersists(Step(w, first), between, first.hash, w.clock);
  }
}
