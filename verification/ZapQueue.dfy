/**
 * The pending zap receipt queue: its rows and statements
 * (src/postgresql/repository.rs), what the processor does with a taken row and
 * the drain loop (src/zap.rs). Times are milliseconds.
 */
module ZapQueue {
  import opened Text
  import opened Limits
  import opened Backoff

  const BATCH_LIMIT := 4

  datatype Row = Row(createdAt: nat, retryCount: nat, nextRetryAt: nat, claimedAt: Option<nat>)

  /** What a take returns: the row's columns except the claim. */
  datatype Item = Item(hash: string, createdAt: nat, retryCount: nat, nextRetryAt: nat)

  type Rows = map<string, Row>

  function SaturatingAdd(a: nat, b: nat): nat {
    if a + b <= I64_MAX then a + b else I64_MAX
  }

  /** The WHERE clause of the take; an absent claim coalesces to 0. */
  predicate Eligible(r: Row, now: nat) {
    r.nextRetryAt <= now && (if r.claimedAt.Some? then r.claimedAt.value else 0) < now - LEASE_MS
  }

  function ItemOf(hash: string, r: Row): Item {
    Item(hash, r.createdAt, r.retryCount, r.nextRetryAt)
  }

  // ----- processing one item -----

  datatype Lookup =
    | LookupFailed
    | Looked(zapHasEvent: Option<bool>, invoiceHasPreimage: Option<bool>)

  datatype Decision = Leave | Remove | Reschedule(retryCount: nat, nextRetryAt: nat)

  /** The processor has a zap without receipt and the preimage of its invoice, and is not past the cutoff. */
  predicate Publishes(hasKeys: bool, item: Item, now: nat, lookup: Lookup) {
    && hasKeys && now - item.createdAt <= MAX_RETRY_DURATION_MS
    && lookup.Looked? && lookup.zapHasEvent == Some(false) && lookup.invoiceHasPreimage == Some(true)
  }

  /** What process_pending_zap_receipt writes, from the answers it gets. */
  function Decide(hasKeys: bool, item: Item, now: nat, lookup: Lookup, published: bool): Decision {
    if Publishes(hasKeys, item, now, lookup) then
      if published then Remove
      else
        var retries := if item.retryCount < I32_MAX then item.retryCount + 1 else I32_MAX;
        Reschedule(retries, SaturatingAdd(now, RetryDelay(retries)))
    else if !hasKeys || now - item.createdAt > MAX_RETRY_DURATION_MS then Remove
    else if lookup.LookupFailed? then Leave
    else if lookup.zapHasEvent == Some(false) && lookup.invoiceHasPreimage == Some(false) then Leave
    else Remove
  }

  /**
   * When a taken row is kept for a later take, removed, and rescheduled: it is
   * kept while storage fails or the invoice of its zap is unpaid, rescheduled
   * when a publish that was due failed, and removed otherwise.
   */
  lemma DecideExactly(hasKeys: bool, item: Item, now: nat, lookup: Lookup, published: bool)
    ensures var d, answers := Decide(hasKeys, item, now, lookup, published), Answers(hasKeys, item, now, lookup);
            && (d.Leave? <==> answers == KeepWaiting)
            && (d.Reschedule? <==> answers == TryPublish && !published)
            && (d.Remove? <==> answers == GiveUp || (answers == TryPublish && published))
    ensures var d := Decide(hasKeys, item, now, lookup, published);
            d.Reschedule? && item.retryCount < I32_MAX && now + RetryDelay(item.retryCount + 1) <= I64_MAX ==>
              d.retryCount == item.retryCount + 1 && d.nextRetryAt == now + RetryDelay(item.retryCount + 1)
  {
  }

  datatype Verdict = KeepWaiting | TryPublish | GiveUp

  /** What the answers a processor gets call for. */
  function Answers(hasKeys: bool, item: Item, now: nat, lookup: Lookup): Verdict {
    if !hasKeys || now > item.createdAt + 14 * 24 * 60 * 60 * 1000 then GiveUp
    else match lookup {
           case LookupFailed => KeepWaiting
           case Looked(Some(false), Some(hasPreimage)) => if hasPreimage then TryPublish else KeepWaiting
           case Looked(_, _) => GiveUp
         }
  }

  /** A row is due again once its time has come and no claim of the last five minutes is on it. */
  lemma EligibleExactly(r: Row, now: nat)
    ensures Eligible(r, now) <==>
            r.nextRetryAt <= now && 300_000 < now && forall c :: r.claimedAt == Some(c) ==> c + 300_000 < now
  {
    if r.claimedAt.Some? { assert r.claimedAt == Some(r.claimedAt.value); }
  }

  /** The effect of a decision on the table; a row that is gone stays gone. */
  function Apply(rows: Rows, hash: string, d: Decision): Rows {
    match d {
      case Leave => rows
      case Remove => rows - {hash}
      case Reschedule(n, at) =>
        if hash in rows then rows[hash := rows[hash].(retryCount := n, nextRetryAt := at, claimedAt := None)] else rows
    }
  }

  // ----- the queue and its processor -----

  ghost predicate Claims(rows: Rows, rows': Rows, hashes: set<string>, now: nat) {
    && hashes <= rows.Keys && rows'.Keys == rows.Keys
    && forall h :: h in rows ==> rows'[h] == if h in hashes then rows[h].(claimedAt := Some(now)) else rows[h]
  }

  ghost predicate Among(items: seq<Item>, hash: string) {
    exists i :: 0 <= i < |items| && items[i].hash == hash
  }

  ghost function Hashes(items: seq<Item>): seq<string> {
    seq(|items|, i requires 0 <= i < |items| => items[i].hash)
  }

  /** Distinct eligible rows as they stand. */
  ghost predicate AllEligible(rows: Rows, now: nat, items: seq<Item>) {
    && (forall i, j :: 0 <= i < j < |items| ==> items[i].hash != items[j].hash)
    && (forall i :: 0 <= i < |items| ==>
          items[i].hash in rows && Eligible(rows[items[i].hash], now)
            && items[i] == ItemOf(items[i].hash, rows[items[i].hash]))
  }

  /** The first `limit` eligible rows by next_retry_at; below the limit, all of them. */
  ghost predicate FirstEligible(rows: Rows, limit: nat, now: nat, items: seq<Item>) {
    && |items| <= limit && AllEligible(rows, now, items)
    && (forall h, i :: h in rows && Eligible(rows[h], now) && !Among(items, h) && 0 <= i < |items| ==>
          items[i].nextRetryAt <= rows[h].nextRetryAt)
    && (|items| < limit ==> forall h :: h in rows && Eligible(rows[h], now) ==> Among(items, h))
  }

  ghost predicate Selecting(rows: Rows, limit: nat, now: nat, items: seq<Item>, candidates: set<string>) {
    && |items| <= limit && AllEligible(rows, now, items) && candidates <= rows.Keys
    && (forall h :: h in rows && Eligible(rows[h], now) ==> h in candidates || Among(items, h))
    && (forall h :: h in candidates ==> Eligible(rows[h], now) && !Among(items, h))
    && (forall h, i :: h in candidates && 0 <= i < |items| ==> items[i].nextRetryAt <= rows[h].nextRetryAt)
  }

  lemma SelectOne(rows: Rows, limit: nat, now: nat, items: seq<Item>, candidates: set<string>, h: string)
    requires Selecting(rows, limit, now, items, candidates) && |items| < limit && h in candidates
    requires forall g :: g in candidates ==> rows[h].nextRetryAt <= rows[g].nextRetryAt
    ensures Selecting(rows, limit, now, items + [ItemOf(h, rows[h])], candidates - {h})
  {
    var items' := items + [ItemOf(h, rows[h])];
    assert items'[|items|].hash == h;
    forall g ensures Among(items', g) <==> Among(items, g) || g == h {
      if Among(items, g) {
        var i :| 0 <= i < |items| && items[i].hash == g;
        assert items'[i].hash == g;
      }
    }
    assert forall i :: 0 <= i < |items| ==> items'[i] == items[i] && items[i].hash != h;
  }

  class ZapReceiptQueue {
    var rows: Rows
    var clock: nat

    constructor (now: nat)
      ensures rows == map[] && clock == now
    {
      rows, clock := map[], now;
    }

    /** INSERT .. ON CONFLICT DO NOTHING */
    method InsertPending(hash: string, now: nat)
      modifies this`rows
      ensures rows == if hash in old(rows) then old(rows) else old(rows)[hash := Row(now, 0, now, None)]
    {
      if hash !in rows { rows := rows[hash := Row(now, 0, now, None)]; }
    }

    /** SELECT .. ORDER BY next_retry_at LIMIT, with no competing locks. */
    static method SelectPending(rows: Rows, limit: nat, now: nat) returns (items: seq<Item>)
      ensures FirstEligible(rows, limit, now, items)
    {
      var candidates := set h | h in rows && Eligible(rows[h], now);
      items := [];
      while |items| < limit && candidates != {}
        invariant Selecting(rows, limit, now, items, candidates)
        decreases |candidates|
      {
        ghost var due := map h | h in rows :: rows[h].nextRetryAt;
        ghost var least := FindLeast(candidates, due);
        assert forall g :: g in candidates ==> due[least] <= due[g];
        assert forall g :: g in candidates ==> rows[least].nextRetryAt <= rows[g].nextRetryAt;
        var h :| h in candidates && forall g :: g in candidates ==> rows[h].nextRetryAt <= rows[g].nextRetryAt;
        SelectOne(rows, limit, now, items, candidates, h);
        items, candidates := items + [ItemOf(h, rows[h])], candidates - {h};
      }
    }

    /** UPDATE .. SET claimed_at of the selected rows. */
    method TakePending(limit: nat, now: nat) returns (items: seq<Item>)
      modifies this`rows
      ensures FirstEligible(old(rows), limit, now, items)
      ensures Claims(old(rows), rows, set i | 0 <= i < |items| :: items[i].hash, now)
    {
      items := SelectPending(rows, limit, now);
      var taken := set i | 0 <= i < |items| :: items[i].hash;
      rows := map h | h in rows :: if h in taken then rows[h].(claimedAt := Some(now)) else rows[h];
    }

    method UpdateRetry(hash: string, retryCount: nat, nextRetryAt: nat)
      modifies this`rows
      ensures rows == Apply(old(rows), hash, Reschedule(retryCount, nextRetryAt))
    {
      if hash in rows {
        rows := rows[hash := rows[hash].(retryCount := retryCount, nextRetryAt := nextRetryAt, claimedAt := None)];
      }
    }

    method DeletePending(hash: string)
      modifies this`rows
      ensures rows == Apply(old(rows), hash, Remove)
    {
      rows := rows - {hash};
    }

    /** process_pending_zap_receipt; `stored` is false when the final statement fails in storage. */
    method ProcessOne(hasKeys: bool, item: Item, now: nat, lookup: Lookup, published: bool, stored: bool)
      modifies this`rows
      ensures rows == if stored then Apply(old(rows), item.hash, Decide(hasKeys, item, now, lookup, published))
              else old(rows)
    {
      if !hasKeys || now - item.createdAt > MAX_RETRY_DURATION_MS {
        if stored { DeletePending(item.hash); }
        return;
      }
      if lookup.LookupFailed? { return; }
      if lookup.zapHasEvent != Some(false) || lookup.invoiceHasPreimage.None? {
        if stored { DeletePending(item.hash); }
        return;
      }
      if lookup.invoiceHasPreimage == Some(false) { return; }
      assert lookup.invoiceHasPreimage.value && !lookup.zapHasEvent.value;
      assert Publishes(hasKeys, item, now, lookup);
      if published {
        if stored { DeletePending(item.hash); }
      } else {
        var retries := if item.retryCount < I32_MAX then item.retryCount + 1 else I32_MAX;
        if stored { UpdateRetry(item.hash, retries, SaturatingAdd(now, RetryDelay(retries))); }
      }
    }

    method ReadClock(deadline: nat) returns (now: nat)
      requires clock < deadline
      modifies this`clock
      ensures old(clock) <= now == clock < deadline
    {
      // Time passes by an arbitrary amount, short of the deadline.
      now :| clock <= now < deadline;
      clock := now;
    }

    /** The for loop over one taken batch; the answers of storage and relays are arbitrary. */
    method ProcessBatch(hasKeys: bool, items: seq<Item>, deadline: nat)
      requires clock < deadline <= clock + MIN_RETRY_DELAY_MS && deadline <= I64_MAX
      requires forall k :: 0 <= k < |items| && items[k].hash in rows ==> Quiet(rows[items[k].hash], deadline)
      modifies this
      ensures old(clock) <= clock < deadline
      ensures rows.Keys <= old(rows).Keys
      ensures forall h :: h in old(rows) && !Among(items, h) ==> h in rows && rows[h] == old(rows)[h]
      ensures forall h :: h in rows ==> rows[h] == old(rows)[h] || (Among(items, h) && Quiet(rows[h], deadline))
    {
      for k := 0 to |items|
        invariant old(clock) <= clock < deadline
        invariant rows.Keys <= old(rows).Keys
        invariant forall h :: h in old(rows) && !Among(items, h) ==> h in rows && rows[h] == old(rows)[h]
        invariant forall h :: h in rows ==> rows[h] == old(rows)[h] || (Among(items, h) && Quiet(rows[h], deadline))
      {
        var at := ReadClock(deadline);
        var lookup: Lookup := *;
        var published: bool, stored: bool := *, *;
        assert Among(items, items[k].hash);
        StaysQuiet(rows, items[k], at, deadline, Decide(hasKeys, items[k], at, lookup, published));
        ProcessOne(hasKeys, items[k], at, lookup, published, stored);
      }
    }

    /** One turn of the drain loop: a batch is taken and processed. */
    method DrainBatch(hasKeys: bool, deadline: nat, ghost processed: set<string>)
      returns (count: nat, ghost batch: seq<string>, ghost at: nat)
      requires clock < deadline <= clock + MIN_RETRY_DELAY_MS && deadline <= I64_MAX
      requires forall h :: h in rows && h in processed ==> Quiet(rows[h], deadline)
      modifies this
      ensures old(clock) <= at <= clock < deadline
      ensures count == |batch| && Fresh(batch, old(rows), processed)
      ensures rows.Keys <= old(rows).Keys
      ensures forall h :: h in old(rows) && h !in batch ==> h in rows && rows[h] == old(rows)[h]
      ensures forall h :: h in rows && h in batch ==> Quiet(rows[h], deadline)
      ensures count < BATCH_LIMIT ==> forall h :: h in rows ==> !Eligible(rows[h], at)
    {
      var now := ReadClock(deadline);
      ghost var before := rows;
      forall h | h in rows && h in processed ensures !Eligible(rows[h], now) {
        QuietIsIneligible(rows[h], deadline, now);
      }
      var items := TakePending(BATCH_LIMIT, now);
      count, batch, at := |items|, Hashes(items), now;
      forall h ensures h in batch <==> Among(items, h) {
        if Among(items, h) {
          var i :| 0 <= i < |items| && items[i].hash == h;
          assert batch[i] == h;
        }
      }
      assert forall h :: h in batch ==> Eligible(before[h], now);
      assert forall h :: h in batch ==> rows[h] == before[h].(claimedAt := Some(now));
      ProcessBatch(hasKeys, items, deadline);
    }

    /**
     * process_pending_zap_receipts: batches are taken and processed until one
     * comes back short. With no concurrent enqueue and less than the minimum
     * retry delay on the clock the loop ends, takes no row twice, touches only
     * the rows it takes, and leaves none that was eligible at its last take.
     */
    method ProcessPending(hasKeys: bool) returns (ghost taken: seq<string>, ghost lastTake: nat, ghost failed: bool)
      requires clock + MIN_RETRY_DELAY_MS <= I64_MAX
      modifies this
      ensures clock < old(clock) + MIN_RETRY_DELAY_MS
      ensures rows.Keys <= old(rows).Keys
      ensures Distinct(taken)
      ensures forall h :: h in old(rows) && h !in taken ==> h in rows && rows[h] == old(rows)[h]
      ensures !failed ==> forall h :: h in rows ==> !Eligible(rows[h], lastTake)
    {
      var deadline := clock + MIN_RETRY_DELAY_MS;
      ghost var start := clock;
      ghost var processed: set<string> := {};
      taken, lastTake, failed := [], clock, false;
      while true
        invariant start <= clock < deadline == start + MIN_RETRY_DELAY_MS
        invariant rows.Keys <= old(rows).Keys && processed <= old(rows).Keys
        invariant processed == set h | h in taken
        invariant Distinct(taken)
        invariant forall h :: h in old(rows) && h !in processed ==> h in rows && rows[h] == old(rows)[h]
        invariant forall h :: h in rows && h in processed ==> Quiet(rows[h], deadline)
        decreases old(rows).Keys - processed
      {
        var takeFails: bool := *;
        if takeFails { failed := true; return; }
        ghost var batch;
        var count;
        count, batch, lastTake := DrainBatch(hasKeys, deadline, processed);
        assert count > 0 ==> batch[0] in batch;
        DistinctAppend(taken, batch);
        taken, processed := taken + batch, processed + (set h | h in batch);
        if count < BATCH_LIMIT { return; }
      }
    }
  }

  /** Distinct hashes of the table that were not handled before. */
  ghost predicate Fresh(batch: seq<string>, rows: Rows, processed: set<string>) {
    Distinct(batch) && forall h :: h in batch ==> h in rows && h !in processed
  }

  ghost predicate Distinct(s: seq<string>) {
    forall i, j :: 0 <= i < j < |s| ==> s[i] != s[j]
  }

  lemma DistinctAppend(s: seq<string>, t: seq<string>)
    requires Distinct(s) && Distinct(t) && forall h :: h in t ==> h !in s
    ensures Distinct(s + t)
  {
    forall i, j | 0 <= i < j < |s + t| ensures (s + t)[i] != (s + t)[j] {
      if i < |s| <= j {
        assert (s + t)[j] in t && (s + t)[i] in s;
      }
    }
  }

  /** Not eligible at any time before `deadline`. */
  ghost predicate Quiet(r: Row, deadline: nat) {
    r.nextRetryAt >= deadline || (r.claimedAt.Some? && r.claimedAt.value + LEASE_MS >= deadline)
  }

  lemma QuietIsIneligible(r: Row, deadline: nat, now: nat)
    requires Quiet(r, deadline) && now < deadline
    ensures !Eligible(r, now)
  {
  }

  /** Whatever becomes of a taken row, it is not eligible again before the deadline. */
  lemma StaysQuiet(rows: Rows, item: Item, now: nat, deadline: nat, d: Decision)
    requires now < deadline <= now + MIN_RETRY_DELAY_MS && deadline <= I64_MAX
    requires item.hash in rows ==> Quiet(rows[item.hash], deadline)
    requires d.Reschedule? ==> d.retryCount >= 1 && d.nextRetryAt == SaturatingAdd(now, RetryDelay(d.retryCount))
    ensures item.hash in Apply(rows, item.hash, d) ==> Quiet(Apply(rows, item.hash, d)[item.hash], deadline)
  {
    if d.Reschedule? { DelayAtLeast45s(d.retryCount); }
  }
}
