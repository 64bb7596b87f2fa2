/**
 * Taking webhook deliveries: one row per domain and call, under the same
 * five-minute lease as the receipt queue (the webhook half of
 * src/postgresql/repository.rs). Times are milliseconds.
 */
module WebhookQueue {
  import opened Text
  import opened Limits

  datatype Row = Row(domain: string, retryCount: nat, nextRetryAt: nat, claimedAt: Option<nat>,
                     succeededAt: Option<nat>)

  type Rows = map<nat, Row>

  function ClaimTime(r: Row): nat {
    if r.claimedAt.Some? then r.claimedAt.value else 0
  }

  predicate Eligible(r: Row, now: nat) {
    r.nextRetryAt <= now && r.succeededAt.None? && ClaimTime(r) < now - LEASE_MS
  }

  /** An undelivered row is due once its time has come and no claim of the last five minutes is on it. */
  lemma EligibleExactly(r: Row, now: nat)
    ensures Eligible(r, now) <==>
            && r.succeededAt.None? && r.nextRetryAt <= now && 300_000 < now
            && forall c :: r.claimedAt == Some(c) ==> c + 300_000 < now
  {
    if r.claimedAt.Some? { assert r.claimedAt == Some(r.claimedAt.value); }
  }

  /** `id` is an eligible row of its domain with the least next_retry_at. */
  ghost predicate Earliest(rows: Rows, now: nat, id: nat) {
    && id in rows && Eligible(rows[id], now)
    && forall x :: x in rows && rows[x].domain == rows[id].domain && Eligible(rows[x], now) ==>
       rows[id].nextRetryAt <= rows[x].nextRetryAt
  }

  ghost predicate Waits(rows: Rows, now: nat, domain: string) {
    exists x :: x in rows && Eligible(rows[x], now) && rows[x].domain == domain
  }

  ghost predicate Served(rows: Rows, ids: set<nat>, domain: string) {
    exists id :: id in ids && id in rows && rows[id].domain == domain
  }

  /** A possible result of the take: ties on next_retry_at may go either way. */
  ghost predicate IsTake(rows: Rows, now: nat, ids: set<nat>) {
    && (forall id :: id in ids ==> Earliest(rows, now, id))
    && (forall x, y :: x in ids && y in ids && rows[x].domain == rows[y].domain ==> x == y)
    && (forall x :: x in rows && Eligible(rows[x], now) ==> Served(rows, ids, rows[x].domain))
  }

  /** Between two picks: the domains still to be served. */
  ghost predicate Picking(rows: Rows, now: nat, ids: set<nat>, domains: set<string>) {
    && (forall id :: id in ids ==> Earliest(rows, now, id) && rows[id].domain !in domains)
    && (forall x, y :: x in ids && y in ids && rows[x].domain == rows[y].domain ==> x == y)
    && (forall d :: d in domains ==> Waits(rows, now, d))
    && (forall x :: x in rows && Eligible(rows[x], now) ==>
        rows[x].domain in domains || Served(rows, ids, rows[x].domain))
  }

  lemma PickOne(rows: Rows, now: nat, ids: set<nat>, domains: set<string>, id: nat)
    requires Picking(rows, now, ids, domains) && Earliest(rows, now, id) && rows[id].domain in domains
    ensures Picking(rows, now, ids + {id}, domains - {rows[id].domain})
  {
    var ids', domains' := ids + {id}, domains - {rows[id].domain};
    forall x | x in rows && Eligible(rows[x], now)
      ensures rows[x].domain in domains' || Served(rows, ids', rows[x].domain)
    {
      if Served(rows, ids, rows[x].domain) {
        var y :| y in ids && y in rows && rows[y].domain == rows[x].domain;
        assert y in ids';
      } else if rows[x].domain == rows[id].domain {
        assert id in ids';
      }
    }
  }

  function Claimed(rows: Rows, ids: set<nat>, now: nat): Rows {
    map x | x in rows :: if x in ids then rows[x].(claimedAt := Some(now)) else rows[x]
  }

  class DeliveryQueue {
    var rows: Rows

    constructor ()
      ensures rows == map[]
    {
      rows := map[];
    }

    /** The LATERAL subquery for one domain. */
    static method PickEarliest(rows: Rows, now: nat, domain: string) returns (id: nat)
      requires Waits(rows, now, domain)
      ensures Earliest(rows, now, id) && rows[id].domain == domain
    {
      var waiting := set x | x in rows && rows[x].domain == domain && Eligible(rows[x], now);
      assert waiting != {} by {
        var x :| x in rows && Eligible(rows[x], now) && rows[x].domain == domain;
        assert x in waiting;
      }
      ghost var due := map x | x in rows :: rows[x].nextRetryAt;
      ghost var least := FindLeast(waiting, due);
      assert forall x :: x in waiting ==> due[least] <= due[x];
      assert forall x :: x in waiting ==> rows[least].nextRetryAt <= rows[x].nextRetryAt;
      id :| id in waiting && forall x :: x in waiting ==> rows[id].nextRetryAt <= rows[x].nextRetryAt;
      forall x | x in rows && rows[x].domain == rows[id].domain && Eligible(rows[x], now)
        ensures rows[id].nextRetryAt <= rows[x].nextRetryAt
      {
        assert x in waiting;
      }
    }

    /** For each domain with an eligible row, the LATERAL subquery picks one. */
    static method PickAll(rows: Rows, now: nat) returns (ids: set<nat>)
      ensures IsTake(rows, now, ids)
    {
      var domains := set x | x in rows && Eligible(rows[x], now) :: rows[x].domain;
      ids := {};
      assert Picking(rows, now, ids, domains) by {
        forall d | d in domains ensures Waits(rows, now, d) {
          var x :| x in rows && Eligible(rows[x], now) && rows[x].domain == d;
        }
      }
      while domains != {}
        invariant Picking(rows, now, ids, domains)
        decreases |domains|
      {
        var d :| d in domains;
        var id := PickEarliest(rows, now, d);
        PickOne(rows, now, ids, domains, id);
        ids, domains := ids + {id}, domains - {d};
      }
    }

    /** All picks are claimed together. */
    method TakePending(now: nat) returns (ids: set<nat>)
      modifies this
      ensures IsTake(old(rows), now, ids)
      ensures rows == Claimed(old(rows), ids, now)
    {
      ids := PickAll(rows, now);
      rows := map x | x in rows :: if x in ids then rows[x].(claimedAt := Some(now)) else rows[x];
    }
  }

  // ----- no starvation -----

  /**
   * Pending rows of the same domain due no later than `r` that no take has
   * claimed since `start`; `r` is one of them.
   */
  ghost function Ahead(rows: Rows, r: nat, start: nat): set<nat>
    requires r in rows
  {
    set x | x in rows && rows[x].domain == rows[r].domain && rows[x].succeededAt.None?
            && rows[x].nextRetryAt <= rows[r].nextRetryAt && ClaimTime(rows[x]) < start
  }

  /** Other statements may run between two takes, as long as they leave `r` alone and put nothing ahead of it. */
  ghost predicate Calm(rows: Rows, rows': Rows, r: nat, start: nat) {
    r in rows && r in rows' && rows'[r] == rows[r] && Ahead(rows', r, start) <= Ahead(rows, r, start)
  }

  datatype Round = Round(rows: Rows, now: nat, ids: set<nat>)

  ghost predicate Rounds(rounds: seq<Round>, r: nat, start: nat) {
    && (forall k :: 0 <= k < |rounds| ==>
          start <= rounds[k].now <= start + LEASE_MS && IsTake(rounds[k].rows, rounds[k].now, rounds[k].ids))
    && (forall k :: 0 <= k < |rounds| - 1 ==>
          Calm(Claimed(rounds[k].rows, rounds[k].ids, rounds[k].now), rounds[k + 1].rows, r, start))
  }

  /** A take that passes `r` over claims a row that was ahead of it. */
  lemma PassedOver(round: Round, r: nat, start: nat)
    requires start <= round.now <= start + LEASE_MS && IsTake(round.rows, round.now, round.ids)
    requires r in round.rows && Eligible(round.rows[r], round.now) && r !in round.ids
    ensures var after := Claimed(round.rows, round.ids, round.now);
            r in after && after[r] == round.rows[r] && Ahead(after, r, start) < Ahead(round.rows, r, start)
  {
    var after := Claimed(round.rows, round.ids, round.now);
    var id :| id in round.ids && round.rows[id].domain == round.rows[r].domain;
    assert Earliest(round.rows, round.now, id);
    assert id in Ahead(round.rows, r, start) && id !in Ahead(after, r, start);
  }

  /**
   * Within one lease period, an eligible delivery is taken by one of the next n
   * takes, n being the number of pending rows of its domain due no later: a
   * busy domain delays its own rows only, and only by those ahead.
   */
  lemma {:induction false} NoStarvation(rounds: seq<Round>, r: nat, start: nat)
    requires rounds != [] && Rounds(rounds, r, start)
    requires r in rounds[0].rows && Eligible(rounds[0].rows[r], start)
    requires |Ahead(rounds[0].rows, r, start)| <= |rounds|
    ensures exists k :: 0 <= k < |rounds| && r in rounds[k].ids
    decreases |rounds|
  {
    var first := rounds[0];
    assert Eligible(first.rows[r], first.now);
    if r !in first.ids {
      PassedOver(first, r, start);
      var after := Claimed(first.rows, first.ids, first.now);
      ProperSubsetSize(Ahead(after, r, start), Ahead(first.rows, r, start));
      assert r in Ahead(after, r, start);
      var rest := rounds[1..];
      SubsetSize({r}, Ahead(after, r, start));
      assert rest[0] == rounds[1];
      SubsetSize(Ahead(rest[0].rows, r, start), Ahead(after, r, start));
      assert forall k :: 0 <= k < |rest| ==> rest[k] == rounds[k + 1];
      NoStarvation(rest, r, start);
      var k :| 0 <= k < |rest| && r in rest[k].ids;
      assert r in rounds[k + 1].ids;
    }
  }

  // ----- leases over runs -----

  datatype World = World(clock: nat, rows: Rows)

  datatype Action =
    | Tick(ms: nat)
    | Insert(id: nat, domain: string)
    | Take(ids: set<nat>)
    | Succeed(id: nat)
    | Fail(id: nat, retryCount: nat, nextRetryAt: nat)
    | Unclaim(ids: set<nat>)
    | Park(id: nat)
    | Delete(ids: set<nat>)

  ghost predicate Enabled(w: World, a: Action) {
    match a {
      case Insert(id, _) => id !in w.rows
      case Take(ids) => IsTake(w.rows, w.clock, ids)
      case Succeed(id) => id in w.rows
      case Fail(id, _, _) => id in w.rows
      case Park(id) => id in w.rows
      case _ => true
    }
  }

  /** The statements of the delivery processor; any of them may come from a processor whose lease has run out. */
  ghost function Step(w: World, a: Action): World {
    if !Enabled(w, a) then w
    else match a {
      case Tick(ms) => w.(clock := w.clock + ms)
      case Insert(id, d) => w.(rows := w.rows[id := Row(d, 0, w.clock, None, None)])
      case Take(ids) => w.(rows := Claimed(w.rows, ids, w.clock))
      case Succeed(id) => w.(rows := w.rows[id := w.rows[id].(succeededAt := Some(w.clock))])
      case Fail(id, n, at) =>
        var row := w.rows[id].(retryCount := n, nextRetryAt := at, claimedAt := None);
        w.(rows := w.rows[id := row])
      case Unclaim(ids) => w.(rows := map x | x in w.rows :: if x in ids then w.rows[x].(claimedAt := None)
                              else w.rows[x])
      case Park(id) => w.(rows := w.rows[id := w.rows[id].(nextRetryAt := I64_MAX, claimedAt := None)])
      case Delete(ids) => w.(rows := w.rows - ids)
    }
  }

  ghost function Run(w: World, actions: seq<Action>): World {
    if actions == [] then w else Step(Run(w, actions[..|actions| - 1]), actions[|actions| - 1])
  }

  /**
   * A failed delivery comes back at its retry time, a released one at the time it
   * had, and a parked one not before the end of time, each without a claim.
   */
  lemma ReleasedIsDue(w: World, id: nat, n: nat, at: nat, ids: set<nat>, now: nat)
    requires id in w.rows && w.rows[id].succeededAt.None? && LEASE_MS < now < I64_MAX
    ensures Eligible(Step(w, Fail(id, n, at)).rows[id], now) <==> at <= now
    ensures Step(w, Fail(id, n, at)).rows[id].retryCount == n
    ensures id in ids ==> (Eligible(Step(w, Unclaim(ids)).rows[id], now) <==> w.rows[id].nextRetryAt <= now)
    ensures !Eligible(Step(w, Park(id)).rows[id], now)
    ensures !Eligible(Step(w, Succeed(id)).rows[id], now)
  {
  }

  /** The action gives the claim of the row up, or the row itself. */
  predicate Releases(a: Action, id: nat) {
    match a {
      case Fail(x, _, _) => x == id
      case Park(x) => x == id
      case Unclaim(ids) => id in ids
      case Delete(ids) => id in ids
      case _ => false
    }
  }

  lemma {:induction false} ClaimPersists(w: World, actions: seq<Action>, id: nat, since: nat)
    requires id in w.rows && w.rows[id].claimedAt.Some? && since <= w.rows[id].claimedAt.value && since <= w.clock
    requires forall i :: 0 <= i < |actions| ==> !Releases(actions[i], id)
    ensures var w' := Run(w, actions);
            id in w'.rows && w'.rows[id].claimedAt.Some? && since <= w'.rows[id].claimedAt.value && since <= w'.clock
  {
    if actions != [] {
      ClaimPersists(w, actions[..|actions| - 1], id, since);
    }
  }

  /** Two takes that return the same delivery are more than five minutes apart unless it was released in between. */
  lemma LeaseExcludes(w: World, first: Action, between: seq<Action>, second: Action, id: nat)
    requires first.Take? && Enabled(w, first) && id in first.ids
    requires forall i :: 0 <= i < |between| ==> !Releases(between[i], id)
    requires second.Take? && Enabled(Run(Step(w, first), between), second) && id in second.ids
    ensures Run(Step(w, first), between).clock > w.clock + LEASE_MS
  {
    assert Earliest(w.rows, w.clock, id);
    ClaimPersists(Step(w, first), between, id, w.clock);
    var v := Run(Step(w, first), between);
    assert Earliest(v.rows, v.clock, id);
  }

  lemma {:induction false} SuccessPersists(w: World, actions: seq<Action>, id: nat)
    requires id in w.rows && w.rows[id].succeededAt.Some?
    requires forall i :: 0 <= i < |actions| ==> !(actions[i].Delete? && id in actions[i].ids)
    ensures id in Run(w, actions).rows && Run(w, actions).rows[id].succeededAt.Some?
  {
    if actions != [] {
      SuccessPersists(w, actions[..|actions| - 1], id);
    }
  }

  /**
   * A delivery that succeeded is never taken again, even if a late processor
   * still writes a failure or an unclaim for it.
   */
  lemma SucceededIsFinal(w: World, actions: seq<Action>, id: nat, take: Action)
    requires id in w.rows && w.rows[id].succeededAt.Some?
    requires forall i :: 0 <= i < |actions| ==> !(actions[i].Delete? && id in actions[i].ids)
    requires take.Take? && Enabled(Run(w, actions), take)
    ensures id !in take.ids
  {
    SuccessPersists(w, actions, id);
    var v := Run(w, actions);
    assert id in take.ids ==> Earliest(v.rows, v.clock, id);
  }
}
