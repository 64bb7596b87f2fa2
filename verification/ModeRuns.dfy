/**
 * The mode register over whole runs: it converges to the newest signed
 * request, a success reply is never wrong, an anon account stays closed until
 * its owner signs something newer, and only callbacks that had read the mode
 * before it closed still mint invoices for it.
 */
module ModeRuns {
  import opened Text
  import opened AccountStore
  import opened AccountInvariants
  import opened AccountLaws
  import opened AccountRuns
  import Identifiers

  ghost function AnchorOf(t: Tables, pubkey: string): Option<int> {
    match SparkOf(t, pubkey) { case None => None case Some(a) => t.sparks[a].anchor }
  }

  ghost predicate DeliveredTo(w: World, i: int, pubkey: string) {
    0 <= i < |w.deliveries| && w.deliveries[i].update.pubkey == pubkey
  }

  ghost predicate Applied(w: World, i: int, pubkey: string, mode: AccountMode, timestamp: int) {
    DeliveredTo(w, i, pubkey) && w.deliveries[i].accepted
    && w.deliveries[i].update.mode == mode && w.deliveries[i].update.timestamp == timestamp
  }

  ghost predicate RowLaw(w: World, row: SparkRow) {
    && (row.anchor.None? ==> forall i :: !DeliveredTo(w, i, row.pubkey))
    && (row.anchor.Some? ==>
          && row.mode.Some?
          && row.anchor.value <= w.clock + MODE_MAX_FUTURE_SKEW_SECS
          && (exists i :: Applied(w, i, row.pubkey, row.mode.value, row.anchor.value))
          && (forall i :: DeliveredTo(w, i, row.pubkey) ==> w.deliveries[i].update.timestamp <= row.anchor.value))
    && (row.mode == Some(Anon) ==> row.anchor.Some?)
    && (row.country.Some? ==> row.mode == Some(Enhanced))
  }

  ghost predicate ModeLaw(w: World) {
    && Consistent(w.tables)
    && (forall a :: a in w.tables.sparks ==> RowLaw(w, w.tables.sparks[a]))
    && (forall i :: 0 <= i < |w.deliveries| ==> SparkOf(w.tables, w.deliveries[i].update.pubkey).Some?)
  }

  /** Spark rows keep their mode fields; a new row is blank and its key was unknown. */
  ghost predicate ModesKept(t: Tables, t': Tables) {
    forall a :: a in t'.sparks ==>
      var row := t'.sparks[a];
      if a in t.sparks then
        && row.pubkey == t.sparks[a].pubkey && row.mode == t.sparks[a].mode
        && row.anchor == t.sparks[a].anchor && row.country == t.sparks[a].country
      else row.mode.None? && row.anchor.None? && row.country.None? && SparkOf(t, row.pubkey).None?
  }

  lemma SparkOfPersists(t: Tables, t': Tables, pubkey: string)
    requires Consistent(t) && Consistent(t') && Evolves(t, t')
    requires SparkOf(t, pubkey).Some?
    ensures SparkOf(t', pubkey) == SparkOf(t, pubkey)
  {
    SparkOfIs(t', SparkOf(t, pubkey).value, pubkey);
  }

  /** Whether an action is a write of the mode register. */
  predicate WritesModes(a: Action) {
    a.WriteMode? || a.Backfill? || a.RefreshCountry?
  }

  lemma KeptNext(w: World, a: Action)
    requires Consistent(w.tables) && Enabled(w, a) && !WritesModes(a)
    ensures ModesKept(w.tables, NextTables(w, a))
  {
    var t, now := w.tables, w.clock;
    match a {
      case Signed(q, _, id) =>
        if q.Register? && Commits(t, q, id) {
          RegisteredKeepsModes(t, RegistrationOf(q), id, now);
        } else if q.TransferFrom? && Commits(t, q, id) {
          TransferredKeepsModes(t, TransferOf(q), id, now);
        }
      case InternalTransfer(x, id) => if TransferRefusal(t, x, Blink).None? { TransferredKeepsModes(t, x, id, now); }
      case _ =>
    }
  }

  lemma KeptStep(w: World, a: Action)
    requires Consistent(w.tables) && !WritesModes(a)
    ensures ModesKept(w.tables, Step(w, a).tables)
  {
    if Enabled(w, a) { KeptNext(w, a); }
  }

  lemma RegisteredKeepsModes(t: Tables, r: Registration, freshId: AccountId, now: int)
    requires Consistent(t) && freshId !in t.accounts && r.accountId.None?
    ensures ModesKept(t, Registered(t, r, freshId, now))
  {
  }

  lemma TransferredKeepsModes(t: Tables, x: Transfer, freshId: AccountId, now: int)
    requires Consistent(t) && freshId !in t.accounts && x.name in t.names
    ensures ModesKept(t, Transferred(t, x, freshId, now))
  {
  }

  lemma LawUnderKept(w: World, a: Action)
    requires ModeLaw(w) && !WritesModes(a)
    ensures ModeLaw(Step(w, a))
  {
    var w' := Step(w, a);
    StepConsistent(w, a);
    KeptStep(w, a);
    forall i | 0 <= i < |w.deliveries| ensures SparkOf(w'.tables, w.deliveries[i].update.pubkey).Some? {
      SparkOfPersists(w.tables, w'.tables, w.deliveries[i].update.pubkey);
    }
    forall x | x in w'.tables.sparks ensures RowLaw(w', w'.tables.sparks[x]) {
      var row := w'.tables.sparks[x];
      if x in w.tables.sparks {
        assert RowLaw(w, w.tables.sparks[x]);
        RowLawCarries(w, w', w.tables.sparks[x], row);
      }
    }
  }

  lemma RowLawCarries(w: World, w': World, row: SparkRow, row': SparkRow)
    requires RowLaw(w, row) && w'.deliveries == w.deliveries && w.clock <= w'.clock
    requires row'.pubkey == row.pubkey && row'.anchor == row.anchor
    requires row'.mode == row.mode || (row.mode.None? && row'.mode == Some(Enhanced))
    requires row'.country == row.country || row'.mode == Some(Enhanced)
    ensures RowLaw(w', row')
  {
    if row.anchor.Some? {
      var i :| Applied(w, i, row.pubkey, row.mode.value, row.anchor.value);
      assert Applied(w', i, row'.pubkey, row'.mode.value, row'.anchor.value);
    }
    assert forall i :: DeliveredTo(w', i, row'.pubkey) <==> DeliveredTo(w, i, row.pubkey);
  }

  lemma BackfilledRow(t: Tables, pubkey: string, now: int, x: AccountId)
    requires x in t.sparks
    ensures x in Backfilled(t, pubkey, now).sparks
    ensures var row, row' := t.sparks[x], Backfilled(t, pubkey, now).sparks[x];
            && row'.pubkey == row.pubkey && row'.anchor == row.anchor && row'.country == row.country
            && (row'.mode == row.mode || (row.mode.None? && row'.mode == Some(Enhanced)))
  {
  }

  lemma CountryRow(t: Tables, pubkey: string, country: string, now: int, x: AccountId)
    requires x in t.sparks
    ensures x in CountryRefreshed(t, pubkey, country, now).sparks
    ensures var row, row' := t.sparks[x], CountryRefreshed(t, pubkey, country, now).sparks[x];
            && row'.pubkey == row.pubkey && row'.anchor == row.anchor && row'.mode == row.mode
            && (row'.country == row.country || row'.mode == Some(Enhanced))
  {
  }

  lemma LawUnderRewrite(w: World, a: Action)
    requires ModeLaw(w) && (a.Backfill? || a.RefreshCountry?)
    ensures ModeLaw(Step(w, a))
  {
    var w' := Step(w, a);
    StepConsistent(w, a);
    forall i | 0 <= i < |w.deliveries| ensures SparkOf(w'.tables, w.deliveries[i].update.pubkey).Some? {
      SparkOfPersists(w.tables, w'.tables, w.deliveries[i].update.pubkey);
    }
    forall x | x in w'.tables.sparks ensures RowLaw(w', w'.tables.sparks[x]) {
      if a.Backfill? {
        BackfilledRow(w.tables, a.pubkey, w.clock, x);
      } else {
        CountryRow(w.tables, a.pubkey, a.country, w.clock, x);
      }
      RowLawCarries(w, w', w.tables.sparks[x], w'.tables.sparks[x]);
    }
  }

  lemma LawUnderWrite(w: World, a: Action)
    requires ModeLaw(w) && a.WriteMode?
    ensures ModeLaw(Step(w, a))
  {
    var w', u := Step(w, a), a.update;
    StepConsistent(w, a);
    forall p | SparkOf(w.tables, p).Some? ensures SparkOf(w'.tables, p).Some? {
      SparkOfPersists(w.tables, w'.tables, p);
    }
    if Enabled(w, a) {
      forall x | x in w'.tables.sparks ensures RowLaw(w', w'.tables.sparks[x]) {
        RowLawAfterWrite(w, a, x);
      }
    }
  }

  /**
   * A row that keeps its fields keeps the law when a delivery is added that its
   * anchor covers, or that is for another key.
   */
  lemma RowLawExtends(w: World, w': World, row: SparkRow, d: Delivery)
    requires RowLaw(w, row) && w'.clock == w.clock && w'.deliveries == w.deliveries + [d]
    requires d.update.pubkey == row.pubkey ==> row.anchor.Some? && d.update.timestamp <= row.anchor.value
    ensures RowLaw(w', row)
  {
    assert forall i :: DeliveredTo(w', i, row.pubkey) && i != |w.deliveries| ==> DeliveredTo(w, i, row.pubkey);
    if row.anchor.Some? {
      var i :| Applied(w, i, row.pubkey, row.mode.value, row.anchor.value);
      assert Applied(w', i, row.pubkey, row.mode.value, row.anchor.value);
    }
  }

  lemma RowLawAccepted(w: World, w': World, row: SparkRow, u: ModeUpdate)
    requires RowLaw(w, row) && w'.clock == w.clock && w'.deliveries == w.deliveries + [Delivery(u, true)]
    requires u.pubkey == row.pubkey && NewerThanAnchor(row, u.timestamp)
             && u.timestamp <= w.clock + MODE_MAX_FUTURE_SKEW_SECS
    ensures RowLaw(w', ModeSet(row, u, w.clock))
  {
    var n := |w.deliveries|;
    assert Applied(w', n, u.pubkey, u.mode, u.timestamp);
    assert forall i :: DeliveredTo(w', i, u.pubkey) && i != n ==> DeliveredTo(w, i, u.pubkey);
  }

  lemma RowLawAfterWrite(w: World, a: Action, x: AccountId)
    requires ModeLaw(w) && a.WriteMode? && Enabled(w, a) && x in w.tables.sparks && x in Step(w, a).tables.sparks
    ensures RowLaw(Step(w, a), Step(w, a).tables.sparks[x])
  {
    var w', u, row := Step(w, a), a.update, w.tables.sparks[x];
    if SparkOf(w.tables, u.pubkey).Some? {
      if row.pubkey == u.pubkey {
        assert HasPubkey(w.tables, x, u.pubkey);
        SparkOfIs(w.tables, x, u.pubkey);
      }
      if row.pubkey == u.pubkey && ModeAccepted(w.tables, u) {
        RowLawAccepted(w, w', row, u);
      } else {
        assert w'.tables.sparks[x] == row;
        RowLawExtends(w, w', row, Delivery(u, ModeAccepted(w.tables, u)));
      }
    } else {
      RowLawCarries(w, w', row, row);
    }
  }

  lemma {:induction false} RunModeLaw(w: World, actions: seq<Action>)
    requires ModeLaw(w)
    ensures ModeLaw(Run(w, actions))
  {
    if actions != [] {
      var init, a := actions[..|actions| - 1], actions[|actions| - 1];
      RunModeLaw(w, init);
      if a.WriteMode? {
        LawUnderWrite(Run(w, init), a);
      } else if a.Backfill? || a.RefreshCountry? {
        LawUnderRewrite(Run(w, init), a);
      } else {
        LawUnderKept(Run(w, init), a);
      }
    }
  }

  // ----- convergence -----

  /** The updates delivered to a key, as a set. */
  ghost predicate Delivered(w: World, pubkey: string, mode: AccountMode, timestamp: int) {
    exists i :: DeliveredTo(w, i, pubkey) && w.deliveries[i].update.mode == mode
      && w.deliveries[i].update.timestamp == timestamp
  }

  /** The register of the key holds the greatest timestamp delivered and a mode delivered with it. */
  ghost predicate HoldsNewest(w: World, pubkey: string) {
    match AnchorOf(w.tables, pubkey) {
      case None => forall mode, ts :: !Delivered(w, pubkey, mode, ts)
      case Some(t) =>
        && ModeOf(w.tables, pubkey).Some? && Delivered(w, pubkey, ModeOf(w.tables, pubkey).value, t)
        && forall mode, ts :: Delivered(w, pubkey, mode, ts) ==> ts <= t
    }
  }

  lemma RegisterIsNewest(actions: seq<Action>, pubkey: string)
    ensures HoldsNewest(Run(START, actions), pubkey)
  {
    RunModeLaw(START, actions);
    LawGivesNewest(Run(START, actions), pubkey);
  }

  lemma LawGivesNewest(w: World, pubkey: string)
    requires ModeLaw(w)
    ensures HoldsNewest(w, pubkey)
  {
    var holder := SparkOf(w.tables, pubkey);
    if holder.Some? {
      var row := w.tables.sparks[holder.value];
      assert RowLaw(w, row);
      if row.anchor.Some? {
        var i :| Applied(w, i, pubkey, row.mode.value, row.anchor.value);
        assert DeliveredTo(w, i, pubkey);
      }
    } else {
      assert forall i :: !DeliveredTo(w, i, pubkey);
    }
  }

  /** The same requests were delivered to the key, at least one, and no timestamp was used for two modes. */
  ghost predicate SameDeliveries(w: World, v: World, pubkey: string) {
    && (forall mode, ts :: Delivered(w, pubkey, mode, ts) <==> Delivered(v, pubkey, mode, ts))
    && (forall m, m', ts :: Delivered(w, pubkey, m, ts) && Delivered(w, pubkey, m', ts) ==> m == m')
    && (exists mode, ts :: Delivered(w, pubkey, mode, ts))
  }

  lemma NewestAgree(w: World, v: World, pubkey: string)
    requires HoldsNewest(w, pubkey) && HoldsNewest(v, pubkey) && SameDeliveries(w, v, pubkey)
    ensures AnchorOf(w.tables, pubkey) == AnchorOf(v.tables, pubkey)
    ensures ModeOf(w.tables, pubkey) == ModeOf(v.tables, pubkey)
  {
    var mode, ts :| Delivered(w, pubkey, mode, ts);
    assert Delivered(v, pubkey, mode, ts);
    var a, b := AnchorOf(w.tables, pubkey), AnchorOf(v.tables, pubkey);
    assert Delivered(v, pubkey, ModeOf(w.tables, pubkey).value, a.value);
    assert Delivered(w, pubkey, ModeOf(v.tables, pubkey).value, b.value);
  }

  /**
   * Two runs that deliver the same signed requests to a key, in any order, with
   * any duplicates and mixed with anything else, leave it in the same mode with
   * the same anchor.
   */
  lemma RegisterConverges(one: seq<Action>, two: seq<Action>, pubkey: string)
    requires SameDeliveries(Run(START, one), Run(START, two), pubkey)
    ensures AnchorOf(Run(START, one).tables, pubkey) == AnchorOf(Run(START, two).tables, pubkey)
    ensures ModeOf(Run(START, one).tables, pubkey) == ModeOf(Run(START, two).tables, pubkey)
  {
    RegisterIsNewest(one, pubkey);
    RegisterIsNewest(two, pubkey);
    NewestAgree(Run(START, one), Run(START, two), pubkey);
  }

  /**
   * A refused update is classified by a read that may come any number of steps
   * later. If it answers success, that very mode and timestamp was applied.
   * Once the key has a row the read never misses it.
   */
  lemma SuccessMeansApplied(actions: seq<Action>, u: ModeUpdate)
    ensures var w := Run(START, actions);
            && (ClassifyRefused(w.tables, u).Committed? ==> exists i :: Applied(w, i, u.pubkey, u.mode, u.timestamp))
            && (forall later :: SparkOf(w.tables, u.pubkey).Some? ==>
                  ClassifyRefused(Run(w, later).tables, u) != Refused(AccountNotFound))
  {
    RunModeLaw(START, actions);
    var w := Run(START, actions);
    if ClassifyRefused(w.tables, u).Committed? {
      assert RowLaw(w, w.tables.sparks[SparkOf(w.tables, u.pubkey).value]);
    }
    forall later | SparkOf(w.tables, u.pubkey).Some?
      ensures ClassifyRefused(Run(w, later).tables, u) != Refused(AccountNotFound)
    {
      RunConsistent(w, later);
      SparkOfPersists(w.tables, Run(w, later).tables, u.pubkey);
    }
  }

  /** A typed key keeps mode and anchor in every step, except for an accepted request of its own that is newer. */
  lemma TypedStep(w: World, a: Action, pubkey: string)
    requires ModeLaw(w) && ModeOf(w.tables, pubkey).Some? && AnchorOf(w.tables, pubkey).Some?
    ensures var t, t' := w.tables, Step(w, a).tables;
            || (ModeOf(t', pubkey) == ModeOf(t, pubkey) && AnchorOf(t', pubkey) == AnchorOf(t, pubkey))
            || (a.WriteMode? && Enabled(w, a) && a.update.pubkey == pubkey
                && AnchorOf(t, pubkey).value < a.update.timestamp)
  {
    var w' := Step(w, a);
    StepConsistent(w, a);
    SparkOfPersists(w.tables, w'.tables, pubkey);
    var x := SparkOf(w.tables, pubkey).value;
    if Enabled(w, a) {
      if a.WriteMode? {
        WriteFate(w.tables, a.update, w.clock, x);
      } else if a.Backfill? {
        BackfilledRow(w.tables, a.pubkey, w.clock, x);
      } else if a.RefreshCountry? {
        CountryRow(w.tables, a.pubkey, a.country, w.clock, x);
      } else {
        KeptNext(w, a);
      }
    }
  }

  /** Somewhere in the run a request of the key newer than `timestamp` reached the register. */
  ghost predicate Superseded(w: World, actions: seq<Action>, pubkey: string, timestamp: int)
    decreases |actions|
  {
    && actions != []
    && var init, last := actions[..|actions| - 1], actions[|actions| - 1];
       || Superseded(w, init, pubkey, timestamp)
       || (last.WriteMode? && Enabled(Run(w, init), last) && last.update.pubkey == pubkey
           && timestamp < last.update.timestamp)
  }

  /** The register of the key holds what this request asked for. */
  ghost predicate HoldsRequest(t: Tables, u: ModeUpdate) {
    ModeOf(t, u.pubkey) == Some(u.mode) && AnchorOf(t, u.pubkey) == Some(u.timestamp)
  }

  /**
   * Sending an applied request again is answered with success, and writes
   * nothing, until a newer one of that key has come in between.
   */
  lemma {:induction false} ResendSucceeds(w: World, actions: seq<Action>, u: ModeUpdate)
    requires ModeLaw(w) && HoldsRequest(w.tables, u)
    ensures Superseded(w, actions, u.pubkey, u.timestamp)
            || (var t := Run(w, actions).tables;
                && HoldsRequest(t, u) && !ModeAccepted(t, u) && ClassifyRefused(t, u) == Committed)
  {
    if actions != [] {
      var init := actions[..|actions| - 1];
      ResendSucceeds(w, init, u);
      if !Superseded(w, init, u.pubkey, u.timestamp) {
        RunModeLaw(w, init);
        TypedStep(Run(w, init), actions[|actions| - 1], u.pubkey);
      }
    }
  }

  /** A request that is applied is held afterwards. */
  lemma AppliedIsHeld(w: World, a: Action)
    requires Consistent(w.tables) && a.WriteMode? && Enabled(w, a) && ModeAccepted(w.tables, a.update)
    ensures HoldsRequest(Step(w, a).tables, a.update)
  {
    var x := SparkOf(w.tables, a.update.pubkey).value;
    ModeWrittenFrame(w.tables, a.update, w.clock, x);
    StepConsistent(w, a);
    SparkOfPersists(w.tables, Step(w, a).tables, a.update.pubkey);
  }

  // ----- anon is sticky -----

  /** Somewhere in the run a signed enhanced request newer than `anchor` was accepted for the key. */
  ghost predicate Reopened(w: World, actions: seq<Action>, pubkey: string, anchor: int) {
    exists i :: 0 <= i < |actions| && ReopenedAt(w, actions, i, pubkey, anchor)
  }

  ghost predicate ReopenedAt(w: World, actions: seq<Action>, i: int, pubkey: string, anchor: int)
    requires 0 <= i < |actions|
  {
    var v := Run(w, actions[..i]);
    && actions[i].WriteMode? && Enabled(v, actions[i]) && ModeAccepted(v.tables, actions[i].update)
    && actions[i].update.pubkey == pubkey && actions[i].update.mode == Enhanced && actions[i].update.timestamp > anchor
  }

  /** Only an accepted signed update changes an anon key, and anchors only grow. */
  lemma AnonStep(w: World, a: Action, pubkey: string)
    requires ModeLaw(w) && ModeOf(w.tables, pubkey) == Some(Anon)
    ensures AnchorOf(w.tables, pubkey).Some? && AnchorOf(Step(w, a).tables, pubkey).Some?
    ensures AnchorOf(w.tables, pubkey).value <= AnchorOf(Step(w, a).tables, pubkey).value
    ensures ModeOf(Step(w, a).tables, pubkey) == Some(Anon)
            || (a.WriteMode? && Enabled(w, a) && ModeAccepted(w.tables, a.update) && a.update.pubkey == pubkey
                && a.update.mode == Enhanced && a.update.timestamp > AnchorOf(w.tables, pubkey).value)
  {
    var w' := Step(w, a);
    StepConsistent(w, a);
    SparkOfPersists(w.tables, w'.tables, pubkey);
    var x := SparkOf(w.tables, pubkey).value;
    assert RowLaw(w, w.tables.sparks[x]);
    if Enabled(w, a) {
      if a.WriteMode? {
        WriteFate(w.tables, a.update, w.clock, x);
      } else if a.Backfill? {
        BackfilledRow(w.tables, a.pubkey, w.clock, x);
      } else if a.RefreshCountry? {
        CountryRow(w.tables, a.pubkey, a.country, w.clock, x);
      } else {
        KeptNext(w, a);
      }
    }
  }

  lemma WriteFate(t: Tables, u: ModeUpdate, now: int, x: AccountId)
    requires Consistent(t) && x in t.sparks
    ensures x in ModeWritten(t, u, now).sparks
    ensures var row' := ModeWritten(t, u, now).sparks[x];
            row' == t.sparks[x]
            || (ModeAccepted(t, u) && u.pubkey == t.sparks[x].pubkey && NewerThanAnchor(t.sparks[x], u.timestamp)
                && row'.mode == Some(u.mode) && row'.anchor == Some(u.timestamp))
  {
  }

  lemma ReopenedLonger(w: World, actions: seq<Action>, n: nat, pubkey: string, anchor: int)
    requires n <= |actions| && Reopened(w, actions[..n], pubkey, anchor)
    ensures Reopened(w, actions, pubkey, anchor)
  {
    var i :| 0 <= i < n && ReopenedAt(w, actions[..n], i, pubkey, anchor);
    assert actions[..n][..i] == actions[..i];
    assert ReopenedAt(w, actions, i, pubkey, anchor);
  }

  /** The key is anon with an anchor no older than `anchor`. */
  ghost predicate Closed(t: Tables, pubkey: string, anchor: int) {
    ModeOf(t, pubkey) == Some(Anon) && AnchorOf(t, pubkey).Some? && anchor <= AnchorOf(t, pubkey).value
  }

  /** One more action leaves a closed key closed, or is the request that reopens it. */
  lemma ClosedStep(w: World, actions: seq<Action>, pubkey: string, anchor: int)
    requires actions != []
    requires var v := Run(w, actions[..|actions| - 1]); ModeLaw(v) && Closed(v.tables, pubkey, anchor)
    ensures Closed(Run(w, actions).tables, pubkey, anchor) || Reopened(w, actions, pubkey, anchor)
  {
    var n := |actions| - 1;
    AnonStep(Run(w, actions[..n]), actions[n], pubkey);
    if !Closed(Run(w, actions).tables, pubkey, anchor) {
      assert ReopenedAt(w, actions, n, pubkey, anchor);
    }
  }

  /**
   * After an anon request is accepted for a key, no registration, transfer,
   * backfill or country refresh opens it again: the key stays anon, with no
   * older anchor, until a signed enhanced request with a strictly greater
   * timestamp is accepted.
   */
  lemma {:induction false} AnonIsSticky(w: World, actions: seq<Action>, pubkey: string, anchor: int)
    requires ModeLaw(w) && Closed(w.tables, pubkey, anchor)
    ensures Closed(Run(w, actions).tables, pubkey, anchor) || Reopened(w, actions, pubkey, anchor)
  {
    if actions != [] {
      var n := |actions| - 1;
      AnonIsSticky(w, actions[..n], pubkey, anchor);
      if Reopened(w, actions[..n], pubkey, anchor) {
        ReopenedLonger(w, actions, n, pubkey, anchor);
      } else {
        RunModeLaw(w, actions[..n]);
        ClosedStep(w, actions, pubkey, anchor);
      }
    }
  }

  // ----- minting -----

  /** A callback is refused exactly when the key's row says anon; untyped keys mint, and so do keys without a row. */
  lemma GateExactly(t: Tables, pubkey: string)
    requires Consistent(t)
    ensures MayMint(t, pubkey) <==>
            forall a :: a in t.sparks && t.sparks[a].pubkey == pubkey ==> t.sparks[a].mode != Some(Anon)
  {
    if a :| a in t.sparks && t.sparks[a].pubkey == pubkey {
      SparkOfIs(t, a, pubkey);
    }
  }

  /** On every run a key is refused only if its newest delivered request was an applied anon one. */
  lemma RefusedAfterAnon(actions: seq<Action>, pubkey: string)
    requires !MayMint(Run(START, actions).tables, pubkey)
    ensures var w := Run(START, actions);
            exists i, ts :: Applied(w, i, pubkey, Anon, ts)
                            && forall j :: DeliveredTo(w, j, pubkey) ==> w.deliveries[j].update.timestamp <= ts
  {
    RunModeLaw(START, actions);
    var w := Run(START, actions);
    var row := w.tables.sparks[SparkOf(w.tables, pubkey).value];
    assert RowLaw(w, row);
    var i :| Applied(w, i, pubkey, Anon, row.anchor.value);
  }

  /** The callback passed the gate for the key and has not minted yet. */
  ghost predicate Passed(w: World, k: nat, pubkey: string) {
    k in w.callbacks && w.callbacks[k].pubkey == pubkey && w.callbacks[k].passed
  }

  /** The callback read the mode at position `g` of the run, after the key had been reopened. */
  ghost predicate GatedAfterReopening(w: World, actions: seq<Action>, g: int, k: nat, pubkey: string, anchor: int)
    requires 0 <= g < |actions|
  {
    && actions[g] == Gate(k) && Enabled(Run(w, actions[..g]), actions[g])
    && Run(w, actions[..g]).callbacks[k].pubkey == pubkey && Reopened(w, actions[..g], pubkey, anchor)
  }

  lemma GatedLonger(w: World, actions: seq<Action>, n: nat, g: nat, k: nat, pubkey: string, anchor: int)
    requires g < n <= |actions| && GatedAfterReopening(w, actions[..n], g, k, pubkey, anchor)
    ensures GatedAfterReopening(w, actions, g, k, pubkey, anchor)
  {
    assert actions[..n][..g] == actions[..g];
  }

  /** Only its own gate read lets a callback through, and a closed key lets none through. */
  lemma PassedStep(w: World, a: Action, k: nat, pubkey: string)
    requires Passed(Step(w, a), k, pubkey) && !Passed(w, k, pubkey)
    ensures a == Gate(k) && Enabled(w, a) && w.callbacks[k].pubkey == pubkey && ModeOf(w.tables, pubkey) != Some(Anon)
  {
  }

  /**
   * A callback that may mint for a key that was anon either read the mode before
   * that and is still on its way, or read it after a strictly newer signed
   * enhanced request was accepted.
   */
  lemma {:induction false} MintNeedsReopening(w: World, actions: seq<Action>, k: nat, pubkey: string, anchor: int)
    requires ModeLaw(w) && Closed(w.tables, pubkey, anchor)
    requires Passed(Run(w, actions), k, pubkey)
    ensures Passed(w, k, pubkey)
            || exists g :: 0 <= g < |actions| && GatedAfterReopening(w, actions, g, k, pubkey, anchor)
  {
    if actions != [] {
      var n := |actions| - 1;
      if Passed(Run(w, actions[..n]), k, pubkey) {
        MintNeedsReopening(w, actions[..n], k, pubkey, anchor);
        if g :| 0 <= g < n && GatedAfterReopening(w, actions[..n], g, k, pubkey, anchor) {
          GatedLonger(w, actions, n, g, k, pubkey, anchor);
        }
      } else {
        PassedStep(Run(w, actions[..n]), actions[n], k, pubkey);
        AnonIsSticky(w, actions[..n], pubkey, anchor);
        assert GatedAfterReopening(w, actions, n, k, pubkey, anchor);
      }
    }
  }

  /** A callback on its way mints whatever happens meanwhile: nothing takes its pass away but its own mint. */
  lemma {:induction false} InFlightMints(w: World, actions: seq<Action>, k: nat, pubkey: string)
    requires Passed(w, k, pubkey) && Mint(k) !in actions
    ensures Passed(Run(w, actions), k, pubkey) && Enabled(Run(w, actions), Mint(k))
  {
    if actions != [] {
      InFlightMints(w, actions[..|actions| - 1], k, pubkey);
    }
  }

  /** A write that leaves modes alone keeps the mode and anchor of every key, known before or not. */
  lemma KeptKey(t: Tables, t': Tables, pubkey: string)
    requires Consistent(t) && Consistent(t') && Evolves(t, t') && ModesKept(t, t')
    ensures ModeOf(t', pubkey) == ModeOf(t, pubkey) && AnchorOf(t', pubkey) == AnchorOf(t, pubkey)
  {
    if SparkOf(t, pubkey).Some? {
      SparkOfPersists(t, t', pubkey);
    } else if SparkOf(t', pubkey).Some? {
      var a := SparkOf(t', pubkey).value;
      assert a in t.sparks ==> HasPubkey(t, a, pubkey);
    }
  }

  /** The key may be sent a mode update newer than its anchor. */
  ghost predicate Outdated(t: Tables, pubkey: string, timestamp: int) {
    AnchorOf(t, pubkey).None? || AnchorOf(t, pubkey).value < timestamp
  }

  lemma TurnsAnon(w: World, a: Action)
    requires Consistent(w.tables) && a.WriteMode? && Enabled(w, a) && a.update.mode == Anon
    requires SparkOf(w.tables, a.update.pubkey).Some? && Outdated(w.tables, a.update.pubkey, a.update.timestamp)
    ensures Closed(Step(w, a).tables, a.update.pubkey, a.update.timestamp)
  {
    StepConsistent(w, a);
    SparkOfPersists(w.tables, Step(w, a).tables, a.update.pubkey);
  }

  /** A callback for a name its key holds resolves it and passes the gate. */
  lemma PassesGate(w: World, k: nat, n: Name, pubkey: string) returns (v: World)
    requires Reachable(w) && k !in w.callbacks && HeldBy(w.tables, n, pubkey) && MayMint(w.tables, pubkey)
    ensures Reachable(v) && v == w.(callbacks := w.callbacks[k := Callback(n, pubkey, true)])
  {
    var a := Lookup(k, n, pubkey);
    ReachableStep(w, a);
    ReachableStep(Step(w, a), Gate(k));
    v := Step(Step(w, a), Gate(k));
    assert v.callbacks == w.callbacks[k := Callback(n, pubkey, true)];
  }

  /** The registration of a name leaves the key's mode as it was. */
  lemma RegisteringKeepsMode(t: Tables, q: Request, id: AccountId, now: int)
    requires Consistent(t) && WellFormed(q) && q.Register? && Able(t, q)
    requires Statement(q) !in t.claims && id !in t.accounts
    ensures Commits(t, q, id) && Consistent(Written(t, q, id, now))
    ensures HeldBy(Written(t, q, id, now), NameOf(q), q.pubkey)
    ensures ModeOf(Written(t, q, id, now), q.pubkey) == ModeOf(t, q.pubkey)
    ensures AnchorOf(Written(t, q, id, now), q.pubkey) == AnchorOf(t, q.pubkey)
  {
    CanRegister(t, q, id, now);
    WrittenConsistent(t, q, id, now);
    RegisteredKeepsModes(t, RegistrationOf(q), id, now);
    KeptKey(t, Written(t, q, id, now), q.pubkey);
  }

  lemma RegistersName(w: World, q: Request) returns (v: World)
    requires Reachable(w) && WellFormed(q) && q.Register? && Able(w.tables, q) && Statement(q) !in w.tables.claims
    requires TimestampAccepted(q.message.timestamp, w.clock)
    ensures Reachable(v) && Consistent(v.tables) && v.clock == w.clock && v.callbacks == w.callbacks
    ensures HeldBy(v.tables, NameOf(q), q.pubkey)
    ensures ModeOf(v.tables, q.pubkey) == ModeOf(w.tables, q.pubkey)
    ensures AnchorOf(v.tables, q.pubkey) == AnchorOf(w.tables, q.pubkey)
  {
    var id := LongerThanAll(w.tables.accounts.Keys);
    var a := Signed(q, w.clock, id);
    ReachableStep(w, a);
    RegisteringKeepsMode(w.tables, q, id, w.clock);
    v := Step(w, a);
    assert v.tables == Written(w.tables, q, id, w.clock);
  }

  /** The key turns anon while a callback for its name is past the gate. */
  lemma ClosesInFlight(w: World, k: nat, n: Name, a: Action) returns (v: World)
    requires Reachable(w) && a.WriteMode? && Enabled(w, a) && a.update.mode == Anon
    requires HeldBy(w.tables, n, a.update.pubkey) && Passed(w, k, a.update.pubkey)
    requires Outdated(w.tables, a.update.pubkey, a.update.timestamp)
    ensures Reachable(v) && Closed(v.tables, a.update.pubkey, a.update.timestamp)
    ensures HeldBy(v.tables, n, a.update.pubkey) && Passed(v, k, a.update.pubkey)
  {
    ReachableStep(w, a);
    SparkOfIs(w.tables, w.tables.names[n].owner, a.update.pubkey);
    TurnsAnon(w, a);
    v := Step(w, a);
    StepConsistent(w, a);
  }

  /**
   * From every reachable world, for every registration it admits of a name that
   * the public routes find, and every newer anon request of that key: the name
   * is registered, a callback for it passes the gate, the key turns anon, and the
   * callback may still mint.
   */
  lemma MintAfterAnon(w: World, q: Request, k: nat, a: Action) returns (v: World)
    requires Reachable(w) && WellFormed(q) && q.Register? && Able(w.tables, q) && Statement(q) !in w.tables.claims
    requires TimestampAccepted(q.message.timestamp, w.clock) && MayMint(w.tables, q.pubkey) && k !in w.callbacks
    requires !Identifiers.StartsWith(q.message.username, "00")
    requires a.WriteMode? && Enabled(w, a) && a.update.mode == Anon && a.update.pubkey == q.pubkey
    requires Outdated(w.tables, q.pubkey, a.update.timestamp)
    ensures Reachable(v) && Closed(v.tables, q.pubkey, a.update.timestamp)
    ensures HeldBy(v.tables, NameOf(q), q.pubkey) && Passed(v, k, q.pubkey) && Enabled(v, Mint(k))
  {
    var registered := RegistersName(w, q);
    var passed := PassesGate(registered, k, NameOf(q), q.pubkey);
    v := ClosesInFlight(passed, k, NameOf(q), a);
  }

  /** Country evidence is held for enhanced accounts only, and no anchor is more than 30 s ahead of the clock. */
  lemma EvidenceNeedsEnhanced(actions: seq<Action>, a: AccountId)
    requires a in Run(START, actions).tables.sparks
    ensures var w := Run(START, actions);
            && (w.tables.sparks[a].country.Some? ==> w.tables.sparks[a].mode == Some(Enhanced))
            && (w.tables.sparks[a].anchor.Some? ==>
                w.tables.sparks[a].anchor.value <= w.clock + MODE_MAX_FUTURE_SKEW_SECS)
  {
    RunModeLaw(START, actions);
    assert RowLaw(Run(START, actions), Run(START, actions).tables.sparks[a]);
  }
}
