/**
 * The repository object: each method runs the statements of one transaction of
 * src/postgresql/repository.rs in order. A refusal returns before anything is
 * stored; a commit keeps the table invariant.
 *
 * Account ids come from `generate_account_id`, so `freshId` is an id no account
 * has. The branches of the two transfers that distrust the destination account
 * cannot be taken on consistent tables; they are asserted away in `MoveName`.
 */
module AccountRepository {
  import opened Text
  import opened AccountStore
  import opened AccountInvariants
  import opened AccountLaws

  class Repository {
    var tables: Tables

    ghost predicate Valid()
      reads this
    {
      Consistent(tables)
    }

    constructor ()
      ensures Valid() && tables == EMPTY
    {
      tables := EMPTY;
    }

    static method SelectSpark(t: Tables, pubkey: string) returns (r: Option<AccountId>)
      requires UniquePubkeys(t)
      ensures r == SparkOf(t, pubkey)
    {
      if a :| a in t.sparks && t.sparks[a].pubkey == pubkey {
        SparkOfIs(t, a, pubkey);
        return Some(a);
      }
      return None;
    }

    static method InsertClaim(t: Tables, claim: Option<Claim>) returns (inserted: bool, tx: Tables)
      ensures inserted == !ClaimUsed(t, claim)
      ensures tx == if inserted then t.(claims := Claimed(t, claim)) else t
    {
      match claim {
        case None => return true, t;
        case Some(c) =>
          if c.statement in t.claims { return false, t; }
          return true, t.(claims := t.claims[c.statement := ClaimRow(c.route, c.expiresAt)]);
      }
    }

    static method DeleteOtherUsernames(t: Tables, a: AccountId, keep: Name) returns (tx: Tables)
      ensures tx == t.(names := Evict(t.names, a, keep))
    {
      tx := t.(names := map n | n in t.names &&
                 !(t.names[n].owner == a && t.names[n].kind == Username && n.domain == keep.domain && n != keep) ::
                 t.names[n]);
      assert tx.names == Evict(t.names, a, keep);
    }

    method UpsertSparkRegistration(r: Registration, freshId: AccountId, now: int) returns (o: Outcome)
      requires Valid() && freshId !in tables.accounts
      modifies this
      ensures Valid()
      ensures o == match RegistrationRefusal(old(tables), r, freshId) {
                     case None => Committed
                     case Some(e) => Refused(e)
                   }
      ensures tables == if o.Committed? then Registered(old(tables), r, freshId, now) else old(tables)
      ensures r.accountId.None? ==> o == RegistrationAnswer(old(tables), r)
    {
      if r.accountId.None? { RegistrationAnswers(tables, r, freshId); }
      if r.identifier.kind == Phone { return Refused(InvalidIdentifierKind); }
      var inserted, tx := InsertClaim(tables, r.claim);
      if !inserted { return Refused(StatementAlreadyUsed); }

      var a := freshId;
      var holder := SelectSpark(tables, r.pubkey);
      if r.accountId.Some? {
        a := r.accountId.value;
      } else if holder.Some? {
        a := holder.value;
      }
      if a in tx.accounts && tx.accounts[a].provider != Spark { return Refused(InvalidProvider); }
      var n := r.identifier.name;
      if n in tx.names && tx.names[n].owner != a { return Refused(IdentifierConflict); }
      if holder.Some? && holder.value != a { return Refused(InvalidOwnership); }

      tx := DeleteOtherUsernames(tx, a, n);
      tx := tx.(accounts := tx.accounts[a := if a in tx.accounts
                                             then tx.accounts[a].(provider := Spark, updatedAt := now)
                                             else AccountRow(Spark, now, now)]);
      tx := tx.(sparks := tx.sparks[a := if a in tx.sparks
                                         then tx.sparks[a].(pubkey := r.pubkey, updatedAt := now)
                                         else NewSpark(r.pubkey, now)]);
      tx := tx.(names := tx.names[n := if n in tx.names
                                       then tx.names[n].(kind := r.identifier.kind,
                                                         description := r.identifier.description, updatedAt := now)
                                       else NameRow(a, r.identifier.kind, r.identifier.description, now, now)]);
      RegisteredConsistent(tables, r, freshId, now);
      tables := tx;
      return Committed;
    }

    method DeleteSparkRegistration(n: Name, pubkey: string, claim: Option<Claim>) returns (o: Outcome)
      requires Valid()
      modifies this
      ensures Valid()
      ensures o == match DeletionRefusal(old(tables), n, pubkey, claim) {
                     case None => Committed
                     case Some(e) => Refused(e)
                   }
      ensures tables == if o.Committed? then Deleted(old(tables), n, claim) else old(tables)
    {
      var inserted, tx := InsertClaim(tables, claim);
      if !inserted { return Refused(StatementAlreadyUsed); }
      var holder := SelectSpark(tables, pubkey);
      if holder.None? { return Refused(SourceNotOwner); }
      if n !in tx.names || tx.names[n].owner != holder.value { return Refused(SourceNotOwner); }
      tx := tx.(names := tx.names - {n});
      DeletedConsistent(tables, n, claim);
      tables := tx;
      return Committed;
    }

    /** The destination of a transfer, with its account and child row inserted when the key is new. */
    static method EnsureTarget(t: Tables, target: string, freshId: AccountId, now: int)
      returns (a: AccountId, tx: Tables)
      requires UniquePubkeys(t) && freshId !in t.accounts
      ensures a == match SparkOf(t, target) { case Some(s) => s case None => freshId }
      ensures tx == if SparkOf(t, target).Some? then t
                    else t.(accounts := t.accounts[freshId := AccountRow(Spark, now, now)],
                            sparks := t.sparks[freshId := NewSpark(target, now)])
    {
      var holder := SelectSpark(t, target);
      if holder.Some? { return holder.value, t; }
      tx := t.(accounts := t.accounts[freshId := AccountRow(Spark, now, now)]);
      tx := tx.(sparks := tx.sparks[freshId := NewSpark(target, now)]);
      a := freshId;
    }

    /** The statements both transfers share once the source has been checked. */
    static method MoveName(t: Tables, x: Transfer, freshId: AccountId, now: int) returns (tx: Tables)
      requires Consistent(t) && freshId !in t.accounts
      requires x.name in t.names && t.names[x.name].owner == x.source
      ensures tx.names == Transferred(t, x, freshId, now).names
      ensures tx.accounts == Transferred(t, x, freshId, now).accounts
      ensures tx.sparks == Transferred(t, x, freshId, now).sparks
      ensures tx.blinks == t.blinks && tx.claims == t.claims
    {
      var a;
      a, tx := EnsureTarget(t, x.target, freshId, now);
      assert a in tx.accounts && tx.accounts[a].provider == Spark && a in tx.sparks;
      tx := tx.(names := tx.names[x.name := tx.names[x.name].(owner := a, description := x.description,
                                                              updatedAt := now)]);
      tx := DeleteOtherUsernames(tx, a, x.name);
    }

    method TransferIdentifier(x: Transfer, freshId: AccountId, now: int) returns (o: Outcome)
      requires Valid() && freshId !in tables.accounts
      modifies this
      ensures Valid()
      ensures o == match TransferRefusal(old(tables), x, Spark) {
                     case None => Committed
                     case Some(e) => Refused(e)
                   }
      ensures o.Committed? ==> x.name in old(tables).names && tables == Transferred(old(tables), x, freshId, now)
      ensures o.Refused? ==> tables == old(tables)
    {
      var inserted, tx := InsertClaim(tables, x.claim);
      if !inserted { return Refused(StatementAlreadyUsed); }
      if x.name !in tx.names || tx.names[x.name].owner != x.source { return Refused(SourceNotOwner); }
      if x.source !in tx.accounts || tx.accounts[x.source].provider != Spark || x.source !in tx.sparks {
        return Refused(InvalidOwnership);
      }
      var moved := MoveName(tables, x, freshId, now);
      TransferredConsistent(tables, x, Spark, freshId, now);
      tables := moved.(claims := tx.claims);
      return Committed;
    }

    /** The internal transfer carries no signed statement, so it claims none. */
    method TransferBlinkIdentifierToSpark(x: Transfer, freshId: AccountId, now: int) returns (o: Outcome)
      requires Valid() && freshId !in tables.accounts && x.claim.None?
      modifies this
      ensures Valid()
      ensures o == match TransferRefusal(old(tables), x, Blink) {
                     case None => Committed
                     case Some(e) => Refused(e)
                   }
      ensures o.Committed? ==> x.name in old(tables).names && tables == Transferred(old(tables), x, freshId, now)
      ensures o.Refused? ==> tables == old(tables)
    {
      if x.name !in tables.names || tables.names[x.name].owner != x.source { return Refused(SourceNotOwner); }
      if x.source !in tables.accounts || tables.accounts[x.source].provider != Blink || x.source !in tables.blinks {
        return Refused(InvalidOwnership);
      }
      TransferredConsistent(tables, x, Blink, freshId, now);
      tables := MoveName(tables, x, freshId, now);
      return Committed;
    }

    static method AnyTaken(names: map<Name, NameRow>, ids: seq<NewIdentifier>) returns (taken: bool)
      ensures taken <==> exists i :: 0 <= i < |ids| && ids[i].name in names
    {
      for i := 0 to |ids|
        invariant forall j :: 0 <= j < i ==> ids[j].name !in names
      {
        if ids[i].name in names { return true; }
      }
      return false;
    }

    /** Inserts the rows in turn; UNIQUE (domain, identifier) aborts the transaction on a repeated name. */
    static method InsertNames(names: map<Name, NameRow>, id: AccountId, ids: seq<NewIdentifier>, now: int)
      returns (inserted: bool, out: map<Name, NameRow>)
      requires forall i :: 0 <= i < |ids| ==> ids[i].name !in names
      ensures inserted <==> DistinctNames(ids)
      ensures inserted ==> out == AddNames(names, id, ids, now)
    {
      out := names;
      for i := 0 to |ids|
        invariant forall j, k :: 0 <= j < k < i ==> ids[j].name != ids[k].name
        invariant out == AddNames(names, id, ids[..i], now)
      {
        AddNamesHolds(names, id, ids[..i], now, ids[i].name);
        if ids[i].name in out {
          var j :| 0 <= j < i && ids[..i][j].name == ids[i].name;
          assert ids[j].name == ids[i].name;
          return false, out;
        }
        AddNamesSnoc(names, id, ids, i, now);
        out := out[ids[i].name := NameRow(id, ids[i].kind, ids[i].description, now, now)];
      }
      assert ids[..|ids|] == ids;
      inserted := true;
    }

    method CreateBlinkAccount(id: AccountId, b: NewBlink, now: int) returns (o: Outcome)
      requires Valid()
      modifies this
      ensures Valid()
      ensures o == match BlinkRefusal(old(tables), id, b) {
                     case None => Committed
                     case Some(e) => Refused(e)
                   }
      ensures tables == if o.Committed? then BlinkCreated(old(tables), id, b, now) else old(tables)
    {
      if id in tables.accounts {
        if tables.accounts[id].provider != Blink { return Refused(InvalidProvider); }
        if id !in tables.blinks { return Refused(InvalidOwnership); }
        var row := tables.blinks[id];
        if row.blinkId != b.blinkId || row.btcWallet != b.btcWallet || row.usdWallet != b.usdWallet
           || row.defaultWallet != b.defaultWallet {
          return Refused(InvalidOwnership);
        }
        return Refused(BlinkAccountExists);
      }
      if exists a :: a in tables.blinks && tables.blinks[a].blinkId == b.blinkId { return Refused(BlinkAccountExists); }
      var taken := AnyTaken(tables.names, b.identifiers);
      if taken { return Refused(IdentifierConflict); }
      var tx := tables.(accounts := tables.accounts[id := AccountRow(Blink, now, now)]);
      tx := tx.(blinks := tx.blinks[id := BlinkRow(b.blinkId, b.btcWallet, b.usdWallet, b.defaultWallet, now, now)]);
      var inserted, names := InsertNames(tx.names, id, b.identifiers, now);
      if !inserted { return Refused(General); }
      BlinkCreatedConsistent(tables, id, b, now);
      tables := tx.(names := names);
      return Committed;
    }

    method UpdateBlinkDefaultWallet(blinkId: string, wallet: WalletKind, now: int) returns (o: Outcome)
      requires Valid()
      modifies this
      ensures Valid()
      ensures o == if BlinkIdTaken(old(tables), blinkId) then Committed else Refused(AccountNotFound)
      ensures tables == WalletChanged(old(tables), blinkId, wallet, now)
    {
      WalletChangedConsistent(tables, blinkId, wallet, now);
      if a :| a in tables.blinks && tables.blinks[a].blinkId == blinkId {
        tables := tables.(blinks := tables.blinks[a := tables.blinks[a].(defaultWallet := wallet, updatedAt := now)]);
        assert tables.blinks == WalletChanged(old(tables), blinkId, wallet, now).blinks;
        return Committed;
      }
      assert tables.blinks == WalletChanged(tables, blinkId, wallet, now).blinks;
      return Refused(AccountNotFound);
    }

    /**
     * `seen` is what the existence read found, some time before the transaction;
     * a Spark row once there stays. When a concurrent first contact has won by
     * then, the second insert affects no row and the first is rolled back.
     */
    method EnsureSparkAccount(pubkey: string, seen: Option<AccountId>, freshId: AccountId, now: int)
      requires Valid() && freshId !in tables.accounts
      requires seen.Some? ==> HasPubkey(tables, seen.value, pubkey)
      modifies this
      ensures Valid()
      ensures tables == FirstContact(old(tables), pubkey, freshId, now)
    {
      if seen.Some? {
        SparkOfIs(tables, seen.value, pubkey);
        return;
      }
      var tx := tables.(accounts := tables.accounts[freshId := AccountRow(Spark, now, now)]);
      assert SparkOf(tx, pubkey) == SparkOf(tables, pubkey) by { SameSparks(tx, tables, pubkey); }
      var conflict := SelectSpark(tx, pubkey);
      if conflict.Some? { return; }
      tx := tx.(sparks := tx.sparks[freshId := NewSpark(pubkey, now)]);
      FirstContactConsistent(tables, pubkey, freshId, now);
      tables := tx;
    }

    /** The SET list of the mode update; anon clears the country evidence. */
    static method SetMode(before: SparkRow, u: ModeUpdate, now: int) returns (row: SparkRow)
      ensures row == ModeSet(before, u, now)
    {
      row := before;
      var country := if u.mode == Anon then None else u.country;
      if u.mode == Anon || country.Some? {
        row := row.(country := country, countryUpdatedAt := if country.Some? then Some(now) else None);
      }
      row := row.(source := Some(if row.mode.None? then Signup else Switch));
      row := row.(mode := Some(u.mode), modeUpdatedAt := Some(now), anchor := Some(u.timestamp), updatedAt := now);
    }

    method UpsertSparkMode(u: ModeUpdate, seen: Option<AccountId>, freshId: AccountId, now: int) returns (o: Outcome)
      requires Valid() && freshId !in tables.accounts
      requires seen.Some? ==> HasPubkey(tables, seen.value, u.pubkey)
      modifies this
      ensures Valid()
      ensures var t := FirstContact(old(tables), u.pubkey, freshId, now);
              && tables == ModeWritten(t, u, now)
              && o == if ModeAccepted(t, u) then Committed else ClassifyRefused(t, u)
      ensures forall a :: HasPubkey(old(tables), a, u.pubkey) ==> o == ModeAnswer(old(tables).sparks[a], u)
      ensures (forall a :: !HasPubkey(old(tables), a, u.pubkey)) ==> o.Committed?
    {
      ModeAnswered(tables, u, freshId, now);
      EnsureSparkAccount(u.pubkey, seen, freshId, now);
      var holder := SelectSpark(tables, u.pubkey);
      if holder.None? { return Refused(AccountNotFound); }
      var a := holder.value;
      var row := tables.sparks[a];
      if row.anchor.None? || row.anchor.value < u.timestamp {
        row := SetMode(row, u, now);
        ModeWrittenConsistent(tables, u, now);
        tables := tables.(sparks := tables.sparks[a := row]);
        return Committed;
      }
      if row.mode == Some(u.mode) && row.anchor == Some(u.timestamp) { return Committed; }
      return Refused(StaleModeTimestamp);
    }

    method SetSparkModeEnhancedIfUnset(pubkey: string, now: int)
      requires Valid()
      modifies this
      ensures Valid()
      ensures tables == Backfilled(old(tables), pubkey, now)
    {
      var holder := SelectSpark(tables, pubkey);
      if holder.None? { return; }
      var row := tables.sparks[holder.value];
      if row.mode.None? {
        SparkRewriteConsistent(tables, Backfilled(tables, pubkey, now));
        row := row.(mode := Some(Enhanced), source := Some(Migration), modeUpdatedAt := Some(now), updatedAt := now);
        tables := tables.(sparks := tables.sparks[holder.value := row]);
      }
    }

    method RefreshSparkCountryEvidence(pubkey: string, country: string, now: int)
      requires Valid()
      modifies this
      ensures Valid()
      ensures tables == CountryRefreshed(old(tables), pubkey, country, now)
    {
      var holder := SelectSpark(tables, pubkey);
      if holder.None? { return; }
      var row := tables.sparks[holder.value];
      if row.mode == Some(Enhanced) {
        SparkRewriteConsistent(tables, CountryRefreshed(tables, pubkey, country, now));
        row := row.(country := Some(country), countryUpdatedAt := Some(now), updatedAt := now);
        tables := tables.(sparks := tables.sparks[holder.value := row]);
      }
    }

    method DeleteExpiredSignedMessages(now: int) returns (deleted: nat)
      modifies this
      ensures tables == Pruned(old(tables), now)
      ensures deleted == |old(tables).claims| - |tables.claims|
    {
      var gone := set s | s in tables.claims && tables.claims[s].expiresAt < now;
      var kept := tables.claims - gone;
      assert kept == Pruned(tables, now).claims;
      assert kept.Keys == tables.claims.Keys - gone;
      deleted := |tables.claims| - |kept|;
      tables := tables.(claims := kept);
    }
  }

  /** First contact and the guarded update together answer by the row the key had, and accept a new key. */
  lemma ModeAnswered(t: Tables, u: ModeUpdate, freshId: AccountId, now: int)
    requires Consistent(t) && freshId !in t.accounts
    ensures var v := FirstContact(t, u.pubkey, freshId, now);
            var o := if ModeAccepted(v, u) then Committed else ClassifyRefused(v, u);
            && (forall a :: HasPubkey(t, a, u.pubkey) ==> o == ModeAnswer(t.sparks[a], u))
            && ((forall a :: !HasPubkey(t, a, u.pubkey)) ==> o.Committed?)
  {
    var v := FirstContact(t, u.pubkey, freshId, now);
    FirstContactConsistent(t, u.pubkey, freshId, now);
    if a :| HasPubkey(t, a, u.pubkey) {
      SparkOfIs(t, a, u.pubkey);
      ModeAnswers(t, u, a);
    } else {
      assert HasPubkey(v, freshId, u.pubkey);
      SparkOfIs(v, freshId, u.pubkey);
      ModeAnswers(v, u, freshId);
    }
  }

  lemma SameSparks(t: Tables, t': Tables, pubkey: string)
    requires UniquePubkeys(t) && t.sparks == t'.sparks
    ensures SparkOf(t, pubkey) == SparkOf(t', pubkey)
  {
    assert forall a :: HasPubkey(t, a, pubkey) <==> HasPubkey(t', a, pubkey);
    if SparkOf(t, pubkey).Some? { SparkOfIs(t', SparkOf(t, pubkey).value, pubkey); }
  }

  /** The rows inserted so far hold the old names and those of the list. */
  lemma AddNamesHolds(names: map<Name, NameRow>, id: AccountId, ids: seq<NewIdentifier>, now: int, n: Name)
    ensures n in AddNames(names, id, ids, now) <==> n in names || exists j :: 0 <= j < |ids| && ids[j].name == n
  {
    AddNamesKeys(names, id, ids, now);
  }

  lemma AddNamesSnoc(names: map<Name, NameRow>, id: AccountId, ids: seq<NewIdentifier>, i: nat, now: int)
    requires i < |ids|
    ensures AddNames(names, id, ids[..i + 1], now)
            == AddNames(names, id, ids[..i], now)[ids[i].name := NameRow(id, ids[i].kind, ids[i].description, now, now)]
  {
    assert ids[..i + 1][..i] == ids[..i];
  }

  lemma ModeWrittenConsistent(t: Tables, u: ModeUpdate, now: int)
    requires Consistent(t)
    ensures Consistent(ModeWritten(t, u, now))
  {
    SparkRewriteConsistent(t, ModeWritten(t, u, now));
  }
}
