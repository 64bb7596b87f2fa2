/**
 * What the account transactions answer and write, told in the columns of the
 * tables before and after them.
 */
module AccountLaws {
  import opened Text
  import opened AccountStore
  import opened AccountInvariants

  ghost predicate Unclaimed(t: Tables, claim: Option<Claim>) {
    forall c :: claim == Some(c) ==> c.statement !in t.claims
  }

  /** The name is stored for an account that holds the key. */
  ghost predicate StoredFor(t: Tables, n: Name, pubkey: string) {
    n in t.names && t.names[n].owner in t.sparks && t.sparks[t.names[n].owner].pubkey == pubkey
  }

  // ----- registration -----

  /** The answer to a registration by a key: a stored name can only be registered by the key it is stored for. */
  ghost function RegistrationAnswer(t: Tables, r: Registration): Outcome {
    if r.identifier.kind == Phone then Refused(InvalidIdentifierKind)
    else if !Unclaimed(t, r.claim) then Refused(StatementAlreadyUsed)
    else if r.identifier.name in t.names && !StoredFor(t, r.identifier.name, r.pubkey) then Refused(IdentifierConflict)
    else Committed
  }

  ghost function AsOutcome(refusal: Option<StoreError>): Outcome {
    match refusal { case None => Committed case Some(e) => Refused(e) }
  }

  lemma RegistrationAnswers(t: Tables, r: Registration, freshId: AccountId)
    requires Consistent(t) && freshId !in t.accounts && r.accountId.None?
    ensures AsOutcome(RegistrationRefusal(t, r, freshId)) == RegistrationAnswer(t, r)
  {
    var n := r.identifier.name;
    if n in t.names && StoredFor(t, n, r.pubkey) {
      SparkOfIs(t, t.names[n].owner, r.pubkey);
    }
  }

  /** A registration for a given account needs that account to be the key's, if the key has one, and the name's. */
  lemma RegistrationForAccount(t: Tables, r: Registration, freshId: AccountId, a: AccountId)
    requires Consistent(t) && freshId !in t.accounts && r.accountId == Some(a)
    ensures RegistrationRefusal(t, r, freshId).None? <==>
              && r.identifier.kind == Username && Unclaimed(t, r.claim)
              && (a in t.accounts ==> t.accounts[a].provider == Spark)
              && (r.identifier.name in t.names ==> t.names[r.identifier.name].owner == a)
              && (forall x :: x in t.sparks && t.sparks[x].pubkey == r.pubkey ==> x == a)
  {
    if x :| x in t.sparks && t.sparks[x].pubkey == r.pubkey {
      SparkOfIs(t, x, r.pubkey);
    }
  }

  /** No registration changes the owner of a name that was stored. */
  lemma RegistrationKeepsOwners(t: Tables, r: Registration, freshId: AccountId, now: int, n: Name)
    requires Consistent(t) && freshId !in t.accounts && RegistrationRefusal(t, r, freshId).None?
    requires n in t.names && n in Registered(t, r, freshId, now).names
    ensures Registered(t, r, freshId, now).names[n].owner == t.names[n].owner
  {
    RegistrationFrame(t, r, freshId, now);
  }

  /** A registration leaves the names of Blink accounts as they are. */
  lemma RegistrationKeepsBlinkName(t: Tables, r: Registration, freshId: AccountId, now: int, n: Name)
    requires Consistent(t) && freshId !in t.accounts && r.accountId.None? && RegistrationRefusal(t, r, freshId).None?
    requires n in t.names && t.names[n].owner in t.blinks
    ensures n in Registered(t, r, freshId, now).names && Registered(t, r, freshId, now).names[n] == t.names[n]
  {
    RegistrationAnswers(t, r, freshId);
    RegistrationFrame(t, r, freshId, now);
    assert t.names[n].owner !in t.sparks && t.names[n].owner in t.accounts;
  }

  // ----- deletion and transfers -----

  lemma DeletionAnswers(t: Tables, n: Name, pubkey: string, claim: Option<Claim>)
    requires Consistent(t)
    ensures DeletionRefusal(t, n, pubkey, claim) ==
            if !Unclaimed(t, claim) then Some(StatementAlreadyUsed)
            else if StoredFor(t, n, pubkey) then None
            else Some(SourceNotOwner)
  {
    if StoredFor(t, n, pubkey) { SparkOfIs(t, t.names[n].owner, pubkey); }
  }

  lemma DeletionFrame(t: Tables, n: Name, claim: Option<Claim>)
    ensures var t' := Deleted(t, n, claim);
            && n !in t'.names && (forall m :: m != n ==> (m in t'.names <==> m in t.names))
            && (forall m :: m in t'.names ==> t'.names[m] == t.names[m])
            && t'.accounts == t.accounts && t'.sparks == t.sparks && t'.blinks == t.blinks && ClaimsFramed(t, t', claim)
  {
  }

  /** The source must own the name and be on the side the transfer is for. */
  lemma TransferAnswers(t: Tables, x: Transfer, from: Provider)
    requires Consistent(t)
    ensures TransferRefusal(t, x, from) ==
            if !Unclaimed(t, x.claim) then Some(StatementAlreadyUsed)
            else if x.name !in t.names || t.names[x.name].owner != x.source then Some(SourceNotOwner)
            else if from == Spark && x.source !in t.sparks then Some(InvalidOwnership)
            else if from == Blink && x.source !in t.blinks then Some(InvalidOwnership)
            else None
  {
  }

  /** A key new to the server gets a Spark account of its own, otherwise no account row is touched. */
  lemma TransferAccounts(t: Tables, x: Transfer, from: Provider, freshId: AccountId, now: int)
    requires Consistent(t) && freshId !in t.accounts && TransferRefusal(t, x, from).None?
    ensures var t' := Transferred(t, x, freshId, now);
            if exists a :: a in t.sparks && t.sparks[a].pubkey == x.target
            then t'.accounts == t.accounts && t'.sparks == t.sparks && StoredFor(t', x.name, x.target)
            else
              && t'.names[x.name].owner == freshId && freshId in t'.accounts && freshId in t'.sparks
              && t'.accounts[freshId] == AccountRow(Spark, now, now) && t'.sparks[freshId].pubkey == x.target
              && t'.sparks[freshId].mode.None? && t'.sparks[freshId].anchor.None? && t'.sparks[freshId].country.None?
  {
    TransferFrame(t, x, from, freshId, now);
    if a :| a in t.sparks && t.sparks[a].pubkey == x.target {
      SparkOfIs(t, a, x.target);
    }
  }

  /** A signed transfer leaves the names of Blink accounts as they are. */
  lemma TransferKeepsBlinkName(t: Tables, x: Transfer, freshId: AccountId, now: int, n: Name)
    requires Consistent(t) && freshId !in t.accounts && TransferRefusal(t, x, Spark).None?
    requires n in t.names && t.names[n].owner in t.blinks
    ensures n in Transferred(t, x, freshId, now).names && Transferred(t, x, freshId, now).names[n] == t.names[n]
  {
    TransferAnswers(t, x, Spark);
    TransferFrame(t, x, Spark, freshId, now);
    assert t.names[n].owner !in t.sparks && t.names[n].owner in t.accounts;
  }

  // ----- Blink accounts -----

  ghost predicate SameBlink(row: BlinkRow, b: NewBlink) {
    && row.blinkId == b.blinkId && row.btcWallet == b.btcWallet && row.usdWallet == b.usdWallet
    && row.defaultWallet == b.defaultWallet
  }

  lemma BlinkAnswers(t: Tables, id: AccountId, b: NewBlink)
    requires Consistent(t)
    ensures BlinkRefusal(t, id, b) ==
            if id in t.sparks then Some(InvalidProvider)
            else if id in t.blinks && SameBlink(t.blinks[id], b) then Some(BlinkAccountExists)
            else if id in t.blinks then Some(InvalidOwnership)
            else if exists a :: a in t.blinks && t.blinks[a].blinkId == b.blinkId then Some(BlinkAccountExists)
            else if exists x :: x in b.identifiers && x.name in t.names then Some(IdentifierConflict)
            else if exists i, j :: 0 <= i < j < |b.identifiers| && b.identifiers[i].name == b.identifiers[j].name
            then Some(General)
            else None
  {
    if x :| x in b.identifiers && x.name in t.names {
      var i :| 0 <= i < |b.identifiers| && b.identifiers[i] == x;
      assert b.identifiers[i].name in t.names;
    }
    if i :| 0 <= i < |b.identifiers| && b.identifiers[i].name in t.names {
      assert b.identifiers[i] in b.identifiers;
    }
  }

  lemma {:induction false} AddNamesRow(names: map<Name, NameRow>, id: AccountId, ids: seq<NewIdentifier>, now: int,
                                       x: NewIdentifier)
    requires DistinctNames(ids) && x in ids
    ensures x.name in AddNames(names, id, ids, now)
    ensures AddNames(names, id, ids, now)[x.name] == NameRow(id, x.kind, x.description, now, now)
  {
    var init, last := ids[..|ids| - 1], ids[|ids| - 1];
    if x != last {
      assert x in init;
      var i :| 0 <= i < |init| && init[i] == x;
      assert ids[i].name != ids[|ids| - 1].name;
      AddNamesRow(names, id, init, now, x);
    }
  }

  /** The names of the request are stored for the new account, and no name that was stored changes. */
  lemma BlinkNamesFrame(t: Tables, id: AccountId, b: NewBlink, now: int)
    requires BlinkRefusal(t, id, b).None?
    ensures var t' := BlinkCreated(t, id, b, now);
            && (forall x :: x in b.identifiers ==>
                  x.name in t'.names && t'.names[x.name] == NameRow(id, x.kind, x.description, now, now))
            && (forall n :: n in t.names ==> n in t'.names && t'.names[n] == t.names[n])
            && (forall n :: n in t'.names && n !in t.names ==> exists x :: x in b.identifiers && x.name == n)
  {
    var t' := BlinkCreated(t, id, b, now);
    AddNamesKeys(t.names, id, b.identifiers, now);
    forall x | x in b.identifiers
      ensures x.name in t'.names && t'.names[x.name] == NameRow(id, x.kind, x.description, now, now)
    {
      AddNamesRow(t.names, id, b.identifiers, now, x);
    }
    forall n | n in t'.names && n !in t.names ensures exists x :: x in b.identifiers && x.name == n {
      var i :| 0 <= i < |b.identifiers| && b.identifiers[i].name == n;
      assert b.identifiers[i] in b.identifiers;
    }
  }

  /** The account's columns are those of the request, and no other account, row or claim changes. */
  lemma BlinkCreatedFrame(t: Tables, id: AccountId, b: NewBlink, now: int)
    requires Consistent(t) && BlinkRefusal(t, id, b).None?
    ensures var t' := BlinkCreated(t, id, b, now);
            && t'.accounts == t.accounts[id := AccountRow(Blink, now, now)] && t'.sparks == t.sparks
            && t'.claims == t.claims && t'.blinks.Keys == t.blinks.Keys + {id} && SameBlink(t'.blinks[id], b)
            && (forall a :: a in t.blinks ==> t'.blinks[a] == t.blinks[a])
  {
  }

  lemma WalletChangedFrame(t: Tables, blinkId: string, wallet: WalletKind, now: int)
    ensures var t' := WalletChanged(t, blinkId, wallet, now);
            && t'.accounts == t.accounts && t'.sparks == t.sparks && t'.names == t.names && t'.claims == t.claims
            && t'.blinks.Keys == t.blinks.Keys
            && forall a :: a in t.blinks ==>
                 if t.blinks[a].blinkId != blinkId then t'.blinks[a] == t.blinks[a]
                 else
                   && t'.blinks[a].defaultWallet == wallet && t'.blinks[a].blinkId == blinkId
                   && t'.blinks[a].btcWallet == t.blinks[a].btcWallet && t'.blinks[a].usdWallet == t.blinks[a].usdWallet
                   && t'.blinks[a].createdAt == t.blinks[a].createdAt
  {
  }

  // ----- first contact -----

  lemma FirstContactFrame(t: Tables, pubkey: string, freshId: AccountId, now: int)
    requires Consistent(t) && freshId !in t.accounts
    ensures var t' := FirstContact(t, pubkey, freshId, now);
            if exists a :: a in t.sparks && t.sparks[a].pubkey == pubkey then t' == t
            else
              && t'.accounts == t.accounts[freshId := AccountRow(Spark, now, now)]
              && t'.sparks.Keys == t.sparks.Keys + {freshId} && t'.sparks[freshId].pubkey == pubkey
              && t'.sparks[freshId].mode.None? && t'.sparks[freshId].anchor.None? && t'.sparks[freshId].country.None?
              && (forall a :: a in t.sparks ==> t'.sparks[a] == t.sparks[a])
              && t'.blinks == t.blinks && t'.names == t.names && t'.claims == t.claims
  {
    if a :| a in t.sparks && t.sparks[a].pubkey == pubkey {
      SparkOfIs(t, a, pubkey);
    }
  }

  // ----- the mode register -----

  /** The answer to a mode request for a key with this row: a newer request and an exact repeat succeed. */
  ghost function ModeAnswer(row: SparkRow, u: ModeUpdate): Outcome {
    if row.anchor.None? || row.anchor.value < u.timestamp
      || (row.anchor.value == u.timestamp && row.mode == Some(u.mode))
    then Committed
    else Refused(StaleModeTimestamp)
  }

  lemma ModeAnswers(t: Tables, u: ModeUpdate, a: AccountId)
    requires Consistent(t) && HasPubkey(t, a, u.pubkey)
    ensures (if ModeAccepted(t, u) then Committed else ClassifyRefused(t, u)) == ModeAnswer(t.sparks[a], u)
    ensures ModeAccepted(t, u) <==> t.sparks[a].anchor.None? || t.sparks[a].anchor.value < u.timestamp
  {
    SparkOfIs(t, a, u.pubkey);
  }

  /** Only the row of `a` may have changed, and it keeps its key and creation time. */
  ghost predicate OnlyRow(t: Tables, t': Tables, a: AccountId)
    requires a in t.sparks
  {
    && t'.accounts == t.accounts && t'.blinks == t.blinks && t'.names == t.names && t'.claims == t.claims
    && t'.sparks.Keys == t.sparks.Keys && (forall x :: x in t.sparks && x != a ==> t'.sparks[x] == t.sparks[x])
    && t'.sparks[a].pubkey == t.sparks[a].pubkey && t'.sparks[a].createdAt == t.sparks[a].createdAt
  }

  /** The columns an accepted mode request writes; a refused one writes nothing. */
  lemma ModeWrittenFrame(t: Tables, u: ModeUpdate, now: int, a: AccountId)
    requires Consistent(t) && HasPubkey(t, a, u.pubkey)
    ensures var t' := ModeWritten(t, u, now);
            && OnlyRow(t, t', a)
            && var before, after := t.sparks[a], t'.sparks[a];
               if before.anchor.Some? && u.timestamp <= before.anchor.value then after == before
               else
                 && after.mode == Some(u.mode) && after.anchor == Some(u.timestamp) && after.modeUpdatedAt == Some(now)
                 && after.source == Some(if before.mode.None? then Signup else Switch)
                 && (u.mode == Anon ==> after.country.None? && after.countryUpdatedAt.None?)
                 && (u.mode == Enhanced && u.country.Some? ==>
                     after.country == u.country && after.countryUpdatedAt == Some(now))
                 && (u.mode == Enhanced && u.country.None? ==>
                       after.country == before.country && after.countryUpdatedAt == before.countryUpdatedAt)
  {
    SparkOfIs(t, a, u.pubkey);
  }

  /** A backfill makes an untyped key enhanced, as migrated and without an anchor, and leaves a typed one alone. */
  lemma BackfilledFrame(t: Tables, pubkey: string, now: int, a: AccountId)
    requires Consistent(t) && HasPubkey(t, a, pubkey)
    ensures var t' := Backfilled(t, pubkey, now);
            && OnlyRow(t, t', a)
            && var before, after := t.sparks[a], t'.sparks[a];
               if before.mode.Some? then after == before
               else
                 && after.mode == Some(Enhanced) && after.source == Some(Migration) && after.modeUpdatedAt == Some(now)
                 && after.anchor == before.anchor && after.country == before.country
                 && after.countryUpdatedAt == before.countryUpdatedAt
  {
    SparkOfIs(t, a, pubkey);
  }

  /** Evidence is written for an enhanced key, and its mode columns stay. */
  lemma CountryRefreshedFrame(t: Tables, pubkey: string, country: string, now: int, a: AccountId)
    requires Consistent(t) && HasPubkey(t, a, pubkey)
    ensures var t' := CountryRefreshed(t, pubkey, country, now);
            && OnlyRow(t, t', a)
            && var before, after := t.sparks[a], t'.sparks[a];
               if before.mode != Some(Enhanced) then after == before
               else
                 && after.country == Some(country) && after.countryUpdatedAt == Some(now)
                 && after.mode == before.mode && after.source == before.source && after.anchor == before.anchor
                 && after.modeUpdatedAt == before.modeUpdatedAt
  {
    SparkOfIs(t, a, pubkey);
  }

  /** Nothing is written for a key without a row. */
  lemma UnknownKeyFrame(t: Tables, u: ModeUpdate, country: string, now: int)
    requires forall a :: !HasPubkey(t, a, u.pubkey)
    ensures ModeWritten(t, u, now) == t && Backfilled(t, u.pubkey, now) == t
    ensures CountryRefreshed(t, u.pubkey, country, now) == t && ClassifyRefused(t, u) == Refused(AccountNotFound)
  {
  }

  // ----- claims -----

  /** The pruner drops exactly the claims whose expiry is past. */
  lemma PrunedFrame(t: Tables, now: int, s: string)
    ensures var t' := Pruned(t, now);
            && (s in t'.claims <==> s in t.claims && now <= t.claims[s].expiresAt)
            && (s in t'.claims ==> t'.claims[s] == t.claims[s])
            && t'.accounts == t.accounts && t'.sparks == t.sparks && t'.blinks == t.blinks && t'.names == t.names
  {
  }
}
