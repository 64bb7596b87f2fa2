/**
 * What every account transaction keeps: the table invariant, the rows that
 * only grow, and the exact frame of the writes. With the invariant, the row
 * mapper never reports broken ownership and the two username lookups are
 * inverse to each other.
 */
module AccountInvariants {
  import opened Text
  import opened AccountStore

  // ----- accounts are never removed and never change sides -----

  ghost predicate Evolves(t: Tables, t': Tables) {
    && (forall a :: a in t.accounts ==> a in t'.accounts && t'.accounts[a].provider == t.accounts[a].provider)
    && (forall a :: a in t.sparks ==> a in t'.sparks && t'.sparks[a].pubkey == t.sparks[a].pubkey)
    && (forall a :: a in t.blinks ==>
          && a in t'.blinks && t'.blinks[a].blinkId == t.blinks[a].blinkId
          && t'.blinks[a].btcWallet == t.blinks[a].btcWallet && t'.blinks[a].usdWallet == t.blinks[a].usdWallet)
  }

  lemma EvolvesTransitive(t: Tables, t': Tables, t'': Tables)
    requires Evolves(t, t') && Evolves(t', t'')
    ensures Evolves(t, t'')
  {
  }

  // ----- the table invariant -----

  /** A write that gives no Spark account a username it did not hold keeps one per domain. */
  lemma NoNewUsernames(t: Tables, t': Tables)
    requires OneUsername(t)
    requires forall m, a :: SparkUsername(t', m, a) ==> SparkUsername(t, m, a)
    ensures OneUsername(t')
  {
    forall m, n, a | SparkUsername(t', m, a) && SparkUsername(t', n, a) && m.domain == n.domain ensures m == n {
      assert SparkUsername(t, m, a) && SparkUsername(t, n, a);
    }
  }

  lemma RegisteredConsistent(t: Tables, r: Registration, freshId: AccountId, now: int)
    requires Consistent(t) && freshId !in t.accounts
    requires RegistrationRefusal(t, r, freshId).None?
    ensures Consistent(Registered(t, r, freshId, now))
  {
    var t' := Registered(t, r, freshId, now);
    var a := RegistrationAccount(t, r, freshId);
    assert UniquePubkeys(t') by {
      forall x | x in t'.sparks && x != a ensures t'.sparks[x].pubkey != r.pubkey {
        assert HasPubkey(t, x, t.sparks[x].pubkey);
      }
    }
    assert ChildRows(t') && UniqueBlinkIds(t');
    assert OwnersExist(t') by {
      forall n | n in t'.names ensures t'.names[n].owner in t'.accounts {
        assert n != r.identifier.name ==> t'.names[n] == t.names[n];
      }
    }
    RegisteredOneUsername(t, r, freshId, now);
  }

  lemma RegisteredOneUsername(t: Tables, r: Registration, freshId: AccountId, now: int)
    requires OneUsername(t) && OwnersExist(t) && ChildRows(t) && freshId !in t.accounts
    requires RegistrationRefusal(t, r, freshId).None?
    ensures OneUsername(Registered(t, r, freshId, now))
  {
    var t', a, keep := Registered(t, r, freshId, now), RegistrationAccount(t, r, freshId), r.identifier.name;
    forall m, n, x | SparkUsername(t', m, x) && SparkUsername(t', n, x) && m.domain == n.domain
      ensures m == n
    {
      if x == a && m.domain == keep.domain {
        assert !Evicted(t.names, a, keep, m) || m == keep;
      } else {
        assert m != keep && n != keep;
        assert SparkUsername(t, m, x) && SparkUsername(t, n, x);
      }
    }
  }

  lemma TransferredConsistent(t: Tables, x: Transfer, from: Provider, freshId: AccountId, now: int)
    requires Consistent(t) && freshId !in t.accounts
    requires TransferRefusal(t, x, from).None?
    ensures Consistent(Transferred(t, x, freshId, now)) && Evolves(t, Transferred(t, x, freshId, now))
  {
    var t' := Transferred(t, x, freshId, now);
    var a := TransferTarget(t, x, freshId);
    assert UniquePubkeys(t') by {
      forall y | y in t'.sparks && y != a ensures t'.sparks[y].pubkey != x.target {
        assert HasPubkey(t, y, t.sparks[y].pubkey);
      }
    }
    assert OneUsername(t') by {
      forall m, n, y | SparkUsername(t', m, y) && SparkUsername(t', n, y) && m.domain == n.domain
        ensures m == n
      {
        if m == x.name || n == x.name {
          assert y == a;
        } else {
          assert t'.names[m] == t.names[m] && t'.names[n] == t.names[n];
          assert y in t.sparks by { assert y in t.accounts; }
          assert SparkUsername(t, m, y) && SparkUsername(t, n, y);
        }
      }
    }
  }

  lemma DeletedConsistent(t: Tables, n: Name, claim: Option<Claim>)
    requires Consistent(t)
    ensures Consistent(Deleted(t, n, claim)) && Evolves(t, Deleted(t, n, claim))
  {
    NoNewUsernames(t, Deleted(t, n, claim));
  }

  lemma BlinkCreatedConsistent(t: Tables, id: AccountId, b: NewBlink, now: int)
    requires Consistent(t)
    requires BlinkRefusal(t, id, b).None?
    ensures Consistent(BlinkCreated(t, id, b, now)) && Evolves(t, BlinkCreated(t, id, b, now))
  {
    var t' := BlinkCreated(t, id, b, now);
    AddNamesKeys(t.names, id, b.identifiers, now);
    BlinkCreatedOwners(t, id, b, now);
    assert id !in t'.sparks;
    forall m, a | SparkUsername(t', m, a) ensures SparkUsername(t, m, a) {
      assert t'.names[m].owner != id;
    }
    NoNewUsernames(t, t');
    assert ChildRows(t') && UniqueBlinkIds(t');
  }

  lemma BlinkCreatedOwners(t: Tables, id: AccountId, b: NewBlink, now: int)
    requires OwnersExist(t)
    ensures OwnersExist(BlinkCreated(t, id, b, now))
  {
    var t' := BlinkCreated(t, id, b, now);
    AddNamesKeys(t.names, id, b.identifiers, now);
    forall n | n in t'.names ensures t'.names[n].owner in t'.accounts {
      assert t'.names[n].owner == id || (n in t.names && t'.names[n] == t.names[n]);
    }
  }

  lemma FirstContactConsistent(t: Tables, pubkey: string, freshId: AccountId, now: int)
    requires Consistent(t) && freshId !in t.accounts
    ensures Consistent(FirstContact(t, pubkey, freshId, now)) && Evolves(t, FirstContact(t, pubkey, freshId, now))
  {
    if SparkOf(t, pubkey).None? {
      FirstContactUnique(t, pubkey, freshId, now);
      NewSparkConsistent(t, FirstContact(t, pubkey, freshId, now), pubkey, freshId, now);
    }
  }

  /** A new account with its Spark row, for a key no row has. */
  lemma NewSparkConsistent(t: Tables, t': Tables, pubkey: string, freshId: AccountId, now: int)
    requires Consistent(t) && freshId !in t.accounts && UniquePubkeys(t')
    requires t' == t.(accounts := t.accounts[freshId := AccountRow(Spark, now, now)],
                      sparks := t.sparks[freshId := NewSpark(pubkey, now)])
    ensures Consistent(t') && Evolves(t, t')
  {
    assert ChildRows(t') && OwnersExist(t') && Evolves(t, t');
    forall m, a | SparkUsername(t', m, a) ensures SparkUsername(t, m, a) {
      assert t.names[m].owner in t.accounts;
    }
    NoNewUsernames(t, t');
  }

  /** Rewriting Spark rows without touching their keys or pubkeys: the mode register's writes. */
  ghost predicate SameSparkKeys(t: Tables, t': Tables) {
    && t'.(sparks := t.sparks) == t
    && t'.sparks.Keys == t.sparks.Keys
    && forall a :: a in t.sparks ==> t'.sparks[a].pubkey == t.sparks[a].pubkey
  }

  lemma SparkRewriteConsistent(t: Tables, t': Tables)
    requires Consistent(t) && SameSparkKeys(t, t')
    ensures Consistent(t') && Evolves(t, t')
  {
    NoNewUsernames(t, t');
  }

  lemma WalletChangedConsistent(t: Tables, blinkId: string, wallet: WalletKind, now: int)
    requires Consistent(t)
    ensures Consistent(WalletChanged(t, blinkId, wallet, now)) && Evolves(t, WalletChanged(t, blinkId, wallet, now))
  {
    var t' := WalletChanged(t, blinkId, wallet, now);
    assert t'.blinks.Keys == t.blinks.Keys;
    NoNewUsernames(t, t');
  }

  lemma RegisteredEvolves(t: Tables, r: Registration, freshId: AccountId, now: int)
    requires Consistent(t) && freshId !in t.accounts && r.accountId.None?
    requires RegistrationRefusal(t, r, freshId).None?
    ensures Evolves(t, Registered(t, r, freshId, now))
  {
  }

  // ----- the row mapper -----

  datatype Recipient = Recipient(
    accountId: AccountId, provider: Provider, name: Name, kind: IdentifierKind, description: string,
    sparkPubkey: Option<string>,
    blinkId: Option<string>, btcWallet: Option<string>, usdWallet: Option<string>, defaultWallet: Option<WalletKind>)

  datatype Resolution = NotFound | Resolved(recipient: Recipient) | Failed(error: StoreError)

  /**
   * resolve_recipient_by_identifier: the join of the name's account with both
   * child tables, then map_resolved_recipient.
   */
  function Resolve(t: Tables, n: Name): Resolution {
    if n !in t.names || t.names[n].owner !in t.accounts then NotFound
    else
      var row := t.names[n];
      var a := row.owner;
      var provider := t.accounts[a].provider;
      var hasSpark, hasBlink := a in t.sparks, a in t.blinks;
      if (provider == Spark && (!hasSpark || hasBlink)) || (provider == Blink && (hasSpark || !hasBlink))
      then Failed(InvalidOwnership)
      else Resolved(Recipient(a, provider, n, row.kind, row.description,
                              if hasSpark then Some(t.sparks[a].pubkey) else None,
                              if hasBlink then Some(t.blinks[a].blinkId) else None,
                              if hasBlink then Some(t.blinks[a].btcWallet) else None,
                              if hasBlink then Some(t.blinks[a].usdWallet) else None,
                              if hasBlink then Some(t.blinks[a].defaultWallet) else None))
  }

  /** On consistent tables the mapper never fails: exactly the stored names resolve, each to one side. */
  lemma ResolveIsSound(t: Tables, n: Name)
    requires Consistent(t)
    ensures !Resolve(t, n).Failed?
    ensures Resolve(t, n).Resolved? <==> n in t.names
    ensures Resolve(t, n).Resolved? ==>
              var r := Resolve(t, n).recipient;
              && (r.provider == Spark <==> r.sparkPubkey.Some?)
              && (r.provider == Blink <==>
                  r.blinkId.Some? && r.btcWallet.Some? && r.usdWallet.Some? && r.defaultWallet.Some?)
              && r.name == n && r.accountId == t.names[n].owner && r.kind == t.names[n].kind
                 && r.description == t.names[n].description
              && (r.provider == Spark ==> HasPubkey(t, r.accountId, r.sparkPubkey.value))
              && (r.provider == Blink ==>
                    && r.accountId in t.blinks && r.blinkId.value == t.blinks[r.accountId].blinkId
                    && r.btcWallet.value == t.blinks[r.accountId].btcWallet
                       && r.usdWallet.value == t.blinks[r.accountId].usdWallet
                    && r.defaultWallet.value == t.blinks[r.accountId].defaultWallet)
  {
    if n in t.names {
      assert t.names[n].owner in t.accounts;
    }
  }

  // ----- forward and reverse lookup -----

  /** get_spark_username_by_name: account_identifiers, joined with accounts and with spark_accounts. */
  ghost function PubkeyOfUsername(t: Tables, n: Name): Option<string> {
    if n in t.names && SparkUsername(t, n, t.names[n].owner) && t.names[n].owner in t.accounts
       && t.accounts[t.names[n].owner].provider == Spark
    then Some(t.sparks[t.names[n].owner].pubkey)
    else None
  }

  /**
   * A stored username is found under the key its owner has, whatever else the
   * owner's row says, and nothing else is.
   */
  lemma ForwardExactly(t: Tables, n: Name, pubkey: string)
    requires Consistent(t)
    ensures PubkeyOfUsername(t, n) == Some(pubkey) <==>
            && n in t.names && t.names[n].kind == Username
            && t.names[n].owner in t.sparks && t.sparks[t.names[n].owner].pubkey == pubkey
  {
  }

  /**
   * A row that get_spark_username_by_pubkey selects before ORDER BY and LIMIT:
   * the Spark row `a` with the key, its account, and a username of it.
   */
  ghost predicate Selects(t: Tables, domain: string, pubkey: string, a: AccountId, n: Name) {
    && a in t.sparks && t.sparks[a].pubkey == pubkey
    && a in t.accounts && t.accounts[a].provider == Spark
    && n in t.names && t.names[n].owner == a && t.names[n].kind == Username && n.domain == domain
  }

  ghost predicate Candidate(t: Tables, domain: string, pubkey: string, n: Name) {
    exists a :: Selects(t, domain, pubkey, a, n)
  }

  /** ORDER BY updated_at DESC, identifier ASC; the collation of the database is a parameter. */
  ghost predicate Before(t: Tables, less: (string, string) -> bool, m: Name, n: Name)
    requires m in t.names && n in t.names
  {
    t.names[m].updatedAt > t.names[n].updatedAt
    || (t.names[m].updatedAt == t.names[n].updatedAt && less(m.identifier, n.identifier))
  }

  /** `answer` is a possible reply of get_spark_username_by_pubkey. */
  ghost predicate ReverseAnswer(t: Tables, less: (string, string) -> bool, domain: string, pubkey: string,
                                answer: Option<string>)
  {
    match answer {
      case None => forall n :: !Candidate(t, domain, pubkey, n)
      case Some(u) =>
        && Candidate(t, domain, pubkey, Name(domain, u))
        && forall n :: Candidate(t, domain, pubkey, n) && n != Name(domain, u) ==> !Before(t, less, n, Name(domain, u))
    }
  }

  lemma CandidateIsForward(t: Tables, domain: string, pubkey: string, n: Name)
    requires Consistent(t)
    ensures Candidate(t, domain, pubkey, n) <==> n.domain == domain && PubkeyOfUsername(t, n) == Some(pubkey)
  {
    if n.domain == domain && PubkeyOfUsername(t, n) == Some(pubkey) {
      assert Selects(t, domain, pubkey, t.names[n].owner, n);
    }
  }

  /** The two queries are inverse to each other, and the ordering of the second never has to choose. */
  lemma LookupsAgree(t: Tables, less: (string, string) -> bool, domain: string, pubkey: string, u: string)
    requires Consistent(t)
    ensures ReverseAnswer(t, less, domain, pubkey, Some(u)) <==> PubkeyOfUsername(t, Name(domain, u)) == Some(pubkey)
    ensures ReverseAnswer(t, less, domain, pubkey, Some(u)) ==>
              forall v :: ReverseAnswer(t, less, domain, pubkey, v) ==> v == Some(u)
  {
    CandidateIsForward(t, domain, pubkey, Name(domain, u));
    forall m, n | Candidate(t, domain, pubkey, m) && Candidate(t, domain, pubkey, n)
      ensures m == n
    {
      var a :| Selects(t, domain, pubkey, a, m);
      var b :| Selects(t, domain, pubkey, b, n);
      assert SparkUsername(t, m, a) && SparkUsername(t, n, b);
    }
  }

  // ----- exact frames -----

  /**
   * A committed registration or transfer of `keep` to account `a` touches no
   * other name, except that the other usernames of `a` in that domain go.
   */
  ghost predicate NamesFramed(t: Tables, t': Tables, a: AccountId, keep: Name) {
    forall n :: n != keep ==>
      if n in t.names && t.names[n].owner == a && t.names[n].kind == Username && n.domain == keep.domain
      then n !in t'.names
      else (n in t'.names <==> n in t.names) && (n in t.names ==> t'.names[n] == t.names[n])
  }

  ghost predicate AccountsFramed(t: Tables, t': Tables, a: AccountId) {
    && (forall x :: x != a ==>
          (x in t'.accounts <==> x in t.accounts) && (x in t.accounts ==> t'.accounts[x] == t.accounts[x]))
    && (forall x :: x != a ==> (x in t'.sparks <==> x in t.sparks) && (x in t.sparks ==> t'.sparks[x] == t.sparks[x]))
    && t'.blinks == t.blinks
  }

  /** The statement of the claim, if there is one, is added to the claims. */
  ghost predicate ClaimsFramed(t: Tables, t': Tables, claim: Option<Claim>) {
    forall s ::
      if claim.Some? && s == claim.value.statement
      then s in t'.claims && t'.claims[s] == ClaimRow(claim.value.route, claim.value.expiresAt)
      else (s in t'.claims <==> s in t.claims) && (s in t.claims ==> t'.claims[s] == t.claims[s])
  }

  lemma RegistrationFrame(t: Tables, r: Registration, freshId: AccountId, now: int)
    requires Consistent(t) && freshId !in t.accounts && RegistrationRefusal(t, r, freshId).None?
    ensures var t', a := Registered(t, r, freshId, now), RegistrationAccount(t, r, freshId);
            && NamesFramed(t, t', a, r.identifier.name)
            && AccountsFramed(t, t', a)
            && ClaimsFramed(t, t', r.claim)
            && SparkUsername(t', r.identifier.name, a) && t'.sparks[a].pubkey == r.pubkey
            && t'.names[r.identifier.name].description == r.identifier.description
            && (r.identifier.name in t.names ==>
                  t'.names[r.identifier.name].createdAt == t.names[r.identifier.name].createdAt)
            && (a in t.sparks ==>
                  t'.sparks[a] == t.sparks[a].(pubkey := r.pubkey, updatedAt := t'.sparks[a].updatedAt))
  {
  }

  lemma TransferFrame(t: Tables, x: Transfer, from: Provider, freshId: AccountId, now: int)
    requires Consistent(t) && freshId !in t.accounts && TransferRefusal(t, x, from).None?
    ensures var t', a := Transferred(t, x, freshId, now), TransferTarget(t, x, freshId);
            && NamesFramed(t, t', a, x.name)
            && AccountsFramed(t, t', a)
            && ClaimsFramed(t, t', x.claim)
            && x.name in t'.names && t'.names[x.name].owner == a && t'.names[x.name].kind == t.names[x.name].kind
            && t'.names[x.name].description == x.description && t'.names[x.name].createdAt == t.names[x.name].createdAt
            && a in t'.sparks && t'.sparks[a].pubkey == x.target
            && (a in t.sparks ==> t'.sparks[a] == t.sparks[a])
  {
    var t', a := Transferred(t, x, freshId, now), TransferTarget(t, x, freshId);
    var moved := t.names[x.name].(owner := a, description := x.description, updatedAt := now);
    forall n | n != x.name
      ensures Evicted(t.names[x.name := moved], a, x.name, n) <==> Evicted(t.names, a, x.name, n)
    {
    }
  }
}
