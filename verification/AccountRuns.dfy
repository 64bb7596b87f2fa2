/**
 * Whole runs of the account API: every interleaving of signed requests,
 * internal requests, background tasks and clock steps over one database.
 *
 * A request is not one step. The timestamp check, the existence read of a
 * first contact, the mode pre-checks and the resolution of a transfer source
 * happen before the transaction and may be stale when it runs; an action
 * therefore carries the clock reading its check was made at. Each SQL
 * transaction or single statement is one atomic step. The route pre-checks
 * that depend on the stored mode and only refuse more are not modelled, so the
 * invariants hold with and without them. An invoice callback resolves a name
 * (`Lookup`), reads the mode of its key (`Gate`) and creates the invoice (`Mint`)
 * in three steps.
 */
module AccountRuns {
  import opened Text
  import opened Limits
  import opened AccountStore
  import opened AccountInvariants
  import opened AccountLaws
  import SM = SignedMessages
  import Identifiers

  /** ACCEPTABLE_TIME_DIFF_SECS, which is lnurl-models' VALIDITY_SECS. */
  const ACCEPT_SECS := 600
  const MODE_MAX_FUTURE_SKEW_SECS := 30

  // ----- timestamps and claims (src/routes/signed.rs) -----

  function SaturatingAddU64(a: nat, b: nat): nat {
    if a + b <= U64_MAX then a + b else U64_MAX
  }

  predicate TimestampAccepted(timestamp: nat, now: nat) {
    (if timestamp >= now then timestamp - now else now - timestamp) <= ACCEPT_SECS
  }

  /** The window is symmetric and closed. */
  lemma AcceptWindow(timestamp: nat, now: nat)
    ensures TimestampAccepted(timestamp, now) <==> timestamp <= now + 600 && now <= timestamp + 600
  {
  }

  function ClaimExpiresAt(timestamp: nat): nat {
    var e := SaturatingAddU64(timestamp, ACCEPT_SECS);
    if e <= I64_MAX then e else I64_MAX
  }

  /**
   * A claim that the pruner may drop belongs to a statement that is refused from
   * then on, also at the saturation edge.
   */
  lemma PrunedOnlyWhenRefused(timestamp: nat, now: nat, later: nat)
    requires now <= later <= I64_MAX
    requires ClaimExpiresAt(timestamp) < now
    ensures !TimestampAccepted(timestamp, later)
    ensures timestamp + ACCEPT_SECS < now
  {
  }

  // ----- signed requests -----

  datatype Request =
    | Register(pubkey: string, domain: string, message: SM.Message, description: string)
    | Unregister(pubkey: string, domain: string, message: SM.Message)
    | TransferFrom(pubkey: string, domain: string, message: SM.Message, consent: SM.Message, source: AccountId,
                   description: string)

  /**
   * The message is one the route lists as a candidate for these request fields.
   * A transfer carries two: `message` of the key that gives the name away, and
   * `consent` of the key that receives it, over the same fields; the keys differ.
   * Every route takes usernames in their canonical form only.
   */
  ghost predicate WellFormed(q: Request) {
    && SM.LegalPubkey(q.pubkey) && SM.LegalDomain(q.domain) && SM.Legal(q.message)
    && match q {
         case Register(_, d, m, _) => m.LegacyUsername? || (m.RegisterV2? && m.domain == d)
         case Unregister(_, d, m) => m.UnregisterV2? && m.domain == d
         case TransferFrom(p, d, m, c, _, _) =>
           && m.TransferFromV2? && m.domain == d && m.source == p && m.target != p
           && SM.Legal(c) && c.TransferToV2?
              && c == SM.TransferToV2(d, m.username, p, m.target, c.descriptionHash, m.timestamp)
       }
    && Identifiers.UsernamePattern(q.message.username)
  }

  function Statement(q: Request): string {
    SM.StatementBytes(q.pubkey, q.domain, SM.Encode(q.message))
  }

  function ClaimOf(q: Request): Claim {
    Claim(Statement(q),
          if q.Register? then "register" else if q.Unregister? then "unregister" else "transfer",
          ClaimExpiresAt(q.message.timestamp))
  }

  function ClaimRowOf(q: Request): ClaimRow {
    ClaimRow(ClaimOf(q).route, ClaimExpiresAt(q.message.timestamp))
  }

  ghost function NameOf(q: Request): Name
    requires WellFormed(q)
  {
    Name(q.domain, q.message.username)
  }

  ghost function RegistrationOf(q: Request): Registration
    requires WellFormed(q) && q.Register?
  {
    // A legacy message does not cover the description, so the default one is stored.
    var description := if q.message.LegacyUsername? then "Pay to " + q.message.username + "@" + q.domain
      else q.description;
    Registration(None, q.pubkey, NewIdentifier(NameOf(q), Username, description), Some(ClaimOf(q)))
  }

  ghost function TransferOf(q: Request): Transfer
    requires WellFormed(q) && q.TransferFrom?
  {
    Transfer(NameOf(q), q.source, q.message.target, q.description, Some(ClaimOf(q)))
  }

  ghost predicate Commits(t: Tables, q: Request, freshId: AccountId)
    requires WellFormed(q)
  {
    match q {
      case Register(_, _, _, _) => RegistrationRefusal(t, RegistrationOf(q), freshId).None?
      case Unregister(p, _, _) => DeletionRefusal(t, NameOf(q), p, Some(ClaimOf(q))).None?
      case TransferFrom(_, _, _, _, _, _) => TransferRefusal(t, TransferOf(q), Spark).None?
    }
  }

  ghost function Written(t: Tables, q: Request, freshId: AccountId, now: int): Tables
    requires WellFormed(q) && Commits(t, q, freshId)
  {
    match q {
      case Register(_, _, _, _) => Registered(t, RegistrationOf(q), freshId, now)
      case Unregister(_, _, _) => Deleted(t, NameOf(q), Some(ClaimOf(q)))
      case TransferFrom(_, _, _, _, _, _) => Transferred(t, TransferOf(q), freshId, now)
    }
  }

  /** The message of set_mode, in the Blink app's format or the pre-v2 one. */
  ghost predicate SignsMode(m: SM.Message, u: ModeUpdate) {
    && SM.Legal(m) && (m.BlinkMode? || m.LegacyMode?)
    && m.pubkey == u.pubkey && m.timestamp == u.timestamp && m.mode.Anon? == u.mode.Anon?
  }

  // ----- worlds and actions -----

  datatype Commit = Commit(request: Request, at: nat)
  datatype Delivery = Delivery(update: ModeUpdate, accepted: bool)

  /**
   * The database, the clock in seconds, the history of committed statements and
   * mode updates, and the invoice callbacks under way.
   */
  datatype World = World(
    clock: nat, tables: Tables, commits: seq<Commit>, deliveries: seq<Delivery>, callbacks: map<nat, Callback>)

  /** A callback that has resolved a name to a Spark key, and whether it has passed the mode gate for that key. */
  datatype Callback = Callback(name: Name, pubkey: string, passed: bool)

  const START := World(0, EMPTY, [], [], map[])

  ghost function ModeOf(t: Tables, pubkey: string): Option<AccountMode> {
    match SparkOf(t, pubkey) { case None => None case Some(a) => t.sparks[a].mode }
  }

  /** The gate of handle_invoice_for_resolved_domain. */
  ghost predicate MayMint(t: Tables, pubkey: string) {
    ModeOf(t, pubkey) != Some(Anon)
  }

  datatype Action =
    | Tick(seconds: nat)
    | Prune
    | Signed(request: Request, checkedAt: nat, freshId: AccountId)
    | CreateBlink(id: AccountId, account: NewBlink)
    | ChangeWallet(blinkId: string, wallet: WalletKind)
    | InternalTransfer(transfer: Transfer, freshId: AccountId)
    | Contact(pubkey: string, freshId: AccountId)
    | WriteMode(update: ModeUpdate, message: SM.Message, checkedAt: nat)
    | Backfill(pubkey: string)
    | RefreshCountry(pubkey: string, country: string)
    | Lookup(callback: nat, name: Name, pubkey: string)
    | Gate(callback: nat)
    | Mint(callback: nat)

  /**
   * What the handlers establish before the transaction of an action runs:
   * generated account ids are new, a timestamp was checked at some earlier
   * reading of the clock, and a signed transfer names the account its signer
   * was resolved to.
   */
  ghost predicate Enabled(w: World, a: Action) {
    match a {
      case Tick(s) => w.clock + s <= I64_MAX
      case Signed(q, at, id) =>
        && WellFormed(q) && at <= w.clock && TimestampAccepted(q.message.timestamp, at) && id !in w.tables.accounts
        && (q.TransferFrom? ==> HasPubkey(w.tables, q.source, q.pubkey))
      case InternalTransfer(x, id) => id !in w.tables.accounts && x.claim.None?
      case Contact(_, id) => id !in w.tables.accounts
      case WriteMode(u, m, at) =>
        && SignsMode(m, u) && at <= w.clock && TimestampAccepted(m.timestamp, at)
        && u.timestamp <= I64_MAX && u.timestamp <= w.clock + MODE_MAX_FUTURE_SKEW_SECS
      case Lookup(k, n, p) => k !in w.callbacks && HeldBy(w.tables, n, p)
      case Gate(k) => k in w.callbacks && !w.callbacks[k].passed && MayMint(w.tables, w.callbacks[k].pubkey)
      case Mint(k) => k in w.callbacks && w.callbacks[k].passed
      case _ => true
    }
  }

  ghost function NextCallbacks(w: World, a: Action): map<nat, Callback>
    requires Enabled(w, a)
  {
    match a {
      case Lookup(k, n, p) => w.callbacks[k := Callback(n, p, false)]
      case Gate(k) => w.callbacks[k := w.callbacks[k].(passed := true)]
      case Mint(k) => w.callbacks - {k}
      case _ => w.callbacks
    }
  }

  ghost predicate CommitsSigned(w: World, a: Action) {
    a.Signed? && Enabled(w, a) && Commits(w.tables, a.request, a.freshId)
  }

  ghost function NextTables(w: World, a: Action): Tables
    requires Enabled(w, a)
  {
    var t, now := w.tables, w.clock;
    match a {
      case Prune => Pruned(t, now)
      case Signed(q, _, id) => if Commits(t, q, id) then Written(t, q, id, now) else t
      case CreateBlink(id, b) => if BlinkRefusal(t, id, b).None? then BlinkCreated(t, id, b, now) else t
      case ChangeWallet(b, k) => WalletChanged(t, b, k, now)
      case InternalTransfer(x, id) => if TransferRefusal(t, x, Blink).None? then Transferred(t, x, id, now) else t
      case Contact(p, id) => FirstContact(t, p, id, now)
      case WriteMode(u, _, _) => ModeWritten(t, u, now)
      case Backfill(p) => Backfilled(t, p, now)
      case RefreshCountry(p, c) => CountryRefreshed(t, p, c, now)
      case _ => t
    }
  }

  /** An action that is not enabled does not happen. */
  ghost function Step(w: World, a: Action): World {
    if !Enabled(w, a) then w
    else World(
      if a.Tick? then w.clock + a.seconds else w.clock,
      NextTables(w, a),
      if CommitsSigned(w, a) then w.commits + [Commit(a.request, w.clock)] else w.commits,
      if a.WriteMode? && SparkOf(w.tables, a.update.pubkey).Some?
      then w.deliveries + [Delivery(a.update, ModeAccepted(w.tables, a.update))] else w.deliveries,
      NextCallbacks(w, a))
  }

  ghost function Run(w: World, actions: seq<Action>): World {
    if actions == [] then w else Step(Run(w, actions[..|actions| - 1]), actions[|actions| - 1])
  }

  lemma {:induction false} RunAppend(w: World, before: seq<Action>, after: seq<Action>)
    ensures Run(w, before + after) == Run(Run(w, before), after)
  {
    if after == [] {
      assert before + after == before;
    } else {
      var init := after[..|after| - 1];
      RunAppend(w, before, init);
      assert (before + after)[..|before + after| - 1] == before + init;
    }
  }

  // ----- ownership -----

  lemma WrittenConsistent(t: Tables, q: Request, freshId: AccountId, now: int)
    requires Consistent(t) && freshId !in t.accounts && WellFormed(q) && Commits(t, q, freshId)
    ensures Consistent(Written(t, q, freshId, now)) && Evolves(t, Written(t, q, freshId, now))
  {
    match q {
      case Register(_, _, _, _) =>
        RegisteredConsistent(t, RegistrationOf(q), freshId, now);
        RegisteredEvolves(t, RegistrationOf(q), freshId, now);
      case Unregister(_, _, _) =>
        DeletedConsistent(t, NameOf(q), Some(ClaimOf(q)));
      case TransferFrom(_, _, _, _, _, _) =>
        TransferredConsistent(t, TransferOf(q), Spark, freshId, now);
    }
  }

  lemma PrunedConsistent(t: Tables, now: int)
    requires Consistent(t)
    ensures Consistent(Pruned(t, now)) && Evolves(t, Pruned(t, now))
  {
    NoNewUsernames(t, Pruned(t, now));
  }

  lemma ModeWrittenKeys(t: Tables, u: ModeUpdate, now: int)
    ensures SameSparkKeys(t, ModeWritten(t, u, now))
  {
  }

  lemma BackfilledKeys(t: Tables, pubkey: string, now: int)
    ensures SameSparkKeys(t, Backfilled(t, pubkey, now))
  {
  }

  lemma CountryRefreshedKeys(t: Tables, pubkey: string, country: string, now: int)
    ensures SameSparkKeys(t, CountryRefreshed(t, pubkey, country, now))
  {
  }

  lemma NextConsistent(w: World, a: Action)
    requires Consistent(w.tables) && Enabled(w, a)
    ensures Consistent(NextTables(w, a)) && Evolves(w.tables, NextTables(w, a))
  {
    var t, now := w.tables, w.clock;
    match a {
      case Prune => PrunedConsistent(t, now);
      case Signed(q, _, id) => if Commits(t, q, id) { WrittenConsistent(t, q, id, now); }
      case CreateBlink(id, b) => if BlinkRefusal(t, id, b).None? { BlinkCreatedConsistent(t, id, b, now); }
      case ChangeWallet(b, k) => WalletChangedConsistent(t, b, k, now);
      case InternalTransfer(x, id) =>
        if TransferRefusal(t, x, Blink).None? { TransferredConsistent(t, x, Blink, id, now); }
      case Contact(p, id) => FirstContactConsistent(t, p, id, now);
      case WriteMode(u, _, _) => ModeWrittenKeys(t, u, now); SparkRewriteConsistent(t, ModeWritten(t, u, now));
      case Backfill(p) => BackfilledKeys(t, p, now); SparkRewriteConsistent(t, Backfilled(t, p, now));
      case RefreshCountry(p, c) =>
        CountryRefreshedKeys(t, p, c, now);
        SparkRewriteConsistent(t, CountryRefreshed(t, p, c, now));
      case _ =>
    }
  }

  lemma StepConsistent(w: World, a: Action)
    requires Consistent(w.tables)
    ensures Consistent(Step(w, a).tables) && Evolves(w.tables, Step(w, a).tables)
  {
    if Enabled(w, a) { NextConsistent(w, a); }
  }

  lemma {:induction false} RunConsistent(w: World, actions: seq<Action>)
    requires Consistent(w.tables)
    ensures Consistent(Run(w, actions).tables) && Evolves(w.tables, Run(w, actions).tables)
  {
    if actions != [] {
      var init := actions[..|actions| - 1];
      RunConsistent(w, init);
      StepConsistent(Run(w, init), actions[|actions| - 1]);
      EvolvesTransitive(w.tables, Run(w, init).tables, Run(w, actions).tables);
    }
  }

  /**
   * On every run of the API the ownership tables stay consistent, so resolving
   * any name never reports broken ownership, the username lookups by name and by
   * pubkey are inverse to each other whatever the collation, and they find
   * exactly the usernames stored for the key.
   */
  lemma OwnershipHolds(actions: seq<Action>, n: Name, less: (string, string) -> bool, pubkey: string)
    ensures var t := Run(START, actions).tables;
            && Consistent(t)
            && Resolve(t, n) != Failed(InvalidOwnership)
            && (ReverseAnswer(t, less, n.domain, pubkey, Some(n.identifier))
                <==> PubkeyOfUsername(t, n) == Some(pubkey))
            && (PubkeyOfUsername(t, n) == Some(pubkey) <==>
                  n in t.names && t.names[n].kind == Username && HasPubkey(t, t.names[n].owner, pubkey))
  {
    RunConsistent(START, actions);
    var t := Run(START, actions).tables;
    ResolveIsSound(t, n);
    LookupsAgree(t, less, n.domain, pubkey, n.identifier);
    ForwardExactly(t, n, pubkey);
    assert Name(n.domain, n.identifier) == n;
  }

  /**
   * However first requests for a key interleave, once one has run its
   * transaction the key has exactly one account, for good.
   */
  lemma OneAccountPerKey(before: seq<Action>, contact: Action, after: seq<Action>)
    requires contact.Contact? && Enabled(Run(START, before), contact)
    ensures var t := Run(START, before + [contact] + after).tables;
            && (exists a :: HasPubkey(t, a, contact.pubkey))
            && (forall a, b :: HasPubkey(t, a, contact.pubkey) && HasPubkey(t, b, contact.pubkey) ==> a == b)
            && (forall a :: a in t.accounts ==> (a in t.sparks || a in t.blinks))
  {
    RunConsistent(START, before);
    RunAppend(START, before, [contact]);
    RunAppend(START, before + [contact], after);
    var u, v := Run(START, before), Run(START, before + [contact]);
    assert v == Step(u, contact) by {
      assert [contact][..0] == [];
      assert Run(u, [contact]) == Step(Run(u, []), contact);
    }
    StepConsistent(u, contact);
    RunConsistent(v, after);
    var holder := SparkOf(u.tables, contact.pubkey);
    var a := if holder.Some? then holder.value else contact.freshId;
    assert HasPubkey(v.tables, a, contact.pubkey);
    assert HasPubkey(Run(v, after).tables, a, contact.pubkey);
  }

  // ----- custody of a name -----

  /** The key that holds a name through a Spark account. */
  ghost predicate HeldBy(t: Tables, n: Name, pubkey: string) {
    n in t.names && HasPubkey(t, t.names[n].owner, pubkey)
  }

  /**
   * The key signed a message of the request that lets the name go: an
   * unregistration or the sender's half of a transfer that names it, or a
   * registration or the receiver's half of a transfer of another username in
   * that domain, which replaces it.
   */
  ghost predicate LetsGo(q: Request, pubkey: string, n: Name)
    requires WellFormed(q)
  {
    match q {
      case Register(p, _, _, _) => p == pubkey && n.domain == q.domain && n != NameOf(q)
      case Unregister(p, _, _) => p == pubkey && n == NameOf(q)
      case TransferFrom(p, _, _, c, _, _) =>
        if n == NameOf(q) then p == pubkey else n.domain == q.domain && c.target == pubkey
    }
  }

  /**
   * What may take a name from the key that holds it: a message that very key
   * signed, or an internal transfer of another name in that domain to the key.
   */
  ghost predicate Authorised(a: Action, n: Name, pubkey: string) {
    || (a.Signed? && WellFormed(a.request) && LetsGo(a.request, pubkey, n))
    || (a.InternalTransfer? && a.transfer.target == pubkey && a.transfer.name.domain == n.domain
        && a.transfer.name != n)
  }

  lemma TransferCustody(t: Tables, x: Transfer, from: Provider, freshId: AccountId, now: int, n: Name, pubkey: string)
    requires Consistent(t) && freshId !in t.accounts && TransferRefusal(t, x, from).None?
    requires HeldBy(t, n, pubkey) && !HeldBy(Transferred(t, x, freshId, now), n, pubkey)
    ensures if n == x.name then t.names[n].owner == x.source else x.target == pubkey && x.name.domain == n.domain
  {
    TransferFrame(t, x, from, freshId, now);
    var a := TransferTarget(t, x, freshId);
    assert n != x.name ==> Evicted(t.names, a, x.name, n);
  }

  lemma SignedCustody(t: Tables, q: Request, freshId: AccountId, now: int, n: Name, pubkey: string)
    requires Consistent(t) && freshId !in t.accounts && WellFormed(q) && Commits(t, q, freshId)
    requires q.TransferFrom? ==> HasPubkey(t, q.source, q.pubkey)
    requires HeldBy(t, n, pubkey) && !HeldBy(Written(t, q, freshId, now), n, pubkey)
    ensures LetsGo(q, pubkey, n)
  {
    match q {
      case Register(p, d, m, _) =>
        RegistrationFrame(t, RegistrationOf(q), freshId, now);
        var a := RegistrationAccount(t, RegistrationOf(q), freshId);
        assert n != NameOf(q) ==> Evicted(t.names, a, NameOf(q), n);
      case Unregister(_, _, _) =>
        assert n == NameOf(q);
      case TransferFrom(_, _, _, _, _, _) =>
        TransferCustody(t, TransferOf(q), Spark, freshId, now, n, pubkey);
    }
  }

  /** The other actions leave every name with its owner. */
  lemma NamesStay(w: World, a: Action, n: Name)
    requires Enabled(w, a) && !a.Signed? && !a.InternalTransfer? && n in w.tables.names
    requires a.CreateBlink? ==> BlinkRefusal(w.tables, a.id, a.account).None?
    ensures n in NextTables(w, a).names && NextTables(w, a).names[n] == w.tables.names[n]
  {
    if a.CreateBlink? { AddNamesKeys(w.tables.names, a.id, a.account.identifiers, w.clock); }
  }

  /**
   * In no step does a name leave the key that holds it without that key's own
   * signature or an internal transfer to it.
   */
  lemma NameCustody(w: World, a: Action, n: Name, pubkey: string)
    requires Consistent(w.tables)
    requires HeldBy(w.tables, n, pubkey) && !HeldBy(Step(w, a).tables, n, pubkey)
    ensures Authorised(a, n, pubkey)
  {
    NextConsistent(w, a);
    var t, now := w.tables, w.clock;
    assert !HeldBy(NextTables(w, a), n, pubkey);
    if a.Signed? {
      SignedCustody(t, a.request, a.freshId, now, n, pubkey);
    } else if a.InternalTransfer? {
      TransferCustody(t, a.transfer, Blink, a.freshId, now, n, pubkey);
    } else if !(a.CreateBlink? && BlinkRefusal(t, a.id, a.account).Some?) {
      NamesStay(w, a, n);
    }
  }

  /**
   * The name of a Blink account keeps its whole row in every step, except for an
   * internal transfer that names it with that account as its source.
   */
  lemma BlinkNameStays(w: World, a: Action, n: Name)
    requires Consistent(w.tables) && n in w.tables.names && w.tables.names[n].owner in w.tables.blinks
    requires !(n in Step(w, a).tables.names && Step(w, a).tables.names[n] == w.tables.names[n])
    ensures a.InternalTransfer? && a.transfer.name == n && a.transfer.source == w.tables.names[n].owner
  {
    var t, now, owner := w.tables, w.clock, w.tables.names[n].owner;
    assert owner !in t.sparks;
    if a.Signed? {
      SignedKeepsBlinkName(t, a.request, a.freshId, now, n);
    } else if a.InternalTransfer? {
      TransferFrame(t, a.transfer, Blink, a.freshId, now);
    } else if !(a.CreateBlink? && BlinkRefusal(t, a.id, a.account).Some?) {
      NamesStay(w, a, n);
    }
  }

  lemma SignedKeepsBlinkName(t: Tables, q: Request, freshId: AccountId, now: int, n: Name)
    requires Consistent(t) && freshId !in t.accounts && WellFormed(q) && Commits(t, q, freshId)
    requires n in t.names && t.names[n].owner in t.blinks
    ensures n in Written(t, q, freshId, now).names && Written(t, q, freshId, now).names[n] == t.names[n]
  {
    match q {
      case Register(_, _, _, _) => RegistrationKeepsBlinkName(t, RegistrationOf(q), freshId, now, n);
      case Unregister(p, _, _) => DeletionAnswers(t, NameOf(q), p, Some(ClaimOf(q)));
      case TransferFrom(_, _, _, _, _, _) => TransferKeepsBlinkName(t, TransferOf(q), freshId, now, n);
    }
  }

  /**
   * How a name comes to a key: the key registers it while it is free, its holder
   * and the key both sign a transfer of it, or an internal transfer takes it from
   * a Blink account.
   */
  ghost predicate Arrives(t: Tables, a: Action, n: Name, pubkey: string) {
    match a {
      case Signed(q, _, _) =>
        && WellFormed(q) && NameOf(q) == n
        && if q.Register? then q.pubkey == pubkey && n !in t.names
           else q.TransferFrom? && q.consent.TransferToV2? && q.consent.target == pubkey && HeldBy(t, n, q.pubkey)
      case InternalTransfer(x, _) => x.name == n && x.target == pubkey && n in t.names && t.names[n].owner in t.blinks
      case _ => false
    }
  }

  lemma NameArrival(w: World, a: Action, n: Name, pubkey: string)
    requires Consistent(w.tables)
    requires !HeldBy(w.tables, n, pubkey) && HeldBy(Step(w, a).tables, n, pubkey)
    ensures Arrives(w.tables, a, n, pubkey)
  {
    var t, now := w.tables, w.clock;
    if a.Signed? {
      SignedArrival(t, a.request, a.freshId, now, n, pubkey);
    } else if a.InternalTransfer? {
      TransferArrival(t, a.transfer, Blink, a.freshId, now, n, pubkey);
    } else {
      NoArrival(w, a, n, pubkey);
    }
  }

  lemma TransferArrival(t: Tables, x: Transfer, from: Provider, freshId: AccountId, now: int, n: Name, pubkey: string)
    requires Consistent(t) && freshId !in t.accounts && TransferRefusal(t, x, from).None?
    requires !HeldBy(t, n, pubkey) && HeldBy(Transferred(t, x, freshId, now), n, pubkey)
    ensures n == x.name && x.target == pubkey && n in t.names && t.names[n].owner == x.source
    ensures if from == Spark then x.source in t.sparks else x.source in t.blinks
  {
    TransferFrame(t, x, from, freshId, now);
    TransferAnswers(t, x, from);
    assert n in t.names ==> t.names[n].owner != freshId;
  }

  lemma SignedArrival(t: Tables, q: Request, freshId: AccountId, now: int, n: Name, pubkey: string)
    requires Consistent(t) && freshId !in t.accounts && WellFormed(q) && Commits(t, q, freshId)
    requires q.TransferFrom? ==> HasPubkey(t, q.source, q.pubkey)
    requires !HeldBy(t, n, pubkey) && HeldBy(Written(t, q, freshId, now), n, pubkey)
    ensures NameOf(q) == n && !q.Unregister?
    ensures q.Register? ==> q.pubkey == pubkey && n !in t.names
    ensures q.TransferFrom? ==> q.message.target == pubkey && HeldBy(t, n, q.pubkey)
  {
    match q {
      case Register(p, _, _, _) =>
        RegistrationAnswers(t, RegistrationOf(q), freshId);
        RegistrationFrame(t, RegistrationOf(q), freshId, now);
      case Unregister(_, _, _) =>
      case TransferFrom(_, _, _, _, _, _) => TransferArrival(t, TransferOf(q), Spark, freshId, now, n, pubkey);
    }
  }

  /** The other actions bring no name to a key. */
  lemma NoArrival(w: World, a: Action, n: Name, pubkey: string)
    requires Consistent(w.tables) && !a.Signed? && !a.InternalTransfer?
    requires !HeldBy(w.tables, n, pubkey)
    ensures !HeldBy(Step(w, a).tables, n, pubkey)
  {
    StepConsistent(w, a);
    if a.CreateBlink? && Enabled(w, a) && BlinkRefusal(w.tables, a.id, a.account).None? {
      AddNamesKeys(w.tables.names, a.id, a.account.identifiers, w.clock);
    }
    assert n in w.tables.names ==> w.tables.names[n].owner in w.tables.accounts;
  }

  /**
   * The description stored with a registration is the signed one, or the default
   * when the message does not cover it.
   */
  lemma DescriptionStored(t: Tables, q: Request, freshId: AccountId, now: int)
    requires Consistent(t) && freshId !in t.accounts && WellFormed(q) && !q.Unregister? && Commits(t, q, freshId)
    ensures var t' := Written(t, q, freshId, now);
            && NameOf(q) in t'.names
            && t'.names[NameOf(q)].description ==
               if q.message.LegacyUsername? then "Pay to " + q.message.username + "@" + q.domain else q.description
  {
    if q.Register? {
      RegistrationFrame(t, RegistrationOf(q), freshId, now);
    } else {
      TransferFrame(t, TransferOf(q), Spark, freshId, now);
    }
  }

  // ----- single use of signed statements -----

  /** A live claim row carries its statement's expiry; a missing one is past its accept window. */
  ghost predicate ClaimFits(w: World, q: Request) {
    if Statement(q) in w.tables.claims
    then w.tables.claims[Statement(q)].expiresAt == ClaimExpiresAt(q.message.timestamp)
    else q.message.timestamp + ACCEPT_SECS < w.clock
  }

  /** A statement committed again was committed after its accept window. */
  ghost predicate RepeatsLate(commits: seq<Commit>) {
    forall i, j :: 0 <= i < j < |commits| && Statement(commits[i].request) == Statement(commits[j].request) ==>
      commits[j].request.message.timestamp + ACCEPT_SECS < commits[j].at
  }

  ghost predicate ClaimsTrack(w: World) {
    && w.clock <= I64_MAX
    && (forall i :: 0 <= i < |w.commits| ==> WellFormed(w.commits[i].request) && w.commits[i].at <= w.clock)
    && (forall i :: 0 <= i < |w.commits| ==> ClaimFits(w, w.commits[i].request))
    && RepeatsLate(w.commits)
  }

  lemma SameStatement(q: Request, q': Request)
    requires WellFormed(q) && WellFormed(q') && Statement(q) == Statement(q')
    ensures q.pubkey == q'.pubkey && q.domain == q'.domain && q.message == q'.message
  {
    SM.StatementInjective(q.pubkey, q.domain, q.message, q'.pubkey, q'.domain, q'.message);
  }

  /** A committed request leaves exactly its own claim behind. */
  lemma CommitClaims(w: World, a: Action)
    requires CommitsSigned(w, a)
    ensures var q := a.request;
            && Statement(q) !in w.tables.claims
            && Step(w, a).tables.claims == w.tables.claims[Statement(q) := ClaimRowOf(q)]
            && Step(w, a).clock == w.clock && Step(w, a).commits == w.commits + [Commit(q, w.clock)]
  {
    WrittenClaims(w.tables, a.request, a.freshId, w.clock);
  }

  lemma WrittenClaims(t: Tables, q: Request, freshId: AccountId, now: int)
    requires WellFormed(q) && Commits(t, q, freshId)
    ensures Statement(q) !in t.claims
    ensures Written(t, q, freshId, now).claims == t.claims[Statement(q) := ClaimRowOf(q)]
  {
  }

  lemma CommitTracks(w: World, w': World, q: Request)
    requires ClaimsTrack(w) && WellFormed(q) && Statement(q) !in w.tables.claims
    requires w'.clock == w.clock && w'.commits == w.commits + [Commit(q, w.clock)]
    requires w'.tables.claims == w.tables.claims[Statement(q) := ClaimRowOf(q)]
    ensures ClaimsTrack(w')
  {
    forall i | 0 <= i < |w.commits|
      ensures ClaimFits(w', w.commits[i].request)
      ensures Statement(w.commits[i].request) == Statement(q) ==> q.message.timestamp + ACCEPT_SECS < w.clock
    {
      FitsAfterCommit(w, w', w.commits[i].request, q);
    }
    RepeatsSnoc(w.commits, Commit(q, w.clock));
  }

  lemma FitsAfterCommit(w: World, w': World, r: Request, q: Request)
    requires WellFormed(r) && WellFormed(q) && ClaimFits(w, r) && Statement(q) !in w.tables.claims
    requires w'.clock == w.clock && w'.tables.claims == w.tables.claims[Statement(q) := ClaimRowOf(q)]
    ensures ClaimFits(w', r)
    ensures Statement(r) == Statement(q) ==> q.message.timestamp + ACCEPT_SECS < w.clock
  {
    if Statement(r) == Statement(q) { SameStatement(r, q); }
  }

  lemma RepeatsSnoc(commits: seq<Commit>, c: Commit)
    requires RepeatsLate(commits)
    requires forall i :: 0 <= i < |commits| && Statement(commits[i].request) == Statement(c.request) ==>
               c.request.message.timestamp + ACCEPT_SECS < c.at
    ensures RepeatsLate(commits + [c])
  {
  }

  lemma StepTracks(w: World, a: Action)
    requires ClaimsTrack(w)
    ensures ClaimsTrack(Step(w, a))
  {
    if CommitsSigned(w, a) {
      CommitClaims(w, a);
      CommitTracks(w, Step(w, a), a.request);
    } else if Enabled(w, a) {
      var w' := Step(w, a);
      assert w'.commits == w.commits;
      if a.Prune? {
        forall i | 0 <= i < |w.commits| && Statement(w.commits[i].request) in w.tables.claims
          ensures Statement(w.commits[i].request) in w'.tables.claims
                  || w.commits[i].request.message.timestamp + ACCEPT_SECS < w.clock
        {
          var q := w.commits[i].request;
          if Statement(q) !in w'.tables.claims {
            PrunedOnlyWhenRefused(q.message.timestamp, w.clock, w.clock);
          }
        }
      } else {
        assert w'.tables.claims == w.tables.claims;
      }
    }
  }

  lemma {:induction false} RunTracks(actions: seq<Action>)
    ensures ClaimsTrack(Run(START, actions))
  {
    if actions != [] {
      RunTracks(actions[..|actions| - 1]);
      StepTracks(Run(START, actions[..|actions| - 1]), actions[|actions| - 1]);
    }
  }

  /** The commit happened while the statement's own timestamp was still acceptable. */
  ghost predicate Prompt(c: Commit) {
    c.at <= c.request.message.timestamp + ACCEPT_SECS
  }

  /**
   * Over every run, a statement (signer, domain, message) commits at most one
   * prompt write after any other: if it commits twice, the later transaction ran
   * past the accept window although its check had passed inside it.
   */
  lemma SingleUse(actions: seq<Action>, i: nat, j: nat)
    requires var commits := Run(START, actions).commits;
             i < j < |commits| && Statement(commits[i].request) == Statement(commits[j].request)
    ensures !Prompt(Run(START, actions).commits[j])
  {
    RunTracks(actions);
  }

  /** Check and transaction of every signed request read the same clock. */
  ghost predicate ChecksAtCommit(w: World, actions: seq<Action>)
    decreases |actions|
  {
    actions == [] ||
    (var last := actions[|actions| - 1];
     && ChecksAtCommit(w, actions[..|actions| - 1])
     && (last.Signed? ==> last.checkedAt == Run(w, actions[..|actions| - 1]).clock))
  }

  lemma {:induction false} CommitsArePrompt(actions: seq<Action>)
    requires ChecksAtCommit(START, actions)
    ensures forall i :: 0 <= i < |Run(START, actions).commits| ==> Prompt(Run(START, actions).commits[i])
  {
    if actions != [] {
      CommitsArePrompt(actions[..|actions| - 1]);
    }
  }

  /**
   * With check and transaction at one clock reading no statement is ever acted
   * on twice, whatever is pruned meanwhile.
   */
  lemma SingleUseAtOneReading(actions: seq<Action>, i: nat, j: nat)
    requires ChecksAtCommit(START, actions)
    requires i < j < |Run(START, actions).commits|
    ensures Statement(Run(START, actions).commits[i].request) != Statement(Run(START, actions).commits[j].request)
  {
    RunTracks(actions);
    CommitsArePrompt(actions);
  }

  // ----- when exactly a statement can commit again -----

  lemma RunSnoc(w: World, actions: seq<Action>, a: Action)
    ensures Run(w, actions + [a]) == Step(Run(w, actions), a)
  {
    assert (actions + [a])[..|actions|] == actions;
  }

  /** There is always an account id left to generate. */
  lemma {:induction false} LongerThanAll(ids: set<AccountId>) returns (id: AccountId)
    ensures forall x :: x in ids ==> |x| < |id|
  {
    id := "a";
    if x :| x in ids {
      var rest := LongerThanAll(ids - {x});
      id := rest + x + "a";
    }
  }

  ghost predicate Reachable(w: World) {
    exists actions :: Run(START, actions) == w
  }

  lemma ReachableStep(w: World, a: Action)
    requires Reachable(w)
    ensures Reachable(Step(w, a)) && Consistent(w.tables)
  {
    var actions :| Run(START, actions) == w;
    RunSnoc(START, actions, a);
    RunConsistent(START, actions);
  }

  /** A registration of the name by the key, signed at `timestamp`. */
  function Claimant(pubkey: string, n: Name, timestamp: nat): Request {
    Register(pubkey, n.domain, SM.LegacyUsername(n.identifier, timestamp), "")
  }

  /** A name that is free or held by the key can be registered by it. */
  lemma CanRegister(t: Tables, q: Request, id: AccountId, now: int)
    requires Consistent(t) && WellFormed(q) && q.Register? && id !in t.accounts && Statement(q) !in t.claims
    requires NameOf(q) in t.names ==> HeldBy(t, NameOf(q), q.pubkey)
    ensures Commits(t, q, id)
    ensures HeldBy(Written(t, q, id, now), NameOf(q), q.pubkey)
    ensures Written(t, q, id, now).names[NameOf(q)].owner
            == match SparkOf(t, q.pubkey) { case Some(a) => a case None => id }
  {
    if NameOf(q) in t.names {
      SparkOfIs(t, t.names[NameOf(q)].owner, q.pubkey);
    }
    RegistrationFrame(t, RegistrationOf(q), id, now);
  }

  lemma CanUnregister(t: Tables, q: Request, id: AccountId, now: int)
    requires Consistent(t) && WellFormed(q) && q.Unregister? && Statement(q) !in t.claims
             && HeldBy(t, NameOf(q), q.pubkey)
    ensures Commits(t, q, id)
    ensures NameOf(q) !in Written(t, q, id, now).names
  {
    SparkOfIs(t, t.names[NameOf(q)].owner, q.pubkey);
  }

  lemma CanTransfer(t: Tables, q: Request, id: AccountId, now: int)
    requires Consistent(t) && WellFormed(q) && q.TransferFrom? && Statement(q) !in t.claims && id !in t.accounts
    requires HeldBy(t, NameOf(q), q.pubkey) && t.names[NameOf(q)].owner == q.source
    ensures Commits(t, q, id)
    ensures HeldBy(Written(t, q, id, now), NameOf(q), q.message.target)
    ensures HasPubkey(Written(t, q, id, now), q.source, q.pubkey)
  {
    TransferFrame(t, TransferOf(q), Spark, id, now);
  }

  /** The key could commit `q` in `t`, were its statement not claimed. */
  ghost predicate Able(t: Tables, q: Request)
    requires WellFormed(q)
  {
    match q {
      case Register(p, _, _, _) => NameOf(q) in t.names ==> HeldBy(t, NameOf(q), p)
      case Unregister(p, _, _) => HeldBy(t, NameOf(q), p)
      case TransferFrom(p, _, _, _, source, _) => HeldBy(t, NameOf(q), p) && t.names[NameOf(q)].owner == source
    }
  }

  /** Where a commit of `q` leaves its name. */
  ghost predicate Gone(t: Tables, q: Request)
    requires WellFormed(q)
  {
    match q {
      case Register(p, _, _, _) => HeldBy(t, NameOf(q), p)
      case Unregister(_, _, _) => NameOf(q) !in t.names
      case TransferFrom(p, _, m, _, source, _) => HeldBy(t, NameOf(q), m.target) && HasPubkey(t, source, p)
    }
  }

  lemma AbleCommits(t: Tables, q: Request, id: AccountId, now: int)
    requires Consistent(t) && WellFormed(q) && Able(t, q) && Statement(q) !in t.claims && id !in t.accounts
    ensures Commits(t, q, id)
    ensures Gone(Written(t, q, id, now), q)
    ensures q.Register? ==>
              Written(t, q, id, now).names[NameOf(q)].owner
                == match SparkOf(t, q.pubkey) { case Some(a) => a case None => id }
  {
    match q {
      case Register(_, _, _, _) => CanRegister(t, q, id, now);
      case Unregister(_, _, _) => CanUnregister(t, q, id, now);
      case TransferFrom(_, _, _, _, _, _) => CanTransfer(t, q, id, now);
    }
  }

  /** What any commit of `q` does to a world, besides the names. */
  ghost predicate Follows(w: World, v: World, q: Request) {
    && v.clock == w.clock && v.commits == w.commits + [Commit(q, w.clock)]
    && v.tables.claims == w.tables.claims[Statement(q) := ClaimRowOf(q)]
    && Evolves(w.tables, v.tables)
  }

  /** A request whose conditions hold is committed, under whatever new account id. */
  lemma Act(w: World, q: Request, at: nat, id: AccountId) returns (v: World)
    requires Reachable(w) && WellFormed(q) && Able(w.tables, q) && Statement(q) !in w.tables.claims
             && id !in w.tables.accounts
    requires at <= w.clock && TimestampAccepted(q.message.timestamp, at)
    ensures Reachable(v) && Consistent(v.tables) && Follows(w, v, q) && Gone(v.tables, q)
    ensures q.Register? ==>
              v.tables.names[NameOf(q)].owner == match SparkOf(w.tables, q.pubkey) { case Some(a) => a case None => id }
  {
    var a := Signed(q, at, id);
    ReachableStep(w, a);
    AbleCommits(w.tables, q, id, w.clock);
    WrittenConsistent(w.tables, q, id, w.clock);
    CommitClaims(w, a);
    v := Step(w, a);
    assert v.tables == Written(w.tables, q, id, w.clock);
  }

  /** Once every claim is past its expiry the pruner leaves none. */
  lemma PruneAll(w: World, lag: nat) returns (v: World)
    requires Reachable(w) && w.clock + lag <= I64_MAX
    requires forall s :: s in w.tables.claims ==> w.tables.claims[s].expiresAt < w.clock + lag
    ensures Reachable(v)
    ensures v.clock == w.clock + lag && v.commits == w.commits && v.tables == w.tables.(claims := map[])
  {
    ReachableStep(w, Tick(lag));
    ReachableStep(Step(w, Tick(lag)), Prune);
    v := Step(Step(w, Tick(lag)), Prune);
    assert Pruned(w.tables, w.clock + lag).claims == map[];
  }

  /** The account a transfer names as its source is the key's, or its id is still to be generated for the key. */
  ghost predicate SourceOpen(t: Tables, q: Request) {
    q.TransferFrom? ==>
      if q.source in t.accounts then HasPubkey(t, q.source, q.pubkey) else SparkOf(t, q.pubkey).None?
  }

  /** The name is where `q` needs it, or free for the key to register. */
  ghost predicate Startable(w: World, q: Request) {
    && WellFormed(q) && Statement(q) !in w.tables.claims
    && Statement(Claimant(q.pubkey, NameOf(q), w.clock)) !in w.tables.claims
    && (if q.Register? then Able(w.tables, q) else NameOf(q) !in w.tables.names)
    && SourceOpen(w.tables, q)
  }

  /** All claims of `v` are those of `w` or expire with one of two timestamps. */
  ghost predicate ClaimsAdded(w: World, v: World, s: nat, t: nat) {
    forall c :: c in v.tables.claims ==>
      || (c in w.tables.claims && v.tables.claims[c] == w.tables.claims[c])
      || v.tables.claims[c].expiresAt == ClaimExpiresAt(s) || v.tables.claims[c].expiresAt == ClaimExpiresAt(t)
  }

  ghost predicate Extends(w: World, v: World) {
    v.clock == w.clock && |w.commits| <= |v.commits| && v.commits[..|w.commits|] == w.commits
  }

  lemma DifferentStatements(q: Request, r: Request)
    requires WellFormed(q) && WellFormed(r) && q.message != r.message
    ensures Statement(q) != Statement(r)
  {
    if Statement(q) == Statement(r) { SameStatement(q, r); }
  }

  lemma IdFor(t: Tables, q: Request) returns (id: AccountId)
    requires SourceOpen(t, q)
    ensures id !in t.accounts
    ensures q.TransferFrom? && q.source !in t.accounts ==> id == q.source
  {
    id := LongerThanAll(t.accounts.Keys);
    if q.TransferFrom? && q.source !in t.accounts { id := q.source; }
  }

  lemma ClaimantFits(q: Request, now: nat)
    requires WellFormed(q) && !q.Register? && now <= I64_MAX
    ensures WellFormed(Claimant(q.pubkey, NameOf(q), now)) && NameOf(Claimant(q.pubkey, NameOf(q), now)) == NameOf(q)
    ensures Statement(q) != Statement(Claimant(q.pubkey, NameOf(q), now))
  {
    DifferentStatements(q, Claimant(q.pubkey, NameOf(q), now));
  }

  /** The key registers the name that `q` is about. */
  lemma ClaimsName(w: World, q: Request) returns (v: World)
    requires Reachable(w) && w.clock <= I64_MAX && !q.Register? && Startable(w, q)
    ensures Reachable(v) && Extends(w, v) && Able(v.tables, q)
    ensures v.tables.claims.Keys == w.tables.claims.Keys + {Statement(Claimant(q.pubkey, NameOf(q), w.clock))}
    ensures ClaimsAdded(w, v, w.clock, w.clock)
  {
    var r := Claimant(q.pubkey, NameOf(q), w.clock);
    ClaimantFits(q, w.clock);
    var id := IdFor(w.tables, q);
    v := Act(w, r, w.clock, id);
    ReachableStep(w, Tick(0));
    if q.TransferFrom? && q.source in w.tables.accounts { SparkOfIs(w.tables, q.source, q.pubkey); }
  }

  /** Registers the name for the key, unless `q` itself is a registration. */
  lemma BringHome(w: World, q: Request) returns (v: World)
    requires Reachable(w) && w.clock <= I64_MAX && Startable(w, q)
    ensures Reachable(v) && Extends(w, v) && Able(v.tables, q) && Statement(q) !in v.tables.claims
    ensures ClaimsAdded(w, v, w.clock, w.clock)
  {
    v := w;
    if !q.Register? {
      ClaimantFits(q, w.clock);
      v := ClaimsName(w, q);
    }
  }

  /** From a startable world `q` is committed. */
  lemma CommitOnce(w: World, q: Request, at: nat) returns (v: World)
    requires Reachable(w) && w.clock <= I64_MAX && Startable(w, q)
    requires at <= w.clock && TimestampAccepted(q.message.timestamp, at)
    ensures Reachable(v) && Extends(w, v) && |w.commits| < |v.commits|
            && v.commits[|v.commits| - 1] == Commit(q, w.clock)
    ensures Gone(v.tables, q) && ClaimsAdded(w, v, w.clock, q.message.timestamp)
  {
    var u := BringHome(w, q);
    var id := LongerThanAll(u.tables.accounts.Keys);
    v := Act(u, q, at, id);
  }

  /** The deletion of a transferred name by the key it went to, signed at `now`. */
  function Surrender(q: Request, now: nat): Request
    requires q.TransferFrom? && q.message.TransferFromV2?
  {
    Unregister(q.message.target, q.domain, SM.UnregisterV2(q.domain, q.message.username, now))
  }

  lemma SurrenderFits(q: Request, now: nat)
    requires WellFormed(q) && q.TransferFrom? && now <= I64_MAX
    ensures WellFormed(Surrender(q, now)) && NameOf(Surrender(q, now)) == NameOf(q)
    ensures Statement(q) != Statement(Surrender(q, now))
    ensures Statement(Claimant(q.pubkey, NameOf(q), now)) != Statement(Surrender(q, now))
  {
    DifferentStatements(q, Surrender(q, now));
    DifferentStatements(Claimant(q.pubkey, NameOf(q), now), Surrender(q, now));
  }

  /** The key a name was transferred to gives it up. */
  lemma GiveUp(w: World, q: Request) returns (v: World)
    requires Reachable(w) && w.clock <= I64_MAX && WellFormed(q) && q.TransferFrom? && w.tables.claims == map[]
    requires HeldBy(w.tables, NameOf(q), q.message.target)
    ensures Reachable(v) && Extends(w, v) && Evolves(w.tables, v.tables) && NameOf(q) !in v.tables.names
    ensures v.tables.claims.Keys == {Statement(Surrender(q, w.clock))}
  {
    var u := Surrender(q, w.clock);
    SurrenderFits(q, w.clock);
    var id := LongerThanAll(w.tables.accounts.Keys);
    v := Act(w, u, w.clock, id);
  }

  /**
   * After a commit of `q` and a pruning, `q` can be started again; a transferred
   * name is first given up by its new key.
   */
  lemma StartAgain(w: World, q: Request) returns (v: World)
    requires Reachable(w) && w.clock <= I64_MAX && WellFormed(q) && w.tables.claims == map[] && Gone(w.tables, q)
    ensures Reachable(v) && Extends(w, v) && Startable(v, q)
  {
    v := w;
    if q.TransferFrom? {
      v := GiveUp(w, q);
      SurrenderFits(q, w.clock);
      ReachableStep(v, Tick(0));
      assert HasPubkey(v.tables, q.source, q.pubkey);
      assert q.source in v.tables.accounts;
    }
  }

  /** The statement of `q` has been committed, and `q` was committed again at `at`. */
  ghost predicate Repeated(w: World, q: Request, at: nat) {
    exists i, j :: 0 <= i < j < |w.commits| && Statement(w.commits[i].request) == Statement(q)
      && w.commits[j] == Commit(q, at)
  }

  /** A run that commits `q` at its own timestamp and prunes the claim by the time `at`. */
  lemma CommitAndPrune(q: Request, at: nat) returns (w: World)
    requires WellFormed(q) && q.message.timestamp + ACCEPT_SECS < at <= I64_MAX
    ensures Reachable(w) && w.clock == at && w.tables.claims == map[] && Gone(w.tables, q)
    ensures w.commits != [] && w.commits[|w.commits| - 1].request == q
  {
    var t := q.message.timestamp;
    assert Run(START, []) == START;
    ReachableStep(START, Tick(t));
    var first := CommitOnce(Step(START, Tick(t)), q, t);
    w := PruneAll(first, at - t);
  }

  /**
   * Every statement is committed again at any time past its accept window, by a
   * transaction that was checked in time and lagged behind the pruner.
   */
  lemma LateCommitRepeats(q: Request, at: nat) returns (w: World)
    requires WellFormed(q) && q.message.timestamp + ACCEPT_SECS < at <= I64_MAX
    ensures Reachable(w) && Repeated(w, q, at)
  {
    var pruned := CommitAndPrune(q, at);
    var again := StartAgain(pruned, q);
    w := CommitOnce(again, q, q.message.timestamp);
    var i := |pruned.commits| - 1;
    assert w.commits[..|again.commits|][i] == again.commits[..|pruned.commits|][i] == pruned.commits[i];
  }

  /**
   * Exactly when a statement can be acted on again: some run commits it a second
   * time at `at` if and only if `at` is past its accept window. In between the
   * pruner dropped the claim and the second transaction had passed its check.
   */
  lemma RepeatsExactly(q: Request, at: nat)
    requires WellFormed(q) && at <= I64_MAX
    ensures (exists w :: Reachable(w) && Repeated(w, q, at)) <==> q.message.timestamp + ACCEPT_SECS < at
  {
    if w :| Reachable(w) && Repeated(w, q, at) {
      var actions :| Run(START, actions) == w;
      RunTracks(actions);
    }
    if q.message.timestamp + ACCEPT_SECS < at {
      var w := LateCommitRepeats(q, at);
    }
  }
}
