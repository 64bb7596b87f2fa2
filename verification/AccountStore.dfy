/**
 * The account tables of src/postgresql/repository.rs and the transactions on
 * them.
 *
 * `Tables` is the whole relational state. Every transaction has two readings:
 * a specification here, made of a refusal function and a result function, and
 * a method of AccountRepository.dfy that performs the SQL statements in order
 * on a working copy and either commits it or returns early (a rollback). The
 * methods are proved against the specifications; AccountInvariants.dfy,
 * AccountRuns.dfy and ModeRuns.dfy prove what the specifications keep.
 *
 * UNIQUE (domain, identifier) makes a `Name` the key of account_identifiers.
 * Claims are keyed on the hashed bytes themselves: SHA-256 is taken to be
 * collision-free.
 */
module AccountStore {
  import opened Text

  datatype Provider = Spark | Blink
  datatype IdentifierKind = Username | Phone
  datatype WalletKind = Btc | Usd
  datatype AccountMode = Enhanced | Anon
  datatype ModeSource = Signup | Switch | Migration

  datatype StoreError =
    | IdentifierConflict | BlinkAccountExists | AccountNotFound | InvalidOwnership | InvalidProvider
    | InvalidIdentifierKind | SourceNotOwner | StaleModeTimestamp | StatementAlreadyUsed | General

  datatype Outcome = Committed | Refused(error: StoreError)

  // ----- rows and tables -----

  type AccountId = string

  datatype AccountRow = AccountRow(provider: Provider, createdAt: int, updatedAt: int)

  datatype SparkRow = SparkRow(
    pubkey: string,
    mode: Option<AccountMode>, source: Option<ModeSource>, modeUpdatedAt: Option<int>,
    anchor: Option<int>,
    country: Option<string>, countryUpdatedAt: Option<int>,
    createdAt: int, updatedAt: int)

  datatype BlinkRow = BlinkRow(
    blinkId: string, btcWallet: string, usdWallet: string, defaultWallet: WalletKind,
    createdAt: int, updatedAt: int)

  datatype Name = Name(domain: string, identifier: string)

  datatype NameRow = NameRow(
    owner: AccountId, kind: IdentifierKind, description: string, createdAt: int, updatedAt: int)

  datatype ClaimRow = ClaimRow(route: string, expiresAt: int)

  datatype Tables = Tables(
    accounts: map<AccountId, AccountRow>,
    sparks: map<AccountId, SparkRow>,
    blinks: map<AccountId, BlinkRow>,
    names: map<Name, NameRow>,
    claims: map<string, ClaimRow>)

  const EMPTY := Tables(map[], map[], map[], map[], map[])

  function NewSpark(pubkey: string, now: int): SparkRow {
    SparkRow(pubkey, None, None, None, None, None, None, now, now)
  }

  // ----- requests -----

  datatype Claim = Claim(statement: string, route: string, expiresAt: int)

  datatype NewIdentifier = NewIdentifier(name: Name, kind: IdentifierKind, description: string)

  datatype Registration = Registration(
    accountId: Option<AccountId>, pubkey: string, identifier: NewIdentifier, claim: Option<Claim>)

  datatype NewBlink = NewBlink(
    blinkId: string, btcWallet: string, usdWallet: string, defaultWallet: WalletKind,
    identifiers: seq<NewIdentifier>)

  datatype Transfer = Transfer(
    name: Name, source: AccountId, target: string, description: string, claim: Option<Claim>)

  datatype ModeUpdate = ModeUpdate(pubkey: string, mode: AccountMode, timestamp: int, country: Option<string>)

  // ----- constraints of the schema and of the row mappers -----

  /** Every account has the child row its provider names, and no other. */
  ghost predicate ChildRows(t: Tables) {
    && t.sparks.Keys == (set a | a in t.accounts && t.accounts[a].provider == Spark)
    && t.blinks.Keys == (set a | a in t.accounts && t.accounts[a].provider == Blink)
  }

  ghost predicate UniquePubkeys(t: Tables) {
    forall a, b :: a in t.sparks && b in t.sparks && t.sparks[a].pubkey == t.sparks[b].pubkey ==> a == b
  }

  ghost predicate UniqueBlinkIds(t: Tables) {
    forall a, b :: a in t.blinks && b in t.blinks && t.blinks[a].blinkId == t.blinks[b].blinkId ==> a == b
  }

  ghost predicate OwnersExist(t: Tables) {
    forall n :: n in t.names ==> t.names[n].owner in t.accounts
  }

  ghost predicate SparkUsername(t: Tables, n: Name, a: AccountId) {
    n in t.names && t.names[n].owner == a && t.names[n].kind == Username && a in t.sparks
  }

  /** A Spark account holds at most one username per domain. */
  ghost predicate OneUsername(t: Tables) {
    forall m, n, a :: SparkUsername(t, m, a) && SparkUsername(t, n, a) && m.domain == n.domain ==> m == n
  }

  ghost predicate Consistent(t: Tables) {
    ChildRows(t) && UniquePubkeys(t) && UniqueBlinkIds(t) && OwnersExist(t) && OneUsername(t)
  }

  // ----- lookups -----

  ghost predicate HasPubkey(t: Tables, a: AccountId, pubkey: string) {
    a in t.sparks && t.sparks[a].pubkey == pubkey
  }

  /** SELECT account_id FROM spark_accounts WHERE pubkey = .. */
  ghost function SparkOf(t: Tables, pubkey: string): (r: Option<AccountId>)
    ensures r.Some? ==> HasPubkey(t, r.value, pubkey)
    ensures r.None? ==> forall a :: !HasPubkey(t, a, pubkey)
  {
    if exists a :: HasPubkey(t, a, pubkey) then
      var a :| HasPubkey(t, a, pubkey); Some(a)
    else None
  }

  lemma SparkOfIs(t: Tables, a: AccountId, pubkey: string)
    requires UniquePubkeys(t) && HasPubkey(t, a, pubkey)
    ensures SparkOf(t, pubkey) == Some(a)
  {
  }

  // ----- specification: registration -----

  ghost predicate ClaimUsed(t: Tables, claim: Option<Claim>) {
    claim.Some? && claim.value.statement in t.claims
  }

  ghost function Claimed(t: Tables, claim: Option<Claim>): map<string, ClaimRow> {
    match claim {
      case None => t.claims
      case Some(c) => t.claims[c.statement := ClaimRow(c.route, c.expiresAt)]
    }
  }

  /** The account's other usernames in the domain of `keep` are dropped. */
  ghost predicate Evicted(names: map<Name, NameRow>, a: AccountId, keep: Name, n: Name) {
    n in names && names[n].owner == a && names[n].kind == Username && n.domain == keep.domain && n != keep
  }

  ghost function Evict(names: map<Name, NameRow>, a: AccountId, keep: Name): map<Name, NameRow> {
    map n | n in names && !Evicted(names, a, keep, n) :: names[n]
  }

  ghost function RegistrationAccount(t: Tables, r: Registration, freshId: AccountId): AccountId {
    match r.accountId {
      case Some(a) => a
      case None => match SparkOf(t, r.pubkey) {
        case Some(a) => a
        case None => freshId
      }
    }
  }

  ghost function RegistrationRefusal(t: Tables, r: Registration, freshId: AccountId): Option<StoreError> {
    var a := RegistrationAccount(t, r, freshId);
    var n := r.identifier.name;
    var holder := SparkOf(t, r.pubkey);
    if r.identifier.kind == Phone then Some(InvalidIdentifierKind)
    else if ClaimUsed(t, r.claim) then Some(StatementAlreadyUsed)
    else if a in t.accounts && t.accounts[a].provider != Spark then Some(InvalidProvider)
    else if n in t.names && t.names[n].owner != a then Some(IdentifierConflict)
    else if holder.Some? && holder.value != a then Some(InvalidOwnership)
    else None
  }

  ghost function Registered(t: Tables, r: Registration, freshId: AccountId, now: int): Tables {
    var a := RegistrationAccount(t, r, freshId);
    var n := r.identifier.name;
    Tables(
      t.accounts[a := AccountRow(Spark, if a in t.accounts then t.accounts[a].createdAt else now, now)],
      t.sparks[a := if a in t.sparks then t.sparks[a].(pubkey := r.pubkey, updatedAt := now)
               else NewSpark(r.pubkey, now)],
      t.blinks,
      Evict(t.names, a, n)[n := NameRow(a, r.identifier.kind, r.identifier.description,
                                        if n in t.names then t.names[n].createdAt else now, now)],
      Claimed(t, r.claim))
  }

  // ----- specification: deletion and transfers -----

  ghost function DeletionRefusal(t: Tables, n: Name, pubkey: string, claim: Option<Claim>): Option<StoreError> {
    var holder := SparkOf(t, pubkey);
    if ClaimUsed(t, claim) then Some(StatementAlreadyUsed)
    else if holder.None? || n !in t.names || t.names[n].owner != holder.value then Some(SourceNotOwner)
    else None
  }

  ghost function Deleted(t: Tables, n: Name, claim: Option<Claim>): Tables {
    t.(names := t.names - {n}, claims := Claimed(t, claim))
  }

  /** `from` is the provider the source must have: Spark for the signed transfer, Blink for the internal one. */
  ghost function TransferRefusal(t: Tables, x: Transfer, from: Provider): Option<StoreError> {
    if ClaimUsed(t, x.claim) then Some(StatementAlreadyUsed)
    else if x.name !in t.names || t.names[x.name].owner != x.source then Some(SourceNotOwner)
    else if x.source !in t.accounts || t.accounts[x.source].provider != from
            || (from == Spark && x.source !in t.sparks) || (from == Blink && x.source !in t.blinks)
    then Some(InvalidOwnership)
    else None
  }

  ghost function TransferTarget(t: Tables, x: Transfer, freshId: AccountId): AccountId {
    match SparkOf(t, x.target) {
      case Some(a) => a
      case None => freshId
    }
  }

  ghost function Transferred(t: Tables, x: Transfer, freshId: AccountId, now: int): Tables
    requires x.name in t.names
  {
    var a := TransferTarget(t, x, freshId);
    var created := SparkOf(t, x.target).None?;
    var moved := t.names[x.name].(owner := a, description := x.description, updatedAt := now);
    Tables(
      if created then t.accounts[a := AccountRow(Spark, now, now)] else t.accounts,
      if created then t.sparks[a := NewSpark(x.target, now)] else t.sparks,
      t.blinks,
      Evict(t.names[x.name := moved], a, x.name),
      Claimed(t, x.claim))
  }

  // ----- specification: Blink accounts -----

  ghost predicate BlinkIdTaken(t: Tables, blinkId: string) {
    exists a :: a in t.blinks && t.blinks[a].blinkId == blinkId
  }

  ghost predicate DistinctNames(ids: seq<NewIdentifier>) {
    forall i, j :: 0 <= i < j < |ids| ==> ids[i].name != ids[j].name
  }

  ghost function BlinkRefusal(t: Tables, id: AccountId, b: NewBlink): Option<StoreError> {
    if id in t.accounts then
      if t.accounts[id].provider != Blink then Some(InvalidProvider)
      else if id !in t.blinks then Some(InvalidOwnership)
      else if t.blinks[id].blinkId != b.blinkId || t.blinks[id].btcWallet != b.btcWallet
              || t.blinks[id].usdWallet != b.usdWallet || t.blinks[id].defaultWallet != b.defaultWallet
      then Some(InvalidOwnership)
      else Some(BlinkAccountExists)
    else if BlinkIdTaken(t, b.blinkId) then Some(BlinkAccountExists)
    else if exists i :: 0 <= i < |b.identifiers| && b.identifiers[i].name in t.names then Some(IdentifierConflict)
    else if !DistinctNames(b.identifiers) then Some(General)
    else None
  }

  function AddNames(names: map<Name, NameRow>, id: AccountId, ids: seq<NewIdentifier>, now: int): map<Name, NameRow> {
    if ids == [] then names
    else
      var last := ids[|ids| - 1];
      AddNames(names, id, ids[..|ids| - 1], now)[last.name := NameRow(id, last.kind, last.description, now, now)]
  }

  ghost function BlinkCreated(t: Tables, id: AccountId, b: NewBlink, now: int): Tables {
    t.(accounts := t.accounts[id := AccountRow(Blink, now, now)],
       blinks := t.blinks[id := BlinkRow(b.blinkId, b.btcWallet, b.usdWallet, b.defaultWallet, now, now)],
       names := AddNames(t.names, id, b.identifiers, now))
  }

  // ----- specification: first contact and the mode register -----

  /** The creation transaction of ensure_spark_account; the existence read before it may be stale. */
  ghost function FirstContact(t: Tables, pubkey: string, freshId: AccountId, now: int): Tables {
    if SparkOf(t, pubkey).Some? then t
    else t.(accounts := t.accounts[freshId := AccountRow(Spark, now, now)],
            sparks := t.sparks[freshId := NewSpark(pubkey, now)])
  }

  ghost predicate NewerThanAnchor(row: SparkRow, timestamp: int) {
    row.anchor.None? || row.anchor.value < timestamp
  }

  function ModeSet(row: SparkRow, u: ModeUpdate, now: int): SparkRow {
    var country := if u.mode == Anon then None else u.country;
    var writeCountry := u.mode == Anon || country.Some?;
    row.(mode := Some(u.mode),
         source := Some(if row.mode.None? then Signup else Switch),
         modeUpdatedAt := Some(now),
         anchor := Some(u.timestamp),
         country := if writeCountry then country else row.country,
         countryUpdatedAt := if !writeCountry then row.countryUpdatedAt else if country.Some? then Some(now) else None,
         updatedAt := now)
  }

  ghost predicate ModeAccepted(t: Tables, u: ModeUpdate) {
    var holder := SparkOf(t, u.pubkey);
    holder.Some? && NewerThanAnchor(t.sparks[holder.value], u.timestamp)
  }

  /** The guarded UPDATE of upsert_spark_mode. */
  ghost function ModeWritten(t: Tables, u: ModeUpdate, now: int): Tables {
    if !ModeAccepted(t, u) then t
    else
      var a := SparkOf(t, u.pubkey).value;
      t.(sparks := t.sparks[a := ModeSet(t.sparks[a], u, now)])
  }

  /** classify_refused_mode_write over the row read after the refused update. */
  ghost function ClassifyRefused(t: Tables, u: ModeUpdate): Outcome {
    match SparkOf(t, u.pubkey) {
      case None => Refused(AccountNotFound)
      case Some(a) =>
        if t.sparks[a].mode == Some(u.mode) && t.sparks[a].anchor == Some(u.timestamp) then Committed
        else Refused(StaleModeTimestamp)
    }
  }

  ghost function Backfilled(t: Tables, pubkey: string, now: int): Tables {
    match SparkOf(t, pubkey) {
      case None => t
      case Some(a) =>
        if t.sparks[a].mode.Some? then t
        else t.(sparks := t.sparks[a := t.sparks[a].(mode := Some(Enhanced), source := Some(Migration),
                                                     modeUpdatedAt := Some(now), updatedAt := now)])
    }
  }

  ghost function CountryRefreshed(t: Tables, pubkey: string, country: string, now: int): Tables {
    match SparkOf(t, pubkey) {
      case None => t
      case Some(a) =>
        if t.sparks[a].mode != Some(Enhanced) then t
        else t.(sparks := t.sparks[a := t.sparks[a].(country := Some(country), countryUpdatedAt := Some(now),
                                                     updatedAt := now)])
    }
  }

  ghost function Pruned(t: Tables, now: int): Tables {
    t.(claims := map s | s in t.claims && t.claims[s].expiresAt >= now :: t.claims[s])
  }

  ghost function WalletChanged(t: Tables, blinkId: string, wallet: WalletKind, now: int): Tables {
    t.(blinks := map a | a in t.blinks ::
         if t.blinks[a].blinkId == blinkId then t.blinks[a].(defaultWallet := wallet, updatedAt := now)
           else t.blinks[a])
  }

  // ----- helpers -----

  lemma {:induction false} AddNamesKeys(names: map<Name, NameRow>, id: AccountId, ids: seq<NewIdentifier>, now: int)
    ensures AddNames(names, id, ids, now).Keys == names.Keys + (set i | 0 <= i < |ids| :: ids[i].name)
    ensures forall n :: n in AddNames(names, id, ids, now) ==>
              var row := AddNames(names, id, ids, now)[n];
              (exists i :: 0 <= i < |ids| && ids[i].name == n && row.owner == id) || (n in names && row == names[n])
  {
    if ids != [] {
      var init, last := ids[..|ids| - 1], ids[|ids| - 1];
      AddNamesKeys(names, id, init, now);
      assert forall i :: 0 <= i < |init| ==> init[i] == ids[i];
      assert (set i | 0 <= i < |ids| :: ids[i].name) == (set i | 0 <= i < |init| :: init[i].name) + {last.name};
      forall n | n in AddNames(names, id, ids, now)
        ensures var row := AddNames(names, id, ids, now)[n];
                (exists i :: 0 <= i < |ids| && ids[i].name == n && row.owner == id) || (n in names && row == names[n])
      {
        if n == last.name {
          assert ids[|ids| - 1].name == n;
        } else {
          assert n in AddNames(names, id, init, now);
        }
      }
    }
  }

  lemma FirstContactUnique(t: Tables, pubkey: string, freshId: AccountId, now: int)
    requires UniquePubkeys(t)
    ensures UniquePubkeys(FirstContact(t, pubkey, freshId, now))
  {
    var t' := FirstContact(t, pubkey, freshId, now);
    forall a, b | a in t'.sparks && b in t'.sparks && t'.sparks[a].pubkey == t'.sparks[b].pubkey
      ensures a == b
    {
      assert a != freshId ==> !HasPubkey(t, a, pubkey) || t' == t;
      assert b != freshId ==> !HasPubkey(t, b, pubkey) || t' == t;
    }
  }
}
