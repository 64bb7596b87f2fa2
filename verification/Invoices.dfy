/**
 * The invoices table, the webhook outbox and the settlement handlers
 * (src/invoice_paid.rs, src/webhook_notify.rs, the invoice and webhook SQL of
 * src/postgresql/repository.rs).
 *
 * SHA-256 and BOLT11 decoding are arbitrary functions held by `Oracle`.
 */
module Invoices {
  import opened Text
  import opened Limits
  import opened AccountStore
  import ZQ = ZapQueue

  datatype Bolt11 = Bolt11(paymentHash: string, expiresAtMs: Option<nat>)

  datatype Oracle = Oracle(sha256: seq<int> -> string, bolt11: string -> Option<Bolt11>)

  // ----- preimages -----

  /** The payment hash a preimage belongs to, if it is hex at all. */
  function PaymentHash(o: Oracle, preimage: string): Option<string> {
    match DecodeHex(preimage) {
      case None => None
      case Some(bytes) => Some(o.sha256(bytes))
    }
  }

  // ----- rows -----

  datatype Invoice = Invoice(
    userPubkey: string, bolt11: string,
    preimage: Option<string>, expiredAt: Option<int>,
    invoiceExpiry: int, createdAt: int, updatedAt: int,
    domain: Option<string>, amountReceivedSat: Option<int>,
    accountId: Option<string>, provider: Option<Provider>, walletKind: Option<WalletKind>,
    walletId: Option<string>, providerPaymentHash: Option<string>)

  type InvoiceTable = map<string, Invoice>

  predicate Paid(t: InvoiceTable, h: string) {
    h in t && t[h].preimage.Some?
  }

  function Coalesce<T>(a: Option<T>, b: Option<T>): Option<T> {
    if a.Some? then a else b
  }

  function ExpiredAfter(excluded: Invoice, existing: Invoice): Option<int> {
    if excluded.preimage.Some? then None else Coalesce(excluded.expiredAt, existing.expiredAt)
  }

  /** ON CONFLICT DO UPDATE of upsert_invoice: created_at is kept, ownership columns coalesce. */
  function Merge(existing: Invoice, x: Invoice): Invoice {
    x.(expiredAt := ExpiredAfter(x, existing),
       createdAt := existing.createdAt,
       accountId := Coalesce(x.accountId, existing.accountId),
       provider := Coalesce(x.provider, existing.provider),
       walletKind := Coalesce(x.walletKind, existing.walletKind),
       walletId := Coalesce(x.walletId, existing.walletId),
       providerPaymentHash := Coalesce(x.providerPaymentHash, existing.providerPaymentHash))
  }

  function Upserted(t: InvoiceTable, h: string, x: Invoice): InvoiceTable {
    t[h := if h in t then Merge(t[h], x) else x]
  }

  function Expired(t: InvoiceTable, h: string, now: int): InvoiceTable {
    if h in t && t[h].preimage.None? then t[h := t[h].(expiredAt := Some(now), updatedAt := now)] else t
  }

  // ----- batch settlement -----

  /** A row of the batch; `paymentHash` is computed from its preimage. */
  datatype BatchRow = BatchRow(paymentHash: string, invoice: Invoice)

  ghost predicate DistinctHashes(rows: seq<BatchRow>) {
    forall i, j :: 0 <= i < j < |rows| ==> rows[i].paymentHash != rows[j].paymentHash
  }

  /** A row the batch writes: absent, or unpaid and of the same user. */
  predicate Affected(t: InvoiceTable, x: BatchRow) {
    x.paymentHash !in t || (t[x.paymentHash].userPubkey == x.invoice.userPubkey && t[x.paymentHash].preimage.None?)
  }

  /** DO UPDATE of upsert_invoices_paid, which leaves the columns it does not name. */
  function SettledRow(existing: Invoice, x: Invoice): Invoice {
    existing.(preimage := x.preimage, expiredAt := ExpiredAfter(x, existing), updatedAt := x.updatedAt,
              accountId := Coalesce(x.accountId, existing.accountId),
              provider := Coalesce(x.provider, existing.provider),
              walletKind := Coalesce(x.walletKind, existing.walletKind),
              walletId := Coalesce(x.walletId, existing.walletId),
              providerPaymentHash := Coalesce(x.providerPaymentHash, existing.providerPaymentHash))
  }

  /** Settling one row on its own. The insert leaves domain and amount NULL. */
  function SettleOne(t: InvoiceTable, x: BatchRow): InvoiceTable {
    if !Affected(t, x) then t
    else if x.paymentHash in t then t[x.paymentHash := SettledRow(t[x.paymentHash], x.invoice)]
    else t[x.paymentHash := x.invoice.(domain := None, amountReceivedSat := None)]
  }

  function SettleInTurn(t: InvoiceTable, rows: seq<BatchRow>): InvoiceTable {
    if rows == [] then t else SettleOne(SettleInTurn(t, rows[..|rows| - 1]), rows[|rows| - 1])
  }

  /** A batch of this user pays the hash: it has no row, or an unpaid one of the same user. */
  ghost predicate Payable(t: InvoiceTable, h: string, userPubkey: string) {
    h in t ==> t[h].preimage.None? && t[h].userPubkey == userPubkey
  }

  ghost predicate RowFor(rows: seq<BatchRow>, h: string, x: BatchRow) {
    x in rows && x.paymentHash == h
  }

  /** The single statement: every row is judged against the table as it was. */
  ghost predicate IsBatch(t: InvoiceTable, rows: seq<BatchRow>, t': InvoiceTable) {
    && t'.Keys == t.Keys + (set x | x in rows :: x.paymentHash)
    && (forall h :: h in t && (forall x :: x in rows ==> x.paymentHash != h) ==> t'[h] == t[h])
    && (forall x :: x in rows ==> x.paymentHash in t' && t'[x.paymentHash] == SettleOne(t, x)[x.paymentHash])
  }

  lemma {:induction false} InTurnElsewhere(t: InvoiceTable, rows: seq<BatchRow>, h: string)
    requires forall x :: x in rows ==> x.paymentHash != h
    ensures h in SettleInTurn(t, rows) <==> h in t
    ensures h in t ==> SettleInTurn(t, rows)[h] == t[h]
  {
    if rows != [] {
      assert rows[|rows| - 1] in rows;
      InTurnElsewhere(t, rows[..|rows| - 1], h);
    }
  }

  lemma {:induction false} InTurnKeys(t: InvoiceTable, rows: seq<BatchRow>)
    ensures SettleInTurn(t, rows).Keys == t.Keys + (set x | x in rows :: x.paymentHash)
  {
    if rows != [] {
      var init, last := rows[..|rows| - 1], rows[|rows| - 1];
      InTurnKeys(t, init);
      assert forall x :: x in rows <==> x in init || x == last;
    }
  }

  lemma {:induction false} InTurnAt(t: InvoiceTable, rows: seq<BatchRow>, i: nat)
    requires DistinctHashes(rows) && i < |rows|
    ensures var h := rows[i].paymentHash;
            h in SettleInTurn(t, rows) && SettleInTurn(t, rows)[h] == SettleOne(t, rows[i])[h]
  {
    var init, last := rows[..|rows| - 1], rows[|rows| - 1];
    if i == |init| {
      assert forall x :: x in init ==> x.paymentHash != last.paymentHash;
      InTurnElsewhere(t, init, last.paymentHash);
    } else {
      InTurnAt(t, init, i);
      assert init[i] == rows[i];
    }
  }

  /** For distinct hashes the statement has exactly the effect of settling the rows one at a time. */
  lemma BatchIsInTurn(t: InvoiceTable, rows: seq<BatchRow>)
    requires DistinctHashes(rows)
    ensures IsBatch(t, rows, SettleInTurn(t, rows))
  {
    InTurnKeys(t, rows);
    forall h | h in t && (forall x :: x in rows ==> x.paymentHash != h) ensures SettleInTurn(t, rows)[h] == t[h] {
      InTurnElsewhere(t, rows, h);
    }
    forall x | x in rows
      ensures x.paymentHash in SettleInTurn(t, rows)
              && SettleInTurn(t, rows)[x.paymentHash] == SettleOne(t, x)[x.paymentHash]
    {
      var i :| 0 <= i < |rows| && rows[i] == x;
      InTurnAt(t, rows, i);
    }
  }

  lemma SameMembers<T>(s: seq<T>, s': seq<T>)
    requires multiset(s) == multiset(s')
    ensures forall x :: x in s <==> x in s'
  {
    forall x ensures x in s <==> x in s' {
      assert x in s <==> x in multiset(s);
      assert x in s' <==> x in multiset(s');
    }
  }

  /** The batch does not depend on the order of its rows: any two orders give the same table. */
  lemma BatchOrderFree(t: InvoiceTable, rows: seq<BatchRow>, rows': seq<BatchRow>)
    requires DistinctHashes(rows) && DistinctHashes(rows') && multiset(rows) == multiset(rows')
    ensures SettleInTurn(t, rows) == SettleInTurn(t, rows')
  {
    BatchIsInTurn(t, rows);
    BatchIsInTurn(t, rows');
    SameMembers(rows, rows');
    BatchIsDetermined(t, rows, SettleInTurn(t, rows), rows', SettleInTurn(t, rows'));
  }

  lemma BatchIsDetermined(t: InvoiceTable, rows: seq<BatchRow>, a: InvoiceTable, rows': seq<BatchRow>, b: InvoiceTable)
    requires IsBatch(t, rows, a) && IsBatch(t, rows', b) && forall x :: x in rows <==> x in rows'
    ensures a == b
  {
    assert (set x | x in rows :: x.paymentHash) == (set x | x in rows' :: x.paymentHash);
    forall h | h in a ensures a[h] == b[h] {
      if x :| x in rows && x.paymentHash == h {
        assert x in rows';
      }
    }
  }

  // ----- the statements in columns -----

  /** A column that the statement overwrites only with a value. */
  ghost predicate Filled<T>(before: Option<T>, given: Option<T>, after: Option<T>) {
    (given.Some? ==> after == given) && (given.None? ==> after == before)
  }

  ghost predicate OwnershipFilled(before: Invoice, given: Invoice, after: Invoice) {
    && Filled(before.accountId, given.accountId, after.accountId)
       && Filled(before.provider, given.provider, after.provider)
    && Filled(before.walletKind, given.walletKind, after.walletKind)
       && Filled(before.walletId, given.walletId, after.walletId)
    && Filled(before.providerPaymentHash, given.providerPaymentHash, after.providerPaymentHash)
  }

  /** A known row takes the preimage of the batch row and keeps what it was made for. */
  ghost predicate PaidInPlace(before: Invoice, given: Invoice, after: Invoice) {
    && after.preimage == given.preimage && after.updatedAt == given.updatedAt
    && (given.preimage.Some? ==> after.expiredAt.None?)
    && after.userPubkey == before.userPubkey && after.bolt11 == before.bolt11 && after.domain == before.domain
    && after.amountReceivedSat == before.amountReceivedSat && after.invoiceExpiry == before.invoiceExpiry
    && after.createdAt == before.createdAt && OwnershipFilled(before, given, after)
  }

  /** An unknown hash gets the batch row, without domain and amount. */
  ghost predicate InsertedPaid(given: Invoice, after: Invoice) {
    && after.preimage == given.preimage && after.updatedAt == given.updatedAt && after.expiredAt == given.expiredAt
    && after.userPubkey == given.userPubkey && after.bolt11 == given.bolt11
       && after.invoiceExpiry == given.invoiceExpiry
    && after.createdAt == given.createdAt && after.domain.None? && after.amountReceivedSat.None?
    && after.accountId == given.accountId && after.provider == given.provider && after.walletKind == given.walletKind
    && after.walletId == given.walletId && after.providerPaymentHash == given.providerPaymentHash
  }

  /** The batch pays absent hashes and unpaid invoices of the same user, and touches no other row. */
  ghost predicate BatchPays(t: InvoiceTable, rows: seq<BatchRow>, t': InvoiceTable) {
    && (forall h :: (forall x :: x in rows ==> x.paymentHash != h) ==>
          (h in t' <==> h in t) && (h in t ==> t'[h] == t[h]))
    && (forall x :: x in rows ==>
          var h := x.paymentHash;
          && h in t'
          && if h !in t then InsertedPaid(x.invoice, t'[h])
             else if t[h].userPubkey == x.invoice.userPubkey && t[h].preimage.None?
               then PaidInPlace(t[h], x.invoice, t'[h])
             else t'[h] == t[h])
  }

  lemma BatchIsPayment(t: InvoiceTable, rows: seq<BatchRow>, t': InvoiceTable)
    requires IsBatch(t, rows, t')
    ensures BatchPays(t, rows, t')
  {
    forall h | (forall x :: x in rows ==> x.paymentHash != h)
      ensures (h in t' <==> h in t) && (h in t ==> t'[h] == t[h])
    {
      assert h !in (set x | x in rows :: x.paymentHash);
    }
    forall x | x in rows
      ensures var h := x.paymentHash;
              && h in t'
              && if h !in t then InsertedPaid(x.invoice, t'[h])
                 else if t[h].userPubkey == x.invoice.userPubkey && t[h].preimage.None?
                 then PaidInPlace(t[h], x.invoice, t'[h])
                 else t'[h] == t[h]
    {
      SettleOneColumns(t, x);
    }
  }

  lemma SettleOneColumns(t: InvoiceTable, x: BatchRow)
    ensures var h, t' := x.paymentHash, SettleOne(t, x);
            && h in t'
            && if h !in t then InsertedPaid(x.invoice, t'[h])
               else if t[h].userPubkey == x.invoice.userPubkey && t[h].preimage.None?
                 then PaidInPlace(t[h], x.invoice, t'[h])
               else t'[h] == t[h]
  {
  }

  /** What the upsert of one invoice leaves in its row: everything given, except that ownership is never blanked. */
  lemma UpsertedColumns(t: InvoiceTable, h: string, x: Invoice)
    ensures var t' := Upserted(t, h, x);
            && t'.Keys == t.Keys + {h} && (forall g :: g in t && g != h ==> t'[g] == t[g])
            && if h !in t then t'[h] == x
               else
                 && t'[h].userPubkey == x.userPubkey && t'[h].bolt11 == x.bolt11 && t'[h].preimage == x.preimage
                 && t'[h].invoiceExpiry == x.invoiceExpiry && t'[h].updatedAt == x.updatedAt && t'[h].domain == x.domain
                 && t'[h].amountReceivedSat == x.amountReceivedSat && t'[h].createdAt == t[h].createdAt
                 && (x.preimage.Some? ==> t'[h].expiredAt.None?)
                 && (x.preimage.None? ==> Filled(t[h].expiredAt, x.expiredAt, t'[h].expiredAt))
                 && OwnershipFilled(t[h], x, t'[h])
  {
  }

  /** Marking an invoice expired writes the time into unpaid rows only. */
  lemma ExpiredColumns(t: InvoiceTable, h: string, now: int)
    ensures var t' := Expired(t, h, now);
            && t'.Keys == t.Keys && (forall g :: g in t && g != h ==> t'[g] == t[g])
            && (h in t && t[h].preimage.Some? ==> t'[h] == t[h])
            && (h in t && t[h].preimage.None? ==>
                  t'[h].expiredAt == Some(now) && t'[h].updatedAt == now && t'[h].preimage.None?
                  && t'[h].(expiredAt := t[h].expiredAt, updatedAt := t[h].updatedAt) == t[h])
  {
  }

  // ----- the webhook outbox -----

  datatype Payload = PaymentReceived(
    paymentHash: string, bolt11: string, preimage: string, amountSat: Option<int>,
    lightningAddress: Option<string>, senderComment: Option<string>, timestamp: int)

  /** What the payload query joins: an account's identifier in a domain, and the comment on a payment. */
  datatype Directory = Directory(identifier: (string, string) -> Option<string>, comment: string -> Option<string>)

  datatype Delivery = Delivery(identifier: string, domain: string, payload: Payload, createdAt: int,
                               succeededAt: Option<int>)

  datatype NewDelivery = NewDelivery(identifier: string, domain: string, payload: Payload)

  datatype Outbox = Outbox(deliveries: map<nat, Delivery>, nextId: nat)

  ghost predicate IsFor(d: Delivery, identifier: string, domain: string) {
    d.identifier == identifier && d.domain == domain
  }

  ghost predicate Holds(o: Outbox, identifier: string, domain: string) {
    exists id :: id in o.deliveries && IsFor(o.deliveries[id], identifier, domain)
  }

  ghost predicate AtMostOne(o: Outbox) {
    && (forall id :: id in o.deliveries ==> id < o.nextId)
    && (forall a, b :: a in o.deliveries && b in o.deliveries ==>
          IsFor(o.deliveries[a], o.deliveries[b].identifier, o.deliveries[b].domain) ==> a == b)
  }

  /**
   * NOT EXISTS skips a candidate with a row of any age; the unique index skips a
   * second candidate of the same statement.
   */
  ghost function Put(o: Outbox, x: NewDelivery, now: int): Outbox {
    if Holds(o, x.identifier, x.domain) then o
    else Outbox(o.deliveries[o.nextId := Delivery(x.identifier, x.domain, x.payload, now, None)], o.nextId + 1)
  }

  ghost function Enqueued(o: Outbox, batch: seq<NewDelivery>, now: int): Outbox {
    if batch == [] then o else Put(Enqueued(o, batch[..|batch| - 1], now), batch[|batch| - 1], now)
  }

  /** Rows are only added. */
  ghost predicate Grows(o: Outbox, o': Outbox) {
    forall id :: id in o.deliveries ==> id in o'.deliveries && o'.deliveries[id] == o.deliveries[id]
  }

  /** Every row of `o'` that `o` lacks is for a candidate. */
  ghost predicate AddsOnly(o: Outbox, o': Outbox, batch: seq<NewDelivery>, now: int) {
    forall id :: id in o'.deliveries && id !in o.deliveries ==> Wanted(batch, o'.deliveries[id], now)
  }

  /** The row is a candidate's, with its payload, undelivered and as old as the statement. */
  ghost predicate Wanted(batch: seq<NewDelivery>, d: Delivery, now: int) {
    exists i :: 0 <= i < |batch| && IsRowOf(d, batch[i], now)
  }

  ghost predicate IsRowOf(d: Delivery, x: NewDelivery, now: int) {
    d.identifier == x.identifier && d.domain == x.domain && d.payload == x.payload && d.createdAt == now
      && d.succeededAt.None?
  }

  lemma PutOnce(o: Outbox, x: NewDelivery, now: int)
    requires AtMostOne(o)
    ensures AtMostOne(Put(o, x, now)) && Grows(o, Put(o, x, now)) && AddsOnly(o, Put(o, x, now), [x], now)
    ensures Holds(Put(o, x, now), x.identifier, x.domain)
  {
    var o' := Put(o, x, now);
    if !Holds(o, x.identifier, x.domain) {
      assert IsFor(o'.deliveries[o.nextId], x.identifier, x.domain);
      assert forall id :: id in o.deliveries ==> !IsFor(o.deliveries[id], x.identifier, x.domain);
      assert IsRowOf(o'.deliveries[o.nextId], [x][0], now);
    }
  }

  lemma HoldsGrows(o: Outbox, o': Outbox, identifier: string, domain: string)
    requires Grows(o, o') && Holds(o, identifier, domain)
    ensures Holds(o', identifier, domain)
  {
    var id :| id in o.deliveries && IsFor(o.deliveries[id], identifier, domain);
    assert IsFor(o'.deliveries[id], identifier, domain);
  }

  lemma {:induction false} EnqueuedGrows(o: Outbox, batch: seq<NewDelivery>, now: int)
    requires AtMostOne(o)
    ensures AtMostOne(Enqueued(o, batch, now)) && Grows(o, Enqueued(o, batch, now))
  {
    if batch != [] {
      EnqueuedGrows(o, batch[..|batch| - 1], now);
      PutOnce(Enqueued(o, batch[..|batch| - 1], now), batch[|batch| - 1], now);
    }
  }

  lemma {:induction false} EnqueuedAdds(o: Outbox, batch: seq<NewDelivery>, now: int)
    requires AtMostOne(o)
    ensures AddsOnly(o, Enqueued(o, batch, now), batch, now)
  {
    if batch != [] {
      var init, x := batch[..|batch| - 1], batch[|batch| - 1];
      EnqueuedAdds(o, init, now);
      EnqueuedGrows(o, init, now);
      PutOnce(Enqueued(o, init, now), x, now);
      AddsInTurn(o, Enqueued(o, init, now), Put(Enqueued(o, init, now), x, now), init, x, now);
      assert init + [x] == batch;
    }
  }

  lemma {:induction false} EnqueuedHolds(o: Outbox, batch: seq<NewDelivery>, now: int, i: nat)
    requires AtMostOne(o) && i < |batch|
    ensures Holds(Enqueued(o, batch, now), batch[i].identifier, batch[i].domain)
  {
    var init, x := batch[..|batch| - 1], batch[|batch| - 1];
    EnqueuedGrows(o, init, now);
    PutOnce(Enqueued(o, init, now), x, now);
    if i < |init| {
      EnqueuedHolds(o, init, now, i);
      HoldsGrows(Enqueued(o, init, now), Enqueued(o, batch, now), batch[i].identifier, batch[i].domain);
    }
  }

  /** One statement adds rows for its candidates only, ends with a row for each, and never a second one. */
  lemma EnqueuedOnce(o: Outbox, batch: seq<NewDelivery>, now: int)
    requires AtMostOne(o)
    ensures var o' := Enqueued(o, batch, now); AtMostOne(o') && Grows(o, o') && AddsOnly(o, o', batch, now)
    ensures forall i :: 0 <= i < |batch| ==> Holds(Enqueued(o, batch, now), batch[i].identifier, batch[i].domain)
  {
    EnqueuedGrows(o, batch, now);
    EnqueuedAdds(o, batch, now);
    forall i | 0 <= i < |batch| ensures Holds(Enqueued(o, batch, now), batch[i].identifier, batch[i].domain) {
      EnqueuedHolds(o, batch, now, i);
    }
  }

  lemma AddsInTurn(o: Outbox, before: Outbox, after: Outbox, init: seq<NewDelivery>, x: NewDelivery, now: int)
    requires AddsOnly(o, before, init, now) && Grows(before, after) && AddsOnly(before, after, [x], now)
    ensures AddsOnly(o, after, init + [x], now)
  {
    var batch := init + [x];
    forall id | id in after.deliveries && id !in o.deliveries ensures Wanted(batch, after.deliveries[id], now) {
      if id in before.deliveries {
        var i :| 0 <= i < |init| && IsRowOf(before.deliveries[id], init[i], now);
        assert IsRowOf(after.deliveries[id], batch[i], now);
      } else {
        assert Wanted([x], after.deliveries[id], now);
        assert IsRowOf(after.deliveries[id], batch[|init|], now);
      }
    }
  }

  // ----- the receipt queue -----

  /** ON CONFLICT DO NOTHING for each hash. */
  function Receipts(rows: ZQ.Rows, hashes: seq<string>, now: nat): ZQ.Rows {
    if hashes == [] then rows
    else
      var before, h := Receipts(rows, hashes[..|hashes| - 1], now), hashes[|hashes| - 1];
      if h in before then before else before[h := ZQ.Row(now, 0, now, None)]
  }

  /** Every hash has a row, rows that were there are untouched, and no other row is added. */
  lemma {:induction false} ReceiptsAre(rows: ZQ.Rows, hashes: seq<string>, now: nat)
    ensures Receipts(rows, hashes, now).Keys == rows.Keys + (set h | h in hashes)
    ensures forall h :: h in Receipts(rows, hashes, now) ==>
              Receipts(rows, hashes, now)[h] == if h in rows then rows[h] else ZQ.Row(now, 0, now, None)
  {
    if hashes != [] {
      ReceiptsAre(rows, hashes[..|hashes| - 1], now);
      assert forall h :: h in hashes <==> h in hashes[..|hashes| - 1] || h == hashes[|hashes| - 1];
    }
  }

  // ----- the store and its handlers -----

  datatype PaidItem = PaidItem(preimage: string, bolt11: string)

  datatype PaidError = InvalidInvoice | InvalidPreimage

  /** What handle_invoices_paid makes of one item. */
  function ParseItem(o: Oracle, item: PaidItem, userPubkey: string, now: int): Result {
    match PaymentHash(o, item.preimage) {
      case None => Bad(InvalidPreimage)
      case Some(h) => match o.bolt11(item.bolt11) {
        case None => Bad(InvalidInvoice)
        case Some(b) =>
          if b.paymentHash != h then Bad(InvalidPreimage)
          else
            var expiry := match b.expiresAtMs { case None => 0 case Some(ms) => if ms <= I64_MAX then ms else I64_MAX };
            Row(BatchRow(h, Invoice(userPubkey, item.bolt11, Some(item.preimage), None, expiry, now, now, None, None,
                                    None, None, None, None, None)))
      }
    }
  }

  datatype Result = Row(row: BatchRow) | Bad(error: PaidError)

  /** What every row of a batch is: paid by a preimage of its own hash, and silent about ownership. */
  ghost predicate Genuine(o: Oracle, x: BatchRow) {
    && x.invoice.preimage.Some? && PaymentHash(o, x.invoice.preimage.value) == Some(x.paymentHash)
    && x.invoice.expiredAt.None?
    && x.invoice.accountId.None? && x.invoice.provider.None? && x.invoice.walletKind.None?
    && x.invoice.walletId.None? && x.invoice.providerPaymentHash.None?
  }

  function AddressOf(dir: Directory, accountId: Option<string>, domain: string): Option<string> {
    match accountId {
      case None => None
      case Some(a) => match dir.identifier(a, domain) {
        case None => None
        case Some(identifier) => Some(identifier + "@" + domain)
      }
    }
  }

  function DeliveryFor(dir: Directory, h: string, x: Invoice, now: int): NewDelivery
    requires x.preimage.Some? && x.domain.Some?
  {
    NewDelivery(h, x.domain.value,
                PaymentReceived(h, x.bolt11, x.preimage.value, x.amountReceivedSat,
                                AddressOf(dir, x.accountId, x.domain.value), dir.comment(h), now))
  }

  /** The deliveries notify_webhooks builds for paid invoices that have a domain, in the order of the hashes. */
  function Payloads(t: InvoiceTable, dir: Directory, hashes: seq<string>, now: int): seq<NewDelivery> {
    if hashes == [] then []
    else
      var before, h := Payloads(t, dir, hashes[..|hashes| - 1], now), hashes[|hashes| - 1];
      if h in t && t[h].preimage.Some? && t[h].domain.Some?
      then before + [DeliveryFor(dir, h, t[h], now)] else before
  }

  /** The payload reports the payment with the columns of its invoice, the address of its account and its comment. */
  ghost predicate Describes(p: Payload, dir: Directory, h: string, x: Invoice, now: int) {
    && p.paymentHash == h && p.bolt11 == x.bolt11 && Some(p.preimage) == x.preimage
       && p.amountSat == x.amountReceivedSat
    && p.senderComment == dir.comment(h) && p.timestamp == now
    && (p.lightningAddress.Some? <==>
        x.accountId.Some? && x.domain.Some? && dir.identifier(x.accountId.value, x.domain.value).Some?)
    && (p.lightningAddress.Some? ==>
          p.lightningAddress.value == dir.identifier(x.accountId.value, x.domain.value).value + "@" + x.domain.value)
  }

  lemma {:induction false} PayloadsSound(t: InvoiceTable, dir: Directory, hashes: seq<string>, now: int)
    ensures forall i :: 0 <= i < |Payloads(t, dir, hashes, now)| ==>
              var d := Payloads(t, dir, hashes, now)[i];
              d.identifier in hashes && Paid(t, d.identifier) && t[d.identifier].domain == Some(d.domain)
              && Describes(d.payload, dir, d.identifier, t[d.identifier], now)
    ensures forall h :: h in hashes && Paid(t, h) && t[h].domain.Some? ==>
              exists i :: 0 <= i < |Payloads(t, dir, hashes, now)|
                && Payloads(t, dir, hashes, now)[i].identifier == h
                && Payloads(t, dir, hashes, now)[i].domain == t[h].domain.value
  {
    if hashes != [] {
      var init, last := hashes[..|hashes| - 1], hashes[|hashes| - 1];
      PayloadsSound(t, dir, init, now);
      var before, after := Payloads(t, dir, init, now), Payloads(t, dir, hashes, now);
      assert forall i :: 0 <= i < |before| ==> after[i] == before[i];
      forall h | h in hashes && Paid(t, h) && t[h].domain.Some?
        ensures exists i :: 0 <= i < |after| && after[i].identifier == h && after[i].domain == t[h].domain.value
      {
        if h == last {
          assert after[|after| - 1].identifier == h;
        } else {
          assert h in init;
          var i :| 0 <= i < |before| && before[i].identifier == h && before[i].domain == t[h].domain.value;
          assert after[i].identifier == h;
        }
      }
    }
  }

  /** No two items settle the same hash. */
  ghost predicate DistinctItems(o: Oracle, items: seq<PaidItem>, userPubkey: string, now: int) {
    forall i, j :: 0 <= i < j < |items| ==>
      var x, y := ParseItem(o, items[i], userPubkey, now), ParseItem(o, items[j], userPubkey, now);
      x.Row? && y.Row? ==> x.row.paymentHash != y.row.paymentHash
  }

  function HashesOf(rows: seq<BatchRow>): seq<string> {
    seq(|rows|, i requires 0 <= i < |rows| => rows[i].paymentHash)
  }

  /**
   * The rows settled are exactly the items with a known hash, and the hashes
   * returned are those the statement wrote.
   */
  ghost predicate Settles(o: Oracle, t: InvoiceTable, items: seq<PaidItem>, userPubkey: string, others: set<string>,
                          now: int, settled: seq<BatchRow>, affected: seq<string>)
  {
    && (forall i :: 0 <= i < |items| ==> ParseItem(o, items[i], userPubkey, now).Row?)
    && (forall x :: x in settled ==> Genuine(o, x) && (x.paymentHash in t || x.paymentHash in others))
    && (forall i :: 0 <= i < |items| ==>
          var x := ParseItem(o, items[i], userPubkey, now).row;
          x in settled <==> x.paymentHash in t || x.paymentHash in others)
    && (forall h :: h in affected <==> exists x :: RowFor(settled, h, x) && Payable(t, h, x.invoice.userPubkey))
  }

  /**
   * A known hash that this user can pay is paid with the preimage of the item,
   * has a receipt row, and a delivery if its invoice has a domain.
   */
  ghost predicate Delivered(x: BatchRow, t: InvoiceTable, others: set<string>, t': InvoiceTable, receipts: ZQ.Rows,
                            b: Outbox)
  {
    var h := x.paymentHash;
    (h in t || h in others) && Payable(t, h, x.invoice.userPubkey) ==>
      && h in t' && t'[h].preimage.Some? && t'[h].preimage == x.invoice.preimage && t'[h].expiredAt.None?
      && h in receipts && (t'[h].domain.Some? ==> Holds(b, h, t'[h].domain.value))
  }

  lemma ItemsDelivered(o: Oracle, items: seq<PaidItem>, userPubkey: string, others: set<string>, now: nat,
                       t: InvoiceTable, settled: seq<BatchRow>, affected: seq<string>, t': InvoiceTable,
                       receipts: ZQ.Rows, b: Outbox, dir: Directory)
    requires Settles(o, t, items, userPubkey, others, now, settled, affected) && BatchPays(t, settled, t')
             && AtMostOne(b)
    ensures forall i :: 0 <= i < |items| ==>
              Delivered(ParseItem(o, items[i], userPubkey, now).row, t, others, t', Receipts(receipts, affected, now),
                        Enqueued(b, Payloads(t', dir, HashesOf(settled), now), now))
  {
    ReceiptsAre(receipts, affected, now);
    forall i | 0 <= i < |items|
      ensures Delivered(ParseItem(o, items[i], userPubkey, now).row, t, others, t', Receipts(receipts, affected, now),
                        Enqueued(b, Payloads(t', dir, HashesOf(settled), now), now))
    {
      var x := ParseItem(o, items[i], userPubkey, now).row;
      if (x.paymentHash in t || x.paymentHash in others) && Payable(t, x.paymentHash, userPubkey) {
        assert Genuine(o, x) && RowFor(settled, x.paymentHash, x);
        HashAmong(settled, x);
        PaidIsNotified(b, t', dir, HashesOf(settled), x.paymentHash, now);
      }
    }
  }

  /** A paid invoice with a domain among the hashes ends with a delivery. */
  lemma PaidIsNotified(b: Outbox, t: InvoiceTable, dir: Directory, hashes: seq<string>, h: string, now: int)
    requires AtMostOne(b) && h in hashes && Paid(t, h)
    ensures t[h].domain.Some? ==> Holds(Enqueued(b, Payloads(t, dir, hashes, now), now), h, t[h].domain.value)
  {
    PayloadsSound(t, dir, hashes, now);
    EnqueuedOnce(b, Payloads(t, dir, hashes, now), now);
  }

  lemma HashAmong(settled: seq<BatchRow>, x: BatchRow)
    requires x in settled
    ensures x.paymentHash in HashesOf(settled)
  {
    var j :| 0 <= j < |settled| && settled[j] == x;
    assert HashesOf(settled)[j] == x.paymentHash;
  }

  /**
   * An item is taken exactly when its preimage is hex, its invoice decodes and is
   * for the hash of the preimage; its row pays that hash for the user.
   */
  lemma ParseItemExactly(o: Oracle, item: PaidItem, userPubkey: string, now: int)
    ensures var r := ParseItem(o, item, userPubkey, now);
            if DecodeHex(item.preimage).None? then r == Bad(InvalidPreimage)
            else
              var h := o.sha256(DecodeHex(item.preimage).value);
              if o.bolt11(item.bolt11).None? then r == Bad(InvalidInvoice)
              else if o.bolt11(item.bolt11).value.paymentHash != h then r == Bad(InvalidPreimage)
              else
                && r.Row? && r.row.paymentHash == h && Genuine(o, r.row)
                && r.row.invoice.preimage == Some(item.preimage) && r.row.invoice.bolt11 == item.bolt11
                && r.row.invoice.userPubkey == userPubkey
                && r.row.invoice.createdAt == r.row.invoice.updatedAt == now
                && r.row.invoice.invoiceExpiry <= I64_MAX
                && (o.bolt11(item.bolt11).value.expiresAtMs.Some?
                    && o.bolt11(item.bolt11).value.expiresAtMs.value <= I64_MAX ==>
                      r.row.invoice.invoiceExpiry == o.bolt11(item.bolt11).value.expiresAtMs.value)
  {
  }

  class InvoiceStore {
    var invoices: InvoiceTable
    var outbox: Outbox
    var receipts: ZQ.Rows

    constructor ()
      ensures invoices == map[] && outbox == Outbox(map[], 0) && receipts == map[]
    {
      invoices, outbox, receipts := map[], Outbox(map[], 0), map[];
    }

    method UpsertInvoice(h: string, x: Invoice)
      modifies this`invoices
      ensures invoices == Upserted(old(invoices), h, x)
    {
      if h !in invoices {
        invoices := invoices[h := x];
        return;
      }
      var row := invoices[h];
      row := row.(userPubkey := x.userPubkey, bolt11 := x.bolt11);
      row := row.(expiredAt := if x.preimage.Some? then None else if x.expiredAt.Some? then x.expiredAt
                  else row.expiredAt);
      row := row.(preimage := x.preimage, invoiceExpiry := x.invoiceExpiry, updatedAt := x.updatedAt);
      row := row.(domain := x.domain, amountReceivedSat := x.amountReceivedSat);
      if x.accountId.Some? { row := row.(accountId := x.accountId); }
      if x.provider.Some? { row := row.(provider := x.provider); }
      if x.walletKind.Some? { row := row.(walletKind := x.walletKind); }
      if x.walletId.Some? { row := row.(walletId := x.walletId); }
      if x.providerPaymentHash.Some? { row := row.(providerPaymentHash := x.providerPaymentHash); }
      invoices := invoices[h := row];
    }

    method MarkInvoiceExpired(h: string, now: int)
      modifies this`invoices
      ensures invoices == Expired(old(invoices), h, now)
    {
      if h in invoices && invoices[h].preimage.None? {
        invoices := invoices[h := invoices[h].(expiredAt := Some(now), updatedAt := now)];
      }
    }

    method UpsertInvoicesPaid(rows: seq<BatchRow>) returns (affected: seq<string>)
      requires DistinctHashes(rows)
      modifies this`invoices
      ensures IsBatch(old(invoices), rows, invoices)
      ensures BatchPays(old(invoices), rows, invoices)
      ensures forall h :: h in affected <==>
                          exists x :: RowFor(rows, h, x) && Payable(old(invoices), h, x.invoice.userPubkey)
    {
      affected := [];
      for i := 0 to |rows|
        invariant invoices == SettleInTurn(old(invoices), rows[..i])
        invariant forall h :: h in affected <==> exists x :: RowFor(rows[..i], h, x) && Affected(old(invoices), x)
      {
        var x := rows[i];
        assert rows[..i + 1][..i] == rows[..i];
        forall y | y in rows[..i] ensures y.paymentHash != x.paymentHash {}
        InTurnElsewhere(old(invoices), rows[..i], x.paymentHash);
        assert Affected(invoices, x) == Affected(old(invoices), x);
        ghost var before := affected;
        if Affected(invoices, x) {
          affected := affected + [x.paymentHash];
          if x.paymentHash in invoices {
            invoices := invoices[x.paymentHash := SettledRow(invoices[x.paymentHash], x.invoice)];
          } else {
            invoices := invoices[x.paymentHash := x.invoice.(domain := None, amountReceivedSat := None)];
          }
        }
        forall h ensures h in affected <==> exists y :: RowFor(rows[..i + 1], h, y) && Affected(old(invoices), y) {
          assert RowFor(rows[..i + 1], x.paymentHash, x);
          assert forall y :: RowFor(rows[..i + 1], h, y) <==> RowFor(rows[..i], h, y) || (y == x && h == x.paymentHash);
        }
      }
      assert rows[..|rows|] == rows;
      BatchIsInTurn(old(invoices), rows);
      BatchIsPayment(old(invoices), rows, invoices);
      assert forall h, x :: RowFor(rows, h, x) ==>
             (Affected(old(invoices), x) <==> Payable(old(invoices), h, x.invoice.userPubkey));
    }

    /** insert_pending_zap_receipt_batch */
    method EnqueueReceipts(hashes: seq<string>, now: nat)
      modifies this`receipts
      ensures receipts == Receipts(old(receipts), hashes, now)
    {
      for i := 0 to |hashes|
        invariant receipts == Receipts(old(receipts), hashes[..i], now)
      {
        assert hashes[..i + 1][..i] == hashes[..i];
        if hashes[i] !in receipts { receipts := receipts[hashes[i] := ZQ.Row(now, 0, now, None)]; }
      }
      assert hashes[..|hashes|] == hashes;
    }

    /** The first loop of handle_invoices_paid: one malformed item refuses the request. */
    static method ParseItems(o: Oracle, items: seq<PaidItem>, userPubkey: string, now: int)
      returns (error: Option<PaidError>, rows: seq<BatchRow>)
      ensures error.Some? <==> exists i :: 0 <= i < |items| && ParseItem(o, items[i], userPubkey, now).Bad?
      ensures error.None? ==> |rows| == |items| && forall i :: 0 <= i < |items| ==>
              ParseItem(o, items[i], userPubkey, now) == Row(rows[i])
    {
      error, rows := None, [];
      for i := 0 to |items|
        invariant |rows| == i
        invariant forall j :: 0 <= j < i ==> ParseItem(o, items[j], userPubkey, now) == Row(rows[j])
      {
        var bytes := DecodeHex(items[i].preimage);
        if bytes.None? { return Some(InvalidPreimage), []; }
        var paymentHash := o.sha256(bytes.value);
        var decoded := o.bolt11(items[i].bolt11);
        if decoded.None? { return Some(InvalidInvoice), []; }
        if decoded.value.paymentHash != paymentHash { return Some(InvalidPreimage), []; }
        var expiry := 0;
        if decoded.value.expiresAtMs.Some? {
          expiry := if decoded.value.expiresAtMs.value <= I64_MAX then decoded.value.expiresAtMs.value else I64_MAX;
        }
        rows := rows + [BatchRow(paymentHash,
                                 Invoice(userPubkey, items[i].bolt11, Some(items[i].preimage), None, expiry, now, now,
                                                      None, None, None, None, None, None, None))];
      }
    }

    /** The filter by filter_known_payment_hashes. */
    static method KeepKnown(rows: seq<BatchRow>, known: set<string>) returns (settled: seq<BatchRow>)
      requires DistinctHashes(rows)
      ensures DistinctHashes(settled)
      ensures forall x :: x in settled <==> x in rows && x.paymentHash in known
    {
      settled := [];
      for i := 0 to |rows|
        invariant DistinctHashes(settled)
        invariant forall x :: x in settled <==> x in rows[..i] && x.paymentHash in known
      {
        assert forall x :: x in rows[..i] ==> x.paymentHash != rows[i].paymentHash;
        assert rows[..i + 1] == rows[..i] + [rows[i]];
        if rows[i].paymentHash in known {
          settled := settled + [rows[i]];
        }
      }
      assert rows[..|rows|] == rows;
    }

    /**
     * The settlement of handle_invoices_paid. `others` are the hashes known from
     * zaps and sender comments. One malformed item refuses the whole request
     * before anything is read or written.
     */
    method SettleItems(o: Oracle, items: seq<PaidItem>, userPubkey: string, others: set<string>, now: int)
      returns (error: Option<PaidError>, settled: seq<BatchRow>, affected: seq<string>)
      requires DistinctItems(o, items, userPubkey, now)
      modifies this`invoices
      ensures error.Some? <==> exists i :: 0 <= i < |items| && ParseItem(o, items[i], userPubkey, now).Bad?
      ensures error.Some? ==> invoices == old(invoices) && affected == []
      ensures error.None? ==>
                && Settles(o, old(invoices), items, userPubkey, others, now, settled, affected)
                && IsBatch(old(invoices), settled, invoices) && BatchPays(old(invoices), settled, invoices)
    {
      var rows;
      settled, affected := [], [];
      error, rows := ParseItems(o, items, userPubkey, now);
      if error.Some? { return; }
      settled := KeepKnown(rows, invoices.Keys + others);
      affected := UpsertInvoicesPaid(settled);
    }

    /** notify_webhooks: deliveries are collected in a loop and inserted by one statement. */
    method NotifyWebhooks(hashes: seq<string>, dir: Directory, now: int)
      requires AtMostOne(outbox)
      modifies this`outbox
      ensures outbox == Enqueued(old(outbox), Payloads(invoices, dir, hashes, now), now)
    {
      var deliveries := [];
      for i := 0 to |hashes|
        invariant deliveries == Payloads(invoices, dir, hashes[..i], now)
      {
        var h := hashes[i];
        assert hashes[..i + 1][..i] == hashes[..i];
        if h in invoices && invoices[h].preimage.Some? && invoices[h].domain.Some? {
          deliveries := deliveries + [DeliveryFor(dir, h, invoices[h], now)];
        }
      }
      assert hashes[..|hashes|] == hashes;
      for i := 0 to |deliveries|
        invariant outbox == Enqueued(old(outbox), deliveries[..i], now)
      {
        var x := deliveries[i];
        assert deliveries[..i + 1][..i] == deliveries[..i];
        var present := exists id ::
            id in outbox.deliveries && outbox.deliveries[id].identifier == x.identifier
            && outbox.deliveries[id].domain == x.domain;
        assert present == Holds(outbox, x.identifier, x.domain) by {
          if present {
            var id :| id in outbox.deliveries && outbox.deliveries[id].identifier == x.identifier
              && outbox.deliveries[id].domain == x.domain;
            assert IsFor(outbox.deliveries[id], x.identifier, x.domain);
          }
        }
        if !present {
          var row := Delivery(x.identifier, x.domain, x.payload, now, None);
          outbox := Outbox(outbox.deliveries[outbox.nextId := row], outbox.nextId + 1);
        }
      }
      assert deliveries[..|deliveries|] == deliveries;
    }

    /**
     * handle_invoices_paid, run without interference: the newly settled hashes
     * get a receipt row, and all known ones a notification.
     */
    method HandleInvoicesPaid(o: Oracle, items: seq<PaidItem>, userPubkey: string, others: set<string>,
                              dir: Directory, now: nat)
      returns (error: Option<PaidError>, ghost settled: seq<BatchRow>, ghost affected: seq<string>)
      requires AtMostOne(outbox)
      requires DistinctItems(o, items, userPubkey, now)
      modifies this
      ensures error.Some? <==> exists i :: 0 <= i < |items| && ParseItem(o, items[i], userPubkey, now).Bad?
      ensures error.Some? ==> invoices == old(invoices) && outbox == old(outbox) && receipts == old(receipts)
      ensures error.None? ==>
                && Settles(o, old(invoices), items, userPubkey, others, now, settled, affected)
                && IsBatch(old(invoices), settled, invoices)
                && receipts == Receipts(old(receipts), affected, now)
                && outbox == Enqueued(old(outbox), Payloads(invoices, dir, HashesOf(settled), now), now)
      ensures error.None? ==>
                forall i :: 0 <= i < |items| ==>
                  Delivered(ParseItem(o, items[i], userPubkey, now).row, old(invoices), others, invoices,
                            receipts, outbox)
    {
      var rows, hashes;
      error, rows, hashes := SettleItems(o, items, userPubkey, others, now);
      settled, affected := rows, hashes;
      if error.Some? { return; }
      EnqueueReceipts(hashes, now);
      NotifyWebhooks(HashesOf(rows), dir, now);
      ItemsDelivered(o, items, userPubkey, others, now, old(invoices), settled, affected, invoices, old(receipts),
                     old(outbox), dir);
    }

    /** handle_invoice_paid, run without interference. */
    method HandleInvoicePaid(o: Oracle, h: string, preimage: string, amount: Option<int>, dir: Directory, now: nat)
      returns (error: Option<PaidError>)
      requires AtMostOne(outbox)
      modifies this
      ensures error.Some? <==> PaymentHash(o, preimage) != Some(h)
      ensures error.Some? || h !in old(invoices) ==>
              invoices == old(invoices) && outbox == old(outbox) && receipts == old(receipts)
      ensures error.None? && h in old(invoices) ==>
                && invoices == (if Paid(old(invoices), h) then old(invoices)
                                else Upserted(old(invoices), h,
                                              old(invoices)[h].(preimage := Some(preimage),
                                                                amountReceivedSat := amount, updatedAt := now)))
                && receipts == (if Paid(old(invoices), h) then old(receipts) else Receipts(old(receipts), [h], now))
                && outbox == Enqueued(old(outbox), Payloads(invoices, dir, [h], now), now)
      ensures error.None? && h in old(invoices) ==>
                && h in invoices && invoices[h].preimage.Some?
                && (!Paid(old(invoices), h) ==>
                      && invoices[h].preimage == Some(preimage) && invoices[h].amountReceivedSat == amount
                      && invoices[h].expiredAt.None? && h in receipts)
                && (invoices[h].domain.Some? ==> Holds(outbox, h, invoices[h].domain.value))
    {
      if PaymentHash(o, preimage) != Some(h) { return Some(InvalidPreimage); }
      if h !in invoices { return None; }
      var invoice := invoices[h];
      if invoice.preimage.None? {
        invoice := invoice.(preimage := Some(preimage), amountReceivedSat := amount, updatedAt := now);
        UpsertInvoice(h, invoice);
        EnqueueReceipts([h], now);
      }
      NotifyWebhooks([h], dir, now);
      PaidIsNotified(old(outbox), invoices, dir, [h], h, now);
      ReceiptsAre(old(receipts), [h], now);
      return None;
    }
  }
}
