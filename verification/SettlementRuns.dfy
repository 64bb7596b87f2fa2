/**
 * Settlement under interleaving. A handler reads the invoice, and writes what
 * it read with the preimage filled in some steps later; the webhook payloads
 * are read and inserted in two further steps. In between other handlers, batch
 * settlements, expiry marks and invoice creations run, and a handler may crash.
 */
module SettlementRuns {
  import opened Text
  import opened AccountStore
  import opened Invoices

  datatype Process =
    | Writing(hash: string, row: Invoice)
    | Notifying(hashes: seq<string>)
    | Inserting(batch: seq<NewDelivery>)

  /** `noted` are the payment hashes of zaps and sender comments, whose rows are never deleted. */
  datatype World = World(invoices: InvoiceTable, noted: set<string>, outbox: Outbox, processes: map<nat, Process>)

  const START := World(map[], {}, Outbox(map[], 0), map[])

  datatype Action =
    | StoreZap(hash: string)
    | Create(hash: string, record: Invoice)
    | Handle(process: nat, hash: string, preimage: string, amount: Option<int>, now: int)
    | Write(process: nat)
    | SettleBatch(process: nat, rows: seq<BatchRow>)
    | ReadPayloads(process: nat, directory: Directory, now: int)
    | InsertDeliveries(process: nat, now: int)
    | MarkExpired(hash: string, now: int)
    | DeleteDeliveries(ids: set<nat>)
    | MarkDelivered(id: nat, now: int)
    | Crash(process: nat)

  /**
   * What the handlers have checked: a preimage given to a handler hashes to its
   * payment hash, the rows of a batch were built from their own preimages, are
   * distinct and known from an invoice, a zap or a comment, and a record being
   * created is unpaid.
   */
  ghost predicate Enabled(o: Oracle, w: World, a: Action) {
    match a {
      case Create(_, x) => x.preimage.None? && x.expiredAt.None?
      case Handle(k, h, p, _, _) => k !in w.processes && PaymentHash(o, p) == Some(h)
      case Write(k) => k in w.processes && w.processes[k].Writing?
      case SettleBatch(k, rows) =>
        && k !in w.processes && DistinctHashes(rows)
        && forall x :: x in rows ==> Genuine(o, x) && (x.paymentHash in w.invoices || x.paymentHash in w.noted)
      case ReadPayloads(k, _, _) => k in w.processes && w.processes[k].Notifying?
      case InsertDeliveries(k, _) => k in w.processes && w.processes[k].Inserting?
      case MarkDelivered(id, _) => id in w.outbox.deliveries
      case _ => true
    }
  }

  ghost function Step(o: Oracle, w: World, a: Action): World {
    if !Enabled(o, w, a) then w
    else match a {
      case StoreZap(h) => w.(noted := w.noted + {h})
      case Create(h, x) => w.(invoices := Upserted(w.invoices, h, x))
      case Handle(k, h, p, amount, now) =>
        if h !in w.invoices then w
        else if Paid(w.invoices, h) then w.(processes := w.processes[k := Notifying([h])])
        else
          var row := w.invoices[h].(preimage := Some(p), amountReceivedSat := amount, updatedAt := now);
          w.(processes := w.processes[k := Writing(h, row)])
      case Write(k) =>
        var p := w.processes[k];
        w.(invoices := Upserted(w.invoices, p.hash, p.row), processes := w.processes[k := Notifying([p.hash])])
      case SettleBatch(k, rows) =>
        w.(invoices := SettleInTurn(w.invoices, rows), processes := w.processes[k := Notifying(HashesOf(rows))])
      case ReadPayloads(k, dir, now) =>
        w.(processes := w.processes[k := Inserting(Payloads(w.invoices, dir, w.processes[k].hashes, now))])
      case InsertDeliveries(k, now) =>
        w.(outbox := Enqueued(w.outbox, w.processes[k].batch, now), processes := w.processes - {k})
      case MarkExpired(h, now) => w.(invoices := Expired(w.invoices, h, now))
      case DeleteDeliveries(ids) => w.(outbox := w.outbox.(deliveries := w.outbox.deliveries - ids))
      case MarkDelivered(id, now) =>
        var row := w.outbox.deliveries[id].(succeededAt := Some(now));
        w.(outbox := w.outbox.(deliveries := w.outbox.deliveries[id := row]))
      case Crash(k) => w.(processes := w.processes - {k})
    }
  }

  ghost function Run(o: Oracle, w: World, actions: seq<Action>): World {
    if actions == [] then w else Step(o, Run(o, w, actions[..|actions| - 1]), actions[|actions| - 1])
  }

  // ----- the invariant -----

  /** Who the invoice belongs to and what it was made for. */
  ghost predicate SameIdentity(x: Invoice, y: Invoice) {
    && x.userPubkey == y.userPubkey && x.bolt11 == y.bolt11 && x.invoiceExpiry == y.invoiceExpiry
    && x.createdAt == y.createdAt && x.domain == y.domain && x.accountId == y.accountId && x.provider == y.provider
    && x.walletKind == y.walletKind && x.walletId == y.walletId && x.providerPaymentHash == y.providerPaymentHash
  }

  ghost predicate RowSound(o: Oracle, h: string, x: Invoice) {
    x.preimage.Some? ==> PaymentHash(o, x.preimage.value) == Some(h) && x.expiredAt.None?
  }

  ghost predicate Deliverable(t: InvoiceTable, identifier: string, domain: string) {
    Paid(t, identifier) && t[identifier].domain == Some(domain)
  }

  /** The payload reports this payment, with a preimage of its hash. */
  ghost predicate Truthful(o: Oracle, identifier: string, p: Payload) {
    p.paymentHash == identifier && PaymentHash(o, p.preimage) == Some(identifier)
  }

  ghost predicate ProcessSound(o: Oracle, t: InvoiceTable, p: Process) {
    match p {
      case Writing(h, x) =>
        h in t && SameIdentity(x, t[h]) && x.preimage.Some? && PaymentHash(o, x.preimage.value) == Some(h)
      case Notifying(hs) => true
      case Inserting(batch) =>
        forall i :: 0 <= i < |batch| ==>
          Deliverable(t, batch[i].identifier, batch[i].domain) && Truthful(o, batch[i].identifier, batch[i].payload)
    }
  }

  ghost predicate Sound(o: Oracle, w: World) {
    && (forall h :: h in w.invoices ==> RowSound(o, h, w.invoices[h]))
    && (forall k :: k in w.processes ==> ProcessSound(o, w.invoices, w.processes[k]))
    && AtMostOne(w.outbox)
    && (forall id :: id in w.outbox.deliveries ==> DeliverySound(o, w.invoices, w.outbox.deliveries[id]))
  }

  ghost predicate DeliverySound(o: Oracle, t: InvoiceTable, d: Delivery) {
    Deliverable(t, d.identifier, d.domain) && Truthful(o, d.identifier, d.payload)
  }

  /** Paid stays paid, and nothing about an invoice's identity changes. */
  ghost predicate Progress(t: InvoiceTable, t': InvoiceTable) {
    forall h :: h in t ==> h in t' && SameIdentity(t[h], t'[h]) && (t[h].preimage.Some? ==> t'[h].preimage.Some?)
  }

  /** Invoices are created for payment hashes that have no row yet. */
  ghost predicate FreshCreate(w: World, a: Action) {
    a.Create? ==> a.hash !in w.invoices
  }

  ghost predicate FreshCreates(o: Oracle, w: World, actions: seq<Action>)
    decreases |actions|
  {
    actions == [] ||
    (FreshCreates(o, w, actions[..|actions| - 1])
     && FreshCreate(Run(o, w, actions[..|actions| - 1]), actions[|actions| - 1]))
  }

  lemma ProgressTransitive(t: InvoiceTable, t': InvoiceTable, t'': InvoiceTable)
    requires Progress(t, t') && Progress(t', t'')
    ensures Progress(t, t'')
  {
  }

  lemma SettleOneProgress(o: Oracle, t: InvoiceTable, x: BatchRow)
    requires Genuine(o, x)
    requires forall h :: h in t ==> RowSound(o, h, t[h])
    ensures Progress(t, SettleOne(t, x))
    ensures forall h :: h in SettleOne(t, x) ==> RowSound(o, h, SettleOne(t, x)[h])
  {
  }

  lemma {:induction false} SettleProgress(o: Oracle, t: InvoiceTable, rows: seq<BatchRow>)
    requires forall x :: x in rows ==> Genuine(o, x)
    requires forall h :: h in t ==> RowSound(o, h, t[h])
    ensures Progress(t, SettleInTurn(t, rows))
    ensures forall h :: h in SettleInTurn(t, rows) ==> RowSound(o, h, SettleInTurn(t, rows)[h])
  {
    if rows != [] {
      var init, last := rows[..|rows| - 1], rows[|rows| - 1];
      assert last in rows;
      SettleProgress(o, t, init);
      SettleOneProgress(o, SettleInTurn(t, init), last);
      ProgressTransitive(t, SettleInTurn(t, init), SettleInTurn(t, rows));
    }
  }

  /** Writing back a row that was read earlier, with a preimage filled in. */
  lemma WriteBackProgress(o: Oracle, t: InvoiceTable, h: string, x: Invoice)
    requires h in t && SameIdentity(x, t[h]) && x.preimage.Some? && PaymentHash(o, x.preimage.value) == Some(h)
    ensures Progress(t, Upserted(t, h, x)) && RowSound(o, h, Upserted(t, h, x)[h])
  {
  }

  lemma NewRowProgress(o: Oracle, t: InvoiceTable, h: string, x: Invoice)
    requires h !in t && x.preimage.None? && forall g :: g in t ==> RowSound(o, g, t[g])
    ensures Progress(t, Upserted(t, h, x))
    ensures forall g :: g in Upserted(t, h, x) ==> RowSound(o, g, Upserted(t, h, x)[g])
  {
  }

  lemma ExpiredProgress(o: Oracle, t: InvoiceTable, h: string, now: int)
    requires forall g :: g in t ==> RowSound(o, g, t[g])
    ensures Progress(t, Expired(t, h, now))
    ensures forall g :: g in Expired(t, h, now) ==> RowSound(o, g, Expired(t, h, now)[g])
  {
  }

  lemma TableStep(o: Oracle, w: World, a: Action)
    requires forall h :: h in w.invoices ==> RowSound(o, h, w.invoices[h])
    requires forall k :: k in w.processes ==> ProcessSound(o, w.invoices, w.processes[k])
    requires FreshCreate(w, a)
    ensures Progress(w.invoices, Step(o, w, a).invoices)
    ensures forall h :: h in Step(o, w, a).invoices ==> RowSound(o, h, Step(o, w, a).invoices[h])
  {
    if Enabled(o, w, a) {
      match a {
        case SettleBatch(_, rows) => SettleProgress(o, w.invoices, rows);
        case Write(k) =>
          assert ProcessSound(o, w.invoices, w.processes[k]);
          WriteBackProgress(o, w.invoices, w.processes[k].hash, w.processes[k].row);
        case Create(h, x) => NewRowProgress(o, w.invoices, h, x);
        case MarkExpired(h, now) => ExpiredProgress(o, w.invoices, h, now);
        case _ =>
      }
    }
  }

  lemma ProcessCarries(o: Oracle, t: InvoiceTable, t': InvoiceTable, p: Process)
    requires ProcessSound(o, t, p) && Progress(t, t')
    ensures ProcessSound(o, t', p)
  {
  }

  lemma InsertSound(o: Oracle, t: InvoiceTable, b: Outbox, batch: seq<NewDelivery>, now: int)
    requires AtMostOne(b) && ProcessSound(o, t, Inserting(batch))
    requires forall id :: id in b.deliveries ==> DeliverySound(o, t, b.deliveries[id])
    ensures var b' := Enqueued(b, batch, now);
            AtMostOne(b') && forall id :: id in b'.deliveries ==> DeliverySound(o, t, b'.deliveries[id])
  {
    EnqueuedOnce(b, batch, now);
    var b' := Enqueued(b, batch, now);
    forall id | id in b'.deliveries ensures DeliverySound(o, t, b'.deliveries[id]) {
      if id !in b.deliveries {
        assert Wanted(batch, b'.deliveries[id], now);
      }
    }
  }

  lemma OutboxStep(o: Oracle, w: World, a: Action)
    requires Sound(o, w) && FreshCreate(w, a)
    ensures var w' := Step(o, w, a);
            && AtMostOne(w'.outbox)
            && (forall id :: id in w'.outbox.deliveries ==> DeliverySound(o, w'.invoices, w'.outbox.deliveries[id]))
  {
    TableStep(o, w, a);
    var w' := Step(o, w, a);
    if a.InsertDeliveries? && Enabled(o, w, a) {
      var batch := w.processes[a.process].batch;
      assert ProcessSound(o, w.invoices, w.processes[a.process]);
      InsertSound(o, w.invoices, w.outbox, batch, a.now);
    }
  }

  lemma StepSound(o: Oracle, w: World, a: Action)
    requires Sound(o, w) && FreshCreate(w, a)
    ensures Sound(o, Step(o, w, a)) && Progress(w.invoices, Step(o, w, a).invoices)
  {
    TableStep(o, w, a);
    OutboxStep(o, w, a);
    var w' := Step(o, w, a);
    forall k | k in w'.processes ensures ProcessSound(o, w'.invoices, w'.processes[k]) {
      if k in w.processes && w'.processes[k] == w.processes[k] {
        ProcessCarries(o, w.invoices, w'.invoices, w.processes[k]);
      } else if a.ReadPayloads? && Enabled(o, w, a) && k == a.process {
        PayloadsSound(w.invoices, a.directory, w.processes[k].hashes, a.now);
      }
    }
  }

  /**
   * On every run that creates invoices only for new hashes: every stored
   * preimage hashes to its payment hash, no paid invoice is expired, paid never
   * reverts, ownership never changes, and there is at most one webhook delivery
   * per invoice and domain, only for a paid invoice of that domain and with a
   * preimage of its hash.
   */
  lemma {:induction false} SettlementSafe(o: Oracle, w: World, actions: seq<Action>)
    requires Sound(o, w) && FreshCreates(o, w, actions)
    ensures Sound(o, Run(o, w, actions)) && Progress(w.invoices, Run(o, w, actions).invoices)
  {
    if actions != [] {
      var init := actions[..|actions| - 1];
      SettlementSafe(o, w, init);
      StepSound(o, Run(o, w, init), actions[|actions| - 1]);
      ProgressTransitive(w.invoices, Run(o, w, init).invoices, Run(o, w, actions).invoices);
    }
  }

  lemma StartSound(o: Oracle)
    ensures Sound(o, START)
  {
  }

  // ----- what settling writes -----

  /** The step of a batch pays every hash its user can pay, column by column, and leaves every other row alone. */
  lemma SettleBatchPays(o: Oracle, w: World, a: Action)
    requires a.SettleBatch? && Enabled(o, w, a)
    ensures BatchPays(w.invoices, a.rows, Step(o, w, a).invoices) && Step(o, w, a).outbox == w.outbox
    ensures forall x :: x in a.rows && Payable(w.invoices, x.paymentHash, x.invoice.userPubkey) ==>
              && Paid(Step(o, w, a).invoices, x.paymentHash)
              && Step(o, w, a).invoices[x.paymentHash].preimage == x.invoice.preimage
  {
    BatchIsInTurn(w.invoices, a.rows);
    BatchIsPayment(w.invoices, a.rows, SettleInTurn(w.invoices, a.rows));
  }

  /** Invoice rows are never removed. */
  lemma {:induction false} RowsStay(o: Oracle, w: World, actions: seq<Action>, h: string)
    requires h in w.invoices
    ensures h in Run(o, w, actions).invoices
  {
    if actions != [] {
      var v, last := Run(o, w, actions[..|actions| - 1]), actions[|actions| - 1];
      RowsStay(o, w, actions[..|actions| - 1], h);
      if last.SettleBatch? { InTurnKeys(v.invoices, last.rows); }
    }
  }

  /**
   * A single handler that read the invoice as unpaid stores its own preimage and
   * amount, whatever runs between its read and its write.
   */
  lemma HandlerStores(o: Oracle, w: World, call: Action, between: seq<Action>)
    requires call.Handle? && Enabled(o, w, call) && call.hash in w.invoices && !Paid(w.invoices, call.hash)
    requires LeavesAlone(between, call.process)
    ensures var v := Step(o, Run(o, Step(o, w, call), between), Write(call.process));
            && call.hash in v.invoices && v.invoices[call.hash].preimage == Some(call.preimage)
            && v.invoices[call.hash].amountReceivedSat == call.amount && v.invoices[call.hash].updatedAt == call.now
            && v.invoices[call.hash].expiredAt.None?
  {
    ProcessWaits(o, Step(o, w, call), between, call.process);
    RowsStay(o, Step(o, w, call), between, call.hash);
    var u := Run(o, Step(o, w, call), between);
    UpsertedColumns(u.invoices, u.processes[call.process].hash, u.processes[call.process].row);
  }

  // ----- creation over an existing row -----

  /** A creation keeps every paid invoice paid exactly when its hash has no paid row. */
  lemma CreateKeepsPaidExactly(o: Oracle, w: World, a: Action)
    requires a.Create? && Enabled(o, w, a)
    ensures (forall h :: Paid(w.invoices, h) ==> Paid(Step(o, w, a).invoices, h)) <==> !Paid(w.invoices, a.hash)
  {
    assert !Paid(Step(o, w, a).invoices, a.hash);
  }

  /** The callback stores the zap, a batch settles the hash, and only then the callback stores the invoice row. */
  function LateCreation(x: BatchRow, record: Invoice): seq<Action> {
    [StoreZap(x.paymentHash), SettleBatch(0, [x]), Create(x.paymentHash, record)]
  }

  /**
   * A batch that settles a hash known only from its zap, before its invoice row
   * is stored, is forgotten by the late creation.
   */
  lemma LateCreationForgets(o: Oracle, x: BatchRow, record: Invoice)
    requires Genuine(o, x) && record.preimage.None? && record.expiredAt.None?
    ensures x.paymentHash !in Run(o, START, LateCreation(x, record)[..1]).invoices
    ensures Paid(Run(o, START, LateCreation(x, record)[..2]).invoices, x.paymentHash)
    ensures !Paid(Run(o, START, LateCreation(x, record)).invoices, x.paymentHash)
  {
    var s := LateCreation(x, record);
    assert s[..1][..0] == [] && s[..2][..1] == s[..1] && s[..3] == s && s[..2] == s[..|s| - 1];
    assert Run(o, START, s[..1]) == Step(o, START, s[0]);
    assert [x][..0] == [];
    assert SettleInTurn(map[], [x]) == SettleOne(SettleInTurn(map[], []), x);
    assert Run(o, START, s[..2]) == Step(o, Run(o, START, s[..1]), s[1]);
  }

  // ----- receipts -----

  /** The action after whose statement the handler enqueues a receipt for `h`. */
  ghost predicate Stores(o: Oracle, w: World, a: Action, h: string) {
    && Enabled(o, w, a)
    && match a {
         case Write(k) => w.processes[k].hash == h
         case SettleBatch(_, rows) =>
           exists i :: 0 <= i < |rows| && rows[i].paymentHash == h && Affected(w.invoices, rows[i])
         case _ => false
       }
  }

  /** Handlers about to write have a preimage to write. */
  ghost predicate WritersPay(w: World) {
    forall k :: k in w.processes && w.processes[k].Writing? ==> w.processes[k].row.preimage.Some?
  }

  /** Somewhere in the run an invoice was created over the paid row of `h`. */
  ghost predicate Forgotten(o: Oracle, w: World, actions: seq<Action>, h: string)
    decreases |actions|
  {
    && actions != []
    && var init, last := actions[..|actions| - 1], actions[|actions| - 1];
       || Forgotten(o, w, init, h)
       || (last.Create? && last.hash == h && Paid(Run(o, w, init).invoices, h))
  }

  lemma PaidStep(o: Oracle, w: World, a: Action, h: string)
    requires WritersPay(w) && Paid(w.invoices, h)
    ensures WritersPay(Step(o, w, a))
    ensures Paid(Step(o, w, a).invoices, h) || (a.Create? && a.hash == h)
  {
    if a.SettleBatch? && Enabled(o, w, a) { SettledStaysPaid(w.invoices, a.rows, h); }
  }

  lemma {:induction false} SettledStaysPaid(t: InvoiceTable, rows: seq<BatchRow>, h: string)
    requires Paid(t, h)
    ensures Paid(SettleInTurn(t, rows), h)
  {
    if rows != [] { SettledStaysPaid(t, rows[..|rows| - 1], h); }
  }

  lemma {:induction false} PaidUnlessForgotten(o: Oracle, w: World, actions: seq<Action>, h: string)
    requires WritersPay(w) && Paid(w.invoices, h)
    ensures Forgotten(o, w, actions, h) || (WritersPay(Run(o, w, actions)) && Paid(Run(o, w, actions).invoices, h))
  {
    if actions != [] {
      PaidUnlessForgotten(o, w, actions[..|actions| - 1], h);
      if !Forgotten(o, w, actions[..|actions| - 1], h) {
        PaidStep(o, Run(o, w, actions[..|actions| - 1]), actions[|actions| - 1], h);
      }
    }
  }

  /** The handler was about to write for `h` already. */
  ghost predicate WasWriting(w: World, k: nat, h: string) {
    k in w.processes && w.processes[k].Writing? && w.processes[k].hash == h
  }

  lemma WritingStep(o: Oracle, w: World, a: Action, k: nat, h: string)
    requires WasWriting(Step(o, w, a), k, h) && Paid(w.invoices, h)
    ensures WasWriting(w, k, h)
  {
  }

  lemma {:induction false} WriterIsOld(o: Oracle, w: World, actions: seq<Action>, k: nat, h: string)
    requires WritersPay(w) && Paid(w.invoices, h) && WasWriting(Run(o, w, actions), k, h)
    ensures WasWriting(w, k, h) || Forgotten(o, w, actions, h)
  {
    if actions != [] {
      var init := actions[..|actions| - 1];
      PaidUnlessForgotten(o, w, init, h);
      if !Forgotten(o, w, init, h) {
        WritingStep(o, Run(o, w, init), actions[|actions| - 1], k, h);
        WriterIsOld(o, w, init, k, h);
      }
    }
  }

  /**
   * A receipt for an invoice already paid is enqueued again only by a single
   * handler that had read it as unpaid before it was paid, or after a creation
   * forgot the payment.
   */
  lemma SecondReceipt(o: Oracle, w: World, actions: seq<Action>, a: Action, h: string)
    requires WritersPay(w) && Paid(w.invoices, h) && Stores(o, Run(o, w, actions), a, h)
    ensures (a.Write? && WasWriting(w, a.process, h)) || Forgotten(o, w, actions, h)
  {
    PaidUnlessForgotten(o, w, actions, h);
    if a.Write? { WriterIsOld(o, w, actions, a.process, h); }
  }

  /** Two handlers that both read the invoice as unpaid both store, and both enqueue a receipt. */
  lemma TwoReceipts(o: Oracle, w: World, one: Action, two: Action, h: string)
    requires h in w.invoices && !Paid(w.invoices, h) && one.Handle? && two.Handle? && one.hash == two.hash == h
    requires Enabled(o, w, one) && Enabled(o, w, two) && one.process != two.process
    ensures var read := Step(o, Step(o, w, one), two);
            var paid := Step(o, read, Write(one.process));
            && Stores(o, read, Write(one.process), h) && Paid(paid.invoices, h)
            && Stores(o, paid, Write(two.process), h)
  {
  }

  // ----- LUD-21 verify -----

  datatype VerifyReply = NotFound | Error | Status(settled: bool, preimage: Option<string>)

  /** `provider` is the preimage Blink reports for an open invoice, if it reports one. */
  function Verify(o: Oracle, t: InvoiceTable, h: string, provider: Option<string>): VerifyReply {
    if h !in t then NotFound
    else
      var x := t[h];
      if x.preimage.None? && x.expiredAt.None? && x.provider == Some(Blink) && provider.Some? then
        if PaymentHash(o, provider.value) == Some(h) then Status(true, provider) else Error
      else Status(x.preimage.Some?, x.preimage)
  }

  /**
   * An unknown hash is not found. Settled is answered exactly when the preimage is
   * stored, or the invoice is an open Blink one and the provider has a genuine
   * preimage for it, and that preimage is shown; a wrong one is an error.
   */
  lemma VerifyExactly(o: Oracle, t: InvoiceTable, h: string, provider: Option<string>)
    ensures Verify(o, t, h, provider).NotFound? <==> h !in t
    ensures h in t ==>
              var reported := t[h].preimage.None? && t[h].expiredAt.None? && t[h].provider == Some(Blink)
                && provider.Some?;
              var genuine := reported && PaymentHash(o, provider.value) == Some(h);
              && Verify(o, t, h, provider) ==
                 if Paid(t, h) then Status(true, t[h].preimage)
                 else if genuine then Status(true, provider)
                 else if reported then Error
                 else Status(false, None)
  {
  }

  /** Verify never claims a settlement without its preimage, and an invoice once paid is reported settled for good. */
  lemma VerifyIsTruthful(o: Oracle, before: seq<Action>, after: seq<Action>, h: string, provider: Option<string>)
    requires FreshCreates(o, START, before) && FreshCreates(o, Run(o, START, before), after)
    ensures var w := Run(o, START, before);
            var later := Verify(o, Run(o, w, after).invoices, h, provider);
            && (later.Status? && later.settled ==>
                later.preimage.Some? && PaymentHash(o, later.preimage.value) == Some(h))
            && (Paid(w.invoices, h) ==> later.Status? && later.settled)
  {
    StartSound(o);
    SettlementSafe(o, START, before);
    var w := Run(o, START, before);
    SettlementSafe(o, w, after);
    if h in Run(o, w, after).invoices {
      assert RowSound(o, h, Run(o, w, after).invoices[h]);
    }
  }

  // ----- recovery of webhook deliveries -----

  /** No action of the run is made by or kills process `k`. */
  ghost predicate LeavesAlone(actions: seq<Action>, k: nat) {
    forall i :: 0 <= i < |actions| ==>
      match actions[i] {
        case Handle(p, _, _, _, _) => p != k
        case Write(p) => p != k
        case SettleBatch(p, _) => p != k
        case ReadPayloads(p, _, _) => p != k
        case InsertDeliveries(p, _) => p != k
        case Crash(p) => p != k
        case _ => true
      }
  }

  lemma {:induction false} ProcessWaits(o: Oracle, w: World, actions: seq<Action>, k: nat)
    requires LeavesAlone(actions, k) && k in w.processes
    ensures k in Run(o, w, actions).processes && Run(o, w, actions).processes[k] == w.processes[k]
  {
    if actions != [] {
      ProcessWaits(o, w, actions[..|actions| - 1], k);
    }
  }

  ghost predicate ExactlyOne(b: Outbox, identifier: string, domain: string) {
    exists id :: id in b.deliveries && IsFor(b.deliveries[id], identifier, domain)
                 && forall x :: x in b.deliveries && IsFor(b.deliveries[x], identifier, domain) ==> x == id
  }

  /**
   * The action makes process `k` notify for `h`: a single handler that finds the
   * invoice paid, one that has just stored the preimage, or a batch that names
   * the hash, whether or not it changed the row.
   */
  ghost predicate Starts(o: Oracle, w: World, call: Action, k: nat, h: string) {
    && Enabled(o, w, call)
    && match call {
         case Handle(p, x, _, _, _) => p == k && x == h && Paid(w.invoices, h)
         case Write(p) => p == k && w.processes[k].hash == h
         case SettleBatch(p, rows) => p == k && exists i :: 0 <= i < |rows| && rows[i].paymentHash == h
         case _ => false
       }
  }

  lemma StartsNotifying(o: Oracle, w: World, call: Action, k: nat, h: string)
    requires Starts(o, w, call, k, h)
    ensures var w' := Step(o, w, call);
            k in w'.processes && w'.processes[k].Notifying? && h in w'.processes[k].hashes
  {
    if call.SettleBatch? {
      var i :| 0 <= i < |call.rows| && call.rows[i].paymentHash == h;
      assert HashesOf(call.rows)[i] == h;
    }
  }

  /**
   * Whatever was lost when earlier handlers crashed after storing the preimage,
   * and whatever runs meanwhile: one later notification for the paid invoice, of
   * the single or the batch handler, that completes leaves exactly one delivery
   * for it.
   */
  lemma NotificationRecovers(o: Oracle, w: World, call: Action, k: nat, h: string, d: string,
                             one: seq<Action>, read: Action, two: seq<Action>, now: int)
    requires Sound(o, w) && Starts(o, w, call, k, h) && Deliverable(Step(o, w, call).invoices, h, d)
    requires read.ReadPayloads? && read.process == k
    requires LeavesAlone(one, k) && LeavesAlone(two, k)
    requires FreshCreates(o, Step(o, w, call), one)
    requires FreshCreates(o, Step(o, Run(o, Step(o, w, call), one), read), two)
    ensures var w1 := Run(o, Step(o, w, call), one);
            var w2 := Run(o, Step(o, w1, read), two);
            ExactlyOne(Step(o, w2, InsertDeliveries(k, now)).outbox, h, d)
  {
    var w0 := Step(o, w, call);
    StepSound(o, w, call);
    StartsNotifying(o, w, call, k, h);
    var w1 := Run(o, w0, one);
    SettlementSafe(o, w0, one);
    ProcessWaits(o, w0, one, k);
    ReadFindsPayload(o, w1, read, h, d);
    var w1' := Step(o, w1, read);
    StepSound(o, w1, read);
    SettlementSafe(o, w1', two);
    ProcessWaits(o, w1', two, k);
    InsertRestores(o, Run(o, w1', two), k, h, d, now);
  }

  ghost predicate HasCandidate(batch: seq<NewDelivery>, identifier: string, domain: string) {
    exists i :: 0 <= i < |batch| && batch[i].identifier == identifier && batch[i].domain == domain
  }

  lemma ReadFindsPayload(o: Oracle, w: World, read: Action, h: string, d: string)
    requires read.ReadPayloads? && Enabled(o, w, read) && h in w.processes[read.process].hashes
             && Deliverable(w.invoices, h, d)
    ensures var w', k := Step(o, w, read), read.process;
            k in w'.processes && w'.processes[k].Inserting? && HasCandidate(w'.processes[k].batch, h, d)
  {
    PayloadsSound(w.invoices, read.directory, w.processes[read.process].hashes, read.now);
  }

  lemma InsertRestores(o: Oracle, w: World, k: nat, h: string, d: string, now: int)
    requires AtMostOne(w.outbox) && k in w.processes && w.processes[k].Inserting?
    requires HasCandidate(w.processes[k].batch, h, d)
    ensures ExactlyOne(Step(o, w, InsertDeliveries(k, now)).outbox, h, d)
  {
    var batch := w.processes[k].batch;
    EnqueuedOnce(w.outbox, batch, now);
    HeldOnce(Enqueued(w.outbox, batch, now), h, d);
  }

  lemma HeldOnce(b: Outbox, identifier: string, domain: string)
    requires AtMostOne(b) && Holds(b, identifier, domain)
    ensures ExactlyOne(b, identifier, domain)
  {
    var id :| id in b.deliveries && IsFor(b.deliveries[id], identifier, domain);
    assert forall x :: x in b.deliveries && IsFor(b.deliveries[x], identifier, domain) ==>
        IsFor(b.deliveries[x], b.deliveries[id].identifier, b.deliveries[id].domain);
  }
}
