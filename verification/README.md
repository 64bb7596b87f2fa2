# blink-lnurl-server: verified model

A Dafny model of the protocols that the LNURL-pay server keeps in its relational
store and in memory, with proofs over whole runs of them. `dafny verify
dfyconfig.toml` checks everything.

## What is modelled

| files | part of the server |
|---|---|
| `AccountStore`, `AccountRepository`, `AccountInvariants`, `AccountLaws` | the account tables and every transaction on them: registration, deletion, both transfers, Blink accounts, first contact, the mode register, statement claims |
| `AccountRuns`, `ModeRuns` | every interleaving of those transactions with a clock: ownership, custody of names, single use of signed statements, convergence of the mode register, anon stickiness, the gate of invoice creation |
| `SignedMessages`, `Identifiers`, `InternalAccounts` | the signed message formats, the public identifier parser, the identifier loop of account creation |
| `Invoices`, `SettlementRuns` | invoice rows, single and batch settlement, the webhook outbox, and their interleavings with crashes |
| `Backoff`, `ZapQueue`, `ZapRuns` | the zap receipt queue: retry schedule, leases, drain loop, stale writers |
| `WebhookQueue` | taking webhook deliveries one per domain |
| `RateLimit`, `FixedWindow` | the fixed-window limiters |
| `Text`, `Limits` | strings, fields, numerals and ranges the others share |

The tables are maps. A transaction is a method of a class that works on a copy
of the tables and either stores it or returns early; it is proved equal to a
specification (a refusal and a result), and the specifications are the steps of
the run models. Each SQL transaction or single statement is one atomic step, and
everything a handler reads or checks before it may be stale by then.

What the environment decides is a parameter: generated account ids (always
new), clock readings, SHA-256 and BOLT11 decoding (arbitrary functions; claims
are keyed on the hashed bytes, that is, SHA-256 is taken as collision-free),
Unicode lowercasing and white space and the `phonenumber` crate (functions with
the laws listed in `Identifiers.Lawful`, which an ASCII table meets), the
collation of the database, the answers of relays, providers and storage.

## Where the code does less than its comments say

* A statement is meant to be acted on once. The timestamp check precedes the
  transaction, and the pruner may drop the claim in between:
  `AccountRuns.RepeatsExactly` shows that every statement can be committed again
  at exactly the times more than 600 s after its signed timestamp.
* A pre-v2 signature may authorise more than one route
  (`SignedMessages.RoutesShareExactly`): recover, metadata and invoices-paid sign
  the same bytes, and invoice-paid signs any hex text, which a username or a
  pubkey can be (`SignedMessages.RegistrationReportsPreimage`), though never the
  32 bytes of a Lightning preimage (`SignedMessages.NoRealPreimageIsShared`).
  Versioned messages belong to one route each.
* An anon account promises that no invoice is minted for it, but the mode is read
  some steps before the invoice is created: a callback already past the gate still
  mints (`ModeRuns.MintAfterAnon`), and only such a callback does
  (`ModeRuns.MintNeedsReopening`).
* A username that begins with 00 can be registered but not paid to
  (`Identifiers.RegisteredResolvesExactly`).
* A receipt row keeps its retries spaced exactly while every late write lands on a
  row that is old enough (`ZapRuns.SpacedExactly`). A row created for a hash that a
  processor still holds can break that (`ZapRuns.StaleWriterBreaksSpacing`) and with
  it the bound of 23 retries before a publish (`ZapRuns.StaleWriterBreaksBound`);
  without such rows nothing does (`ZapRuns.FreshEnqueuesAreOnTime`). Such a row comes
  from a handler that read the invoice as unpaid before it was paid, or from a
  forgotten payment (`SettlementRuns.SecondReceipt`).
* Storing a new invoice over a paid row forgets the payment, and this can happen
  because a batch may settle a hash that is known only from its zap or comment
  (`SettlementRuns.CreateKeepsPaidExactly`, `SettlementRuns.LateCreationForgets`).
* The limiters bound an interval of one window length by twice the budget exactly
  when the window is not zero and the budget is below `u32::MAX`, or when they
  accept nothing at all (`RateLimit.BoundedExactly`).

## Model

| member | source | states |
|---|---|---|
| SignedMessages.DecodeEncode | src/signed_message.rs:12-125 | every message with fields of their alphabets, of any format, is read back exactly from its bytes |
| SignedMessages.EncodeInjective | src/routes/account.rs:386-406 | two such messages with equal bytes are the same message; legacy mode, register and recover messages never coincide |
| SignedMessages.WireShapes | src/signed_message.rs:58-125 | the words and the order of the fields of each versioned message, for all fields |
| SignedMessages.WireShapesOfTwo | src/signed_message.rs:37-48 | the same for mode requests, transfers and the pre-v2 messages |
| SignedMessages.SharedExactly | src/routes/signed.rs:113-149 | two candidates of any routes are covered by one signature exactly when they are the same, or both are pre-v2 with equal body and timestamp |
| SignedMessages.RoutesShareExactly | src/routes/signed.rs:40-98 | exactly which two of the ten routes some signature authorises both: any two of recover, metadata and invoices-paid, and invoice-paid with register or one of these; never mode, never zap-receipt |
| SignedMessages.RegistrationReportsPreimage | src/routes/lnurl_pay.rs:615-637 | a signature that registers a name and passes for the report of a three-byte preimage |
| SignedMessages.NoRealPreimageIsShared | src/routes/lnurl_pay.rs:615-637 | no signature made for another route reports a preimage of 32 bytes |
| SignedMessages.StatementInjective | src/routes/signed.rs:234-261 | equal claim keys mean the same signer, domain, message and timestamp |
| AccountStore.SparkOf | src/postgresql/repository.rs:345-352 | finds an account holding the key, and none only if there is none |
| AccountRepository.Repository.SelectSpark | src/postgresql/repository.rs:379-384 | the lookup by pubkey, unique on consistent tables |
| AccountRepository.Repository.InsertClaim | src/postgresql/repository.rs:25-46 | a claim is inserted exactly when its statement is unclaimed |
| AccountRepository.Repository.DeleteOtherUsernames | src/postgresql/repository.rs:390-401 | drops exactly the account's other usernames in the domain |
| AccountRepository.Repository.UpsertSparkRegistration | src/postgresql/repository.rs:322-450 | exact refusal, in order, or exact new tables; a stored name is registered again only by the key of its owner and is a conflict for every other key; a refusal changes nothing |
| AccountRepository.Repository.DeleteSparkRegistration | src/postgresql/repository.rs:726-777 | deletes the name exactly when the key owns it and the statement is unused, all or nothing |
| AccountRepository.Repository.EnsureTarget | src/postgresql/repository.rs:823-859 | the destination account, created with its Spark row when the key is new |
| AccountRepository.Repository.MoveName | src/postgresql/repository.rs:823-906 | the shared statements of both transfers; the destination is always a Spark account with its row |
| AccountRepository.Repository.TransferIdentifier | src/postgresql/repository.rs:779-912 | signed transfer: exact refusal or exact new tables, all or nothing |
| AccountRepository.Repository.TransferBlinkIdentifierToSpark | src/postgresql/repository.rs:914-1041 | internal transfer: exact refusal or exact new tables, all or nothing |
| AccountRepository.Repository.AnyTaken | src/postgresql/repository.rs:635-647 | finds a conflict exactly when one of the names is stored |
| AccountRepository.Repository.InsertNames | src/postgresql/repository.rs:672-685 | inserts all names, or aborts exactly when a name is repeated |
| AccountRepository.Repository.CreateBlinkAccount | src/postgresql/repository.rs:577-691 | exact refusal or exact new tables, all or nothing |
| AccountRepository.Repository.UpdateBlinkDefaultWallet | src/postgresql/repository.rs:693-724 | changes the wallet of that Blink account only, or reports that there is none |
| AccountRepository.Repository.EnsureSparkAccount | src/postgresql/repository.rs:137-189 | whatever the earlier read saw, account and child row are created together exactly when the key has none; a lost race rolls the account back |
| AccountRepository.Repository.SetMode | src/postgresql/repository.rs:475-497 | the columns a mode update writes; anon clears country evidence |
| AccountRepository.Repository.UpsertSparkMode | src/postgresql/repository.rs:469-516 | success exactly for a new key, a newer request or an exact repeat of the one held; stale otherwise |
| AccountRepository.Repository.SetSparkModeEnhancedIfUnset | src/postgresql/repository.rs:539-559 | fills an unset mode only |
| AccountRepository.Repository.RefreshSparkCountryEvidence | src/postgresql/repository.rs:518-537 | writes evidence for enhanced accounts only |
| AccountRepository.Repository.DeleteExpiredSignedMessages | src/postgresql/repository.rs:569-575 | drops exactly the claims whose expiry is past and counts them |
| AccountInvariants.RegisteredConsistent | src/postgresql/repository.rs:322-450 | registration keeps child rows, unique keys, existing owners and one username per domain |
| AccountInvariants.TransferredConsistent | src/postgresql/repository.rs:779-1041 | both transfers keep the invariant and every account |
| AccountInvariants.DeletedConsistent | src/postgresql/repository.rs:726-777 | deletion keeps the invariant and every account |
| AccountInvariants.BlinkCreatedConsistent | src/postgresql/repository.rs:577-691 | Blink account creation keeps the invariant |
| AccountInvariants.FirstContactConsistent | src/postgresql/repository.rs:137-189 | first contact keeps the invariant, whatever its earlier read saw |
| AccountInvariants.WalletChangedConsistent | src/postgresql/repository.rs:693-724 | a wallet change keeps the invariant |
| AccountInvariants.SparkRewriteConsistent | src/postgresql/repository.rs:469-559 | the mode register's writes keep the invariant |
| AccountInvariants.RegisteredEvolves | src/postgresql/repository.rs:403-427 | registration removes no account and changes no provider and no pubkey |
| AccountLaws.RegistrationAnswers | src/postgresql/repository.rs:334-384 | the answer to a registration, from the stored owner of the name and its key |
| AccountLaws.RegistrationForAccount | src/postgresql/repository.rs:345-384 | exactly when a registration for a given account commits |
| AccountLaws.RegistrationKeepsOwners | src/postgresql/repository.rs:366-377 | no registration changes the owner of a stored name |
| AccountLaws.DeletionAnswers | src/postgresql/repository.rs:726-777 | a deletion commits exactly for an unused statement of the key whose account owns the name |
| AccountLaws.DeletionFrame | src/postgresql/repository.rs:757-770 | it removes that name, adds the claim and touches nothing else |
| AccountLaws.TransferAnswers | src/postgresql/repository.rs:793-821 | a transfer commits exactly when its source owns the name and is on the right side |
| AccountLaws.TransferAccounts | src/postgresql/repository.rs:823-859 | only a key new to the server gets an account, and it starts untyped |
| AccountLaws.BlinkAnswers | src/postgresql/repository.rs:577-647 | the answer to an account creation, from the stored rows |
| AccountLaws.BlinkNamesFrame | src/postgresql/repository.rs:672-685 | every identifier of the request is stored for the account, and no stored name changes |
| AccountLaws.BlinkCreatedFrame | src/postgresql/repository.rs:649-670 | the account has the requested wallets, and no other row changes |
| AccountLaws.WalletChangedFrame | src/postgresql/repository.rs:693-724 | the default wallet of that account changes and no other column |
| AccountLaws.FirstContactFrame | src/postgresql/repository.rs:147-189 | a new key gets one untyped Spark account, a known one nothing |
| AccountLaws.ModeAnswers | src/repository.rs:185-201 | the answer to a mode request, from the mode and anchor columns |
| AccountLaws.ModeWrittenFrame | src/postgresql/repository.rs:475-497 | the columns an accepted request writes; a refused one writes nothing |
| AccountLaws.BackfilledFrame | src/postgresql/repository.rs:539-559 | an untyped key becomes enhanced, as migrated and without an anchor |
| AccountLaws.CountryRefreshedFrame | src/postgresql/repository.rs:518-537 | evidence is written for an enhanced key, whose mode columns stay |
| AccountLaws.PrunedFrame | src/postgresql/repository.rs:569-575 | a claim survives the pruner exactly when its expiry is not past |
| AccountInvariants.ResolveIsSound | src/postgresql/repository.rs:54-105 | on consistent tables the row mapper never fails, exactly stored names resolve, with the columns of their owner |
| AccountInvariants.ForwardExactly | src/postgresql/repository.rs:194-223 | the lookup by name finds exactly stored usernames, under the key of their owner |
| AccountInvariants.LookupsAgree | src/postgresql/repository.rs:225-256 | the query by pubkey is inverse to the query by name, and its ORDER BY never chooses |
| AccountInvariants.RegistrationFrame | src/postgresql/repository.rs:390-444 | what a committed registration writes to names, accounts and claims and what it leaves; the key holds the name, with the given description |
| AccountInvariants.TransferFrame | src/postgresql/repository.rs:876-906 | what a committed transfer writes to names, accounts and claims and what it leaves; the target holds the name, with the given description |
| AccountRuns.PrunedOnlyWhenRefused | src/routes/signed.rs:169-232 | a claim that may be pruned belongs to a statement refused from then on, saturation included |
| AccountRuns.NextConsistent | src/postgresql/repository.rs:322-1041 | every action of the API keeps the invariant and every account |
| AccountRuns.RunConsistent | src/postgresql/repository.rs:322-1041 | the same over every run |
| AccountRuns.OwnershipHolds | src/postgresql/repository.rs:258-287 | on every run resolving never reports broken ownership, and both lookups find exactly the usernames stored for a key |
| AccountRuns.OneAccountPerKey | src/postgresql/repository.rs:137-189 | however first contacts interleave the key ends with exactly one account and no account lacks its child |
| AccountRuns.NameCustody | src/routes/account.rs:146-275 | a name leaves the key that holds it only by that key's signed unregistration or transfer of it, by its signed registration or acceptance of another username in that domain, or by an internal transfer of one to it |
| AccountRuns.BlinkNameStays | src/postgresql/repository.rs:914-1041 | a name of a Blink account keeps its row in every step but an internal transfer of it from that account |
| AccountRuns.NameArrival | src/routes/account.rs:58-275 | a name comes to a key only by its signed registration of a free name, by a transfer its holder and the key both signed, or from a Blink account |
| AccountRuns.DescriptionStored | src/routes/account.rs:107-114 | the stored description is the request's, or the default when a legacy message authorised it |
| AccountRuns.AcceptWindow | src/routes/signed.rs:171-185 | timestamps are accepted up to 600 s on either side of the clock |
| AccountRuns.SingleUse | src/routes/signed.rs:263-291 | on every run a statement that commits again does so after its accept window |
| AccountRuns.SingleUseAtOneReading | src/routes/signed.rs:171-185 | with check and transaction at one clock reading no statement commits twice |
| AccountRuns.LateCommitRepeats | src/routes/signed.rs:274-291 | for every registration, unregistration and transfer statement and every time past its accept window, a run that commits it again at that time |
| AccountRuns.RepeatsExactly | src/routes/signed.rs:171-185 | a statement can be committed a second time at a given time if and only if that time is past its accept window |
| ModeRuns.RunModeLaw | src/postgresql/repository.rs:469-559 | on every run anchors, modes and country evidence stay tied to the delivered requests and the clock |
| ModeRuns.RegisterIsNewest | src/postgresql/repository.rs:484-509 | the register holds the greatest delivered timestamp and a mode delivered with it |
| ModeRuns.RegisterConverges | src/postgresql/repository.rs:484-509 | the same requests in any order, with duplicates, leave the same mode and anchor |
| ModeRuns.SuccessMeansApplied | src/repository.rs:185-201 | a success answer of the late classifying read means that very request was applied; the read never misses the account |
| ModeRuns.ResendSucceeds | src/repository.rs:185-201 | an applied request sent again is answered with success and writes nothing, until a newer one of that key |
| ModeRuns.AppliedIsHeld | src/postgresql/repository.rs:484-497 | an applied request is held by the register afterwards |
| ModeRuns.AnonStep | src/postgresql/repository.rs:469-559 | only an accepted newer enhanced request changes an anon key; anchors only grow |
| ModeRuns.AnonIsSticky | src/postgresql/repository.rs:469-559 | an anon key stays anon until a strictly newer signed enhanced request is accepted, on every run |
| ModeRuns.GateExactly | src/routes/lnurl_pay.rs:334-346 | a callback is refused exactly when the row of the key says anon |
| ModeRuns.RefusedAfterAnon | src/routes/lnurl_pay.rs:334-346 | on every run a key is refused only if its newest request was an applied anon one |
| ModeRuns.MintNeedsReopening | src/routes/lnurl_pay.rs:334-346 | a callback that may mint for a key that was anon read the mode before that, or after a strictly newer signed enhanced request |
| ModeRuns.InFlightMints | src/routes/lnurl_pay.rs:334-433 | a callback that has passed the gate mints whatever happens before its invoice is created |
| ModeRuns.MintAfterAnon | src/routes/lnurl_pay.rs:320-433 | from any reachable state, for any admitted registration: a callback for the name passes the gate, the key turns anon, and the callback may still mint |
| ModeRuns.EvidenceNeedsEnhanced | src/routes/account.rs:409-438 | country evidence only while enhanced; no anchor more than 30 s ahead of the clock |
| Identifiers.MatchesUsername | src/identifier.rs:130-156 | the character loop accepts exactly the username pattern |
| Identifiers.FindPlus | src/identifier.rs:98-104 | the first modifier sign after the first character |
| Identifiers.SplitCallback | src/identifier.rs:95-124 | the modifier of a callback identifier is found where it was put |
| Identifiers.AnyCaseParses | src/identifier.rs:30-41 | any spelling of a username parses to its lowercase form, or is refused when that breaks the rules |
| Identifiers.ModifierExactly | src/identifier.rs:95-124 | after a username exactly btc and usd, in any case, are modifiers |
| Identifiers.UsernameReparses | src/identifier.rs:71-89 | a canonical username parses to itself, with any wallet modifier |
| Identifiers.RegisteredResolvesExactly | src/routes/account.rs:633-667 | a registrable username resolves to itself on the public routes exactly when it does not begin with 00 |
| Identifiers.RegistrableButUnreachable | src/identifier.rs:30-47 | `00abc` can be registered and is not found under its own name |
| Identifiers.PhoneReparses | src/identifier.rs:43-69 | a canonical phone number parses to itself, with any wallet modifier |
| Identifiers.LegacyReparses | src/routes/account.rs:655-661 | a legacy name that breaks the username rules parses to itself |
| Identifiers.CallbackIsFixedPoint | src/routes/account.rs:633-667 | re-parsing a callback identifier gives the same name, wallet and callback identifier |
| Identifiers.InvoiceMetadataIsAdvertised | src/routes/lnurl_pay.rs:412-418 | the metadata hashed into the invoice is the one discovery advertised: the stored description and the callback identifier at the domain |
| Identifiers.PhoneSpellingsAgree | src/identifier.rs:49-69 | plain, plus and 00 spellings of a number are one identifier |
| Identifiers.CanonicalUsernameIsLegal | src/identifier.rs:30-41 | canonical usernames are legal in signed messages |
| Identifiers.RouteRefusals | src/routes/account.rs:633-667 | what the public routes answer besides a name: unknown number, and the three errors |
| InternalAccounts.BuildIdentifiers | src/routes/internal.rs:141-178 | succeeds exactly on non-empty, plain, pairwise distinct identifiers, and returns their canonical names in order |
| RateLimit.SameBucketExactly | src/rate_limit.rs:9-19 | exactly which addresses share a bucket: equal ones, and IPv6 addresses of one /64 |
| RateLimit.PerIpRateLimiter.Check | src/rate_limit.rs:54-97 | one check: answer and new table, eviction and capacity refusal included |
| FixedWindow.CountIsCalls | src/rate_limit.rs:84-96 | over every history the table holds for a bucket when its window opened and how many of its calls the window has, capped at u32::MAX |
| FixedWindow.AcceptedExactly | src/rate_limit.rs:84-97 | a call not refused for room is accepted exactly when at most the budget of calls, itself included, fall in its window |
| FixedWindow.WindowIsCalls | src/rate_limit.rs:91-96 | these are the calls made since the window opened |
| FixedWindow.RefusedForRoomExactly | src/rate_limit.rs:66-83 | a call is refused for room exactly when its bucket is new and as many windows as fit still run |
| FixedWindow.SpentExactly | src/rate_limit.rs:121-133 | a unit of the global budget is available exactly when at most the budget of spends fall in the window |
| RateLimit.GlobalBudget.Spend | src/rate_limit.rs:120-133 | one spend: answer and new window |
| RateLimit.SlidingBound | src/rate_limit.rs:55-97 | any closed interval of one window length accepts at most twice the budget per bucket, over every history |
| RateLimit.BoundedExactly | src/rate_limit.rs:55-97 | exactly which configurations have that bound |
| RateLimit.BudgetIsOneBucket | src/rate_limit.rs:100-134 | the global budget is a limiter with one tracked bucket |
| RateLimit.BudgetBound | src/rate_limit.rs:121-133 | the same bound for the global budget |
| RateLimit.EvictionIsInvisible | src/rate_limit.rs:66-97 | without capacity refusals every answer is that of an unbounded table that never evicts |
| RateLimit.TableStaysBounded | src/rate_limit.rs:66-89 | the table never exceeds its limit |
| RateLimit.LiveWindowsUntouched | src/rate_limit.rs:68-70 | no call resets or drops another bucket's live window |
| Backoff.TotalBounds | src/zap.rs:75-78 | the sum of the first n delays is the geometric sum up to n milliseconds |
| Backoff.RetriesWithinCutoff | src/zap.rs:65-78 | the delays of n retries fit into 14 days exactly for n up to 23 |
| Backoff.DelayAtLeast45s | src/zap.rs:75-78 | no retry is scheduled less than 45 s ahead |
| ZapQueue.ZapReceiptQueue.SelectPending | src/postgresql/repository.rs:1538-1544 | the first eligible rows by due time, all of them below the limit |
| ZapQueue.ZapReceiptQueue.TakePending | src/postgresql/repository.rs:1528-1565 | claims exactly those rows |
| ZapQueue.EligibleExactly | src/postgresql/repository.rs:1532-1540 | a row is due once its time has come and no claim of the last five minutes is on it |
| ZapQueue.DecideExactly | src/zap.rs:143-277 | exactly when a taken row is kept, removed or rescheduled, from the answers the processor gets |
| ZapQueue.ZapReceiptQueue.ProcessOne | src/zap.rs:143-277 | what each combination of answers does to the row |
| ZapQueue.ZapReceiptQueue.ProcessBatch | src/zap.rs:132-134 | touches only the batch's rows, none of which is eligible again before the deadline |
| ZapQueue.ZapReceiptQueue.DrainBatch | src/zap.rs:117-134 | one turn: takes rows not taken before, which stay ineligible until the deadline; a short batch leaves nothing eligible |
| ZapQueue.ZapReceiptQueue.ProcessPending | src/zap.rs:111-141 | the drain loop ends, takes no row twice, touches no other row and leaves nothing that was eligible at its last take |
| ZapQueue.StaysQuiet | src/zap.rs:143-277 | whatever becomes of a taken row, it is not eligible again for the least retry delay |
| ZapRuns.BackoffHolds | src/zap.rs:165-277 | with reschedules on time, retries stay spaced, every publish is for at most 23 retries, also one whose processor dies before its write, and at most 24 are stored |
| ZapRuns.SpacedExactly | src/zap.rs:263-270 | the rows stay spaced throughout a run exactly when every reschedule lands on a row old enough for it |
| ZapRuns.FreshEnqueuesAreOnTime | src/zap.rs:263-270 | however late processors write, reschedules are on time on runs that enqueue no hash a processor still holds |
| ZapRuns.LateWriteExactly | src/zap.rs:263-270 | a late reschedule keeps the spacing exactly on rows that are old enough |
| ZapRuns.StaleWriterBreaksSpacing | src/zap.rs:247-276 | the run, for every hash and retry count, in which a row created anew by a late handler is due too early |
| ZapRuns.StaleWriterBreaksBound | src/zap.rs:165-179 | the run, for every hash, in which a row created anew is published with 24 retries |
| ZapRuns.LeaseExcludes | src/postgresql/repository.rs:1532-1544 | a row is not taken twice within five minutes without a release in between |
| Invoices.InvoiceStore.UpsertInvoice | src/postgresql/repository.rs:1220-1260 | the row after the upsert |
| Invoices.UpsertedColumns | src/postgresql/repository.rs:1224-1240 | column by column: everything given is stored, paid clears expiry, ownership is never blanked, creation time stays |
| Invoices.ExpiredColumns | src/postgresql/repository.rs:1380-1395 | an expiry mark is written to unpaid rows only |
| Invoices.InvoiceStore.UpsertInvoicesPaid | src/postgresql/repository.rs:1262-1333 | column by column: absent hashes and unpaid invoices of the same user are paid, with preimage stored and expiry cleared, no other row changes, and exactly those hashes are returned |
| Invoices.ParseItemExactly | src/invoice_paid.rs:102-139 | exactly which items are refused, with which error, and the row of the others |
| Invoices.InvoiceStore.ParseItems | src/invoice_paid.rs:102-139 | fails exactly on a malformed item, and otherwise builds each item's row |
| Invoices.InvoiceStore.SettleItems | src/invoice_paid.rs:102-163 | one malformed item means no write; otherwise exactly the known items are settled |
| Invoices.InvoiceStore.HandleInvoicesPaid | src/invoice_paid.rs:88-184 | every known hash that the user can pay ends paid with its item's preimage, with a receipt row, and with a delivery if it has a domain; one malformed item means no write |
| Invoices.ReceiptsAre | src/postgresql/repository.rs:1502-1526 | the batch enqueue gives every hash a row, touches no existing one and adds no other |
| Invoices.InvoiceStore.NotifyWebhooks | src/webhook_notify.rs:25-72 | enqueues the full payloads of paid invoices with a domain, each at most once |
| Invoices.InvoiceStore.HandleInvoicePaid | src/invoice_paid.rs:40-86 | a known invoice ends paid, with this preimage and amount and a receipt row if it was unpaid, and with a delivery if it has a domain; a wrong preimage or unknown hash changes nothing |
| Invoices.BatchIsInTurn | src/postgresql/repository.rs:1294-1310 | the batch statement equals settling its rows one at a time |
| Invoices.BatchOrderFree | src/postgresql/repository.rs:1294-1310 | in any order |
| Invoices.PayloadsSound | src/postgresql/repository.rs:1614-1671 | payloads are exactly those of paid invoices with a domain, with the columns of the invoice, the address and the comment |
| Invoices.EnqueuedOnce | src/postgresql/repository.rs:1676-1709 | each candidate ends with one delivery, never two, and every row added is a candidate with its payload |
| SettlementRuns.SettleBatchPays | src/postgresql/repository.rs:1294-1310 | in every interleaving the step of a batch pays every hash its user can pay |
| SettlementRuns.HandlerStores | src/invoice_paid.rs:55-69 | whatever runs in between, a handler that read the invoice as unpaid stores its preimage and amount |
| SettlementRuns.SettlementSafe | src/invoice_paid.rs:27-184 | under every interleaving: genuine preimages in rows and deliveries, paid never expired and never reverted, identity fixed, at most one delivery per invoice and domain |
| SettlementRuns.CreateKeepsPaidExactly | src/invoice_paid.rs:240-279 | a creation keeps all payments exactly when its hash has no paid row |
| SettlementRuns.LateCreationForgets | src/routes/lnurl_pay.rs:493-548 | the run in which a payment, settled by a batch when only its zap was stored, is forgotten |
| SettlementRuns.SecondReceipt | src/invoice_paid.rs:64-72 | a receipt for a paid invoice is enqueued again only by a handler that had read it as unpaid, or after a creation forgot the payment |
| SettlementRuns.TwoReceipts | src/invoice_paid.rs:55-72 | two handlers that both read the invoice as unpaid both enqueue a receipt |
| SettlementRuns.VerifyExactly | src/routes/lnurl_pay.rs:559-610 | exactly what verify answers, from the row and the provider's answer |
| SettlementRuns.VerifyIsTruthful | src/routes/lnurl_pay.rs:559-610 | settled is reported only with a genuine preimage, and for good once paid |
| SettlementRuns.NotificationRecovers | src/invoice_paid.rs:74-79 | after any crash one completed notification, by the single or the batch handler, leaves exactly one delivery |
| WebhookQueue.DeliveryQueue.PickEarliest | src/postgresql/repository.rs:1728-1738 | an eligible row of the domain with the least due time |
| WebhookQueue.DeliveryQueue.PickAll | src/postgresql/repository.rs:1720-1738 | exactly one such row for every eligible domain |
| WebhookQueue.DeliveryQueue.TakePending | src/postgresql/repository.rs:1711-1763 | claims exactly those rows |
| WebhookQueue.EligibleExactly | src/postgresql/repository.rs:1720-1738 | an undelivered row is due once its time has come and no claim of the last five minutes is on it |
| WebhookQueue.ReleasedIsDue | src/postgresql/repository.rs:1765-1815 | when a failed, released, parked or delivered row is due again |
| WebhookQueue.NoStarvation | src/postgresql/repository.rs:1711-1763 | within a lease period a delivery is taken after at most as many takes as rows of its domain are due no later |
| WebhookQueue.LeaseExcludes | src/postgresql/repository.rs:1711-1815 | a delivery is not taken twice within five minutes without a release in between |
| WebhookQueue.SucceededIsFinal | src/postgresql/repository.rs:1765-1804 | a succeeded delivery is never taken again, late failure writes included |

## Left out

- SQL isolation levels and row locks: a transaction or statement is one atomic step, and takes run without competing locks.
- src/sqlite/repository.rs, src/webhooks/background.rs and the migrations are not part of this model, except the unique and foreign keys the Postgres text relies on.
- Signature verification, HMAC, JWT and certificates: a signed request enters a run only with a message its route lists; a legacy mode message spells the key in its canonical form.
- The JSON of a zap receipt: of the text that zap-receipt signs only a brace is required, and that a processor finds the zap ready or not is an arbitrary answer.
- Route pre-checks that only refuse more (registration or transfer by or to an anon key, disabled providers): the invariants hold with and without them, and the runs given as counterexamples never meet them.
- The verification loop over candidates and its counters; the description hash of a register or transfer message is not tied to the description.
- Invoices.InvoiceStore.HandleInvoicesPaid: requires the hashes of one batch to be distinct, because Postgres rejects a statement that would update a row twice.
- AccountRepository.Repository.UpsertSparkRegistration: requires a generated account id that no account has; the format of ids is not modelled.
- RateLimit.PerIpRateLimiter.Check: calls are served in the order of their clock readings; a reading taken before the lock and served after a later one is not modelled.
- Backoff.TotalBounds: delays beyond 26 retries are the exact quotient, where the f64 arithmetic of the source would round; with reschedules on time the queue never gets there.
- ZapRuns.BackoffHolds: the clock stays two million seconds short of the i64 range.
- ZapQueue.ZapReceiptQueue.ProcessPending: less than 45 s pass and nothing is enqueued during the drain, without which the loop need not end.
- WebhookQueue.NoStarvation: statements between two takes put nothing ahead of the delivery.
- Invoices.InvoiceStore.NotifyWebhooks: which identifier of the account the lightning address shows is an arbitrary lookup; the payload is a value, not JSON text.
- Invoices.InvoiceStore.HandleInvoicePaid: all clock readings of one call are the same, and storage does not fail; interleavings and crashes are in SettlementRuns.
- Provider calls, Nostr events and relays, LNURL callback validation, expiry limits, country resolution, domain lists, configuration and HTTP shapes: external answers or easy members.
