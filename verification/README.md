# A verified model of RITSEI's financial core

RITSEI is an ERP. Its financial core converts money exactly, turns journals into ledger transfers,
keeps an accounting book, compares ledgers before a cutover, and orders the gates of its roadmap. This
project states that core in Dafny and proves what it promises, over all inputs and over every run of
its stateful services.

- **Money** (`decimal.dfy`, `money.dfy`): major-unit decimal strings and minor-unit integers convert
  into each other exactly; success and each failure are characterised.
- **Ledger execution** (`journal.dfy`, `pairing.dfy`, `tigerbeetle.dfy`, `ledger.dfy`,
  `ledger_runs.dfy`, `ledger_scopes.dfy`, `ledger_answers.dfy`): a balanced journal is compiled into
  two-account transfers without changing what it means; the TigerBeetle adapter recognises exactly what
  it posted; the in-memory ledger moves money at most once per operation key under lost responses,
  failures and replays.
- **Canonical forms** (`json.dfy`, `canonical.dfy`, `json_texts.dfy`, `store.dfy`, `staging.dfy`,
  `facts.dfy`, `readiness.dfy`, `opening.dfy`): canonical JSON is unambiguous, and complete exactly where
  the locale comparison ties nothing; a clean comparison of two stores means they hold the same facts.
- **Gate graph** (`gates.dfy`): the depth-first validation reports real cycles exactly when there are
  some, and the one-pass measure equals the recursive meaning of the gates.
- **Accounting book and cutover** (`texts.dfy`, `book.dfy`, `book_runs.dfy`, `book_answers.dfy`,
  `cutover.dfy`, `cutover_answers.dfy`): entries balance, never change and are reversed at most once; a
  cutover is approved only on supporting evidence.
- **Artifact store** (`artifacts.dfy`): write-once content behind fenced generations.
- **Migration catalogue** (`migrations.dfy`): the loops accept exactly the prefixes of an ordered list.

## How it is built

Code that computes values is functions and lemmas. Code that loops or updates collections is methods
and classes with the source's own fields; each such method is proved equal to a function on the state,
the lemmas over runs are about those functions, and the modules named Answers say when each answer is
given without naming them. `dafny verify dfyconfig.toml` checks the project.

What the model takes as given:

- The order of `localeCompare` is a parameter, a total preorder that may tie different strings, as
  JavaScript's does for canonically equivalent ones. Statements that need it tie-free say so, and
  `Canonical.CanonicalTextExactlyWhenSettled`, `Canonical.CanonicalValueExactlyWhenSettled`,
  `Facts.SortedExactlyWhenTieFree`, `Readiness.CanonicalExactlyWhenSeparated`,
  `FinancialStore.FactsTextExactlyWhenUntied`, `FinancialStore.CanonicalArrayExactlyWhenUntied` and
  `StagingEvidence.TextExactlyWhenUntied` show that the condition is exact.
- `Object.entries` lists array indexes first and ascending; values that come from the program are in that
  property order at every depth.
- SHA-256, Ed25519, base64url and the UTC calendar are functions passed in. Transfer ids of different
  places are assumed distinct where a statement needs it, and says so.
- A new identifier (`uuidv7`) is the next number of a counter, so no two are equal.
- The clock, the order total that sales reports, whether messaging accepts an event, and whether posting
  is enabled for a legal entity are inputs of the operation that reads them.
- Inputs are authorised and decoded: amounts of the book match the public amount pattern, a profile
  names two accounts, a period does not end before it starts.

Where the program does not keep what its form suggests, the model keeps the program:

- In the in-memory ledger each line's new balance starts from the posted balance, so a journal with an
  account on two lines keeps only its last line. It is applied in full exactly when no account repeats
  (`LedgerRuns.AppliesExactlyWhenDistinct`), and double entry survives exactly when the kept lines balance
  (`LedgerRuns.RunStaysBalancedExactly`); some repeated accounts break it
  (`LedgerRuns.RepeatedAccountUnbalances`) and some do not (`LedgerRuns.RepeatedAccountsMayBalance`).
- Operations are recorded under tenant, entity and operation ids joined by colons. Two scopes can share a
  key exactly when one joined prefix extends the other (`LedgerScopes.ScopesCollideExactly`). An accepted
  posting can then stand for an operation that was never booked exactly when the extension is proper
  (`LedgerScopes.FalseAcceptanceExactly`), and an accepted reconciliation also when the prefixes are equal
  (`LedgerScopes.FalseReconciliationExactly`). Account keys collide under the same condition
  (`LedgerScopes.AccountsCollideExactly`). Ids without colons rule all of it out.
- The same-account test of the in-memory ledger is strictly stronger than the adapter's
  (`Pairing.TwoSidedAccountMayPair`). `Pairing.SelfTransferExactly` and `Pairing.TwoSidedExactly` say
  exactly which journals each one refuses.
- A revenue repeat compares the first line's debit as text, so `10` and `10.00` conflict
  (`BookRuns.SameAmountConflicts`).
- A journal posted by hand may hold a reversal's reference, and then reversing the order returns it
  (`BookRuns.PlainEntryTakesReversal`); `BookRuns.ReversesExactly` is the exact condition.
- A journal posted by hand may hold an order's revenue reference as well
  (`BookRuns.PlainEntryTakesRevenue`); `BookRuns.RevenueAnswersExactly` says when the answer is revenue.
- An approval compares the artifact's legal entity and currency with the control's, not its tenant
  (`Cutover.OtherTenantsEvidenceApproves`); approvals rest on evidence of their own tenant exactly when
  none names another tenant's artifact (`Cutover.RunOwnsExactly`).
- A repeat of stored content under a new artifact id does not bind that id
  (`ArtifactStore.RepeatLeavesIdFree`); `ArtifactStore.BindsExactly` says exactly when an id is bound.

## Model

| member | source | states |
|---|---|---|
| `Money.MajorToMinorExact` | foundation/money/mod.ts:41-59 | on every string and every exponent 0..38 the conversion succeeds exactly when the string is a decimal whose value times 10^exponent is an integer of at most 128 bits, and then it prints that integer; a larger integer is an overflow |
| `Money.MajorToMinorFailure` | foundation/money/mod.ts:29-59 | `invalid_format` exactly for non-decimals, `fractional_precision` exactly for decimals with no integer scaling |
| `Money.RefusalsExactly` | foundation/money/mod.ts:36-48 | an exponent is refused exactly outside 0..38; a minor amount exactly where it is not a canonical numeral or is 2^128 or more |
| `Money.OverflowExactly` | foundation/money/mod.ts:41-59 | a decimal whose scaled value is an integer converts below 2^128 and overflows from there on |
| `Money.MajorReading` | foundation/money/mod.ts:69-86 | a printed major amount has exactly `exponent` fractional digits and the minor amount's value |
| `Money.MinorRoundTrip` | foundation/money/mod.ts:41-86 | `majorToMinor(minorToMajor(v))` gives back every canonical v up to 2^128-1 |
| `Money.MajorAmountConverts` | foundation/money/mod.ts:13-16 | every public amount converts at exponent 2 |
| `Money.MinorOfDenotes` | foundation/money/mod.ts:61-66 | the throwing conversion never throws on a public amount and returns the integer that the amount times 100 denotes |
| `Money.ReadingUnique` | foundation/money/mod.ts:29-48 | the decimal pattern splits a string in one way only |
| `Decimal.CanonicalIsPrinted` | foundation/money/mod.ts:30-30 | canonical numerals are exactly what printing produces |
| `JournalValidation.AdapterValidation` | platform/tigerbeetle/tigerbeetle.ts:349-373 | the loop over running totals gives the verdict stated on the whole journal: two lines, one positive side each, totals within 128 bits and equal |
| `JournalValidation.MemoryValidation` | modules/accounting/src/financial-ledger.ts:247-274 | the second validator gives the same verdict on every input |
| `Pairing.PairLines` | platform/tigerbeetle/tigerbeetle.ts:381-408 | the two-pointer loop over lowered amounts ends and yields the recursive pairing |
| `Pairing.CountTransfers` | modules/accounting/src/financial-ledger.ts:192-216 | the amount-only walk counts exactly the transfers of the pairing, on every input |
| `Pairing.PairingPreservesMeaning` | platform/tigerbeetle/tigerbeetle.ts:381-408 | a valid journal and its transfers debit and credit every account by the same amounts |
| `Pairing.PairingIsBounded` | platform/tigerbeetle/tigerbeetle.ts:381-408 | every transfer is in 1..2^128-1; there is at least one and at most one fewer than lines |
| `Pairing.PairingCuts` | platform/tigerbeetle/tigerbeetle.ts:381-408 | the transfers' running sums are strictly increasing and are exactly the running sums of the debits or of the credits |
| `Pairing.PairsTotal` | platform/tigerbeetle/tigerbeetle.ts:381-408 | for arbitrary lines the walk moves the smaller of the two totals |
| `Pairing.OneSidedAccountsPair` | modules/accounting/src/financial-ledger.ts:431-445 | a journal without an account on both sides makes no transfer from an account to itself |
| `Pairing.TransfersExactly` | platform/tigerbeetle/tigerbeetle.ts:381-408 | a transfer from one account to another occurs exactly when a debit of the one and a credit of the other overlap: their running-sum intervals in line order meet |
| `Pairing.SelfTransferExactly` | platform/tigerbeetle/tigerbeetle.ts:504-513 | the adapter refuses a journal for a transfer from an account to itself if and only if some account's debit and credit overlap |
| `Pairing.TwoSidedExactly` | modules/accounting/src/financial-ledger.ts:431-445 | the in-memory ledger refuses a journal if and only if some account has a debit and a credit, overlapping or not |
| `Pairing.TwoSidedAccountMayPair` | platform/tigerbeetle/tigerbeetle.ts:504-513 | the converse fails: a journal the adapter takes and the in-memory ledger refuses |
| `TigerBeetle.CheckJournal` | platform/tigerbeetle/tigerbeetle.ts:492-513 | currency, validation and same-account checks in the adapter's order |
| `TigerBeetle.BuildTransfers` | platform/tigerbeetle/tigerbeetle.ts:514-550 | the pushed transfers, one per pair, all but the last linked |
| `TigerBeetle.PostJournal` | platform/tigerbeetle/tigerbeetle.ts:492-589 | the answer to every reply of the engine: lost, conflicting, rejected by the first failure, or accepted with all ids and the latest timestamp |
| `TigerBeetle.ConcludedExactly` | platform/tigerbeetle/tigerbeetle.ts:551-588 | unknown exactly for a missing or short reply, recovery exactly for a conflict, accepted exactly when every transfer was created or existed |
| `TigerBeetle.ReconcileExact` | platform/tigerbeetle/tigerbeetle.ts:590-697 | accepted with the expected ids exactly when every built transfer is stored equal in all checked fields, unknown exactly when none of the ids is stored, manual recovery otherwise |
| `TigerBeetle.PostThenReconcile` | platform/tigerbeetle/tigerbeetle.ts:484-697 | a journal whose transfers were created is accepted on reconciliation, under the ids posting announced, when transfer ids of different places differ |
| `TigerBeetle.AcceptedMeansPosted` | platform/tigerbeetle/tigerbeetle.ts:590-697 | after an accepted reconciliation the stored transfers debit and credit each account by the journal's own sums |
| `TigerBeetle.ValidJournalsHavePairs` | platform/tigerbeetle/tigerbeetle.ts:505-506 | the empty-pairs guard never fires on a valid journal |
| `TigerBeetle.TransferIdsExactly` | platform/tigerbeetle/tigerbeetle.ts:223-231 | under an injective digest, transfer ids are equal exactly for the same mapping version, tenant, legal entity, operation and place |
| `TigerBeetle.AccountIdsExactly` | platform/tigerbeetle/tigerbeetle.ts:213-221 | under an injective digest, account ids are equal exactly for the same mapping version, tenant, legal entity, account and currency up to letter case |
| `TigerBeetle.OthersAreNotFound` | platform/tigerbeetle/tigerbeetle.ts:590-697 | from a store that holds only transfers of other operations, reconciliation answers not found |
| `TigerBeetle.UnpostedIsNotFound` | platform/tigerbeetle/tigerbeetle.ts:484-697 | after any postings, an operation that was not among them is not found |
| `TigerBeetle.PostedStaysAccepted` | platform/tigerbeetle/tigerbeetle.ts:484-697 | what one posting stored is still accepted after another operation is posted |
| `TigerBeetle.PostedIsAccepted` | platform/tigerbeetle/tigerbeetle.ts:484-697 | under an injective digest a posted journal is accepted on reconciliation, whatever else is stored |
| `TigerBeetle.BuiltFields` | platform/tigerbeetle/tigerbeetle.ts:514-550 | every field of a submitted transfer |
| `TigerBeetle.RefusalAnswers` | platform/tigerbeetle/tigerbeetle.ts:492-513 | each early refusal, exactly on its condition |
| `TigerBeetle.ConcludedAnswers` | platform/tigerbeetle/tigerbeetle.ts:551-588 | the answer to a complete reply: a conflict wherever it stands, else the first failure with its reason, else all ids |
| `TigerBeetle.ConcludedAtLatest` | platform/tigerbeetle/tigerbeetle.ts:551-588 | an accepted reply carries the latest of its times |
| `MemoryLedger.FinancialLedger.CreateExecutionAccount` | modules/accounting/src/financial-ledger.ts:294-321 | creates an account with a zero balance, or answers by comparing with the existing one; the answer names the requested account, currency in capitals and mapping version |
| `MemoryLedger.FinancialLedger.StageBalances` | modules/accounting/src/financial-ledger.ts:398-430 | the loop that stages new balances, refusing the journal at the first broken bound or constraint |
| `MemoryLedger.FinancialLedger.PostJournal` | modules/accounting/src/financial-ledger.ts:327-469 | the whole posting with its injected faults, as a transition of the ledger's six collections |
| `MemoryLedger.FinancialLedger.SubmitJournal` | modules/accounting/src/financial-ledger.ts:397-469 | the first submission: booked in full and recorded, or refused unchanged |
| `MemoryLedger.FinancialLedger.ReconcileJournal` | modules/accounting/src/financial-ledger.ts:470-500 | the stored outcome for the same fingerprint, otherwise the unknown and conflict answers |
| `MemoryLedger.FinancialLedger.GetBalance` | modules/accounting/src/financial-ledger.ts:501-519 | a balance is readable exactly where a created account has the joined key, and reads as the amounts posted under it |
| `LedgerScopes.AccountKeyInjective` | modules/accounting/src/financial-ledger.ts:186-187 | joined account keys are equal exactly for the same account, in one scope or in scopes that are not nested |
| `LedgerScopes.AccountsCollideExactly` | modules/accounting/src/financial-ledger.ts:186-187 | two scopes have accounts under one joined key if and only if one joined prefix extends the other |
| `MemoryLedger.PostKeepsInv` | modules/accounting/src/financial-ledger.ts:327-469 | every posting keeps balances within 128 bits and their accounts' constraints |
| `LedgerAnswers.ConstraintsHold` | modules/accounting/src/financial-ledger.ts:233-245 | in every state a run reaches balances fit in 128 bits; under debits-must-not-exceed-credits debits are at most credits, and under the other constraint the converse |
| `LedgerAnswers.PostAnswers` | modules/accounting/src/financial-ledger.ts:327-469 | every answer to a posting exactly on its condition; a constraint violation exactly where an account is on both sides, or some line, added to what its account has posted, passes 2^128-1 or breaks the constraint |
| `LedgerAnswers.ConstraintRefusesFirst` | modules/accounting/src/financial-ledger.ts:411-425 | the first amount on an account's forbidden side is refused and changes nothing |
| `LedgerAnswers.RepeatAnswers` | modules/accounting/src/financial-ledger.ts:388-396 | a posting under a recorded key returns the recorded outcome for the same content and conflicts for other content |
| `LedgerAnswers.ReconcileAnswers` | modules/accounting/src/financial-ledger.ts:470-500 | each answer of a reconciliation by what is recorded |
| `LedgerAnswers.RecordedAnswers` | modules/accounting/src/financial-ledger.ts:447-459 | the recorded outcome counts and names all transfers, the first one falsified where the options ask for it |
| `LedgerAnswers.ValidExactly` | modules/accounting/src/financial-ledger.ts:247-274 | a journal is valid exactly with two lines, one positive side each and equal totals below 2^128 |
| `LedgerAnswers.CreateAnswers` | modules/accounting/src/financial-ledger.ts:294-321 | a new account starts with nothing posted; an existing one is left alone |
| `LedgerAnswers.SameAccountExactly` | modules/accounting/src/financial-ledger.ts:221-231 | two requests ask for the same account exactly when tenant, entity, account, currency up to letter case, mapping version and constraint agree |
| `LedgerRuns.RunKeepsInv` | modules/accounting/src/financial-ledger.ts:276-469 | so does every run, under any fault options |
| `LedgerRuns.RunKeepsRecords` | modules/accounting/src/financial-ledger.ts:276-469 | recorded operations, accounts and spent faults are never taken back over any run |
| `LedgerRuns.ExactlyOnce` | modules/accounting/src/financial-ledger.ts:327-469 | over any run each joined operation key moves money at most once, exactly in the step that records it |
| `LedgerScopes.ScopesCollideExactly` | modules/accounting/src/financial-ledger.ts:189-190 | two scopes (tenant and legal entity) have operations under one joined key if and only if one joined prefix extends the other |
| `LedgerScopes.OperationKeyInjective` | modules/accounting/src/financial-ledger.ts:189-190 | for operations of one scope, or of scopes that are not nested so, joined keys are equal exactly for the same operation |
| `LedgerScopes.PlainScopesApart` | modules/accounting/src/financial-ledger.ts:189-190 | different scopes whose ids have no colon are never nested |
| `LedgerScopes.CollidingOperationIsNotBooked` | modules/accounting/src/financial-ledger.ts:378-396 | of two operations under one joined key with the same content, the second is answered with the first's outcome and nothing of it is booked |
| `LedgerScopes.OperationsCollide` | modules/accounting/src/financial-ledger.ts:378-396 | for any two properly nested scopes some run books an operation of the first, and posting one of the second is then accepted and books nothing |
| `LedgerScopes.ReconciliationsCollide` | modules/accounting/src/financial-ledger.ts:470-500 | for any two different nested scopes some run that never submits for the second makes reconciling an operation of it answer accepted |
| `LedgerScopes.AcceptedWasBooked` | modules/accounting/src/financial-ledger.ts:276-469 | over any run from the start, an accepted posting means that this very operation was booked with this very content, unless a submitted scope is properly nested with its own |
| `LedgerScopes.ReconciledWasBooked` | modules/accounting/src/financial-ledger.ts:276-500 | so does an accepted reconciliation, unless another submitted scope is nested with its own, equal prefixes included |
| `LedgerScopes.FalseAcceptanceExactly` | modules/accounting/src/financial-ledger.ts:327-469 | posting can be accepted for an operation never booked, in some run of two scopes, if and only if these are properly nested |
| `LedgerScopes.FalseReconciliationExactly` | modules/accounting/src/financial-ledger.ts:470-500 | reconciling can, if and only if they are different and nested |
| `LedgerScopes.PlainAcceptedWasBooked` | modules/accounting/src/financial-ledger.ts:276-500 | where tenant and entity ids have no colon, every accepted answer means booked |
| `LedgerRuns.BookedOnce` | modules/accounting/src/financial-ledger.ts:276-469 | over any run each joined key, and so each operation, is booked at most once, and never once it is recorded |
| `LedgerRuns.AppliesExactlyWhenDistinct` | modules/accounting/src/financial-ledger.ts:402-430 | a booked journal is applied in full to every account if and only if no account is on two lines, because each line starts from the posted balance |
| `LedgerRuns.RepeatedAccountUnbalances` | modules/accounting/src/financial-ledger.ts:402-430 | a concrete booked journal with a repeated account after which total debits and credits differ |
| `LedgerRuns.RepeatedAccountsMayBalance` | modules/accounting/src/financial-ledger.ts:402-430 | a valid journal with repeated accounts whose kept lines balance all the same |
| `LedgerRuns.RecordingKeeps` | modules/accounting/src/financial-ledger.ts:402-469 | booking a journal adds to the sum of all balances exactly the last line of each of its accounts |
| `LedgerRuns.StepBalancesExactly` | modules/accounting/src/financial-ledger.ts:327-469 | a step keeps total debits equal to total credits if and only if it books nothing or a journal whose kept lines balance |
| `LedgerRuns.RunKeepsEach` | modules/accounting/src/financial-ledger.ts:276-469 | over any run, whatever accounts repeat, every balance is its start plus the last line under its key of each journal booked since |
| `LedgerRuns.RunOverall` | modules/accounting/src/financial-ledger.ts:276-469 | over any run the sum of all balances grows by the kept lines of the booked journals |
| `LedgerRuns.RunBalancesExactly` | modules/accounting/src/financial-ledger.ts:276-469 | a run ends in balance if and only if the kept lines of all journals it booked debit as much as they credit |
| `LedgerRuns.RunStaysBalancedExactly` | modules/accounting/src/financial-ledger.ts:276-469 | a run stays in balance after every step if and only if each journal it books balances in its kept lines |
| `LedgerRuns.RunConserves` | modules/accounting/src/financial-ledger.ts:276-469 | with distinct accounts, every balance is its start plus the sum of all journals booked since |
| `LedgerRuns.RunConservesExactly` | modules/accounting/src/financial-ledger.ts:276-469 | every balance is its start plus the sum of all journals booked since, if and only if no booked journal names an account on two lines |
| `LedgerRuns.RunStaysBalanced` | modules/accounting/src/financial-ledger.ts:276-469 | with distinct accounts, total debits equal total credits after every step of any run |
| `LedgerRuns.FaultBudget` | modules/accounting/src/financial-ledger.ts:330-352 | unless made unavailable for good, at most three postings under one operation key stay unknown |
| `LedgerRuns.RecordedReplay` | modules/accounting/src/financial-ledger.ts:378-469 | however much later, posting a booked journal again changes nothing and returns the booked outcome, also after a lost response; so does reconciling it |
| `LedgerRuns.FingerprintComplete` | modules/accounting/src/financial-ledger.ts:218-219 | fingerprints are equal exactly when journal id, reference, currency, mapping version and lines agree, even if account ids contain colons |
| `LedgerRuns.LineKeyInjective` | modules/accounting/src/financial-ledger.ts:186-187 | within one journal the joined balance key determines the account |
| `LedgerRuns.BookedPassesAdapter` | modules/accounting/src/financial-ledger.ts:431-445 | every journal the in-memory ledger books passes the adapter's checks, with as many transfer ids |
| `Json.RoundTrip` | foundation/document-rendering/contract.ts:366-376 | the parser of the printed form (sections 4 to 7 of RFC 8259) reads back every well-formed value and leaves the rest of the text |
| `Json.StringRoundTrip` | foundation/document-rendering/contract.ts:368-374 | quoted strings, with escapes and lone surrogates, read back unit by unit |
| `Json.PrintInjective` | foundation/document-rendering/contract.ts:366-376 | two well-formed values with one text are equal |
| `JsonTexts.PrintsJoined` | foundation/document-rendering/contract.ts:371-375 | arrays and objects are their printed parts joined by commas between brackets |
| `JsonTexts.EscapesRead` | foundation/document-rendering/contract.ts:366-370 | every unit of a string as it is written: seven short escapes, four small hexadecimal digits for other controls and lone surrogates, else itself (section 7 of RFC 8259) |
| `JsonTexts.ScalarsRead` | foundation/document-rendering/contract.ts:366-370 | `null`, `true` and `false` |
| `JsonTexts.IndexKeyExactly` | modules/accounting/src/financial-store-contract.ts:280-291 | the keys a rebuilt object lists first are the printed numbers up to 2^32-2 |
| `Canonical.CanonicalizePrints` | foundation/document-rendering/contract.ts:366-376 | the recursive printer prints the value rewritten with sorted entries at every depth |
| `Canonical.DeepKeeps` | foundation/document-rendering/contract.ts:366-376 | rewriting objects in order keeps values well formed and their meaning as data |
| `Canonical.CanonicalTextIsUnambiguous` | foundation/document-rendering/contract.ts:366-376 | equal canonical texts mean equal data up to entry order at every depth, for any comparison function |
| `Canonical.CanonicalTextIsComplete` | foundation/document-rendering/contract.ts:366-376 | for values listed in property order, texts are equal if and only if the data are, where no two keys of an object other than array indexes tie |
| `Canonical.CanonicalTextExactlyWhenSettled` | foundation/document-rendering/contract.ts:372-372 | all values in property order with the same meaning print alike if and only if the comparison ties no two keys of any object other than array indexes |
| `Canonical.IndexTiesSettle` | foundation/document-rendering/contract.ts:372-372 | an array index and another key may tie without any effect, because property order fixes their order |
| `Canonical.CanonicalValueIsComplete` | modules/accounting/src/financial-store-contract.ts:280-291 | the rebuilt value, with integer-like keys first, is equal exactly for equal data where no two other keys tie, whatever order entries come in |
| `Canonical.CanonicalValueIsIdempotent` | modules/accounting/src/financial-store-contract.ts:280-291 | rebuilding a rebuilt value changes nothing, whatever ties |
| `Canonical.CanonicalValueExactlyWhenSettled` | modules/accounting/src/financial-store-contract.ts:280-291 | all values in property order with the same meaning are rebuilt alike if and only if no two keys of any object other than array indexes tie |
| `Canonical.SortBefore` | foundation/document-rendering/contract.ts:372-372 | the entry sort is stable |
| `FinancialStore.CanonicalArrayIsUnambiguous` | modules/accounting/src/financial-store-contract.ts:295-298 | equal canonical arrays come from the same multiset of data, for any comparison function |
| `FinancialStore.CanonicalArrayIsComplete` | modules/accounting/src/financial-store-contract.ts:295-298 | canonical arrays are equal exactly for the same multiset of data where no keys and no texts tie |
| `FinancialStore.CanonicalArrayExactlyWhenUntied` | modules/accounting/src/financial-store-contract.ts:295-298 | all arrays of the same multiset of data, objects in property order, have one canonical array if and only if no keys and no texts tie |
| `StagingEvidence.TextsExact` | modules/accounting/src/financial-store-contract.ts:635-644 | texts of staging evidence are equal exactly when every canonical field is |
| `StagingEvidence.UnorderedExactly` | modules/accounting/src/financial-store-contract.ts:623-633 | the fields whose elements come in no order are exactly the nine captured ones |
| `StagingEvidence.TextIsUnambiguous` | modules/accounting/src/financial-store-contract.ts:635-644 | equal texts are of the same evidence: the same multiset in each unordered field and the same data in every other, for any comparison function |
| `StagingEvidence.TextExactlyWhenUntied` | modules/accounting/src/financial-store-contract.ts:635-644 | neither capture order nor property order changes the text, if and only if nothing in the evidence ties |
| `FinancialStore.FactsArrays` | modules/accounting/src/financial-store-contract.ts:301-307 | the two arrays of the facts text are the sorted observations, each as its canonical object |
| `FinancialStore.FactsTextExact` | modules/accounting/src/financial-store-contract.ts:301-307 | two facts texts are equal exactly when the sorted observations are |
| `FinancialStore.FactsTextIsUnambiguous` | modules/accounting/src/financial-store-contract.ts:301-307 | equal facts texts hold the same multisets of accounts and transfers, for any comparison function |
| `FinancialStore.FactsTextExactlyWhenUntied` | modules/accounting/src/financial-store-contract.ts:301-307 | every inventory of the same observations has the same facts text if and only if no two observations tie |
| `FinancialStore.AccountKeyExactly` | modules/accounting/src/financial-store-contract.ts:275-276 | account keys are equal exactly for the same reference, currency and mapping version |
| `FinancialStore.AccountFields` | modules/accounting/src/financial-store-contract.ts:295-307 | an account observation as an object, every value under its name |
| `FinancialStore.TransferFields` | modules/accounting/src/financial-store-contract.ts:295-307 | a transfer observation as an object, every value under its name |
| `FinancialStore.AccountTextInjective` | modules/accounting/src/financial-store-contract.ts:251-261 | the compared text of an account determines all its fields |
| `FinancialStore.TransferTextInjective` | modules/accounting/src/financial-store-contract.ts:263-273 | the compared text of a transfer determines all its fields |
| `FinancialStore.AppendBoundary` | modules/accounting/src/financial-store-contract.ts:351-381 | in order, exactly the boundary mismatches: authority and scope with both values, store-derived watermark |
| `FinancialStore.BoundaryExactly` | modules/accounting/src/financial-store-contract.ts:351-381 | boundaries are the same exactly when authority, scope and everything store-derived on the watermark agree |
| `FinancialStore.AppendMismatches` | modules/accounting/src/financial-store-contract.ts:383-433 | after what was reported before come exactly the repeated keys in ascending order, then exactly the missing, unexpected and changed keys in ascending order |
| `FinancialStore.CompareInventories` | modules/accounting/src/financial-store-contract.ts:439-448 | lists exactly what is due, in one order; clean exactly when both inventories share their boundary and hold the same observations without repeated keys; a clean comparison forces equal facts texts where nothing ties |
| `FinancialStore.ReportUnique` | modules/accounting/src/financial-store-contract.ts:383-448 | what is due and the order determine the report: one list meets the contract of the comparison |
| `Facts.DuplicateKeys` | modules/accounting/src/financial-readiness.ts:465-469 | the counting loop finds exactly the keys that occur more than once |
| `Facts.AgreementIsPermutation` | modules/accounting/src/financial-readiness.ts:482-496 | two repeat-free lists agree key by key exactly when one is a permutation of the other |
| `Texts.SortKeys` | modules/accounting/src/financial-readiness.ts:465-469 | the default sort of a set of keys: each key once, strictly ascending |
| `Texts.UnitsLeqExactly` | modules/accounting/src/financial-readiness.ts:465-469 | one text is no later than another exactly when it is a prefix, or has the smaller code unit where they first differ |
| `Facts.SortedExactlyWhenTieFree` | modules/accounting/src/financial-readiness.ts:460-464 | all permutations of a list sort to one list if and only if no two of its different facts compare equal |
| `Readiness.AppendMismatches` | modules/accounting/src/financial-readiness.ts:471-497 | after what was reported before comes exactly what one category must report: keys repeated in the source and in the target, each ascending, then missing and changed keys in the order of the source, then unexpected keys in the order of the target |
| `Readiness.TransferKeyExactly` | modules/accounting/src/financial-readiness.ts:499-505 | transfer keys are equal exactly for the same operation and position |
| `Readiness.BalanceKeyExactly` | modules/accounting/src/financial-readiness.ts:530-540 | balance keys are equal exactly for the same account, currency and mapping version |
| `Readiness.NothingReported` | modules/accounting/src/financial-readiness.ts:471-588 | a category reports nothing exactly when neither side repeats a key and the lists are permutations of each other |
| `Readiness.CompareSnapshots` | modules/accounting/src/financial-readiness.ts:590-600 | lists exactly the reportable mismatches, category by category in their order and each once; ok exactly when all four categories agree |
| `Readiness.ReportUnique` | modules/accounting/src/financial-readiness.ts:590-600 | what is reportable and the order determine the report: one list meets the contract of the comparison |
| `Readiness.TextsTellMismatches` | modules/accounting/src/financial-readiness.ts:471-588 | kind, detail and key tell the category and the finding of a mismatch |
| `Readiness.TextsRead` | modules/accounting/src/financial-readiness.ts:471-588 | the kind and detail of every mismatch, literally |
| `Readiness.CanonicalSnapshotIsComplete` | modules/accounting/src/financial-readiness.ts:610-618 | canonical snapshots are equal exactly for the same facts where nothing ties |
| `Readiness.CanonicalExactlyWhenSeparated` | modules/accounting/src/financial-readiness.ts:610-618 | a snapshot has one canonical form if and only if no two of its facts tie by key and text |
| `Readiness.SumBalance` | modules/accounting/src/financial-readiness.ts:641-644 | the printed sum of a balance field |
| `Readiness.SumsRead` | modules/accounting/src/financial-readiness.ts:641-644 | a balance adds its posted debits to one sum and its posted credits to the other |
| `Readiness.ListReads` | modules/accounting/src/financial-readiness.ts:602-608 | the hashed text of a list: its printed facts, comma separated, between brackets |
| `Readiness.BuildEvidence` | modules/accounting/src/financial-readiness.ts:646-687 | zero mismatches exactly when the snapshots agree, and then totals, counts and, where nothing ties, all four hashes are those of either side; the subject is stated trimmed with its currency in capitals |
| `OpeningBalances.VerifyOpeningBalances` | modules/accounting/src/financial-readiness.ts:689-760 | ok exactly when nothing is reported, exactly when both lists are free of repeated keys, have canonical amounts and are permutations up to currency letter case; exactly the keys with a finding are reported, ascending, each with the entries of both sides |
| `OpeningBalances.ReportsUnique` | modules/accounting/src/financial-readiness.ts:706-743 | one list of mismatches meets that contract |
| `OpeningBalances.NothingFound` | modules/accounting/src/financial-readiness.ts:706-743 | no key has a finding exactly when the lists verify |
| `OpeningBalances.FoundAnswers` | modules/accounting/src/financial-readiness.ts:706-743 | the finding under a key, the first that applies: repeated on a side, on one side only, an amount that is no canonical numeral, differing entries |
| `OpeningBalances.DifferingExactly` | modules/accounting/src/financial-readiness.ts:719-724 | a field mismatch names exactly the fields that differ |
| `OpeningBalances.SumsRead` | modules/accounting/src/financial-readiness.ts:382-385 | an entry adds its canonical amounts to the sums, and nothing for an amount that is none |
| `OpeningBalances.NormalKeyExactly` | modules/accounting/src/financial-readiness.ts:379-380 | keys are equal exactly for the same entity, account, currency up to letter case and mapping version, where entity ids have no colon |
| `OpeningBalances.VerifiedSums` | modules/accounting/src/financial-readiness.ts:745-751 | verified lists already have equal debit and credit sums: the sum test adds nothing |
| `OpeningBalances.VerdictIgnoresOrder` | modules/accounting/src/financial-readiness.ts:689-760 | the verdict does not depend on the order of either list |
| `GateGraph.Search.Visit` | tooling/roadmap-completion/registry.ts:1168-1181 | the recursive search ends, adds only real cycles, and leaves every gate it completes after the gates it depends on unless a cycle is reported |
| `GateGraph.Search.All` | tooling/roadmap-completion/registry.ts:1165-1182 | a cycle is reported exactly when the graph of known dependencies has one |
| `GateGraph.Duplicates` | tooling/roadmap-completion/registry.ts:1147-1151 | exactly the ids that occur twice |
| `GateGraph.Undeclared` | tooling/roadmap-completion/registry.ts:1153-1163 | exactly the unknown, self and late dependencies |
| `GateGraph.Validate` | tooling/roadmap-completion/registry.ts:1146-1185 | reported chains are real cycles, a cycle is reported exactly when there is one, each failure once, and nothing is reported exactly when ids are distinct and every dependency is declared strictly earlier |
| `GateGraph.OrderedIsAcyclic` | tooling/roadmap-completion/registry.ts:1165-1182 | an order in which every gate follows its dependencies rules out cycles |
| `RoadmapMeasure.Judge` | tooling/roadmap-completion/measure.ts:225-276 | one gate judged from the results so far: its status and the reason of the first check that fails |
| `RoadmapMeasure.HoldsStep` | tooling/roadmap-completion/measure.ts:225-276 | everything a gate rests on holds exactly when its own check and its direct dependencies do |
| `RoadmapMeasure.HoldsByKind` | tooling/roadmap-completion/measure.ts:225-276 | in a validated registry a composite gate holds exactly when it has dependencies and they all hold, and any other when its own check succeeds and they do |
| `RoadmapMeasure.Measure` | tooling/roadmap-completion/measure.ts:225-276 | one result a gate; a gate passes exactly when its own check and that of every gate reachable through dependencies pass, and its reason is the first thing that fails, for a registry the validation lets through |
| `AccountingBook.ValidateLines` | modules/accounting/src/domain-helpers.ts:21-35 | the loop finds the first fault of the lines |
| `AccountingBook.Fault` | modules/accounting/src/domain-helpers.ts:21-35 | no fault exactly for two or more one-sided lines with equal sums |
| `AccountingBook.NormalizedExactly` | modules/accounting/src/domain-helpers.ts:18-19 | normalised lines are equal exactly when the lines are the same multiset of account, minor debit and minor credit |
| `AccountingBook.AccountingService.CreateAccount` | modules/accounting/src/memory.ts:594-621 | accounts get the trimmed code in capitals, unless the tenant has it already |
| `AccountingBook.AccountingService.ConfigureRevenuePosting` | modules/accounting/src/memory.ts:622-662 | a profile is stored once, for an asset and a revenue account of the tenant |
| `AccountingBook.AccountingService.OpenPeriod` | modules/accounting/src/memory.ts:663-694 | a period is opened unless it overlaps one of its legal entity |
| `AccountingBook.AccountingService.ClosePeriod` | modules/accounting/src/memory.ts:695-719 | a period of the legal entity is closed |
| `AccountingBook.AccountingService.PostRevenueForOrder` | modules/accounting/src/memory.ts:720-804 | an entry under the order's reference, whoever posted it, is returned or conflicts by its first debit; otherwise revenue is booked on the profile in an open period |
| `AccountingBook.AccountingService.ReverseRevenueForOrder` | modules/accounting/src/memory.ts:805-868 | the stored revenue entry is reversed once, line by line |
| `AccountingBook.AccountingService.PostJournal` | modules/accounting/src/memory.ts:869-913 | a balanced journal on the tenant's accounts is stored once under its trimmed reference |
| `AccountingBook.SwapUndoes` | modules/accounting/src/memory.ts:860-864 | swapped lines book the opposite net on every account and exchange the sums |
| `AccountingBook.AddReversalKeeps` | modules/accounting/src/memory.ts:805-868 | a reversal keeps the book in order: it undoes the stored entry of the same order |
| `AccountingBook.AddPeriodKeeps` | modules/accounting/src/memory.ts:663-694 | periods of one legal entity never overlap |
| `BookAnswers.RevenueAnswers` | modules/accounting/src/memory.ts:746-804 | revenue under a free reference is booked exactly where there is a profile, posting is enabled, an open period covers the day and the event is taken; each refusal on its own condition, with the entries unchanged |
| `BookAnswers.RevenueRepeatAnswers` | modules/accounting/src/memory.ts:738-745 | a stored entry is returned exactly for the amount of its first debit |
| `BookAnswers.ReversalAnswers` | modules/accounting/src/memory.ts:805-868 | a reversal succeeds exactly where its reference is taken, or there is a profile, posting is enabled, an open period covers the day and the revenue is stored; each refusal on its own condition; the lines mirror the revenue's |
| `BookAnswers.AccountAnswers` | modules/accounting/src/memory.ts:594-621 | an account is created exactly where the tenant does not have its normalised code |
| `BookAnswers.ProfileAnswers` | modules/accounting/src/memory.ts:622-662 | each answer to a new profile, exactly on its condition |
| `BookAnswers.PeriodAnswers` | modules/accounting/src/memory.ts:663-694 | a period is opened exactly where no period of the entity shares a day with it |
| `BookAnswers.CloseAnswers` | modules/accounting/src/memory.ts:695-719 | closing finds exactly the entity's own period and changes nothing else |
| `BookAnswers.JournalAnswers` | modules/accounting/src/memory.ts:869-913 | each answer to a journal, exactly on its condition |
| `Texts.TrimExactly` | modules/accounting/src/memory.ts:886-886 | trimming takes white space off both ends, leaves none there and touches nothing between |
| `BookAnswers.FaultAnswers` | modules/accounting/src/domain-helpers.ts:21-35 | each fault exactly: too few lines, the first faulty line, or the two sums that differ |
| `BookRuns.RunKeepsBook` | modules/accounting/src/memory.ts:594-913 | over any run the book stays in order and no entry, account or profile ever changes |
| `BookRuns.ReversalsNetToZero` | modules/accounting/src/memory.ts:805-868 | in every reachable book each entry balances, and each reversed entry names a stored entry of its tenant and nets it to zero on every account |
| `BookRuns.ReversedOnce` | modules/accounting/src/domain-helpers.ts:9-13 | in every reachable book no entry is reversed twice |
| `BookRuns.PostedJournalReplays` | modules/accounting/src/memory.ts:886-902 | however much later, posting under the same reference changes nothing and returns the stored entry exactly when the lines are the same multiset in minor units; otherwise it conflicts |
| `BookRuns.RevenueReplays` | modules/accounting/src/memory.ts:738-745 | posting an order's revenue again, however much later, returns the stored entry for the same amount text and conflicts for another |
| `BookRuns.SameAmountConflicts` | modules/accounting/src/memory.ts:738-745 | revenue booked as `10` and repeated as `10.00`, the same amount, is refused as a conflict |
| `BookRuns.RevenueBooks` | modules/accounting/src/memory.ts:746-804 | where nothing is stored under the order's reference, revenue is booked on a day of an open period, debits the tenant's receivable asset and credits its revenue account by the order total, and touches nothing else |
| `BookRuns.RevenueAnswersExactly` | modules/accounting/src/memory.ts:720-804 | over any run, the entry a revenue answer returns books the amount on the stored profile if and only if no journal posted by hand took the order's reference or the lines of that journal net to the same; where one took it, the entry is that journal |
| `BookRuns.PlainEntryTakesRevenue` | modules/accounting/src/memory.ts:738-745 | a journal posted by hand under an order's reference is what posting its revenue returns, with no profile, open period or event |
| `BookRuns.ClosedStaysClosed` | modules/accounting/src/memory.ts:695-719 | no day of a closed period is ever open for posting again, over any run |
| `BookRuns.CodeStaysTaken` | modules/accounting/src/memory.ts:602-612 | an account code stays taken in its tenant, however it is spelled |
| `BookRuns.ReversalReplays` | modules/accounting/src/memory.ts:814-816 | reversing an order again, however much later, changes nothing and returns the entry the first reversal returned |
| `BookRuns.ReversesExactly` | modules/accounting/src/memory.ts:805-868 | a reversal that succeeds returns a reversing entry that nets the order to zero if and only if no journal posted by hand holds the reversal reference |
| `BookRuns.PlainEntryTakesReversal` | modules/accounting/src/memory.ts:869-913 | a journal posted by hand under a reversal reference is what reversing the order returns, and it reverses nothing |
| `Cutover.CutoverControls.ConfigureLegalEntity` | modules/accounting/src/memory.ts:555-593 | a configuration is stored once, together with its control |
| `Cutover.CutoverControls.RecordVerificationArtifact` | modules/accounting/src/memory.ts:297-365 | evidence of a configured entity in its currency is hashed, signed and stored |
| `Cutover.CutoverControls.PrepareTigerBeetleCutover` | modules/accounting/src/memory.ts:366-398 | preparation moves a control on from PostgreSQL only |
| `Cutover.CutoverControls.ApproveTigerBeetleCutover` | modules/accounting/src/memory.ts:399-534 | approval with all its refusals, in order |
| `Cutover.CutoverControls.ActivateTigerBeetleCutover` | modules/accounting/src/memory.ts:535-554 | activation answers only for an already active control |
| `Cutover.RunKeepsControls` | modules/accounting/src/memory.ts:297-593 | over any run evidence and configurations are kept, no control goes back and an approved one never changes |
| `Cutover.ApprovalsAreSupported` | modules/accounting/src/memory.ts:108-134 | every reachable control is untouched, preparing or approved; an approved one passes the approval check and names a stored zero-mismatch rehearsal artifact of its legal entity whose digest is its verification hash |
| `Cutover.ActivationStaysBlocked` | modules/accounting/src/memory.ts:535-554 | no run ever reaches activation |
| `Cutover.OneStepForward` | modules/accounting/src/memory.ts:366-534 | only preparing leaves PostgreSQL and only approving leaves preparation |
| `Cutover.ApprovesExactly` | modules/accounting/src/memory.ts:399-534 | an approval in preparation succeeds exactly for a stored zero-mismatch rehearsal artifact of the entity in its currency with an accepted signature; the status and digest tests add nothing |
| `Cutover.OtherTenantsEvidenceApproves` | modules/accounting/src/memory.ts:399-534 | a reachable run in which evidence recorded by one tenant approves the cutover of another with the same legal entity id |
| `Cutover.StepOwnsExactly` | modules/accounting/src/memory.ts:399-534 | a step keeps every approval on evidence of its own tenant if and only if it is not an approval naming an artifact of another tenant |
| `Cutover.RunOwnsExactly` | modules/accounting/src/memory.ts:297-593 | a run leaves every approval on evidence of its own tenant if and only if no approval in it crosses tenants |
| `Cutover.OneTenantPerEntity` | modules/accounting/src/memory.ts:555-593 | where each legal entity id is configured by one tenant, every approval rests on evidence of its own tenant |
| `Cutover.RehearsalApproves` | modules/accounting/src/memory.ts:297-534 | recorded rehearsal evidence approves the prepared cutover it was recorded for if and only if the keyring, or without one the signer, accepts what the signer signed |
| `Cutover.CutoverCanComplete` | modules/accounting/src/memory.ts:297-593 | with such a signature, under a keyring or not, a legal entity not configured before reaches approval by configuring, preparing, recording a rehearsal and approving |
| `CutoverAnswers.ApprovalIsFinal` | modules/accounting/src/memory.ts:420-429 | after an approval, however much later, approving again changes nothing and returns the control for the same artifact only; any other artifact id is refused as a verification mismatch |
| `CutoverAnswers.NotPreparedExactly` | modules/accounting/src/memory.ts:409-419 | not prepared is answered exactly for an absent control or one still on PostgreSQL |
| `CutoverAnswers.ApprovalAnswers` | modules/accounting/src/memory.ts:430-515 | each answer to an approval in preparation, exactly on its condition |
| `CutoverAnswers.ApprovedRecords` | modules/accounting/src/memory.ts:516-534 | everything an approval writes on the control |
| `CutoverAnswers.ConfigureAnswers` | modules/accounting/src/memory.ts:555-593 | each answer to a configuration, exactly on its condition, and what it stores |
| `CutoverAnswers.RecordAnswers` | modules/accounting/src/memory.ts:297-365 | each answer to recorded evidence, exactly on its condition, and what it stores |
| `CutoverAnswers.PrepareAnswers` | modules/accounting/src/memory.ts:366-398 | each answer to a preparation, exactly on its condition, and what it stores |
| `CutoverAnswers.ActivationAnswers` | modules/accounting/src/memory.ts:535-554 | activation answers exactly for an active control |
| `CutoverAnswers.NeverBack` | modules/accounting/src/memory.ts:297-593 | over any run an approved control stays as it is, and a prepared one stays prepared or is approved |
| `ArtifactStore.DocumentArtifactStore.PutArtifact` | foundation/document-rendering/memory.ts:104-130 | content check, fence, then storing; the caller's array is copied and left alone |
| `ArtifactStore.DocumentArtifactStore.PersistArtifact` | foundation/document-rendering/memory.ts:51-97 | identity and content conflicts, the idempotent repeat, and the first write |
| `ArtifactStore.DocumentArtifactStore.Get` | foundation/document-rendering/memory.ts:132-138 | the stored artifact with a fresh copy of its bytes |
| `ArtifactStore.RunKeepsStore` | foundation/document-rendering/memory.ts:51-138 | over any run stored content and id bindings stay, generations never go back, and stored bytes match their hash and length |
| `ArtifactStore.FirstWriteStays` | foundation/document-rendering/memory.ts:51-138 | what the first successful write stores is what every later lookup finds |
| `ArtifactStore.StoredIsTheContent` | foundation/document-rendering/memory.ts:72-87 | a write is answered with stored content only if that has the hash and length of the bytes written |
| `ArtifactStore.IdentityStays` | foundation/document-rendering/memory.ts:60-71 | however much later, a bound artifact id never stands for another fingerprint: such a write changes nothing |
| `ArtifactStore.BindsExactly` | foundation/document-rendering/memory.ts:60-95 | an accepted write leaves its id bound if and only if its content was new or the id was bound before |
| `ArtifactStore.RepeatLeavesIdFree` | foundation/document-rendering/memory.ts:72-87 | stored content repeated under a new id is accepted, and that id is later accepted for another fingerprint |
| `ArtifactStore.OlderGenerationsAreFenced` | foundation/document-rendering/memory.ts:118-128 | once a generation is accepted in a scope no older one ever changes anything |
| `ArtifactStore.GenerationIsHighest` | foundation/document-rendering/memory.ts:85-95 | the recorded generation is the largest one that wrote in the scope |
| `ArtifactStore.PutAnswers` | foundation/document-rendering/memory.ts:51-130 | every answer to a write, exactly on its condition and with its values, and what it stores |
| `ArtifactStore.StaleIsTold` | foundation/document-rendering/memory.ts:118-128 | over any run a stale writer is told exactly its own generation and the largest one accepted in its scope |
| `ArtifactStore.RetryIsIdempotent` | foundation/document-rendering/memory.ts:72-87 | repeating an accepted write changes nothing and answers the same |
| `MigrationCatalog.ValidateOrder` | platform/postgres/migrations.ts:37-74 | the first loop accepts exactly the catalogues of valid migrations strictly increasing in name, time and version |
| `MigrationCatalog.NameExactly` | platform/postgres/migrations.ts:27-27 | a name is fourteen digits and one or more words of small letters and digits, each after an underscore |
| `MigrationCatalog.HashExactly` | platform/postgres/migrations.ts:70-72 | a checksum is sixty-four small hexadecimal digits |
| `MigrationCatalog.NamesFollowVersions` | platform/postgres/migrations.ts:67-67 | names with different versions are ordered as the numbers their fourteen digits denote |
| `MigrationCatalog.OrderedExactly` | platform/postgres/migrations.ts:37-74 | a catalogue is ordered exactly when its migrations are valid and their version numbers and times ascend |
| `MigrationCatalog.AcceptsExactlyAscending` | platform/postgres/migrations.ts:31-74 | valid migrations are accepted as a new catalogue exactly when these numbers and times ascend |
| `MigrationCatalog.WrongAnswers` | platform/postgres/migrations.ts:43-72 | the tests of a migration in their order, each error exactly where its test is the first to fail |
| `MigrationCatalog.RowWrongAnswers` | platform/postgres/migrations.ts:82-98 | the tests of an applied row in their order |
| `MigrationCatalog.ValidateApplied` | platform/postgres/migrations.ts:76-102 | the second loop accepts exactly the rows that record migrations in catalogue order |
| `MigrationCatalog.ValidateGaps` | platform/postgres/migrations.ts:104-112 | the third loop finds a gap exactly when there is one |
| `MigrationCatalog.ValidateCatalog` | platform/postgres/migrations.ts:31-113 | accepts exactly the acceptable catalogues and histories, and otherwise names the first thing wrong with them |
| `MigrationCatalog.AcceptsExactlyPrefixes` | platform/postgres/migrations.ts:76-113 | a history with all names is accepted exactly when it is a prefix of the catalogue with equal checksums and versions |
| `MigrationCatalog.PendingKeepsAccepted` | platform/postgres/migrations.ts:76-113 | applying the next pending migrations keeps the catalogue accepted |

## Left out

- HTTP handlers, API schemas, authorisation and schema decoding: inputs are taken as authorised and well typed.
- The TigerBeetle engine's own checks (linked chains, account limits), account creation and balance reading in the adapter: only the transfers it stores and returns are modelled.
- PostgreSQL adapters, the migrator run and the Drizzle tables: foreign code; only the rows read back are modelled.
- SHA-256, Ed25519, base64url and time stamps: functions passed in, without their algorithms.
- Full Unicode `toUpperCase`: ASCII letters for currencies in the ledgers, a parameter elsewhere.
- JSON numbers are kept as their printed tokens, without the conversion of binary floating point to text.
- Exponents of money that are not integers, which the program refuses as invalid.
- Composite keys are joined strings in the ledgers, as in the source, and pairs of tenant and name where the tenant is a UUID; ids minted by the program are numbers.
- TigerBeetle.OthersAreNotFound: takes the digest to be injective, which a 128-bit hash only is in practice; the same holds of the other statements under that hypothesis.
- Failure texts of the gate validation: failures are values, and repeated failures are recognised by value rather than by text.
- The printed text of a fact in a snapshot is a parameter; comparing two printed facts is comparing the facts.
- `postedAt`, names of events and messages: the book keeps what its invariants speak of.
- The accounting service's lists of accounts, periods, entries and configurations: they return what the modelled collections hold, filtered by tenant.
- The staging telemetry and the schema checks of staging evidence (`modules/accounting/src/financial-store-contract.ts` from line 450): a measurement record that no modelled operation reads.
- `modules/accounting/src/financial-observation.ts`: SQL scans that collect an inventory; what is compared afterwards is modelled.
- `runtime/workload/admission.ts`: it splits a capacity between commands and other work, apart from all financial state.
- `runtime/migrator/p0-backfill.ts`: SQL that fills scope columns of stock and party tables once.
- The marker, command and evidence checks of the roadmap measure are given truth values per gate; the two texts for a passing marker gate are one value.
- Amounts of ledger journals and fact snapshots are numbers where the schemas admit canonical numerals only; a migration's recorded time is an integer.
- Dates are integers: ISO dates compare as the days they name.
- TigerBeetle.PostThenReconcile: needs the transfer ids of different places to differ, because the digest is abstract.
- TigerBeetle.AcceptedMeansPosted: needs the engine id of the account to differ from those of the other accounts named, because the digest is abstract.
- LedgerRuns.RunStaysBalanced: asks for an account on at most one line of every booked journal, which a caller can check without knowing line order; `LedgerRuns.RunStaysBalancedExactly` has the exact condition.
- LedgerRuns.RunConserves: needs every booked journal to name an account on at most one line, because the program does not apply the others in full: `LedgerRuns.RunConservesExactly` shows the condition exact, and `LedgerRuns.RunKeepsEach` covers all journals.
