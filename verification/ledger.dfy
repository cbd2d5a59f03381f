/**
 * The in-memory financial ledger: accounts, balances and recorded operations, with injected
 * faults. Keys are the joined strings the program uses, so distinct inputs may share a key.
 */
module MemoryLedger {
  import opened Optional
  import opened Decimal
  import opened Journals
  import opened Pairing
  import JournalValidation

  datatype Constraint = NoConstraint | DebitsMustNotExceedCredits | CreditsMustNotExceedDebits

  datatype Account = Account(
    tenantId: string, legalEntityId: string, accountId: string, currency: string,
    mappingVersion: nat, balanceConstraint: Constraint)

  datatype Balance = Balance(debitsPosted: nat, creditsPosted: nat)

  datatype Fingerprint = Fingerprint(
    journalId: string, reference: string, currency: string, mappingVersion: nat, lines: seq<string>)

  datatype Operation = Operation(fingerprint: Fingerprint, outcome: Outcome)

  /** The injected faults, each naming an operation id. */
  datatype Options = Options(
    loseResponseFor: Option<string>, failBeforeSubmissionFor: Option<string>, unavailableFor: Option<string>,
    unavailableOnceFor: Option<string>, corruptTransferIdsFor: Option<string>)

  datatype State = State(
    accounts: map<string, Account>, balances: map<string, Balance>, operations: map<string, Operation>,
    lost: set<string>, failedBefore: set<string>, unavailableOnce: set<string>)

  const Initial := State(map[], map[], map[], {}, {}, {})

  function KeyPrefix(tenantId: string, legalEntityId: string): string {
    tenantId + ":" + legalEntityId + ":"
  }

  function KeySuffix(currency: string, mappingVersion: nat): string {
    ":" + Upper(currency) + ":" + Print(mappingVersion)
  }

  function AccountKey(account: Account): string {
    KeyPrefix(account.tenantId, account.legalEntityId) + account.accountId + KeySuffix(account.currency, account.mappingVersion)
  }

  /** The balance key a journal uses for one of its accounts. */
  function LineKey(journal: Journal, accountId: string): string {
    KeyPrefix(journal.tenantId, journal.legalEntityId) + accountId + KeySuffix(journal.currency, journal.mappingVersion)
  }

  function OperationKey(journal: Journal): string {
    journal.tenantId + ":" + journal.legalEntityId + ":" + journal.operationId
  }

  function LineText(line: Line): string {
    line.accountId + ":" + Print(line.debitMinor) + ":" + Print(line.creditMinor)
  }

  function FingerprintOf(journal: Journal): Fingerprint {
    Fingerprint(journal.journalId, journal.reference, Upper(journal.currency), journal.mappingVersion,
                seq(|journal.lines|, i requires 0 <= i < |journal.lines| => LineText(journal.lines[i])))
  }

  function TransferIds(journal: Journal): seq<string> {
    seq(|JournalPairs(journal.lines)|, i requires i >= 0 => "transfer:" + OperationKey(journal) + ":" + Print(i))
  }

  function ReturnedIds(options: Options, journal: Journal): seq<string> {
    var ids := TransferIds(journal);
    if options.corruptTransferIdsFor == Some(journal.operationId) && ids != [] then [ids[0] + ":corrupt"] + ids[1..] else ids
  }

  function RecordedOutcome(options: Options, journal: Journal): Outcome {
    Accepted(journal.operationId, journal.mappingVersion, "0", |JournalPairs(journal.lines)|, ReturnedIds(options, journal))
  }

  /** The account is in the part of the ledger the journal addresses. */
  predicate Addresses(journal: Journal, account: Account) {
    && account.tenantId == journal.tenantId && account.legalEntityId == journal.legalEntityId
    && Upper(account.currency) == Upper(journal.currency) && account.mappingVersion == journal.mappingVersion
  }

  predicate Known(s: State, journal: Journal, accountId: string) {
    exists key :: key in s.accounts && Addresses(journal, s.accounts[key]) && s.accounts[key].accountId == accountId
  }

  predicate Violates(constraint: Constraint, balance: Balance) {
    match constraint
    case DebitsMustNotExceedCredits => balance.debitsPosted > balance.creditsPosted
    case CreditsMustNotExceedDebits => balance.creditsPosted > balance.debitsPosted
    case NoConstraint => false
  }

  predicate Allowed(account: Account, balance: Balance) {
    balance.debitsPosted <= U128_MAX && balance.creditsPosted <= U128_MAX && !Violates(account.balanceConstraint, balance)
  }

  // ---- The transitions ----------------------------------------------------

  function NextBalance(s: State, journal: Journal, line: Line): Balance
    requires LineKey(journal, line.accountId) in s.balances
  {
    var current := s.balances[LineKey(journal, line.accountId)];
    Balance(current.debitsPosted + line.debitMinor, current.creditsPosted + line.creditMinor)
  }

  /**
   * The balances staged by the first `n` lines, or nothing once a line breaks a bound or its
   * account's constraint. Every line starts from the posted balance, not from a staged one.
   */
  function Staged(s: State, journal: Journal, n: nat): Option<map<string, Balance>>
    requires n <= |journal.lines|
  {
    if n == 0 then Some(map[]) else
      var before := Staged(s, journal, n - 1);
      var line := journal.lines[n - 1];
      var key := LineKey(journal, line.accountId);
      if before.None? || key !in s.balances || key !in s.accounts then before
      else if !Allowed(s.accounts[key], NextBalance(s, journal, line)) then None
      else Some(before.value[key := NextBalance(s, journal, line)])
  }

  function CreateAccount(s: State, account: Account): State {
    var key := AccountKey(account);
    if key in s.accounts then s
    else s.(accounts := s.accounts[key := account], balances := s.balances[key := Balance(0, 0)])
  }

  predicate FailsUnavailable(o: Options, s: State, journal: Journal) {
    || o.unavailableFor == Some(journal.operationId)
    || (o.unavailableOnceFor == Some(journal.operationId) && OperationKey(journal) !in s.unavailableOnce)
  }

  predicate FailsBeforeSubmission(o: Options, s: State, journal: Journal) {
    o.failBeforeSubmissionFor == Some(journal.operationId) && OperationKey(journal) !in s.failedBefore
  }

  /** The journal passes every check and its operation is not recorded yet. */
  predicate Records(o: Options, s: State, journal: Journal) {
    && !FailsUnavailable(o, s, journal) && !FailsBeforeSubmission(o, s, journal)
    && Verdict(journal.lines).None?
    && (forall i :: 0 <= i < |journal.lines| ==> Known(s, journal, journal.lines[i].accountId))
    && OperationKey(journal) !in s.operations
    && Bookable(s, journal)
  }

  /** The state once the staged balances and the operation are written. */
  function Booked(o: Options, s: State, journal: Journal): State
    requires Staged(s, journal, |journal.lines|).Some?
  {
    s.(balances := s.balances + Staged(s, journal, |journal.lines|).value,
       operations := s.operations[OperationKey(journal) := Operation(FingerprintOf(journal), RecordedOutcome(o, journal))])
  }

  function Post(o: Options, s: State, journal: Journal): (State, Outcome) {
    var key := OperationKey(journal);
    if FailsUnavailable(o, s, journal) then
      (s.(unavailableOnce := s.unavailableOnce + {key}), Unknown(journal.operationId, Unavailable))
    else if FailsBeforeSubmission(o, s, journal) then
      (s.(failedBefore := s.failedBefore + {key}), Unknown(journal.operationId, ResponseLost))
    else if Verdict(journal.lines).Some? then (s, Rejected(journal.operationId, Verdict(journal.lines).value))
    else if exists i :: 0 <= i < |journal.lines| && !Known(s, journal, journal.lines[i].accountId) then
      (s, Rejected(journal.operationId, InvalidAccount))
    else if key in s.operations then
      (s, if s.operations[key].fingerprint == FingerprintOf(journal) then s.operations[key].outcome
          else ManualRecovery(journal.operationId, ConflictingReplay))
    else Submit(o, s, journal)
  }

  /** The journal can be booked: every staged balance is allowed and no account is on both sides. */
  predicate Bookable(s: State, journal: Journal) {
    Staged(s, journal, |journal.lines|).Some? && JournalPairs(journal.lines) != [] && !TwoSidedAccount(journal.lines)
  }

  /** The first submission of an operation whose journal is valid and names known accounts only. */
  function Submit(o: Options, s: State, journal: Journal): (State, Outcome) {
    var key := OperationKey(journal);
    if !Bookable(s, journal) then (s, Rejected(journal.operationId, ConstraintViolation))
    else
      if o.loseResponseFor == Some(journal.operationId) && key !in s.lost then
        (Booked(o, s, journal).(lost := s.lost + {key}), Unknown(journal.operationId, ResponseLost))
      else (Booked(o, s, journal), RecordedOutcome(o, journal))
  }

  function Reconcile(o: Options, s: State, journal: Journal): Outcome {
    if o.unavailableFor == Some(journal.operationId) then Unknown(journal.operationId, Unavailable)
    else if OperationKey(journal) !in s.operations then Unknown(journal.operationId, NotFound)
    else if s.operations[OperationKey(journal)].fingerprint == FingerprintOf(journal) then
      s.operations[OperationKey(journal)].outcome
    else ManualRecovery(journal.operationId, ConflictingReplay)
  }

  // ---- The invariant ------------------------------------------------------

  /** Accounts sit under their own keys, each with a balance within 128 bits and its constraint. */
  ghost predicate Inv(s: State) {
    && s.balances.Keys == s.accounts.Keys
    && (forall key :: key in s.accounts ==> AccountKey(s.accounts[key]) == key && Allowed(s.accounts[key], s.balances[key]))
    && (forall key :: key in s.operations ==> s.operations[key].outcome.Accepted?)
  }

  lemma KnownByKey(s: State, journal: Journal, accountId: string)
    requires Inv(s)
    ensures Known(s, journal, accountId) ==>
              LineKey(journal, accountId) in s.accounts && LineKey(journal, accountId) in s.balances
              && Addresses(journal, s.accounts[LineKey(journal, accountId)])
              && s.accounts[LineKey(journal, accountId)].accountId == accountId
  {
    if Known(s, journal, accountId) {
      var key :| key in s.accounts && Addresses(journal, s.accounts[key]) && s.accounts[key].accountId == accountId;
      assert key == AccountKey(s.accounts[key]) == LineKey(journal, accountId);
    }
  }

  lemma {:induction false} StagedAllowed(s: State, journal: Journal, n: nat)
    requires Inv(s) && n <= |journal.lines| && Staged(s, journal, n).Some?
    ensures Staged(s, journal, n).value.Keys <= s.accounts.Keys
    ensures forall key :: key in Staged(s, journal, n).value ==> Allowed(s.accounts[key], Staged(s, journal, n).value[key])
  {
    if n > 0 {
      StagedAllowed(s, journal, n - 1);
    }
  }

  lemma BookedKeepsInv(o: Options, s: State, journal: Journal)
    requires Inv(s) && Staged(s, journal, |journal.lines|).Some?
    ensures Inv(Booked(o, s, journal))
  {
    StagedAllowed(s, journal, |journal.lines|);
    hide Staged, AccountKey, Allowed, FingerprintOf, OperationKey, ReturnedIds, JournalPairs;
  }

  lemma PostKeepsInv(o: Options, s: State, journal: Journal)
    requires Inv(s)
    ensures Inv(Post(o, s, journal).0)
  {
    hide Staged, AccountKey, Allowed, Booked, Known, Verdict, JournalPairs, OperationKey, FingerprintOf, RecordedOutcome;
    if Bookable(s, journal) {
      BookedKeepsInv(o, s, journal);
    }
  }

  // ---- The ledger object --------------------------------------------------

  datatype AccountOutcome = AccountAccepted(accountId: string, mappingVersion: nat) | AccountMismatch(accountId: string)

  datatype BalanceOutcome =
    | Available(accountId: string, mappingVersion: nat, debitsPostedMinor: string, creditsPostedMinor: string)
    | BalanceNotFound(accountId: string)

  predicate SameAccount(left: Account, right: Account) {
    && left.tenantId == right.tenantId && left.legalEntityId == right.legalEntityId
    && left.accountId == right.accountId && Upper(left.currency) == Upper(right.currency)
    && left.mappingVersion == right.mappingVersion && left.balanceConstraint == right.balanceConstraint
  }

  class FinancialLedger {
    const options: Options
    var accounts: map<string, Account>
    var balances: map<string, Balance>
    var operations: map<string, Operation>
    var lost: set<string>
    var failedBefore: set<string>
    var unavailableOnce: set<string>

    constructor (options: Options)
      ensures Abs() == Initial && this.options == options
    {
      this.options := options;
      accounts, balances, operations := map[], map[], map[];
      lost, failedBefore, unavailableOnce := {}, {}, {};
    }

    ghost function Abs(): State
      reads this
    {
      State(accounts, balances, operations, lost, failedBefore, unavailableOnce)
    }

    method CreateExecutionAccount(account: Account) returns (outcome: AccountOutcome)
      modifies this
      ensures Abs() == CreateAccount(old(Abs()), account)
      ensures outcome == if AccountKey(account) !in old(accounts) || SameAccount(old(accounts)[AccountKey(account)], account)
                         then AccountAccepted(account.accountId, account.mappingVersion) else AccountMismatch(account.accountId)
    {
      var key := AccountKey(account);
      if key in accounts {
        return if SameAccount(accounts[key], account) then AccountAccepted(account.accountId, account.mappingVersion)
        else AccountMismatch(account.accountId);
      }
      accounts := accounts[key := account];
      balances := balances[key := Balance(0, 0)];
      return AccountAccepted(account.accountId, account.mappingVersion);
    }

    /** The loop over the lines: each line's new balance is staged, or the journal is refused. */
    method StageBalances(journal: Journal) returns (staged: Option<map<string, Balance>>)
      requires Inv(Abs())
      requires forall i :: 0 <= i < |journal.lines| ==> Known(Abs(), journal, journal.lines[i].accountId)
      ensures staged == Staged(Abs(), journal, |journal.lines|)
    {
      hide AccountKey, Inv, Known, LineKey;
      var lineBalances: map<string, Balance> := map[];
      for i := 0 to |journal.lines|
        invariant Staged(Abs(), journal, i) == Some(lineBalances)
      {
        var line := journal.lines[i];
        var balanceKey := LineKey(journal, line.accountId);
        KnownByKey(Abs(), journal, line.accountId);
        var account := accounts[balanceKey];
        var current := balances[balanceKey];
        var next := Balance(current.debitsPosted + line.debitMinor, current.creditsPosted + line.creditMinor);
        if next.debitsPosted > U128_MAX || next.creditsPosted > U128_MAX || Violates(account.balanceConstraint, next) {
          StagedNone(Abs(), journal, i + 1, |journal.lines|);
          return None;
        }
        lineBalances := lineBalances[balanceKey := next];
      }
      return Some(lineBalances);
    }

    method PostJournal(journal: Journal) returns (outcome: Outcome)
      requires Inv(Abs())
      modifies this
      ensures (Abs(), outcome) == Post(options, old(Abs()), journal)
      ensures Inv(Abs())
    {
      PostKeepsInv(options, Abs(), journal);
      hide AccountKey, Submit, OperationKey, FingerprintOf, Inv, Verdict;
      var key := OperationKey(journal);
      if options.unavailableFor == Some(journal.operationId)
         || (options.unavailableOnceFor == Some(journal.operationId) && key !in unavailableOnce) {
        unavailableOnce := unavailableOnce + {key};
        return Unknown(journal.operationId, Unavailable);
      }
      if options.failBeforeSubmissionFor == Some(journal.operationId) && key !in failedBefore {
        failedBefore := failedBefore + {key};
        return Unknown(journal.operationId, ResponseLost);
      }
      var validation := JournalValidation.MemoryValidation(journal.lines);
      if validation.Some? {
        return Rejected(journal.operationId, validation.value);
      }
      var accountIds := set k | k in accounts.Keys && Addresses(journal, accounts[k]) :: accounts[k].accountId;
      assert forall id :: id in accountIds <==> Known(Abs(), journal, id);
      if exists i :: 0 <= i < |journal.lines| && journal.lines[i].accountId !in accountIds {
        return Rejected(journal.operationId, InvalidAccount);
      }
      var fingerprint := FingerprintOf(journal);
      if key in operations {
        if operations[key].fingerprint != fingerprint {
          return ManualRecovery(journal.operationId, ConflictingReplay);
        }
        return operations[key].outcome;
      }
      outcome := SubmitJournal(journal, fingerprint);
    }

    method SubmitJournal(journal: Journal, fingerprint: Fingerprint) returns (outcome: Outcome)
      requires Inv(Abs()) && fingerprint == FingerprintOf(journal)
      requires forall i :: 0 <= i < |journal.lines| ==> Known(Abs(), journal, journal.lines[i].accountId)
      modifies this
      ensures (Abs(), outcome) == Submit(options, old(Abs()), journal)
    {
      hide Staged, AccountKey, LineKey, Allowed, JournalPairs, OperationKey, FingerprintOf, Inv, TwoSidedAccount, Known;
      var key := OperationKey(journal);
      var transferCount := CountTransfers(journal.lines);
      var staged := StageBalances(journal);
      if staged.None? || transferCount == 0 || TwoSidedAccount(journal.lines) {
        return Rejected(journal.operationId, ConstraintViolation);
      }
      balances := balances + staged.value;
      var returned := ReturnedIds(options, journal);
      outcome := Accepted(journal.operationId, journal.mappingVersion, "0", |returned|, returned);
      operations := operations[key := Operation(fingerprint, outcome)];
      if options.loseResponseFor == Some(journal.operationId) && key !in lost {
        lost := lost + {key};
        return Unknown(journal.operationId, ResponseLost);
      }
    }

    method ReconcileJournal(journal: Journal) returns (outcome: Outcome)
      ensures outcome == Reconcile(options, Abs(), journal)
    {
      if options.unavailableFor == Some(journal.operationId) {
        return Unknown(journal.operationId, Unavailable);
      }
      var key := OperationKey(journal);
      if key !in operations {
        return Unknown(journal.operationId, NotFound);
      }
      return if operations[key].fingerprint == FingerprintOf(journal) then operations[key].outcome
      else ManualRecovery(journal.operationId, ConflictingReplay);
    }

    /** A balance is readable exactly where a created account has the key, and reads as the amounts posted under it. */
    method GetBalance(account: Account) returns (outcome: BalanceOutcome)
      requires Inv(Abs())
      ensures outcome == if AccountKey(account) !in accounts then BalanceNotFound(account.accountId)
                         else Available(account.accountId, account.mappingVersion,
                                        Print(balances[AccountKey(account)].debitsPosted),
                                        Print(balances[AccountKey(account)].creditsPosted))
    {
      var key := AccountKey(account);
      if (exists k :: k in accounts.Keys && AccountKey(accounts[k]) == key) && key in balances {
        return Available(account.accountId, account.mappingVersion,
                         Print(balances[key].debitsPosted), Print(balances[key].creditsPosted));
      }
      return BalanceNotFound(account.accountId);
    }
  }

  lemma {:induction false} StagedNone(s: State, journal: Journal, n: nat, m: nat)
    requires n <= m <= |journal.lines| && Staged(s, journal, n).None?
    ensures Staged(s, journal, m).None?
  {
    if n < m {
      StagedNone(s, journal, n, m - 1);
    }
  }
}
