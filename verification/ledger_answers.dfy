/** What the in-memory ledger answers, and when, said of the inputs and the posted balances alone. */
module LedgerAnswers {
  import opened Optional
  import opened Decimal
  import opened Journals
  import opened Pairing
  import opened MemoryLedger
  import opened LedgerRuns

  /** The first amount that does not fit in 128 bits. */
  const TOO_LARGE: nat := 0x1_0000_0000_0000_0000_0000_0000_0000_0000

  /** What an account's constraint allows its posted debits and credits to be. */
  predicate Keeps(constraint: Constraint, debits: nat, credits: nat) {
    && (constraint == DebitsMustNotExceedCredits ==> debits <= credits)
    && (constraint == CreditsMustNotExceedDebits ==> credits <= debits)
  }

  lemma AllowedExactly(account: Account, balance: Balance)
    ensures Allowed(account, balance) <==>
            balance.debitsPosted < TOO_LARGE && balance.creditsPosted < TOO_LARGE
            && Keeps(account.balanceConstraint, balance.debitsPosted, balance.creditsPosted)
  {
  }

  /** In every state a run reaches, every account's balance fits in 128 bits and keeps its constraint. */
  lemma ConstraintsHold(o: Options, commands: seq<Command>, key: string)
    requires key in Run(o, Initial, commands).accounts
    ensures var s := Run(o, Initial, commands);
            && key in s.balances && s.balances[key].debitsPosted < TOO_LARGE && s.balances[key].creditsPosted < TOO_LARGE
            && (s.accounts[key].balanceConstraint == DebitsMustNotExceedCredits ==>
                  s.balances[key].debitsPosted <= s.balances[key].creditsPosted)
            && (s.accounts[key].balanceConstraint == CreditsMustNotExceedDebits ==>
                  s.balances[key].creditsPosted <= s.balances[key].debitsPosted)
  {
    var s := Run(o, Initial, commands);
    assert Inv(Initial);
    RunKeepsInv(o, Initial, commands);
    AllowedExactly(s.accounts[key], s.balances[key]);
    hide Run, Allowed, AccountKey;
  }

  /** Some account has a debit and a credit. */
  predicate OnBothSides(lines: seq<Line>) {
    exists i, k :: 0 <= i < |lines| && 0 <= k < |lines| && lines[i].accountId == lines[k].accountId
                   && lines[i].debitMinor > 0 && lines[k].creditMinor > 0
  }

  /** The line's amounts, added to what its account has posted, do not fit or break the account's constraint. */
  predicate Breaks(s: State, journal: Journal, line: Line) {
    var key := LineKey(journal, line.accountId);
    && key in s.balances && key in s.accounts
    && var debits, credits := s.balances[key].debitsPosted + line.debitMinor, s.balances[key].creditsPosted + line.creditMinor;
    debits >= TOO_LARGE || credits >= TOO_LARGE || !Keeps(s.accounts[key].balanceConstraint, debits, credits)
  }

  predicate BreaksAny(s: State, journal: Journal) {
    exists i :: 0 <= i < |journal.lines| && Breaks(s, journal, journal.lines[i])
  }

  lemma {:induction false} StagedExactly(s: State, journal: Journal, n: nat)
    requires n <= |journal.lines|
    ensures Staged(s, journal, n).Some? <==> forall i :: 0 <= i < n ==> !Breaks(s, journal, journal.lines[i])
  {
    hide LineKey, Allowed, Keeps;
    if n > 0 {
      StagedExactly(s, journal, n - 1);
      var line := journal.lines[n - 1];
      var key := LineKey(journal, line.accountId);
      if key in s.balances && key in s.accounts {
        AllowedExactly(s.accounts[key], NextBalance(s, journal, line));
      }
    }
  }

  /** The journal can be booked exactly when no account is on both sides and no line breaks a bound or constraint. */
  lemma BookableExactly(s: State, journal: Journal)
    requires Verdict(journal.lines).None?
    ensures Bookable(s, journal) <==> !OnBothSides(journal.lines) && !BreaksAny(s, journal)
  {
    StagedExactly(s, journal, |journal.lines|);
    PairingIsBounded(journal.lines);
    hide Staged, JournalPairs, Breaks, Verdict;
  }

  /** The options make the ledger answer that it is unavailable. */
  predicate Unavailable(o: Options, s: State, journal: Journal) {
    || o.unavailableFor == Some(journal.operationId)
    || (o.unavailableOnceFor == Some(journal.operationId) && OperationKey(journal) !in s.unavailableOnce)
  }

  /** The options make the posting fail before it is looked at. */
  predicate FailsBefore(o: Options, s: State, journal: Journal) {
    o.failBeforeSubmissionFor == Some(journal.operationId) && OperationKey(journal) !in s.failedBefore
  }

  /** Every line names an account that was created in the journal's part of the ledger. */
  ghost predicate AllCreated(s: State, journal: Journal) {
    forall i :: 0 <= i < |journal.lines| ==> Created(s, journal, journal.lines[i])
  }

  ghost predicate Created(s: State, journal: Journal, line: Line) {
    exists key :: key in s.accounts && CreatedFor(s.accounts[key], journal, line)
  }

  predicate CreatedFor(account: Account, journal: Journal, line: Line) {
    && account.tenantId == journal.tenantId && account.legalEntityId == journal.legalEntityId
    && account.accountId == line.accountId && Upper(account.currency) == Upper(journal.currency)
    && account.mappingVersion == journal.mappingVersion
  }

  /** The posting comes as far as the check of what is recorded under its key. */
  ghost predicate Arrives(o: Options, s: State, journal: Journal) {
    !Unavailable(o, s, journal) && !FailsBefore(o, s, journal) && Verdict(journal.lines).None? && AllCreated(s, journal)
  }

  ghost predicate IsNew(o: Options, s: State, journal: Journal) {
    Arrives(o, s, journal) && OperationKey(journal) !in s.operations
  }

  lemma RecordsExactly(o: Options, s: State, journal: Journal)
    ensures Records(o, s, journal) <==> IsNew(o, s, journal) && !OnBothSides(journal.lines) && !BreaksAny(s, journal)
  {
    CreatedIsKnown(s, journal);
    if Verdict(journal.lines).None? {
      BookableExactly(s, journal);
    }
    hide Known, Bookable, OnBothSides, BreaksAny, Verdict, OperationKey;
  }

  lemma CreatedIsKnown(s: State, journal: Journal)
    ensures AllCreated(s, journal) <==> forall i :: 0 <= i < |journal.lines| ==> Known(s, journal, journal.lines[i].accountId)
  {
    forall line ensures Created(s, journal, line) <==> Known(s, journal, line.accountId) {
      assert forall key :: key in s.accounts ==>
          (CreatedFor(s.accounts[key], journal, line) <==> Addresses(journal, s.accounts[key]) && s.accounts[key].accountId == line.accountId);
    }
  }

  /** Some account is on both sides, or some line does not fit or breaks its account's constraint. */
  predicate Refused(s: State, journal: Journal) {
    OnBothSides(journal.lines) || BreaksAny(s, journal)
  }

  /** The options make the answer to a booked journal get lost. */
  predicate Loses(o: Options, s: State, journal: Journal) {
    o.loseResponseFor == Some(journal.operationId) && OperationKey(journal) !in s.lost
  }

  /**
   * Every answer to a posting, exactly on its condition: the injected faults first, then the journal
   * itself, its accounts, what is recorded, and at last the balances.
   */
  lemma PostAnswers(o: Options, s: State, journal: Journal)
    requires Inv(s)
    ensures var (after, outcome) := Post(o, s, journal);
            var id, first, refused := journal.operationId, IsNew(o, s, journal), Refused(s, journal);
            && (outcome == Unknown(id, UnknownReason.Unavailable) <==> Unavailable(o, s, journal))
            && (outcome == Unknown(id, ResponseLost) <==>
                !Unavailable(o, s, journal) && (FailsBefore(o, s, journal) || (first && !refused && Loses(o, s, journal))))
            && (outcome == Rejected(id, InvalidAccount) <==>
                !Unavailable(o, s, journal) && !FailsBefore(o, s, journal) && Verdict(journal.lines).None? && !AllCreated(s, journal))
            && (outcome == Rejected(id, ConstraintViolation) <==> first && refused)
            && (first && !refused && !Loses(o, s, journal) ==> outcome.Accepted? && outcome.operationId == id)
            && (first && !refused ==> OperationKey(journal) in after.operations)
            && (!(first && !refused) ==> after.operations == s.operations && after.balances == s.balances)
  {
    RecordsExactly(o, s, journal);
    CreatedIsKnown(s, journal);
    PostEffect(o, s, journal);
    if Verdict(journal.lines).None? {
      BookableExactly(s, journal);
    }
    if OperationKey(journal) in s.operations {
      assert s.operations[OperationKey(journal)].outcome.Accepted?;
    }
    VerdictIsOwn(journal.lines);
    hide Known, Bookable, Records, OnBothSides, BreaksAny, Verdict, OperationKey, Inv, RecordedOutcome, FingerprintOf, Staged, AllCreated;
  }

  lemma VerdictIsOwn(lines: seq<Line>)
    ensures Verdict(lines).Some? ==> Verdict(lines).value == Unbalanced || Verdict(lines).value == InvalidAmount
  {
  }

  /** What is recorded under the key decides the answer to a later posting of the same or of other content. */
  lemma RepeatAnswers(o: Options, s: State, journal: Journal)
    requires Inv(s) && Arrives(o, s, journal) && OperationKey(journal) in s.operations
    ensures var recorded := s.operations[OperationKey(journal)];
            Post(o, s, journal) ==
            (s, if recorded.fingerprint == FingerprintOf(journal) then recorded.outcome
                else ManualRecovery(journal.operationId, ConflictingReplay))
  {
    CreatedIsKnown(s, journal);
    hide Known, Verdict, OperationKey, FingerprintOf, AllCreated;
  }

  /** Reconciling never changes anything, and its answer is decided by the recorded content. */
  lemma ReconcileAnswers(o: Options, s: State, journal: Journal)
    ensures var outcome, id, key := Reconcile(o, s, journal), journal.operationId, OperationKey(journal);
            && (o.unavailableFor == Some(id) ==> outcome == Unknown(id, UnknownReason.Unavailable))
            && (o.unavailableFor != Some(id) && key !in s.operations ==> outcome == Unknown(id, NotFound))
            && (o.unavailableFor != Some(id) && key in s.operations ==>
                  outcome == if s.operations[key].fingerprint == FingerprintOf(journal) then s.operations[key].outcome
                             else ManualRecovery(id, ConflictingReplay))
  {
  }

  /** A journal is valid exactly with two lines or more, one positive side to a line, and equal totals that fit in 128 bits. */
  lemma ValidExactly(lines: seq<Line>)
    ensures Verdict(lines).None? <==>
            |lines| >= 2 && (forall i :: 0 <= i < |lines| ==> (lines[i].debitMinor == 0 <==> lines[i].creditMinor != 0))
            && DebitTotal(lines) == CreditTotal(lines) < TOO_LARGE
    ensures Verdict(lines) == Some(InvalidAmount) <==>
            |lines| >= 2 && ((exists i :: 0 <= i < |lines| && (lines[i].debitMinor == 0 <==> lines[i].creditMinor == 0))
                             || DebitTotal(lines) >= TOO_LARGE || CreditTotal(lines) >= TOO_LARGE)
  {
    hide DebitTotal, CreditTotal;
    assert forall i :: 0 <= i < |lines| ==> (OneSided(lines[i]) <==> (lines[i].debitMinor == 0 <==> lines[i].creditMinor != 0));
    if i :| 0 <= i < |lines| && (lines[i].debitMinor == 0 <==> lines[i].creditMinor == 0) {
      assert !OneSided(lines[i]);
    }
  }

  /** The totals are the sums over any split of the lines. */
  lemma {:induction false} TotalsAdd(a: seq<Line>, b: seq<Line>)
    ensures DebitTotal(a + b) == DebitTotal(a) + DebitTotal(b) && CreditTotal(a + b) == CreditTotal(a) + CreditTotal(b)
  {
    if a == [] {
      assert a + b == b;
    } else {
      TotalsAdd(a[1..], b);
      assert (a + b)[1..] == a[1..] + b;
    }
  }

  /** A constraint refuses the first posting on its wrong side, of any amount that fits. */
  lemma ConstraintRefusesFirst(o: Options, s: State, journal: Journal, i: nat)
    requires Inv(s) && IsNew(o, s, journal) && i < |journal.lines|
    requires var key := LineKey(journal, journal.lines[i].accountId);
             && key in s.accounts && key in s.balances && s.balances[key] == Balance(0, 0)
             && ((s.accounts[key].balanceConstraint == DebitsMustNotExceedCredits && journal.lines[i].debitMinor > 0)
                 || (s.accounts[key].balanceConstraint == CreditsMustNotExceedDebits && journal.lines[i].creditMinor > 0))
    ensures Post(o, s, journal) == (s, Rejected(journal.operationId, ConstraintViolation))
  {
    assert OneSided(journal.lines[i]);
    assert Breaks(s, journal, journal.lines[i]);
    RecordsExactly(o, s, journal);
    PostAnswers(o, s, journal);
    CreatedIsKnown(s, journal);
    hide Known, Breaks, OnBothSides, Verdict, OperationKey, Inv, AllCreated, LineKey;
    BookableExactly(s, journal);
  }

  /** What is recorded of a booked journal: all its transfers, under ids made of the operation key and their places. */
  lemma RecordedAnswers(o: Options, journal: Journal)
    ensures var outcome, n := RecordedOutcome(o, journal), |JournalPairs(journal.lines)|;
            && outcome.Accepted? && outcome.operationId == journal.operationId && outcome.mappingVersion == journal.mappingVersion
            && outcome.acceptedAt == "0" && outcome.transferCount == n == |outcome.transferIds|
            && forall i :: 0 <= i < n ==>
                 var id := "transfer:" + journal.tenantId + ":" + journal.legalEntityId + ":" + journal.operationId + ":" + Print(i);
                 outcome.transferIds[i] == if i == 0 && o.corruptTransferIdsFor == Some(journal.operationId) then id + ":corrupt" else id
  {
    hide JournalPairs, Print;
    forall i | 0 <= i < |JournalPairs(journal.lines)|
      ensures TransferIds(journal)[i] ==
              "transfer:" + journal.tenantId + ":" + journal.legalEntityId + ":" + journal.operationId + ":" + Print(i)
    {
      assert "transfer:" + OperationKey(journal) == "transfer:" + journal.tenantId + ":" + journal.legalEntityId + ":" + journal.operationId;
    }
  }

  /** A new account starts with nothing posted; an account created before stays as it is, whatever is asked for. */
  lemma CreateAnswers(s: State, account: Account)
    ensures var key, after := AccountKey(account), CreateAccount(s, account);
            && (key in s.accounts ==> after == s)
            && (key !in s.accounts ==>
                  after.accounts == s.accounts[key := account] && after.balances == s.balances[key := Balance(0, 0)])
            && after.operations == s.operations && after.lost == s.lost && after.failedBefore == s.failedBefore
            && after.unavailableOnce == s.unavailableOnce
  {
  }

  /** Two requests ask for the same account exactly when these six agree, currencies up to letter case. */
  lemma SameAccountExactly(a: Account, b: Account)
    ensures SameAccount(a, b) <==>
            && a.tenantId == b.tenantId && a.legalEntityId == b.legalEntityId && a.accountId == b.accountId
            && Upper(a.currency) == Upper(b.currency) && a.mappingVersion == b.mappingVersion
            && a.balanceConstraint == b.balanceConstraint
  {
  }

  const SMALL := "abcdefghijklmnopqrstuvwxyz"
  const CAPITAL := "ABCDEFGHIJKLMNOPQRSTUVWXYZ"

  /** Small letters become the capital at their place in the alphabet; every other character stays. */
  lemma UpperExactly(s: string, i: nat)
    requires i < |s|
    ensures |Upper(s)| == |s|
    ensures forall k :: 0 <= k < 26 && s[i] == SMALL[k] ==> Upper(s)[i] == CAPITAL[k]
    ensures s[i] !in SMALL ==> Upper(s)[i] == s[i]
  {
    if 'a' <= s[i] <= 'z' {
      assert SMALL[s[i] as int - 'a' as int] == s[i];
    }
  }
}
