/** Which operations the joined keys of the in-memory ledger tell apart, and what accepted answers mean. */
module LedgerScopes {
  import opened Optional
  import opened Decimal
  import opened Journals
  import opened Pairing
  import opened MemoryLedger
  import opened LedgerRuns
  import T = Texts

  /** A tenant and a legal entity. */
  datatype Scope = Scope(tenantId: string, legalEntityId: string)

  function ScopeOf(journal: Journal): Scope {
    Scope(journal.tenantId, journal.legalEntityId)
  }

  function Prefix(scope: Scope): string {
    KeyPrefix(scope.tenantId, scope.legalEntityId)
  }

  /** One scope's joined prefix extends the other's. */
  predicate Nested(a: Scope, b: Scope) {
    Prefix(a) <= Prefix(b) || Prefix(b) <= Prefix(a)
  }

  predicate ProperlyNested(a: Scope, b: Scope) {
    Nested(a, b) && Prefix(a) != Prefix(b)
  }

  // ---- Keys ---------------------------------------------------------------

  lemma KeyIsPrefixed(journal: Journal)
    ensures OperationKey(journal) == Prefix(ScopeOf(journal)) + journal.operationId
  {
  }

  /** What the input schema asks of an operation id. */
  predicate NonBlank(s: string) {
    exists i :: 0 <= i < |s| && !T.IsSpace(s[i])
  }

  predicate ShareKey(a: Scope, x: string, b: Scope, y: string) {
    Prefix(a) + x == Prefix(b) + y
  }

  /** Exactly when two scopes have operations under one key: one prefix extends the other. */
  lemma ScopesCollideExactly(a: Scope, b: Scope)
    ensures (exists x, y :: NonBlank(x) && NonBlank(y) && ShareKey(a, x, b, y)) <==> Nested(a, b)
  {
    hide Prefix, NonBlank;
    if x, y :| NonBlank(x) && NonBlank(y) && ShareKey(a, x, b, y) {
      SharedIsNested(a, x, b, y);
    }
    if Nested(a, b) {
      var x, y := CollidingIds(a, b);
    }
  }

  lemma SharedIsNested(a: Scope, x: string, b: Scope, y: string)
    requires ShareKey(a, x, b, y)
    ensures Nested(a, b)
  {
    hide Prefix;
    var key := Prefix(a) + x;
    assert Prefix(a) == key[..|Prefix(a)|] && Prefix(b) == key[..|Prefix(b)|];
  }

  lemma CollidingIds(a: Scope, b: Scope) returns (x: string, y: string)
    requires Nested(a, b)
    ensures NonBlank(x) && NonBlank(y) && ShareKey(a, x, b, y)
  {
    var p, q := Prefix(a), Prefix(b);
    hide Prefix;
    if p <= q {
      x, y := q[|p|..] + "y", "y";
      assert q == p + q[|p|..];
    } else {
      x, y := "y", p[|q|..] + "y";
      assert p == q + p[|q|..];
    }
    assert x[|x| - 1] == y[|y| - 1] == 'y' && !T.IsSpace('y');
  }

  /** Operations of one scope, or of two scopes that are not nested, have one key only if they are the same. */
  lemma OperationKeyInjective(a: Journal, b: Journal)
    requires ScopeOf(a) == ScopeOf(b) || !Nested(ScopeOf(a), ScopeOf(b))
    ensures OperationKey(a) == OperationKey(b) <==> SameOperation(a, b)
  {
    KeyIsPrefixed(a);
    KeyIsPrefixed(b);
    hide OperationKey, Prefix;
    if OperationKey(a) == OperationKey(b) {
      SharedIsNested(ScopeOf(a), a.operationId, ScopeOf(b), b.operationId);
      SameTail(Prefix(ScopeOf(a)), a.operationId, b.operationId);
    }
  }

  lemma SameTail(p: string, x: string, y: string)
    requires p + x == p + y
    ensures x == y
  {
    assert x == (p + x)[|p|..] && y == (p + y)[|p|..];
  }

  // ---- Ids without colons -------------------------------------------------

  predicate Plain(scope: Scope) {
    T.NoColon(scope.tenantId) && T.NoColon(scope.legalEntityId)
  }

  /** Different scopes without colons are never nested. */
  lemma PlainScopesApart(a: Scope, b: Scope)
    requires Plain(a) && Plain(b) && Nested(a, b)
    ensures a == b
  {
    if Prefix(a) <= Prefix(b) {
      PlainPrefix(a, b);
    } else {
      PlainPrefix(b, a);
    }
  }

  lemma PlainPrefix(a: Scope, b: Scope)
    requires Plain(a) && Plain(b) && Prefix(a) <= Prefix(b)
    ensures a == b
  {
    var rest := Prefix(b)[|Prefix(a)|..];
    assert Prefix(b) == Prefix(a) + rest;
    assert Prefix(a) + rest == a.tenantId + ":" + (a.legalEntityId + ":" + rest);
    assert Prefix(b) == b.tenantId + ":" + (b.legalEntityId + ":" + "");
    hide T.NoColon, Prefix;
    T.FirstColon(a.tenantId, a.legalEntityId + ":" + rest, b.tenantId, b.legalEntityId + ":" + "");
    T.FirstColon(a.legalEntityId, rest, b.legalEntityId, "");
  }

  /** Entities `e` and `e:x` of a tenant are nested; `t:e`, `x` and `t`, `e:x` have one prefix; `e:x` and `f` are apart. */
  lemma NestedScopes()
    ensures ProperlyNested(Scope("t", "e"), Scope("t", "e:x"))
    ensures Prefix(Scope("t:e", "x")) == Prefix(Scope("t", "e:x"))
    ensures !Nested(Scope("t", "e:x"), Scope("t", "f"))
  {
    assert Prefix(Scope("t", "e")) == "t:e:" && Prefix(Scope("t", "e:x")) == "t:e:x:" == Prefix(Scope("t:e", "x"));
    assert Prefix(Scope("t", "f")) == "t:f:";
    assert "t:e:x:"[..4] == "t:e:" && "t:e:x:"[2] == 'e' && "t:f:"[2] == 'f';
  }

  // ---- Account keys -------------------------------------------------------

  function HomeOf(account: Account): Scope {
    Scope(account.tenantId, account.legalEntityId)
  }

  /** The same account of the same scope, whatever the letter case of its currency. */
  predicate SameIdentity(a: Account, b: Account) {
    && HomeOf(a) == HomeOf(b) && a.accountId == b.accountId
    && Upper(a.currency) == Upper(b.currency) && a.mappingVersion == b.mappingVersion
  }

  /** Currency codes have no colon, so a joined account key shows its currency and mapping version. */
  lemma AccountKeySplits(a: Account, b: Account)
    requires T.NoColon(Upper(a.currency)) && T.NoColon(Upper(b.currency)) && AccountKey(a) == AccountKey(b)
    ensures Upper(a.currency) == Upper(b.currency) && a.mappingVersion == b.mappingVersion
    ensures ShareKey(HomeOf(a), a.accountId, HomeOf(b), b.accountId)
  {
    var x, y := Prefix(HomeOf(a)) + a.accountId, Prefix(HomeOf(b)) + b.accountId;
    var u, v := Upper(a.currency), Upper(b.currency);
    assert AccountKey(a) == (x + ":" + u) + ":" + Print(a.mappingVersion);
    assert AccountKey(b) == (y + ":" + v) + ":" + Print(b.mappingVersion);
    hide Prefix, AccountKey;
    ColonSplit(x + ":" + u, Print(a.mappingVersion), y + ":" + v, Print(b.mappingVersion));
    PrintInjective(a.mappingVersion, b.mappingVersion);
    T.LastColon(x, u, y, v);
  }

  /** Accounts of one scope, or of two that are not nested, have one key only if they are the same. */
  lemma AccountKeyInjective(a: Account, b: Account)
    requires T.NoColon(Upper(a.currency)) && T.NoColon(Upper(b.currency))
    requires HomeOf(a) == HomeOf(b) || !Nested(HomeOf(a), HomeOf(b))
    ensures AccountKey(a) == AccountKey(b) <==> SameIdentity(a, b)
  {
    if AccountKey(a) == AccountKey(b) {
      AccountKeySplits(a, b);
      hide AccountKey, Prefix;
      SharedIsNested(HomeOf(a), a.accountId, HomeOf(b), b.accountId);
      SameTail(Prefix(HomeOf(a)), a.accountId, b.accountId);
    }
  }

  predicate ShareAccountKey(x: Account, y: Account) {
    AccountKey(x) == AccountKey(y)
  }

  /**
   * Exactly when two scopes have accounts under one key, so that one is answered with the other's
   * balance: one prefix extends the other.
   */
  lemma AccountsCollideExactly(a: Scope, b: Scope)
    ensures (exists x, y :: HomeOf(x) == a && HomeOf(y) == b && NonBlank(x.accountId) && NonBlank(y.accountId)
                            && T.NoColon(Upper(x.currency)) && T.NoColon(Upper(y.currency)) && ShareAccountKey(x, y))
            <==> Nested(a, b)
  {
    if x, y :| HomeOf(x) == a && HomeOf(y) == b && T.NoColon(Upper(x.currency)) && T.NoColon(Upper(y.currency)) && ShareAccountKey(x, y) {
      AccountKeySplits(x, y);
      SharedIsNested(a, x.accountId, b, y.accountId);
    }
    if Nested(a, b) {
      var x, y := CollidingIds(a, b);
      assert T.NoColon(Upper("EUR"));
      hide NonBlank, Nested;
      KeysFollow(a, x, b, y);
      assert HomeOf(AccountIn(a, x)) == a && HomeOf(AccountIn(b, y)) == b;
    }
  }

  lemma KeysFollow(a: Scope, x: string, b: Scope, y: string)
    requires ShareKey(a, x, b, y)
    ensures ShareAccountKey(AccountIn(a, x), AccountIn(b, y))
  {
  }

  // ---- What an accepted answer means --------------------------------------

  /** The run from the start books this operation with this content. */
  ghost predicate WasBooked(o: Options, commands: seq<Command>, journal: Journal) {
    exists i :: 0 <= i < |Booking(o, Initial, commands)|
                && SameOperation(Booking(o, Initial, commands)[i], journal) && SameContent(Booking(o, Initial, commands)[i], journal)
  }

  /** No scope submitted before is properly nested with the journal's. */
  ghost predicate PostsApart(commands: seq<Command>, journal: Journal) {
    forall i :: 0 <= i < |commands| && commands[i].Submission? ==> !ProperlyNested(ScopeOf(commands[i].journal), ScopeOf(journal))
  }

  /** No other scope submitted before is nested with the journal's. */
  ghost predicate ReconcilesApart(commands: seq<Command>, journal: Journal) {
    forall i :: 0 <= i < |commands| && commands[i].Submission? ==>
      ScopeOf(commands[i].journal) == ScopeOf(journal) || !Nested(ScopeOf(commands[i].journal), ScopeOf(journal))
  }

  /** A ledger that knows one account to two journals with one prefix knows them in one scope. */
  lemma OnePrefixOneScope(s: State, a: Journal, b: Journal, accountId: string)
    requires Inv(s) && Prefix(ScopeOf(a)) == Prefix(ScopeOf(b)) && Known(s, a, accountId) && Known(s, b, accountId)
    requires Upper(a.currency) == Upper(b.currency) && a.mappingVersion == b.mappingVersion
    ensures ScopeOf(a) == ScopeOf(b)
  {
    KnownByKey(s, a, accountId);
    KnownByKey(s, b, accountId);
    assert LineKey(a, accountId) == LineKey(b, accountId);
    hide Known, Inv, LineKey;
  }

  /** What stands recorded under the journal's key with the journal's content was booked by the run. */
  lemma RecordedContent(o: Options, commands: seq<Command>, journal: Journal) returns (i: nat)
    requires var s := Run(o, Initial, commands);
             OperationKey(journal) in s.operations && s.operations[OperationKey(journal)].fingerprint == FingerprintOf(journal)
    ensures i < |Booking(o, Initial, commands)|
    ensures var booked := Booking(o, Initial, commands)[i];
            OperationKey(booked) == OperationKey(journal) && SameContent(booked, journal)
            && Nested(ScopeOf(booked), ScopeOf(journal))
            && exists k :: 0 <= k < |commands| && commands[k] == Submission(booked)
  {
    var key := OperationKey(journal);
    RecordedWereBooked(o, Initial, commands, key);
    i :| 0 <= i < |Booking(o, Initial, commands)| && RecordedAs(o, Initial, commands, i, key);
    var booked := Booking(o, Initial, commands)[i];
    BookedWereSubmitted(o, Initial, commands, i);
    KeyIsPrefixed(booked);
    KeyIsPrefixed(journal);
    hide Run, Booking, OperationKey, FingerprintOf, RecordedOutcome, Prefix;
    FingerprintComplete(booked, journal);
    SharedIsNested(ScopeOf(booked), booked.operationId, ScopeOf(journal), journal.operationId);
  }

  /**
   * An accepted reconciliation at the end of a run means that exactly this operation was booked with
   * exactly this content, unless another scope submitted is nested with the journal's.
   */
  lemma ReconciledWasBooked(o: Options, commands: seq<Command>, journal: Journal)
    requires ReconcilesApart(commands, journal) && Reconcile(o, Run(o, Initial, commands), journal).Accepted?
    ensures WasBooked(o, commands, journal)
  {
    hide Run, Booking, OperationKey, FingerprintOf, Nested, SameContent, SameOperation;
    var i := RecordedContent(o, commands, journal);
    var booked := Booking(o, Initial, commands)[i];
    var k :| 0 <= k < |commands| && commands[k] == Submission(booked);
    OperationKeyInjective(booked, journal);
  }

  /**
   * An accepted posting means the same, unless a scope submitted is properly nested with the
   * journal's: under equal prefixes the known accounts tell the scopes apart.
   */
  lemma AcceptedWasBooked(o: Options, commands: seq<Command>, journal: Journal)
    requires PostsApart(commands, journal) && Post(o, Run(o, Initial, commands), journal).1.Accepted?
    ensures WasBooked(o, commands + [Submission(journal)], journal)
  {
    var all, s := commands + [Submission(journal)], Run(o, Initial, commands);
    RunSnoc(o, Initial, commands, Submission(journal));
    AcceptedIsRecorded(o, s, journal);
    var after := Run(o, Initial, all);
    assert after == Post(o, s, journal).0;
    AcceptedKnows(o, s, journal);
    hide Run, Booking, OperationKey, FingerprintOf, Nested, Post, Known;
    var i := RecordedContent(o, all, journal);
    var booked := Booking(o, Initial, all)[i];
    var k :| 0 <= k < |all| && all[k] == Submission(booked);
    BookedKnows(o, Initial, all, i, 0);
    InitialIsFresh();
    RunKeepsInv(o, Initial, all);
    if k < |commands| {
      assert commands[k] == all[k];
      assert Prefix(ScopeOf(booked)) == Prefix(ScopeOf(journal));
      OnePrefixOneScope(after, booked, journal, journal.lines[0].accountId);
    }
    OperationKeyInjective(booked, journal);
  }

  lemma AcceptedKnows(o: Options, s: State, journal: Journal)
    requires Post(o, s, journal).1.Accepted?
    ensures journal.lines != [] && Known(Post(o, s, journal).0, journal, journal.lines[0].accountId)
  {
    PostEffect(o, s, journal);
    hide OperationKey, FingerprintOf, RecordedOutcome, Bookable, Staged, Addresses;
    assert Verdict(journal.lines).None?;
  }

  /** Where no tenant or entity id has a colon, both hold for every run. */
  lemma PlainAcceptedWasBooked(o: Options, commands: seq<Command>, journal: Journal)
    requires Plain(ScopeOf(journal)) && forall i :: 0 <= i < |commands| && commands[i].Submission? ==> Plain(ScopeOf(commands[i].journal))
    ensures Post(o, Run(o, Initial, commands), journal).1.Accepted? ==> WasBooked(o, commands + [Submission(journal)], journal)
    ensures Reconcile(o, Run(o, Initial, commands), journal).Accepted? ==> WasBooked(o, commands, journal)
  {
    hide Plain, Nested, Run, Post, Reconcile, WasBooked;
    forall i | 0 <= i < |commands| && commands[i].Submission? && Nested(ScopeOf(commands[i].journal), ScopeOf(journal))
      ensures ScopeOf(commands[i].journal) == ScopeOf(journal)
    {
      PlainScopesApart(ScopeOf(commands[i].journal), ScopeOf(journal));
    }
    if Post(o, Run(o, Initial, commands), journal).1.Accepted? {
      AcceptedWasBooked(o, commands, journal);
    }
    if Reconcile(o, Run(o, Initial, commands), journal).Accepted? {
      ReconciledWasBooked(o, commands, journal);
    }
  }

  // ---- Ledgers that answer for another operation --------------------------

  /**
   * Of two operations under one key with the same content, the second is answered with the first's
   * outcome once that is booked, and nothing of it is booked.
   */
  lemma CollidingOperationIsNotBooked(o: Options, s: State, first: Journal, second: Journal)
    requires Inv(s) && Records(o, s, first)
    requires OperationKey(first) == OperationKey(second) && FingerprintOf(first) == FingerprintOf(second)
    requires first.lines == second.lines && forall i :: 0 <= i < |second.lines| ==> Known(s, second, second.lines[i].accountId)
    requires !FailsUnavailable(o, Post(o, s, first).0, second) && !FailsBeforeSubmission(o, Post(o, s, first).0, second)
    ensures var booked := Post(o, s, first).0;
            Post(o, booked, second) == (booked, RecordedOutcome(o, first))
  {
    var booked := Post(o, s, first).0;
    PostEffect(o, s, first);
    forall i | 0 <= i < |second.lines| ensures Known(booked, second, second.lines[i].accountId) {
      assert Known(s, second, second.lines[i].accountId);
    }
    hide OperationKey, FingerprintOf, RecordedOutcome, Verdict, Staged, Bookable, Known, FailsUnavailable, FailsBeforeSubmission;
  }

  /** Nothing is recorded, nothing is posted, and no account has a constraint. */
  predicate Fresh(s: State) {
    && s.operations == map[] && s.balances.Keys == s.accounts.Keys
    && forall key :: key in s.accounts ==> s.accounts[key].balanceConstraint == NoConstraint && s.balances[key] == Balance(0, 0)
  }

  lemma InitialIsFresh()
    ensures Inv(Initial) && Fresh(Initial)
  {
  }

  function Creates(accounts: seq<Account>): seq<Command> {
    seq(|accounts|, i requires 0 <= i < |accounts| => Create(accounts[i]))
  }

  predicate Has(s: State, account: Account) {
    AccountKey(account) in s.accounts && s.accounts[AccountKey(account)] == account
  }

  /** A fresh state with these accounts and no others. */
  ghost predicate Holds(s: State, accounts: seq<Account>) {
    Inv(s) && Fresh(s) && forall account :: Has(s, account) <==> account in accounts
  }

  ghost predicate Distinct(accounts: seq<Account>) {
    && (forall i :: 0 <= i < |accounts| ==> accounts[i].balanceConstraint == NoConstraint)
    && (forall i, j :: 0 <= i < j < |accounts| ==> AccountKey(accounts[i]) != AccountKey(accounts[j]))
  }

  /** A run that only creates accounts under different keys holds these accounts, and books nothing. */
  lemma {:induction false} CreatesHold(o: Options, accounts: seq<Account>)
    requires Distinct(accounts)
    ensures Holds(Run(o, Initial, Creates(accounts)), accounts) && Booking(o, Initial, Creates(accounts)) == []
  {
    if accounts == [] {
      InitialHolds();
      assert Creates(accounts) == [];
    } else {
      var n := |accounts| - 1;
      var before, last := accounts[..n], accounts[n];
      assert accounts == before + [last];
      DistinctSplit(before, last);
      CreatesSnoc(before, last);
      hide Distinct, Holds, CreateAccount, Creates, Run, Booking;
      CreatesHold(o, before);
      RunSnoc(o, Initial, Creates(before), Create(last));
      BookingSnoc(o, Initial, Creates(before), Create(last));
      CreateHolds(Run(o, Initial, Creates(before)), before, last);
    }
  }

  lemma InitialHolds()
    ensures Holds(Initial, [])
  {
    InitialIsFresh();
  }

  lemma CreatesSnoc(before: seq<Account>, last: Account)
    ensures Creates(before + [last]) == Creates(before) + [Create(last)]
  {
  }

  lemma DistinctSplit(before: seq<Account>, last: Account)
    requires Distinct(before + [last])
    ensures Distinct(before) && last.balanceConstraint == NoConstraint
    ensures forall account :: account in before ==> AccountKey(account) != AccountKey(last)
  {
    hide AccountKey;
    var all := before + [last];
    assert all[|before|] == last && forall i :: 0 <= i < |before| ==> all[i] == before[i];
    forall account | account in before ensures AccountKey(account) != AccountKey(last) {
      var i :| 0 <= i < |before| && before[i] == account;
      assert AccountKey(all[i]) != AccountKey(all[|before|]);
    }
  }

  lemma PlainPairBooks(o: Options, s: State, journal: Journal)
    requires Inv(s) && Fresh(s) && o == Options(None, None, None, None, None)
    requires journal.lines == [Line("a", 5, 0), Line("b", 0, 5)] && Known(s, journal, "a") && Known(s, journal, "b")
    ensures Records(o, s, journal)
  {
    var lines, ka, kb := journal.lines, LineKey(journal, "a"), LineKey(journal, "b");
    KnownByKey(s, journal, "a");
    KnownByKey(s, journal, "b");
    LineKeyInjective(journal, "a", "b");
    PlainPairIsValid(lines);
    hide LineKey, Inv, Known, Verdict, JournalPairs, TwoSidedAccount;
    StageLine(s, journal, 1, map[], Balance(5, 0));
    StageLine(s, journal, 2, map[ka := Balance(5, 0)], Balance(0, 5));
    hide Staged;
  }

  lemma PlainPairIsValid(lines: seq<Line>)
    requires lines == [Line("a", 5, 0), Line("b", 0, 5)]
    ensures Verdict(lines).None? && JournalPairs(lines) != [] && !TwoSidedAccount(lines)
  {
    var one := lines[1..];
    assert one == [Line("b", 0, 5)] && one[1..] == [];
    assert DebitTotal(one) == 0 && CreditTotal(one) == 5;
    PairingIsBounded(lines);
  }

  lemma CreateHolds(s: State, accounts: seq<Account>, last: Account)
    requires Holds(s, accounts) && last.balanceConstraint == NoConstraint
    requires forall account :: account in accounts ==> AccountKey(account) != AccountKey(last)
    ensures Holds(CreateAccount(s, last), accounts + [last])
  {
    var key, after := AccountKey(last), CreateAccount(s, last);
    StepKeepsInv(NoFaults, s, Create(last));
    if key in s.accounts {
      HasOwn(s, key);
      assert false;
    }
    hide AccountKey, Inv;
    forall account ensures Has(after, account) <==> account in accounts + [last] {
      assert Has(after, account) <==> Has(s, account) || account == last by {
        HasAfter(s, last, account);
      }
      hide Has;
    }
  }

  lemma HasOwn(s: State, key: string)
    requires Inv(s) && key in s.accounts
    ensures AccountKey(s.accounts[key]) == key && Has(s, s.accounts[key])
  {
  }

  lemma HasAfter(s: State, last: Account, account: Account)
    requires Inv(s) && AccountKey(last) !in s.accounts
    ensures Has(CreateAccount(s, last), account) <==> Has(s, account) || account == last
  {
    hide AccountKey, Inv;
  }

  /** One amount from account `a` to account `b`. */
  function Sample(scope: Scope, operationId: string): Journal {
    Journal(scope.tenantId, scope.legalEntityId, operationId, "j", "r", "EUR", 1, [Line("a", 5, 0), Line("b", 0, 5)])
  }

  function AccountIn(scope: Scope, accountId: string): Account {
    Account(scope.tenantId, scope.legalEntityId, accountId, "EUR", 1, NoConstraint)
  }

  const NoFaults := Options(None, None, None, None, None)

  lemma SampleKnown(s: State, accounts: seq<Account>, scope: Scope, operationId: string, accountId: string)
    requires Holds(s, accounts) && AccountIn(scope, accountId) in accounts
    ensures Known(s, Sample(scope, operationId), accountId)
  {
    hide AccountKey, Inv, Fresh;
    assert Has(s, AccountIn(scope, accountId));
  }

  lemma HoldsInv(s: State, accounts: seq<Account>)
    requires Holds(s, accounts)
    ensures Inv(s) && Fresh(s)
  {
  }

  /** The run that books the first scope's sample, in a ledger that holds the accounts. */
  function Bait(accounts: seq<Account>, scope: Scope, operationId: string): seq<Command> {
    Creates(accounts) + [Submission(Sample(scope, operationId))]
  }

  /** The first sample is booked, and nothing else. */
  lemma BaitBooks(accounts: seq<Account>, scope: Scope, operationId: string)
    requires Distinct(accounts) && AccountIn(scope, "a") in accounts && AccountIn(scope, "b") in accounts
    ensures var s, first := Run(NoFaults, Initial, Creates(accounts)), Sample(scope, operationId);
            && Inv(s) && Holds(s, accounts) && Records(NoFaults, s, first)
            && Run(NoFaults, Initial, Bait(accounts, scope, operationId)) == Post(NoFaults, s, first).0
            && Booking(NoFaults, Initial, Bait(accounts, scope, operationId)) == [first]
  {
    var s, first := Run(NoFaults, Initial, Creates(accounts)), Sample(scope, operationId);
    CreatesHold(NoFaults, accounts);
    hide AccountKey, Inv, Fresh, Known, Creates, Records, Holds, Distinct;
    SampleKnown(s, accounts, scope, operationId, "a");
    SampleKnown(s, accounts, scope, operationId, "b");
    assert Inv(s) && Fresh(s) by { HoldsInv(s, accounts); }
    PlainPairBooks(NoFaults, s, first);
    RunSnoc(NoFaults, Initial, Creates(accounts), Submission(first));
    BookingSnoc(NoFaults, Initial, Creates(accounts), Submission(first));
  }

  lemma SamplesCollide(a: Scope, x: string, b: Scope, y: string)
    requires ShareKey(a, x, b, y)
    ensures OperationKey(Sample(a, x)) == OperationKey(Sample(b, y)) && FingerprintOf(Sample(a, x)) == FingerprintOf(Sample(b, y))
  {
    KeyIsPrefixed(Sample(a, x));
    KeyIsPrefixed(Sample(b, y));
  }

  /** A posting or a reconciliation accepted for an operation that was never booked. */
  ghost predicate Misposts(o: Options, commands: seq<Command>, journal: Journal) {
    Post(o, Run(o, Initial, commands), journal).1.Accepted? && !WasBooked(o, commands + [Submission(journal)], journal)
  }

  ghost predicate Misreconciles(o: Options, commands: seq<Command>, journal: Journal) {
    Reconcile(o, Run(o, Initial, commands), journal).Accepted? && !WasBooked(o, commands, journal)
  }

  /** Only these two scopes submit. */
  ghost predicate Among(commands: seq<Command>, a: Scope, b: Scope) {
    forall i :: 0 <= i < |commands| && commands[i].Submission? ==> ScopeOf(commands[i].journal) in {a, b}
  }

  function BothAccounts(a: Scope, b: Scope): seq<Account> {
    [AccountIn(a, "a"), AccountIn(a, "b"), AccountIn(b, "a"), AccountIn(b, "b")]
  }

  lemma PairKeys(a: Scope)
    ensures AccountKey(AccountIn(a, "a")) != AccountKey(AccountIn(a, "b"))
  {
    var journal := Sample(a, "");
    LineKeyInjective(journal, "a", "b");
    assert AccountKey(AccountIn(a, "a")) == LineKey(journal, "a") && AccountKey(AccountIn(a, "b")) == LineKey(journal, "b");
  }

  lemma CrossedKeys(a: Scope, b: Scope, x: string, y: string)
    requires |Prefix(a)| != |Prefix(b)| && |x| == |y|
    ensures AccountKey(AccountIn(a, x)) != AccountKey(AccountIn(b, y))
  {
    assert |AccountKey(AccountIn(a, x))| == |Prefix(a)| + |x| + |KeySuffix("EUR", 1)|;
    assert |AccountKey(AccountIn(b, y))| == |Prefix(b)| + |y| + |KeySuffix("EUR", 1)|;
  }

  lemma BothAccountsDiffer(a: Scope, b: Scope)
    requires ProperlyNested(a, b)
    ensures Distinct(BothAccounts(a, b))
  {
    PairKeys(a);
    PairKeys(b);
    assert |Prefix(a)| != |Prefix(b)|;
    hide AccountKey, Prefix;
    CrossedKeys(a, b, "a", "a");
    CrossedKeys(a, b, "a", "b");
    CrossedKeys(a, b, "b", "a");
    CrossedKeys(a, b, "b", "b");
  }

  /**
   * Any two properly nested scopes collide: some run books an operation of the first, and posting an
   * operation of the second then answers with it and books nothing.
   */
  lemma OperationsCollide(a: Scope, b: Scope) returns (commands: seq<Command>, second: Journal)
    requires ProperlyNested(a, b)
    ensures ScopeOf(second) == b && NonBlank(second.operationId) && Among(commands, a, b)
    ensures Post(NoFaults, Run(NoFaults, Initial, commands), second).0 == Run(NoFaults, Initial, commands)
    ensures Misposts(NoFaults, commands, second)
  {
    var x, y := CollidingIds(a, b);
    second, commands := Sample(b, y), Bait(BothAccounts(a, b), a, x);
    hide Bait, ShareKey, NonBlank, ProperlyNested, WasBooked, Post, Run, BothAccounts;
    CollideAt(a, x, b, y);
  }

  lemma CollideAt(a: Scope, x: string, b: Scope, y: string)
    requires ProperlyNested(a, b) && ShareKey(a, x, b, y)
    ensures var commands, second := Bait(BothAccounts(a, b), a, x), Sample(b, y);
            && Among(commands, a, b)
            && Post(NoFaults, Run(NoFaults, Initial, commands), second).0 == Run(NoFaults, Initial, commands)
            && Post(NoFaults, Run(NoFaults, Initial, commands), second).1.Accepted?
            && !WasBooked(NoFaults, commands + [Submission(second)], second)
  {
    var accounts, first, second := BothAccounts(a, b), Sample(a, x), Sample(b, y);
    var commands := Bait(accounts, a, x);
    BothAccountsDiffer(a, b);
    SamplesCollide(a, x, b, y);
    assert accounts[0] == AccountIn(a, "a") && accounts[1] == AccountIn(a, "b");
    assert accounts[2] == AccountIn(b, "a") && accounts[3] == AccountIn(b, "b");
    hide AccountKey, OperationKey, FingerprintOf, Nested, Prefix, BothAccounts, Distinct, ShareKey;
    BaitBooks(accounts, a, x);
    var s := Run(NoFaults, Initial, Creates(accounts));
    hide Run, Booking, Known, Inv, Records, RecordedOutcome, Holds, Post;
    SampleKnown(s, accounts, b, y, "a");
    SampleKnown(s, accounts, b, y, "b");
    SampleReplays(s, first, second);
    assert a != b;
    NotBookedBait(commands, first, second);
    BaitAmong(accounts, a, x, b);
    hide Bait, Creates;
  }

  lemma BaitAmong(accounts: seq<Account>, a: Scope, x: string, b: Scope)
    ensures Among(Bait(accounts, a, x), a, b)
  {
  }

  lemma SampleReplays(s: State, first: Journal, second: Journal)
    requires Inv(s) && Records(NoFaults, s, first) && Known(s, second, "a") && Known(s, second, "b")
    requires OperationKey(first) == OperationKey(second) && FingerprintOf(first) == FingerprintOf(second)
    requires first.lines == second.lines == [Line("a", 5, 0), Line("b", 0, 5)]
    ensures var booked := Post(NoFaults, s, first).0;
            Post(NoFaults, booked, second) == (booked, RecordedOutcome(NoFaults, first)) && OperationKey(second) in booked.operations
  {
    PostEffect(NoFaults, s, first);
    hide OperationKey, FingerprintOf, Known, Inv, Records, Post, RecordedOutcome;
    CollidingOperationIsNotBooked(NoFaults, s, first, second);
  }

  /** Where the run books one operation only and has recorded the other's key, the other is never booked. */
  lemma NotBookedBait(commands: seq<Command>, first: Journal, second: Journal)
    requires Booking(NoFaults, Initial, commands) == [first] && !SameOperation(first, second)
    requires OperationKey(second) in Run(NoFaults, Initial, commands).operations
    ensures !WasBooked(NoFaults, commands + [Submission(second)], second) && !WasBooked(NoFaults, commands, second)
  {
    BookingSnoc(NoFaults, Initial, commands, Submission(second));
    hide Run, Booking, OperationKey;
  }

  /**
   * Any two different nested scopes collide in reconciliation: some run that never submits an
   * operation of the second scope makes reconciling one answer accepted.
   */
  lemma ReconciliationsCollide(a: Scope, b: Scope) returns (commands: seq<Command>, second: Journal)
    requires Nested(a, b) && a != b
    ensures ScopeOf(second) == b && NonBlank(second.operationId) && Among(commands, a, a)
    ensures Misreconciles(NoFaults, commands, second)
  {
    var x, y := CollidingIds(a, b);
    second, commands := Sample(b, y), Bait([AccountIn(a, "a"), AccountIn(a, "b")], a, x);
    hide Bait, ShareKey, NonBlank, Nested, WasBooked, Reconcile, Run;
    ReconcileAt(a, x, b, y);
  }

  lemma ReconcileAt(a: Scope, x: string, b: Scope, y: string)
    requires a != b && ShareKey(a, x, b, y)
    ensures var commands, second := Bait([AccountIn(a, "a"), AccountIn(a, "b")], a, x), Sample(b, y);
            && Among(commands, a, a)
            && Reconcile(NoFaults, Run(NoFaults, Initial, commands), second).Accepted? && !WasBooked(NoFaults, commands, second)
  {
    var accounts, first, second := [AccountIn(a, "a"), AccountIn(a, "b")], Sample(a, x), Sample(b, y);
    var commands := Bait(accounts, a, x);
    PairKeys(a);
    SamplesCollide(a, x, b, y);
    assert accounts[0] == AccountIn(a, "a") && accounts[1] == AccountIn(a, "b");
    hide AccountKey, OperationKey, FingerprintOf, Prefix, ShareKey;
    assert Distinct(accounts);
    hide Distinct;
    BaitBooks(accounts, a, x);
    var s := Run(NoFaults, Initial, Creates(accounts));
    PostEffect(NoFaults, s, first);
    hide Run, Booking, Known, Inv, Records, Post, Holds;
    NotBookedBait(commands, first, second);
    BaitAmong(accounts, a, x, a);
    hide Bait, Creates;
  }

  /** Exactly when posting can be accepted for an operation that was never booked: for properly nested scopes. */
  lemma FalseAcceptanceExactly(a: Scope, b: Scope)
    ensures (exists o, commands, journal :: ScopeOf(journal) == b && Among(commands, a, b) && Misposts(o, commands, journal))
            <==> ProperlyNested(a, b)
  {
    hide Prefix, Run, Post, WasBooked;
    if o, commands, journal :| ScopeOf(journal) == b && Among(commands, a, b) && Misposts(o, commands, journal) {
      if !ProperlyNested(a, b) {
        AcceptedWasBooked(o, commands, journal);
        assert false;
      }
    }
    if ProperlyNested(a, b) {
      var commands, journal := OperationsCollide(a, b);
    }
  }

  /** Exactly when reconciling can: for any two different nested scopes. */
  lemma FalseReconciliationExactly(a: Scope, b: Scope)
    ensures (exists o, commands, journal :: ScopeOf(journal) == b && Among(commands, a, b) && Misreconciles(o, commands, journal))
            <==> a != b && Nested(a, b)
  {
    hide Prefix, Run, Reconcile, WasBooked;
    if o, commands, journal :| ScopeOf(journal) == b && Among(commands, a, b) && Misreconciles(o, commands, journal) {
      if a == b || !Nested(a, b) {
        ReconciledWasBooked(o, commands, journal);
        assert false;
      }
    }
    if a != b && Nested(a, b) {
      var commands, journal := ReconciliationsCollide(a, b);
      assert Among(commands, a, b);
    }
  }
}
