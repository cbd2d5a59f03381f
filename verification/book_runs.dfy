/** What holds of the accounting book over every run of its operations. */
module BookRuns {
  import opened Facts
  import opened Optional
  import opened AccountingBook
  import M = Money
  import T = Texts

  datatype Command =
    | NewAccount(tenantId: string, code: string, name: string, kind: AccountType)
    | NewProfile(profile: Profile)
    | NewPeriod(tenantId: string, legalEntityId: string, startsOn: int, endsOn: int)
    | Close(tenantId: string, legalEntityId: string, periodId: Id)
    | PostRevenue(tenantId: string, legalEntityId: string, orderId: string, amount: M.MajorAmount,
                  postingEnabled: bool, today: int, appended: bool)
    | Reverse(tenantId: string, legalEntityId: string, orderId: string, postingEnabled: bool, today: int)
    | Post(tenantId: string, reference: string, lines: seq<Line>)

  /** What the input schemas let through. */
  predicate Decodes(command: Command) {
    match command
    case NewProfile(profile) => profile.receivableAccountId != profile.revenueAccountId
    case NewPeriod(_, _, startsOn, endsOn) => startsOn <= endsOn
    case _ => true
  }

  function Step(upper: string -> string, s: State, command: Command): State {
    match command
    case NewAccount(tenantId, code, name, kind) => AddAccount(upper, s, tenantId, code, name, kind).0
    case NewProfile(profile) => AddProfile(s, profile).0
    case NewPeriod(tenantId, legalEntityId, startsOn, endsOn) => AddPeriod(s, tenantId, legalEntityId, startsOn, endsOn).0
    case Close(tenantId, legalEntityId, periodId) => EndPeriod(s, tenantId, legalEntityId, periodId).0
    case PostRevenue(tenantId, legalEntityId, orderId, amount, postingEnabled, today, appended) =>
      AddRevenue(s, tenantId, legalEntityId, orderId, amount, postingEnabled, today, appended).0
    case Reverse(tenantId, legalEntityId, orderId, postingEnabled, today) =>
      AddReversal(s, tenantId, legalEntityId, orderId, postingEnabled, today).0
    case Post(tenantId, reference, lines) => AddJournal(s, tenantId, reference, lines).0
  }

  function Run(upper: string -> string, s: State, commands: seq<Command>): State
    decreases commands
  {
    if commands == [] then s else Run(upper, Step(upper, s, commands[0]), commands[1..])
  }

  ghost predicate AllDecode(commands: seq<Command>) {
    forall i :: 0 <= i < |commands| ==> Decodes(commands[i])
  }

  lemma StepKeeps(upper: string -> string, s: State, command: Command)
    requires Inv(s) && Decodes(command)
    ensures Inv(Step(upper, s, command)) && Extends(s, Step(upper, s, command))
  {
    hide Inv, Extends, AddAccount, AddProfile, AddPeriod, EndPeriod, AddRevenue, AddReversal, AddJournal;
    match command
    case NewAccount(tenantId, code, name, kind) => AddAccountKeeps(upper, s, tenantId, code, name, kind);
    case NewProfile(profile) => AddProfileKeeps(s, profile);
    case NewPeriod(tenantId, legalEntityId, startsOn, endsOn) => AddPeriodKeeps(s, tenantId, legalEntityId, startsOn, endsOn);
    case Close(tenantId, legalEntityId, periodId) => EndPeriodKeeps(s, tenantId, legalEntityId, periodId);
    case PostRevenue(tenantId, legalEntityId, orderId, amount, postingEnabled, today, appended) =>
      AddRevenueKeeps(s, tenantId, legalEntityId, orderId, amount, postingEnabled, today, appended);
    case Reverse(tenantId, legalEntityId, orderId, postingEnabled, today) =>
      AddReversalKeeps(s, tenantId, legalEntityId, orderId, postingEnabled, today);
    case Post(tenantId, reference, lines) => AddJournalKeeps(s, tenantId, reference, lines);
  }

  lemma ExtendsTransitive(a: State, b: State, c: State)
    requires Extends(a, b) && Extends(b, c)
    ensures Extends(a, c)
  {
    forall id | id in a.periods ensures id in c.periods && PeriodEvolves(a.periods[id], c.periods[id]) {
      assert PeriodEvolves(a.periods[id], b.periods[id]) && PeriodEvolves(b.periods[id], c.periods[id]);
    }
  }

  /** Every run keeps the book in order, and keeps every entry, account and profile it started with. */
  lemma {:induction false} RunKeepsBook(upper: string -> string, s: State, commands: seq<Command>)
    requires Inv(s) && AllDecode(commands)
    ensures Inv(Run(upper, s, commands)) && Extends(s, Run(upper, s, commands))
    decreases commands
  {
    if commands == [] {
      assert forall id :: id in s.periods ==> PeriodEvolves(s.periods[id], s.periods[id]);
    } else {
      hide Inv, Extends, Step, Decodes;
      var next := Step(upper, s, commands[0]);
      StepKeeps(upper, s, commands[0]);
      RunKeepsBook(upper, next, commands[1..]);
      ExtendsTransitive(s, next, Run(upper, next, commands[1..]));
    }
  }

  lemma EmptyIsInOrder()
    ensures Inv(Empty)
  {
  }

  /**
   * Wherever a run of the service leads, every stored entry balances in minor units, and every
   * reversed entry names a stored entry of its tenant and undoes it on every account.
   */
  lemma ReversalsNetToZero(upper: string -> string, commands: seq<Command>, key: Key, accountId: Id)
    requires AllDecode(commands) && key in Run(upper, Empty, commands).journals
    ensures var journals := Run(upper, Empty, commands).journals;
            && DebitSum(journals[key].lines) == CreditSum(journals[key].lines)
            && (journals[key].status == Reversed ==>
                  && SourceKey(key) in journals && SourceKey(key).0 == key.0
                  && journals[key].reverses == Some(journals[SourceKey(key)].id)
                  && journals[SourceKey(key)].status == Posted
                  && NetOn(journals[key].lines, accountId) + NetOn(journals[SourceKey(key)].lines, accountId) == 0)
  {
    EmptyIsInOrder();
    RunKeepsBook(upper, Empty, commands);
    var s := Run(upper, Empty, commands);
    hide Run, DebitSum, CreditSum, NetOn, Map;
    assert EntryOk(s, key, s.journals[key]);
    if s.journals[key].status == Reversed {
      SwapUndoes(s.journals[SourceKey(key)].lines, accountId);
    }
  }

  lemma SourceKeyInjective(a: Key, b: Key)
    requires REVERSAL <= a.1 && REVERSAL <= b.1 && SourceKey(a) == SourceKey(b)
    ensures a == b
  {
    var n := |REVERSAL|;
    assert (REVENUE + a.1[n..])[|REVENUE|..] == a.1[n..] && (REVENUE + b.1[n..])[|REVENUE|..] == b.1[n..];
    assert a.1[..n] == REVERSAL == b.1[..n];
    assert a.1 == a.1[..n] + a.1[n..] && b.1 == b.1[..n] + b.1[n..];
  }

  /** No entry is reversed twice: two reversals of one entry are the same reversal. */
  lemma ReversedOnce(upper: string -> string, commands: seq<Command>, a: Key, b: Key)
    requires AllDecode(commands)
    requires var journals := Run(upper, Empty, commands).journals;
             a in journals && b in journals && journals[a].status == Reversed == journals[b].status
             && journals[a].reverses == journals[b].reverses
    ensures a == b
  {
    EmptyIsInOrder();
    RunKeepsBook(upper, Empty, commands);
    var s := Run(upper, Empty, commands);
    hide Run, DebitSum, CreditSum, Map, SourceKey, InTenant;
    assert EntryOk(s, a, s.journals[a]) && EntryOk(s, b, s.journals[b]);
    assert s.journals[SourceKey(a)].id == s.journals[SourceKey(b)].id;
    SourceKeyInjective(a, b);
  }

  /**
   * Idempotency over any run: once a journal is posted, posting lines in order under the same
   * reference, however much later, changes nothing and returns the stored entry exactly when the
   * lines are the same in minor units, in any order; otherwise it is refused as a conflict.
   */
  lemma PostedJournalReplays(upper: string -> string, s: State, tenantId: string, reference: string, lines: seq<Line>,
                             commands: seq<Command>, again: string, more: seq<Line>)
    requires Inv(s) && AllDecode(commands) && AddJournal(s, tenantId, reference, lines).1.Done?
    requires T.Trim(again) == T.Trim(reference) && Balanced(more)
    requires AllInTenant(Run(upper, AddJournal(s, tenantId, reference, lines).0, commands), tenantId, more)
    ensures var (posted, outcome) := AddJournal(s, tenantId, reference, lines);
            var later := Run(upper, posted, commands);
            && AddJournal(later, tenantId, again, more).0 == later
            && (SameLines(more, lines) <==> AddJournal(later, tenantId, again, more).1 == outcome)
            && (!SameLines(more, lines) <==> AddJournal(later, tenantId, again, more).1 == Failed(IdempotencyConflict(T.Trim(reference))))
  {
    var (posted, outcome) := AddJournal(s, tenantId, reference, lines);
    var later := Run(upper, posted, commands);
    AddJournalKeeps(s, tenantId, reference, lines);
    RunKeepsBook(upper, posted, commands);
    PostedIsStored(s, tenantId, reference, lines);
    hide Run, Inv, T.Trim, Balanced, InTenant, AddJournal, Map;
    StoredReplays(later, tenantId, again, more);
  }

  lemma PostedIsStored(s: State, tenantId: string, reference: string, lines: seq<Line>)
    requires AddJournal(s, tenantId, reference, lines).1.Done?
    ensures var (posted, outcome) := AddJournal(s, tenantId, reference, lines);
            var key := (tenantId, T.Trim(reference));
            key in posted.journals && posted.journals[key] == outcome.value && SameLines(outcome.value.lines, lines)
  {
    hide T.Trim, Fault, NormalizeLines, InTenant, Map;
    var key := (tenantId, T.Trim(reference));
    if key in s.journals {
      NormalizedExactly(s.journals[key].lines, lines);
    }
  }

  lemma StoredReplays(s: State, tenantId: string, reference: string, lines: seq<Line>)
    requires (tenantId, T.Trim(reference)) in s.journals && Balanced(lines) && AllInTenant(s, tenantId, lines)
    ensures var entry := s.journals[(tenantId, T.Trim(reference))];
            AddJournal(s, tenantId, reference, lines) ==
            (s, if SameLines(entry.lines, lines) then Done(entry) else Failed(IdempotencyConflict(T.Trim(reference))))
  {
    hide T.Trim, NormalizeLines, AllInTenant, SameLines, Balanced;
    NormalizedExactly(s.journals[(tenantId, T.Trim(reference))].lines, lines);
  }

  /** Reversing an order again, however much later, returns the entry the first reversal returned. */
  lemma ReversalReplays(upper: string -> string, s: State, tenantId: string, legalEntityId: string, orderId: string,
                        postingEnabled: bool, today: int, commands: seq<Command>, enabled: bool, day: int)
    requires Inv(s) && AllDecode(commands) && AddReversal(s, tenantId, legalEntityId, orderId, postingEnabled, today).1.Done?
    ensures var (reversed, outcome) := AddReversal(s, tenantId, legalEntityId, orderId, postingEnabled, today);
            var later := Run(upper, reversed, commands);
            AddReversal(later, tenantId, legalEntityId, orderId, enabled, day) == (later, outcome)
  {
    var (reversed, outcome) := AddReversal(s, tenantId, legalEntityId, orderId, postingEnabled, today);
    AddReversalKeeps(s, tenantId, legalEntityId, orderId, postingEnabled, today);
    RunKeepsBook(upper, reversed, commands);
    hide Run, Inv, OpenOn, ReversalReference, RevenueReference;
  }

  /** Posting an order's revenue again returns the entry for the same amount, and conflicts for another. */
  lemma RevenueReplays(upper: string -> string, s: State, tenantId: string, legalEntityId: string, orderId: string,
                       amount: M.MajorAmount, postingEnabled: bool, today: int, appended: bool, commands: seq<Command>,
                       again: M.MajorAmount, enabled: bool, day: int, taken: bool)
    requires Inv(s) && AllDecode(commands)
    requires AddRevenue(s, tenantId, legalEntityId, orderId, amount, postingEnabled, today, appended).1.Done?
    ensures var (posted, outcome) := AddRevenue(s, tenantId, legalEntityId, orderId, amount, postingEnabled, today, appended);
            var later := Run(upper, posted, commands);
            AddRevenue(later, tenantId, legalEntityId, orderId, again, enabled, day, taken) ==
            (later, if again == amount then outcome else Failed(IdempotencyConflict(RevenueReference(legalEntityId, orderId))))
  {
    var (posted, outcome) := AddRevenue(s, tenantId, legalEntityId, orderId, amount, postingEnabled, today, appended);
    AddRevenueKeeps(s, tenantId, legalEntityId, orderId, amount, postingEnabled, today, appended);
    RunKeepsBook(upper, posted, commands);
    RevenueIsStored(s, tenantId, legalEntityId, orderId, amount, postingEnabled, today, appended);
    hide Run, Inv, AddRevenue, RevenueReference;
    StoredRevenueReplays(Run(upper, posted, commands), tenantId, legalEntityId, orderId, again, enabled, day, taken);
  }

  lemma RevenueIsStored(s: State, tenantId: string, legalEntityId: string, orderId: string, amount: M.MajorAmount,
                        postingEnabled: bool, today: int, appended: bool)
    requires AddRevenue(s, tenantId, legalEntityId, orderId, amount, postingEnabled, today, appended).1.Done?
    ensures var (posted, outcome) := AddRevenue(s, tenantId, legalEntityId, orderId, amount, postingEnabled, today, appended);
            var key := (tenantId, RevenueReference(legalEntityId, orderId));
            && key in posted.journals && posted.journals[key] == outcome.value
            && outcome.value.lines != [] && outcome.value.lines[0].debit == amount
  {
    hide OpenOn, RevenueReference, M.ZeroAmount;
  }

  lemma StoredRevenueReplays(s: State, tenantId: string, legalEntityId: string, orderId: string, amount: M.MajorAmount,
                             postingEnabled: bool, today: int, appended: bool)
    requires (tenantId, RevenueReference(legalEntityId, orderId)) in s.journals
    requires s.journals[(tenantId, RevenueReference(legalEntityId, orderId))].lines != []
    ensures var reference := RevenueReference(legalEntityId, orderId);
            var entry := s.journals[(tenantId, reference)];
            AddRevenue(s, tenantId, legalEntityId, orderId, amount, postingEnabled, today, appended) ==
            (s, if entry.lines[0].debit == amount then Done(entry) else Failed(IdempotencyConflict(reference)))
  {
    hide OpenOn, RevenueReference, M.ZeroAmount;
  }

  /** The lines debit the profile's receivable and credit its revenue account by the amount, and nothing else. */
  ghost predicate BooksRevenue(profile: Profile, amount: M.MajorAmount, lines: seq<Line>) {
    forall a :: NetOn(lines, a) == NetRevenue(profile, M.MinorOf(amount), a)
  }

  function NetRevenue(profile: Profile, minor: int, accountId: Id): int {
    if accountId == profile.receivableAccountId then minor else if accountId == profile.revenueAccountId then -minor else 0
  }

  /** New revenue is booked on a day of an open period, on an asset and a revenue account of the tenant. */
  lemma RevenueBooks(s: State, tenantId: string, legalEntityId: string, orderId: string, amount: M.MajorAmount,
                     postingEnabled: bool, today: int, appended: bool, entry: Entry)
    requires Inv(s) && (tenantId, RevenueReference(legalEntityId, orderId)) !in s.journals
    requires AddRevenue(s, tenantId, legalEntityId, orderId, amount, postingEnabled, today, appended).1 == Done(entry)
    ensures (tenantId, legalEntityId) in s.profiles && OpenOn(s, tenantId, legalEntityId, today)
    ensures ProfileFits(s, (tenantId, legalEntityId), s.profiles[(tenantId, legalEntityId)])
    ensures BooksRevenue(s.profiles[(tenantId, legalEntityId)], amount, entry.lines)
  {
    hide M.MinorOf, M.ZeroAmount, OpenOn, RevenueReference, AccountsOk, PeriodsOk, JournalsOk, RevenueLines, NetOn, InTenant;
    var profile := s.profiles[(tenantId, legalEntityId)];
    assert ProfileFits(s, (tenantId, legalEntityId), profile);
    RevenueLinesBook(profile, amount);
  }

  lemma RevenueLinesBook(profile: Profile, amount: M.MajorAmount)
    requires profile.receivableAccountId != profile.revenueAccountId
    ensures BooksRevenue(profile, amount, RevenueLines(profile, amount))
  {
    hide M.MinorOf, M.ZeroAmount, RevenueLines, NetOn;
    forall a ensures NetOn(RevenueLines(profile, amount), a) == NetRevenue(profile, M.MinorOf(amount), a) {
      RevenueNets(profile, amount, a);
    }
  }

  lemma RevenueNets(profile: Profile, amount: M.MajorAmount, accountId: Id)
    requires profile.receivableAccountId != profile.revenueAccountId
    ensures NetOn(RevenueLines(profile, amount), accountId) == NetRevenue(profile, M.MinorOf(amount), accountId)
  {
    M.ZeroIsNothing();
    hide M.MinorOf, M.ZeroAmount, NetOn;
    TwoLineNet(RevenueLines(profile, amount)[0], RevenueLines(profile, amount)[1], accountId);
  }

  lemma TwoLineNet(first: Line, second: Line, accountId: Id)
    ensures NetOn([first, second], accountId) ==
            (if first.accountId == accountId then M.MinorOf(first.debit) - M.MinorOf(first.credit) else 0)
            + (if second.accountId == accountId then M.MinorOf(second.debit) - M.MinorOf(second.credit) else 0)
  {
    hide M.MinorOf;
    assert [first][..0] == [];
    assert NetOn([first], accountId) == if first.accountId == accountId then M.MinorOf(first.debit) - M.MinorOf(first.credit) else 0;
    assert [first, second][..1] == [first];
  }

  /** A closed period is closed for good: no day in it is ever open for posting again. */
  lemma ClosedStaysClosed(upper: string -> string, s: State, tenantId: string, legalEntityId: string, periodId: Id,
                          commands: seq<Command>, day: int)
    requires Inv(s) && AllDecode(commands) && EndPeriod(s, tenantId, legalEntityId, periodId).1.Done?
    requires s.periods[periodId].startsOn <= day <= s.periods[periodId].endsOn
    ensures !OpenOn(Run(upper, EndPeriod(s, tenantId, legalEntityId, periodId).0, commands), tenantId, legalEntityId, day)
  {
    var closed := EndPeriod(s, tenantId, legalEntityId, periodId).0;
    var later := Run(upper, closed, commands);
    EndPeriodKeeps(s, tenantId, legalEntityId, periodId);
    RunKeepsBook(upper, closed, commands);
    hide Run, AccountsOk, ProfilesOk, JournalsOk;
    assert PeriodEvolves(closed.periods[periodId], later.periods[periodId]);
    forall id | id in later.periods && id != periodId ensures !Clash(later.periods[id], later.periods[periodId]) {
    }
  }

  /** A tenant's account code stays taken, however it is spelled. */
  lemma CodeStaysTaken(upper: string -> string, s: State, tenantId: string, code: string, name: string, kind: AccountType,
                       commands: seq<Command>, again: string, other: string, otherKind: AccountType)
    requires Inv(s) && AllDecode(commands) && AddAccount(upper, s, tenantId, code, name, kind).1.Done?
    requires upper(T.Trim(again)) == upper(T.Trim(code))
    ensures var later := Run(upper, AddAccount(upper, s, tenantId, code, name, kind).0, commands);
            AddAccount(upper, later, tenantId, again, other, otherKind) == (later, Failed(AccountExists(upper(T.Trim(code)))))
  {
    var (created, outcome) := AddAccount(upper, s, tenantId, code, name, kind);
    var later := Run(upper, created, commands);
    AddAccountKeeps(upper, s, tenantId, code, name, kind);
    RunKeepsBook(upper, created, commands);
    hide Run, Inv, T.Trim;
    assert s.nextId in later.accounts && later.accounts[s.nextId] == outcome.value;
  }

  /** The same amount in another text is refused as a conflict. */
  lemma SameAmountConflicts(s: State, tenantId: string, legalEntityId: string, orderId: string, postingEnabled: bool, today: int,
                            appended: bool, enabled: bool, day: int, taken: bool)
    requires AddRevenue(s, tenantId, legalEntityId, orderId, M.Ten(), postingEnabled, today, appended).1.Done?
    ensures M.MinorOf(M.Ten()) == M.MinorOf(M.TenAndNoCents())
    ensures var posted := AddRevenue(s, tenantId, legalEntityId, orderId, M.Ten(), postingEnabled, today, appended).0;
            AddRevenue(posted, tenantId, legalEntityId, orderId, M.TenAndNoCents(), enabled, day, taken) ==
            (posted, Failed(IdempotencyConflict(RevenueReference(legalEntityId, orderId))))
  {
    M.TenIsTen();
    RevenueIsStored(s, tenantId, legalEntityId, orderId, M.Ten(), postingEnabled, today, appended);
    var posted := AddRevenue(s, tenantId, legalEntityId, orderId, M.Ten(), postingEnabled, today, appended).0;
    hide AddRevenue, RevenueReference, M.MinorOf;
    StoredRevenueReplays(posted, tenantId, legalEntityId, orderId, M.TenAndNoCents(), enabled, day, taken);
  }

  // ---- Reversals and plain entries ----------------------------------------

  /** A journal posted by hand holds the key. */
  predicate PlainUnder(s: State, key: Key) {
    key in s.journals && s.journals[key].status == Posted
  }

  /** The entry undoes the stored entry of its order on every account. */
  ghost predicate Reverses(s: State, key: Key, entry: Entry) {
    && entry.status == Reversed && SourceKey(key) in s.journals && entry.reverses == Some(s.journals[SourceKey(key)].id)
    && forall a :: NetOn(entry.lines, a) + NetOn(s.journals[SourceKey(key)].lines, a) == 0
  }

  /** Exactly when a reversal that succeeds reverses anything: no journal posted by hand holds its reference. */
  lemma ReversesExactly(s: State, tenantId: string, legalEntityId: string, orderId: string, postingEnabled: bool, today: int)
    requires Inv(s) && AddReversal(s, tenantId, legalEntityId, orderId, postingEnabled, today).1.Done?
    ensures var (after, outcome) := AddReversal(s, tenantId, legalEntityId, orderId, postingEnabled, today);
            var key := (tenantId, ReversalReference(legalEntityId, orderId));
            Reverses(after, key, outcome.value) <==> !PlainUnder(s, key)
  {
    var (after, outcome) := AddReversal(s, tenantId, legalEntityId, orderId, postingEnabled, today);
    var key := (tenantId, ReversalReference(legalEntityId, orderId));
    AddReversalKeeps(s, tenantId, legalEntityId, orderId, postingEnabled, today);
    ReversalIsStored(s, tenantId, legalEntityId, orderId, postingEnabled, today);
    hide AddReversal, AccountsOk, PeriodsOk, ProfilesOk, ReversalReference;
    StoredReverses(after, key);
  }

  lemma ReversalIsStored(s: State, tenantId: string, legalEntityId: string, orderId: string, postingEnabled: bool, today: int)
    requires AddReversal(s, tenantId, legalEntityId, orderId, postingEnabled, today).1.Done?
    ensures var (after, outcome) := AddReversal(s, tenantId, legalEntityId, orderId, postingEnabled, today);
            var key := (tenantId, ReversalReference(legalEntityId, orderId));
            key in after.journals && after.journals[key] == outcome.value && (outcome.value.status == Posted <==> PlainUnder(s, key))
  {
    hide OpenOn, ReversalReference, RevenueReference, Map;
  }

  lemma StoredReverses(s: State, key: Key)
    requires JournalsOk(s) && key in s.journals
    ensures Reverses(s, key, s.journals[key]) <==> s.journals[key].status == Reversed
  {
    var entry := s.journals[key];
    assert EntryOk(s, key, entry);
    hide DebitSum, CreditSum, NetOn, Map, SourceKey;
    if entry.status == Reversed {
      forall a ensures NetOn(entry.lines, a) + NetOn(s.journals[SourceKey(key)].lines, a) == 0 {
        SwapUndoes(s.journals[SourceKey(key)].lines, a);
      }
    }
  }

  /**
   * Nothing forbids a journal under a reversal's reference: once it is posted, reversing the order
   * returns that journal, which reverses nothing.
   */
  lemma PlainEntryTakesReversal(s: State, tenantId: string, legalEntityId: string, orderId: string, lines: seq<Line>,
                                postingEnabled: bool, today: int)
    requires Balanced(lines) && AllInTenant(s, tenantId, lines) && orderId != "" && !T.IsSpace(orderId[|orderId| - 1])
    requires (tenantId, ReversalReference(legalEntityId, orderId)) !in s.journals
    ensures var (posted, entry) := AddJournal(s, tenantId, ReversalReference(legalEntityId, orderId), lines);
            && AddReversal(posted, tenantId, legalEntityId, orderId, postingEnabled, today) == (posted, entry)
            && entry.Done? && entry.value.status == Posted && entry.value.reverses.None?
  {
    ReversalIsTrimmed(legalEntityId, orderId);
    hide T.Trim, ReversalReference, Balanced, AllInTenant;
  }

  lemma ReversalIsTrimmed(legalEntityId: string, orderId: string)
    requires orderId != "" && !T.IsSpace(orderId[|orderId| - 1])
    ensures T.Trim(ReversalReference(legalEntityId, orderId)) == ReversalReference(legalEntityId, orderId)
  {
    var s := ReversalReference(legalEntityId, orderId);
    assert s[0] == 'r' && s[|s| - 1] == orderId[|orderId| - 1];
  }

  // ---- Revenue and plain entries ------------------------------------------

  /** The command stores a journal posted by hand under the key. */
  predicate Takes(s: State, command: Command, key: Key) {
    && command.Post? && key == (command.tenantId, T.Trim(command.reference)) && key !in s.journals
    && AddJournal(s, command.tenantId, command.reference, command.lines).1.Done?
  }

  /** The lines of the journal a run stores by hand under the key, if it does. */
  function HandLines(upper: string -> string, s: State, commands: seq<Command>, key: Key): Option<seq<Line>>
    decreases commands
  {
    if commands == [] then None
    else if Takes(s, commands[0], key) then Some(commands[0].lines)
    else HandLines(upper, Step(upper, s, commands[0]), commands[1..], key)
  }

  /** Legal entity ids of revenue are UUIDs, which have no colon. */
  ghost predicate PlainEntities(commands: seq<Command>) {
    forall i :: 0 <= i < |commands| && commands[i].PostRevenue? ==> T.NoColon(commands[i].legalEntityId)
  }

  lemma ReferenceInjective(a: string, x: string, b: string, y: string)
    requires T.NoColon(a) && T.NoColon(b) && RevenueReference(a, x) == RevenueReference(b, y)
    ensures a == b && x == y
  {
    hide T.NoColon;
    assert RevenueReference(a, x)[|REVENUE|..] == a + ":" + x && RevenueReference(b, y)[|REVENUE|..] == b + ":" + y;
    T.FirstColon(a, x, b, y);
  }

  lemma ReversalIsNoRevenue(a: string, x: string, b: string, y: string)
    ensures ReversalReference(a, x) != RevenueReference(b, y)
  {
    assert ReversalReference(a, x)[7] == '-' && RevenueReference(b, y)[7] == ':';
  }

  /** The lines under the key are those of revenue on the legal entity's profile. */
  predicate RevenueUnder(s: State, key: Key, legalEntityId: string) {
    && key in s.journals && (key.0, legalEntityId) in s.profiles && s.journals[key].lines != []
    && s.journals[key].lines == RevenueLines(s.profiles[(key.0, legalEntityId)], s.journals[key].lines[0].debit)
  }

  /** One step puts an entry under an order's reference only by hand or as the order's revenue. */
  lemma StepStores(upper: string -> string, s: State, command: Command, tenantId: string, legalEntityId: string, orderId: string)
    requires T.NoColon(legalEntityId) && (command.PostRevenue? ==> T.NoColon(command.legalEntityId))
    requires var key := (tenantId, RevenueReference(legalEntityId, orderId));
             key !in s.journals && key in Step(upper, s, command).journals
    ensures var key, after := (tenantId, RevenueReference(legalEntityId, orderId)), Step(upper, s, command);
            if Takes(s, command, key) then after.journals[key].lines == command.lines else RevenueUnder(after, key, legalEntityId)
  {
    hide T.NoColon, T.Trim, RevenueReference, ReversalReference, OpenOn, M.ZeroAmount, Fault, NormalizeLines, AllInTenant;
    if command.PostRevenue? {
      if RevenueReference(command.legalEntityId, command.orderId) == RevenueReference(legalEntityId, orderId) {
        ReferenceInjective(command.legalEntityId, command.orderId, legalEntityId, orderId);
      }
    } else if command.Reverse? {
      ReversalIsNoRevenue(command.legalEntityId, command.orderId, legalEntityId, orderId);
    }
  }

  /** Where the entry under an order's reference comes from: posted by hand, or the order's revenue. */
  lemma {:induction false} RevenueOrigin(upper: string -> string, s: State, commands: seq<Command>, tenantId: string,
                                         legalEntityId: string, orderId: string)
    requires Inv(s) && AllDecode(commands) && PlainEntities(commands) && T.NoColon(legalEntityId)
    requires var key := (tenantId, RevenueReference(legalEntityId, orderId));
             key !in s.journals && key in Run(upper, s, commands).journals
    ensures var key, after := (tenantId, RevenueReference(legalEntityId, orderId)), Run(upper, s, commands);
            match HandLines(upper, s, commands, key)
            case Some(lines) => after.journals[key].lines == lines
            case None => RevenueUnder(after, key, legalEntityId)
    decreases commands
  {
    hide Inv, Extends, Step, Decodes, T.NoColon, RevenueReference, Takes, RevenueLines;
    var key, next, rest := (tenantId, RevenueReference(legalEntityId, orderId)), Step(upper, s, commands[0]), commands[1..];
    StepKeeps(upper, s, commands[0]);
    assert forall i :: 0 <= i < |rest| ==> rest[i] == commands[i + 1];
    if key in next.journals {
      StepStores(upper, s, commands[0], tenantId, legalEntityId, orderId);
      RunKeepsBook(upper, next, rest);
      StaysUnder(next, Run(upper, next, rest), key, legalEntityId);
      NeverTaken(upper, next, rest, key);
    } else {
      NotStored(upper, s, commands[0], key);
      RevenueOrigin(upper, next, rest, tenantId, legalEntityId, orderId);
    }
  }

  lemma StaysUnder(s: State, after: State, key: Key, legalEntityId: string)
    requires Extends(s, after) && key in s.journals
    ensures key in after.journals && after.journals[key] == s.journals[key]
    ensures RevenueUnder(s, key, legalEntityId) ==> RevenueUnder(after, key, legalEntityId)
  {
    hide RevenueLines;
  }

  lemma {:induction false} NeverTaken(upper: string -> string, s: State, commands: seq<Command>, key: Key)
    requires Inv(s) && AllDecode(commands) && key in s.journals
    ensures HandLines(upper, s, commands, key).None?
    decreases commands
  {
    if commands != [] {
      hide Inv, Step, Decodes;
      StepKeeps(upper, s, commands[0]);
      NeverTaken(upper, Step(upper, s, commands[0]), commands[1..], key);
    }
  }

  lemma NotStored(upper: string -> string, s: State, command: Command, key: Key)
    requires key !in Step(upper, s, command).journals
    ensures !Takes(s, command, key)
  {
    hide T.Trim, Fault, NormalizeLines, AllInTenant;
  }

  /** The profile exists and the lines book the amount on it. */
  ghost predicate BooksOn(s: State, profileKey: Key, amount: M.MajorAmount, lines: seq<Line>) {
    profileKey in s.profiles && BooksRevenue(s.profiles[profileKey], amount, lines)
  }

  /**
   * What a revenue answer means at any point of a run: unless a journal posted by hand took the
   * order's reference, the entry books the amount on the stored profile. Otherwise the entry is that
   * journal, and books the amount exactly when its lines happen to.
   */
  lemma RevenueAnswersExactly(upper: string -> string, commands: seq<Command>, tenantId: string, legalEntityId: string,
                              orderId: string, amount: M.MajorAmount, postingEnabled: bool, today: int, appended: bool)
    requires AllDecode(commands) && PlainEntities(commands) && T.NoColon(legalEntityId)
    requires AddRevenue(Run(upper, Empty, commands), tenantId, legalEntityId, orderId, amount, postingEnabled, today, appended).1.Done?
    ensures var s := Run(upper, Empty, commands);
            var (after, outcome) := AddRevenue(s, tenantId, legalEntityId, orderId, amount, postingEnabled, today, appended);
            var hand := HandLines(upper, Empty, commands, (tenantId, RevenueReference(legalEntityId, orderId)));
            && (hand.None? ==> BooksOn(after, (tenantId, legalEntityId), amount, outcome.value.lines))
            && (hand.Some? ==> after == s && outcome.value.lines == hand.value && hand.value != [] && hand.value[0].debit == amount)
            && (BooksOn(after, (tenantId, legalEntityId), amount, outcome.value.lines) <==>
                hand.None? || BooksOn(s, (tenantId, legalEntityId), amount, hand.value))
  {
    var s, key := Run(upper, Empty, commands), (tenantId, RevenueReference(legalEntityId, orderId));
    EmptyIsInOrder();
    RunKeepsBook(upper, Empty, commands);
    RevenueIsStored(s, tenantId, legalEntityId, orderId, amount, postingEnabled, today, appended);
    hide Run, HandLines, T.NoColon, RevenueReference, BooksRevenue, RevenueLines;
    if key in s.journals {
      RevenueOrigin(upper, Empty, commands, tenantId, legalEntityId, orderId);
      AddRevenueReturns(s, tenantId, legalEntityId, orderId, amount, postingEnabled, today, appended);
      hide AddRevenue;
      if RevenueUnder(s, key, legalEntityId) {
        UnderBooks(s, key, legalEntityId);
      }
    } else {
      var outcome := AddRevenue(s, tenantId, legalEntityId, orderId, amount, postingEnabled, today, appended).1;
      RevenueBooks(s, tenantId, legalEntityId, orderId, amount, postingEnabled, today, appended, outcome.value);
      NotTaken(upper, Empty, commands, key);
      hide Inv, OpenOn, ProfileFits;
    }
  }

  lemma AddRevenueReturns(s: State, tenantId: string, legalEntityId: string, orderId: string, amount: M.MajorAmount,
                          postingEnabled: bool, today: int, appended: bool)
    requires (tenantId, RevenueReference(legalEntityId, orderId)) in s.journals
    requires AddRevenue(s, tenantId, legalEntityId, orderId, amount, postingEnabled, today, appended).1.Done?
    ensures AddRevenue(s, tenantId, legalEntityId, orderId, amount, postingEnabled, today, appended) ==
            (s, Done(s.journals[(tenantId, RevenueReference(legalEntityId, orderId))]))
  {
    hide OpenOn, RevenueReference, RevenueLines;
  }

  lemma UnderBooks(s: State, key: Key, legalEntityId: string)
    requires Inv(s) && RevenueUnder(s, key, legalEntityId)
    ensures BooksOn(s, (key.0, legalEntityId), s.journals[key].lines[0].debit, s.journals[key].lines)
  {
    var profile := s.profiles[(key.0, legalEntityId)];
    assert ProfileFits(s, (key.0, legalEntityId), profile);
    hide AccountsOk, PeriodsOk, ProfilesOk, JournalsOk, RevenueLines, InTenant;
    RevenueLinesBook(profile, s.journals[key].lines[0].debit);
    hide BooksRevenue;
  }

  lemma {:induction false} NotTaken(upper: string -> string, s: State, commands: seq<Command>, key: Key)
    requires Inv(s) && AllDecode(commands) && key !in Run(upper, s, commands).journals
    ensures HandLines(upper, s, commands, key).None?
    decreases commands
  {
    if commands != [] {
      hide Inv, Step, Decodes, Takes, Extends;
      var next := Step(upper, s, commands[0]);
      StepKeeps(upper, s, commands[0]);
      RunKeepsBook(upper, next, commands[1..]);
      StoredStays(next, Run(upper, next, commands[1..]), key);
      NotStored(upper, s, commands[0], key);
      NotTaken(upper, next, commands[1..], key);
    }
  }

  lemma StoredStays(s: State, after: State, key: Key)
    requires Extends(s, after) && key !in after.journals
    ensures key !in s.journals
  {
  }

  /**
   * Nothing forbids a journal under an order's reference: once it is posted, posting the order's
   * revenue for the amount of its first debit returns it, with no profile, open period or event, and
   * on whatever accounts it names.
   */
  lemma PlainEntryTakesRevenue(s: State, tenantId: string, legalEntityId: string, orderId: string, lines: seq<Line>,
                               postingEnabled: bool, today: int, appended: bool)
    requires Balanced(lines) && AllInTenant(s, tenantId, lines) && orderId != "" && !T.IsSpace(orderId[|orderId| - 1])
    requires (tenantId, RevenueReference(legalEntityId, orderId)) !in s.journals
    ensures var (posted, entry) := AddJournal(s, tenantId, RevenueReference(legalEntityId, orderId), lines);
            && lines != [] && entry.Done? && entry.value.lines == lines
            && AddRevenue(posted, tenantId, legalEntityId, orderId, lines[0].debit, postingEnabled, today, appended) == (posted, entry)
            && ((tenantId, legalEntityId) !in s.profiles ==> !BooksOn(posted, (tenantId, legalEntityId), lines[0].debit, entry.value.lines))
  {
    RevenueIsTrimmed(legalEntityId, orderId);
    BalancedIsTwo(lines);
    hide T.Trim, RevenueReference, Balanced, AllInTenant, OpenOn, BooksRevenue;
  }

  lemma BalancedIsTwo(lines: seq<Line>)
    requires Balanced(lines)
    ensures lines != []
  {
  }

  lemma RevenueIsTrimmed(legalEntityId: string, orderId: string)
    requires orderId != "" && !T.IsSpace(orderId[|orderId| - 1])
    ensures T.Trim(RevenueReference(legalEntityId, orderId)) == RevenueReference(legalEntityId, orderId)
  {
    var s := RevenueReference(legalEntityId, orderId);
    assert s[0] == 'r' && s[|s| - 1] == orderId[|orderId| - 1];
  }
}
