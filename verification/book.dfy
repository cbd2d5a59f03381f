/** The accounting book: accounts, periods, revenue profiles and the journal entries posted against them. */
module AccountingBook {
  import opened Facts
  import opened Optional
  import D = Decimal
  import M = Money
  import T = Texts

  /** Identifiers minted by the program, printed where it prints a UUID. */
  type Id = nat

  datatype Line = Line(accountId: Id, debit: M.MajorAmount, credit: M.MajorAmount)

  datatype MinorLine = MinorLine(accountId: Id, debit: nat, credit: nat)

  datatype Status = Posted | Reversed

  datatype Entry = Entry(id: Id, tenantId: string, reference: string, status: Status, reverses: Option<Id>, lines: seq<Line>)

  datatype AccountType = Asset | Liability | Equity | Revenue | Expense

  datatype Account = Account(id: Id, tenantId: string, code: string, name: string, kind: AccountType)

  datatype Period = Period(id: Id, tenantId: string, legalEntityId: string, startsOn: int, endsOn: int, open: bool)

  datatype Profile = Profile(tenantId: string, legalEntityId: string, receivableAccountId: Id, revenueAccountId: Id)

  datatype Rejection =
    | Unbalanced(debit: nat, credit: nat)
    | InvalidLine(index: nat)
    | AccountNotFound
    | IdempotencyConflict(reference: string)
    | ProfileNotFound
    | PeriodNotOpen
    | RevenueNotFound
    | AppendFailed
    | AccountExists(code: string)
    | InvalidProfile
    | ProfileExists
    | PeriodOverlap
    | PeriodNotFound

  datatype Outcome<+T> = Done(value: T) | Failed(rejection: Rejection)

  // ---- Lines --------------------------------------------------------------

  function Minor(): Line -> MinorLine {
    (line: Line) => MinorLine(line.accountId, M.MinorOf(line.debit), M.MinorOf(line.credit))
  }

  function LineText(): Line -> string {
    (line: Line) => D.Print(line.accountId) + ":" + D.Print(M.MinorOf(line.debit)) + ":" + D.Print(M.MinorOf(line.credit))
  }

  /** `normalizeLines`: the texts of the lines in minor units, sorted. */
  function NormalizeLines(lines: seq<Line>): seq<string> {
    Sorted(T.Leq, Map(LineText(), lines))
  }

  /** The same lines in any order, amounts compared in minor units. */
  ghost predicate SameLines(a: seq<Line>, b: seq<Line>) {
    multiset(Map(Minor(), a)) == multiset(Map(Minor(), b))
  }

  lemma LineTextExact(a: Line, b: Line)
    ensures LineText()(a) == LineText()(b) <==> Minor()(a) == Minor()(b)
  {
    hide M.MinorOf;
    if LineText()(a) == LineText()(b) {
      var x, y := D.Print(a.accountId) + ":" + D.Print(M.MinorOf(a.debit)), D.Print(b.accountId) + ":" + D.Print(M.MinorOf(b.debit));
      D.ColonSplit(x, D.Print(M.MinorOf(a.credit)), y, D.Print(M.MinorOf(b.credit)));
      D.ColonSplit(D.Print(a.accountId), D.Print(M.MinorOf(a.debit)), D.Print(b.accountId), D.Print(M.MinorOf(b.debit)));
      D.PrintInjective(a.accountId, b.accountId);
      D.PrintInjective(M.MinorOf(a.debit), M.MinorOf(b.debit));
      D.PrintInjective(M.MinorOf(a.credit), M.MinorOf(b.credit));
    }
  }

  lemma TextOrder(texts: seq<string>)
    ensures TotalPreorder(T.Leq) && TieFree(T.Leq, texts)
  {
    forall a, b ensures T.Leq(a, b) || T.Leq(b, a) ensures T.Leq(a, b) && T.Leq(b, a) ==> a == b {
      T.LeqTotal(a, b);
    }
    forall a, b, c | T.Leq(a, b) && T.Leq(b, c) ensures T.Leq(a, c) {
      T.LeqTransitive(a, b, c);
    }
  }

  /** Normalised lines are equal exactly when the lines are the same multiset in minor units. */
  lemma NormalizedExactly(a: seq<Line>, b: seq<Line>)
    ensures NormalizeLines(a) == NormalizeLines(b) <==> SameLines(a, b)
  {
    TextOrder(Map(LineText(), a));
    hide TotalPreorder, TieFree, T.Leq, Sorted, LineText, Minor, Map;
    SortedIsCanonical(T.Leq, Map(LineText(), a), Map(LineText(), b));
    forall x, y ensures LineText()(x) == LineText()(y) <==> Minor()(x) == Minor()(y) {
      LineTextExact(x, y);
    }
    if SameLines(a, b) {
      MapFactors(Minor(), LineText(), a, b);
    }
    if NormalizeLines(a) == NormalizeLines(b) {
      MapFactors(LineText(), Minor(), a, b);
    }
  }

  function DebitSum(lines: seq<Line>): nat {
    if lines == [] then 0 else DebitSum(lines[..|lines| - 1]) + M.MinorOf(lines[|lines| - 1].debit)
  }

  function CreditSum(lines: seq<Line>): nat {
    if lines == [] then 0 else CreditSum(lines[..|lines| - 1]) + M.MinorOf(lines[|lines| - 1].credit)
  }

  /** Exactly one side of the line is positive. */
  predicate OneSided(line: Line) {
    (M.MinorOf(line.debit) > 0) != (M.MinorOf(line.credit) > 0)
  }

  ghost predicate AllOneSided(lines: seq<Line>) {
    forall i :: 0 <= i < |lines| ==> OneSided(lines[i])
  }

  /** What makes a list of lines a journal. */
  ghost predicate Balanced(lines: seq<Line>) {
    |lines| >= 2 && AllOneSided(lines) && DebitSum(lines) == CreditSum(lines)
  }

  /** The first fault of a list of lines; nothing is found exactly when the lines balance. */
  function Fault(lines: seq<Line>): (fault: Option<Rejection>)
    ensures fault.None? <==> Balanced(lines)
  {
    if |lines| < 2 then Some(Unbalanced(0, 0))
    else if FirstNot(OneSided, lines, 0) < |lines| then Some(InvalidLine(FirstNot(OneSided, lines, 0)))
    else if DebitSum(lines) == CreditSum(lines) then None
    else Some(Unbalanced(DebitSum(lines), CreditSum(lines)))
  }

  lemma NoLines(lines: seq<Line>)
    ensures DebitSum(lines[..0]) == 0 == CreditSum(lines[..0]) && FirstNot(OneSided, lines, |lines|) == |lines|
  {
  }

  /** One turn of the loop. */
  lemma LineStep(lines: seq<Line>, i: nat)
    requires i < |lines|
    ensures DebitSum(lines[..i + 1]) == DebitSum(lines[..i]) + M.MinorOf(lines[i].debit)
    ensures CreditSum(lines[..i + 1]) == CreditSum(lines[..i]) + M.MinorOf(lines[i].credit)
    ensures FirstNot(OneSided, lines, i) == if OneSided(lines[i]) then FirstNot(OneSided, lines, i + 1) else i
  {
    hide M.MinorOf, OneSided;
    assert lines[..i + 1][..i] == lines[..i];
  }

  method ValidateLines(lines: seq<Line>) returns (fault: Option<Rejection>)
    ensures fault == Fault(lines)
  {
    hide M.MinorOf, Balanced, AllOneSided, FirstNot, DebitSum, CreditSum;
    if |lines| < 2 {
      return Some(Unbalanced(0, 0));
    }
    var debit, credit := 0, 0;
    NoLines(lines);
    for i := 0 to |lines|
      invariant debit == DebitSum(lines[..i]) && credit == CreditSum(lines[..i])
      invariant FirstNot(OneSided, lines, 0) == FirstNot(OneSided, lines, i)
    {
      var lineDebit, lineCredit := M.MinorOf(lines[i].debit), M.MinorOf(lines[i].credit);
      LineStep(lines, i);
      if (lineDebit > 0) == (lineCredit > 0) {
        return Some(InvalidLine(i));
      }
      debit, credit := debit + lineDebit, credit + lineCredit;
    }
    assert lines[..|lines|] == lines;
    return if debit == credit then None else Some(Unbalanced(debit, credit));
  }

  function Swap(): Line -> Line {
    (line: Line) => Line(line.accountId, line.credit, line.debit)
  }

  /** Debits minus credits the lines book on one account. */
  function NetOn(lines: seq<Line>, accountId: Id): int {
    if lines == [] then 0 else
      var last := lines[|lines| - 1];
      NetOn(lines[..|lines| - 1], accountId)
      + if last.accountId == accountId then M.MinorOf(last.debit) - M.MinorOf(last.credit) else 0
  }

  lemma {:induction false} SwapUndoes(lines: seq<Line>, accountId: Id)
    ensures NetOn(Map(Swap(), lines), accountId) == -NetOn(lines, accountId)
    ensures DebitSum(Map(Swap(), lines)) == CreditSum(lines) && CreditSum(Map(Swap(), lines)) == DebitSum(lines)
  {
    hide M.MinorOf;
    if lines != [] {
      var n := |lines| - 1;
      SwapUndoes(lines[..n], accountId);
      assert Map(Swap(), lines)[..n] == Map(Swap(), lines[..n]);
      hide Map;
    }
  }

  // ---- The book -----------------------------------------------------------

  /** Tenants and references, the two parts of an entry's key. */
  type Key = (string, string)

  datatype State = State(
    accounts: map<Id, Account>, profiles: map<Key, Profile>, periods: map<Id, Period>, journals: map<Key, Entry>, nextId: Id)

  const Empty := State(map[], map[], map[], map[], 0)

  const REVENUE := "revenue:"
  const REVERSAL := "revenue-reversal:"

  function RevenueReference(legalEntityId: string, orderId: string): string {
    REVENUE + (legalEntityId + ":" + orderId)
  }

  function ReversalReference(legalEntityId: string, orderId: string): string {
    REVERSAL + (legalEntityId + ":" + orderId)
  }

  predicate InTenant(s: State, tenantId: string, accountId: Id) {
    accountId in s.accounts && s.accounts[accountId].tenantId == tenantId
  }

  predicate AllInTenant(s: State, tenantId: string, lines: seq<Line>) {
    forall i :: 0 <= i < |lines| ==> InTenant(s, tenantId, lines[i].accountId)
  }

  /** An open period of the legal entity covers the day. */
  predicate OpenOn(s: State, tenantId: string, legalEntityId: string, today: int) {
    exists id :: id in s.periods && s.periods[id].tenantId == tenantId && s.periods[id].legalEntityId == legalEntityId
                 && s.periods[id].open && s.periods[id].startsOn <= today <= s.periods[id].endsOn
  }

  predicate Overlaps(period: Period, tenantId: string, legalEntityId: string, startsOn: int, endsOn: int) {
    period.tenantId == tenantId && period.legalEntityId == legalEntityId && period.startsOn <= endsOn && startsOn <= period.endsOn
  }

  /** Codes are compared trimmed and in capitals; `upper` is the change to capitals. */
  function AddAccount(upper: string -> string, s: State, tenantId: string, code: string, name: string, kind: AccountType)
    : (State, Outcome<Account>)
  {
    var normal := upper(T.Trim(code));
    if exists id :: id in s.accounts && s.accounts[id].tenantId == tenantId && s.accounts[id].code == normal then
      (s, Failed(AccountExists(normal)))
    else
      var account := Account(s.nextId, tenantId, normal, T.Trim(name), kind);
      (s.(accounts := s.accounts[s.nextId := account], nextId := s.nextId + 1), Done(account))
  }

  function AddProfile(s: State, profile: Profile): (State, Outcome<Profile>) {
    var key := (profile.tenantId, profile.legalEntityId);
    if !InTenant(s, profile.tenantId, profile.receivableAccountId) || !InTenant(s, profile.tenantId, profile.revenueAccountId) then
      (s, Failed(AccountNotFound))
    else if s.accounts[profile.receivableAccountId].kind != Asset || s.accounts[profile.revenueAccountId].kind != Revenue then
      (s, Failed(InvalidProfile))
    else if key in s.profiles then (s, Failed(ProfileExists))
    else (s.(profiles := s.profiles[key := profile]), Done(profile))
  }

  function AddPeriod(s: State, tenantId: string, legalEntityId: string, startsOn: int, endsOn: int): (State, Outcome<Period>) {
    if exists id :: id in s.periods && Overlaps(s.periods[id], tenantId, legalEntityId, startsOn, endsOn) then
      (s, Failed(PeriodOverlap))
    else
      var period := Period(s.nextId, tenantId, legalEntityId, startsOn, endsOn, true);
      (s.(periods := s.periods[s.nextId := period], nextId := s.nextId + 1), Done(period))
  }

  function EndPeriod(s: State, tenantId: string, legalEntityId: string, periodId: Id): (State, Outcome<Period>) {
    if periodId !in s.periods || s.periods[periodId].tenantId != tenantId || s.periods[periodId].legalEntityId != legalEntityId then
      (s, Failed(PeriodNotFound))
    else
      var closed := s.periods[periodId].(open := false);
      (s.(periods := s.periods[closed.id := closed]), Done(closed))
  }

  function RevenueLines(profile: Profile, amount: M.MajorAmount): seq<Line> {
    [Line(profile.receivableAccountId, amount, M.ZeroAmount()), Line(profile.revenueAccountId, M.ZeroAmount(), amount)]
  }

  /** Two ids are spent on a posting, for the entry and for its event, even when the event is refused. */
  function AddRevenue(s: State, tenantId: string, legalEntityId: string, orderId: string, amount: M.MajorAmount,
                       postingEnabled: bool, today: int, appended: bool): (State, Outcome<Entry>)
  {
    var reference := RevenueReference(legalEntityId, orderId);
    if (tenantId, reference) in s.journals then
      var existing := s.journals[(tenantId, reference)];
      if existing.lines == [] || existing.lines[0].debit != amount then (s, Failed(IdempotencyConflict(reference)))
      else (s, Done(existing))
    else if (tenantId, legalEntityId) !in s.profiles then (s, Failed(ProfileNotFound))
    else if !postingEnabled || !OpenOn(s, tenantId, legalEntityId, today) then (s, Failed(PeriodNotOpen))
    else
      var profile := s.profiles[(tenantId, legalEntityId)];
      var entry := Entry(s.nextId, tenantId, reference, Posted, None,
                         RevenueLines(profile, amount));
      if !appended then (s.(nextId := s.nextId + 2), Failed(AppendFailed))
      else (s.(journals := s.journals[(tenantId, reference) := entry], nextId := s.nextId + 2), Done(entry))
  }

  function AddReversal(s: State, tenantId: string, legalEntityId: string, orderId: string, postingEnabled: bool, today: int)
    : (State, Outcome<Entry>)
  {
    var reference := ReversalReference(legalEntityId, orderId);
    var sourceKey := (tenantId, RevenueReference(legalEntityId, orderId));
    if (tenantId, reference) in s.journals then (s, Done(s.journals[(tenantId, reference)]))
    else if (tenantId, legalEntityId) !in s.profiles then (s, Failed(ProfileNotFound))
    else if !postingEnabled || !OpenOn(s, tenantId, legalEntityId, today) then (s, Failed(PeriodNotOpen))
    else if sourceKey !in s.journals then (s, Failed(RevenueNotFound))
    else
      var source := s.journals[sourceKey];
      var entry := Entry(s.nextId, tenantId, reference, Reversed, Some(source.id), Map(Swap(), source.lines));
      (s.(journals := s.journals[(tenantId, reference) := entry], nextId := s.nextId + 1), Done(entry))
  }

  function AddJournal(s: State, tenantId: string, reference: string, lines: seq<Line>): (State, Outcome<Entry>) {
    var key := (tenantId, T.Trim(reference));
    if Fault(lines).Some? then (s, Failed(Fault(lines).value))
    else if !AllInTenant(s, tenantId, lines) then (s, Failed(AccountNotFound))
    else if key in s.journals then
      if NormalizeLines(s.journals[key].lines) != NormalizeLines(lines) then (s, Failed(IdempotencyConflict(key.1)))
      else (s, Done(s.journals[key]))
    else
      var entry := Entry(s.nextId, tenantId, key.1, Posted, None, lines);
      (s.(journals := s.journals[key := entry], nextId := s.nextId + 1), Done(entry))
  }

  // ---- What every state keeps ---------------------------------------------

  predicate SameCode(a: Account, b: Account) {
    a.tenantId == b.tenantId && a.code == b.code
  }

  /** A tenant has one account to a code. */
  ghost predicate AccountsOk(s: State) {
    && (forall id :: id in s.accounts ==> s.accounts[id].id == id < s.nextId)
    && (forall a, b :: a in s.accounts && b in s.accounts && SameCode(s.accounts[a], s.accounts[b]) ==> a == b)
  }

  predicate Clash(a: Period, b: Period) {
    Overlaps(a, b.tenantId, b.legalEntityId, b.startsOn, b.endsOn)
  }

  /** Periods of one legal entity never overlap. */
  ghost predicate PeriodsOk(s: State) {
    && (forall id :: id in s.periods ==> s.periods[id].id == id < s.nextId && s.periods[id].startsOn <= s.periods[id].endsOn)
    && (forall a, b :: a in s.periods && b in s.periods && a != b ==>
                         !Clash(s.periods[a], s.periods[b]))
  }

  /** A profile names two different accounts of its tenant, an asset and a revenue account. */
  ghost predicate ProfilesOk(s: State) {
    forall key :: key in s.profiles ==> ProfileFits(s, key, s.profiles[key])
  }

  ghost predicate ProfileFits(s: State, key: Key, p: Profile) {
    && key == (p.tenantId, p.legalEntityId) && p.receivableAccountId != p.revenueAccountId
    && InTenant(s, p.tenantId, p.receivableAccountId) && s.accounts[p.receivableAccountId].kind == Asset
    && InTenant(s, p.tenantId, p.revenueAccountId) && s.accounts[p.revenueAccountId].kind == Revenue
  }

  /** The key of the entry that a reversal under this key undoes. */
  function SourceKey(key: Key): Key {
    if REVERSAL <= key.1 then (key.0, REVENUE + key.1[|REVERSAL|..]) else key
  }

  ghost predicate Undoes(entry: Entry, source: Entry) {
    source.status == Posted && entry.reverses == Some(source.id) && entry.lines == Map(Swap(), source.lines)
  }

  /**
   * A stored entry balances, books on accounts of its tenant, and if reversed undoes the stored
   * entry of the same order.
   */
  ghost predicate EntryOk(s: State, key: Key, entry: Entry) {
    && key == (entry.tenantId, entry.reference) && entry.id < s.nextId
    && |entry.lines| >= 2 && DebitSum(entry.lines) == CreditSum(entry.lines)
    && AllInTenant(s, entry.tenantId, entry.lines)
    && match entry.status
       case Posted => entry.reverses.None?
       case Reversed => REVERSAL <= key.1 && SourceKey(key) in s.journals && Undoes(entry, s.journals[SourceKey(key)])
  }

  ghost predicate JournalsOk(s: State) {
    && (forall key :: key in s.journals ==> EntryOk(s, key, s.journals[key]))
    && (forall a, b :: a in s.journals && b in s.journals && s.journals[a].id == s.journals[b].id ==> a == b)
  }

  ghost predicate Inv(s: State) {
    AccountsOk(s) && PeriodsOk(s) && ProfilesOk(s) && JournalsOk(s)
  }

  /** Later states: entries, accounts and profiles stay as they are; a period may only be closed. */
  ghost predicate Extends(before: State, after: State) {
    && before.nextId <= after.nextId
    && (forall id :: id in before.accounts ==> id in after.accounts && after.accounts[id] == before.accounts[id])
    && (forall key :: key in before.profiles ==> key in after.profiles && after.profiles[key] == before.profiles[key])
    && (forall key :: key in before.journals ==> key in after.journals && after.journals[key] == before.journals[key])
    && (forall id :: id in before.periods ==> id in after.periods && PeriodEvolves(before.periods[id], after.periods[id]))
  }

  ghost predicate PeriodEvolves(before: Period, after: Period) {
    after == before || after == before.(open := false)
  }

  lemma EntryStays(s: State, after: State, key: Key, entry: Entry)
    requires EntryOk(s, key, entry) && Extends(s, after)
    ensures EntryOk(after, key, entry)
  {
    hide DebitSum, CreditSum, PeriodEvolves, Map;
  }

  lemma JournalsStay(s: State, after: State)
    requires JournalsOk(s) && Extends(s, after) && after.journals == s.journals
    ensures JournalsOk(after)
  {
    forall key | key in after.journals ensures EntryOk(after, key, after.journals[key]) {
      EntryStays(s, after, key, s.journals[key]);
    }
  }

  lemma ProfilesStay(s: State, after: State)
    requires ProfilesOk(s) && Extends(s, after) && after.profiles == s.profiles
    ensures ProfilesOk(after)
  {
  }

  /** Storing an entry that is in order under a new key, with an id not used before, keeps the book in order. */
  lemma EntryAdded(s: State, after: State, key: Key, entry: Entry)
    requires Inv(s) && key !in s.journals && entry.id == s.nextId < after.nextId
    requires after == s.(journals := s.journals[key := entry], nextId := after.nextId)
    requires EntryOk(after, key, entry)
    ensures Inv(after) && Extends(s, after)
  {
    hide EntryOk, InTenant, Overlaps;
    assert Extends(s, after);
    forall k | k in s.journals ensures EntryOk(after, k, s.journals[k]) && s.journals[k].id < s.nextId {
      EntryStays(s, after, k, s.journals[k]);
      EntryId(s, k, s.journals[k]);
    }
    ProfilesStay(s, after);
  }

  lemma EntryId(s: State, key: Key, entry: Entry)
    requires EntryOk(s, key, entry)
    ensures entry.id < s.nextId
  {
  }

  // ---- Each operation keeps the book in order -----------------------------

  lemma AccountsStay(s: State, after: State)
    requires AccountsOk(s) && s.nextId <= after.nextId && after.accounts == s.accounts
    ensures AccountsOk(after)
  {
  }

  lemma PeriodsStay(s: State, after: State)
    requires PeriodsOk(s) && s.nextId <= after.nextId && after.periods == s.periods
    ensures PeriodsOk(after)
  {
  }

  lemma AccountAdded(s: State, after: State, account: Account)
    requires AccountsOk(s) && account.id == s.nextId && forall id :: id in s.accounts ==> !SameCode(s.accounts[id], account)
    requires after == s.(accounts := s.accounts[s.nextId := account], nextId := s.nextId + 1)
    ensures AccountsOk(after) && Extends(s, after)
  {
  }

  lemma AddAccountKeeps(upper: string -> string, s: State, tenantId: string, code: string, name: string, kind: AccountType)
    requires Inv(s)
    ensures Inv(AddAccount(upper, s, tenantId, code, name, kind).0)
    ensures Extends(s, AddAccount(upper, s, tenantId, code, name, kind).0)
  {
    var r := AddAccount(upper, s, tenantId, code, name, kind);
    hide AccountsOk, PeriodsOk, ProfilesOk, JournalsOk, T.Trim;
    if r.1.Done? {
      AccountAdded(s, r.0, r.1.value);
      hide Extends;
      PeriodsStay(s, r.0);
      ProfilesStay(s, r.0);
      JournalsStay(s, r.0);
    }
  }

  lemma ProfileAdded(s: State, after: State, profile: Profile)
    requires ProfilesOk(s) && profile.receivableAccountId != profile.revenueAccountId
    requires AddProfile(s, profile) == (after, Done(profile))
    ensures ProfilesOk(after) && Extends(s, after)
  {
    var key := (profile.tenantId, profile.legalEntityId);
    forall k | k in after.profiles ensures k == key || (k in s.profiles && after.profiles[k] == s.profiles[k]) {
    }
  }

  lemma AddProfileKeeps(s: State, profile: Profile)
    requires Inv(s) && profile.receivableAccountId != profile.revenueAccountId
    ensures Inv(AddProfile(s, profile).0) && Extends(s, AddProfile(s, profile).0)
  {
    var r := AddProfile(s, profile);
    hide AccountsOk, PeriodsOk, ProfilesOk, JournalsOk, InTenant;
    if r.1.Done? {
      ProfileAdded(s, r.0, profile);
      hide Extends;
      AccountsStay(s, r.0);
      PeriodsStay(s, r.0);
      JournalsStay(s, r.0);
    }
  }

  lemma AddPeriodKeeps(s: State, tenantId: string, legalEntityId: string, startsOn: int, endsOn: int)
    requires Inv(s) && startsOn <= endsOn
    ensures Inv(AddPeriod(s, tenantId, legalEntityId, startsOn, endsOn).0)
    ensures Extends(s, AddPeriod(s, tenantId, legalEntityId, startsOn, endsOn).0)
  {
    var r := AddPeriod(s, tenantId, legalEntityId, startsOn, endsOn);
    hide AccountsOk, ProfilesOk, JournalsOk;
    if r.1.Done? {
      PeriodAdded(s, r.0, r.1.value);
      hide Extends, PeriodsOk;
      AccountsStay(s, r.0);
      ProfilesStay(s, r.0);
      JournalsStay(s, r.0);
    }
  }

  lemma PeriodAdded(s: State, after: State, period: Period)
    requires PeriodsOk(s) && period.id == s.nextId && period.startsOn <= period.endsOn
    requires forall id :: id in s.periods ==> !Clash(s.periods[id], period)
    requires after == s.(periods := s.periods[s.nextId := period], nextId := s.nextId + 1)
    ensures PeriodsOk(after) && Extends(s, after)
  {
  }

  lemma PeriodClosed(s: State, after: State, id: Id)
    requires PeriodsOk(s) && id in s.periods
    requires after == s.(periods := s.periods[id := s.periods[id].(open := false)])
    ensures PeriodsOk(after) && Extends(s, after)
  {
    forall a, b | a in after.periods && b in after.periods && a != b
      ensures !Clash(after.periods[a], after.periods[b])
    {
      assert !Clash(s.periods[a], s.periods[b]);
    }
  }

  lemma EndPeriodKeeps(s: State, tenantId: string, legalEntityId: string, periodId: Id)
    requires Inv(s)
    ensures Inv(EndPeriod(s, tenantId, legalEntityId, periodId).0)
    ensures Extends(s, EndPeriod(s, tenantId, legalEntityId, periodId).0)
  {
    var r := EndPeriod(s, tenantId, legalEntityId, periodId);
    hide AccountsOk, ProfilesOk, JournalsOk;
    if r.1.Done? {
      PeriodClosed(s, r.0, periodId);
      hide Extends, PeriodsOk;
      AccountsStay(s, r.0);
      ProfilesStay(s, r.0);
      JournalsStay(s, r.0);
    }
  }

  lemma TwoLineSums(first: Line, second: Line)
    ensures DebitSum([first, second]) == M.MinorOf(first.debit) + M.MinorOf(second.debit)
    ensures CreditSum([first, second]) == M.MinorOf(first.credit) + M.MinorOf(second.credit)
  {
    hide M.MinorOf;
    assert [first][..0] == [];
    assert DebitSum([first]) == M.MinorOf(first.debit) && CreditSum([first]) == M.MinorOf(first.credit);
    assert [first, second][..1] == [first];
  }

  lemma RevenueEntryOk(s: State, after: State, key: Key, profile: Profile, entry: Entry, amount: M.MajorAmount)
    requires InTenant(s, key.0, profile.receivableAccountId) && InTenant(s, key.0, profile.revenueAccountId)
    requires Extends(s, after) && entry.id < after.nextId && entry.status == Posted && entry.reverses.None?
    requires key == (entry.tenantId, entry.reference)
    requires entry.lines == RevenueLines(profile, amount)
    ensures EntryOk(after, key, entry)
  {
    hide DebitSum, CreditSum, M.MinorOf;
    TwoLineSums(entry.lines[0], entry.lines[1]);
  }

  lemma AddRevenueKeeps(s: State, tenantId: string, legalEntityId: string, orderId: string, amount: M.MajorAmount,
                        postingEnabled: bool, today: int, appended: bool)
    requires Inv(s)
    ensures Inv(AddRevenue(s, tenantId, legalEntityId, orderId, amount, postingEnabled, today, appended).0)
    ensures Extends(s, AddRevenue(s, tenantId, legalEntityId, orderId, amount, postingEnabled, today, appended).0)
  {
    var key := (tenantId, RevenueReference(legalEntityId, orderId));
    var r := AddRevenue(s, tenantId, legalEntityId, orderId, amount, postingEnabled, today, appended);
    hide AccountsOk, PeriodsOk, JournalsOk, OpenOn, RevenueReference, EntryOk, InTenant, M.ZeroAmount, PeriodEvolves;
    if r.1.Done? && key !in s.journals {
      EntryExtends(s, r.0, key, r.1.value);
      hide Extends;
      RevenueEntryOk(s, r.0, key, s.profiles[(tenantId, legalEntityId)], r.1.value, amount);
      EntryAdded(s, r.0, key, r.1.value);
    } else {
      hide Extends, ProfilesOk;
      IdsSpent(s, r.0);
    }
  }

  lemma EntryExtends(s: State, after: State, key: Key, entry: Entry)
    requires key !in s.journals && s.nextId <= after.nextId
    requires after == s.(journals := s.journals[key := entry], nextId := after.nextId)
    ensures Extends(s, after)
  {
  }

  lemma IdsSpent(s: State, after: State)
    requires Inv(s) && s.nextId <= after.nextId && after == s.(nextId := after.nextId)
    ensures Inv(after) && Extends(s, after)
  {
    assert Extends(s, after);
    AccountsStay(s, after);
    PeriodsStay(s, after);
    ProfilesStay(s, after);
    JournalsStay(s, after);
  }

  /** The key a reversal is stored under leads back to the key of the entry it undoes. */
  lemma ReversalSource(tenantId: string, legalEntityId: string, orderId: string)
    ensures REVERSAL <= ReversalReference(legalEntityId, orderId)
    ensures SourceKey((tenantId, ReversalReference(legalEntityId, orderId))) == (tenantId, RevenueReference(legalEntityId, orderId))
  {
    assert ReversalReference(legalEntityId, orderId)[|REVERSAL|..] == legalEntityId + ":" + orderId;
  }

  /** A reference of an order is never the reference of a reversal. */
  lemma RevenueIsNoReversal(legalEntityId: string, orderId: string)
    ensures !(REVERSAL <= RevenueReference(legalEntityId, orderId))
  {
    assert RevenueReference(legalEntityId, orderId)[7] == ':' && REVERSAL[7] == '-';
  }

  lemma AddReversalKeeps(s: State, tenantId: string, legalEntityId: string, orderId: string, postingEnabled: bool, today: int)
    requires Inv(s)
    ensures Inv(AddReversal(s, tenantId, legalEntityId, orderId, postingEnabled, today).0)
    ensures Extends(s, AddReversal(s, tenantId, legalEntityId, orderId, postingEnabled, today).0)
  {
    var key := (tenantId, ReversalReference(legalEntityId, orderId));
    var r := AddReversal(s, tenantId, legalEntityId, orderId, postingEnabled, today);
    ReversalSource(tenantId, legalEntityId, orderId);
    RevenueIsNoReversal(legalEntityId, orderId);
    hide AccountsOk, PeriodsOk, ProfilesOk, OpenOn, RevenueReference, ReversalReference, SourceKey, EntryOk, Map;
    if r.1.Done? && key !in s.journals {
      assert Extends(s, r.0);
      ReversalEntryOk(s, r.0, key, r.1.value);
      EntryAdded(s, r.0, key, r.1.value);
    }
  }

  lemma ReversalEntryOk(s: State, after: State, key: Key, entry: Entry)
    requires JournalsOk(s) && Extends(s, after) && entry.id < after.nextId && key == (entry.tenantId, entry.reference)
    requires REVERSAL <= key.1 && SourceKey(key) in s.journals && !(REVERSAL <= SourceKey(key).1)
    requires entry.status == Reversed && Undoes(entry, s.journals[SourceKey(key)].(status := Posted))
    ensures EntryOk(after, key, entry)
  {
    var source := s.journals[SourceKey(key)];
    assert EntryOk(s, SourceKey(key), source);
    hide DebitSum, CreditSum, Map, M.MinorOf;
    SwapUndoes(source.lines, 0);
    forall i | 0 <= i < |entry.lines| ensures InTenant(after, entry.tenantId, entry.lines[i].accountId) {
      assert InTenant(s, source.tenantId, source.lines[i].accountId);
    }
  }

  lemma AddJournalKeeps(s: State, tenantId: string, reference: string, lines: seq<Line>)
    requires Inv(s)
    ensures Inv(AddJournal(s, tenantId, reference, lines).0) && Extends(s, AddJournal(s, tenantId, reference, lines).0)
  {
    var key, r := (tenantId, T.Trim(reference)), AddJournal(s, tenantId, reference, lines);
    hide AccountsOk, PeriodsOk, ProfilesOk, JournalsOk, DebitSum, CreditSum, T.Trim, NormalizeLines, Fault, OneSided;
    if r.1.Done? && key !in s.journals {
      assert Balanced(lines);
      EntryAdded(s, r.0, key, r.1.value);
    }
  }

  // ---- The service --------------------------------------------------------

  class AccountingService {
    const upper: string -> string
    var accounts: map<Id, Account>
    var profiles: map<Key, Profile>
    var periods: map<Id, Period>
    var journals: map<Key, Entry>
    var nextId: Id

    constructor (upper: string -> string)
      ensures Abs() == Empty && this.upper == upper
    {
      this.upper := upper;
      accounts, profiles, periods, journals, nextId := map[], map[], map[], map[], 0;
    }

    ghost function Abs(): State
      reads this
    {
      State(accounts, profiles, periods, journals, nextId)
    }

    method CreateAccount(tenantId: string, code: string, name: string, kind: AccountType) returns (outcome: Outcome<Account>)
      modifies this
      ensures (Abs(), outcome) == AddAccount(upper, old(Abs()), tenantId, code, name, kind)
    {
      hide T.Trim;
      var normal := upper(T.Trim(code));
      if exists id :: id in accounts && accounts[id].tenantId == tenantId && accounts[id].code == normal {
        return Failed(AccountExists(normal));
      }
      var account := Account(nextId, tenantId, normal, T.Trim(name), kind);
      accounts, nextId := accounts[nextId := account], nextId + 1;
      return Done(account);
    }

    method ConfigureRevenuePosting(profile: Profile) returns (outcome: Outcome<Profile>)
      requires profile.receivableAccountId != profile.revenueAccountId
      modifies this`profiles
      ensures (Abs(), outcome) == AddProfile(old(Abs()), profile)
    {
      var receivable, revenue := profile.receivableAccountId, profile.revenueAccountId;
      if receivable !in accounts || accounts[receivable].tenantId != profile.tenantId
         || revenue !in accounts || accounts[revenue].tenantId != profile.tenantId {
        return Failed(AccountNotFound);
      }
      if accounts[receivable].kind != Asset || accounts[revenue].kind != Revenue {
        return Failed(InvalidProfile);
      }
      var key := (profile.tenantId, profile.legalEntityId);
      if key in profiles {
        return Failed(ProfileExists);
      }
      profiles := profiles[key := profile];
      return Done(profile);
    }

    method OpenPeriod(tenantId: string, legalEntityId: string, startsOn: int, endsOn: int) returns (outcome: Outcome<Period>)
      requires startsOn <= endsOn
      modifies this`periods, this`nextId
      ensures (Abs(), outcome) == AddPeriod(old(Abs()), tenantId, legalEntityId, startsOn, endsOn)
    {
      var overlap := exists id :: id in periods && Overlaps(periods[id], tenantId, legalEntityId, startsOn, endsOn);
      if overlap {
        return Failed(PeriodOverlap);
      }
      var period := Period(nextId, tenantId, legalEntityId, startsOn, endsOn, true);
      periods, nextId := periods[nextId := period], nextId + 1;
      return Done(period);
    }

    method ClosePeriod(tenantId: string, legalEntityId: string, periodId: Id) returns (outcome: Outcome<Period>)
      modifies this`periods
      ensures (Abs(), outcome) == EndPeriod(old(Abs()), tenantId, legalEntityId, periodId)
    {
      if periodId !in periods || periods[periodId].tenantId != tenantId || periods[periodId].legalEntityId != legalEntityId {
        return Failed(PeriodNotFound);
      }
      var closed := periods[periodId].(open := false);
      periods := periods[closed.id := closed];
      return Done(closed);
    }

    /** `amount` is the order total that sales reports, `appended` whether messaging takes the event. */
    method PostRevenueForOrder(tenantId: string, legalEntityId: string, orderId: string, amount: M.MajorAmount,
                               postingEnabled: bool, today: int, appended: bool) returns (outcome: Outcome<Entry>)
      modifies this`journals, this`nextId
      ensures (Abs(), outcome) == AddRevenue(old(Abs()), tenantId, legalEntityId, orderId, amount, postingEnabled, today, appended)
    {
      var reference := RevenueReference(legalEntityId, orderId);
      if (tenantId, reference) in journals {
        var existing := journals[(tenantId, reference)];
        if |existing.lines| == 0 || existing.lines[0].debit != amount {
          return Failed(IdempotencyConflict(reference));
        }
        return Done(existing);
      }
      if (tenantId, legalEntityId) !in profiles {
        return Failed(ProfileNotFound);
      }
      var profile := profiles[(tenantId, legalEntityId)];
      if !postingEnabled || !OpenOn(State(accounts, profiles, periods, journals, nextId), tenantId, legalEntityId, today) {
        return Failed(PeriodNotOpen);
      }
      var entry := Entry(nextId, tenantId, reference, Posted, None,
                         RevenueLines(profile, amount));
      nextId := nextId + 2;
      if !appended {
        return Failed(AppendFailed);
      }
      journals := journals[(tenantId, reference) := entry];
      return Done(entry);
    }

    method ReverseRevenueForOrder(tenantId: string, legalEntityId: string, orderId: string, postingEnabled: bool, today: int)
      returns (outcome: Outcome<Entry>)
      modifies this`journals, this`nextId
      ensures (Abs(), outcome) == AddReversal(old(Abs()), tenantId, legalEntityId, orderId, postingEnabled, today)
    {
      hide RevenueReference, ReversalReference, OpenOn, Map;
      var reference := ReversalReference(legalEntityId, orderId);
      if (tenantId, reference) in journals {
        return Done(journals[(tenantId, reference)]);
      }
      if (tenantId, legalEntityId) !in profiles {
        return Failed(ProfileNotFound);
      }
      if !postingEnabled || !OpenOn(State(accounts, profiles, periods, journals, nextId), tenantId, legalEntityId, today) {
        return Failed(PeriodNotOpen);
      }
      var sourceKey := (tenantId, RevenueReference(legalEntityId, orderId));
      if sourceKey !in journals {
        return Failed(RevenueNotFound);
      }
      var source := journals[sourceKey];
      var entry := Entry(nextId, tenantId, reference, Reversed, Some(source.id), Map(Swap(), source.lines));
      journals, nextId := journals[(tenantId, reference) := entry], nextId + 1;
      return Done(entry);
    }

    method PostJournal(tenantId: string, reference: string, lines: seq<Line>) returns (outcome: Outcome<Entry>)
      modifies this`journals, this`nextId
      ensures (Abs(), outcome) == AddJournal(old(Abs()), tenantId, reference, lines)
    {
      hide T.Trim, Fault, NormalizeLines, AllInTenant, Balanced;
      var fault := ValidateLines(lines);
      if fault.Some? {
        return Failed(fault.value);
      }
      var book := State(accounts, profiles, periods, journals, nextId);
      assert book == old(Abs());
      if !AllInTenant(book, tenantId, lines) {
        return Failed(AccountNotFound);
      }
      var normal := T.Trim(reference);
      var key := (tenantId, normal);
      if key in journals {
        var existing := journals[key];
        if NormalizeLines(existing.lines) != NormalizeLines(lines) {
          return Failed(IdempotencyConflict(normal));
        }
        return Done(existing);
      }
      var entry := Entry(nextId, tenantId, normal, Posted, None, lines);
      journals, nextId := journals[key := entry], nextId + 1;
      return Done(entry);
    }
  }
}
