/** What the accounting book answers, and when, said of the inputs and the stored entries alone. */
module BookAnswers {
  import opened Optional
  import opened Facts
  import opened AccountingBook
  import opened BookRuns
  import M = Money
  import T = Texts

  /** References as they are written. */
  lemma ReferencesRead(legalEntityId: string, orderId: string)
    ensures RevenueReference(legalEntityId, orderId) == "revenue:" + legalEntityId + ":" + orderId
    ensures ReversalReference(legalEntityId, orderId) == "revenue-reversal:" + legalEntityId + ":" + orderId
  {
    assert "revenue:" + (legalEntityId + ":" + orderId) == "revenue:" + legalEntityId + ":" + orderId;
    assert "revenue-reversal:" + (legalEntityId + ":" + orderId) == "revenue-reversal:" + legalEntityId + ":" + orderId;
  }

  /** The period is open, is of the tenant's legal entity, and its days from first to last include this one. */
  predicate Admits(period: Period, tenantId: string, legalEntityId: string, day: int) {
    period.tenantId == tenantId && period.legalEntityId == legalEntityId && period.open && period.startsOn <= day && day <= period.endsOn
  }

  /** Posting is enabled and some period admits the day. */
  ghost predicate Postable(s: State, tenantId: string, legalEntityId: string, postingEnabled: bool, day: int) {
    postingEnabled && exists id :: id in s.periods && Admits(s.periods[id], tenantId, legalEntityId, day)
  }

  /** The entry has nothing but these two lines: the debit of the one account and the credit of the other. */
  predicate MovesBetween(entry: Entry, debited: Id, credited: Id, amount: M.MajorAmount) {
    && |entry.lines| == 2
    && entry.lines[0].accountId == debited && entry.lines[0].debit == amount && M.MinorOf(entry.lines[0].credit) == 0
    && entry.lines[1].accountId == credited && entry.lines[1].credit == amount && M.MinorOf(entry.lines[1].debit) == 0
  }

  /**
   * Revenue under a reference where nothing is stored: booked if and only if there is a profile,
   * posting is enabled, an open period admits the day and the event is taken; each refusal has its own condition.
   */
  lemma RevenueAnswers(s: State, tenantId: string, legalEntityId: string, orderId: string, amount: M.MajorAmount,
                       postingEnabled: bool, today: int, appended: bool)
    requires (tenantId, RevenueReference(legalEntityId, orderId)) !in s.journals
    ensures var (after, outcome) := AddRevenue(s, tenantId, legalEntityId, orderId, amount, postingEnabled, today, appended);
            var profiled, postable := (tenantId, legalEntityId) in s.profiles, Postable(s, tenantId, legalEntityId, postingEnabled, today);
            && (outcome.Done? <==> profiled && postable && appended)
            && (outcome == Failed(ProfileNotFound) <==> !profiled)
            && (outcome == Failed(PeriodNotOpen) <==> profiled && !postable)
            && (outcome == Failed(AppendFailed) <==> profiled && postable && !appended)
            && (outcome.Failed? ==> after.journals == s.journals)
            && (outcome.Done? ==>
                  && after.journals == s.journals[(tenantId, RevenueReference(legalEntityId, orderId)) := outcome.value]
                  && outcome.value.status == Posted && outcome.value.reverses.None? && outcome.value.tenantId == tenantId
                  && outcome.value.reference == RevenueReference(legalEntityId, orderId)
                  && MovesBetween(outcome.value, s.profiles[(tenantId, legalEntityId)].receivableAccountId,
                                  s.profiles[(tenantId, legalEntityId)].revenueAccountId, amount))
            && after.accounts == s.accounts && after.profiles == s.profiles && after.periods == s.periods
  {
    OpenExactly(s, tenantId, legalEntityId, today);
    M.ZeroIsNothing();
    hide OpenOn, RevenueReference, M.ZeroAmount, M.MinorOf;
  }

  lemma OpenExactly(s: State, tenantId: string, legalEntityId: string, today: int)
    ensures OpenOn(s, tenantId, legalEntityId, today) <==>
            exists id :: id in s.periods && Admits(s.periods[id], tenantId, legalEntityId, today)
  {
    if OpenOn(s, tenantId, legalEntityId, today) {
      var id :| id in s.periods && s.periods[id].tenantId == tenantId && s.periods[id].legalEntityId == legalEntityId
                && s.periods[id].open && s.periods[id].startsOn <= today <= s.periods[id].endsOn;
      assert Admits(s.periods[id], tenantId, legalEntityId, today);
    }
    if id :| id in s.periods && Admits(s.periods[id], tenantId, legalEntityId, today) {
      assert s.periods[id].open;
    }
  }

  /** A stored entry is returned for the amount of its first debit, and conflicts with any other; nothing changes. */
  lemma RevenueRepeatAnswers(s: State, tenantId: string, legalEntityId: string, orderId: string, amount: M.MajorAmount,
                             postingEnabled: bool, today: int, appended: bool)
    requires (tenantId, RevenueReference(legalEntityId, orderId)) in s.journals
    ensures var (after, outcome) := AddRevenue(s, tenantId, legalEntityId, orderId, amount, postingEnabled, today, appended);
            var reference := RevenueReference(legalEntityId, orderId);
            var stored := s.journals[(tenantId, reference)];
            && after == s
            && (outcome == Done(stored) <==> stored.lines != [] && stored.lines[0].debit == amount)
            && (outcome == Failed(IdempotencyConflict(reference)) <==> stored.lines == [] || stored.lines[0].debit != amount)
  {
    hide RevenueReference, OpenOn;
  }

  /**
   * A reversal succeeds if and only if its reference is taken already, or there is a profile, posting is
   * enabled, an open period admits the day and the order's revenue is stored; each refusal has its own condition.
   */
  lemma ReversalAnswers(s: State, tenantId: string, legalEntityId: string, orderId: string, postingEnabled: bool, today: int)
    ensures var (after, outcome) := AddReversal(s, tenantId, legalEntityId, orderId, postingEnabled, today);
            var key, source := (tenantId, ReversalReference(legalEntityId, orderId)), (tenantId, RevenueReference(legalEntityId, orderId));
            var profiled, postable := (tenantId, legalEntityId) in s.profiles, Postable(s, tenantId, legalEntityId, postingEnabled, today);
            && (outcome.Done? <==> key in s.journals || (profiled && postable && source in s.journals))
            && (key in s.journals ==> after == s && outcome == Done(s.journals[key]))
            && (outcome == Failed(ProfileNotFound) <==> key !in s.journals && !profiled)
            && (outcome == Failed(PeriodNotOpen) <==> key !in s.journals && profiled && !postable)
            && (outcome == Failed(RevenueNotFound) <==> key !in s.journals && profiled && postable && source !in s.journals)
            && (outcome.Failed? ==> after == s)
            && (outcome.Done? && key !in s.journals ==>
                  && after.journals == s.journals[key := outcome.value] && outcome.value.status == Reversed
                  && outcome.value.tenantId == tenantId && outcome.value.reference == key.1
                  && outcome.value.reverses == Some(s.journals[source].id)
                  && Mirrors(outcome.value.lines, s.journals[source].lines))
            && after.accounts == s.accounts && after.profiles == s.profiles && after.periods == s.periods
  {
    OpenExactly(s, tenantId, legalEntityId, today);
    hide OpenOn, RevenueReference, ReversalReference;
  }

  /** The same accounts line by line, debit and credit exchanged. */
  predicate Mirrors(lines: seq<Line>, source: seq<Line>) {
    && |lines| == |source|
    && forall i :: 0 <= i < |lines| ==>
         lines[i].accountId == source[i].accountId && lines[i].debit == source[i].credit && lines[i].credit == source[i].debit
  }

  // ---- Accounts, profiles, periods ----------------------------------------

  /** An account is created unless the tenant has its trimmed code in capitals; nothing else changes. */
  lemma AccountAnswers(upper: string -> string, s: State, tenantId: string, code: string, name: string, kind: AccountType)
    ensures var (after, outcome) := AddAccount(upper, s, tenantId, code, name, kind);
            var taken := exists id :: id in s.accounts && s.accounts[id].tenantId == tenantId && s.accounts[id].code == upper(T.Trim(code));
            && (taken ==> after == s && outcome == Failed(AccountExists(upper(T.Trim(code)))))
            && (!taken ==>
                  && outcome == Done(Account(s.nextId, tenantId, upper(T.Trim(code)), T.Trim(name), kind))
                  && after.accounts == s.accounts[s.nextId := outcome.value] && after.nextId > s.nextId
                  && after.profiles == s.profiles && after.periods == s.periods && after.journals == s.journals)
  {
    hide T.Trim;
  }

  /** A profile is stored exactly for an asset and a revenue account of the tenant and an entity that has none. */
  lemma ProfileAnswers(s: State, profile: Profile)
    ensures var (after, outcome) := AddProfile(s, profile);
            var debited, credited := profile.receivableAccountId, profile.revenueAccountId;
            var owned := && debited in s.accounts && s.accounts[debited].tenantId == profile.tenantId
                         && credited in s.accounts && s.accounts[credited].tenantId == profile.tenantId;
            var key := (profile.tenantId, profile.legalEntityId);
            && (outcome == Failed(AccountNotFound) <==> !owned)
            && (outcome == Failed(InvalidProfile) <==>
                owned && !(s.accounts[debited].kind == Asset && s.accounts[credited].kind == Revenue))
            && (outcome == Failed(ProfileExists) <==>
                owned && s.accounts[debited].kind == Asset && s.accounts[credited].kind == Revenue && key in s.profiles)
            && (outcome == Done(profile) <==>
                owned && s.accounts[debited].kind == Asset && s.accounts[credited].kind == Revenue && key !in s.profiles)
            && after == if outcome == Done(profile) then s.(profiles := s.profiles[key := profile]) else s
  {
  }

  /** Some day lies in both. */
  ghost predicate ShareDay(period: Period, startsOn: int, endsOn: int) {
    exists day: int :: Inside(period.startsOn, day, period.endsOn) && Inside(startsOn, day, endsOn)
  }

  predicate Inside(startsOn: int, day: int, endsOn: int) {
    startsOn <= day <= endsOn
  }

  /** A period is opened exactly when no period of the tenant's entity shares a day with it. */
  lemma PeriodAnswers(s: State, tenantId: string, legalEntityId: string, startsOn: int, endsOn: int)
    requires PeriodsOk(s) && startsOn <= endsOn
    ensures var (after, outcome) := AddPeriod(s, tenantId, legalEntityId, startsOn, endsOn);
            var overlaps := exists id :: id in s.periods && s.periods[id].tenantId == tenantId
                                         && s.periods[id].legalEntityId == legalEntityId && ShareDay(s.periods[id], startsOn, endsOn);
            && (overlaps ==> after == s && outcome == Failed(PeriodOverlap))
            && (!overlaps ==>
                  && outcome == Done(Period(s.nextId, tenantId, legalEntityId, startsOn, endsOn, true))
                  && after == s.(periods := s.periods[s.nextId := outcome.value], nextId := s.nextId + 1))
  {
    forall id | id in s.periods && s.periods[id].tenantId == tenantId && s.periods[id].legalEntityId == legalEntityId
      ensures Overlaps(s.periods[id], tenantId, legalEntityId, startsOn, endsOn) <==> ShareDay(s.periods[id], startsOn, endsOn)
    {
      var period := s.periods[id];
      var day := if period.startsOn < startsOn then startsOn else period.startsOn;
      assert Overlaps(period, tenantId, legalEntityId, startsOn, endsOn) ==>
          Inside(period.startsOn, day, period.endsOn) && Inside(startsOn, day, endsOn);
    }
    hide ShareDay;
  }

  /** Closing a period of the tenant's entity closes it and nothing else. */
  lemma CloseAnswers(s: State, tenantId: string, legalEntityId: string, periodId: Id)
    requires PeriodsOk(s)
    ensures var (after, outcome) := EndPeriod(s, tenantId, legalEntityId, periodId);
            var found := periodId in s.periods && s.periods[periodId].tenantId == tenantId && s.periods[periodId].legalEntityId == legalEntityId;
            && (!found ==> after == s && outcome == Failed(PeriodNotFound))
            && (found ==>
                  && outcome.Done? && !outcome.value.open && outcome.value.(open := s.periods[periodId].open) == s.periods[periodId]
                  && after == s.(periods := s.periods[periodId := outcome.value]))
  {
  }

  // ---- Journals posted by hand --------------------------------------------

  ghost predicate Owned(s: State, tenantId: string, lines: seq<Line>) {
    forall i :: 0 <= i < |lines| ==> lines[i].accountId in s.accounts && s.accounts[lines[i].accountId].tenantId == tenantId
  }

  /** A journal is stored exactly without fault, on accounts of the tenant, under a reference not taken; else it replays, conflicts or fails. */
  lemma JournalAnswers(s: State, tenantId: string, reference: string, lines: seq<Line>)
    ensures var (after, outcome) := AddJournal(s, tenantId, reference, lines);
            var key, owned := (tenantId, T.Trim(reference)), Owned(s, tenantId, lines);
            && (Fault(lines).Some? ==> outcome == Failed(Fault(lines).value))
            && (Fault(lines).None? && !owned ==> outcome == Failed(AccountNotFound))
            && (Fault(lines).None? && owned && key in s.journals ==>
                  outcome == if SameLines(s.journals[key].lines, lines) then Done(s.journals[key]) else Failed(IdempotencyConflict(key.1)))
            && (Fault(lines).None? && owned && key !in s.journals ==>
                  && outcome == Done(Entry(s.nextId, tenantId, key.1, Posted, None, lines))
                  && after == s.(journals := s.journals[key := outcome.value], nextId := s.nextId + 1))
            && (outcome.Failed? || key in s.journals ==> after == s)
  {
    if (tenantId, T.Trim(reference)) in s.journals {
      NormalizedExactly(s.journals[(tenantId, T.Trim(reference))].lines, lines);
    }
    OwnedExactly(s, tenantId, lines);
    hide T.Trim, Fault, NormalizeLines, SameLines, AllInTenant, Owned;
  }

  lemma OwnedExactly(s: State, tenantId: string, lines: seq<Line>)
    ensures AllInTenant(s, tenantId, lines) <==> Owned(s, tenantId, lines)
  {
  }

  /** A line with an amount on both sides or on none. */
  predicate Faulty(line: Line) {
    M.MinorOf(line.debit) == 0 <==> M.MinorOf(line.credit) == 0
  }

  ghost predicate Sound(lines: seq<Line>, n: nat)
    requires n <= |lines|
  {
    forall k :: 0 <= k < n ==> !Faulty(lines[k])
  }

  lemma FirstFault(lines: seq<Line>, i: nat)
    requires i <= |lines|
    ensures FirstNot(OneSided, lines, 0) == i <==> Sound(lines, i) && (i < |lines| ==> Faulty(lines[i]))
  {
    hide M.MinorOf;
    var first := FirstNot(OneSided, lines, 0);
    assert first < i && Sound(lines, i) ==> !Faulty(lines[first]);
  }

  /** Each fault, exactly: too few lines, the first faulty line, or the two sums that differ. */
  lemma FaultAnswers(lines: seq<Line>)
    ensures |lines| < 2 ==> Fault(lines) == Some(Unbalanced(0, 0))
    ensures forall i :: 0 <= i < |lines| && |lines| >= 2 ==> (Fault(lines) == Some(InvalidLine(i)) <==> Sound(lines, i) && Faulty(lines[i]))
    ensures |lines| >= 2 && Sound(lines, |lines|) ==>
              Fault(lines) == if DebitSum(lines) == CreditSum(lines) then None else Some(Unbalanced(DebitSum(lines), CreditSum(lines)))
  {
    FirstFault(lines, |lines|);
    hide M.MinorOf, DebitSum, CreditSum, Faulty, OneSided, Sound, Balanced;
    forall i | 0 <= i < |lines| && |lines| >= 2
      ensures Fault(lines) == Some(InvalidLine(i)) <==> Sound(lines, i) && Faulty(lines[i])
    {
      FirstFault(lines, i);
    }
  }
}
