/** What holds over every run of the in-memory ledger, under any injected faults. */
module LedgerRuns {
  import opened Optional
  import opened Decimal
  import opened Journals
  import opened Pairing
  import opened MemoryLedger
  import TigerBeetle

  datatype Command = Create(account: Account) | Submission(journal: Journal)

  function Step(o: Options, s: State, command: Command): State {
    match command
    case Create(account) => CreateAccount(s, account)
    case Submission(journal) => Post(o, s, journal).0
  }

  function Run(o: Options, s: State, commands: seq<Command>): State
    decreases commands
  {
    if commands == [] then s else Run(o, Step(o, s, commands[0]), commands[1..])
  }

  /** The journals a run books, in order. */
  function Booking(o: Options, s: State, commands: seq<Command>): seq<Journal>
    decreases commands
  {
    if commands == [] then [] else
      var rest := Booking(o, Step(o, s, commands[0]), commands[1..]);
      if commands[0].Submission? && Records(o, s, commands[0].journal) then [commands[0].journal] + rest else rest
  }

  // ---- One step -----------------------------------------------------------

  /** Everything a posting may change: balances and operations only when it records, fault marks only upwards. */
  lemma PostEffect(o: Options, s: State, journal: Journal)
    ensures var after := Post(o, s, journal).0;
            && after.accounts == s.accounts
            && (Records(o, s, journal) ==>
                  after.balances == s.balances + Staged(s, journal, |journal.lines|).value
                  && after.operations ==
                     s.operations[OperationKey(journal) := Operation(FingerprintOf(journal), RecordedOutcome(o, journal))])
            && (!Records(o, s, journal) ==> after.balances == s.balances && after.operations == s.operations)
            && s.lost <= after.lost && s.failedBefore <= after.failedBefore && s.unavailableOnce <= after.unavailableOnce
  {
    hide Staged, Known, Verdict, JournalPairs, OperationKey, FingerprintOf, RecordedOutcome, TwoSidedAccount;
  }

  lemma StepKeepsInv(o: Options, s: State, command: Command)
    requires Inv(s)
    ensures Inv(Step(o, s, command))
  {
    match command
    case Create(account) =>
    case Submission(journal) =>
      PostKeepsInv(o, s, journal);
  }

  /** Over any run every balance stays within 128 bits and its account's constraint. */
  lemma {:induction false} RunKeepsInv(o: Options, s: State, commands: seq<Command>)
    requires Inv(s)
    ensures Inv(Run(o, s, commands))
    decreases commands
  {
    if commands != [] {
      StepKeepsInv(o, s, commands[0]);
      RunKeepsInv(o, Step(o, s, commands[0]), commands[1..]);
    }
  }

  lemma StepKeepsRecords(o: Options, s: State, command: Command)
    ensures var after := Step(o, s, command);
            && (forall key :: key in s.operations ==> key in after.operations && after.operations[key] == s.operations[key])
            && (forall key :: key in s.accounts ==> key in after.accounts && after.accounts[key] == s.accounts[key])
            && s.lost <= after.lost && s.failedBefore <= after.failedBefore && s.unavailableOnce <= after.unavailableOnce
  {
    if command.Submission? {
      PostEffect(o, s, command.journal);
      hide Post, OperationKey, FingerprintOf, RecordedOutcome;
    }
  }

  /** Recorded operations, accounts and spent faults are never taken back. */
  lemma {:induction false} RunKeepsRecords(o: Options, s: State, commands: seq<Command>)
    ensures var after := Run(o, s, commands);
            && (forall key :: key in s.operations ==> key in after.operations && after.operations[key] == s.operations[key])
            && (forall key :: key in s.accounts ==> key in after.accounts && after.accounts[key] == s.accounts[key])
            && s.lost <= after.lost && s.failedBefore <= after.failedBefore && s.unavailableOnce <= after.unavailableOnce
    decreases commands
  {
    if commands != [] {
      StepKeepsRecords(o, s, commands[0]);
      RunKeepsRecords(o, Step(o, s, commands[0]), commands[1..]);
    }
  }

  // ---- Exactly once -------------------------------------------------------

  /** The command is a posting under `key` that changes some balance. */
  ghost predicate MovesMoney(o: Options, s: State, command: Command, key: string) {
    command.Submission? && OperationKey(command.journal) == key && Step(o, s, command).balances != s.balances
  }

  ghost function Moves(o: Options, s: State, commands: seq<Command>, key: string): nat
    decreases commands
  {
    if commands == [] then 0 else
      (if MovesMoney(o, s, commands[0], key) then 1 else 0) + Moves(o, Step(o, s, commands[0]), commands[1..], key)
  }

  /** Money moves only in the step that records the operation, and a recorded journal always moves some. */
  lemma MovesExactlyWhenRecording(o: Options, s: State, journal: Journal)
    requires Inv(s)
    ensures Post(o, s, journal).0.balances != s.balances <==>
            OperationKey(journal) !in s.operations && OperationKey(journal) in Post(o, s, journal).0.operations
  {
    PostEffect(o, s, journal);
    if Records(o, s, journal) {
      RecordingMoves(s, journal);
    }
    hide Post, OperationKey, FingerprintOf, RecordedOutcome;
  }

  lemma {:induction false} StagedHolds(s: State, journal: Journal, n: nat, i: nat)
    requires Inv(s) && i < n <= |journal.lines| && Staged(s, journal, n).Some?
    requires forall k :: 0 <= k < n ==> Known(s, journal, journal.lines[k].accountId)
    requires forall k :: i < k < n ==> journal.lines[k].accountId != journal.lines[i].accountId
    ensures var key := LineKey(journal, journal.lines[i].accountId);
            key in s.balances && key in Staged(s, journal, n).value
            && Staged(s, journal, n).value[key] == NextBalance(s, journal, journal.lines[i])
  {
    KnownByKey(s, journal, journal.lines[i].accountId);
    KnownByKey(s, journal, journal.lines[n - 1].accountId);
    if i < n - 1 {
      StagedHolds(s, journal, n - 1, i);
      LineKeyInjective(journal, journal.lines[i].accountId, journal.lines[n - 1].accountId);
    }
  }

  lemma RecordingMoves(s: State, journal: Journal)
    requires Inv(s) && Verdict(journal.lines).None? && Staged(s, journal, |journal.lines|).Some?
    requires forall k :: 0 <= k < |journal.lines| ==> Known(s, journal, journal.lines[k].accountId)
    ensures s.balances + Staged(s, journal, |journal.lines|).value != s.balances
  {
    var n := |journal.lines|;
    var last := journal.lines[n - 1];
    StagedHolds(s, journal, n, n - 1);
    assert OneSided(last);
    var key := LineKey(journal, last.accountId);
    assert (s.balances + Staged(s, journal, n).value)[key] == NextBalance(s, journal, last) != s.balances[key];
  }

  /** Within one journal's ledger the joined balance key determines the account. */
  lemma LineKeyInjective(journal: Journal, a: string, b: string)
    ensures LineKey(journal, a) == LineKey(journal, b) <==> a == b
  {
    var p, q := KeyPrefix(journal.tenantId, journal.legalEntityId), KeySuffix(journal.currency, journal.mappingVersion);
    if LineKey(journal, a) == LineKey(journal, b) {
      assert |p + a + q| == |p + b + q|;
      assert a == (p + a + q)[|p|..|p| + |a|] && b == (p + b + q)[|p|..|p| + |b|];
    }
  }

  /** Exactly-once effect: over any run an operation key moves money at most once, and never once recorded. */
  lemma {:induction false} ExactlyOnce(o: Options, s: State, commands: seq<Command>, key: string)
    requires Inv(s)
    ensures Moves(o, s, commands, key) <= if key in s.operations then 0 else 1
    ensures Moves(o, s, commands, key) == 1 <==> key !in s.operations && key in Run(o, s, commands).operations
    decreases commands
  {
    if commands != [] {
      var next := Step(o, s, commands[0]);
      StepKeepsInv(o, s, commands[0]);
      StepKeepsRecords(o, s, commands[0]);
      RunKeepsRecords(o, next, commands[1..]);
      ExactlyOnce(o, next, commands[1..], key);
      if commands[0].Submission? {
        MovesExactlyWhenRecording(o, s, commands[0].journal);
        PostEffect(o, s, commands[0].journal);
      }
      hide Post, CreateAccount, Inv, OperationKey;
    }
  }

  // ---- Conservation -------------------------------------------------------

  ghost predicate DistinctAccounts(lines: seq<Line>) {
    forall i, k :: 0 <= i < k < |lines| ==> lines[i].accountId != lines[k].accountId
  }

  function Plus(balance: Balance, debit: nat, credit: nat): Balance {
    Balance(balance.debitsPosted + debit, balance.creditsPosted + credit)
  }

  /** The journal's lines are all applied to the account: its balance grows by their sums. */
  ghost predicate Applies(s: State, after: State, journal: Journal, accountId: string)
    requires LineKey(journal, accountId) in s.balances && LineKey(journal, accountId) in after.balances
  {
    after.balances[LineKey(journal, accountId)] ==
    Plus(s.balances[LineKey(journal, accountId)], DebitTo(journal.lines, accountId), CreditTo(journal.lines, accountId))
  }

  lemma {:induction false} UnnamedAccount(lines: seq<Line>, accountId: string)
    requires forall i :: 0 <= i < |lines| ==> lines[i].accountId != accountId
    ensures DebitTo(lines, accountId) == 0 == CreditTo(lines, accountId)
  {
    if lines != [] {
      UnnamedAccount(lines[1..], accountId);
    }
  }

  /** The sums over the first `n` lines split off line `i`; the rest is nonnegative. */
  lemma {:induction false} AccountSums(lines: seq<Line>, i: nat)
    requires i < |lines|
    ensures var id := lines[i].accountId;
            && DebitTo(lines, id) >= lines[i].debitMinor && CreditTo(lines, id) >= lines[i].creditMinor
            && ((forall k :: 0 <= k < |lines| && k != i ==> lines[k].accountId != id) ==>
                  DebitTo(lines, id) == lines[i].debitMinor && CreditTo(lines, id) == lines[i].creditMinor)
            && ((exists k :: 0 <= k < |lines| && k != i && lines[k].accountId == id && OneSided(lines[k])) ==>
                  DebitTo(lines, id) + CreditTo(lines, id) > lines[i].debitMinor + lines[i].creditMinor)
  {
    var id := lines[i].accountId;
    if i > 0 {
      AccountSums(lines[1..], i - 1);
      assert forall k :: 1 <= k < |lines| ==> lines[k] == lines[1..][k - 1];
    } else {
      if forall k :: 1 <= k < |lines| ==> lines[k].accountId != id {
        UnnamedAccount(lines[1..], id);
      } else if exists k :: 1 <= k < |lines| && lines[k].accountId == id && OneSided(lines[k]) {
        var k :| 1 <= k < |lines| && lines[k].accountId == id && OneSided(lines[k]);
        AccountSums(lines[1..], k - 1);
      }
    }
  }

  /** The last line naming an account is the only one whose amounts survive. */
  lemma LastLine(lines: seq<Line>, accountId: string) returns (i: nat)
    requires exists k :: 0 <= k < |lines| && lines[k].accountId == accountId
    ensures i < |lines| && lines[i].accountId == accountId
    ensures forall k :: i < k < |lines| ==> lines[k].accountId != accountId
  {
    i := |lines| - 1;
    while lines[i].accountId != accountId
      invariant i < |lines|
      invariant forall k :: i < k < |lines| ==> lines[k].accountId != accountId
      decreases i
    {
      i := i - 1;
    }
  }

  /**
   * Exactly when the program applies a booked journal in full: every account's balance grows by the
   * sum of its lines if and only if no account is on two lines. A repeated account keeps only its last line.
   */
  lemma AppliesExactlyWhenDistinct(o: Options, s: State, journal: Journal)
    requires Inv(s) && Records(o, s, journal)
    ensures forall i :: 0 <= i < |journal.lines| ==>
              LineKey(journal, journal.lines[i].accountId) in s.balances
              && LineKey(journal, journal.lines[i].accountId) in Post(o, s, journal).0.balances
    ensures DistinctAccounts(journal.lines) <==>
            forall i :: 0 <= i < |journal.lines| ==> Applies(s, Post(o, s, journal).0, journal, journal.lines[i].accountId)
  {
    var lines, after := journal.lines, Post(o, s, journal).0;
    PostEffect(o, s, journal);
    hide Inv, Applies, Post, LineKey, Staged, Verdict, Known, OnlyLine, DistinctAccounts;
    forall i | 0 <= i < |lines|
      ensures LineKey(journal, lines[i].accountId) in s.balances && LineKey(journal, lines[i].accountId) in after.balances
      ensures Applies(s, after, journal, lines[i].accountId) <==> OnlyLine(lines, i)
    {
      LineApplied(s, after, journal, i);
    }
    DistinctByLine(lines);
  }

  /** No other line names the account of line `i`. */
  ghost predicate OnlyLine(lines: seq<Line>, i: nat)
    requires i < |lines|
  {
    forall k :: 0 <= k < |lines| && lines[k].accountId == lines[i].accountId ==> k == i
  }

  lemma DistinctByLine(lines: seq<Line>)
    ensures DistinctAccounts(lines) <==> forall i :: 0 <= i < |lines| ==> OnlyLine(lines, i)
  {
    if forall i :: 0 <= i < |lines| ==> OnlyLine(lines, i) {
      forall i, k | 0 <= i < k < |lines| ensures lines[i].accountId != lines[k].accountId {
        assert OnlyLine(lines, i);
      }
    }
  }

  lemma LineApplied(s: State, after: State, journal: Journal, i: nat)
    requires Inv(s) && Verdict(journal.lines).None? && Staged(s, journal, |journal.lines|).Some? && i < |journal.lines|
    requires forall k :: 0 <= k < |journal.lines| ==> Known(s, journal, journal.lines[k].accountId)
    requires after.balances == s.balances + Staged(s, journal, |journal.lines|).value
    ensures LineKey(journal, journal.lines[i].accountId) in s.balances
    ensures LineKey(journal, journal.lines[i].accountId) in after.balances
    ensures Applies(s, after, journal, journal.lines[i].accountId) <==> OnlyLine(journal.lines, i)
  {
    var lines, id := journal.lines, journal.lines[i].accountId;
    var last := LastLine(lines, id);
    StagedHolds(s, journal, |lines|, last);
    assert after.balances[LineKey(journal, id)] == NextBalance(s, journal, lines[last]);
    AccountSums(lines, last);
    assert forall k :: 0 <= k < |lines| ==> OneSided(lines[k]);
  }

  /** What a journal books under one balance key. */
  function BookedUnder(journal: Journal, lines: seq<Line>, key: string): Balance {
    if lines == [] then Balance(0, 0) else
      var rest := BookedUnder(journal, lines[1..], key);
      if LineKey(journal, lines[0].accountId) == key then Plus(rest, lines[0].debitMinor, lines[0].creditMinor) else rest
  }

  function Sum(left: Balance, right: Balance): Balance {
    Plus(left, right.debitsPosted, right.creditsPosted)
  }

  /** The sum of a list of booked journals under one balance key. */
  function History(journals: seq<Journal>, key: string): Balance {
    if journals == [] then Balance(0, 0)
    else Sum(BookedUnder(journals[0], journals[0].lines, key), History(journals[1..], key))
  }

  function BalanceOf(s: State, key: string): Balance {
    if key in s.balances then s.balances[key] else Balance(0, 0)
  }

  lemma {:induction false} BookedUnderIsSum(journal: Journal, lines: seq<Line>, accountId: string)
    ensures BookedUnder(journal, lines, LineKey(journal, accountId)) ==
            Balance(DebitTo(lines, accountId), CreditTo(lines, accountId))
  {
    if lines != [] {
      BookedUnderIsSum(journal, lines[1..], accountId);
      LineKeyInjective(journal, lines[0].accountId, accountId);
    }
  }

  lemma {:induction false} BookedUnderNone(journal: Journal, lines: seq<Line>, key: string)
    requires forall i :: 0 <= i < |lines| ==> LineKey(journal, lines[i].accountId) != key
    ensures BookedUnder(journal, lines, key) == Balance(0, 0)
  {
    if lines != [] {
      BookedUnderNone(journal, lines[1..], key);
    }
  }

  lemma {:induction false} StagedKeys(s: State, journal: Journal, n: nat, key: string)
    requires n <= |journal.lines| && Staged(s, journal, n).Some? && key in Staged(s, journal, n).value
    ensures exists i :: 0 <= i < n && LineKey(journal, journal.lines[i].accountId) == key
  {
    if LineKey(journal, journal.lines[n - 1].accountId) != key {
      StagedKeys(s, journal, n - 1, key);
    }
  }

  /** A booked journal with distinct accounts adds exactly its lines to every balance key. */
  lemma RecordingConserves(o: Options, s: State, journal: Journal, key: string)
    requires Inv(s) && Records(o, s, journal) && DistinctAccounts(journal.lines)
    ensures BalanceOf(Post(o, s, journal).0, key) == Sum(BalanceOf(s, key), BookedUnder(journal, journal.lines, key))
  {
    var lines := journal.lines;
    PostEffect(o, s, journal);
    AppliesExactlyWhenDistinct(o, s, journal);
    if i :| 0 <= i < |lines| && LineKey(journal, lines[i].accountId) == key {
      BookedUnderIsSum(journal, lines, lines[i].accountId);
      assert Applies(s, Post(o, s, journal).0, journal, lines[i].accountId);
    } else {
      BookedUnderNone(journal, lines, key);
      if key in Staged(s, journal, |lines|).value {
        StagedKeys(s, journal, |lines|, key);
      }
    }
  }

  ghost predicate AllDistinct(journals: seq<Journal>) {
    journals == [] || (DistinctAccounts(journals[0].lines) && AllDistinct(journals[1..]))
  }

  /** The command books its journal. */
  predicate Books(o: Options, s: State, command: Command) {
    command.Submission? && Records(o, s, command.journal)
  }

  lemma StepConserves(o: Options, s: State, command: Command, key: string)
    requires Inv(s) && (Books(o, s, command) ==> DistinctAccounts(command.journal.lines))
    ensures BalanceOf(Step(o, s, command), key) ==
            if Books(o, s, command) then Sum(BalanceOf(s, key), BookedUnder(command.journal, command.journal.lines, key))
            else BalanceOf(s, key)
  {
    if Books(o, s, command) {
      RecordingConserves(o, s, command.journal, key);
    } else if command.Submission? {
      PostEffect(o, s, command.journal);
    }
    hide Post, Records, DistinctAccounts, BookedUnder;
  }

  /**
   * Conservation over any run: when no booked journal repeats an account, every balance is what it
   * was plus the sum of all journals booked since.
   */
  lemma {:induction false} RunConserves(o: Options, s: State, commands: seq<Command>, key: string)
    requires Inv(s) && AllDistinct(Booking(o, s, commands))
    ensures BalanceOf(Run(o, s, commands), key) == Sum(BalanceOf(s, key), History(Booking(o, s, commands), key))
    decreases commands
  {
    if commands != [] {
      hide Step, Records, DistinctAccounts, Inv, BookedUnder, BalanceOf;
      BookingSplit(o, s, commands);
      StepKeepsInv(o, s, commands[0]);
      StepConserves(o, s, commands[0], key);
      RunConserves(o, Step(o, s, commands[0]), commands[1..], key);
    }
  }

  lemma BookingSplit(o: Options, s: State, commands: seq<Command>)
    requires commands != []
    ensures var rest := Booking(o, Step(o, s, commands[0]), commands[1..]);
            if Books(o, s, commands[0]) then
              Booking(o, s, commands) != [] && Booking(o, s, commands)[0] == commands[0].journal && Booking(o, s, commands)[1..] == rest
            else Booking(o, s, commands) == rest
  {
  }

  // ---- Double entry -------------------------------------------------------

  /** The sum of all balances. */
  ghost function Overall(balances: map<string, Balance>): Balance
    decreases |balances|
  {
    if balances == map[] then Balance(0, 0) else
      var key :| key in balances;
      Sum(balances[key], Overall(balances - {key}))
  }

  lemma {:induction false} OverallSplit(balances: map<string, Balance>, key: string)
    requires key in balances
    ensures Overall(balances) == Sum(balances[key], Overall(balances - {key}))
    decreases |balances|
  {
    var first :| first in balances && Overall(balances) == Sum(balances[first], Overall(balances - {first}));
    hide Overall;
    if first != key {
      var both := balances - {first} - {key};
      OverallSplit(balances - {first}, key);
      assert Overall(balances) == Sum(balances[first], Sum(balances[key], Overall(both)));
      OverallSplit(balances - {key}, first);
      assert balances - {key} - {first} == both;
    }
  }

  lemma OverallUpdate(balances: map<string, Balance>, key: string, balance: Balance)
    ensures key !in balances && balance == Balance(0, 0) ==> Overall(balances[key := balance]) == Overall(balances)
    ensures key in balances ==>
              Sum(Overall(balances[key := balance]), balances[key]) == Sum(Overall(balances), balance)
  {
    var updated := balances[key := balance];
    OverallSplit(updated, key);
    if key in balances {
      OverallSplit(balances, key);
      assert updated - {key} == balances - {key};
    } else {
      assert updated - {key} == balances;
    }
  }

  predicate Named(lines: seq<Line>, accountId: string) {
    exists i :: 0 <= i < |lines| && lines[i].accountId == accountId
  }

  /** What the last line naming the account books on it. */
  function Last(lines: seq<Line>, accountId: string): Balance {
    if lines == [] then Balance(0, 0)
    else if lines[0].accountId == accountId && !Named(lines[1..], accountId) then Balance(lines[0].debitMinor, lines[0].creditMinor)
    else Last(lines[1..], accountId)
  }

  /** What the program keeps of a journal: for each account, only its last line. */
  function Kept(lines: seq<Line>): Balance {
    if lines == [] then Balance(0, 0)
    else if Named(lines[1..], lines[0].accountId) then Kept(lines[1..])
    else Plus(Kept(lines[1..]), lines[0].debitMinor, lines[0].creditMinor)
  }

  lemma NamedSnoc(lines: seq<Line>, last: Line, accountId: string)
    ensures Named(lines + [last], accountId) <==> Named(lines, accountId) || last.accountId == accountId
  {
    var longer := lines + [last];
    assert longer[|lines|] == last && forall i :: 0 <= i < |lines| ==> longer[i] == lines[i];
  }

  lemma {:induction false} UnnamedLast(lines: seq<Line>, accountId: string)
    requires !Named(lines, accountId)
    ensures Last(lines, accountId) == Balance(0, 0)
  {
    if lines != [] {
      assert forall i :: 0 <= i < |lines[1..]| ==> lines[1..][i] == lines[i + 1];
      UnnamedLast(lines[1..], accountId);
    }
  }

  /** A further line replaces what was kept of its account. */
  lemma {:induction false} KeptSnoc(lines: seq<Line>, last: Line)
    ensures Sum(Kept(lines + [last]), Last(lines, last.accountId)) == Plus(Kept(lines), last.debitMinor, last.creditMinor)
  {
    if lines == [] {
      assert [last][1..] == [];
    } else {
      var tail := lines[1..];
      assert (lines + [last])[1..] == tail + [last];
      KeptSnoc(tail, last);
      NamedSnoc(tail, last, lines[0].accountId);
      if lines[0].accountId == last.accountId && !Named(tail, last.accountId) {
        UnnamedLast(tail, last.accountId);
      }
      hide Named;
    }
  }

  lemma {:induction false} LastIs(lines: seq<Line>, i: nat)
    requires i < |lines| && forall k :: i < k < |lines| ==> lines[k].accountId != lines[i].accountId
    ensures Last(lines, lines[i].accountId) == Balance(lines[i].debitMinor, lines[i].creditMinor)
  {
    if i > 0 {
      assert lines[1..][i - 1] == lines[i];
      LastIs(lines[1..], i - 1);
    } else {
      assert forall k :: 0 <= k < |lines[1..]| ==> lines[1..][k] == lines[k + 1];
    }
  }

  /** After the first `n` lines are staged, an account stands at its posted balance plus its last line. */
  lemma StagedLast(s: State, journal: Journal, n: nat, accountId: string)
    requires Inv(s) && n <= |journal.lines| && Staged(s, journal, n).Some? && Known(s, journal, accountId)
    requires forall k :: 0 <= k < |journal.lines| ==> Known(s, journal, journal.lines[k].accountId)
    ensures LineKey(journal, accountId) in s.balances
    ensures (s.balances + Staged(s, journal, n).value)[LineKey(journal, accountId)] ==
            Sum(s.balances[LineKey(journal, accountId)], Last(journal.lines[..n], accountId))
  {
    KnownByKey(s, journal, accountId);
    hide LineKey, Known, Allowed, Inv;
    if Named(journal.lines[..n], accountId) {
      StagedNamed(s, journal, n, accountId);
    } else {
      StagedUnnamed(s, journal, n, accountId);
    }
  }

  lemma StagedNamed(s: State, journal: Journal, n: nat, accountId: string)
    requires Inv(s) && n <= |journal.lines| && Staged(s, journal, n).Some? && Named(journal.lines[..n], accountId)
    requires forall k :: 0 <= k < |journal.lines| ==> Known(s, journal, journal.lines[k].accountId)
    ensures var key := LineKey(journal, accountId);
            && key in s.balances && key in Staged(s, journal, n).value
            && Staged(s, journal, n).value[key] == Sum(s.balances[key], Last(journal.lines[..n], accountId))
  {
    hide LineKey, Known, Staged, Inv;
    var front := journal.lines[..n];
    var i := LastLine(front, accountId);
    assert forall k :: i < k < n ==> journal.lines[k] == front[k];
    StagedHolds(s, journal, n, i);
    LastIs(front, i);
  }

  lemma StagedUnnamed(s: State, journal: Journal, n: nat, accountId: string)
    requires n <= |journal.lines| && Staged(s, journal, n).Some? && !Named(journal.lines[..n], accountId)
    ensures LineKey(journal, accountId) !in Staged(s, journal, n).value && Last(journal.lines[..n], accountId) == Balance(0, 0)
  {
    hide LineKey, Staged;
    UnnamedLast(journal.lines[..n], accountId);
    if LineKey(journal, accountId) in Staged(s, journal, n).value {
      StagedKeys(s, journal, n, LineKey(journal, accountId));
      var i :| 0 <= i < n && LineKey(journal, journal.lines[i].accountId) == LineKey(journal, accountId);
      LineKeyInjective(journal, journal.lines[i].accountId, accountId);
      assert false;
    }
  }

  /** Staging adds to the sum of all balances exactly what is kept of the lines. */
  lemma {:induction false} StagedOverall(s: State, journal: Journal, n: nat)
    requires Inv(s) && n <= |journal.lines| && Staged(s, journal, n).Some?
    requires forall k :: 0 <= k < |journal.lines| ==> Known(s, journal, journal.lines[k].accountId)
    ensures Overall(s.balances + Staged(s, journal, n).value) == Sum(Overall(s.balances), Kept(journal.lines[..n]))
  {
    hide Overall, Allowed, LineKey, Known, Kept, Last;
    var lines := journal.lines;
    if n == 0 {
      assert s.balances + map[] == s.balances;
      assert Kept(lines[..0]) == Balance(0, 0) by { NothingKept(lines[..0]); }
    } else {
      var line, before := lines[n - 1], lines[..n - 1];
      StagedOverall(s, journal, n - 1);
      StagedUpdate(s, journal, n);
      StagedLast(s, journal, n - 1, line.accountId);
      OverallUpdate(s.balances + Staged(s, journal, n - 1).value, LineKey(journal, line.accountId), NextBalance(s, journal, line));
      assert lines[..n] == before + [line];
      KeptSnoc(before, line);
    }
  }

  lemma NothingKept(lines: seq<Line>)
    requires lines == []
    ensures Kept(lines) == Balance(0, 0)
  {
  }

  lemma StagedUpdate(s: State, journal: Journal, n: nat)
    requires Inv(s) && 0 < n <= |journal.lines| && Staged(s, journal, n).Some?
    requires Known(s, journal, journal.lines[n - 1].accountId)
    ensures var key := LineKey(journal, journal.lines[n - 1].accountId);
            && Staged(s, journal, n - 1).Some? && key in s.balances
            && s.balances + Staged(s, journal, n).value ==
               (s.balances + Staged(s, journal, n - 1).value)[key := NextBalance(s, journal, journal.lines[n - 1])]
  {
    KnownByKey(s, journal, journal.lines[n - 1].accountId);
  }

  /** Booking a journal adds to the sum of all balances exactly its kept lines. */
  lemma RecordingKeeps(o: Options, s: State, journal: Journal)
    requires Inv(s) && Records(o, s, journal)
    ensures Overall(Post(o, s, journal).0.balances) == Sum(Overall(s.balances), Kept(journal.lines))
  {
    PostEffect(o, s, journal);
    StagedOverall(s, journal, |journal.lines|);
    assert journal.lines[..|journal.lines|] == journal.lines;
    hide Post, Overall, Staged, Kept;
  }

  /** What a journal's last line under a balance key books on it. */
  ghost function LastUnder(journal: Journal, key: string): Balance {
    if exists i :: 0 <= i < |journal.lines| && LineKey(journal, journal.lines[i].accountId) == key then
      var i :| 0 <= i < |journal.lines| && LineKey(journal, journal.lines[i].accountId) == key;
      Last(journal.lines, journal.lines[i].accountId)
    else Balance(0, 0)
  }

  ghost function LastHistory(journals: seq<Journal>, key: string): Balance {
    if journals == [] then Balance(0, 0) else Sum(LastUnder(journals[0], key), LastHistory(journals[1..], key))
  }

  /** Booking a journal adds to each balance exactly the last line of the journal under its key. */
  lemma RecordingKeepsEach(o: Options, s: State, journal: Journal, key: string)
    requires Inv(s) && Records(o, s, journal)
    ensures BalanceOf(Post(o, s, journal).0, key) == Sum(BalanceOf(s, key), LastUnder(journal, key))
  {
    var lines := journal.lines;
    PostEffect(o, s, journal);
    assert lines[..|lines|] == lines;
    hide Post, Inv, Last, Verdict;
    if exists i :: 0 <= i < |lines| && LineKey(journal, lines[i].accountId) == key {
      var i :| 0 <= i < |lines| && LineKey(journal, lines[i].accountId) == key && LastUnder(journal, key) == Last(lines, lines[i].accountId);
      hide LastUnder;
      StagedLast(s, journal, |lines|, lines[i].accountId);
    } else {
      if key in Staged(s, journal, |lines|).value {
        StagedKeys(s, journal, |lines|, key);
      }
    }
  }

  lemma StepKeepsEach(o: Options, s: State, command: Command, key: string)
    requires Inv(s)
    ensures BalanceOf(Step(o, s, command), key) ==
            if Books(o, s, command) then Sum(BalanceOf(s, key), LastUnder(command.journal, key)) else BalanceOf(s, key)
  {
    if Books(o, s, command) {
      RecordingKeepsEach(o, s, command.journal, key);
    } else if command.Submission? {
      PostEffect(o, s, command.journal);
    }
    hide Post, Records, LastUnder;
  }

  /**
   * Over any run, whatever accounts repeat, every balance is what it was plus the last line under its
   * key of each journal booked since.
   */
  lemma {:induction false} RunKeepsEach(o: Options, s: State, commands: seq<Command>, key: string)
    requires Inv(s)
    ensures BalanceOf(Run(o, s, commands), key) == Sum(BalanceOf(s, key), LastHistory(Booking(o, s, commands), key))
    decreases commands
  {
    if commands != [] {
      hide Step, Records, Inv, LastUnder, BalanceOf;
      BookingSplit(o, s, commands);
      StepKeepsInv(o, s, commands[0]);
      StepKeepsEach(o, s, commands[0], key);
      RunKeepsEach(o, Step(o, s, commands[0]), commands[1..], key);
    }
  }

  // ---- Conservation, exactly ----------------------------------------------

  predicate Within(a: Balance, b: Balance) {
    a.debitsPosted <= b.debitsPosted && a.creditsPosted <= b.creditsPosted
  }

  lemma {:induction false} LastWithin(lines: seq<Line>, accountId: string)
    ensures Within(Last(lines, accountId), Balance(DebitTo(lines, accountId), CreditTo(lines, accountId)))
  {
    if lines != [] {
      LastWithin(lines[1..], accountId);
    }
  }

  /** An account on two lines loses a line, and that line has an amount. */
  lemma {:induction false} LastLoses(lines: seq<Line>, accountId: string, i: nat, k: nat)
    requires i < k < |lines| && lines[i].accountId == lines[k].accountId == accountId
    requires forall h :: 0 <= h < |lines| ==> OneSided(lines[h])
    ensures Last(lines, accountId) != Balance(DebitTo(lines, accountId), CreditTo(lines, accountId))
  {
    var rest := lines[1..];
    assert rest[k - 1] == lines[k] && Named(rest, accountId);
    LastWithin(rest, accountId);
    if i == 0 {
      assert OneSided(lines[0]);
    } else {
      LastLoses(rest, accountId, i - 1, k - 1);
    }
  }

  lemma LastUnderLine(journal: Journal, i: nat)
    requires i < |journal.lines|
    ensures var id := journal.lines[i].accountId;
            LastUnder(journal, LineKey(journal, id)) == Last(journal.lines, id)
            && BookedUnder(journal, journal.lines, LineKey(journal, id)) == Balance(DebitTo(journal.lines, id), CreditTo(journal.lines, id))
  {
    var id := journal.lines[i].accountId;
    BookedUnderIsSum(journal, journal.lines, id);
    forall k | 0 <= k < |journal.lines| && LineKey(journal, journal.lines[k].accountId) == LineKey(journal, id)
      ensures journal.lines[k].accountId == id
    {
      LineKeyInjective(journal, journal.lines[k].accountId, id);
    }
    hide Last, LineKey;
  }

  lemma UnderWithin(journal: Journal, key: string)
    ensures Within(LastUnder(journal, key), BookedUnder(journal, journal.lines, key))
  {
    if i :| 0 <= i < |journal.lines| && LineKey(journal, journal.lines[i].accountId) == key {
      LastUnderLine(journal, i);
      LastWithin(journal.lines, journal.lines[i].accountId);
    } else {
      hide BookedUnder, Last;
    }
  }

  lemma {:induction false} HistoryWithin(journals: seq<Journal>, key: string)
    ensures Within(LastHistory(journals, key), History(journals, key))
  {
    hide LastUnder, BookedUnder;
    if journals != [] {
      UnderWithin(journals[0], key);
      HistoryWithin(journals[1..], key);
    }
  }

  lemma RepeatLoses(journal: Journal) returns (key: string)
    requires Verdict(journal.lines).None? && !DistinctAccounts(journal.lines)
    ensures LastUnder(journal, key) != BookedUnder(journal, journal.lines, key)
  {
    var lines := journal.lines;
    var i, k :| 0 <= i < k < |lines| && lines[i].accountId == lines[k].accountId;
    key := LineKey(journal, lines[i].accountId);
    LastUnderLine(journal, i);
    LastLoses(lines, lines[i].accountId, i, k);
    hide LastUnder, BookedUnder, Last;
  }

  ghost predicate AllValid(journals: seq<Journal>) {
    forall i :: 0 <= i < |journals| ==> Verdict(journals[i].lines).None?
  }

  /** A line lost is never made up for by another journal. */
  lemma {:induction false} HistoryLoses(journals: seq<Journal>) returns (key: string)
    requires AllValid(journals) && !AllDistinct(journals)
    ensures LastHistory(journals, key) != History(journals, key)
  {
    hide LastUnder, BookedUnder, Verdict, DistinctAccounts;
    var first, rest := journals[0], journals[1..];
    if DistinctAccounts(first.lines) {
      assert forall i :: 0 <= i < |rest| ==> rest[i] == journals[i + 1];
      key := HistoryLoses(rest);
    } else {
      key := RepeatLoses(first);
    }
    UnderWithin(first, key);
    HistoryWithin(rest, key);
  }

  lemma {:induction false} BookedAreValid(o: Options, s: State, commands: seq<Command>)
    ensures AllValid(Booking(o, s, commands))
    decreases commands
  {
    if commands != [] {
      BookingSplit(o, s, commands);
      var booked, rest := Booking(o, s, commands), Booking(o, Step(o, s, commands[0]), commands[1..]);
      BookedAreValid(o, Step(o, s, commands[0]), commands[1..]);
      if Books(o, s, commands[0]) {
        assert Verdict(commands[0].journal.lines).None?;
        hide Step, Records, Verdict, Booking;
        forall i | 0 <= i < |booked| ensures Verdict(booked[i].lines).None? {
          if i > 0 {
            assert booked[i] == rest[i - 1];
          }
        }
      }
    }
  }

  /**
   * Exactly when a run conserves: every balance is what it was plus the sum of all journals booked
   * since, if and only if no booked journal repeats an account.
   */
  lemma RunConservesExactly(o: Options, s: State, commands: seq<Command>)
    requires Inv(s)
    ensures AllDistinct(Booking(o, s, commands)) <==>
            forall key :: BalanceOf(Run(o, s, commands), key) == Sum(BalanceOf(s, key), History(Booking(o, s, commands), key))
  {
    hide Run, Booking, Inv, BalanceOf, History, LastHistory, AllDistinct;
    if AllDistinct(Booking(o, s, commands)) {
      forall key ensures BalanceOf(Run(o, s, commands), key) == Sum(BalanceOf(s, key), History(Booking(o, s, commands), key)) {
        RunConserves(o, s, commands, key);
      }
    } else {
      BookedAreValid(o, s, commands);
      var key := HistoryLoses(Booking(o, s, commands));
      RunKeepsEach(o, s, commands, key);
    }
  }

  // ---- Double entry, exactly ----------------------------------------------

  /** The journal's kept lines debit as much as they credit. */
  predicate KeptBalanced(lines: seq<Line>) {
    Kept(lines).debitsPosted == Kept(lines).creditsPosted
  }

  ghost predicate Balanced(s: State) {
    Overall(s.balances).debitsPosted == Overall(s.balances).creditsPosted
  }

  lemma StepOverall(o: Options, s: State, command: Command)
    requires Inv(s)
    ensures Overall(Step(o, s, command).balances) ==
            if Books(o, s, command) then Sum(Overall(s.balances), Kept(command.journal.lines)) else Overall(s.balances)
  {
    hide Overall, Staged, LineKey, AccountKey, Known, Kept;
    if command.Create? {
      OverallUpdate(s.balances, AccountKey(command.account), Balance(0, 0));
    } else if Books(o, s, command) {
      RecordingKeeps(o, s, command.journal);
    } else {
      PostEffect(o, s, command.journal);
      hide Post;
    }
  }

  /** Exactly when one step keeps double entry: unless it books a journal whose kept lines do not balance. */
  lemma StepBalancesExactly(o: Options, s: State, command: Command)
    requires Inv(s) && Balanced(s)
    ensures Balanced(Step(o, s, command)) <==> (Books(o, s, command) ==> KeptBalanced(command.journal.lines))
  {
    StepOverall(o, s, command);
    hide Step, Overall, Kept, Records;
  }

  function KeptAll(journals: seq<Journal>): Balance {
    if journals == [] then Balance(0, 0) else Sum(Kept(journals[0].lines), KeptAll(journals[1..]))
  }

  /** Over any run the sum of all balances grows by the kept lines of the journals booked. */
  lemma {:induction false} RunOverall(o: Options, s: State, commands: seq<Command>)
    requires Inv(s)
    ensures Overall(Run(o, s, commands).balances) == Sum(Overall(s.balances), KeptAll(Booking(o, s, commands)))
    decreases commands
  {
    if commands != [] {
      hide Step, Records, Inv, Overall, Kept;
      BookingSplit(o, s, commands);
      StepKeepsInv(o, s, commands[0]);
      StepOverall(o, s, commands[0]);
      RunOverall(o, Step(o, s, commands[0]), commands[1..]);
    }
  }

  /** Exactly when a run ends in balance: the kept lines of all its journals debit as much as they credit. */
  lemma RunBalancesExactly(o: Options, s: State, commands: seq<Command>)
    requires Inv(s) && Balanced(s)
    ensures Balanced(Run(o, s, commands)) <==>
            KeptAll(Booking(o, s, commands)).debitsPosted == KeptAll(Booking(o, s, commands)).creditsPosted
  {
    RunOverall(o, s, commands);
    hide Run, Booking, Overall, KeptAll;
  }

  /** The ledger is in balance after every step of the run. */
  ghost predicate StaysBalanced(o: Options, s: State, commands: seq<Command>)
    decreases commands
  {
    Balanced(s) && (commands == [] || StaysBalanced(o, Step(o, s, commands[0]), commands[1..]))
  }

  ghost predicate AllKeptBalanced(journals: seq<Journal>) {
    forall i :: 0 <= i < |journals| ==> KeptBalanced(journals[i].lines)
  }

  /** Exactly when double entry holds throughout a run: every journal booked balances in its kept lines. */
  lemma {:induction false} RunStaysBalancedExactly(o: Options, s: State, commands: seq<Command>)
    requires Inv(s) && Balanced(s)
    ensures StaysBalanced(o, s, commands) <==> AllKeptBalanced(Booking(o, s, commands))
    decreases commands
  {
    if commands != [] {
      hide Step, Records, Inv, Balanced, KeptBalanced;
      var next, booked := Step(o, s, commands[0]), Booking(o, s, commands);
      BookingSplit(o, s, commands);
      StepKeepsInv(o, s, commands[0]);
      StepBalancesExactly(o, s, commands[0]);
      if Books(o, s, commands[0]) {
        assert booked == [commands[0].journal] + booked[1..];
        KeptBalancedCons(booked);
      }
      if Balanced(next) {
        RunStaysBalancedExactly(o, next, commands[1..]);
      } else {
        Unbalanced(o, next, commands[1..]);
      }
    }
  }

  lemma Unbalanced(o: Options, s: State, commands: seq<Command>)
    requires !Balanced(s)
    ensures !StaysBalanced(o, s, commands)
  {
  }

  lemma KeptBalancedCons(journals: seq<Journal>)
    requires journals != []
    ensures AllKeptBalanced(journals) <==> KeptBalanced(journals[0].lines) && AllKeptBalanced(journals[1..])
  {
    hide KeptBalanced;
    assert forall i :: 1 <= i < |journals| ==> journals[i] == journals[1..][i - 1];
  }

  /** With distinct accounts everything is kept. */
  lemma {:induction false} DistinctKeepsAll(lines: seq<Line>)
    requires DistinctAccounts(lines)
    ensures Kept(lines) == Balance(DebitTotal(lines), CreditTotal(lines))
  {
    if lines != [] {
      assert forall i :: 0 <= i < |lines[1..]| ==> lines[1..][i] == lines[i + 1];
      DistinctKeepsAll(lines[1..]);
    }
  }

  /** Double entry over any run: with no repeated accounts, total debits equal total credits throughout. */
  lemma RunStaysBalanced(o: Options, s: State, commands: seq<Command>)
    requires Inv(s) && Balanced(s) && AllDistinct(Booking(o, s, commands))
    ensures StaysBalanced(o, s, commands)
  {
    DistinctKeptBalanced(o, s, commands);
    RunStaysBalancedExactly(o, s, commands);
  }

  lemma {:induction false} DistinctKeptBalanced(o: Options, s: State, commands: seq<Command>)
    requires AllDistinct(Booking(o, s, commands))
    ensures AllKeptBalanced(Booking(o, s, commands))
    decreases commands
  {
    if commands != [] {
      hide Step, DistinctAccounts, KeptBalanced;
      var booked := Booking(o, s, commands);
      BookingSplit(o, s, commands);
      DistinctKeptBalanced(o, Step(o, s, commands[0]), commands[1..]);
      if Books(o, s, commands[0]) {
        KeptBalancedCons(booked);
        ValidKept(booked[0].lines);
      }
    }
  }

  lemma ValidKept(lines: seq<Line>)
    requires Verdict(lines).None? && DistinctAccounts(lines)
    ensures KeptBalanced(lines)
  {
    DistinctKeepsAll(lines);
  }

  /** Repeated accounts need not unbalance a journal: here both sides lose the same. */
  lemma RepeatedAccountsMayBalance() returns (lines: seq<Line>)
    ensures Verdict(lines).None? && !DistinctAccounts(lines) && KeptBalanced(lines)
  {
    var a, b := Line("a", 5, 0), Line("b", 0, 5);
    var one := Prepend(b, []);
    var two := Prepend(b, one);
    var three := Prepend(a, two);
    lines := Prepend(a, three);
    assert one[0] == b && two[0] == two[1] == b && three[0] == a;
    assert lines[0] == lines[1] == a && lines[2] == lines[3] == b;
    assert Kept([]) == Balance(0, 0) && DebitTotal([]) == 0 == CreditTotal([]);
    hide Kept, DebitTotal, CreditTotal, Prepend;
    NewAccount(b, []);
    AgainAccount(b, one);
    NewAccount(a, two);
    AgainAccount(a, three);
    FourLines(lines);
  }

  function Prepend(line: Line, rest: seq<Line>): (lines: seq<Line>)
    ensures |lines| == |rest| + 1
  {
    [line] + rest
  }

  lemma PrependTotals(line: Line, rest: seq<Line>)
    ensures DebitTotal(Prepend(line, rest)) == line.debitMinor + DebitTotal(rest)
    ensures CreditTotal(Prepend(line, rest)) == line.creditMinor + CreditTotal(rest)
  {
    assert Prepend(line, rest)[1..] == rest;
  }

  lemma NewAccount(line: Line, rest: seq<Line>)
    requires !Named(rest, line.accountId)
    ensures Kept(Prepend(line, rest)) == Plus(Kept(rest), line.debitMinor, line.creditMinor)
    ensures DebitTotal(Prepend(line, rest)) == line.debitMinor + DebitTotal(rest)
    ensures CreditTotal(Prepend(line, rest)) == line.creditMinor + CreditTotal(rest)
  {
    assert Prepend(line, rest)[1..] == rest;
    PrependTotals(line, rest);
    hide DebitTotal, CreditTotal;
  }

  lemma AgainAccount(line: Line, rest: seq<Line>)
    requires rest != [] && rest[0].accountId == line.accountId
    ensures Kept(Prepend(line, rest)) == Kept(rest)
    ensures DebitTotal(Prepend(line, rest)) == line.debitMinor + DebitTotal(rest)
    ensures CreditTotal(Prepend(line, rest)) == line.creditMinor + CreditTotal(rest)
  {
    assert Prepend(line, rest)[1..] == rest && Named(rest, line.accountId);
    PrependTotals(line, rest);
    hide DebitTotal, CreditTotal;
  }

  lemma FourLines(lines: seq<Line>)
    requires |lines| == 4 && lines[0] == lines[1] == Line("a", 5, 0) && lines[2] == lines[3] == Line("b", 0, 5)
    requires DebitTotal(lines) == 10 == CreditTotal(lines) && Kept(lines) == Balance(5, 5)
    ensures Verdict(lines).None? && !DistinctAccounts(lines) && KeptBalanced(lines)
  {
    hide Kept, DebitTotal, CreditTotal;
    assert lines[0].accountId == lines[1].accountId;
  }

  /**
   * The program does not keep double entry for repeated accounts: two debits of 5 to one account
   * against one credit of 10 are booked, and only one of the debits arrives.
   */
  lemma RepeatedAccountUnbalances()
    ensures exists o, s, journal ::
              Inv(s) && Records(o, s, journal) && Overall(s.balances) == Balance(0, 0)
              && Overall(Post(o, s, journal).0.balances) == Balance(5, 10)
  {
    hide LineKey, AccountKey, Overall, Inv, Staged, Verdict, JournalPairs, TwoSidedAccount, Known, Post;
    hide OperationKey, FingerprintOf, RecordedOutcome;
    var o := Options(None, None, None, None, None);
    var journal := Journal("t", "e", "op", "j", "r", "EUR", 1, [Line("a", 5, 0), Line("a", 5, 0), Line("b", 0, 10)]);
    var s := TwoAccounts(journal);
    DoubledLineIsValid(journal.lines);
    DoubledLineStages(s, journal);
    assert Records(o, s, journal);
    hide Records;
    PostEffect(o, s, journal);
    var ka, kb := LineKey(journal, "a"), LineKey(journal, "b");
    var after := Post(o, s, journal).0;
    assert after.balances == map[ka := Balance(5, 0), kb := Balance(0, 10)];
    OverallOfTwo(after.balances, ka, kb);
  }

  lemma DoubledLineStages(s: State, journal: Journal)
    requires journal.lines == [Line("a", 5, 0), Line("a", 5, 0), Line("b", 0, 10)]
    requires var ka, kb := LineKey(journal, "a"), LineKey(journal, "b");
             && s.balances == map[ka := Balance(0, 0), kb := Balance(0, 0)] && s.accounts.Keys == {ka, kb}
             && s.accounts[ka].balanceConstraint == NoConstraint == s.accounts[kb].balanceConstraint
    ensures Staged(s, journal, 3) == Some(map[LineKey(journal, "a") := Balance(5, 0), LineKey(journal, "b") := Balance(0, 10)])
  {
    hide LineKey;
    var ka, kb := LineKey(journal, "a"), LineKey(journal, "b");
    StageLine(s, journal, 1, map[], Balance(5, 0));
    hide Staged;
    var one := map[ka := Balance(5, 0)];
    assert map[][ka := Balance(5, 0)] == one && one[ka := Balance(5, 0)] == one;
    StageLine(s, journal, 2, one, Balance(5, 0));
    StageLine(s, journal, 3, one, Balance(0, 10));
  }

  /** A ledger holding two fresh accounts the journal can address. */
  lemma TwoAccounts(journal: Journal) returns (s: State)
    requires journal.tenantId == "t" && journal.legalEntityId == "e" && journal.currency == "EUR" && journal.mappingVersion == 1
    ensures Inv(s) && s.operations == map[] && Overall(s.balances) == Balance(0, 0)
    ensures var ka, kb := LineKey(journal, "a"), LineKey(journal, "b");
            && ka != kb && s.balances == map[ka := Balance(0, 0), kb := Balance(0, 0)]
            && s.accounts.Keys == {ka, kb}
            && s.accounts[ka].balanceConstraint == NoConstraint == s.accounts[kb].balanceConstraint
    ensures Known(s, journal, "a") && Known(s, journal, "b")
  {
    var a, b := Account("t", "e", "a", "EUR", 1, NoConstraint), Account("t", "e", "b", "EUR", 1, NoConstraint);
    var ka, kb := LineKey(journal, "a"), LineKey(journal, "b");
    assert AccountKey(a) == ka && AccountKey(b) == kb;
    LineKeyInjective(journal, "a", "b");
    hide LineKey;
    s := CreateAccount(CreateAccount(Initial, a), b);
    assert s.accounts == map[ka := a, kb := b] && s.balances == map[ka := Balance(0, 0), kb := Balance(0, 0)];
    OverallOfTwo(s.balances, ka, kb);
    assert Addresses(journal, s.accounts[ka]) && Addresses(journal, s.accounts[kb]);
  }

  lemma DoubledLineIsValid(lines: seq<Line>)
    requires lines == [Line("a", 5, 0), Line("a", 5, 0), Line("b", 0, 10)]
    ensures Verdict(lines).None? && JournalPairs(lines) != [] && !TwoSidedAccount(lines)
  {
    var b, a := Line("b", 0, 10), Line("a", 5, 0);
    var one := Prepend(b, []);
    var two := Prepend(a, one);
    assert lines == Prepend(a, two);
    assert DebitTotal([]) == 0 == CreditTotal([]);
    hide DebitTotal, CreditTotal, JournalPairs;
    PrependTotals(b, []);
    PrependTotals(a, one);
    PrependTotals(a, two);
    hide Prepend;
    PairingIsBounded(lines);
  }

  lemma StageLine(s: State, journal: Journal, n: nat, before: map<string, Balance>, next: Balance)
    requires 0 < n <= |journal.lines| && Staged(s, journal, n - 1) == Some(before)
    requires LineKey(journal, journal.lines[n - 1].accountId) in s.accounts
    requires LineKey(journal, journal.lines[n - 1].accountId) in s.balances
    requires next == NextBalance(s, journal, journal.lines[n - 1])
    requires Allowed(s.accounts[LineKey(journal, journal.lines[n - 1].accountId)], next)
    ensures Staged(s, journal, n) == Some(before[LineKey(journal, journal.lines[n - 1].accountId) := next])
  {
  }

  lemma OverallOfTwo(balances: map<string, Balance>, a: string, b: string)
    requires a != b && balances.Keys == {a, b}
    ensures Overall(balances) == Sum(balances[a], balances[b])
  {
    OverallSplit(balances, a);
    OverallSplit(balances - {a}, b);
    assert balances - {a} - {b} == map[];
  }

  // ---- Faults -------------------------------------------------------------

  ghost function Unknowns(o: Options, s: State, commands: seq<Command>, key: string): nat
    decreases commands
  {
    if commands == [] then 0 else
      (if commands[0].Submission? && OperationKey(commands[0].journal) == key && Post(o, s, commands[0].journal).1.Unknown? then 1 else 0)
      + Unknowns(o, Step(o, s, commands[0]), commands[1..], key)
  }

  /** The faults not yet spent on an operation key. */
  function Budget(s: State, key: string): nat {
    (if key in s.unavailableOnce then 0 else 1) + (if key in s.failedBefore then 0 else 1) + (if key in s.lost then 0 else 1)
  }

  lemma UnknownSpends(o: Options, s: State, journal: Journal, key: string)
    requires Inv(s)
    ensures Budget(Post(o, s, journal).0, key) <= Budget(s, key)
    ensures o.unavailableFor != Some(journal.operationId) && OperationKey(journal) == key && Post(o, s, journal).1.Unknown? ==>
              Budget(Post(o, s, journal).0, key) < Budget(s, key)
  {
    hide Bookable, Known, Verdict, OperationKey, FingerprintOf;
  }

  /** Unless the operation is made unavailable for good, at most three postings under a key stay unknown. */
  lemma {:induction false} FaultBudget(o: Options, s: State, commands: seq<Command>, key: string)
    requires Inv(s)
    requires forall i :: 0 <= i < |commands| && commands[i].Submission? && OperationKey(commands[i].journal) == key ==>
               o.unavailableFor != Some(commands[i].journal.operationId)
    ensures Unknowns(o, s, commands, key) + Budget(Run(o, s, commands), key) <= Budget(s, key) <= 3
    decreases commands
  {
    if commands != [] {
      StepKeepsInv(o, s, commands[0]);
      if commands[0].Submission? {
        UnknownSpends(o, s, commands[0].journal, key);
      }
      hide Post, Inv, CreateAccount, OperationKey;
      assert forall i :: 0 <= i < |commands[1..]| ==> commands[1..][i] == commands[i + 1];
      FaultBudget(o, Step(o, s, commands[0]), commands[1..], key);
    }
  }

  /**
   * Replay: once a journal is booked, even with its response lost, posting it again at any later
   * point changes nothing and returns the booked outcome; so does reconciling it.
   */
  lemma RecordedReplay(o: Options, s: State, journal: Journal, commands: seq<Command>)
    requires Inv(s) && Records(o, s, journal)
    ensures var later := Run(o, Post(o, s, journal).0, commands);
            Post(o, later, journal) == (later, RecordedOutcome(o, journal))
            && Reconcile(o, later, journal) == RecordedOutcome(o, journal)
  {
    var booked := Post(o, s, journal).0;
    PostEffect(o, s, journal);
    RunKeepsRecords(o, booked, commands);
    var later := Run(o, booked, commands);
    forall i | 0 <= i < |journal.lines| ensures Known(later, journal, journal.lines[i].accountId) {
      var id := journal.lines[i].accountId;
      var key :| key in s.accounts && Addresses(journal, s.accounts[key]) && s.accounts[key].accountId == id;
      assert key in later.accounts && later.accounts[key] == s.accounts[key];
    }
    hide Run, OperationKey, FingerprintOf, RecordedOutcome, Verdict, Staged;
  }

  // ---- Fingerprints and the adapter ---------------------------------------

  lemma LineTextInjective(a: Line, b: Line)
    requires LineText(a) == LineText(b)
    ensures a == b
  {
    var x, y := a.accountId + ":" + Print(a.debitMinor), b.accountId + ":" + Print(b.debitMinor);
    ColonSplit(x, Print(a.creditMinor), y, Print(b.creditMinor));
    ColonSplit(a.accountId, Print(a.debitMinor), b.accountId, Print(b.debitMinor));
    PrintInjective(a.debitMinor, b.debitMinor);
    PrintInjective(a.creditMinor, b.creditMinor);
  }

  /** Two journals are the same replay exactly when their content agrees, even if account ids contain colons. */
  lemma FingerprintComplete(a: Journal, b: Journal)
    ensures FingerprintOf(a) == FingerprintOf(b) <==>
            a.journalId == b.journalId && a.reference == b.reference && Upper(a.currency) == Upper(b.currency)
            && a.mappingVersion == b.mappingVersion && a.lines == b.lines
  {
    var fa, fb := FingerprintOf(a), FingerprintOf(b);
    if fa == fb {
      forall i | 0 <= i < |a.lines| ensures a.lines[i] == b.lines[i] {
        assert fa.lines[i] == fb.lines[i];
        LineTextInjective(a.lines[i], b.lines[i]);
      }
    }
  }

  // ---- Where recorded operations come from --------------------------------

  predicate SameOperation(a: Journal, b: Journal) {
    a.tenantId == b.tenantId && a.legalEntityId == b.legalEntityId && a.operationId == b.operationId
  }

  lemma KnownStays(s: State, after: State, journal: Journal, accountId: string)
    requires Known(s, journal, accountId)
    requires forall key :: key in s.accounts ==> key in after.accounts && after.accounts[key] == s.accounts[key]
    ensures Known(after, journal, accountId)
  {
    hide Addresses;
  }

  /** The recorded operations of a run are those it started with and those of the journals it booked. */
  lemma {:induction false} RecordedWereBooked(o: Options, s: State, commands: seq<Command>, key: string)
    requires key in Run(o, s, commands).operations
    ensures key in s.operations || exists i :: 0 <= i < |Booking(o, s, commands)| && RecordedAs(o, s, commands, i, key)
    decreases commands
  {
    if commands != [] {
      hide Step, Records, OperationKey, FingerprintOf, RecordedOutcome;
      var next, booked := Step(o, s, commands[0]), Booking(o, s, commands);
      BookingSplit(o, s, commands);
      RecordedWereBooked(o, next, commands[1..], key);
      if key !in s.operations && key in next.operations {
        StepRecords(o, s, commands[0], key);
        RunKeepsRecords(o, next, commands[1..]);
        assert RecordedAs(o, s, commands, 0, key);
      } else if key !in s.operations {
        var i :| 0 <= i < |Booking(o, next, commands[1..])| && RecordedAs(o, next, commands[1..], i, key);
        var k := if Books(o, s, commands[0]) then i + 1 else i;
        assert RecordedAs(o, s, commands, k, key);
      }
    }
  }

  /** The `i`th journal a run books is what stands recorded under its key in the end. */
  ghost predicate RecordedAs(o: Options, s: State, commands: seq<Command>, i: nat, key: string)
    requires i < |Booking(o, s, commands)| && key in Run(o, s, commands).operations
  {
    var journal := Booking(o, s, commands)[i];
    OperationKey(journal) == key
    && Run(o, s, commands).operations[key] == Operation(FingerprintOf(journal), RecordedOutcome(o, journal))
  }

  lemma StepRecords(o: Options, s: State, command: Command, key: string)
    requires key !in s.operations && key in Step(o, s, command).operations
    ensures Books(o, s, command) && OperationKey(command.journal) == key
    ensures Step(o, s, command).operations[key] == Operation(FingerprintOf(command.journal), RecordedOutcome(o, command.journal))
  {
    if command.Submission? {
      PostEffect(o, s, command.journal);
      hide Post, Records, OperationKey, FingerprintOf, RecordedOutcome;
    }
  }

  /** The journals a run books are among those submitted. */
  lemma {:induction false} BookedWereSubmitted(o: Options, s: State, commands: seq<Command>, i: nat)
    requires i < |Booking(o, s, commands)|
    ensures exists k :: 0 <= k < |commands| && commands[k] == Submission(Booking(o, s, commands)[i])
    decreases commands
  {
    hide Step, Records;
    BookingSplit(o, s, commands);
    if Books(o, s, commands[0]) && i == 0 {
      assert commands[0] == Submission(Booking(o, s, commands)[0]);
    } else {
      var h := if Books(o, s, commands[0]) then i - 1 else i;
      BookedWereSubmitted(o, Step(o, s, commands[0]), commands[1..], h);
      var k :| 0 <= k < |commands[1..]| && commands[1..][k] == Submission(Booking(o, Step(o, s, commands[0]), commands[1..])[h]);
      assert commands[k + 1] == Submission(Booking(o, s, commands)[i]);
    }
  }

  /** Same operation, same content. */
  predicate SameContent(a: Journal, b: Journal) {
    && a.journalId == b.journalId && a.reference == b.reference && Upper(a.currency) == Upper(b.currency)
    && a.mappingVersion == b.mappingVersion && a.lines == b.lines
  }

  lemma {:induction false} RunSnoc(o: Options, s: State, commands: seq<Command>, last: Command)
    ensures Run(o, s, commands + [last]) == Step(o, Run(o, s, commands), last)
    decreases commands
  {
    hide Step;
    if commands == [] {
      assert ([last])[1..] == [] && commands + [last] == [last];
    } else {
      assert (commands + [last])[1..] == commands[1..] + [last];
      RunSnoc(o, Step(o, s, commands[0]), commands[1..], last);
    }
  }

  lemma {:induction false} BookingSnoc(o: Options, s: State, commands: seq<Command>, last: Command)
    ensures Booking(o, s, commands + [last]) ==
            Booking(o, s, commands) + if Books(o, Run(o, s, commands), last) then [last.journal] else []
    decreases commands
  {
    hide Step, Records;
    BookingSplit(o, s, commands + [last]);
    if commands == [] {
      assert ([last])[1..] == [] && commands + [last] == [last];
    } else {
      assert (commands + [last])[1..] == commands[1..] + [last];
      BookingSplit(o, s, commands);
      BookingSnoc(o, Step(o, s, commands[0]), commands[1..], last);
      assert Books(o, s, commands[0]) ==>
          Booking(o, s, commands + [last]) == [commands[0].journal] + Booking(o, s, commands + [last])[1..]
          && Booking(o, s, commands) == [commands[0].journal] + Booking(o, s, commands)[1..];
    }
  }

  /** The accounts of every journal a run books stay known to it. */
  lemma {:induction false} BookedKnows(o: Options, s: State, commands: seq<Command>, i: nat, k: nat)
    requires i < |Booking(o, s, commands)| && k < |Booking(o, s, commands)[i].lines|
    ensures Known(Run(o, s, commands), Booking(o, s, commands)[i], Booking(o, s, commands)[i].lines[k].accountId)
    decreases commands
  {
    var journal, next := Booking(o, s, commands)[i], Step(o, s, commands[0]);
    BookingSplit(o, s, commands);
    if Books(o, s, commands[0]) && i == 0 {
      assert Known(s, journal, journal.lines[k].accountId);
      RunKeepsRecords(o, s, commands);
      KnownStays(s, Run(o, s, commands), journal, journal.lines[k].accountId);
    } else {
      hide Step, Records, Known;
      BookedKnows(o, next, commands[1..], if Books(o, s, commands[0]) then i - 1 else i, k);
    }
  }

  /** After an accepted answer the journal's key is recorded with the journal's fingerprint. */
  lemma AcceptedIsRecorded(o: Options, s: State, journal: Journal)
    requires Post(o, s, journal).1.Accepted?
    ensures OperationKey(journal) in Post(o, s, journal).0.operations
    ensures Post(o, s, journal).0.operations[OperationKey(journal)].fingerprint == FingerprintOf(journal)
  {
    hide OperationKey, FingerprintOf, RecordedOutcome, Verdict, Known, Bookable, Staged;
  }

  /** How many of the journals have the operation key. */
  function Times(journals: seq<Journal>, key: string): nat {
    if journals == [] then 0 else Times(journals[1..], key) + if OperationKey(journals[0]) == key then 1 else 0
  }

  /** Over any run a key is booked at most once, and never once it is recorded. */
  lemma {:induction false} BookedOnce(o: Options, s: State, commands: seq<Command>, key: string)
    ensures Times(Booking(o, s, commands), key) <= if key in s.operations then 0 else 1
    ensures Times(Booking(o, s, commands), key) == 1 <==> key !in s.operations && key in Run(o, s, commands).operations
    decreases commands
  {
    if commands != [] {
      var next := Step(o, s, commands[0]);
      BookingSplit(o, s, commands);
      StepKeepsRecords(o, s, commands[0]);
      RunKeepsRecords(o, next, commands[1..]);
      BookedOnce(o, next, commands[1..], key);
      if commands[0].Submission? {
        PostEffect(o, s, commands[0].journal);
      }
      hide Post, CreateAccount, OperationKey;
    }
  }

  /** A journal the in-memory ledger books is never refused by the adapter, and both make the same number of transfers. */
  lemma BookedPassesAdapter(o: Options, s: State, journal: Journal, config: TigerBeetle.Config, digest: TigerBeetle.Digest)
    requires Records(o, s, journal) && Upper(config.currency) == Upper(journal.currency)
    ensures TigerBeetle.Refusal(config, journal).None?
    ensures |TransferIds(journal)| == |TigerBeetle.ExpectedTransferIds(digest, journal)|
  {
    OneSidedAccountsPair(journal.lines);
  }
}
