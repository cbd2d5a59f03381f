/** The TigerBeetle adapter: what it submits for a journal and how it recognises it afterwards. */
module TigerBeetle {
  import opened Optional
  import opened Decimal
  import opened Journals
  import opened Pairing
  import JournalValidation

  /** Ledger settings, with the flag values of the client library. */
  datatype Config = Config(currency: string, ledger: nat, code: nat, linkedFlag: nat, noFlag: nat)

  datatype Transfer = Transfer(
    id: nat, debitAccountId: nat, creditAccountId: nat, amount: nat, pendingId: nat,
    userData128: nat, userData64: nat, userData32: nat, timeout: nat,
    ledger: nat, code: nat, flags: nat, timestamp: nat)

  /** Statuses of a submitted transfer, grouped as the adapter groups them. */
  datatype CreateStatus = Created | Exists | ExistsDifferently | AccountUnavailable | OtherFailure

  datatype CreateResult = CreateResult(status: CreateStatus, timestamp: nat)

  /** The truncated hash behind every engine identifier, left abstract. */
  type Digest = seq<string> -> nat

  function AccountId(digest: Digest, journal: Journal, accountId: string): nat {
    digest(["account", Print(journal.mappingVersion), journal.tenantId, journal.legalEntityId, accountId, Upper(journal.currency)])
  }

  function TransferId(digest: Digest, journal: Journal, index: nat): nat {
    digest(["transfer", Print(journal.mappingVersion), journal.tenantId, journal.legalEntityId, journal.operationId, Print(index)])
  }

  function ExpectedTransferIds(digest: Digest, journal: Journal): seq<string> {
    seq(|JournalPairs(journal.lines)|, i requires i >= 0 => Print(TransferId(digest, journal, i)))
  }

  /** The early answer both operations give before they contact the engine, if there is one. */
  function Refusal(config: Config, journal: Journal): Option<Outcome> {
    if Upper(journal.currency) != Upper(config.currency) then Some(ManualRecovery(journal.operationId, MappingMismatch))
    else if Verdict(journal.lines).Some? then Some(Rejected(journal.operationId, Verdict(journal.lines).value))
    else if JournalPairs(journal.lines) == [] || SelfTransfer(JournalPairs(journal.lines)) then
      Some(Rejected(journal.operationId, ConstraintViolation))
    else None
  }

  /** The transfer submitted for pair `i`; all but the last are linked to their successor. */
  function BuiltAt(config: Config, digest: Digest, journal: Journal, i: nat): Transfer
    requires i < |JournalPairs(journal.lines)|
  {
    var pairs := JournalPairs(journal.lines);
    Transfer(TransferId(digest, journal, i), AccountId(digest, journal, pairs[i].debitAccountId),
             AccountId(digest, journal, pairs[i].creditAccountId), pairs[i].amount, 0, 0, 0,
             journal.mappingVersion, 0, config.ledger, config.code,
             if i < |pairs| - 1 then config.linkedFlag else config.noFlag, 0)
  }

  function Built(config: Config, digest: Digest, journal: Journal): (transfers: seq<Transfer>)
    ensures |transfers| == |JournalPairs(journal.lines)|
    ensures forall i :: 0 <= i < |transfers| ==> transfers[i] == BuiltAt(config, digest, journal, i)
  {
    seq(|JournalPairs(journal.lines)|, i requires 0 <= i < |JournalPairs(journal.lines)| => BuiltAt(config, digest, journal, i))
  }

  function MaxTimestamp(timestamps: seq<nat>): (max: nat)
    ensures forall i :: 0 <= i < |timestamps| ==> timestamps[i] <= max
    ensures max == 0 || max in timestamps
  {
    if timestamps == [] then 0 else
      var rest := MaxTimestamp(timestamps[..|timestamps| - 1]);
      var last := timestamps[|timestamps| - 1];
      assert timestamps == timestamps[..|timestamps| - 1] + [last];
      if last > rest then last else rest
  }

  method CheckJournal(config: Config, journal: Journal) returns (refusal: Option<Outcome>, pairs: seq<TransferPair>)
    ensures refusal == Refusal(config, journal)
    ensures refusal.None? ==> pairs == JournalPairs(journal.lines)
  {
    pairs := [];
    if Upper(journal.currency) != Upper(config.currency) {
      return Some(ManualRecovery(journal.operationId, MappingMismatch)), pairs;
    }
    var validation := JournalValidation.AdapterValidation(journal.lines);
    if validation.Some? {
      return Some(Rejected(journal.operationId, validation.value)), pairs;
    }
    pairs := PairLines(journal.lines);
    if |pairs| == 0 || SelfTransfer(pairs) {
      return Some(Rejected(journal.operationId, ConstraintViolation)), pairs;
    }
    return None, pairs;
  }

  /** The submission of a journal that is not refused: one transfer per pair, pushed in order. */
  method BuildTransfers(config: Config, digest: Digest, journal: Journal, pairs: seq<TransferPair>)
    returns (transfers: seq<Transfer>)
    requires pairs == JournalPairs(journal.lines)
    ensures transfers == Built(config, digest, journal)
  {
    transfers := [];
    for index := 0 to |pairs|
      invariant transfers == Built(config, digest, journal)[..index]
    {
      var debitId := AccountId(digest, journal, pairs[index].debitAccountId);
      var creditId := AccountId(digest, journal, pairs[index].creditAccountId);
      var id := TransferId(digest, journal, index);
      var flags := if index < |pairs| - 1 then config.linkedFlag else config.noFlag;
      transfers := transfers +
        [Transfer(id, debitId, creditId, pairs[index].amount, 0, 0, 0, journal.mappingVersion, 0,
                  config.ledger, config.code, flags, 0)];
    }
  }

  /** What the adapter answers to the engine's reply; a missing or short reply is an unknown outcome. */
  function Concluded(digest: Digest, journal: Journal, reply: Option<seq<CreateResult>>): Outcome {
    if reply.None? || |reply.value| != |JournalPairs(journal.lines)| then Unknown(journal.operationId, ResponseLost)
    else if exists i :: 0 <= i < |reply.value| && reply.value[i].status == ExistsDifferently then
      ManualRecovery(journal.operationId, ConflictingReplay)
    else if FirstFailure(reply.value).Some? then
      Rejected(journal.operationId,
               if FirstFailure(reply.value).value == AccountUnavailable then InvalidAccount else ConstraintViolation)
    else
      Accepted(journal.operationId, journal.mappingVersion,
               Print(MaxTimestamp(seq(|reply.value|, i requires 0 <= i < |reply.value| => reply.value[i].timestamp))),
               |reply.value|, ExpectedTransferIds(digest, journal))
  }

  function FirstFailure(results: seq<CreateResult>): (failure: Option<CreateStatus>)
    ensures failure.None? <==> forall i :: 0 <= i < |results| ==> results[i].status == Created || results[i].status == Exists
  {
    if results == [] then None
    else if results[0].status != Created && results[0].status != Exists then Some(results[0].status)
    else FirstFailure(results[1..])
  }

  /** What each kind of answer says of the engine's reply. */
  lemma ConcludedExactly(digest: Digest, journal: Journal, reply: Option<seq<CreateResult>>)
    ensures var outcome, n := Concluded(digest, journal, reply), |JournalPairs(journal.lines)|;
            var complete := reply.Some? && |reply.value| == n;
            && (outcome.Unknown? <==> !complete)
            && (outcome.ManualRecovery? <==> complete && ConflictingReply(reply.value))
            && (outcome.Accepted? <==> complete && CreatedReply(reply.value))
            && (outcome.Rejected? <==> complete && !ConflictingReply(reply.value) && !CreatedReply(reply.value))
            && (outcome.Accepted? ==> outcome.transferIds == ExpectedTransferIds(digest, journal) && outcome.transferCount == n)
  {
    hide JournalPairs, ExpectedTransferIds, MaxTimestamp, FirstFailure;
    if reply.Some? && CreatedReply(reply.value) {
      assert FirstFailure(reply.value).None?;
    }
  }

  ghost predicate ConflictingReply(results: seq<CreateResult>) {
    exists i :: 0 <= i < |results| && results[i].status == ExistsDifferently
  }

  ghost predicate CreatedReply(results: seq<CreateResult>) {
    forall i :: 0 <= i < |results| ==> results[i].status == Created || results[i].status == Exists
  }

  /** Posting, with the engine as a function from the submitted transfers to its reply. */
  method PostJournal(config: Config, digest: Digest, journal: Journal, engine: seq<Transfer> -> Option<seq<CreateResult>>)
    returns (outcome: Outcome)
    ensures outcome == if Refusal(config, journal).Some? then Refusal(config, journal).value
                       else Concluded(digest, journal, engine(Built(config, digest, journal)))
  {
    var refusal, pairs := CheckJournal(config, journal);
    if refusal.Some? {
      return refusal.value;
    }
    var transfers := BuildTransfers(config, digest, journal, pairs);
    var reply := engine(transfers);
    if reply.None? || |reply.value| != |transfers| {
      return Unknown(journal.operationId, ResponseLost);
    }
    var results := reply.value;
    if exists i :: 0 <= i < |results| && results[i].status == ExistsDifferently {
      return ManualRecovery(journal.operationId, ConflictingReplay);
    }
    var rejection := FirstFailure(results);
    if rejection.Some? {
      return Rejected(journal.operationId, if rejection.value == AccountUnavailable then InvalidAccount else ConstraintViolation);
    }
    var ids := seq(|transfers|, i requires 0 <= i < |transfers| => Print(transfers[i].id));
    assert ids == ExpectedTransferIds(digest, journal);
    return Accepted(journal.operationId, journal.mappingVersion,
                    Print(MaxTimestamp(seq(|results|, i requires 0 <= i < |results| => results[i].timestamp))),
                    |transfers|, ids);
  }

  /** `new Map` over the transfers found, keyed by the printed id; a later entry replaces an earlier one. */
  function ById(transfers: seq<Transfer>): map<string, Transfer> {
    if transfers == [] then map[]
    else ById(transfers[..|transfers| - 1])[Print(transfers[|transfers| - 1].id) := transfers[|transfers| - 1]]
  }

  predicate Mismatch(config: Config, digest: Digest, journal: Journal, i: nat, byId: map<string, Transfer>)
    requires i < |JournalPairs(journal.lines)|
  {
    var pairs := JournalPairs(journal.lines);
    var id := Print(TransferId(digest, journal, i));
    id !in byId ||
    var actual := byId[id];
    var expectedFlags := if i < |pairs| - 1 then config.linkedFlag else config.noFlag;
    || actual.debitAccountId != AccountId(digest, journal, pairs[i].debitAccountId)
    || actual.creditAccountId != AccountId(digest, journal, pairs[i].creditAccountId)
    || actual.amount != pairs[i].amount
    || actual.pendingId != 0 || actual.userData128 != 0 || actual.userData64 != 0 || actual.timeout != 0
    || actual.ledger != config.ledger || actual.code != config.code
    || actual.userData32 != journal.mappingVersion || actual.flags != expectedFlags
  }

  /** Reconciliation of a journal against the transfers the engine finds for the expected ids. */
  function Reconcile(config: Config, digest: Digest, journal: Journal, lookup: seq<nat> -> Option<seq<Transfer>>): Outcome {
    if Refusal(config, journal).Some? then Refusal(config, journal).value
    else Recognised(config, digest, journal, lookup(ExpectedIds(digest, journal)))
  }

  function ExpectedIds(digest: Digest, journal: Journal): (ids: seq<nat>)
    ensures |ids| == |JournalPairs(journal.lines)|
    ensures forall i :: 0 <= i < |ids| ==> ids[i] == TransferId(digest, journal, i)
  {
    seq(|JournalPairs(journal.lines)|, i requires i >= 0 => TransferId(digest, journal, i))
  }

  function Recognised(config: Config, digest: Digest, journal: Journal, found: Option<seq<Transfer>>): Outcome {
    var n := |JournalPairs(journal.lines)|;
    if found.None? then Unknown(journal.operationId, Unavailable)
    else if found.value == [] then Unknown(journal.operationId, NotFound)
    else if |found.value| != n then ManualRecovery(journal.operationId, MappingMismatch)
    else if exists i :: 0 <= i < n && Mismatch(config, digest, journal, i, ById(found.value)) then
      ManualRecovery(journal.operationId, MappingMismatch)
    else
      Accepted(journal.operationId, journal.mappingVersion,
               Print(MaxTimestamp(seq(n, i requires 0 <= i < n => found.value[i].timestamp))),
               n, ExpectedTransferIds(digest, journal))
  }

  // ---- The engine's store -------------------------------------------------

  /** A store of transfers under their own ids. */
  type Store = map<nat, Transfer>

  predicate WellKeyed(store: Store) {
    forall id :: id in store ==> store[id].id == id
  }

  /** The engine returns the stored transfers among the requested ids, in request order. */
  function Lookup(store: Store, ids: seq<nat>): seq<Transfer> {
    if ids == [] then []
    else if ids[|ids| - 1] in store then Lookup(store, ids[..|ids| - 1]) + [store[ids[|ids| - 1]]]
    else Lookup(store, ids[..|ids| - 1])
  }

  /** The built transfer is stored, equal in every field but the engine's timestamp. */
  predicate Stored(store: Store, built: Transfer) {
    built.id in store && store[built.id].(timestamp := built.timestamp) == built
  }

  lemma {:induction false} LookupCounts(store: Store, ids: seq<nat>)
    ensures |Lookup(store, ids)| <= |ids|
    ensures |Lookup(store, ids)| == |ids| <==> forall i :: 0 <= i < |ids| ==> ids[i] in store
    ensures Lookup(store, ids) == [] <==> forall i :: 0 <= i < |ids| ==> ids[i] !in store
  {
    if ids != [] {
      var front, last := ids[..|ids| - 1], ids[|ids| - 1];
      LookupCounts(store, front);
      assert forall i :: 0 <= i < |front| ==> front[i] == ids[i];
      assert forall i :: 0 <= i < |ids| ==> ids[i] == (if i < |front| then front[i] else last);
    }
  }

  lemma {:induction false} ByIdFinds(store: Store, ids: seq<nat>, id: nat)
    requires WellKeyed(store)
    ensures Print(id) in ById(Lookup(store, ids)) <==> id in ids && id in store
    ensures Print(id) in ById(Lookup(store, ids)) ==> ById(Lookup(store, ids))[Print(id)] == store[id]
  {
    if ids != [] {
      var front, last := ids[..|ids| - 1], ids[|ids| - 1];
      ByIdFinds(store, front, id);
      assert ids == front + [last];
      if last in store {
        var found := Lookup(store, ids);
        assert found[..|found| - 1] == Lookup(store, front);
        if Print(last) == Print(id) {
          PrintInjective(last, id);
        }
      }
    }
  }

  /**
   * Reconciliation recognises exactly what posting builds: accepted when every built transfer is
   * stored with all its fields, unknown when none of the ids is stored, manual recovery otherwise.
   */
  lemma ReconcileExact(config: Config, digest: Digest, journal: Journal, store: Store)
    requires Refusal(config, journal).None? && WellKeyed(store)
    ensures var outcome := Reconcile(config, digest, journal, ids => Some(Lookup(store, ids)));
            var built := Built(config, digest, journal);
            && (outcome.Accepted? <==> forall i :: 0 <= i < |built| ==> Stored(store, built[i]))
            && (outcome.Unknown? <==> forall i :: 0 <= i < |built| ==> built[i].id !in store)
            && (outcome.Unknown? ==> outcome == Unknown(journal.operationId, NotFound))
            && (outcome.Accepted? ==> outcome.transferIds == ExpectedTransferIds(digest, journal))
            && (!outcome.Accepted? && !outcome.Unknown? ==> outcome == ManualRecovery(journal.operationId, MappingMismatch))
  {
    var ids := ExpectedIds(digest, journal);
    RecognisedCases(config, digest, journal, Lookup(store, ids));
    assert Reconcile(config, digest, journal, ids => Some(Lookup(store, ids))) == Recognised(config, digest, journal, Some(Lookup(store, ids)));
    hide Reconcile, ById, Lookup, Mismatch, Stored, ExpectedTransferIds, JournalPairs, BuiltAt, MaxTimestamp, TransferId, Recognised;
    assert ids != [];
    LookupCounts(store, ids);
    var built := Built(config, digest, journal);
    forall i | 0 <= i < |built|
      ensures built[i].id == ids[i]
      ensures Mismatch(config, digest, journal, i, ById(Lookup(store, ids))) <==> !Stored(store, built[i])
    {
      MismatchMeansNotStored(config, digest, journal, store, i);
    }
  }

  /** The answers, told apart by what was found. */
  lemma RecognisedCases(config: Config, digest: Digest, journal: Journal, found: seq<Transfer>)
    ensures var outcome := Recognised(config, digest, journal, Some(found));
            && (outcome.Unknown? <==> found == []) && (outcome.Unknown? ==> outcome == Unknown(journal.operationId, NotFound))
            && (outcome.Accepted? ==> outcome.transferIds == ExpectedTransferIds(digest, journal))
            && (!outcome.Accepted? && !outcome.Unknown? ==> outcome == ManualRecovery(journal.operationId, MappingMismatch))
    ensures Recognised(config, digest, journal, Some(found)).Accepted? <==>
            found != [] && |found| == |JournalPairs(journal.lines)| && AllMatch(config, digest, journal, found)
  {
    hide ById, Mismatch, JournalPairs, ExpectedTransferIds, MaxTimestamp;
  }

  ghost predicate AllMatch(config: Config, digest: Digest, journal: Journal, found: seq<Transfer>) {
    forall i :: 0 <= i < |JournalPairs(journal.lines)| ==> !Mismatch(config, digest, journal, i, ById(found))
  }

  lemma MismatchMeansNotStored(config: Config, digest: Digest, journal: Journal, store: Store, i: nat)
    requires WellKeyed(store) && i < |JournalPairs(journal.lines)|
    ensures BuiltAt(config, digest, journal, i).id == ExpectedIds(digest, journal)[i]
    ensures Mismatch(config, digest, journal, i, ById(Lookup(store, ExpectedIds(digest, journal)))) <==>
            !Stored(store, BuiltAt(config, digest, journal, i))
  {
    ByIdFinds(store, ExpectedIds(digest, journal), TransferId(digest, journal, i));
    assert ExpectedIds(digest, journal)[i] == TransferId(digest, journal, i);
    hide ById, Lookup;
  }

  // ---- Posting, then reconciling ------------------------------------------

  /** The engine's store after it created the transfers, each stamped with its own timestamp. */
  function Record(store: Store, transfers: seq<Transfer>, stamps: seq<nat>): Store
    requires |stamps| == |transfers|
  {
    if transfers == [] then store else
      var n := |transfers| - 1;
      Record(store, transfers[..n], stamps[..n])[transfers[n].id := transfers[n].(timestamp := stamps[n])]
  }

  lemma {:induction false} RecordKeeps(store: Store, transfers: seq<Transfer>, stamps: seq<nat>)
    requires |stamps| == |transfers| && WellKeyed(store)
    requires forall i, k :: 0 <= i < k < |transfers| ==> transfers[i].id != transfers[k].id
    ensures WellKeyed(Record(store, transfers, stamps))
    ensures forall i :: 0 <= i < |transfers| ==> Stored(Record(store, transfers, stamps), transfers[i])
  {
    if transfers != [] {
      var n := |transfers| - 1;
      RecordKeeps(store, transfers[..n], stamps[..n]);
      forall i | 0 <= i < |transfers| ensures Stored(Record(store, transfers, stamps), transfers[i]) {
        if i < n {
          assert transfers[..n][i] == transfers[i];
        }
      }
    }
  }

  /** A journal whose transfers were created is found again, under the ids posting announced. */
  lemma PostThenReconcile(config: Config, digest: Digest, journal: Journal, store: Store, stamps: seq<nat>)
    requires Refusal(config, journal).None? && WellKeyed(store)
    requires |stamps| == |JournalPairs(journal.lines)|
    requires forall i, k :: 0 <= i < k < |stamps| ==> TransferId(digest, journal, i) != TransferId(digest, journal, k)
    ensures var after := Record(store, Built(config, digest, journal), stamps);
            var outcome := Reconcile(config, digest, journal, ids => Some(Lookup(after, ids)));
            outcome.Accepted? && outcome.transferIds == ExpectedTransferIds(digest, journal)
  {
    var built := Built(config, digest, journal);
    assert forall i :: 0 <= i < |built| ==> built[i].id == TransferId(digest, journal, i);
    RecordKeeps(store, built, stamps);
    ReconcileExact(config, digest, journal, Record(store, built, stamps));
  }

  /** Debits and credits that the stored transfers under the expected ids book on an engine account. */
  function StoredMoves(store: Store, digest: Digest, journal: Journal, pairs: seq<TransferPair>, from: nat, account: nat): (nat, nat) {
    if pairs == [] then (0, 0) else
      var id := TransferId(digest, journal, from);
      var rest := StoredMoves(store, digest, journal, pairs[1..], from + 1, account);
      if id !in store then rest
      else (rest.0 + (if store[id].debitAccountId == account then store[id].amount else 0),
            rest.1 + (if store[id].creditAccountId == account then store[id].amount else 0))
  }

  /** The account's engine id is not that of any other account the journal's transfers name. */
  ghost predicate OwnId(digest: Digest, journal: Journal, accountId: string) {
    forall i :: 0 <= i < |JournalPairs(journal.lines)| ==>
      var pair := JournalPairs(journal.lines)[i];
      && (AccountId(digest, journal, pair.debitAccountId) == AccountId(digest, journal, accountId) <==> pair.debitAccountId == accountId)
      && (AccountId(digest, journal, pair.creditAccountId) == AccountId(digest, journal, accountId) <==> pair.creditAccountId == accountId)
  }

  lemma {:induction false} StoredMovesSum(config: Config, digest: Digest, journal: Journal, store: Store, from: nat, accountId: string)
    requires from <= |JournalPairs(journal.lines)| && OwnId(digest, journal, accountId)
    requires forall i :: from <= i < |JournalPairs(journal.lines)| ==> Stored(store, BuiltAt(config, digest, journal, i))
    ensures StoredMoves(store, digest, journal, JournalPairs(journal.lines)[from..], from, AccountId(digest, journal, accountId))
            == (PairDebits(JournalPairs(journal.lines)[from..], accountId), PairCredits(JournalPairs(journal.lines)[from..], accountId))
    decreases |JournalPairs(journal.lines)| - from
  {
    var pairs := JournalPairs(journal.lines);
    hide JournalPairs, AccountId, TransferId;
    if from < |pairs| {
      StoredMovesSum(config, digest, journal, store, from + 1, accountId);
      assert pairs[from..][1..] == pairs[from + 1..];
      assert Stored(store, BuiltAt(config, digest, journal, from));
    }
  }

  /**
   * An accepted reconciliation means the engine really holds the journal: the stored transfers
   * debit and credit each account by what the journal's lines do.
   */
  lemma AcceptedMeansPosted(config: Config, digest: Digest, journal: Journal, store: Store, accountId: string)
    requires Refusal(config, journal).None? && WellKeyed(store) && OwnId(digest, journal, accountId)
    requires Reconcile(config, digest, journal, ids => Some(Lookup(store, ids))).Accepted?
    ensures StoredMoves(store, digest, journal, JournalPairs(journal.lines), 0, AccountId(digest, journal, accountId))
            == (DebitTo(journal.lines, accountId), CreditTo(journal.lines, accountId))
  {
    var pairs := JournalPairs(journal.lines);
    ReconcileExact(config, digest, journal, store);
    var built := Built(config, digest, journal);
    assert forall i :: 0 <= i < |pairs| ==> Stored(store, built[i]) && built[i] == BuiltAt(config, digest, journal, i);
    StoredMovesSum(config, digest, journal, store, 0, accountId);
    assert pairs[0..] == pairs;
    PairingPreservesMeaning(journal.lines, accountId);
  }

  /** Posting and reconciling never see an empty pair list for a valid journal: that guard is redundant. */
  lemma ValidJournalsHavePairs(lines: seq<Line>)
    requires Verdict(lines).None?
    ensures JournalPairs(lines) != []
  {
    PairingIsBounded(lines);
  }

  // ---- Which ids coincide -------------------------------------------------

  /** The idealised digest: different parts have different ids. */
  ghost predicate Injective(digest: Digest) {
    forall a, b :: digest(a) == digest(b) ==> a == b
  }

  predicate SameOperation(a: Journal, b: Journal) {
    && a.mappingVersion == b.mappingVersion && a.tenantId == b.tenantId && a.legalEntityId == b.legalEntityId
    && a.operationId == b.operationId
  }

  /** What the digest is taken of. */
  lemma IdsRead(digest: Digest, journal: Journal, accountId: string, index: nat)
    ensures AccountId(digest, journal, accountId) ==
            digest(["account", Print(journal.mappingVersion), journal.tenantId, journal.legalEntityId, accountId, Upper(journal.currency)])
    ensures TransferId(digest, journal, index) ==
            digest(["transfer", Print(journal.mappingVersion), journal.tenantId, journal.legalEntityId, journal.operationId, Print(index)])
  {
  }

  /** Transfer ids tell mapping version, tenant, legal entity, operation and place. */
  lemma TransferIdsExactly(digest: Digest, a: Journal, i: nat, b: Journal, k: nat)
    requires Injective(digest)
    ensures TransferId(digest, a, i) == TransferId(digest, b, k) <==>
            && a.mappingVersion == b.mappingVersion && a.tenantId == b.tenantId && a.legalEntityId == b.legalEntityId
            && a.operationId == b.operationId && i == k
  {
    if TransferId(digest, a, i) == TransferId(digest, b, k) {
      var p := ["transfer", Print(a.mappingVersion), a.tenantId, a.legalEntityId, a.operationId, Print(i)];
      var q := ["transfer", Print(b.mappingVersion), b.tenantId, b.legalEntityId, b.operationId, Print(k)];
      hide Print;
      assert p == q;
      assert p[1] == q[1] && p[2] == q[2] && p[3] == q[3] && p[4] == q[4] && p[5] == q[5];
      PrintInjective(a.mappingVersion, b.mappingVersion);
      PrintInjective(i, k);
    }
  }

  /** Account ids tell mapping version, tenant, legal entity, account and currency up to letter case. */
  lemma AccountIdsExactly(digest: Digest, a: Journal, x: string, b: Journal, y: string)
    requires Injective(digest)
    ensures AccountId(digest, a, x) == AccountId(digest, b, y) <==>
            && a.mappingVersion == b.mappingVersion && a.tenantId == b.tenantId && a.legalEntityId == b.legalEntityId
            && x == y && Upper(a.currency) == Upper(b.currency)
  {
    if AccountId(digest, a, x) == AccountId(digest, b, y) {
      var p := ["account", Print(a.mappingVersion), a.tenantId, a.legalEntityId, x, Upper(a.currency)];
      var q := ["account", Print(b.mappingVersion), b.tenantId, b.legalEntityId, y, Upper(b.currency)];
      hide Print, Upper;
      assert p == q;
      assert p[1] == q[1] && p[2] == q[2] && p[3] == q[3] && p[4] == q[4] && p[5] == q[5];
      PrintInjective(a.mappingVersion, b.mappingVersion);
    }
  }

  /** No transfer has the id of an account. */
  lemma TransferIsNoAccount(digest: Digest, a: Journal, i: nat, b: Journal, accountId: string)
    requires Injective(digest)
    ensures TransferId(digest, a, i) != AccountId(digest, b, accountId)
  {
    hide Print, Upper;
    var p := ["transfer", Print(a.mappingVersion), a.tenantId, a.legalEntityId, a.operationId, Print(i)];
    var q := ["account", Print(b.mappingVersion), b.tenantId, b.legalEntityId, accountId, Upper(b.currency)];
    assert p[0] != q[0];
  }

  /** The store holds nothing but transfers of operations other than the journal's. */
  ghost predicate OnlyOthers(digest: Digest, journal: Journal, store: Store) {
    forall id :: id in store ==> OfAnother(digest, journal, id)
  }

  ghost predicate OfAnother(digest: Digest, journal: Journal, id: nat) {
    exists other, i :: !SameOperation(other, journal) && id == TransferId(digest, other, i)
  }

  /** A journal of which nothing was posted is not found, whatever other operations were. */
  lemma OthersAreNotFound(config: Config, digest: Digest, journal: Journal, store: Store)
    requires Injective(digest) && Refusal(config, journal).None? && WellKeyed(store) && OnlyOthers(digest, journal, store)
    ensures Reconcile(config, digest, journal, ids => Some(Lookup(store, ids))) == Unknown(journal.operationId, NotFound)
  {
    var built := Built(config, digest, journal);
    forall i | 0 <= i < |built| ensures built[i].id !in store {
      var id := TransferId(digest, journal, i);
      assert built[i].id == id;
      if id in store {
        assert OfAnother(digest, journal, id);
        var other, k :| !SameOperation(other, journal) && id == TransferId(digest, other, k);
        TransferIdsExactly(digest, journal, i, other, k);
        assert false;
      }
    }
    ReconcileExact(config, digest, journal, store);
  }

  /** The store after an engine created the transfers of several journals. */
  function Posted(config: Config, digest: Digest, journals: seq<Journal>, stamp: nat): Store {
    if journals == [] then map[] else
      var n := |journals| - 1;
      var built := Built(config, digest, journals[n]);
      Record(Posted(config, digest, journals[..n], stamp), built, seq(|built|, i => stamp))
  }

  lemma {:induction false} RecordHolds(store: Store, transfers: seq<Transfer>, stamps: seq<nat>, id: nat)
    requires |stamps| == |transfers|
    ensures id in Record(store, transfers, stamps) <==> id in store || exists i :: 0 <= i < |transfers| && transfers[i].id == id
    ensures (forall i :: 0 <= i < |transfers| ==> transfers[i].id != id) && id in store ==>
              Record(store, transfers, stamps)[id] == store[id]
    ensures WellKeyed(store) ==> WellKeyed(Record(store, transfers, stamps))
  {
    if transfers != [] {
      var n := |transfers| - 1;
      RecordHolds(store, transfers[..n], stamps[..n], id);
      assert transfers == transfers[..n] + [transfers[n]];
      if id in Record(store, transfers, stamps) && id !in store && id != transfers[n].id {
        var i :| 0 <= i < n && transfers[..n][i].id == id;
        assert transfers[i].id == id;
      }
      if i :| 0 <= i < n && transfers[i].id == id {
        assert transfers[..n][i].id == id;
      }
    }
  }

  /** After any postings, reconciling an operation that was not among them answers not found. */
  lemma {:induction false} PostedHolds(config: Config, digest: Digest, journals: seq<Journal>, stamp: nat, journal: Journal)
    requires forall k :: 0 <= k < |journals| ==> !SameOperation(journals[k], journal)
    ensures WellKeyed(Posted(config, digest, journals, stamp)) && OnlyOthers(digest, journal, Posted(config, digest, journals, stamp))
  {
    if journals != [] {
      var n := |journals| - 1;
      var before, built := Posted(config, digest, journals[..n], stamp), Built(config, digest, journals[n]);
      hide JournalPairs, TransferId, BuiltAt, SameOperation;
      PostedHolds(config, digest, journals[..n], stamp, journal);
      forall id | id in Posted(config, digest, journals, stamp) ensures OfAnother(digest, journal, id) {
        RecordHolds(before, built, seq(|built|, i => stamp), id);
        if id !in before {
          var i :| 0 <= i < |built| && built[i].id == id;
          BuiltId(config, digest, journals[n], i);
        }
      }
      RecordHolds(before, built, seq(|built|, i => stamp), 0);
    }
  }

  lemma BuiltId(config: Config, digest: Digest, journal: Journal, i: nat)
    requires i < |JournalPairs(journal.lines)|
    ensures BuiltAt(config, digest, journal, i).id == TransferId(digest, journal, i)
  {
  }

  /** What posting others never makes true: an operation not posted is not found after any postings. */
  lemma UnpostedIsNotFound(config: Config, digest: Digest, journals: seq<Journal>, stamp: nat, journal: Journal)
    requires Injective(digest) && Refusal(config, journal).None?
    requires forall k :: 0 <= k < |journals| ==> !SameOperation(journals[k], journal)
    ensures Reconcile(config, digest, journal, ids => Some(Lookup(Posted(config, digest, journals, stamp), ids)))
            == Unknown(journal.operationId, NotFound)
  {
    PostedHolds(config, digest, journals, stamp, journal);
    OthersAreNotFound(config, digest, journal, Posted(config, digest, journals, stamp));
  }

  /** Posting other operations keeps what is stored of this one: it is still accepted on reconciliation. */
  lemma PostedStaysAccepted(config: Config, digest: Digest, journal: Journal, other: Journal, store: Store, stamps: seq<nat>)
    requires Injective(digest) && Refusal(config, journal).None? && WellKeyed(store) && !SameOperation(other, journal)
    requires |stamps| == |Built(config, digest, other)|
    requires Reconcile(config, digest, journal, ids => Some(Lookup(store, ids))).Accepted?
    ensures var after := Record(store, Built(config, digest, other), stamps);
            Reconcile(config, digest, journal, ids => Some(Lookup(after, ids))).Accepted?
  {
    var built, foreign := Built(config, digest, journal), Built(config, digest, other);
    var after := Record(store, foreign, stamps);
    ReconcileExact(config, digest, journal, store);
    RecordHolds(store, foreign, stamps, 0);
    hide Reconcile, JournalPairs;
    forall i | 0 <= i < |built| ensures Stored(after, built[i]) {
      assert Stored(store, built[i]);
      BuiltId(config, digest, journal, i);
      forall k | 0 <= k < |foreign| ensures foreign[k].id != built[i].id {
        BuiltId(config, digest, other, k);
        TransferIdsExactly(digest, other, k, journal, i);
      }
      hide TransferId, BuiltAt;
      RecordHolds(store, foreign, stamps, built[i].id);
    }
    ReconcileExact(config, digest, journal, after);
  }

  /** Posting a journal and reconciling it accepts it, whatever is stored of other operations. */
  lemma PostedIsAccepted(config: Config, digest: Digest, journal: Journal, store: Store, stamps: seq<nat>)
    requires Injective(digest) && Refusal(config, journal).None? && WellKeyed(store)
    requires |stamps| == |JournalPairs(journal.lines)|
    ensures var after := Record(store, Built(config, digest, journal), stamps);
            var outcome := Reconcile(config, digest, journal, ids => Some(Lookup(after, ids)));
            outcome.Accepted? && outcome.transferIds == ExpectedTransferIds(digest, journal)
  {
    forall i, k | 0 <= i < k < |stamps| ensures TransferId(digest, journal, i) != TransferId(digest, journal, k) {
      TransferIdsExactly(digest, journal, i, journal, k);
    }
    hide TransferId;
    PostThenReconcile(config, digest, journal, store, stamps);
  }

  /** With such a digest an accepted reconciliation means posted for every account. */
  lemma EveryAccountOwnsItsId(digest: Digest, journal: Journal, accountId: string)
    requires Injective(digest)
    ensures OwnId(digest, journal, accountId)
  {
    hide JournalPairs, AccountId;
    forall i | 0 <= i < |JournalPairs(journal.lines)|
      ensures var pair := JournalPairs(journal.lines)[i];
              && (AccountId(digest, journal, pair.debitAccountId) == AccountId(digest, journal, accountId) <==> pair.debitAccountId == accountId)
              && (AccountId(digest, journal, pair.creditAccountId) == AccountId(digest, journal, accountId) <==> pair.creditAccountId == accountId)
    {
      AccountIdsExactly(digest, journal, JournalPairs(journal.lines)[i].debitAccountId, journal, accountId);
      AccountIdsExactly(digest, journal, JournalPairs(journal.lines)[i].creditAccountId, journal, accountId);
    }
  }

  // ---- Fields and answers, written out ------------------------------------

  /** A submitted transfer moves its pair's amount in the configured ledger, marked with the mapping version and nothing else. */
  lemma BuiltFields(config: Config, digest: Digest, journal: Journal, i: nat)
    requires i < |JournalPairs(journal.lines)|
    ensures var built, pairs := Built(config, digest, journal)[i], JournalPairs(journal.lines);
            && built.debitAccountId == AccountId(digest, journal, pairs[i].debitAccountId)
            && built.creditAccountId == AccountId(digest, journal, pairs[i].creditAccountId)
            && built.amount == pairs[i].amount && built.ledger == config.ledger && built.code == config.code
            && built.userData32 == journal.mappingVersion && built.userData128 == built.userData64 == 0
            && built.pendingId == built.timeout == built.timestamp == 0
            && (i == |pairs| - 1 ==> built.flags == config.noFlag) && (i < |pairs| - 1 ==> built.flags == config.linkedFlag)
  {
  }

  /** A journal is refused early exactly for its currency, then its validity, then a transfer from an account to itself. */
  lemma RefusalAnswers(config: Config, journal: Journal)
    ensures var refusal, id := Refusal(config, journal), journal.operationId;
            && (refusal == Some(ManualRecovery(id, MappingMismatch)) <==> Upper(journal.currency) != Upper(config.currency))
            && (Upper(journal.currency) == Upper(config.currency) && Verdict(journal.lines).Some? ==>
                  refusal == Some(Rejected(id, Verdict(journal.lines).value)))
            && (Upper(journal.currency) == Upper(config.currency) && Verdict(journal.lines).None? ==>
                  refusal == if SelfOverlap(DebitSides(journal.lines), CreditSides(journal.lines))
                             then Some(Rejected(id, ConstraintViolation)) else None)
  {
    SelfTransferExactly(journal.lines);
    if Verdict(journal.lines).None? {
      ValidJournalsHavePairs(journal.lines);
    }
    hide JournalPairs, Verdict, SelfTransfer, SelfOverlap, Upper;
  }

  /** Place `i` holds the first failure of the reply. */
  predicate FirstFails(results: seq<CreateResult>, i: nat) {
    && i < |results| && results[i].status != Created && results[i].status != Exists
    && forall k :: 0 <= k < i ==> results[k].status == Created || results[k].status == Exists
  }

  lemma {:induction false} FirstFailureAt(results: seq<CreateResult>, i: nat)
    requires FirstFails(results, i)
    ensures FirstFailure(results) == Some(results[i].status)
  {
    if i > 0 {
      FirstFailureAt(results[1..], i - 1);
    }
  }

  /** The answer to a complete reply: a conflict wherever it stands, else the first failure, else all ids with the latest time. */
  lemma ConcludedAnswers(digest: Digest, journal: Journal, results: seq<CreateResult>)
    requires |results| == |JournalPairs(journal.lines)|
    ensures var outcome, id := Concluded(digest, journal, Some(results)), journal.operationId;
            && ((exists i :: 0 <= i < |results| && results[i].status == ExistsDifferently) ==>
                  outcome == ManualRecovery(id, ConflictingReplay))
            && ((forall k :: 0 <= k < |results| ==> results[k].status != ExistsDifferently) ==>
                  forall i: nat :: FirstFails(results, i) ==>
                    outcome == Rejected(id, if results[i].status == AccountUnavailable then InvalidAccount else ConstraintViolation))
            && ((forall i :: 0 <= i < |results| ==> results[i].status == Created || results[i].status == Exists) ==>
                  && outcome.Accepted? && outcome.operationId == id && outcome.mappingVersion == journal.mappingVersion
                  && outcome.transferCount == |results| && outcome.transferIds == ExpectedTransferIds(digest, journal))
  {
    hide JournalPairs, ExpectedTransferIds, MaxTimestamp;
    forall i: nat | FirstFails(results, i) ensures FirstFailure(results) == Some(results[i].status) {
      FirstFailureAt(results, i);
    }
    assert (forall i :: 0 <= i < |results| ==> results[i].status == Created || results[i].status == Exists) ==> FirstFailure(results).None?;
  }

  /** An accepted reply is stamped with the latest of its times. */
  lemma ConcludedAtLatest(digest: Digest, journal: Journal, results: seq<CreateResult>, latest: nat)
    requires |results| == |JournalPairs(journal.lines)| && CreatedReply(results) && results != []
    requires (forall i :: 0 <= i < |results| ==> results[i].timestamp <= latest) && exists i :: 0 <= i < |results| && results[i].timestamp == latest
    ensures Concluded(digest, journal, Some(results)).acceptedAt == Print(latest)
  {
    hide JournalPairs, ExpectedTransferIds, FirstFailure, Print;
    var times := seq(|results|, i requires 0 <= i < |results| => results[i].timestamp);
    var i :| 0 <= i < |results| && results[i].timestamp == latest;
    assert times[i] == latest <= MaxTimestamp(times);
    if MaxTimestamp(times) != 0 {
      assert MaxTimestamp(times) in times;
    }
    assert CreatedReply(results) ==> FirstFailure(results).None?;
  }

  /** A lookup that fails leaves the outcome unknown. */
  lemma UnavailableAnswers(config: Config, digest: Digest, journal: Journal)
    requires Refusal(config, journal).None?
    ensures Reconcile(config, digest, journal, ids => None) == Unknown(journal.operationId, Unavailable)
  {
  }
}
