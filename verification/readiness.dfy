/** Financial readiness: fact snapshots compared category by category, and the evidence built from it. */
module Readiness {
  import opened Facts
  import D = Decimal
  import T = Texts
  import opened Optional

  datatype OperationFact = OperationFact(operationId: string, status: string, currency: string, mappingVersion: nat)

  datatype TransferFact = TransferFact(
    operationId: string, position: nat, status: string, transferId: string, debitAccountId: string,
    creditAccountId: string, amountMinor: nat, currency: string, mappingVersion: nat)

  datatype BalanceFact = BalanceFact(
    accountId: string, currency: string, mappingVersion: nat, debitsPostedMinor: nat, creditsPostedMinor: nat)

  datatype ProjectionFact = ProjectionFact(operationId: string, journalStatus: string, transferIds: seq<string>)

  datatype Snapshot = Snapshot(
    operations: seq<OperationFact>, transfers: seq<TransferFact>, balances: seq<BalanceFact>, projections: seq<ProjectionFact>)

  function OperationKey(fact: OperationFact): string {
    fact.operationId
  }

  function TransferKey(fact: TransferFact): string {
    fact.operationId + ":" + D.Print(fact.position)
  }

  function BalanceKey(fact: BalanceFact): string {
    fact.accountId + ":" + fact.currency + ":" + D.Print(fact.mappingVersion)
  }

  function ProjectionKey(fact: ProjectionFact): string {
    fact.operationId
  }

  /** Keys tell the facts of a category by the fields they are made of; currency codes have no colon. */
  lemma TransferKeyExactly(a: TransferFact, b: TransferFact)
    ensures TransferKey(a) == TransferKey(b) <==> a.operationId == b.operationId && a.position == b.position
  {
    if TransferKey(a) == TransferKey(b) {
      D.ColonSplit(a.operationId, D.Print(a.position), b.operationId, D.Print(b.position));
      D.PrintInjective(a.position, b.position);
    }
  }

  lemma BalanceKeyExactly(a: BalanceFact, b: BalanceFact)
    requires T.NoColon(a.currency) && T.NoColon(b.currency)
    ensures BalanceKey(a) == BalanceKey(b) <==>
            a.accountId == b.accountId && a.currency == b.currency && a.mappingVersion == b.mappingVersion
  {
    if BalanceKey(a) == BalanceKey(b) {
      D.ColonSplit(a.accountId + ":" + a.currency, D.Print(a.mappingVersion), b.accountId + ":" + b.currency, D.Print(b.mappingVersion));
      D.PrintInjective(a.mappingVersion, b.mappingVersion);
      T.LastColon(a.accountId, a.currency, b.accountId, b.currency);
    }
  }

  lemma OperationKeysExactly(a: OperationFact, b: OperationFact, p: ProjectionFact, q: ProjectionFact)
    ensures OperationKey(a) == OperationKey(b) <==> a.operationId == b.operationId
    ensures ProjectionKey(p) == ProjectionKey(q) <==> p.operationId == q.operationId
  {
  }

  datatype Category = Operations | Transfers | Balances | Projections

  datatype Finding = DuplicateSource | DuplicateTarget | Missing | Changed | Unexpected

  /** Category and finding together stand for the kind and detail texts of a report. */
  datatype Mismatch = Mismatch(category: Category, key: string, finding: Finding)

  function Kind(m: Mismatch): string {
    match m.category
    case Operations =>
      if m.finding == Missing then "missing_operation" else if m.finding == Unexpected then "unexpected_operation" else "operation_mismatch"
    case Transfers =>
      if m.finding == Missing then "missing_transfer" else if m.finding == Unexpected then "unexpected_transfer" else "transfer_mismatch"
    case Balances => "balance_mismatch"
    case Projections => "projection_mismatch"
  }

  function Detail(m: Mismatch): string {
    match m.finding
    case DuplicateSource => "duplicate_source"
    case DuplicateTarget => "duplicate_target"
    case Missing => if m.category.Operations? || m.category.Transfers? then "target" else "missing"
    case Unexpected => if m.category.Operations? || m.category.Transfers? then "target" else "unexpected"
    case Changed =>
      match m.category
      case Operations => "metadata"
      case Transfers => "identity_or_amount"
      case Balances => "amount"
      case Projections => "state"
  }

  /** The texts of every kind of report. */
  lemma TextsRead(key: string)
    ensures forall f :: f in {DuplicateSource, DuplicateTarget, Changed} ==>
              Kind(Mismatch(Operations, key, f)) == "operation_mismatch" && Kind(Mismatch(Transfers, key, f)) == "transfer_mismatch"
    ensures forall f :: Kind(Mismatch(Balances, key, f)) == "balance_mismatch" && Kind(Mismatch(Projections, key, f)) == "projection_mismatch"
    ensures Kind(Mismatch(Operations, key, Missing)) == "missing_operation" && Kind(Mismatch(Transfers, key, Missing)) == "missing_transfer"
    ensures Kind(Mismatch(Operations, key, Unexpected)) == "unexpected_operation"
    ensures Kind(Mismatch(Transfers, key, Unexpected)) == "unexpected_transfer"
    ensures forall c :: Detail(Mismatch(c, key, DuplicateSource)) == "duplicate_source" && Detail(Mismatch(c, key, DuplicateTarget)) == "duplicate_target"
    ensures forall f :: f in {Missing, Unexpected} ==>
              Detail(Mismatch(Operations, key, f)) == "target" && Detail(Mismatch(Transfers, key, f)) == "target"
    ensures forall c :: c in {Balances, Projections} ==>
              Detail(Mismatch(c, key, Missing)) == "missing" && Detail(Mismatch(c, key, Unexpected)) == "unexpected"
    ensures Detail(Mismatch(Operations, key, Changed)) == "metadata" && Detail(Mismatch(Transfers, key, Changed)) == "identity_or_amount"
    ensures Detail(Mismatch(Balances, key, Changed)) == "amount" && Detail(Mismatch(Projections, key, Changed)) == "state"
  {
  }

  /** The three texts of a report tell which category, key and finding it is about. */
  lemma TextsTellMismatches(m: Mismatch, n: Mismatch)
    requires Kind(m) == Kind(n) && Detail(m) == Detail(n) && m.key == n.key
    ensures m == n
  {
    assert Kind(m)[0] == Kind(n)[0] && Detail(m)[0] == Detail(n)[0];
    assert |Kind(m)| == |Kind(n)| && |Detail(m)| == |Detail(n)|;
  }

  /** The mismatches one category must report. */
  ghost predicate Reported<A>(category: Category, source: seq<A>, target: seq<A>, key: A -> string, m: Mismatch) {
    var s, t := ByKey(source, key), ByKey(target, key);
    && m.category == category
    && match m.finding
       case DuplicateSource => Repeated(source, key, m.key)
       case DuplicateTarget => Repeated(target, key, m.key)
       case Missing => m.key in s && m.key !in t
       case Changed => m.key in s && m.key in t && s[m.key] != t[m.key]
       case Unexpected => m.key in t && m.key !in s
  }

  // ---- The order of reports -----------------------------------------------

  /** The part of a category's reports a finding belongs to. */
  function Part(finding: Finding): nat {
    match finding
    case DuplicateSource => 0
    case DuplicateTarget => 1
    case Missing | Changed => 2
    case Unexpected => 3
  }

  /** Where a key occurs first. */
  function Position(keys: seq<string>, k: string): nat {
    if keys == [] then 0 else
      var n := |keys| - 1;
      if k in keys[..n] then Position(keys[..n], k) else n
  }

  function KeysOf<A>(facts: seq<A>, key: A -> string): seq<string> {
    Map(key, facts)
  }

  /** The iteration order of a map: each key where it was set first. */
  function Distinct(keys: seq<string>): seq<string> {
    if keys == [] then [] else
      var n := |keys| - 1;
      Distinct(keys[..n]) + if keys[n] in keys[..n] then [] else [keys[n]]
  }

  /** In one category: by part, then repeated keys by their text and other keys by the fact that has them first. */
  predicate Precedes<A>(source: seq<A>, target: seq<A>, key: A -> string, m: Mismatch, n: Mismatch) {
    || Part(m.finding) < Part(n.finding)
    || (Part(m.finding) == Part(n.finding)
        && match Part(m.finding)
           case 0 | 1 => T.Less(m.key, n.key)
           case 2 => Position(KeysOf(source, key), m.key) < Position(KeysOf(source, key), n.key)
           case _ => Position(KeysOf(target, key), m.key) < Position(KeysOf(target, key), n.key))
  }

  lemma {:induction false} DistinctKeys(keys: seq<string>)
    ensures forall k :: k in Distinct(keys) <==> k in keys
    ensures forall i, j :: 0 <= i < j < |Distinct(keys)| ==> Position(keys, Distinct(keys)[i]) < Position(keys, Distinct(keys)[j])
    ensures forall k :: k in keys ==> Position(keys, k) < |keys|
  {
    if keys != [] {
      var n := |keys| - 1;
      var before := Distinct(keys[..n]);
      DistinctKeys(keys[..n]);
      assert keys == keys[..n] + [keys[n]];
      assert forall i :: 0 <= i < |before| ==> before[i] in before;
      if keys[n] in keys[..n] {
        assert Distinct(keys) == before;
      } else {
        assert Distinct(keys) == before + [keys[n]];
      }
    }
  }

  lemma KeysOfFacts<A>(facts: seq<A>, key: A -> string)
    ensures forall k :: k in KeysOf(facts, key) <==> k in ByKey(facts, key)
  {
    forall k ensures k in KeysOf(facts, key) <==> k in ByKey(facts, key) {
      ByKeyKeys(facts, key, k);
      if k in KeysOf(facts, key) {
        var i :| 0 <= i < |facts| && KeysOf(facts, key)[i] == k;
        CountAt(facts, key, i);
      }
      if k in ByKey(facts, key) {
        var i :| 0 <= i < |facts| && facts[i] == ByKey(facts, key)[k];
        assert KeysOf(facts, key)[i] == k;
      }
    }
  }

  function Order<A>(source: seq<A>, target: seq<A>, key: A -> string): (Mismatch, Mismatch) -> bool {
    (m, n) => Precedes(source, target, key, m, n)
  }

  function ByPosition<A>(facts: seq<A>, key: A -> string): (string, string) -> bool {
    (a, b) => Position(KeysOf(facts, key), a) < Position(KeysOf(facts, key), b)
  }

  /** What one loop over keys reports: one finding for each key that has one, in the order of the keys. */
  ghost predicate Follows(added: seq<Mismatch>, category: Category, keys: seq<string>, report: string -> Option<Finding>,
                          before: (string, string) -> bool)
  {
    && (forall m :: m in added <==> m.category == category && m.key in keys && report(m.key) == Some(m.finding))
    && (forall i, j :: 0 <= i < j < |added| ==> before(added[i].key, added[j].key))
  }

  lemma FollowsStep(added: seq<Mismatch>, category: Category, keys: seq<string>, k: string, report: string -> Option<Finding>,
                    before: (string, string) -> bool)
    requires Follows(added, category, keys, report, before) && Increasing(before, keys + [k])
    ensures Follows(added + (if report(k).Some? then [Mismatch(category, k, report(k).value)] else []),
                    category, keys + [k], report, before)
  {
    forall h | h in keys ensures before(h, k) {
      var i :| 0 <= i < |keys| && keys[i] == h;
      assert (keys + [k])[i] == h && (keys + [k])[|keys|] == k;
    }
    forall i | 0 <= i < |added| ensures before(added[i].key, k) {
      assert added[i] in added;
    }
    forall h ensures h in keys + [k] <==> h in keys || h == k {
      InSnoc(keys, k, h);
    }
    if report(k).Some? {
      var last := Mismatch(category, k, report(k).value);
      forall m ensures m in added + [last] <==> m in added || m == last {
        InSnoc(added, last, m);
      }
    }
  }

  method AppendKeys(category: Category, mismatches: seq<Mismatch>, keys: seq<string>, report: string -> Option<Finding>,
                    ghost before: (string, string) -> bool)
    returns (out: seq<Mismatch>)
    requires Increasing(before, keys)
    ensures mismatches <= out && Follows(out[|mismatches|..], category, keys, report, before)
  {
    out := mismatches;
    assert Follows(out[|mismatches|..], category, keys[..0], report, before);
    hide Follows;
    for i := 0 to |keys|
      invariant mismatches <= out && Follows(out[|mismatches|..], category, keys[..i], report, before)
    {
      var next := if report(keys[i]).Some? then [Mismatch(category, keys[i], report(keys[i]).value)] else [];
      assert keys[..i + 1] == keys[..i] + [keys[i]];
      FollowsStep(out[|mismatches|..], category, keys[..i], keys[i], report, before);
      assert (out + next)[|mismatches|..] == out[|mismatches|..] + next;
      out := out + next;
    }
    assert keys[..|keys|] == keys;
  }

  function Repeats(finding: Finding): string -> Option<Finding> {
    k => Some(finding)
  }

  function Changes<A(==)>(s: map<string, A>, t: map<string, A>): string -> Option<Finding> {
    k => if k !in s then None else if k !in t then Some(Missing) else if s[k] != t[k] then Some(Changed) else None
  }

  function Extras<A>(s: map<string, A>): string -> Option<Finding> {
    k => if k !in s then Some(Unexpected) else None
  }

  /** In order, what one part of a category must report. */
  ghost predicate IsPart<A>(list: seq<Mismatch>, part: nat, category: Category, source: seq<A>, target: seq<A>, key: A -> string) {
    && (forall m :: m in list <==> Reported(category, source, target, key, m) && Part(m.finding) == part)
    && Increasing(Order(source, target, key), list)
  }

  lemma RepeatsArePart<A>(list: seq<Mismatch>, finding: Finding, keys: seq<string>, category: Category,
                          source: seq<A>, target: seq<A>, key: A -> string)
    requires finding == DuplicateSource || finding == DuplicateTarget
    requires forall k :: k in keys <==> Repeated(if finding == DuplicateSource then source else target, key, k)
    requires Follows(list, category, keys, Repeats(finding), T.Less)
    ensures IsPart(list, Part(finding), category, source, target, key)
  {
    hide Repeated, ByKey, T.Less, Position;
    assert forall i :: 0 <= i < |list| ==> list[i] in list;
  }

  lemma ChangesArePart<A>(list: seq<Mismatch>, category: Category, source: seq<A>, target: seq<A>, key: A -> string)
    requires Follows(list, category, Distinct(KeysOf(source, key)), Changes(ByKey(source, key), ByKey(target, key)), ByPosition(source, key))
    ensures IsPart(list, 2, category, source, target, key)
  {
    DistinctKeys(KeysOf(source, key));
    KeysOfFacts(source, key);
    hide Repeated, ByKey, KeysOf, Distinct, ByPosition, Increasing;
    PartInOrder(list, 2, source, target, key);
  }

  lemma ExtrasArePart<A>(list: seq<Mismatch>, category: Category, source: seq<A>, target: seq<A>, key: A -> string)
    requires Follows(list, category, Distinct(KeysOf(target, key)), Extras(ByKey(source, key)), ByPosition(target, key))
    ensures IsPart(list, 3, category, source, target, key)
  {
    DistinctKeys(KeysOf(target, key));
    KeysOfFacts(target, key);
    hide Repeated, ByKey, KeysOf, Distinct, ByPosition, Increasing;
    PartInOrder(list, 3, source, target, key);
  }

  lemma PartInOrder<A>(list: seq<Mismatch>, part: nat, source: seq<A>, target: seq<A>, key: A -> string)
    requires part == 2 || part == 3
    requires forall m :: m in list ==> Part(m.finding) == part
    requires forall i, j :: 0 <= i < j < |list| ==> ByPosition(if part == 2 then source else target, key)(list[i].key, list[j].key)
    ensures Increasing(Order(source, target, key), list)
  {
    hide Position, KeysOf;
    assert forall i :: 0 <= i < |list| ==> list[i] in list;
  }

  lemma PartsTogether<A>(category: Category, source: seq<A>, target: seq<A>, key: A -> string,
                         a: seq<Mismatch>, b: seq<Mismatch>, c: seq<Mismatch>, d: seq<Mismatch>)
    requires IsPart(a, 0, category, source, target, key) && IsPart(b, 1, category, source, target, key)
    requires IsPart(c, 2, category, source, target, key) && IsPart(d, 3, category, source, target, key)
    ensures Increasing(Order(source, target, key), a + b + c + d)
    ensures forall m :: m in a + b + c + d <==> Reported(category, source, target, key, m)
  {
    var order := Order(source, target, key);
    assert forall m: Mismatch, n: Mismatch :: Part(m.finding) < Part(n.finding) ==> order(m, n);
    hide Reported, Increasing, Order;
    IncreasingConcat(order, a, b);
    IncreasingConcat(order, a + b, c);
    IncreasingConcat(order, a + b + c, d);
    assert forall m: Mismatch :: Part(m.finding) == 0 || Part(m.finding) == 1 || Part(m.finding) == 2 || Part(m.finding) == 3;
  }

  /** The keys repeated in one list, sorted. */
  method AppendRepeats<A>(category: Category, mismatches: seq<Mismatch>, finding: Finding, facts: seq<A>, key: A -> string)
    returns (out: seq<Mismatch>, ghost keys: seq<string>)
    ensures mismatches <= out && Follows(out[|mismatches|..], category, keys, Repeats(finding), T.Less)
    ensures forall k :: k in keys <==> Repeated(facts, key, k)
  {
    hide T.Leq, T.TotalOrder, Follows;
    T.LeqIsTotalOrder();
    var repeated := DuplicateKeys(facts, key);
    var sorted := T.SortKeys(T.Leq, repeated);
    out := AppendKeys(category, mismatches, sorted, Repeats(finding), T.Less);
    keys := sorted;
  }

  /** One category: the keys repeated in the source and in the target, sorted, then both maps against each other. */
  method AppendMismatches<A(==)>(category: Category, mismatches: seq<Mismatch>, source: seq<A>, target: seq<A>, key: A -> string)
    returns (out: seq<Mismatch>)
    ensures mismatches <= out && Increasing(Order(source, target, key), out[|mismatches|..])
    ensures forall m :: m in out[|mismatches|..] <==> Reported(category, source, target, key, m)
  {
    ghost var first, second;
    var a, b, c;
    hide Follows, ByKey, Count, Distinct, Position, T.Less, Repeats, Changes, Extras, Order, Reported, IsPart, KeysOf;
    a, first := AppendRepeats(category, mismatches, DuplicateSource, source, key);
    b, second := AppendRepeats(category, a, DuplicateTarget, target, key);
    var s, t := ByKey(source, key), ByKey(target, key);
    DistinctKeys(KeysOf(source, key));
    c := AppendKeys(category, b, Distinct(KeysOf(source, key)), Changes(s, t), ByPosition(source, key));
    DistinctKeys(KeysOf(target, key));
    out := AppendKeys(category, c, Distinct(KeysOf(target, key)), Extras(s), ByPosition(target, key));
    RepeatsArePart(a[|mismatches|..], DuplicateSource, first, category, source, target, key);
    RepeatsArePart(b[|a|..], DuplicateTarget, second, category, source, target, key);
    ChangesArePart(c[|b|..], category, source, target, key);
    ExtrasArePart(out[|c|..], category, source, target, key);
    PartsTogether(category, source, target, key, a[|mismatches|..], b[|a|..], c[|b|..], out[|c|..]);
    assert out[|mismatches|..] == a[|mismatches|..] + b[|a|..] + c[|b|..] + out[|c|..];
  }

  /** In one category: neither side repeats a key and the lists are permutations of each other. */
  ghost predicate Agrees<A>(source: seq<A>, target: seq<A>, key: A -> string) {
    NoRepeats(source, key) && NoRepeats(target, key) && multiset(source) == multiset(target)
  }

  /** A category reports nothing exactly when its lists agree. */
  lemma NothingReported<A(!new)>(category: Category, source: seq<A>, target: seq<A>, key: A -> string)
    ensures (forall m :: !Reported(category, source, target, key, m)) <==> Agrees(source, target, key)
  {
    var s, t := ByKey(source, key), ByKey(target, key);
    NoRepeatsByCount(source, key);
    NoRepeatsByCount(target, key);
    if forall m :: !Reported(category, source, target, key, m) {
      forall k ensures !Repeated(source, key, k) && !Repeated(target, key, k) && (k in s <==> k in t) && (k in s ==> s[k] == t[k]) {
        assert !Reported(category, source, target, key, Mismatch(category, k, DuplicateSource));
        assert !Reported(category, source, target, key, Mismatch(category, k, DuplicateTarget));
        assert !Reported(category, source, target, key, Mismatch(category, k, Missing));
        assert !Reported(category, source, target, key, Mismatch(category, k, Changed));
        assert !Reported(category, source, target, key, Mismatch(category, k, Unexpected));
      }
      assert s == t;
      AgreementIsPermutation(source, target, key);
    } else if Agrees(source, target, key) {
      AgreementIsPermutation(source, target, key);
    }
  }

  ghost predicate ReportedIn(source: Snapshot, target: Snapshot, m: Mismatch) {
    || Reported(Operations, source.operations, target.operations, OperationKey, m)
    || Reported(Transfers, source.transfers, target.transfers, TransferKey, m)
    || Reported(Balances, source.balances, target.balances, BalanceKey, m)
    || Reported(Projections, source.projections, target.projections, ProjectionKey, m)
  }

  ghost predicate SnapshotsAgree(source: Snapshot, target: Snapshot) {
    && Agrees(source.operations, target.operations, OperationKey)
    && Agrees(source.transfers, target.transfers, TransferKey)
    && Agrees(source.balances, target.balances, BalanceKey)
    && Agrees(source.projections, target.projections, ProjectionKey)
  }

  lemma SnapshotsAgreeExactly(source: Snapshot, target: Snapshot)
    ensures SnapshotsAgree(source, target) <==> forall m :: !ReportedIn(source, target, m)
  {
    hide Reported, Agrees;
    NothingReported(Operations, source.operations, target.operations, OperationKey);
    NothingReported(Transfers, source.transfers, target.transfers, TransferKey);
    NothingReported(Balances, source.balances, target.balances, BalanceKey);
    NothingReported(Projections, source.projections, target.projections, ProjectionKey);
    if forall m :: !ReportedIn(source, target, m) {
      forall m
        ensures !Reported(Operations, source.operations, target.operations, OperationKey, m)
        ensures !Reported(Transfers, source.transfers, target.transfers, TransferKey, m)
        ensures !Reported(Balances, source.balances, target.balances, BalanceKey, m)
        ensures !Reported(Projections, source.projections, target.projections, ProjectionKey, m)
      {
        assert !ReportedIn(source, target, m);
      }
    }
  }

  function Place(category: Category): nat {
    match category
    case Operations => 0
    case Transfers => 1
    case Balances => 2
    case Projections => 3
  }

  /** In a whole report: by category, then in the order of the category. */
  predicate Before(source: Snapshot, target: Snapshot, m: Mismatch, n: Mismatch) {
    || Place(m.category) < Place(n.category)
    || (m.category == n.category
        && match m.category
           case Operations => Precedes(source.operations, target.operations, OperationKey, m, n)
           case Transfers => Precedes(source.transfers, target.transfers, TransferKey, m, n)
           case Balances => Precedes(source.balances, target.balances, BalanceKey, m, n)
           case Projections => Precedes(source.projections, target.projections, ProjectionKey, m, n))
  }

  function ReportOrder(source: Snapshot, target: Snapshot): (Mismatch, Mismatch) -> bool {
    (m, n) => Before(source, target, m, n)
  }

  lemma ReportOrderIsStrict(source: Snapshot, target: Snapshot)
    ensures Strict(ReportOrder(source, target))
  {
    forall m, n | Before(source, target, m, n) ensures m != n && !Before(source, target, n, m) {
      hide Position, T.Leq, KeysOf;
      T.LeqTotal(m.key, n.key);
    }
  }

  /** One report holds exactly what must be reported, in order. */
  lemma ReportUnique(source: Snapshot, target: Snapshot, a: seq<Mismatch>, b: seq<Mismatch>)
    requires Increasing(ReportOrder(source, target), a) && forall m :: m in a <==> ReportedIn(source, target, m)
    requires Increasing(ReportOrder(source, target), b) && forall m :: m in b <==> ReportedIn(source, target, m)
    ensures a == b
  {
    ReportOrderIsStrict(source, target);
    hide ReportedIn, ReportOrder;
    IncreasingUnique(ReportOrder(source, target), a, b);
  }

  /** The four categories one after another. */
  lemma CategoriesTogether(source: Snapshot, target: Snapshot, a: seq<Mismatch>, b: seq<Mismatch>, c: seq<Mismatch>, d: seq<Mismatch>)
    requires forall m :: m in a <==> Reported(Operations, source.operations, target.operations, OperationKey, m)
    requires forall m :: m in b <==> Reported(Transfers, source.transfers, target.transfers, TransferKey, m)
    requires forall m :: m in c <==> Reported(Balances, source.balances, target.balances, BalanceKey, m)
    requires forall m :: m in d <==> Reported(Projections, source.projections, target.projections, ProjectionKey, m)
    requires Increasing(Order(source.operations, target.operations, OperationKey), a)
    requires Increasing(Order(source.transfers, target.transfers, TransferKey), b)
    requires Increasing(Order(source.balances, target.balances, BalanceKey), c)
    requires Increasing(Order(source.projections, target.projections, ProjectionKey), d)
    ensures forall m :: m in a + b + c + d <==> ReportedIn(source, target, m)
    ensures Increasing(ReportOrder(source, target), a + b + c + d)
  {
    hide ByKey, Repeated, Precedes;
    var order := ReportOrder(source, target);
    OneCategory(source, target, a, b, c, d);
    assert forall m: Mismatch, n: Mismatch :: Place(m.category) < Place(n.category) ==> order(m, n);
    assert (forall m :: m in a ==> m.category == Operations) && (forall m :: m in b ==> m.category == Transfers);
    assert (forall m :: m in c ==> m.category == Balances) && (forall m :: m in d ==> m.category == Projections);
    hide Reported, Increasing, ReportOrder;
    IncreasingConcat(order, a, b);
    IncreasingConcat(order, a + b, c);
    IncreasingConcat(order, a + b + c, d);
  }

  /** Inside a category the order of the whole report is the category's. */
  lemma OneCategory(source: Snapshot, target: Snapshot, a: seq<Mismatch>, b: seq<Mismatch>, c: seq<Mismatch>, d: seq<Mismatch>)
    requires Increasing(Order(source.operations, target.operations, OperationKey), a) && forall m :: m in a ==> m.category == Operations
    requires Increasing(Order(source.transfers, target.transfers, TransferKey), b) && forall m :: m in b ==> m.category == Transfers
    requires Increasing(Order(source.balances, target.balances, BalanceKey), c) && forall m :: m in c ==> m.category == Balances
    requires Increasing(Order(source.projections, target.projections, ProjectionKey), d) && forall m :: m in d ==> m.category == Projections
    ensures Increasing(ReportOrder(source, target), a) && Increasing(ReportOrder(source, target), b)
    ensures Increasing(ReportOrder(source, target), c) && Increasing(ReportOrder(source, target), d)
  {
    hide Precedes;
    assert forall i :: 0 <= i < |a| ==> a[i] in a;
    assert forall i :: 0 <= i < |b| ==> b[i] in b;
    assert forall i :: 0 <= i < |c| ==> c[i] in c;
    assert forall i :: 0 <= i < |d| ==> d[i] in d;
  }

  /**
   * The comparison: exactly the reportable mismatches are listed, in one order, so each is listed once
   * and the verdict is ok exactly when all four categories agree.
   */
  method CompareSnapshots(source: Snapshot, target: Snapshot) returns (ok: bool, mismatches: seq<Mismatch>)
    ensures forall m :: m in mismatches <==> ReportedIn(source, target, m)
    ensures Increasing(ReportOrder(source, target), mismatches)
    ensures forall i, j :: 0 <= i < j < |mismatches| ==> mismatches[i] != mismatches[j]
    ensures ok <==> mismatches == []
    ensures ok <==> SnapshotsAgree(source, target)
  {
    hide Reported, ReportedIn, SnapshotsAgree, Order, ReportOrder, Increasing;
    var a := AppendMismatches(Operations, [], source.operations, target.operations, OperationKey);
    var b := AppendMismatches(Transfers, a, source.transfers, target.transfers, TransferKey);
    var c := AppendMismatches(Balances, b, source.balances, target.balances, BalanceKey);
    mismatches := AppendMismatches(Projections, c, source.projections, target.projections, ProjectionKey);
    ok := |mismatches| == 0;
    assert a[0..] == a;
    CategoriesTogether(source, target, a, b[|a|..], c[|b|..], mismatches[|c|..]);
    assert mismatches == a + b[|a|..] + c[|b|..] + mismatches[|c|..];
    SnapshotsAgreeExactly(source, target);
    ListedOnce(source, target, mismatches);
    assert mismatches != [] ==> mismatches[0] in mismatches;
  }

  lemma ListedOnce(source: Snapshot, target: Snapshot, list: seq<Mismatch>)
    requires Increasing(ReportOrder(source, target), list)
    ensures forall i, j :: 0 <= i < j < |list| ==> list[i] != list[j]
  {
    ReportOrderIsStrict(source, target);
    hide ReportOrder;
  }

  // ---- Canonical snapshots and evidence -----------------------------------

  /** Facts compare by key, then by their printed text. */
  function FactOrder<A>(leq: (string, string) -> bool, key: A -> string, text: A -> string): (A, A) -> bool {
    (a, b) => leq(key(a), key(b)) && (leq(key(b), key(a)) ==> leq(text(a), text(b)))
  }

  lemma FactOrderIsTotal<A(!new)>(leq: (string, string) -> bool, key: A -> string, text: A -> string)
    requires TotalPreorder(leq)
    ensures TotalPreorder(FactOrder(leq, key, text))
  {
    var order := FactOrder(leq, key, text);
    forall a, b ensures order(a, b) || order(b, a) {
      assert leq(key(a), key(b)) || leq(key(b), key(a));
      assert leq(text(a), text(b)) || leq(text(b), text(a));
    }
    forall a, b, c | order(a, b) && order(b, c) ensures order(a, c) {
      assert leq(key(a), key(c));
      if leq(key(c), key(a)) {
        assert leq(key(b), key(a)) && leq(key(c), key(b));
      }
    }
  }

  /** How each kind of fact is printed. */
  datatype Printers = Printers(
    operation: OperationFact -> string, transfer: TransferFact -> string,
    balance: BalanceFact -> string, projection: ProjectionFact -> string)

  function Canonical(leq: (string, string) -> bool, text: Printers, s: Snapshot): Snapshot {
    Snapshot(Sorted(FactOrder(leq, OperationKey, text.operation), s.operations),
             Sorted(FactOrder(leq, TransferKey, text.transfer), s.transfers),
             Sorted(FactOrder(leq, BalanceKey, text.balance), s.balances),
             Sorted(FactOrder(leq, ProjectionKey, text.projection), s.projections))
  }

  /** No two different facts of a category compare equal both by key and by text. */
  ghost predicate Separated(leq: (string, string) -> bool, text: Printers, s: Snapshot) {
    && TieFree(FactOrder(leq, OperationKey, text.operation), s.operations)
    && TieFree(FactOrder(leq, TransferKey, text.transfer), s.transfers)
    && TieFree(FactOrder(leq, BalanceKey, text.balance), s.balances)
    && TieFree(FactOrder(leq, ProjectionKey, text.projection), s.projections)
  }

  ghost predicate Permutations(a: Snapshot, b: Snapshot) {
    && multiset(a.operations) == multiset(b.operations) && multiset(a.transfers) == multiset(b.transfers)
    && multiset(a.balances) == multiset(b.balances) && multiset(a.projections) == multiset(b.projections)
  }

  /** Two snapshots have one canonical form exactly when they hold the same facts. */
  lemma CanonicalSnapshotIsComplete(leq: (string, string) -> bool, text: Printers, a: Snapshot, b: Snapshot)
    requires TotalPreorder(leq) && Separated(leq, text, a)
    ensures Canonical(leq, text, a) == Canonical(leq, text, b) <==> Permutations(a, b)
  {
    FactOrderIsTotal(leq, OperationKey, text.operation);
    FactOrderIsTotal(leq, TransferKey, text.transfer);
    FactOrderIsTotal(leq, BalanceKey, text.balance);
    FactOrderIsTotal(leq, ProjectionKey, text.projection);
    hide FactOrder, TotalPreorder, TieFree, Sorted;
    SortedIsCanonical(FactOrder(leq, OperationKey, text.operation), a.operations, b.operations);
    SortedIsCanonical(FactOrder(leq, TransferKey, text.transfer), a.transfers, b.transfers);
    SortedIsCanonical(FactOrder(leq, BalanceKey, text.balance), a.balances, b.balances);
    SortedIsCanonical(FactOrder(leq, ProjectionKey, text.projection), a.projections, b.projections);
  }

  /**
   * Exactly when a snapshot has one canonical form: every snapshot of the same facts is canonicalized
   * alike if and only if nothing in the snapshot ties.
   */
  lemma CanonicalExactlyWhenSeparated(leq: (string, string) -> bool, text: Printers, a: Snapshot)
    requires TotalPreorder(leq)
    ensures Separated(leq, text, a) <==>
            forall b :: Permutations(a, b) ==> Canonical(leq, text, b) == Canonical(leq, text, a)
  {
    FactOrderIsTotal(leq, OperationKey, text.operation);
    FactOrderIsTotal(leq, TransferKey, text.transfer);
    FactOrderIsTotal(leq, BalanceKey, text.balance);
    FactOrderIsTotal(leq, ProjectionKey, text.projection);
    hide FactOrder, TotalPreorder, TieFree, Sorted, Canonical, Permutations;
    SortedExactlyWhenTieFree(FactOrder(leq, OperationKey, text.operation), a.operations);
    SortedExactlyWhenTieFree(FactOrder(leq, TransferKey, text.transfer), a.transfers);
    SortedExactlyWhenTieFree(FactOrder(leq, BalanceKey, text.balance), a.balances);
    SortedExactlyWhenTieFree(FactOrder(leq, ProjectionKey, text.projection), a.projections);
    if Separated(leq, text, a) {
      forall b | Permutations(a, b) ensures Canonical(leq, text, b) == Canonical(leq, text, a) {
        CanonicalSnapshotIsComplete(leq, text, a, b);
      }
    }
    if forall b :: Permutations(a, b) ==> Canonical(leq, text, b) == Canonical(leq, text, a) {
      forall x | multiset(x) == multiset(a.operations)
        ensures Sorted(FactOrder(leq, OperationKey, text.operation), x) == Sorted(FactOrder(leq, OperationKey, text.operation), a.operations)
      {
        OneForm(leq, text, a, a.(operations := x));
      }
      forall x | multiset(x) == multiset(a.transfers)
        ensures Sorted(FactOrder(leq, TransferKey, text.transfer), x) == Sorted(FactOrder(leq, TransferKey, text.transfer), a.transfers)
      {
        OneForm(leq, text, a, a.(transfers := x));
      }
      forall x | multiset(x) == multiset(a.balances)
        ensures Sorted(FactOrder(leq, BalanceKey, text.balance), x) == Sorted(FactOrder(leq, BalanceKey, text.balance), a.balances)
      {
        OneForm(leq, text, a, a.(balances := x));
      }
      forall x | multiset(x) == multiset(a.projections)
        ensures Sorted(FactOrder(leq, ProjectionKey, text.projection), x) == Sorted(FactOrder(leq, ProjectionKey, text.projection), a.projections)
      {
        OneForm(leq, text, a, a.(projections := x));
      }
    }
  }

  lemma OneForm(leq: (string, string) -> bool, text: Printers, a: Snapshot, b: Snapshot)
    requires forall b :: Permutations(a, b) ==> Canonical(leq, text, b) == Canonical(leq, text, a)
    requires multiset(a.operations) == multiset(b.operations) && multiset(a.transfers) == multiset(b.transfers)
    requires multiset(a.balances) == multiset(b.balances) && multiset(a.projections) == multiset(b.projections)
    ensures Sorted(FactOrder(leq, OperationKey, text.operation), a.operations) == Sorted(FactOrder(leq, OperationKey, text.operation), b.operations)
    ensures Sorted(FactOrder(leq, TransferKey, text.transfer), a.transfers) == Sorted(FactOrder(leq, TransferKey, text.transfer), b.transfers)
    ensures Sorted(FactOrder(leq, BalanceKey, text.balance), a.balances) == Sorted(FactOrder(leq, BalanceKey, text.balance), b.balances)
    ensures Sorted(FactOrder(leq, ProjectionKey, text.projection), a.projections) == Sorted(FactOrder(leq, ProjectionKey, text.projection), b.projections)
  {
    hide FactOrder, Sorted;
    assert Permutations(a, b);
  }

  /** How a list of facts is printed. */
  function Joined<A>(facts: seq<A>, text: A -> string): string {
    if facts == [] then "" else text(facts[0]) + (if |facts| == 1 then "" else ",") + Joined(facts[1..], text)
  }

  function ListText<A>(facts: seq<A>, text: A -> string): string {
    "[" + Joined(facts, text) + "]"
  }

  /** What evidence is about: the part of it that does not come from the two snapshots. */
  datatype Subject = Subject(
    tenantId: string, legalEntityId: string, kind: string, completeness: string, scope: string, mappingVersion: nat,
    currency: string, sourceWatermark: string, targetWatermark: string, sourceSnapshotRef: string, targetSnapshotRef: string,
    startedAt: string, completedAt: string)

  datatype Hashes = Hashes(operationSet: string, accountBalance: string, transferSet: string, projection: string)

  datatype Evidence = Evidence(
    subject: Subject, schemaVersion: nat, hashes: Hashes, sourceDebitMinor: string, sourceCreditMinor: string,
    targetDebitMinor: string, targetCreditMinor: string, accountCount: nat, operationCount: nat, transferCount: nat, mismatchCount: nat)

  /** A list of printed facts between brackets, a comma after each but the last. */
  lemma ListReads<A>(facts: seq<A>, last: A, text: A -> string)
    ensures ListText([], text) == "[]" && ListText([last], text) == "[" + text(last) + "]"
    ensures facts != [] ==> ListText(facts + [last], text) == "[" + Joined(facts, text) + "," + text(last) + "]"
  {
    JoinedSnoc(facts, last, text);
    assert Joined([last], text) == text(last);
  }

  lemma {:induction false} JoinedSnoc<A>(facts: seq<A>, last: A, text: A -> string)
    ensures facts != [] ==> Joined(facts + [last], text) == Joined(facts, text) + "," + text(last)
  {
    if facts != [] {
      var whole, rest := facts + [last], facts[1..];
      assert whole[1..] == rest + [last] && whole[0] == facts[0];
      assert Joined(whole, text) == text(facts[0]) + "," + Joined(rest + [last], text);
      if rest == [] {
        assert rest + [last] == [last];
        assert Joined([last], text) == text(last) && Joined(facts, text) == text(facts[0]);
      } else {
        JoinedSnoc(rest, last, text);
        assert Joined(facts, text) == text(facts[0]) + "," + Joined(rest, text);
      }
    }
  }

  /** The four hashes are those of the sorted operations, balances, transfers and projections. */
  lemma HashesRead(digest: string -> string, text: Printers, canonical: Snapshot)
    ensures var hashes := HashesOf(digest, text, canonical);
            && hashes.operationSet == digest(ListText(canonical.operations, text.operation))
            && hashes.accountBalance == digest(ListText(canonical.balances, text.balance))
            && hashes.transferSet == digest(ListText(canonical.transfers, text.transfer))
            && hashes.projection == digest(ListText(canonical.projections, text.projection))
  {
  }

  /** The hashes of the four lists of a canonical snapshot; the digest is a parameter. */
  function HashesOf(digest: string -> string, text: Printers, canonical: Snapshot): Hashes {
    Hashes(digest(ListText(canonical.operations, text.operation)), digest(ListText(canonical.balances, text.balance)),
           digest(ListText(canonical.transfers, text.transfer)), digest(ListText(canonical.projections, text.projection)))
  }

  function DebitsOf(fact: BalanceFact): nat {
    fact.debitsPostedMinor
  }

  function CreditsOf(fact: BalanceFact): nat {
    fact.creditsPostedMinor
  }

  /** One more balance adds its posted debits and credits to the sums. */
  lemma SumsRead(balances: seq<BalanceFact>, fact: BalanceFact)
    ensures Sum([fact] + balances, DebitsOf) == fact.debitsPostedMinor + Sum(balances, DebitsOf)
    ensures Sum([fact] + balances, CreditsOf) == fact.creditsPostedMinor + Sum(balances, CreditsOf)
    ensures Sum([], DebitsOf) == 0 == Sum([], CreditsOf)
  {
    assert ([fact] + balances)[1..] == balances;
  }

  /** `reduce` over the balances, one field at a time. */
  method SumBalance(balances: seq<BalanceFact>, field: BalanceFact -> nat) returns (text: string)
    ensures text == D.Print(Sum(balances, field))
  {
    var sum := 0;
    for i := 0 to |balances|
      invariant sum + Sum(balances[i..], field) == Sum(balances, field)
    {
      sum := sum + field(balances[i]);
      assert balances[i..][1..] == balances[i + 1..];
    }
    text := D.Print(sum);
  }

  /**
   * Evidence counts no mismatch exactly when the snapshots agree, and then its source and target
   * totals are equal and its counts and, if nothing ties, its four hashes are those of either side.
   */
  method BuildEvidence(leq: (string, string) -> bool, upper: string -> string, digest: string -> string, text: Printers,
                       subject: Subject, source: Snapshot, target: Snapshot)
    returns (evidence: Evidence)
    ensures evidence.mismatchCount == 0 <==> SnapshotsAgree(source, target)
    ensures exists report :: Increasing(ReportOrder(source, target), report) && |report| == evidence.mismatchCount
                             && forall m :: m in report <==> ReportedIn(source, target, m)
    ensures evidence.mismatchCount == 0 ==>
              evidence.sourceDebitMinor == evidence.targetDebitMinor && evidence.sourceCreditMinor == evidence.targetCreditMinor
              && evidence.accountCount == |target.balances| && evidence.operationCount == |target.operations|
              && evidence.transferCount == |target.transfers|
    ensures evidence.mismatchCount == 0 && TotalPreorder(leq) && Separated(leq, text, source) ==>
              evidence.hashes == HashesOf(digest, text, Canonical(leq, text, target))
    ensures evidence.sourceDebitMinor == D.Print(Sum(source.balances, DebitsOf))
    ensures evidence.sourceCreditMinor == D.Print(Sum(source.balances, CreditsOf))
    ensures evidence.targetDebitMinor == D.Print(Sum(target.balances, DebitsOf))
    ensures evidence.targetCreditMinor == D.Print(Sum(target.balances, CreditsOf))
    ensures evidence.accountCount == |source.balances| && evidence.operationCount == |source.operations|
    ensures evidence.transferCount == |source.transfers|
    ensures evidence.hashes == HashesOf(digest, text, Canonical(leq, text, source))
    ensures var stated := evidence.subject;
            && stated.scope == T.Trim(subject.scope) && stated.currency == upper(subject.currency)
            && stated.sourceWatermark == T.Trim(subject.sourceWatermark) && stated.targetWatermark == T.Trim(subject.targetWatermark)
            && stated.sourceSnapshotRef == T.Trim(subject.sourceSnapshotRef) && stated.targetSnapshotRef == T.Trim(subject.targetSnapshotRef)
            && stated.tenantId == subject.tenantId && stated.legalEntityId == subject.legalEntityId && stated.kind == subject.kind
            && stated.completeness == subject.completeness && stated.mappingVersion == subject.mappingVersion
            && stated.startedAt == subject.startedAt && stated.completedAt == subject.completedAt
    ensures evidence.schemaVersion == 1
  {
    hide Canonical, Separated, ReportedIn, ReportOrder, Increasing, NoRepeats, TotalPreorder, HashesOf, T.Trim, D.Print, Sum;
    var ok, mismatches := CompareSnapshots(source, target);
    var sourceDebit := SumBalance(source.balances, DebitsOf);
    var sourceCredit := SumBalance(source.balances, CreditsOf);
    var targetDebit := SumBalance(target.balances, DebitsOf);
    var targetCredit := SumBalance(target.balances, CreditsOf);
    var stated := subject.(
      scope := T.Trim(subject.scope), currency := upper(subject.currency),
      sourceWatermark := T.Trim(subject.sourceWatermark), targetWatermark := T.Trim(subject.targetWatermark),
      sourceSnapshotRef := T.Trim(subject.sourceSnapshotRef), targetSnapshotRef := T.Trim(subject.targetSnapshotRef));
    evidence := Evidence(stated, 1, HashesOf(digest, text, Canonical(leq, text, source)), sourceDebit, sourceCredit,
                         targetDebit, targetCredit, |source.balances|, |source.operations|, |source.transfers|, |mismatches|);
    if ok {
      SumOfPermutation(source.balances, target.balances, DebitsOf);
      SumOfPermutation(source.balances, target.balances, CreditsOf);
      PermutationLength(source.balances, target.balances);
      PermutationLength(source.operations, target.operations);
      PermutationLength(source.transfers, target.transfers);
      if TotalPreorder(leq) && Separated(leq, text, source) {
        CanonicalSnapshotIsComplete(leq, text, source, target);
      }
    }
  }
}
