/** Opening balances: an exact account-by-account comparison of two balance lists. */
module OpeningBalances {
  import opened Optional
  import opened Facts
  import D = Decimal
  import T = Texts

  datatype OpeningBalance = OpeningBalance(
    legalEntityId: string, accountId: string, currency: string, mappingVersion: nat, debitsMinor: string, creditsMinor: string)

  datatype Field = LegalEntityId | AccountId | Currency | MappingVersion | DebitsMinor | CreditsMinor

  datatype Finding = Duplicate | MissingSource | MissingTarget | InvalidAmount | FieldMismatch(fields: seq<Field>)

  /** A reported key with the entry each side holds under it. */
  datatype Mismatch = Mismatch(key: string, finding: Finding, source: Option<OpeningBalance>, target: Option<OpeningBalance>)

  datatype Verification = Verification(
    ok: bool, sourceCount: nat, targetCount: nat, sourceDebitMinor: string, targetDebitMinor: string,
    sourceCreditMinor: string, targetCreditMinor: string, mismatches: seq<Mismatch>)

  /** The entry with its currency in capitals, where the letter case of currencies is forgotten. */
  function Normal(upper: string -> string, entry: OpeningBalance): OpeningBalance {
    entry.(currency := upper(entry.currency))
  }

  function NormalKey(entry: OpeningBalance): string {
    entry.legalEntityId + ":" + entry.accountId + ":" + entry.currency + ":" + D.Print(entry.mappingVersion)
  }

  /** Keys of normalised entries tell currency, mapping version, and entity and account where the entity has no colon. */
  lemma NormalKeyExactly(a: OpeningBalance, b: OpeningBalance)
    requires T.NoColon(a.currency) && T.NoColon(b.currency) && T.NoColon(a.legalEntityId) && T.NoColon(b.legalEntityId)
    ensures NormalKey(a) == NormalKey(b) <==>
            && a.legalEntityId == b.legalEntityId && a.accountId == b.accountId && a.currency == b.currency
            && a.mappingVersion == b.mappingVersion
  {
    if NormalKey(a) == NormalKey(b) {
      var x, y := a.legalEntityId + ":" + a.accountId, b.legalEntityId + ":" + b.accountId;
      D.ColonSplit(x + ":" + a.currency, D.Print(a.mappingVersion), y + ":" + b.currency, D.Print(b.mappingVersion));
      D.PrintInjective(a.mappingVersion, b.mappingVersion);
      T.LastColon(x, a.currency, y, b.currency);
      T.FirstColon(a.legalEntityId, a.accountId, b.legalEntityId, b.accountId);
    }
  }

  function Key(upper: string -> string): OpeningBalance -> string {
    entry => NormalKey(Normal(upper, entry))
  }

  function AmountOf(text: string): Option<nat> {
    if D.IsCanonical(text) then Some(D.Value(text)) else None
  }

  function DebitsOf(entry: OpeningBalance): nat {
    if AmountOf(entry.debitsMinor).Some? then AmountOf(entry.debitsMinor).value else 0
  }

  function CreditsOf(entry: OpeningBalance): nat {
    if AmountOf(entry.creditsMinor).Some? then AmountOf(entry.creditsMinor).value else 0
  }

  predicate ValidAmounts(entry: OpeningBalance) {
    AmountOf(entry.debitsMinor).Some? && AmountOf(entry.creditsMinor).Some?
  }

  /** The fields in which two entries differ, currencies compared without letter case. */
  function Differing(upper: string -> string, s: OpeningBalance, t: OpeningBalance): (fields: seq<Field>)
    ensures fields == [] <==> Normal(upper, s) == Normal(upper, t)
  {
    When(s.legalEntityId != t.legalEntityId, LegalEntityId)
    + When(s.accountId != t.accountId, AccountId)
    + When(upper(s.currency) != upper(t.currency), Currency)
    + When(s.mappingVersion != t.mappingVersion, MappingVersion)
    + When(s.debitsMinor != t.debitsMinor, DebitsMinor)
    + When(s.creditsMinor != t.creditsMinor, CreditsMinor)
  }

  /** The keys of either list. */
  ghost function AllKeys(upper: string -> string, source: seq<OpeningBalance>, target: seq<OpeningBalance>): set<string> {
    ByKey(source, Key(upper)).Keys + ByKey(target, Key(upper)).Keys
  }

  /** What is wrong under one key, if anything; the first applicable finding wins. */
  ghost function Found(upper: string -> string, source: seq<OpeningBalance>, target: seq<OpeningBalance>, k: string): Option<Finding>
    requires k in AllKeys(upper, source, target)
  {
    var s, t := ByKey(source, Key(upper)), ByKey(target, Key(upper));
    if Repeated(source, Key(upper), k) || Repeated(target, Key(upper), k) then Some(Duplicate)
    else if k !in s then Some(MissingSource)
    else if k !in t then Some(MissingTarget)
    else if !ValidAmounts(s[k]) || !ValidAmounts(t[k]) then Some(InvalidAmount)
    else if Differing(upper, s[k], t[k]) != [] then Some(FieldMismatch(Differing(upper, s[k], t[k])))
    else None
  }

  function Entry(entries: map<string, OpeningBalance>, k: string): Option<OpeningBalance> {
    if k in entries then Some(entries[k]) else None
  }

  /** A repeated key is one that two entries have. */
  ghost predicate Twice(upper: string -> string, entries: seq<OpeningBalance>, k: string) {
    exists i, j :: 0 <= i < j < |entries| && Key(upper)(entries[i]) == k == Key(upper)(entries[j])
  }

  /** The finding under a key, the first that applies: repeated, on one side only, an amount that is no canonical numeral, differing fields. */
  lemma FoundAnswers(upper: string -> string, source: seq<OpeningBalance>, target: seq<OpeningBalance>, k: string)
    requires k in AllKeys(upper, source, target)
    ensures var found, s, t := Found(upper, source, target, k), ByKey(source, Key(upper)), ByKey(target, Key(upper));
            var again := Twice(upper, source, k) || Twice(upper, target, k);
            && (found == Some(Duplicate) <==> again)
            && (found == Some(MissingSource) <==> !again && k !in s)
            && (found == Some(MissingTarget) <==> !again && k in s && k !in t)
            && (k in s && k in t ==>
                  var numerals := && D.IsCanonical(s[k].debitsMinor) && D.IsCanonical(s[k].creditsMinor)
                                  && D.IsCanonical(t[k].debitsMinor) && D.IsCanonical(t[k].creditsMinor);
                  && (found == Some(InvalidAmount) <==> !again && !numerals)
                  && (found.None? <==> !again && numerals && s[k].(currency := upper(s[k].currency)) == t[k].(currency := upper(t[k].currency))))
  {
    RepeatedExactly(upper, source, k);
    RepeatedExactly(upper, target, k);
    hide Repeated, ByKey, Key, NormalKey, Twice, D.IsCanonical, D.Value;
  }

  lemma RepeatedExactly(upper: string -> string, entries: seq<OpeningBalance>, k: string)
    ensures Repeated(entries, Key(upper), k) <==> Twice(upper, entries, k)
  {
    hide Key;
    CountExactly(entries, Key(upper), k);
  }

  predicate DiffersIn(upper: string -> string, s: OpeningBalance, t: OpeningBalance, field: Field) {
    match field
    case LegalEntityId => s.legalEntityId != t.legalEntityId
    case AccountId => s.accountId != t.accountId
    case Currency => upper(s.currency) != upper(t.currency)
    case MappingVersion => s.mappingVersion != t.mappingVersion
    case DebitsMinor => s.debitsMinor != t.debitsMinor
    case CreditsMinor => s.creditsMinor != t.creditsMinor
  }

  function When(condition: bool, field: Field): (fields: seq<Field>)
    ensures forall f :: f in fields <==> condition && f == field
  {
    if condition then [field] else []
  }

  /** A mismatch names exactly the fields that differ. */
  lemma DifferingExactly(upper: string -> string, s: OpeningBalance, t: OpeningBalance, field: Field)
    ensures field in Differing(upper, s, t) <==> DiffersIn(upper, s, t, field)
  {
    hide When;
  }

  /** An amount that is no canonical numeral counts for nothing in the sums. */
  lemma SumsRead(entries: seq<OpeningBalance>, entry: OpeningBalance)
    ensures Sum([entry] + entries, DebitsOf) ==
            Sum(entries, DebitsOf) + if D.IsCanonical(entry.debitsMinor) then D.Value(entry.debitsMinor) else 0
    ensures Sum([entry] + entries, CreditsOf) ==
            Sum(entries, CreditsOf) + if D.IsCanonical(entry.creditsMinor) then D.Value(entry.creditsMinor) else 0
    ensures Sum([], DebitsOf) == 0 == Sum([], CreditsOf)
  {
    assert ([entry] + entries)[1..] == entries;
    hide D.IsCanonical, D.Value;
  }

  function Normalize(upper: string -> string): OpeningBalance -> OpeningBalance {
    entry => Normal(upper, entry)
  }

  function Normals(upper: string -> string, entries: seq<OpeningBalance>): seq<OpeningBalance> {
    Map(Normalize(upper), entries)
  }

  /**
   * Two balance lists verify: no key twice on either side, every amount a canonical numeral, and
   * the lists permutations of each other up to the letter case of currencies.
   */
  ghost predicate Verifies(upper: string -> string, source: seq<OpeningBalance>, target: seq<OpeningBalance>) {
    && NoRepeats(source, Key(upper)) && NoRepeats(target, Key(upper))
    && (forall i :: 0 <= i < |source| ==> ValidAmounts(source[i]))
    && (forall i :: 0 <= i < |target| ==> ValidAmounts(target[i]))
    && multiset(Normals(upper, source)) == multiset(Normals(upper, target))
  }

  lemma NormalsByKey(upper: string -> string, entries: seq<OpeningBalance>, k: string)
    ensures k in ByKey(Normals(upper, entries), NormalKey) <==> k in ByKey(entries, Key(upper))
    ensures k in ByKey(entries, Key(upper)) ==>
              ByKey(Normals(upper, entries), NormalKey)[k] == Normal(upper, ByKey(entries, Key(upper))[k])
  {
    hide NormalKey, ByKey, Map;
    MapByKey(Normalize(upper), entries, Key(upper), NormalKey, k);
  }

  lemma NormalsNoRepeats(upper: string -> string, entries: seq<OpeningBalance>)
    ensures NoRepeats(Normals(upper, entries), NormalKey) <==> NoRepeats(entries, Key(upper))
  {
    hide NormalKey;
    var normals := Normals(upper, entries);
    assert forall i :: 0 <= i < |entries| ==> NormalKey(normals[i]) == Key(upper)(entries[i]);
  }

  /** Nothing is found under any key exactly when the lists verify. */
  lemma NothingFound(upper: string -> string, source: seq<OpeningBalance>, target: seq<OpeningBalance>)
    ensures (forall k :: k in AllKeys(upper, source, target) ==> Found(upper, source, target, k).None?)
            <==> Verifies(upper, source, target)
  {
    if forall k :: k in AllKeys(upper, source, target) ==> Found(upper, source, target, k).None? {
      FindingsImply(upper, source, target);
    }
    if Verifies(upper, source, target) {
      forall k | k in AllKeys(upper, source, target) ensures Found(upper, source, target, k).None? {
        VerifiedKey(upper, source, target, k);
      }
    }
  }

  lemma FindingsImply(upper: string -> string, source: seq<OpeningBalance>, target: seq<OpeningBalance>)
    requires forall k :: k in AllKeys(upper, source, target) ==> Found(upper, source, target, k).None?
    ensures Verifies(upper, source, target)
  {
    hide NormalKey, Normal, ValidAmounts;
    var key := Key(upper);
    var s, t := ByKey(source, key), ByKey(target, key);
    forall k ensures !Repeated(source, key, k) && !Repeated(target, key, k) {
      ByKeyKeys(source, key, k);
      ByKeyKeys(target, key, k);
      assert k in AllKeys(upper, source, target) ==> Found(upper, source, target, k).None?;
    }
    NoRepeatsByCount(source, key);
    NoRepeatsByCount(target, key);
    forall i | 0 <= i < |source| ensures ValidAmounts(source[i]) {
      ByKeyFinds(source, key, i);
      assert key(source[i]) in AllKeys(upper, source, target);
    }
    forall i | 0 <= i < |target| ensures ValidAmounts(target[i]) {
      ByKeyFinds(target, key, i);
      assert key(target[i]) in AllKeys(upper, source, target);
    }
    NormalsNoRepeats(upper, source);
    NormalsNoRepeats(upper, target);
    var ns, nt := Normals(upper, source), Normals(upper, target);
    forall k ensures (k in ByKey(ns, NormalKey) <==> k in ByKey(nt, NormalKey))
                     && (k in ByKey(ns, NormalKey) ==> ByKey(ns, NormalKey)[k] == ByKey(nt, NormalKey)[k]) {
      NormalsByKey(upper, source, k);
      NormalsByKey(upper, target, k);
      assert k in AllKeys(upper, source, target) ==> Found(upper, source, target, k).None?;
    }
    assert ByKey(ns, NormalKey) == ByKey(nt, NormalKey);
    AgreementIsPermutation(ns, nt, NormalKey);
  }

  lemma VerifiedKey(upper: string -> string, source: seq<OpeningBalance>, target: seq<OpeningBalance>, k: string)
    requires Verifies(upper, source, target)
    requires k in AllKeys(upper, source, target)
    ensures Found(upper, source, target, k).None?
  {
    hide NormalKey, ValidAmounts;
    var key := Key(upper);
    NormalsNoRepeats(upper, source);
    NormalsNoRepeats(upper, target);
    AgreementIsPermutation(Normals(upper, source), Normals(upper, target), NormalKey);
    NormalsByKey(upper, source, k);
    NormalsByKey(upper, target, k);
    CountOne(source, key, k);
    CountOne(target, key, k);
    ByKeyKeys(source, key, k);
    ByKeyKeys(target, key, k);
  }

  /** Verified lists have equal debit and credit sums: the sum test adds nothing to an empty mismatch list. */
  lemma VerifiedSums(upper: string -> string, source: seq<OpeningBalance>, target: seq<OpeningBalance>)
    requires Verifies(upper, source, target)
    ensures Sum(source, DebitsOf) == Sum(target, DebitsOf) && Sum(source, CreditsOf) == Sum(target, CreditsOf)
    ensures |source| == |target|
  {
    NormalSums(upper, source);
    NormalSums(upper, target);
    SumOfPermutation(Normals(upper, source), Normals(upper, target), DebitsOf);
    SumOfPermutation(Normals(upper, source), Normals(upper, target), CreditsOf);
    PermutationLength(Normals(upper, source), Normals(upper, target));
  }

  lemma {:induction false} NormalSums(upper: string -> string, entries: seq<OpeningBalance>)
    ensures Sum(Normals(upper, entries), DebitsOf) == Sum(entries, DebitsOf)
    ensures Sum(Normals(upper, entries), CreditsOf) == Sum(entries, CreditsOf)
  {
    hide AmountOf;
    if entries != [] {
      NormalSums(upper, entries[1..]);
      assert Normals(upper, entries)[1..] == Normals(upper, entries[1..]);
    }
  }

  /** The verdict does not depend on the order of either list. */
  lemma VerdictIgnoresOrder(upper: string -> string, source: seq<OpeningBalance>, target: seq<OpeningBalance>,
                            source': seq<OpeningBalance>, target': seq<OpeningBalance>)
    requires multiset(source) == multiset(source') && multiset(target) == multiset(target')
    ensures Verifies(upper, source, target) <==> Verifies(upper, source', target')
  {
    hide NormalKey, Normal, ValidAmounts;
    ReorderKeeps(upper, source, source');
    ReorderKeeps(upper, source', source);
    ReorderKeeps(upper, target, target');
    ReorderKeeps(upper, target', target);
  }

  lemma ReorderKeeps(upper: string -> string, a: seq<OpeningBalance>, b: seq<OpeningBalance>)
    requires multiset(a) == multiset(b)
    ensures multiset(Normals(upper, a)) == multiset(Normals(upper, b))
    ensures NoRepeats(a, Key(upper)) ==> NoRepeats(b, Key(upper))
    ensures (forall i :: 0 <= i < |a| ==> ValidAmounts(a[i])) ==> forall i :: 0 <= i < |b| ==> ValidAmounts(b[i])
  {
    hide NormalKey, Normal, ValidAmounts;
    MapPermutes(Normalize(upper), a, b);
    forall i | 0 <= i < |b| ensures b[i] in a {
      assert b[i] in multiset(b);
    }
    if NoRepeats(a, Key(upper)) {
      RepeatsPermute(a, b, Key(upper));
    }
  }

  lemma CountedTwice<A>(b: seq<A>, i: nat, j: nat)
    requires i < j < |b| && b[i] == b[j]
    ensures multiset(b)[b[i]] > 1
  {
    assert b == b[..i] + [b[i]] + b[i + 1..j] + [b[j]] + b[j + 1..];
  }

  lemma RepeatsPermute(a: seq<OpeningBalance>, b: seq<OpeningBalance>, key: OpeningBalance -> string)
    requires multiset(a) == multiset(b) && NoRepeats(a, key)
    ensures NoRepeats(b, key)
  {
    forall i, j | 0 <= i < j < |b| ensures key(b[i]) != key(b[j]) {
      if key(b[i]) == key(b[j]) {
        assert b[i] in multiset(b) && b[j] in multiset(b);
        assert b[i] in a && b[j] in a;
        MultisetOne(a, key, b[i]);
        CountedTwice(b, i, j);
        assert false;
      }
    }
  }

  ghost predicate Counted(counts: map<string, nat>, entries: seq<OpeningBalance>, key: OpeningBalance -> string) {
    forall k :: (if k in counts then counts[k] else 0) == Count(entries, key, k)
  }

  method Inspect(upper: string -> string, ghost source: seq<OpeningBalance>, ghost target: seq<OpeningBalance>,
                 s: map<string, OpeningBalance>, t: map<string, OpeningBalance>,
                 sourceCounts: map<string, nat>, targetCounts: map<string, nat>, k: string) returns (finding: Option<Finding>)
    requires s == ByKey(source, Key(upper)) && t == ByKey(target, Key(upper)) && k in AllKeys(upper, source, target)
    requires Counted(sourceCounts, source, Key(upper)) && Counted(targetCounts, target, Key(upper))
    ensures finding == Found(upper, source, target, k)
  {
    hide Differing, ValidAmounts, ByKey, Key, Count;
    assert (if k in sourceCounts then sourceCounts[k] else 0) == Count(source, Key(upper), k);
    assert (if k in targetCounts then targetCounts[k] else 0) == Count(target, Key(upper), k);
    hide Counted;
    if (k in sourceCounts && sourceCounts[k] > 1) || (k in targetCounts && targetCounts[k] > 1) {
      return Some(Duplicate);
    }
    if k !in s {
      return Some(MissingSource);
    }
    if k !in t {
      return Some(MissingTarget);
    }
    if !ValidAmounts(s[k]) || !ValidAmounts(t[k]) {
      return Some(InvalidAmount);
    }
    var fields := Differing(upper, s[k], t[k]);
    return if |fields| > 0 then Some(FieldMismatch(fields)) else None;
  }

  /** What is reported under a key: its finding and the entry of each side. */
  ghost predicate Reported(upper: string -> string, source: seq<OpeningBalance>, target: seq<OpeningBalance>, m: Mismatch) {
    && m.key in AllKeys(upper, source, target)
    && Found(upper, source, target, m.key) == Some(m.finding)
    && m.source == Entry(ByKey(source, Key(upper)), m.key)
    && m.target == Entry(ByKey(target, Key(upper)), m.key)
  }

  /**
   * The mismatches of the given keys and nothing else, in the order of their keys. One list meets
   * this for each set of keys: `ReportsUnique`.
   */
  ghost predicate Reports(upper: string -> string, source: seq<OpeningBalance>, target: seq<OpeningBalance>,
                          mismatches: seq<Mismatch>, keys: set<string>)
  {
    && (forall m :: m in mismatches <==> m.key in keys && Reported(upper, source, target, m))
    && (forall i, j :: 0 <= i < j < |mismatches| ==> T.Less(mismatches[i].key, mismatches[j].key))
  }

  lemma ReportsUnique(upper: string -> string, source: seq<OpeningBalance>, target: seq<OpeningBalance>,
                      a: seq<Mismatch>, b: seq<Mismatch>, keys: set<string>)
    requires Reports(upper, source, target, a, keys) && Reports(upper, source, target, b, keys)
    ensures a == b
  {
    var before := (m: Mismatch, n: Mismatch) => T.Less(m.key, n.key);
    forall m, n | before(m, n) ensures m != n && !before(n, m) {
      T.LeqTotal(m.key, n.key);
    }
    hide Reported, T.Leq;
    IncreasingUnique(before, a, b);
  }

  lemma ReportsStep(upper: string -> string, source: seq<OpeningBalance>, target: seq<OpeningBalance>,
                    mismatches: seq<Mismatch>, keys: set<string>, k: string)
    requires Reports(upper, source, target, mismatches, keys) && k in AllKeys(upper, source, target)
    requires forall h :: h in keys ==> T.Less(h, k)
    ensures var finding := Found(upper, source, target, k);
            var s, t := Entry(ByKey(source, Key(upper)), k), Entry(ByKey(target, Key(upper)), k);
            Reports(upper, source, target,
                    mismatches + (if finding.Some? then [Mismatch(k, finding.value, s, t)] else []), keys + {k})
  {
    hide AllKeys, Found, ByKey, T.Leq;
    var finding := Found(upper, source, target, k);
    forall i | 0 <= i < |mismatches| ensures T.Less(mismatches[i].key, k) {
      assert mismatches[i] in mismatches;
    }
    if finding.Some? {
      var reported := Mismatch(k, finding.value, Entry(ByKey(source, Key(upper)), k), Entry(ByKey(target, Key(upper)), k));
      forall m: Mismatch ensures m in mismatches + [reported] <==> m in mismatches || m == reported {
        InSnoc(mismatches, reported, m);
      }
    }
  }

  /** One turn of the loop: the finding under the next key, with both entries. */
  method ReportKey(upper: string -> string, ghost source: seq<OpeningBalance>, ghost target: seq<OpeningBalance>,
                   s: map<string, OpeningBalance>, t: map<string, OpeningBalance>,
                   sourceCounts: map<string, nat>, targetCounts: map<string, nat>,
                   mismatches: seq<Mismatch>, ghost keys: set<string>, k: string) returns (out: seq<Mismatch>)
    requires s == ByKey(source, Key(upper)) && t == ByKey(target, Key(upper)) && k in AllKeys(upper, source, target)
    requires Counted(sourceCounts, source, Key(upper)) && Counted(targetCounts, target, Key(upper))
    requires Reports(upper, source, target, mismatches, keys) && forall h :: h in keys ==> T.Less(h, k)
    ensures Reports(upper, source, target, out, keys + {k})
  {
    hide Counted, AllKeys, Found, ByKey, Reports, Key;
    var finding := Inspect(upper, source, target, s, t, sourceCounts, targetCounts, k);
    ReportsStep(upper, source, target, mismatches, keys, k);
    out := mismatches + if finding.Some? then [Mismatch(k, finding.value, Entry(s, k), Entry(t, k))] else [];
  }

  /** The loop over the sorted keys. */
  method ReportKeys(upper: string -> string, ghost source: seq<OpeningBalance>, ghost target: seq<OpeningBalance>,
                    s: map<string, OpeningBalance>, t: map<string, OpeningBalance>,
                    sourceCounts: map<string, nat>, targetCounts: map<string, nat>, keys: seq<string>)
    returns (mismatches: seq<Mismatch>)
    requires s == ByKey(source, Key(upper)) && t == ByKey(target, Key(upper))
    requires Counted(sourceCounts, source, Key(upper)) && Counted(targetCounts, target, Key(upper))
    requires T.Lists(T.Leq, keys, AllKeys(upper, source, target))
    ensures Reports(upper, source, target, mismatches, AllKeys(upper, source, target))
  {
    mismatches := [];
    assert Reports(upper, source, target, mismatches, {});
    hide Reports, AllKeys, Counted, ByKey, Key, T.Lists, T.Firsts, T.Leq;
    T.FirstsAll(T.Leq, keys, AllKeys(upper, source, target));
    for i := 0 to |keys|
      invariant Reports(upper, source, target, mismatches, T.Firsts(keys, i))
    {
      T.FirstsStep(T.Leq, keys, AllKeys(upper, source, target), i);
      mismatches := ReportKey(upper, source, target, s, t, sourceCounts, targetCounts, mismatches, T.Firsts(keys, i), keys[i]);
    }
  }

  method FindMismatches(upper: string -> string, source: seq<OpeningBalance>, target: seq<OpeningBalance>)
    returns (mismatches: seq<Mismatch>)
    ensures Reports(upper, source, target, mismatches, AllKeys(upper, source, target))
  {
    var key := Key(upper);
    hide ByKey, Count, Key, T.TotalOrder, T.Lists, T.Leq, Reports;
    var s, t := ByKey(source, key), ByKey(target, key);
    var sourceCounts := Counts(source, key);
    var targetCounts := Counts(target, key);
    T.LeqIsTotalOrder();
    var keys := T.SortKeys(T.Leq, s.Keys + t.Keys);
    mismatches := ReportKeys(upper, source, target, s, t, sourceCounts, targetCounts, keys);
  }

  /** The verification: the verdict is ok exactly when nothing is reported, which is exactly when the lists verify. */
  method VerifyOpeningBalances(upper: string -> string, source: seq<OpeningBalance>, target: seq<OpeningBalance>)
    returns (v: Verification)
    ensures v.ok <==> v.mismatches == []
    ensures v.ok <==> Verifies(upper, source, target)
    ensures Reports(upper, source, target, v.mismatches, AllKeys(upper, source, target))
    ensures v.sourceDebitMinor == D.Print(Sum(source, DebitsOf)) && v.targetDebitMinor == D.Print(Sum(target, DebitsOf))
    ensures v.sourceCreditMinor == D.Print(Sum(source, CreditsOf)) && v.targetCreditMinor == D.Print(Sum(target, CreditsOf))
    ensures v.sourceCount == |source| && v.targetCount == |target|
  {
    hide Differing, ValidAmounts, ByKey, Found, Sum, NormalKey, Verifies;
    var mismatches := FindMismatches(upper, source, target);
    NothingFound(upper, source, target);
    NoneReported(upper, source, target, mismatches);
    var sourceDebit, targetDebit := D.Print(Sum(source, DebitsOf)), D.Print(Sum(target, DebitsOf));
    var sourceCredit, targetCredit := D.Print(Sum(source, CreditsOf)), D.Print(Sum(target, CreditsOf));
    if Verifies(upper, source, target) {
      VerifiedSums(upper, source, target);
    }
    var ok := mismatches == [] && sourceDebit == targetDebit && sourceCredit == targetCredit;
    v := Verification(ok, |source|, |target|, sourceDebit, targetDebit, sourceCredit, targetCredit, mismatches);
  }

  lemma NoneReported(upper: string -> string, source: seq<OpeningBalance>, target: seq<OpeningBalance>, mismatches: seq<Mismatch>)
    requires Reports(upper, source, target, mismatches, AllKeys(upper, source, target))
    ensures mismatches == [] <==> forall k :: k in AllKeys(upper, source, target) ==> Found(upper, source, target, k).None?
  {
    hide AllKeys, Found;
    if mismatches != [] {
      assert mismatches[0] in mismatches;
    } else {
      forall k | k in AllKeys(upper, source, target) ensures Found(upper, source, target, k).None? {
        if Found(upper, source, target, k).Some? {
          FoundIsReported(upper, source, target, mismatches, k);
        }
      }
    }
  }

  lemma FoundIsReported(upper: string -> string, source: seq<OpeningBalance>, target: seq<OpeningBalance>,
                        mismatches: seq<Mismatch>, k: string)
    requires Reports(upper, source, target, mismatches, AllKeys(upper, source, target)) && k in AllKeys(upper, source, target)
    requires Found(upper, source, target, k).Some?
    ensures mismatches != []
  {
    hide AllKeys, Found;
    ghost var m := Mismatch(k, Found(upper, source, target, k).value,
                            Entry(ByKey(source, Key(upper)), k), Entry(ByKey(target, Key(upper)), k));
    assert m in mismatches;
  }
}
