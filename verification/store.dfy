/** Bounded inventories of a financial store: their canonical facts and their exact comparison. */
module FinancialStore {
  import opened Facts
  import opened Json
  import C = Canonical
  import D = Decimal
  import T = Texts

  datatype Account = Account(
    accountRef: Text, currency: Text, mappingVersion: nat, debitsPendingMinor: Text, debitsPostedMinor: Text,
    creditsPendingMinor: Text, creditsPostedMinor: Text, observedAt: Text)

  datatype Transfer = Transfer(
    transferRef: Text, debitAccountRef: Text, creditAccountRef: Text, amountMinor: Text, currency: Text,
    mappingVersion: nat, status: Text, observedAt: Text)

  datatype Authority = Postgresql | TigerBeetle

  datatype Watermark = Watermark(authority: Authority, scope: Text, value: Text, snapshotRef: Text, bounded: bool, capturedAt: Text)

  datatype Inventory = Inventory(
    authority: Authority, scope: Text, watermark: Watermark, accounts: seq<Account>, transfers: seq<Transfer>)

  // ---- Observations as JSON -----------------------------------------------

  /** An ASCII literal as code units. */
  function Units(s: string): (t: Text)
    requires forall i :: 0 <= i < |s| ==> s[i] < 0x80 as char
    ensures |t| == |s| && forall i :: 0 <= i < |t| ==> t[i] == s[i] as int
  {
    seq(|s|, i requires 0 <= i < |s| => s[i] as int)
  }

  function Numeral(n: nat): (t: Text)
    ensures IsNumberToken(t)
  {
    Units(D.Print(n))
  }

  lemma NumeralInjective(m: nat, n: nat)
    requires Numeral(m) == Numeral(n)
    ensures m == n
  {
    var a, b := D.Print(m), D.Print(n);
    assert forall i :: 0 <= i < |a| ==> a[i] as int == Numeral(m)[i] && b[i] as int == Numeral(n)[i];
    assert forall i :: 0 <= i < |a| ==> a[i] == (a[i] as int) as char && b[i] == (b[i] as int) as char;
    assert a == b;
    D.PrintInjective(m, n);
  }

  const ACCOUNT_FIELDS: seq<Text> := [
    Units("accountRef"), Units("currency"), Units("mappingVersion"), Units("debitsPendingMinor"), Units("debitsPostedMinor"),
    Units("creditsPendingMinor"), Units("creditsPostedMinor"), Units("observedAt")]

  const TRANSFER_FIELDS: seq<Text> := [
    Units("transferRef"), Units("debitAccountRef"), Units("creditAccountRef"), Units("amountMinor"), Units("currency"),
    Units("mappingVersion"), Units("status"), Units("observedAt")]

  function AccountValues(a: Account): seq<Json> {
    [Str(a.accountRef), Str(a.currency), Num(Numeral(a.mappingVersion)), Str(a.debitsPendingMinor), Str(a.debitsPostedMinor),
     Str(a.creditsPendingMinor), Str(a.creditsPostedMinor), Str(a.observedAt)]
  }

  function TransferValues(t: Transfer): seq<Json> {
    [Str(t.transferRef), Str(t.debitAccountRef), Str(t.creditAccountRef), Str(t.amountMinor), Str(t.currency),
     Num(Numeral(t.mappingVersion)), Str(t.status), Str(t.observedAt)]
  }

  ghost predicate DistinctNames(names: seq<Text>) {
    forall i, j :: 0 <= i < j < |names| ==> names[i] != names[j]
  }

  /** An object with the given property names and values. */
  function Record(names: seq<Text>, values: seq<Json>): Json
    requires |names| == |values|
  {
    Obj(seq(|names|, i requires 0 <= i < |names| => Entry(names[i], values[i])))
  }

  function AccountJson(a: Account): Json {
    Record(ACCOUNT_FIELDS, AccountValues(a))
  }

  function TransferJson(t: Transfer): Json {
    Record(TRANSFER_FIELDS, TransferValues(t))
  }

  lemma AccountNamesDistinct()
    ensures DistinctNames(ACCOUNT_FIELDS) && |ACCOUNT_FIELDS| == 8
  {
    assert Units("accountRef")[0] != Units("observedAt")[0];
    assert Units("debitsPendingMinor")[0] != Units("creditsPostedMinor")[0];
  }

  lemma TransferNamesDistinct()
    ensures DistinctNames(TRANSFER_FIELDS) && |TRANSFER_FIELDS| == 8
  {
    assert Units("transferRef")[0] != Units("amountMinor")[0];
  }

  ghost predicate AllWellFormed(values: seq<Json>) {
    forall i :: 0 <= i < |values| ==> WellFormed(values[i])
  }

  lemma RecordWellFormed(names: seq<Text>, values: seq<Json>)
    requires |names| == |values| && DistinctNames(names) && AllWellFormed(values)
    ensures WellFormed(Record(names, values))
  {
  }

  /** Two records with the same names that mean the same hold values that mean the same. */
  lemma RecordMeans(names: seq<Text>, a: seq<Json>, b: seq<Json>)
    requires |names| == |a| == |b| && DistinctNames(names)
    requires C.Meaning(Record(names, a)) == C.Meaning(Record(names, b))
    ensures forall i :: 0 <= i < |names| ==> C.Meaning(a[i]) == C.Meaning(b[i])
  {
    var x, y := Record(names, a).entries, Record(names, b).entries;
    forall i | 0 <= i < |names| ensures C.Meaning(a[i]) == C.Meaning(b[i]) {
      C.MeaningAt(x, i);
      C.MeaningAt(y, i);
    }
  }

  lemma AccountMeans(a: Account, b: Account)
    requires C.Meaning(AccountJson(a)) == C.Meaning(AccountJson(b))
    ensures a == b
  {
    hide Numeral, ACCOUNT_FIELDS, Record;
    AccountNamesDistinct();
    var x, y := AccountValues(a), AccountValues(b);
    RecordMeans(ACCOUNT_FIELDS, x, y);
    assert C.Meaning(x[0]) == C.Meaning(y[0]) && C.Meaning(x[1]) == C.Meaning(y[1]) && C.Meaning(x[2]) == C.Meaning(y[2]);
    assert C.Meaning(x[3]) == C.Meaning(y[3]) && C.Meaning(x[4]) == C.Meaning(y[4]) && C.Meaning(x[5]) == C.Meaning(y[5]);
    assert C.Meaning(x[6]) == C.Meaning(y[6]) && C.Meaning(x[7]) == C.Meaning(y[7]);
    NumeralInjective(a.mappingVersion, b.mappingVersion);
  }

  lemma TransferMeans(a: Transfer, b: Transfer)
    requires C.Meaning(TransferJson(a)) == C.Meaning(TransferJson(b))
    ensures a == b
  {
    hide Numeral, TRANSFER_FIELDS, Record;
    TransferNamesDistinct();
    var x, y := TransferValues(a), TransferValues(b);
    RecordMeans(TRANSFER_FIELDS, x, y);
    assert C.Meaning(x[0]) == C.Meaning(y[0]) && C.Meaning(x[1]) == C.Meaning(y[1]) && C.Meaning(x[2]) == C.Meaning(y[2]);
    assert C.Meaning(x[3]) == C.Meaning(y[3]) && C.Meaning(x[4]) == C.Meaning(y[4]) && C.Meaning(x[5]) == C.Meaning(y[5]);
    assert C.Meaning(x[6]) == C.Meaning(y[6]) && C.Meaning(x[7]) == C.Meaning(y[7]);
    NumeralInjective(a.mappingVersion, b.mappingVersion);
  }

  // ---- Canonical arrays ---------------------------------------------------

  function CanonicalOf(leq: C.Order): Json -> Json {
    v => C.CanonicalValue(leq, v)
  }

  function CanonicalText(leq: C.Order): Json -> Text {
    v => Print(C.CanonicalValue(leq, v))
  }

  /** Values compare by the text of their canonical form. */
  function TextOrder(leq: C.Order): (Json, Json) -> bool {
    Through(CanonicalText(leq), leq)
  }

  /** `canonicalArray`: the canonical values sorted by text. */
  function CanonicalArray(leq: C.Order, values: seq<Json>): seq<Json> {
    Sorted(TextOrder(leq), Map(CanonicalOf(leq), values))
  }

  function MeaningOf(): Json -> C.Value {
    v => C.Meaning(v)
  }

  lemma TextOrderIsTotal(leq: C.Order)
    requires TotalPreorder(leq)
    ensures TotalPreorder(TextOrder(leq))
  {
    ThroughIsTotal(CanonicalText(leq), leq);
  }

  lemma CanonicalMeanings(leq: C.Order, values: seq<Json>)
    requires AllWellFormed(values)
    ensures Map(MeaningOf(), Map(CanonicalOf(leq), values)) == Map(MeaningOf(), values)
  {
    hide C.Deep, C.Meaning, WellFormed;
    forall i | 0 <= i < |values| ensures C.Meaning(C.CanonicalValue(leq, values[i])) == C.Meaning(values[i]) {
      C.DeepKeeps(C.Rebuilt(leq), values[i]);
    }
  }

  /** Equal canonical arrays come from the same multiset of data, for any comparison whatsoever. */
  lemma CanonicalArrayIsUnambiguous(leq: C.Order, a: seq<Json>, b: seq<Json>)
    requires AllWellFormed(a) && AllWellFormed(b) && CanonicalArray(leq, a) == CanonicalArray(leq, b)
    ensures multiset(Map(MeaningOf(), a)) == multiset(Map(MeaningOf(), b))
  {
    hide Sorted, C.CanonicalValue, C.Meaning, WellFormed;
    var ca, cb := Map(CanonicalOf(leq), a), Map(CanonicalOf(leq), b);
    SortedPermutes(TextOrder(leq), ca);
    SortedPermutes(TextOrder(leq), cb);
    MapPermutes(MeaningOf(), ca, cb);
    CanonicalMeanings(leq, a);
    CanonicalMeanings(leq, b);
  }

  lemma SettledFactors(leq: C.Order, a: seq<Json>, b: seq<Json>)
    requires TotalPreorder(leq) && AllWellFormed(a) && AllWellFormed(b)
    requires forall i :: 0 <= i < |a| ==> C.Settled(leq, a[i])
    ensures forall x, y :: x in a && y in b && MeaningOf()(x) == MeaningOf()(y) ==> CanonicalOf(leq)(x) == CanonicalOf(leq)(y)
  {
    hide C.CanonicalValue, C.Meaning, WellFormed, C.Settled;
    forall x, y | x in a && y in b && C.Meaning(x) == C.Meaning(y) ensures C.CanonicalValue(leq, x) == C.CanonicalValue(leq, y) {
      C.CanonicalValueIsComplete(leq, x, y);
    }
  }

  /** The canonical array is a complete invariant of the multiset of data where no keys and no texts tie. */
  lemma CanonicalArrayIsComplete(leq: C.Order, a: seq<Json>, b: seq<Json>)
    requires TotalPreorder(leq) && AllWellFormed(a) && AllWellFormed(b)
    requires forall i :: 0 <= i < |a| ==> C.Settled(leq, a[i])
    requires TieFree(TextOrder(leq), Map(CanonicalOf(leq), a))
    ensures CanonicalArray(leq, a) == CanonicalArray(leq, b) <==> multiset(Map(MeaningOf(), a)) == multiset(Map(MeaningOf(), b))
  {
    TextOrderIsTotal(leq);
    hide Sorted, C.CanonicalValue, C.Meaning, WellFormed, TieFree, TextOrder, TotalPreorder, Map, C.Settled;
    hide AllWellFormed, CanonicalOf, MeaningOf;
    if CanonicalArray(leq, a) == CanonicalArray(leq, b) {
      CanonicalArrayIsUnambiguous(leq, a, b);
    }
    if multiset(Map(MeaningOf(), a)) == multiset(Map(MeaningOf(), b)) {
      SettledFactors(leq, a, b);
      MapFactors(MeaningOf(), CanonicalOf(leq), a, b);
      SortedIsCanonical(TextOrder(leq), Map(CanonicalOf(leq), a), Map(CanonicalOf(leq), b));
    }
  }

  ghost predicate AllListed(values: seq<Json>) {
    forall i :: 0 <= i < |values| ==> C.Listed(values[i])
  }

  ghost predicate SameData(a: seq<Json>, b: seq<Json>) {
    multiset(Map(MeaningOf(), a)) == multiset(Map(MeaningOf(), b))
  }

  /** No keys tie inside a value, and no two different canonical values by their texts. */
  ghost predicate UntiedArray(leq: C.Order, values: seq<Json>) {
    (forall i :: 0 <= i < |values| ==> C.Settled(leq, values[i])) && TieFree(TextOrder(leq), Map(CanonicalOf(leq), values))
  }

  /** Any array of the same data, its objects in property order, has the same canonical array. */
  ghost predicate OneArray(leq: C.Order, a: seq<Json>) {
    forall b :: AllWellFormed(b) && AllListed(b) && SameData(a, b) ==> CanonicalArray(leq, b) == CanonicalArray(leq, a)
  }

  /** Exactly when data has one canonical array: nothing in it ties. */
  lemma CanonicalArrayExactlyWhenUntied(leq: C.Order, a: seq<Json>)
    requires TotalPreorder(leq) && AllWellFormed(a) && AllListed(a)
    ensures UntiedArray(leq, a) <==> OneArray(leq, a)
  {
    hide TotalPreorder, AllWellFormed, AllListed, SameData, CanonicalArray, TieFree, C.Settled;
    if UntiedArray(leq, a) {
      forall b | AllWellFormed(b) && AllListed(b) && SameData(a, b) ensures CanonicalArray(leq, b) == CanonicalArray(leq, a) {
        CanonicalArrayAgain(leq, a, b);
      }
    }
    if OneArray(leq, a) {
      forall i | 0 <= i < |a| ensures C.Settled(leq, a[i]) {
        OneArraySettles(leq, a, i);
      }
      OneArrayUnties(leq, a);
    }
  }

  lemma CanonicalArrayAgain(leq: C.Order, a: seq<Json>, b: seq<Json>)
    requires TotalPreorder(leq) && AllWellFormed(a) && AllWellFormed(b) && UntiedArray(leq, a) && SameData(a, b)
    ensures CanonicalArray(leq, b) == CanonicalArray(leq, a)
  {
    hide TotalPreorder, AllWellFormed, CanonicalArray, TieFree, C.Settled, Map, MeaningOf, CanonicalOf;
    CanonicalArrayIsComplete(leq, a, b);
  }

  lemma OneArraySettles(leq: C.Order, a: seq<Json>, i: nat)
    requires TotalPreorder(leq) && AllWellFormed(a) && AllListed(a) && OneArray(leq, a) && i < |a|
    ensures C.Settled(leq, a[i])
  {
    hide TotalPreorder, C.Listed, C.Settled, WellFormed, C.Deep, C.Meaning, Sorted, TextOrder;
    if !C.Settled(leq, a[i]) {
      var w := C.TiesReorder(C.Rebuilt(leq), a[i]);
      var b := a[i := w];
      assert Map(MeaningOf(), b) == Map(MeaningOf(), a);
      var ca, cb := Map(CanonicalOf(leq), a), Map(CanonicalOf(leq), b);
      assert cb == ca[i := C.CanonicalValue(leq, w)];
      SortedPermutes(TextOrder(leq), ca);
      SortedPermutes(TextOrder(leq), cb);
      assert SameData(a, b) && CanonicalArray(leq, b) == CanonicalArray(leq, a);
      OneChanged(ca, i, C.CanonicalValue(leq, w));
      assert false;
    }
  }

  lemma OneChanged<A>(s: seq<A>, i: nat, x: A)
    requires i < |s| && s[i] != x
    ensures multiset(s[i := x]) != multiset(s)
  {
    assert s == s[..i] + [s[i]] + s[i + 1..];
    assert s[i := x] == s[..i] + [x] + s[i + 1..];
    assert multiset(s[i := x])[x] == multiset(s)[x] + 1;
  }

  lemma OneArrayUnties(leq: C.Order, a: seq<Json>)
    requires TotalPreorder(leq) && AllWellFormed(a) && OneArray(leq, a)
    ensures TieFree(TextOrder(leq), Map(CanonicalOf(leq), a))
  {
    TextOrderIsTotal(leq);
    var ca := Map(CanonicalOf(leq), a);
    CanonicalMeanings(leq, a);
    hide TotalPreorder, TieFree, Sorted, TextOrder, OneArray, AllWellFormed, Map, CanonicalOf, MeaningOf;
    forall c | multiset(c) == multiset(ca) ensures Sorted(TextOrder(leq), c) == Sorted(TextOrder(leq), ca) {
      MapPermutes(MeaningOf(), c, ca);
      CanonicalsStay(leq, a, c);
      OneArrayAt(leq, a, c);
    }
    SortedExactlyWhenTieFree(TextOrder(leq), ca);
  }

  lemma OneArrayAt(leq: C.Order, a: seq<Json>, c: seq<Json>)
    requires OneArray(leq, a) && AllWellFormed(c) && AllListed(c) && SameData(a, c) && Map(CanonicalOf(leq), c) == c
    ensures Sorted(TextOrder(leq), c) == Sorted(TextOrder(leq), Map(CanonicalOf(leq), a))
  {
    hide AllWellFormed, AllListed, SameData, Sorted, TextOrder, Map;
    assert CanonicalArray(leq, c) == CanonicalArray(leq, a);
  }

  /** Any arrangement of canonical values is made of canonical values, in property order. */
  lemma CanonicalsStay(leq: C.Order, a: seq<Json>, c: seq<Json>)
    requires TotalPreorder(leq) && AllWellFormed(a) && multiset(c) == multiset(Map(CanonicalOf(leq), a))
    ensures AllWellFormed(c) && AllListed(c) && Map(CanonicalOf(leq), c) == c
  {
    hide C.Listed, WellFormed, C.Deep, C.Meaning;
    var ca := Map(CanonicalOf(leq), a);
    forall i | 0 <= i < |c| ensures WellFormed(c[i]) && C.Listed(c[i]) && C.CanonicalValue(leq, c[i]) == c[i] {
      assert c[i] in multiset(c);
      assert c[i] in ca;
      var j :| 0 <= j < |ca| && ca[j] == c[i];
      C.DeepKeeps(C.Rebuilt(leq), a[j]);
      C.CanonicalValueIsListed(leq, a[j]);
      C.CanonicalValueIsIdempotent(leq, a[j]);
    }
  }

  // ---- Canonical facts ----------------------------------------------------

  function CanonicalAccount(leq: C.Order): Account -> Json {
    a => C.CanonicalValue(leq, AccountJson(a))
  }

  function CanonicalTransfer(leq: C.Order): Transfer -> Json {
    t => C.CanonicalValue(leq, TransferJson(t))
  }

  function AccountOrder(leq: C.Order): (Account, Account) -> bool {
    Through(CanonicalAccount(leq), TextOrder(leq))
  }

  function TransferOrder(leq: C.Order): (Transfer, Transfer) -> bool {
    Through(CanonicalTransfer(leq), TextOrder(leq))
  }

  /** `canonicalizeFinancialStoreFacts`: the text that is hashed and compared. */
  function FactsText(leq: C.Order, inventory: Inventory): Text {
    Print(FactsJson(leq, inventory))
  }

  function FactsJson(leq: C.Order, inventory: Inventory): Json {
    Obj([Entry(Units("accounts"), Arr(CanonicalArray(leq, Map((a: Account) => AccountJson(a), inventory.accounts)))),
        Entry(Units("transfers"), Arr(CanonicalArray(leq, Map((t: Transfer) => TransferJson(t), inventory.transfers))))])
  }

  ghost predicate SameFacts(a: Inventory, b: Inventory) {
    multiset(a.accounts) == multiset(b.accounts) && multiset(a.transfers) == multiset(b.transfers)
  }

  /** No two different observations of the inventory have tied texts. */
  ghost predicate Untied(leq: C.Order, inventory: Inventory) {
    TieFree(AccountOrder(leq), inventory.accounts) && TieFree(TransferOrder(leq), inventory.transfers)
  }

  lemma ThroughIsTotal<A(!new), B(!new)>(h: A -> B, precedes: (B, B) -> bool)
    requires TotalPreorder(precedes)
    ensures TotalPreorder(Through(h, precedes))
  {
  }

  /** Different accounts have different canonical objects, whatever the comparison. */
  lemma CanonicalAccountInjective(leq: C.Order, a: Account, b: Account)
    ensures WellFormed(AccountJson(a)) && WellFormed(CanonicalAccount(leq)(a))
    ensures CanonicalAccount(leq)(a) == CanonicalAccount(leq)(b) ==> a == b
  {
    AccountNamesDistinct();
    RecordWellFormed(ACCOUNT_FIELDS, AccountValues(a));
    RecordWellFormed(ACCOUNT_FIELDS, AccountValues(b));
    hide C.Deep, C.Meaning, Record, WellFormed;
    C.DeepKeeps(C.Rebuilt(leq), AccountJson(a));
    C.DeepKeeps(C.Rebuilt(leq), AccountJson(b));
    if CanonicalAccount(leq)(a) == CanonicalAccount(leq)(b) {
      AccountMeans(a, b);
    }
  }

  lemma CanonicalTransferInjective(leq: C.Order, a: Transfer, b: Transfer)
    ensures WellFormed(TransferJson(a)) && WellFormed(CanonicalTransfer(leq)(a))
    ensures CanonicalTransfer(leq)(a) == CanonicalTransfer(leq)(b) ==> a == b
  {
    TransferNamesDistinct();
    RecordWellFormed(TRANSFER_FIELDS, TransferValues(a));
    RecordWellFormed(TRANSFER_FIELDS, TransferValues(b));
    hide C.Deep, C.Meaning, Record, WellFormed;
    C.DeepKeeps(C.Rebuilt(leq), TransferJson(a));
    C.DeepKeeps(C.Rebuilt(leq), TransferJson(b));
    if CanonicalTransfer(leq)(a) == CanonicalTransfer(leq)(b) {
      TransferMeans(a, b);
    }
  }

  /** The two arrays of the facts text are the sorted observations, each printed as its canonical object. */
  lemma FactsArrays(leq: C.Order, inventory: Inventory)
    ensures FactsJson(leq, inventory) ==
            Obj([Entry(Units("accounts"), Arr(Map(CanonicalAccount(leq), Sorted(AccountOrder(leq), inventory.accounts)))),
                Entry(Units("transfers"), Arr(Map(CanonicalTransfer(leq), Sorted(TransferOrder(leq), inventory.transfers))))])
  {
    hide Sorted, C.CanonicalValue, AccountJson, TransferJson;
    assert Map(CanonicalOf(leq), Map((a: Account) => AccountJson(a), inventory.accounts)) == Map(CanonicalAccount(leq), inventory.accounts);
    assert Map(CanonicalOf(leq), Map((t: Transfer) => TransferJson(t), inventory.transfers)) == Map(CanonicalTransfer(leq), inventory.transfers);
    SortedNatural(CanonicalAccount(leq), TextOrder(leq), inventory.accounts);
    SortedNatural(CanonicalTransfer(leq), TextOrder(leq), inventory.transfers);
  }

  lemma MapInjective<A(!new), B>(h: A -> B, a: seq<A>, b: seq<A>)
    requires forall x, y :: h(x) == h(y) ==> x == y
    requires Map(h, a) == Map(h, b)
    ensures a == b
  {
    assert |Map(h, a)| == |a| && |Map(h, b)| == |b|;
    forall i | 0 <= i < |a| ensures a[i] == b[i] {
      assert Map(h, a)[i] == Map(h, b)[i];
    }
  }

  lemma FactsWellFormed(leq: C.Order, inventory: Inventory)
    ensures WellFormed(FactsJson(leq, inventory))
  {
    FactsArrays(leq, inventory);
    var accounts, transfers := Sorted(AccountOrder(leq), inventory.accounts), Sorted(TransferOrder(leq), inventory.transfers);
    hide Sorted, CanonicalAccount, CanonicalTransfer, WellFormed, FactsJson, Map;
    forall i | 0 <= i < |accounts| ensures WellFormed(Map(CanonicalAccount(leq), accounts)[i]) {
      CanonicalAccountInjective(leq, accounts[i], accounts[i]);
    }
    forall i | 0 <= i < |transfers| ensures WellFormed(Map(CanonicalTransfer(leq), transfers)[i]) {
      CanonicalTransferInjective(leq, transfers[i], transfers[i]);
    }
    FactsObject(Map(CanonicalAccount(leq), accounts), Map(CanonicalTransfer(leq), transfers));
  }

  lemma FactsObject(accounts: seq<Json>, transfers: seq<Json>)
    requires AllWellFormed(accounts) && AllWellFormed(transfers)
    ensures WellFormed(Obj([Entry(Units("accounts"), Arr(accounts)), Entry(Units("transfers"), Arr(transfers))]))
  {
    assert WellFormed(Arr(accounts)) && WellFormed(Arr(transfers));
    assert |Units("accounts")| != |Units("transfers")|;
  }

  /** Two facts texts are equal exactly when the sorted observations are. */
  lemma FactsTextExact(leq: C.Order, a: Inventory, b: Inventory)
    ensures FactsText(leq, a) == FactsText(leq, b) <==>
            Sorted(AccountOrder(leq), a.accounts) == Sorted(AccountOrder(leq), b.accounts)
            && Sorted(TransferOrder(leq), a.transfers) == Sorted(TransferOrder(leq), b.transfers)
  {
    FactsWellFormed(leq, a);
    FactsWellFormed(leq, b);
    FactsArrays(leq, a);
    FactsArrays(leq, b);
    hide Sorted, CanonicalAccount, CanonicalTransfer, AccountOrder, TransferOrder, Units, WellFormed, Print, Map, FactsJson;
    if FactsText(leq, a) == FactsText(leq, b) {
      PrintInjective(FactsJson(leq, a), FactsJson(leq, b));
      forall x, y ensures CanonicalAccount(leq)(x) == CanonicalAccount(leq)(y) ==> x == y {
        CanonicalAccountInjective(leq, x, y);
      }
      forall x, y ensures CanonicalTransfer(leq)(x) == CanonicalTransfer(leq)(y) ==> x == y {
        CanonicalTransferInjective(leq, x, y);
      }
      MapInjective(CanonicalAccount(leq), Sorted(AccountOrder(leq), a.accounts), Sorted(AccountOrder(leq), b.accounts));
      MapInjective(CanonicalTransfer(leq), Sorted(TransferOrder(leq), a.transfers), Sorted(TransferOrder(leq), b.transfers));
    }
  }

  /** Equal facts texts hold the same observations, for any comparison whatsoever. */
  lemma FactsTextIsUnambiguous(leq: C.Order, a: Inventory, b: Inventory)
    requires FactsText(leq, a) == FactsText(leq, b)
    ensures SameFacts(a, b)
  {
    hide Sorted, AccountOrder, TransferOrder, FactsText;
    FactsTextExact(leq, a, b);
    SortedPermutes(AccountOrder(leq), a.accounts);
    SortedPermutes(AccountOrder(leq), b.accounts);
    SortedPermutes(TransferOrder(leq), a.transfers);
    SortedPermutes(TransferOrder(leq), b.transfers);
  }

  /**
   * Exactly when an inventory has one facts text: every inventory of the same observations prints
   * the same facts if and only if no two of its observations tie.
   */
  lemma FactsTextExactlyWhenUntied(leq: C.Order, a: Inventory)
    requires TotalPreorder(leq)
    ensures Untied(leq, a) <==> forall b :: SameFacts(a, b) ==> FactsText(leq, b) == FactsText(leq, a)
  {
    FactOrdersAreTotal(leq);
    if Untied(leq, a) {
      forall b | SameFacts(a, b) ensures FactsText(leq, b) == FactsText(leq, a) {
        hide TotalPreorder, TieFree, Sorted, AccountOrder, TransferOrder, FactsText;
        SortedIsCanonical(AccountOrder(leq), a.accounts, b.accounts);
        SortedIsCanonical(TransferOrder(leq), a.transfers, b.transfers);
        FactsTextExact(leq, a, b);
      }
    }
    if forall b :: SameFacts(a, b) ==> FactsText(leq, b) == FactsText(leq, a) {
      OneTextUntied(leq, a);
    }
  }

  lemma FactOrdersAreTotal(leq: C.Order)
    requires TotalPreorder(leq)
    ensures TotalPreorder(AccountOrder(leq)) && TotalPreorder(TransferOrder(leq))
  {
    TextOrderIsTotal(leq);
    ThroughIsTotal(CanonicalAccount(leq), TextOrder(leq));
    ThroughIsTotal(CanonicalTransfer(leq), TextOrder(leq));
  }

  lemma OneTextUntied(leq: C.Order, a: Inventory)
    requires TotalPreorder(leq) && forall b :: SameFacts(a, b) ==> FactsText(leq, b) == FactsText(leq, a)
    ensures Untied(leq, a)
  {
    FactOrdersAreTotal(leq);
    hide TotalPreorder, TieFree, Sorted, AccountOrder, TransferOrder, FactsText, SameFacts;
    forall x | multiset(x) == multiset(a.accounts) ensures Sorted(AccountOrder(leq), x) == Sorted(AccountOrder(leq), a.accounts) {
      OneTextSorted(leq, a, a.(accounts := x));
    }
    SortedExactlyWhenTieFree(AccountOrder(leq), a.accounts);
    forall x | multiset(x) == multiset(a.transfers) ensures Sorted(TransferOrder(leq), x) == Sorted(TransferOrder(leq), a.transfers) {
      OneTextSorted(leq, a, a.(transfers := x));
    }
    SortedExactlyWhenTieFree(TransferOrder(leq), a.transfers);
  }

  lemma OneTextSorted(leq: C.Order, a: Inventory, b: Inventory)
    requires forall b :: SameFacts(a, b) ==> FactsText(leq, b) == FactsText(leq, a)
    requires multiset(a.accounts) == multiset(b.accounts) && multiset(a.transfers) == multiset(b.transfers)
    ensures Sorted(AccountOrder(leq), a.accounts) == Sorted(AccountOrder(leq), b.accounts)
    ensures Sorted(TransferOrder(leq), a.transfers) == Sorted(TransferOrder(leq), b.transfers)
  {
    hide Sorted, AccountOrder, TransferOrder, FactsText;
    assert SameFacts(a, b);
    FactsTextExact(leq, a, b);
  }

  // ---- Comparing two inventories ------------------------------------------

  datatype Category = Accounts | Transfers

  datatype Finding = Duplicate | Missing | Unexpected | Changed

  /** Category and finding together stand for the kind and detail texts of a mismatch in the facts. */
  datatype Mismatch =
    | AuthorityMismatch(expected: Authority, observed: Authority)
    | ScopeMismatch(expectedScope: Text, observedScope: Text)
    | WatermarkMismatch
    | FactMismatch(category: Category, finding: Finding, key: Text)

  /** The part of the report a mismatch belongs to. */
  function Part(m: Mismatch): nat {
    match m
    case AuthorityMismatch(_, _) => 0
    case ScopeMismatch(_, _) => 1
    case WatermarkMismatch => 2
    case FactMismatch(Accounts, finding, _) => if finding == Duplicate then 3 else 4
    case FactMismatch(Transfers, finding, _) => if finding == Duplicate then 5 else 6
  }

  /** One mismatch is listed before another: by part of the report, then by key. */
  predicate Precedes(m: Mismatch, n: Mismatch) {
    Part(m) < Part(n) || (Part(m) == Part(n) && m.FactMismatch? && n.FactMismatch? && m.key != n.key && T.UnitsLeq(m.key, n.key))
  }

  lemma PrecedesIsStrict()
    ensures Strict(Precedes)
  {
    forall m, n | Precedes(m, n) ensures m != n && !Precedes(n, m) {
      if Part(m) == Part(n) {
        T.UnitsTotal(m.key, n.key);
      }
    }
  }

  /** The default order of key texts. */
  function KeyOrder(): (Text, Text) -> bool {
    (a, b) => T.UnitsLeq(a, b)
  }

  lemma KeyOrderIsTotal()
    ensures T.TotalOrder(KeyOrder())
  {
    var leq := KeyOrder();
    forall a: Text, b: Text ensures leq(a, b) || leq(b, a) ensures leq(a, b) && leq(b, a) ==> a == b {
      T.UnitsTotal(a, b);
    }
    forall a: Text, b: Text, c: Text | leq(a, b) && leq(b, c) ensures leq(a, c) {
      T.UnitsTransitive(a, b, c);
    }
  }

  function AccountKey(a: Account): Text {
    a.accountRef + [COLON] + a.currency + [COLON] + Numeral(a.mappingVersion)
  }

  function TransferKey(t: Transfer): Text {
    t.transferRef
  }

  ghost predicate NoColon(t: Text) {
    forall i :: 0 <= i < |t| ==> t[i] != COLON
  }

  lemma NumeralHasNoColon(n: nat)
    ensures NoColon(Numeral(n))
  {
    hide D.Print;
    assert forall i :: 0 <= i < |D.Print(n)| ==> D.IsDigit(D.Print(n)[i]);
  }

  lemma LastColon(x: Text, u: Text, y: Text, v: Text)
    requires NoColon(u) && NoColon(v) && x + [COLON] + u == y + [COLON] + v
    ensures x == y && u == v
  {
    var s := x + [COLON] + u;
    assert s[|x|] == COLON && s[|y|] == COLON;
    assert (forall k :: |x| < k < |s| ==> s[k] == u[k - |x| - 1]) && (forall k :: |y| < k < |s| ==> s[k] == v[k - |y| - 1]);
    assert |x| == |y|;
    assert x == s[..|x|] && y == s[..|y|] && u == s[|x| + 1..] && v == s[|y| + 1..];
  }

  /** Account keys tell reference, currency and mapping version; currency codes have no colon. */
  lemma AccountKeyExactly(a: Account, b: Account)
    requires NoColon(a.currency) && NoColon(b.currency)
    ensures AccountKey(a) == AccountKey(b) <==>
            a.accountRef == b.accountRef && a.currency == b.currency && a.mappingVersion == b.mappingVersion
  {
    if AccountKey(a) == AccountKey(b) {
      NumeralHasNoColon(a.mappingVersion);
      NumeralHasNoColon(b.mappingVersion);
      hide Numeral, NoColon;
      LastColon(a.accountRef + [COLON] + a.currency, Numeral(a.mappingVersion), b.accountRef + [COLON] + b.currency, Numeral(b.mappingVersion));
      NumeralInjective(a.mappingVersion, b.mappingVersion);
      LastColon(a.accountRef, a.currency, b.accountRef, b.currency);
    }
  }

  lemma TransferKeyExactly(a: Transfer, b: Transfer)
    ensures TransferKey(a) == TransferKey(b) <==> a.transferRef == b.transferRef
  {
  }

  /** An observation as an object, every value under its name. */
  lemma AccountFields(a: Account)
    ensures AccountJson(a) == Obj([
        Entry(Units("accountRef"), Str(a.accountRef)), Entry(Units("currency"), Str(a.currency)),
        Entry(Units("mappingVersion"), Num(Numeral(a.mappingVersion))),
        Entry(Units("debitsPendingMinor"), Str(a.debitsPendingMinor)),
        Entry(Units("debitsPostedMinor"), Str(a.debitsPostedMinor)),
        Entry(Units("creditsPendingMinor"), Str(a.creditsPendingMinor)),
        Entry(Units("creditsPostedMinor"), Str(a.creditsPostedMinor)),
        Entry(Units("observedAt"), Str(a.observedAt))])
  {
    hide Units, Numeral;
  }

  lemma TransferFields(t: Transfer)
    ensures TransferJson(t) == Obj([
        Entry(Units("transferRef"), Str(t.transferRef)),
        Entry(Units("debitAccountRef"), Str(t.debitAccountRef)),
        Entry(Units("creditAccountRef"), Str(t.creditAccountRef)),
        Entry(Units("amountMinor"), Str(t.amountMinor)), Entry(Units("currency"), Str(t.currency)),
        Entry(Units("mappingVersion"), Num(Numeral(t.mappingVersion))),
        Entry(Units("status"), Str(t.status)), Entry(Units("observedAt"), Str(t.observedAt))])
  {
    hide Units, Numeral;
  }

  /** `accountValue` and `transferValue`: the text two observations are compared by. */
  function AccountText(a: Account): Text {
    Print(Arr(AccountValues(a)))
  }

  function TransferText(t: Transfer): Text {
    Print(Arr(TransferValues(t)))
  }

  lemma AccountTextInjective(a: Account, b: Account)
    requires AccountText(a) == AccountText(b)
    ensures a == b
  {
    var x, y := AccountValues(a), AccountValues(b);
    PrintInjective(Arr(x), Arr(y));
    hide Numeral;
    assert x[0] == y[0] && x[1] == y[1] && x[2] == y[2] && x[3] == y[3] && x[4] == y[4] && x[5] == y[5] && x[6] == y[6] && x[7] == y[7];
    NumeralInjective(a.mappingVersion, b.mappingVersion);
  }

  lemma TransferTextInjective(a: Transfer, b: Transfer)
    requires TransferText(a) == TransferText(b)
    ensures a == b
  {
    var x, y := TransferValues(a), TransferValues(b);
    PrintInjective(Arr(x), Arr(y));
    hide Numeral;
    assert x[0] == y[0] && x[1] == y[1] && x[2] == y[2] && x[3] == y[3] && x[4] == y[4] && x[5] == y[5] && x[6] == y[6] && x[7] == y[7];
    NumeralInjective(a.mappingVersion, b.mappingVersion);
  }

  /** What one key of a category must be reported for. */
  ghost predicate Found<A>(expected: seq<A>, observed: seq<A>, key: A -> Text, text: A -> Text, finding: Finding, k: Text) {
    var e, o := ByKey(expected, key), ByKey(observed, key);
    match finding
    case Duplicate => Repeated(expected, key, k) || Repeated(observed, key, k)
    case Missing => k in e && k !in o
    case Unexpected => k in o && k !in e
    case Changed => k in e && k in o && text(e[k]) != text(o[k])
  }

  /** Both lists are free of repeated keys and hold the same observations. */
  ghost predicate Agrees<A>(expected: seq<A>, observed: seq<A>, key: A -> Text) {
    NoRepeats(expected, key) && NoRepeats(observed, key) && multiset(expected) == multiset(observed)
  }

  lemma NothingFound<A(!new)>(expected: seq<A>, observed: seq<A>, key: A -> Text, text: A -> Text)
    requires forall x, y :: text(x) == text(y) ==> x == y
    ensures (forall finding, k :: !Found(expected, observed, key, text, finding, k)) <==> Agrees(expected, observed, key)
  {
    var e, o := ByKey(expected, key), ByKey(observed, key);
    NoRepeatsByCount(expected, key);
    NoRepeatsByCount(observed, key);
    if forall finding, k :: !Found(expected, observed, key, text, finding, k) {
      forall k ensures !Repeated(expected, key, k) && !Repeated(observed, key, k) && (k in e <==> k in o) && (k in e ==> e[k] == o[k]) {
        assert !Found(expected, observed, key, text, Duplicate, k) && !Found(expected, observed, key, text, Missing, k);
        assert !Found(expected, observed, key, text, Unexpected, k) && !Found(expected, observed, key, text, Changed, k);
      }
      assert e == o;
      AgreementIsPermutation(expected, observed, key);
    } else if Agrees(expected, observed, key) {
      AgreementIsPermutation(expected, observed, key);
    }
  }

  /** In order: the repeats of the keys `again`, then what the keys `each` are reported for otherwise. */
  ghost predicate Reports<A>(added: seq<Mismatch>, category: Category, expected: seq<A>, observed: seq<A>,
                             key: A -> Text, text: A -> Text, again: set<Text>, each: set<Text>)
  {
    && Increasing(Precedes, added)
    && forall m :: m in added <==>
         && m.FactMismatch? && m.category == category
         && if m.finding == Duplicate then m.key in again else m.key in each && Found(expected, observed, key, text, m.finding, m.key)
  }

  /** One more key whose mismatch, if any, comes last. */
  lemma ReportsStep<A>(added: seq<Mismatch>, category: Category, expected: seq<A>, observed: seq<A>, key: A -> Text, text: A -> Text,
                       again: set<Text>, each: set<Text>, k: Text, next: seq<Mismatch>)
    requires Reports(added, category, expected, observed, key, text, again, each)
    requires forall h :: h in each ==> h != k && T.UnitsLeq(h, k)
    requires |next| <= 1 && forall m :: m in next <==>
               m.FactMismatch? && m.category == category && m.finding != Duplicate && m.key == k
               && Found(expected, observed, key, text, m.finding, k)
    ensures Reports(added + next, category, expected, observed, key, text, again, each + {k})
  {
    hide Found, Increasing;
    if next != [] {
      var last := next[0];
      assert last in next && next == [last];
      IncreasingSnoc(Precedes, added, last);
    } else {
      assert added + next == added;
    }
  }

  lemma ReportsRepeat<A>(added: seq<Mismatch>, category: Category, expected: seq<A>, observed: seq<A>, key: A -> Text, text: A -> Text,
                         again: set<Text>, k: Text)
    requires Reports(added, category, expected, observed, key, text, again, {})
    requires forall h :: h in again ==> h != k && T.UnitsLeq(h, k)
    ensures Reports(added + [FactMismatch(category, Duplicate, k)], category, expected, observed, key, text, again + {k}, {})
  {
    hide Found, Increasing;
    IncreasingSnoc(Precedes, added, FactMismatch(category, Duplicate, k));
  }

  /** The first loop of a category: the keys repeated on either side, sorted. */
  method AppendRepeats<A>(category: Category, mismatches: seq<Mismatch>, ghost expected: seq<A>, ghost observed: seq<A>,
                          ghost key: A -> Text, ghost text: A -> Text, repeated: set<Text>)
    returns (out: seq<Mismatch>)
    ensures mismatches <= out && Reports(out[|mismatches|..], category, expected, observed, key, text, repeated, {})
  {
    KeyOrderIsTotal();
    var keys := T.SortKeys(KeyOrder(), repeated);
    out := mismatches;
    ghost var added := [];
    assert Reports(added, category, expected, observed, key, text, {}, {});
    hide Reports, T.TotalOrder, T.Lists, T.Firsts;
    T.FirstsAll(KeyOrder(), keys, repeated);
    for i := 0 to |keys|
      invariant out == mismatches + added
      invariant Reports(added, category, expected, observed, key, text, T.Firsts(keys, i), {})
    {
      T.FirstsStep(KeyOrder(), keys, repeated, i);
      ReportsRepeat(added, category, expected, observed, key, text, T.Firsts(keys, i), keys[i]);
      out, added := out + [FactMismatch(category, Duplicate, keys[i])], added + [FactMismatch(category, Duplicate, keys[i])];
    }
    assert out[|mismatches|..] == added;
  }

  method Inspect<A>(category: Category, ghost expected: seq<A>, ghost observed: seq<A>, key: A -> Text, text: A -> Text,
                    e: map<Text, A>, o: map<Text, A>, k: Text)
    returns (next: seq<Mismatch>)
    requires e == ByKey(expected, key) && o == ByKey(observed, key) && k in e.Keys + o.Keys
    ensures |next| <= 1
    ensures forall m :: m in next <==> m.FactMismatch? && m.category == category && m.finding != Duplicate && m.key == k
                                       && Found(expected, observed, key, text, m.finding, k)
  {
    hide ByKey;
    next := if k !in e then [FactMismatch(category, Unexpected, k)]
            else if k !in o then [FactMismatch(category, Missing, k)]
            else if text(e[k]) != text(o[k]) then [FactMismatch(category, Changed, k)]
            else [];
  }

  /** The second loop of a category: the keys of both maps, sorted. */
  method AppendChanges<A>(category: Category, mismatches: seq<Mismatch>, ghost from: nat, ghost expected: seq<A>,
                          ghost observed: seq<A>, key: A -> Text, text: A -> Text, e: map<Text, A>, o: map<Text, A>,
                          ghost again: set<Text>)
    returns (out: seq<Mismatch>)
    requires e == ByKey(expected, key) && o == ByKey(observed, key) && from <= |mismatches|
    requires Reports(mismatches[from..], category, expected, observed, key, text, again, {})
    ensures mismatches <= out && Reports(out[from..], category, expected, observed, key, text, again, e.Keys + o.Keys)
  {
    KeyOrderIsTotal();
    hide ByKey, Reports, Found, T.TotalOrder, T.Lists, T.Firsts;
    var keys := T.SortKeys(KeyOrder(), e.Keys + o.Keys);
    out := mismatches;
    T.FirstsAll(KeyOrder(), keys, e.Keys + o.Keys);
    for i := 0 to |keys|
      invariant mismatches <= out
      invariant Reports(out[from..], category, expected, observed, key, text, again, T.Firsts(keys, i))
    {
      T.FirstsStep(KeyOrder(), keys, e.Keys + o.Keys, i);
      var next := Inspect(category, expected, observed, key, text, e, o, keys[i]);
      ReportsStep(out[from..], category, expected, observed, key, text, again, T.Firsts(keys, i), keys[i], next);
      assert (out + next)[from..] == out[from..] + next;
      out := out + next;
    }
  }

  /** One category: every key repeated on either side, then the two maps against each other, keys sorted both times. */
  method AppendMismatches<A>(category: Category, mismatches: seq<Mismatch>, expected: seq<A>, observed: seq<A>,
                             key: A -> Text, text: A -> Text)
    returns (out: seq<Mismatch>)
    ensures mismatches <= out && Increasing(Precedes, out[|mismatches|..])
    ensures forall m :: m in out[|mismatches|..] <==>
              m.FactMismatch? && m.category == category && Found(expected, observed, key, text, m.finding, m.key)
  {
    hide ByKey, Count, Reports, Found, Increasing;
    var expectedDuplicates := DuplicateKeys(expected, key);
    var observedDuplicates := DuplicateKeys(observed, key);
    var again := expectedDuplicates + observedDuplicates;
    var repeats := AppendRepeats(category, mismatches, expected, observed, key, text, again);
    out := AppendChanges(category, repeats, |mismatches|, expected, observed, key, text, ByKey(expected, key), ByKey(observed, key), again);
    ReportsAll(out[|mismatches|..], category, expected, observed, key, text, again);
  }

  lemma ReportsAll<A>(added: seq<Mismatch>, category: Category, expected: seq<A>, observed: seq<A>, key: A -> Text, text: A -> Text,
                      again: set<Text>)
    requires forall k :: k in again <==> Repeated(expected, key, k) || Repeated(observed, key, k)
    requires Reports(added, category, expected, observed, key, text, again, ByKey(expected, key).Keys + ByKey(observed, key).Keys)
    ensures Increasing(Precedes, added)
    ensures forall m :: m in added <==>
              m.FactMismatch? && m.category == category && Found(expected, observed, key, text, m.finding, m.key)
  {
    hide ByKey, Increasing;
  }

  lemma FirstIsIn<T>(s: seq<T>)
    requires s != []
    ensures s[0] in s
  {
  }

  lemma CleanCategories(expected: Inventory, observed: Inventory)
    ensures (forall finding, k :: !Found(expected.accounts, observed.accounts, AccountKey, AccountText, finding, k))
            <==> Agrees(expected.accounts, observed.accounts, AccountKey)
    ensures (forall finding, k :: !Found(expected.transfers, observed.transfers, TransferKey, TransferText, finding, k))
            <==> Agrees(expected.transfers, observed.transfers, TransferKey)
  {
    hide Found, Agrees, AccountText, TransferText;
    forall x, y ensures AccountText(x) == AccountText(y) ==> x == y {
      if AccountText(x) == AccountText(y) {
        AccountTextInjective(x, y);
      }
    }
    forall x, y ensures TransferText(x) == TransferText(y) ==> x == y {
      if TransferText(x) == TransferText(y) {
        TransferTextInjective(x, y);
      }
    }
    NothingFound(expected.accounts, observed.accounts, AccountKey, AccountText);
    NothingFound(expected.transfers, observed.transfers, TransferKey, TransferText);
  }

  lemma CleanFacts(leq: C.Order, expected: Inventory, observed: Inventory)
    requires Agrees(expected.accounts, observed.accounts, AccountKey) && Agrees(expected.transfers, observed.transfers, TransferKey)
    requires TotalPreorder(leq) && Untied(leq, expected)
    ensures FactsText(leq, observed) == FactsText(leq, expected)
  {
    hide TotalPreorder, Untied, FactsText;
    FactsTextExactlyWhenUntied(leq, expected);
    assert SameFacts(expected, observed);
  }

  /** Authority, scope and the store-derived part of the watermark; the time of capture is not compared. */
  predicate SameBoundary(expected: Inventory, observed: Inventory) {
    expected.authority == observed.authority && expected.scope == observed.scope && SameWatermark(expected.watermark, observed.watermark)
  }

  predicate SameWatermark(expected: Watermark, observed: Watermark) {
    expected.value == observed.value && expected.snapshotRef == observed.snapshotRef && expected.bounded == observed.bounded
  }

  /** Boundaries are the same exactly when nothing differs but the authority, scope and time written on the watermark. */
  lemma BoundaryExactly(expected: Inventory, observed: Inventory)
    ensures var a, b := expected.watermark, observed.watermark;
            SameBoundary(expected, observed) <==>
              && expected.authority == observed.authority && expected.scope == observed.scope
              && a == b.(authority := a.authority, scope := a.scope, capturedAt := a.capturedAt)
    ensures SameWatermark(expected.watermark, observed.watermark) <==>
              && expected.watermark.value == observed.watermark.value
              && expected.watermark.snapshotRef == observed.watermark.snapshotRef
              && expected.watermark.bounded == observed.watermark.bounded
  {
  }

  /** What a comparison must report. */
  ghost predicate Due(expected: Inventory, observed: Inventory, m: Mismatch) {
    match m
    case AuthorityMismatch(e, o) => e == expected.authority && o == observed.authority && e != o
    case ScopeMismatch(e, o) => e == expected.scope && o == observed.scope && e != o
    case WatermarkMismatch => !SameWatermark(expected.watermark, observed.watermark)
    case FactMismatch(Accounts, finding, k) => Found(expected.accounts, observed.accounts, AccountKey, AccountText, finding, k)
    case FactMismatch(Transfers, finding, k) => Found(expected.transfers, observed.transfers, TransferKey, TransferText, finding, k)
  }

  /** One report holds exactly what is due, in order. */
  lemma ReportUnique(expected: Inventory, observed: Inventory, a: seq<Mismatch>, b: seq<Mismatch>)
    requires Increasing(Precedes, a) && forall m :: m in a <==> Due(expected, observed, m)
    requires Increasing(Precedes, b) && forall m :: m in b <==> Due(expected, observed, m)
    ensures a == b
  {
    hide Due;
    PrecedesIsStrict();
    IncreasingUnique(Precedes, a, b);
  }

  lemma NothingDue(expected: Inventory, observed: Inventory)
    ensures (forall m :: !Due(expected, observed, m)) <==>
            SameBoundary(expected, observed) && Agrees(expected.accounts, observed.accounts, AccountKey)
            && Agrees(expected.transfers, observed.transfers, TransferKey)
  {
    hide Found, Agrees, AccountKey, AccountText, TransferKey, TransferText;
    CleanCategories(expected, observed);
    if forall m :: !Due(expected, observed, m) {
      assert !Due(expected, observed, AuthorityMismatch(expected.authority, observed.authority));
      assert !Due(expected, observed, ScopeMismatch(expected.scope, observed.scope));
      assert !Due(expected, observed, WatermarkMismatch);
      forall finding, k ensures !Found(expected.accounts, observed.accounts, AccountKey, AccountText, finding, k) {
        assert !Due(expected, observed, FactMismatch(Accounts, finding, k));
      }
      forall finding, k ensures !Found(expected.transfers, observed.transfers, TransferKey, TransferText, finding, k) {
        assert !Due(expected, observed, FactMismatch(Transfers, finding, k));
      }
    }
  }

  method AppendBoundary(expected: Inventory, observed: Inventory) returns (out: seq<Mismatch>)
    ensures Increasing(Precedes, out) && forall m :: m in out <==> !m.FactMismatch? && Due(expected, observed, m)
  {
    out := [];
    if expected.authority != observed.authority {
      out := out + [AuthorityMismatch(expected.authority, observed.authority)];
    }
    if expected.scope != observed.scope {
      out := out + [ScopeMismatch(expected.scope, observed.scope)];
    }
    if || expected.watermark.value != observed.watermark.value
       || expected.watermark.snapshotRef != observed.watermark.snapshotRef
       || expected.watermark.bounded != observed.watermark.bounded {
      out := out + [WatermarkMismatch];
    }
  }

  /** The three parts of the report put together. */
  lemma ReportIsDue(expected: Inventory, observed: Inventory, boundary: seq<Mismatch>, accounts: seq<Mismatch>, transfers: seq<Mismatch>)
    requires Increasing(Precedes, boundary) && Increasing(Precedes, accounts) && Increasing(Precedes, transfers)
    requires forall m :: m in boundary <==> !m.FactMismatch? && Due(expected, observed, m)
    requires forall m :: m in accounts <==> m.FactMismatch? && m.category == Accounts && Due(expected, observed, m)
    requires forall m :: m in transfers <==> m.FactMismatch? && m.category == Transfers && Due(expected, observed, m)
    ensures Increasing(Precedes, boundary + accounts + transfers)
    ensures forall m :: m in boundary + accounts + transfers <==> Due(expected, observed, m)
  {
    hide Due, Increasing;
    IncreasingConcat(Precedes, boundary, accounts);
    IncreasingConcat(Precedes, boundary + accounts, transfers);
  }

  /**
   * The comparison lists exactly what is due, in one order. It is clean exactly when both inventories
   * share their boundary and hold, without repeated keys, the same observations; then wherever nothing
   * ties their facts texts are equal.
   */
  method CompareInventories(leq: C.Order, expected: Inventory, observed: Inventory) returns (ok: bool, mismatches: seq<Mismatch>)
    ensures Increasing(Precedes, mismatches) && forall m :: m in mismatches <==> Due(expected, observed, m)
    ensures ok <==> mismatches == []
    ensures ok <==> SameBoundary(expected, observed) && Agrees(expected.accounts, observed.accounts, AccountKey)
                    && Agrees(expected.transfers, observed.transfers, TransferKey)
    ensures ok && TotalPreorder(leq) && Untied(leq, expected) ==> FactsText(leq, observed) == FactsText(leq, expected)
  {
    hide TotalPreorder, Untied, FactsText, AccountKey, TransferKey, AccountText, TransferText, SameBoundary, Found, Agrees, Increasing;
    var boundary := AppendBoundary(expected, observed);
    var accounts := AppendMismatches(Accounts, boundary, expected.accounts, observed.accounts, AccountKey, AccountText);
    mismatches := AppendMismatches(Transfers, accounts, expected.transfers, observed.transfers, TransferKey, TransferText);
    ok := |mismatches| == 0;
    ghost var middle, last := accounts[|boundary|..], mismatches[|accounts|..];
    assert mismatches == boundary + middle + last;
    ReportIsDue(expected, observed, boundary, middle, last);
    NothingDue(expected, observed);
    hide Due;
    if mismatches != [] {
      FirstIsIn(mismatches);
    }
    if ok && TotalPreorder(leq) && Untied(leq, expected) {
      CleanFacts(leq, expected, observed);
    }
  }
}
