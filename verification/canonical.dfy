/**
 * Canonical JSON: objects rewritten with their entries in one order. The locale comparison is a
 * parameter, a total preorder that may tie distinct keys; the sort is stable.
 */
module Canonical {
  import opened Optional
  import opened Json

  type Order = (Text, Text) -> bool

  ghost predicate TotalPreorder(leq: Order) {
    && (forall a, b :: leq(a, b) || leq(b, a))
    && (forall a, b, c :: leq(a, b) && leq(b, c) ==> leq(a, c))
  }

  /** How entries are put in order: sorted and printed, or sorted and rebuilt into an object. */
  datatype Arrangement = Printed(leq: Order) | Rebuilt(leq: Order)

  // ---- Property order of rebuilt objects ----------------------------------

  const MAX_INDEX: nat := 0xFFFF_FFFE

  predicate AllDigits(t: Text) {
    forall i :: 0 <= i < |t| ==> 0x30 <= t[i] <= 0x39
  }

  function DigitsValue(t: Text): nat
    requires AllDigits(t)
  {
    if t == [] then 0 else 10 * DigitsValue(t[..|t| - 1]) + (t[|t| - 1] - 0x30)
  }

  /** Array-index keys, which every object lists first and in ascending numeric order. */
  function IndexKey(key: Text): Option<nat> {
    if key != [] && AllDigits(key) && (key[0] == 0x30 ==> |key| == 1) && DigitsValue(key) <= MAX_INDEX
    then Some(DigitsValue(key)) else None
  }

  predicate PropertyLeq(a: Text, b: Text) {
    match IndexKey(a)
    case Some(i) => IndexKey(b).Some? ==> i <= IndexKey(b).value
    case None => IndexKey(b).None?
  }

  // ---- Stable sorting -----------------------------------------------------

  /** `entry` goes before the first entry it may precede, so ties keep their order. */
  function Insert(leq: Order, entry: Entry, sorted: seq<Entry>): (r: seq<Entry>)
    ensures EntriesSize(r) == EntriesSize([entry] + sorted)
  {
    if sorted == [] || leq(entry.key, sorted[0].key) then [entry] + sorted
    else
      assert ([entry] + sorted)[1..] == sorted;
      var rest := Insert(leq, entry, sorted[1..]);
      assert ([entry] + sorted[1..])[1..] == sorted[1..];
      assert ([sorted[0]] + rest)[1..] == rest;
      [sorted[0]] + rest
  }

  function SortBy(leq: Order, entries: seq<Entry>): (r: seq<Entry>)
    ensures EntriesSize(r) == EntriesSize(entries)
  {
    if entries == [] then [] else
      var rest := SortBy(leq, entries[1..]);
      assert ([entries[0]] + rest)[1..] == rest;
      Insert(leq, entries[0], rest)
  }

  function Arrange(m: Arrangement, entries: seq<Entry>): (r: seq<Entry>)
    ensures EntriesSize(r) == EntriesSize(entries)
  {
    match m
    case Printed(leq) => SortBy(leq, entries)
    case Rebuilt(leq) => SortBy(PropertyLeq, SortBy(leq, entries))
  }

  // ---- Sizes, for termination ---------------------------------------------

  function Size(v: Json): nat
    decreases v, 1
  {
    match v
    case Arr(items) => 1 + ItemsSize(items)
    case Obj(entries) => 1 + EntriesSize(entries)
    case _ => 1
  }

  function ItemsSize(items: seq<Json>): nat
    decreases items, 0
  {
    if items == [] then 0 else 1 + Size(items[0]) + ItemsSize(items[1..])
  }

  function EntriesSize(entries: seq<Entry>): nat
    decreases entries, 0
  {
    if entries == [] then 0 else 1 + Size(entries[0].value) + EntriesSize(entries[1..])
  }

  // ---- The canonical forms ------------------------------------------------

  /** The value with every object's entries arranged; rebuilding objects this way is `canonicalValue`. */
  function Deep(m: Arrangement, v: Json): Json
    decreases Size(v)
  {
    match v
    case Arr(items) => Arr(DeepItems(m, items))
    case Obj(entries) => Obj(DeepEntries(m, Arrange(m, entries)))
    case _ => v
  }

  function DeepItems(m: Arrangement, items: seq<Json>): (r: seq<Json>)
    ensures |r| == |items|
    decreases ItemsSize(items)
  {
    if items == [] then [] else [Deep(m, items[0])] + DeepItems(m, items[1..])
  }

  function DeepEntries(m: Arrangement, entries: seq<Entry>): (r: seq<Entry>)
    ensures |r| == |entries|
    decreases EntriesSize(entries)
  {
    if entries == [] then [] else [Entry(entries[0].key, Deep(m, entries[0].value))] + DeepEntries(m, entries[1..])
  }

  /** `canonicalizeJson`: sort the entries, then print each value the same way. */
  function Canonicalize(leq: Order, v: Json): Text
    decreases Size(v)
  {
    match v
    case Arr(items) => [OPEN_ARRAY] + CanonicalItems(leq, items)
    case Obj(entries) => [OPEN_OBJECT] + CanonicalEntries(leq, SortBy(leq, entries))
    case _ => Print(v)
  }

  function CanonicalItems(leq: Order, items: seq<Json>): Text
    decreases ItemsSize(items)
  {
    if items == [] then [CLOSE_ARRAY]
    else if |items| == 1 then Canonicalize(leq, items[0]) + [CLOSE_ARRAY]
    else Canonicalize(leq, items[0]) + [COMMA] + CanonicalItems(leq, items[1..])
  }

  function CanonicalEntries(leq: Order, entries: seq<Entry>): Text
    decreases EntriesSize(entries)
  {
    if entries == [] then [CLOSE_OBJECT] else
      var first := Quote(entries[0].key) + [COLON] + Canonicalize(leq, entries[0].value);
      if |entries| == 1 then first + [CLOSE_OBJECT]
      else first + [COMMA] + CanonicalEntries(leq, entries[1..])
  }

  function CanonicalValue(leq: Order, v: Json): Json {
    Deep(Rebuilt(leq), v)
  }

  lemma {:induction false} DeepItemsAt(m: Arrangement, items: seq<Json>, i: nat)
    requires i < |items|
    ensures Size(items[i]) < 1 + ItemsSize(items) && DeepItems(m, items)[i] == Deep(m, items[i])
  {
    hide Deep;
    if i > 0 {
      DeepItemsAt(m, items[1..], i - 1);
    }
  }

  lemma {:induction false} DeepEntriesAt(m: Arrangement, entries: seq<Entry>, i: nat)
    requires i < |entries|
    ensures Size(entries[i].value) < 1 + EntriesSize(entries)
    ensures DeepEntries(m, entries)[i] == Entry(entries[i].key, Deep(m, entries[i].value))
  {
    hide Deep;
    if i > 0 {
      DeepEntriesAt(m, entries[1..], i - 1);
    }
  }

  lemma {:induction false} CanonicalizePrints(leq: Order, v: Json)
    ensures Canonicalize(leq, v) == Print(Deep(Printed(leq), v))
    decreases Size(v)
  {
    hide Quote;
    match v
    case Arr(items) => CanonicalItemsPrint(leq, items);
    case Obj(entries) => CanonicalEntriesPrint(leq, SortBy(leq, entries));
    case _ =>
  }

  lemma {:induction false} CanonicalItemsPrint(leq: Order, items: seq<Json>)
    ensures CanonicalItems(leq, items) == PrintItems(DeepItems(Printed(leq), items))
    decreases ItemsSize(items)
  {
    if items != [] {
      var deep := DeepItems(Printed(leq), items);
      assert deep[1..] == DeepItems(Printed(leq), items[1..]);
      CanonicalizePrints(leq, items[0]);
      CanonicalItemsPrint(leq, items[1..]);
      hide Canonicalize, Print, Deep;
    }
  }

  lemma {:induction false} CanonicalEntriesPrint(leq: Order, entries: seq<Entry>)
    ensures CanonicalEntries(leq, entries) == PrintEntries(DeepEntries(Printed(leq), entries))
    decreases EntriesSize(entries)
  {
    if entries != [] {
      var deep := DeepEntries(Printed(leq), entries);
      assert deep[1..] == DeepEntries(Printed(leq), entries[1..]);
      CanonicalizePrints(leq, entries[0].value);
      CanonicalEntriesPrint(leq, entries[1..]);
      hide Canonicalize, Print, Deep, Quote;
    }
  }

  // ---- What a value means -------------------------------------------------

  /** A JSON value as data: an object is a map, without any order. */
  datatype Value =
    | VNull
    | VBool(bit: bool)
    | VNum(token: Text)
    | VStr(text: Text)
    | VArr(items: seq<Value>)
    | VObj(fields: map<Text, Value>)

  function Meaning(v: Json): Value
    decreases v, 1
  {
    match v
    case Null => VNull
    case Bool(bit) => VBool(bit)
    case Num(token) => VNum(token)
    case Str(text) => VStr(text)
    case Arr(items) => VArr(ItemsMeaning(items))
    case Obj(entries) => VObj(EntriesMeaning(entries))
  }

  function ItemsMeaning(items: seq<Json>): (r: seq<Value>)
    ensures |r| == |items| && forall i :: 0 <= i < |r| ==> r[i] == Meaning(items[i])
    decreases items, 0
  {
    if items == [] then [] else [Meaning(items[0])] + ItemsMeaning(items[1..])
  }

  function EntriesMeaning(entries: seq<Entry>): map<Text, Value>
    decreases entries, 0
  {
    if entries == [] then map[] else EntriesMeaning(entries[1..])[entries[0].key := Meaning(entries[0].value)]
  }

  predicate HasKey(entries: seq<Entry>, key: Text) {
    exists i :: 0 <= i < |entries| && entries[i].key == key
  }

  lemma {:induction false} MeaningKeys(entries: seq<Entry>, key: Text)
    ensures key in EntriesMeaning(entries) <==> HasKey(entries, key)
  {
    if entries != [] {
      MeaningKeys(entries[1..], key);
      assert forall i :: 1 <= i < |entries| ==> entries[i] == entries[1..][i - 1];
      hide Meaning;
    }
  }

  lemma {:induction false} MeaningAt(entries: seq<Entry>, i: nat)
    requires DistinctKeys(entries) && i < |entries|
    ensures entries[i].key in EntriesMeaning(entries)
    ensures EntriesMeaning(entries)[entries[i].key] == Meaning(entries[i].value)
  {
    hide Meaning;
    if i > 0 {
      MeaningAt(entries[1..], i - 1);
    }
  }

  // ---- Sorting keeps the meaning ------------------------------------------

  lemma {:induction false} InsertPermutes(leq: Order, entry: Entry, sorted: seq<Entry>)
    ensures multiset(Insert(leq, entry, sorted)) == multiset([entry] + sorted)
  {
    if sorted != [] && !leq(entry.key, sorted[0].key) {
      InsertPermutes(leq, entry, sorted[1..]);
      assert sorted == [sorted[0]] + sorted[1..];
    }
  }

  lemma InsertKeeps(leq: Order, entry: Entry, sorted: seq<Entry>)
    requires DistinctKeys(sorted) && !HasKey(sorted, entry.key)
    ensures DistinctKeys(Insert(leq, entry, sorted))
    ensures EntriesMeaning(Insert(leq, entry, sorted)) == EntriesMeaning(sorted)[entry.key := Meaning(entry.value)]
  {
    InsertKeepsKeys(leq, entry, sorted);
    InsertMeans(leq, entry, sorted);
  }

  lemma {:induction false} InsertMeans(leq: Order, entry: Entry, sorted: seq<Entry>)
    requires !HasKey(sorted, entry.key)
    ensures EntriesMeaning(Insert(leq, entry, sorted)) == EntriesMeaning(sorted)[entry.key := Meaning(entry.value)]
  {
    hide Meaning;
    if sorted == [] || leq(entry.key, sorted[0].key) {
      assert ([entry] + sorted)[1..] == sorted;
    } else {
      assert forall i :: 0 <= i < |sorted[1..]| ==> sorted[1..][i] == sorted[i + 1];
      InsertMeans(leq, entry, sorted[1..]);
      var rest := Insert(leq, entry, sorted[1..]);
      assert ([sorted[0]] + rest)[1..] == rest;
    }
  }

  lemma {:induction false} InsertKeepsKeys(leq: Order, entry: Entry, sorted: seq<Entry>)
    requires DistinctKeys(sorted) && !HasKey(sorted, entry.key)
    ensures DistinctKeys(Insert(leq, entry, sorted))
  {
    if sorted != [] && !leq(entry.key, sorted[0].key) {
      var tail := sorted[1..];
      assert forall i :: 0 <= i < |tail| ==> tail[i] == sorted[i + 1];
      InsertKeepsKeys(leq, entry, tail);
      InsertPermutes(leq, entry, tail);
      var rest := Insert(leq, entry, tail);
      hide Insert;
      forall i | 0 <= i < |rest| ensures rest[i].key != sorted[0].key {
        assert rest[i] in multiset(rest);
        assert rest[i] in [entry] + tail;
      }
    }
  }

  lemma {:induction false} SortKeeps(leq: Order, entries: seq<Entry>)
    requires DistinctKeys(entries)
    ensures DistinctKeys(SortBy(leq, entries))
    ensures EntriesMeaning(SortBy(leq, entries)) == EntriesMeaning(entries)
    ensures multiset(SortBy(leq, entries)) == multiset(entries)
  {
    hide Meaning, Insert;
    if entries != [] {
      var rest := SortBy(leq, entries[1..]);
      SortKeeps(leq, entries[1..]);
      assert entries == [entries[0]] + entries[1..];
      forall i | 0 <= i < |rest| ensures rest[i].key != entries[0].key {
        assert rest[i] in multiset(rest);
        assert rest[i] in entries[1..];
      }
      InsertKeeps(leq, entries[0], rest);
      InsertPermutes(leq, entries[0], rest);
    }
  }

  lemma ArrangeKeeps(m: Arrangement, entries: seq<Entry>)
    requires DistinctKeys(entries)
    ensures DistinctKeys(Arrange(m, entries))
    ensures EntriesMeaning(Arrange(m, entries)) == EntriesMeaning(entries)
    ensures multiset(Arrange(m, entries)) == multiset(entries)
  {
    hide SortBy, EntriesMeaning;
    SortKeeps(m.leq, entries);
    SortKeeps(PropertyLeq, SortBy(m.leq, entries));
  }

  /** Rewriting objects in order keeps every value well formed and its meaning. */
  lemma {:induction false} DeepKeeps(m: Arrangement, v: Json)
    requires WellFormed(v)
    ensures WellFormed(Deep(m, v)) && Meaning(Deep(m, v)) == Meaning(v)
    decreases Size(v)
  {
    match v
    case Arr(items) =>
      forall i | 0 <= i < |items|
        ensures WellFormed(DeepItems(m, items)[i]) && Meaning(DeepItems(m, items)[i]) == Meaning(items[i])
      {
        DeepItemsAt(m, items, i);
        DeepKeeps(m, items[i]);
      }
      assert ItemsMeaning(DeepItems(m, items)) == ItemsMeaning(items);
    case Obj(entries) =>
      var arranged := Arrange(m, entries);
      ArrangeKeeps(m, entries);
      var deep := DeepEntries(m, arranged);
      forall i | 0 <= i < |arranged|
        ensures deep[i].key == arranged[i].key && WellFormed(deep[i].value) && Meaning(deep[i].value) == Meaning(arranged[i].value)
      {
        assert arranged[i] in multiset(arranged);
        assert arranged[i] in entries;
        DeepEntriesAt(m, arranged, i);
        DeepKeeps(m, arranged[i].value);
      }
      SameMeaning(deep, arranged);
    case _ =>
  }

  lemma {:induction false} SameMeaning(a: seq<Entry>, b: seq<Entry>)
    requires |a| == |b| && forall i :: 0 <= i < |a| ==> a[i].key == b[i].key && Meaning(a[i].value) == Meaning(b[i].value)
    ensures EntriesMeaning(a) == EntriesMeaning(b)
  {
    hide Meaning;
    if a != [] {
      SameMeaning(a[1..], b[1..]);
    }
  }

  /** The text of the canonical form determines what the value means, for any comparison whatsoever. */
  lemma CanonicalTextIsUnambiguous(leq: Order, v: Json, w: Json)
    requires WellFormed(v) && WellFormed(w) && Canonicalize(leq, v) == Canonicalize(leq, w)
    ensures Meaning(v) == Meaning(w)
  {
    CanonicalizePrints(leq, v);
    CanonicalizePrints(leq, w);
    DeepKeeps(Printed(leq), v);
    DeepKeeps(Printed(leq), w);
    PrintInjective(Deep(Printed(leq), v), Deep(Printed(leq), w));
  }

  // ---- The orders entries are put in --------------------------------------

  /** First by `major`, and where that ties by `minor`. */
  predicate Lex(major: Order, minor: Order, a: Text, b: Text) {
    major(a, b) && (major(b, a) ==> minor(a, b))
  }

  /** The order the arranged entries end up in, when property order is what the sort starts from. */
  predicate Precedes(m: Arrangement, a: Text, b: Text) {
    match m
    case Printed(leq) => Lex(leq, PropertyLeq, a, b)
    case Rebuilt(leq) => Lex(PropertyLeq, leq, a, b)
  }

  ghost predicate OrderedBy(leq: Order, entries: seq<Entry>) {
    forall i, j :: 0 <= i < j < |entries| ==> leq(entries[i].key, entries[j].key)
  }

  ghost predicate LexOrdered(major: Order, minor: Order, entries: seq<Entry>) {
    forall i, j :: 0 <= i < j < |entries| ==> Lex(major, minor, entries[i].key, entries[j].key)
  }

  ghost predicate Ordered(m: Arrangement, entries: seq<Entry>) {
    forall i, j :: 0 <= i < j < |entries| ==> Precedes(m, entries[i].key, entries[j].key)
  }

  /**
   * Every object lists its entries in property order, as `Object.entries` does: array-index keys
   * first and ascending, the others in any order.
   */
  ghost predicate Listed(v: Json) {
    match v
    case Arr(items) => forall i :: 0 <= i < |items| ==> Listed(items[i])
    case Obj(entries) => OrderedBy(PropertyLeq, entries) && forall i :: 0 <= i < |entries| ==> Listed(entries[i].value)
    case _ => true
  }

  /** Two keys that are no array indexes and that the comparison does not tell apart. */
  predicate Tied(leq: Order, a: Text, b: Text) {
    leq(a, b) && leq(b, a) && IndexKey(a).None? && IndexKey(b).None?
  }

  ghost predicate TieFree(leq: Order, entries: seq<Entry>) {
    forall i, j :: 0 <= i < |entries| && 0 <= j < |entries| && Tied(leq, entries[i].key, entries[j].key) ==> entries[i].key == entries[j].key
  }

  /** No object anywhere in the value has tied keys. */
  ghost predicate Settled(leq: Order, v: Json) {
    match v
    case Arr(items) => forall i :: 0 <= i < |items| ==> Settled(leq, items[i])
    case Obj(entries) => TieFree(leq, entries) && forall i :: 0 <= i < |entries| ==> Settled(leq, entries[i].value)
    case _ => true
  }

  lemma PropertyIsTotal()
    ensures TotalPreorder(PropertyLeq)
  {
    hide IndexKey;
  }

  lemma {:induction false} DigitsPositive(t: Text)
    requires AllDigits(t) && t != [] && t[0] != 0x30
    ensures DigitsValue(t) > 0
  {
    if |t| > 1 {
      DigitsPositive(t[..|t| - 1]);
    }
  }

  /** Digits without a leading zero are determined by their value. */
  lemma {:induction false} DigitsInjective(a: Text, b: Text)
    requires AllDigits(a) && AllDigits(b) && DigitsValue(a) == DigitsValue(b)
    requires (a != [] ==> a[0] != 0x30) && (b != [] ==> b[0] != 0x30)
    ensures a == b
  {
    if a == [] {
      if b != [] {
        DigitsPositive(b);
      }
    } else if b == [] {
      DigitsPositive(a);
    } else {
      var m, n := |a| - 1, |b| - 1;
      DigitsInjective(a[..m], b[..n]);
      assert a == a[..m] + [a[m]] && b == b[..n] + [b[n]];
    }
  }

  lemma IndexKeyInjective(a: Text, b: Text)
    requires IndexKey(a).Some? && IndexKey(a) == IndexKey(b)
    ensures a == b
  {
    if a[0] == 0x30 {
      ZeroIndex(a);
      if b[0] != 0x30 {
        DigitsPositive(b);
      }
    } else if b[0] == 0x30 {
      ZeroIndex(b);
      DigitsPositive(a);
    } else {
      DigitsInjective(a, b);
    }
  }

  lemma ZeroIndex(t: Text)
    requires |t| == 1 && t[0] == 0x30
    ensures t == [0x30] && DigitsValue(t) == 0
  {
    assert t[..0] == [];
  }

  /** Keys that precede each other both ways are equal or tied. */
  lemma BothWays(m: Arrangement, a: Text, b: Text)
    requires Precedes(m, a, b) && Precedes(m, b, a)
    ensures a == b || Tied(m.leq, a, b)
  {
    if IndexKey(a).Some? {
      IndexKeyInjective(a, b);
    }
    hide IndexKey;
  }

  lemma {:induction false} InsertOrders(leq: Order, entry: Entry, sorted: seq<Entry>)
    requires TotalPreorder(leq) && OrderedBy(leq, sorted)
    ensures OrderedBy(leq, Insert(leq, entry, sorted))
  {
    if sorted != [] && !leq(entry.key, sorted[0].key) {
      var tail := sorted[1..];
      InsertOrders(leq, entry, tail);
      InsertPermutes(leq, entry, tail);
      var rest := Insert(leq, entry, tail);
      hide Insert;
      forall i | 0 <= i < |rest| ensures leq(sorted[0].key, rest[i].key) {
        assert rest[i] in multiset(rest);
        assert rest[i] in [entry] + tail;
      }
    }
  }

  lemma {:induction false} SortOrders(leq: Order, entries: seq<Entry>)
    requires TotalPreorder(leq)
    ensures OrderedBy(leq, SortBy(leq, entries))
  {
    hide Insert;
    if entries != [] {
      SortOrders(leq, entries[1..]);
      InsertOrders(leq, entries[0], SortBy(leq, entries[1..]));
    }
  }

  lemma {:induction false} InsertLex(major: Order, minor: Order, entry: Entry, sorted: seq<Entry>)
    requires TotalPreorder(major) && LexOrdered(major, minor, sorted)
    requires forall i :: 0 <= i < |sorted| ==> minor(entry.key, sorted[i].key)
    ensures LexOrdered(major, minor, Insert(major, entry, sorted))
  {
    if sorted != [] && !major(entry.key, sorted[0].key) {
      var tail := sorted[1..];
      InsertLex(major, minor, entry, tail);
      InsertPermutes(major, entry, tail);
      var rest := Insert(major, entry, tail);
      hide Insert;
      forall i | 0 <= i < |rest| ensures Lex(major, minor, sorted[0].key, rest[i].key) {
        assert rest[i] in multiset(rest);
        assert rest[i] in [entry] + tail;
      }
    }
  }

  /** Sorting stably by one order a list in another order leaves it in both. */
  lemma {:induction false} SortLex(major: Order, minor: Order, entries: seq<Entry>)
    requires TotalPreorder(major) && OrderedBy(minor, entries)
    ensures LexOrdered(major, minor, SortBy(major, entries))
    ensures multiset(SortBy(major, entries)) == multiset(entries)
  {
    hide Insert, Lex;
    if entries != [] {
      var tail := entries[1..];
      SortLex(major, minor, tail);
      var rest := SortBy(major, tail);
      assert entries == [entries[0]] + tail;
      forall i | 0 <= i < |rest| ensures minor(entries[0].key, rest[i].key) {
        assert rest[i] in multiset(rest);
        assert rest[i] in tail;
      }
      InsertLex(major, minor, entries[0], rest);
      InsertPermutes(major, entries[0], rest);
    }
  }

  lemma ArrangeOrders(m: Arrangement, entries: seq<Entry>)
    requires TotalPreorder(m.leq) && (m.Printed? ==> OrderedBy(PropertyLeq, entries))
    ensures Ordered(m, Arrange(m, entries))
  {
    hide SortBy, PropertyLeq, Lex;
    match m
    case Printed(leq) => SortLex(leq, PropertyLeq, entries);
    case Rebuilt(leq) =>
      SortOrders(leq, entries);
      PropertyIsTotal();
      SortLex(PropertyLeq, leq, SortBy(leq, entries));
  }

  // ---- One form per meaning -----------------------------------------------

  /** Two ordered lists without ties that mean the same object hold the same keys in the same places. */
  lemma {:induction false} OrderedAlign(m: Arrangement, a: seq<Entry>, b: seq<Entry>)
    requires DistinctKeys(a) && DistinctKeys(b) && EntriesMeaning(a) == EntriesMeaning(b)
    requires Ordered(m, a) && Ordered(m, b) && TieFree(m.leq, a)
    ensures |a| == |b|
    ensures forall i :: 0 <= i < |a| ==> a[i].key == b[i].key && Meaning(a[i].value) == Meaning(b[i].value)
  {
    hide Meaning, Precedes, Tied;
    if a == [] {
      if b != [] {
        MeaningAt(b, 0);
        assert false;
      }
    } else if b == [] {
      MeaningAt(a, 0);
      assert false;
    } else {
      MeaningAt(a, 0);
      MeaningAt(b, 0);
      HeadsAgree(m, a, b);
      TailMeaning(a);
      TailMeaning(b);
      OrderedAlign(m, a[1..], b[1..]);
      assert forall i :: 1 <= i < |a| ==> a[i] == a[1..][i - 1] && b[i] == b[1..][i - 1];
    }
  }

  lemma HeadsAgree(m: Arrangement, a: seq<Entry>, b: seq<Entry>)
    requires a != [] && b != [] && EntriesMeaning(a) == EntriesMeaning(b)
    requires Ordered(m, a) && Ordered(m, b) && TieFree(m.leq, a)
    ensures a[0].key == b[0].key
  {
    hide Meaning, Precedes, Tied, EntriesMeaning;
    MeaningKeys(a, a[0].key);
    MeaningKeys(b, a[0].key);
    MeaningKeys(b, b[0].key);
    MeaningKeys(a, b[0].key);
    var i :| 0 <= i < |b| && b[i].key == a[0].key;
    var j :| 0 <= j < |a| && a[j].key == b[0].key;
    if i > 0 && j > 0 {
      assert Precedes(m, a[0].key, a[j].key) && Precedes(m, b[0].key, b[i].key);
      BothWays(m, a[0].key, a[j].key);
    }
  }

  lemma TailMeaning(a: seq<Entry>)
    requires a != [] && DistinctKeys(a)
    ensures EntriesMeaning(a[1..]) == EntriesMeaning(a) - {a[0].key}
  {
    hide Meaning;
    MeaningKeys(a[1..], a[0].key);
    assert forall i :: 0 <= i < |a[1..]| ==> a[1..][i] == a[i + 1];
  }

  lemma MultisetTieFree(leq: Order, a: seq<Entry>, b: seq<Entry>)
    requires multiset(a) == multiset(b)
    ensures TieFree(leq, a) ==> TieFree(leq, b)
  {
    hide Tied;
    forall i | 0 <= i < |b| ensures exists k :: 0 <= k < |a| && a[k] == b[i] {
      assert b[i] in multiset(b);
      assert b[i] in a;
    }
  }

  /** Without tied keys, the canonical form is determined by the meaning. */
  lemma {:induction false} DeepByMeaning(m: Arrangement, v: Json, w: Json)
    requires TotalPreorder(m.leq) && WellFormed(v) && WellFormed(w) && Settled(m.leq, v)
    requires m.Printed? ==> Listed(v) && Listed(w)
    requires Meaning(v) == Meaning(w)
    ensures Deep(m, v) == Deep(m, w)
    decreases Size(v)
  {
    match v
    case Arr(items) =>
      forall i | 0 <= i < |items| ensures DeepItems(m, items)[i] == DeepItems(m, w.items)[i] {
        DeepItemsAt(m, items, i);
        DeepItemsAt(m, w.items, i);
        assert Meaning(items[i]) == ItemsMeaning(items)[i] == ItemsMeaning(w.items)[i] == Meaning(w.items[i]);
        DeepByMeaning(m, items[i], w.items[i]);
      }
      assert |ItemsMeaning(items)| == |ItemsMeaning(w.items)|;
      assert DeepItems(m, items) == DeepItems(m, w.items);
    case Obj(entries) =>
      var a, b := Arrange(m, entries), Arrange(m, w.entries);
      ArrangedAlign(m, entries, w.entries);
      hide Arrange, EntriesMeaning, OrderedBy, TieFree;
      forall i | 0 <= i < |a| ensures DeepEntries(m, a)[i] == DeepEntries(m, b)[i] {
        DeepEntriesAt(m, a, i);
        DeepEntriesAt(m, b, i);
        ArrangedFit(m, entries, i);
        ArrangedFit(m, w.entries, i);
        DeepByMeaning(m, a[i].value, b[i].value);
      }
      assert DeepEntries(m, a) == DeepEntries(m, b);
    case _ =>
  }

  /** Objects of one meaning are arranged with equal keys and meanings at equal places. */
  lemma ArrangedAlign(m: Arrangement, entries: seq<Entry>, others: seq<Entry>)
    requires TotalPreorder(m.leq) && DistinctKeys(entries) && DistinctKeys(others) && TieFree(m.leq, entries)
    requires m.Printed? ==> OrderedBy(PropertyLeq, entries) && OrderedBy(PropertyLeq, others)
    requires EntriesMeaning(entries) == EntriesMeaning(others)
    ensures |Arrange(m, entries)| == |Arrange(m, others)|
    ensures forall i :: 0 <= i < |Arrange(m, entries)| ==>
              Arrange(m, entries)[i].key == Arrange(m, others)[i].key
              && Meaning(Arrange(m, entries)[i].value) == Meaning(Arrange(m, others)[i].value)
  {
    hide Arrange, EntriesMeaning, Ordered, OrderedBy, TieFree, Meaning;
    ArrangeKeeps(m, entries);
    ArrangeKeeps(m, others);
    ArrangeOrders(m, entries);
    ArrangeOrders(m, others);
    MultisetTieFree(m.leq, entries, Arrange(m, entries));
    OrderedAlign(m, Arrange(m, entries), Arrange(m, others));
  }

  /** Arranged values are values of the object. */
  lemma ArrangedFit(m: Arrangement, entries: seq<Entry>, i: nat)
    requires DistinctKeys(entries) && i < |Arrange(m, entries)|
    ensures (forall k :: 0 <= k < |entries| ==> WellFormed(entries[k].value)) ==> WellFormed(Arrange(m, entries)[i].value)
    ensures (forall k :: 0 <= k < |entries| ==> Settled(m.leq, entries[k].value)) ==> Settled(m.leq, Arrange(m, entries)[i].value)
    ensures (forall k :: 0 <= k < |entries| ==> Listed(entries[k].value)) ==> Listed(Arrange(m, entries)[i].value)
  {
    ArrangeKeeps(m, entries);
    hide Arrange, WellFormed, Settled, Listed, EntriesMeaning;
    assert Arrange(m, entries)[i] in multiset(Arrange(m, entries));
    assert Arrange(m, entries)[i] in entries;
  }

  lemma ArrangedWellFormed(entries: seq<Entry>, arranged: seq<Entry>, i: nat)
    requires multiset(arranged) == multiset(entries) && i < |arranged|
    requires forall k :: 0 <= k < |entries| ==> WellFormed(entries[k].value)
    ensures WellFormed(arranged[i].value)
  {
    assert arranged[i] in multiset(arranged);
    assert arranged[i] in entries;
  }

  /** The canonical text is a complete invariant of the data wherever the comparison ties no two keys of an object. */
  lemma CanonicalTextIsComplete(leq: Order, v: Json, w: Json)
    requires TotalPreorder(leq) && WellFormed(v) && WellFormed(w) && Listed(v) && Listed(w) && Settled(leq, v)
    ensures Canonicalize(leq, v) == Canonicalize(leq, w) <==> Meaning(v) == Meaning(w)
  {
    if Meaning(v) == Meaning(w) {
      DeepByMeaning(Printed(leq), v, w);
      CanonicalizePrints(leq, v);
      CanonicalizePrints(leq, w);
    } else if Canonicalize(leq, v) == Canonicalize(leq, w) {
      CanonicalTextIsUnambiguous(leq, v, w);
    }
  }

  /** So is the rebuilt canonical value. */
  lemma CanonicalValueIsComplete(leq: Order, v: Json, w: Json)
    requires TotalPreorder(leq) && WellFormed(v) && WellFormed(w) && Settled(leq, v)
    ensures CanonicalValue(leq, v) == CanonicalValue(leq, w) <==> Meaning(v) == Meaning(w)
  {
    DeepKeeps(Rebuilt(leq), v);
    DeepKeeps(Rebuilt(leq), w);
    if Meaning(v) == Meaning(w) {
      DeepByMeaning(Rebuilt(leq), v, w);
    }
  }

  // ---- Stability ----------------------------------------------------------

  lemma {:induction false} InsertPosition(leq: Order, entry: Entry, sorted: seq<Entry>) returns (k: nat)
    ensures k <= |sorted| && Insert(leq, entry, sorted) == sorted[..k] + [entry] + sorted[k..]
    ensures forall i :: 0 <= i < k ==> !leq(entry.key, sorted[i].key)
  {
    if sorted == [] || leq(entry.key, sorted[0].key) {
      k := 0;
    } else {
      k := InsertPosition(leq, entry, sorted[1..]);
      assert sorted[..k + 1] == [sorted[0]] + sorted[1..][..k] && sorted[k + 1..] == sorted[1..][k..];
      assert forall i :: 1 <= i < k + 1 ==> sorted[i] == sorted[1..][i - 1];
      k := k + 1;
    }
  }

  lemma Find(entries: seq<Entry>, arranged: seq<Entry>, i: nat) returns (p: nat)
    requires multiset(arranged) == multiset(entries) && i < |entries|
    ensures p < |arranged| && arranged[p] == entries[i]
  {
    assert entries[i] in multiset(entries);
    assert entries[i] in arranged;
    p :| 0 <= p < |arranged| && arranged[p] == entries[i];
  }

  /** The sort is stable: an entry that may precede a later one still comes before it. */
  lemma {:induction false} SortBefore(leq: Order, entries: seq<Entry>, i: nat, j: nat) returns (p: nat, q: nat)
    requires i < j < |entries| && DistinctKeys(entries) && leq(entries[i].key, entries[j].key)
    ensures p < q < |SortBy(leq, entries)|
    ensures SortBy(leq, entries)[p] == entries[i] && SortBy(leq, entries)[q] == entries[j]
  {
    hide Insert;
    var tail := entries[1..];
    var rest := SortBy(leq, tail);
    var k := InsertPosition(leq, entries[0], rest);
    if i == 0 {
      SortKeeps(leq, tail);
      q := Find(tail, rest, j - 1);
      p, q := k, q + 1;
    } else {
      p, q := SortBefore(leq, tail, i - 1, j - 1);
      p, q := if p < k then p else p + 1, if q < k then q else q + 1;
    }
  }

  /** So is the arrangement, through both of its sorts. */
  lemma ArrangeBefore(m: Arrangement, entries: seq<Entry>, i: nat, j: nat) returns (p: nat, q: nat)
    requires i < j < |entries| && DistinctKeys(entries) && m.leq(entries[i].key, entries[j].key)
    requires m.Rebuilt? ==> PropertyLeq(entries[i].key, entries[j].key)
    ensures p < q < |Arrange(m, entries)| && Arrange(m, entries)[p] == entries[i] && Arrange(m, entries)[q] == entries[j]
  {
    hide SortBy, PropertyLeq;
    p, q := SortBefore(m.leq, entries, i, j);
    if m.Rebuilt? {
      SortKeeps(m.leq, entries);
      p, q := SortBefore(PropertyLeq, SortBy(m.leq, entries), p, q);
    }
  }

  // ---- Rebuilding twice ---------------------------------------------------

  /** `y` comes somewhere after `x`. */
  ghost predicate Follows(list: seq<Entry>, x: Entry, y: Entry) {
    exists p, q :: 0 <= p < q < |list| && list[p] == x && list[q] == y
  }

  ghost predicate KeepsPlaces(a: seq<Entry>, b: seq<Entry>) {
    forall i, j :: 0 <= i < j < |a| ==> Follows(b, a[i], a[j])
  }

  lemma NothingFollowsHead(b: seq<Entry>, x: Entry)
    requires b != [] && DistinctKeys(b)
    ensures !Follows(b, x, b[0])
  {
  }

  lemma FollowsInTail(b: seq<Entry>, x: Entry, y: Entry)
    requires b != [] && x.key != b[0].key && Follows(b, x, y)
    ensures Follows(b[1..], x, y)
  {
    var p, q :| 0 <= p < q < |b| && b[p] == x && b[q] == y;
    assert b[1..][p - 1] == x && b[1..][q - 1] == y;
  }

  /** A permutation that keeps every pair in its order is no permutation at all. */
  lemma {:induction false} SamePlaces(a: seq<Entry>, b: seq<Entry>)
    requires multiset(a) == multiset(b) && DistinctKeys(a) && DistinctKeys(b) && KeepsPlaces(a, b)
    ensures a == b
  {
    assert |multiset(a)| == |a| && |multiset(b)| == |b|;
    if a != [] {
      SameHead(a, b);
      SameTail(a, b);
      TailKeepsPlaces(a, b);
      hide KeepsPlaces;
      DistinctTail(a);
      DistinctTail(b);
      SamePlaces(a[1..], b[1..]);
      assert a == [a[0]] + a[1..] && b == [b[0]] + b[1..];
    }
  }

  lemma DistinctTail(a: seq<Entry>)
    requires a != [] && DistinctKeys(a)
    ensures DistinctKeys(a[1..])
  {
  }

  lemma SameHead(a: seq<Entry>, b: seq<Entry>)
    requires multiset(a) == multiset(b) && DistinctKeys(b) && KeepsPlaces(a, b) && a != [] && b != []
    ensures a[0] == b[0]
  {
    hide Follows;
    var k := Find(b, a, 0);
    NothingFollowsHead(b, a[0]);
    if k > 0 {
      assert false;
    }
  }

  lemma SameTail(a: seq<Entry>, b: seq<Entry>)
    requires a != [] && b != [] && a[0] == b[0] && multiset(a) == multiset(b)
    ensures multiset(a[1..]) == multiset(b[1..])
  {
    assert a == [a[0]] + a[1..] && b == [b[0]] + b[1..];
    assert multiset(a[1..]) == multiset(a) - multiset{a[0]} && multiset(b[1..]) == multiset(b) - multiset{b[0]};
  }

  lemma TailKeepsPlaces(a: seq<Entry>, b: seq<Entry>)
    requires a != [] && b != [] && a[0] == b[0] && DistinctKeys(a) && KeepsPlaces(a, b)
    ensures KeepsPlaces(a[1..], b[1..])
  {
    hide Follows;
    forall i, j | 0 <= i < j < |a[1..]| ensures Follows(b[1..], a[1..][i], a[1..][j]) {
      FollowsInTail(b, a[i + 1], a[j + 1]);
    }
  }

  /** Entries in the rebuilt order stay where they are. */
  lemma ArrangedStays(leq: Order, entries: seq<Entry>)
    requires TotalPreorder(leq) && DistinctKeys(entries) && Ordered(Rebuilt(leq), entries)
    ensures Arrange(Rebuilt(leq), entries) == entries
  {
    var m := Rebuilt(leq);
    var again := Arrange(m, entries);
    ArrangeKeeps(m, entries);
    ArrangeOrders(m, entries);
    hide Arrange, EntriesMeaning;
    forall i, j | 0 <= i < j < |entries| ensures Follows(again, entries[i], entries[j]) {
      PairStays(leq, entries, again, i, j);
    }
    SamePlaces(entries, again);
  }

  lemma PairStays(leq: Order, entries: seq<Entry>, again: seq<Entry>, i: nat, j: nat)
    requires TotalPreorder(leq) && DistinctKeys(entries) && Ordered(Rebuilt(leq), entries) && i < j < |entries|
    requires again == Arrange(Rebuilt(leq), entries) && Ordered(Rebuilt(leq), again) && multiset(again) == multiset(entries)
    ensures Follows(again, entries[i], entries[j])
  {
    var m := Rebuilt(leq);
    var x, y := entries[i].key, entries[j].key;
    assert Precedes(m, x, y);
    hide Arrange, IndexKey, PropertyLeq;
    if PropertyLeq(y, x) {
      var p, q := ArrangeBefore(m, entries, i, j);
    } else {
      var p := Find(entries, again, i);
      var q := Find(entries, again, j);
      assert x != y;
      if q < p {
        assert false;
      }
    }
  }

  /** Rewritten entries have the keys they had. */
  lemma DeepEntriesKeys(m: Arrangement, entries: seq<Entry>)
    ensures DistinctKeys(entries) ==> DistinctKeys(DeepEntries(m, entries))
    ensures Ordered(m, entries) ==> Ordered(m, DeepEntries(m, entries))
  {
    hide Deep, Precedes;
    forall i | 0 <= i < |entries| ensures DeepEntries(m, entries)[i].key == entries[i].key {
      DeepEntriesAt(m, entries, i);
    }
    hide DeepEntries;
  }

  /** Rebuilding twice changes nothing, whatever ties. */
  lemma {:induction false} CanonicalValueIsIdempotent(leq: Order, v: Json)
    requires TotalPreorder(leq) && WellFormed(v)
    ensures CanonicalValue(leq, CanonicalValue(leq, v)) == CanonicalValue(leq, v)
    decreases Size(v)
  {
    var m := Rebuilt(leq);
    match v
    case Arr(items) =>
      var deep := DeepItems(m, items);
      forall i | 0 <= i < |items| ensures DeepItems(m, deep)[i] == deep[i] {
        DeepItemsAt(m, items, i);
        DeepItemsAt(m, deep, i);
        CanonicalValueIsIdempotent(leq, items[i]);
      }
      assert DeepItems(m, deep) == deep;
    case Obj(entries) =>
      var arranged := Arrange(m, entries);
      var deep := DeepEntries(m, arranged);
      ArrangeKeeps(m, entries);
      ArrangeOrders(m, entries);
      DeepEntriesKeys(m, arranged);
      ArrangedStays(leq, deep);
      hide Arrange, EntriesMeaning, Ordered;
      forall i | 0 <= i < |arranged| ensures DeepEntries(m, deep)[i] == deep[i] {
        DeepEntriesAt(m, arranged, i);
        DeepEntriesAt(m, deep, i);
        ArrangedWellFormed(entries, arranged, i);
        CanonicalValueIsIdempotent(leq, arranged[i].value);
      }
      assert DeepEntries(m, deep) == deep;
    case _ =>
  }

  /** A rebuilt value is listed in property order. */
  lemma {:induction false} CanonicalValueIsListed(leq: Order, v: Json)
    requires WellFormed(v)
    ensures Listed(CanonicalValue(leq, v))
    decreases Size(v)
  {
    var m := Rebuilt(leq);
    match v
    case Arr(items) =>
      forall i | 0 <= i < |items| ensures Listed(DeepItems(m, items)[i]) {
        DeepItemsAt(m, items, i);
        CanonicalValueIsListed(leq, items[i]);
      }
      assert CanonicalValue(leq, v) == Arr(DeepItems(m, items));
    case Obj(entries) =>
      var arranged := Arrange(m, entries);
      var deep := DeepEntries(m, arranged);
      ArrangeKeeps(m, entries);
      PropertyIsTotal();
      SortOrders(PropertyLeq, SortBy(leq, entries));
      assert CanonicalValue(leq, v) == Obj(deep);
      hide Arrange, EntriesMeaning, PropertyLeq, Deep;
      forall i | 0 <= i < |arranged| ensures deep[i].key == arranged[i].key && Listed(deep[i].value) {
        DeepEntriesAt(m, arranged, i);
        ArrangedWellFormed(entries, arranged, i);
        CanonicalValueIsListed(leq, arranged[i].value);
      }
      assert Listed(Obj(deep));
    case _ =>
  }

  // ---- Ties make the form depend on entry order ---------------------------

  function Swapped(entries: seq<Entry>, i: nat, j: nat): seq<Entry>
    requires i < j < |entries|
  {
    entries[i := entries[j]][j := entries[i]]
  }

  /** Where the entry at a place stands after the swap. */
  function Partner(i: nat, j: nat, k: nat): nat {
    if k == i then j else if k == j then i else k
  }

  lemma SwappedAt(entries: seq<Entry>, i: nat, j: nat, k: nat)
    requires i < j < |entries| && k < |entries|
    ensures Partner(i, j, k) < |entries| == |Swapped(entries, i, j)|
    ensures Swapped(entries, i, j)[k] == entries[Partner(i, j, k)] && entries[k] == Swapped(entries, i, j)[Partner(i, j, k)]
  {
  }

  lemma SwapDistinct(entries: seq<Entry>, i: nat, j: nat)
    requires i < j < |entries| && DistinctKeys(entries)
    ensures DistinctKeys(Swapped(entries, i, j))
  {
    var swapped := Swapped(entries, i, j);
    forall k, l | 0 <= k < l < |swapped| ensures swapped[k].key != swapped[l].key {
      SwappedAt(entries, i, j, k);
      SwappedAt(entries, i, j, l);
      assert Partner(i, j, k) != Partner(i, j, l);
      hide Swapped, Partner;
    }
  }

  lemma SwapKeeps(entries: seq<Entry>, i: nat, j: nat)
    requires i < j < |entries| && DistinctKeys(entries)
    ensures DistinctKeys(Swapped(entries, i, j)) && EntriesMeaning(Swapped(entries, i, j)) == EntriesMeaning(entries)
  {
    var swapped := Swapped(entries, i, j);
    SwapDistinct(entries, i, j);
    hide Meaning, EntriesMeaning, Swapped, Partner;
    forall key ensures key in EntriesMeaning(swapped) <==> key in EntriesMeaning(entries) {
      MeaningKeys(swapped, key);
      MeaningKeys(entries, key);
      SwapHasKey(entries, i, j, key);
    }
    forall key | key in EntriesMeaning(entries) ensures EntriesMeaning(swapped)[key] == EntriesMeaning(entries)[key] {
      MeaningKeys(entries, key);
      var k :| 0 <= k < |entries| && entries[k].key == key;
      SwappedAt(entries, i, j, k);
      MeaningAt(entries, k);
      MeaningAt(swapped, Partner(i, j, k));
    }
  }

  lemma SwapHasKey(entries: seq<Entry>, i: nat, j: nat, key: Text)
    requires i < j < |entries|
    ensures HasKey(Swapped(entries, i, j), key) <==> HasKey(entries, key)
  {
    var swapped := Swapped(entries, i, j);
    hide Swapped, Partner;
    if HasKey(swapped, key) {
      var k :| 0 <= k < |swapped| && swapped[k].key == key;
      SwappedAt(entries, i, j, 0);
      SwappedAt(entries, i, j, k);
    }
    if HasKey(entries, key) {
      var k :| 0 <= k < |entries| && entries[k].key == key;
      SwappedAt(entries, i, j, k);
    }
  }

  lemma SwapListed(entries: seq<Entry>, i: nat, j: nat)
    requires i < j < |entries| && IndexKey(entries[i].key).None? && IndexKey(entries[j].key).None?
    requires OrderedBy(PropertyLeq, entries)
    ensures OrderedBy(PropertyLeq, Swapped(entries, i, j))
  {
    hide IndexKey;
    assert forall k :: i <= k < |entries| ==> PropertyLeq(entries[i].key, entries[k].key);
    assert forall k :: i <= k < |entries| ==> IndexKey(entries[k].key).None?;
  }

  /** Equal rewritten objects put equal keys at equal places. */
  lemma DeepKeysAgree(m: Arrangement, a: seq<Entry>, b: seq<Entry>, p: nat)
    requires DeepEntries(m, a) == DeepEntries(m, b) && p < |a|
    ensures p < |b| && a[p].key == b[p].key && Deep(m, a[p].value) == Deep(m, b[p].value)
  {
    DeepEntriesAt(m, a, p);
    DeepEntriesAt(m, b, p);
  }

  lemma CrossedDiffer(m: Arrangement, a: seq<Entry>, b: seq<Entry>, p: nat, q: nat, r: nat, t: nat)
    requires DistinctKeys(a) && p < q < |a| && r < t < |b| && b[r] == a[q] && b[t] == a[p]
    ensures DeepEntries(m, a) != DeepEntries(m, b)
  {
    hide DeepEntries, Deep;
    if DeepEntries(m, a) == DeepEntries(m, b) {
      assert |a| == |DeepEntries(m, a)| == |b|;
      DeepKeysAgree(m, a, b, r);
      DeepKeysAgree(m, a, b, t);
      assert false;
    }
  }

  lemma TiedKeysReorder(m: Arrangement, entries: seq<Entry>, i: nat, j: nat)
    requires i < j < |entries| && DistinctKeys(entries) && Tied(m.leq, entries[i].key, entries[j].key)
    ensures Deep(m, Obj(Swapped(entries, i, j))) != Deep(m, Obj(entries))
  {
    var swapped := Swapped(entries, i, j);
    TiedInProperty(m.leq, entries[i].key, entries[j].key);
    SwapKeeps(entries, i, j);
    hide Arrange, EntriesMeaning, IndexKey, PropertyLeq, DistinctKeys, DeepEntries;
    ArrangeKeeps(m, entries);
    var p, q := ArrangeBefore(m, entries, i, j);
    var r, t := ArrangeBefore(m, swapped, i, j);
    CrossedDiffer(m, Arrange(m, entries), Arrange(m, swapped), p, q, r, t);
  }

  lemma TiedInProperty(leq: Order, a: Text, b: Text)
    requires Tied(leq, a, b)
    ensures PropertyLeq(a, b) && PropertyLeq(b, a)
  {
    hide IndexKey;
  }

  lemma ArrangedDiffer(m: Arrangement, a: seq<Entry>, b: seq<Entry>, p: nat, q: nat)
    requires p < |a| && q < |b| && DistinctKeys(b) && a[p].key == b[q].key && Deep(m, a[p].value) != Deep(m, b[q].value)
    ensures DeepEntries(m, a) != DeepEntries(m, b)
  {
    hide Deep, DeepEntries;
    if DeepEntries(m, a) == DeepEntries(m, b) {
      DeepKeysAgree(m, a, b, p);
      assert false;
    }
  }

  /** Rewriting one entry's value differently rewrites the object differently. */
  lemma ChildDiffers(m: Arrangement, entries: seq<Entry>, i: nat, value: Json)
    requires i < |entries| && DistinctKeys(entries) && Deep(m, value) != Deep(m, entries[i].value)
    ensures Deep(m, Obj(entries[i := Entry(entries[i].key, value)])) != Deep(m, Obj(entries))
  {
    var changed := entries[i := Entry(entries[i].key, value)];
    var a, b := Arrange(m, entries), Arrange(m, changed);
    ArrangeKeeps(m, entries);
    ArrangeKeeps(m, changed);
    var p := Find(entries, a, i);
    var q := Find(changed, b, i);
    hide Arrange, DeepEntries, EntriesMeaning, DistinctKeys;
    ArrangedDiffer(m, a, b, p, q);
  }

  lemma ItemDiffers(m: Arrangement, items: seq<Json>, i: nat, item: Json)
    requires i < |items| && Deep(m, item) != Deep(m, items[i]) && Meaning(item) == Meaning(items[i])
    ensures Deep(m, Arr(items[i := item])) != Deep(m, Arr(items))
    ensures Meaning(Arr(items[i := item])) == Meaning(Arr(items))
  {
    DeepItemsAt(m, items, i);
    DeepItemsAt(m, items[i := item], i);
    assert ItemsMeaning(items[i := item]) == ItemsMeaning(items);
  }

  lemma TiedPair(leq: Order, entries: seq<Entry>) returns (i: nat, j: nat)
    requires !TieFree(leq, entries)
    ensures i < j < |entries| && Tied(leq, entries[i].key, entries[j].key)
  {
    hide IndexKey;
    i, j :| 0 <= i < |entries| && 0 <= j < |entries| && Tied(leq, entries[i].key, entries[j].key) && entries[i].key != entries[j].key;
    i, j := if i < j then i else j, if i < j then j else i;
  }

  lemma TiedObjectReorders(m: Arrangement, entries: seq<Entry>) returns (w: seq<Entry>)
    requires DistinctKeys(entries) && OrderedBy(PropertyLeq, entries) && !TieFree(m.leq, entries)
    requires forall i :: 0 <= i < |entries| ==> WellFormed(entries[i].value) && Listed(entries[i].value)
    ensures WellFormed(Obj(w)) && Listed(Obj(w)) && Meaning(Obj(w)) == Meaning(Obj(entries))
    ensures Deep(m, Obj(w)) != Deep(m, Obj(entries))
  {
    var i, j := TiedPair(m.leq, entries);
    SwapKeeps(entries, i, j);
    SwapListed(entries, i, j);
    TiedKeysReorder(m, entries, i, j);
    w := Swapped(entries, i, j);
    hide Deep, EntriesMeaning, PropertyLeq, IndexKey, OrderedBy, TieFree, Tied, DistinctKeys, Swapped, Partner;
    forall k | 0 <= k < |w| ensures WellFormed(w[k].value) && Listed(w[k].value) {
      SwappedAt(entries, i, j, 0);
      SwappedAt(entries, i, j, k);
    }
  }

  /** A value with tied keys has a reordering that an object may list, that means the same and that is rewritten differently. */
  lemma {:induction false} TiesReorder(m: Arrangement, v: Json) returns (w: Json)
    requires WellFormed(v) && Listed(v) && !Settled(m.leq, v)
    ensures WellFormed(w) && Listed(w) && Meaning(w) == Meaning(v) && Deep(m, w) != Deep(m, v)
    decreases Size(v)
  {
    hide Deep, Meaning, TieFree, PropertyLeq;
    if v.Arr? {
      var i :| 0 <= i < |v.items| && !Settled(m.leq, v.items[i]);
      DeepItemsAt(m, v.items, i);
      var x := TiesReorder(m, v.items[i]);
      ItemDiffers(m, v.items, i, x);
      w := Arr(v.items[i := x]);
    } else if TieFree(m.leq, v.entries) {
      var i :| 0 <= i < |v.entries| && !Settled(m.leq, v.entries[i].value);
      DeepEntriesAt(m, v.entries, i);
      var x := TiesReorder(m, v.entries[i].value);
      ChildDiffers(m, v.entries, i, x);
      SameObject(v.entries, i, x);
      w := Obj(v.entries[i := Entry(v.entries[i].key, x)]);
    } else {
      var entries := TiedObjectReorders(m, v.entries);
      w := Obj(entries);
    }
  }

  lemma SameObject(entries: seq<Entry>, i: nat, value: Json)
    requires i < |entries| && Meaning(value) == Meaning(entries[i].value)
    ensures Meaning(Obj(entries[i := Entry(entries[i].key, value)])) == Meaning(Obj(entries))
  {
    SameMeaning(entries[i := Entry(entries[i].key, value)], entries);
  }

  /**
   * Exactly when a value has one canonical text: all values with the same meaning, their objects
   * listed in property order, print alike if and only if the comparison ties no two keys of any object
   * other than array indexes.
   */
  lemma CanonicalTextExactlyWhenSettled(leq: Order, v: Json)
    requires TotalPreorder(leq) && WellFormed(v) && Listed(v)
    ensures Settled(leq, v) <==>
            forall w :: WellFormed(w) && Listed(w) && Meaning(w) == Meaning(v) ==> Canonicalize(leq, w) == Canonicalize(leq, v)
  {
    hide Settled, Listed, Meaning, Canonicalize, WellFormed;
    if Settled(leq, v) {
      forall w | WellFormed(w) && Listed(w) && Meaning(w) == Meaning(v) ensures Canonicalize(leq, w) == Canonicalize(leq, v) {
        CanonicalTextIsComplete(leq, v, w);
      }
    } else {
      var w := TiesReorder(Printed(leq), v);
      CanonicalizePrints(leq, v);
      CanonicalizePrints(leq, w);
      DeepKeeps(Printed(leq), v);
      DeepKeeps(Printed(leq), w);
      if Canonicalize(leq, w) == Canonicalize(leq, v) {
        PrintInjective(Deep(Printed(leq), w), Deep(Printed(leq), v));
      }
    }
  }

  /** And exactly when it has one rebuilt value, under the same condition. */
  lemma CanonicalValueExactlyWhenSettled(leq: Order, v: Json)
    requires TotalPreorder(leq) && WellFormed(v) && Listed(v)
    ensures Settled(leq, v) <==>
            forall w :: WellFormed(w) && Listed(w) && Meaning(w) == Meaning(v) ==> CanonicalValue(leq, w) == CanonicalValue(leq, v)
  {
    hide Settled, Listed, Meaning, WellFormed, Deep;
    if Settled(leq, v) {
      forall w | WellFormed(w) && Listed(w) && Meaning(w) == Meaning(v) ensures CanonicalValue(leq, w) == CanonicalValue(leq, v) {
        CanonicalValueIsComplete(leq, v, w);
      }
    } else {
      var w := TiesReorder(Rebuilt(leq), v);
    }
  }

  /** An array index and another key may tie under the comparison; their order is fixed all the same. */
  lemma IndexTiesSettle(leq: Order, a: Text, b: Text, x: Json, y: Json)
    requires TotalPreorder(leq) && a != b && leq(a, b) && leq(b, a) && IndexKey(a).Some? && Settled(leq, x) && Settled(leq, y)
    ensures Settled(leq, Obj([Entry(a, x), Entry(b, y)]))
  {
    hide IndexKey;
  }
}
