/** Keyed lists of facts: when two lists hold the same facts, and sorting and summing them. */
module Facts {

  ghost predicate NoRepeats<A, K>(facts: seq<A>, key: A -> K) {
    forall i, j :: 0 <= i < j < |facts| ==> key(facts[i]) != key(facts[j])
  }

  /** `new Map` over the facts by key: a later fact replaces an earlier one with its key. */
  function ByKey<A, K>(facts: seq<A>, key: A -> K): map<K, A> {
    if facts == [] then map[] else
      var n := |facts| - 1;
      ByKey(facts[..n], key)[key(facts[n]) := facts[n]]
  }

  function Count<A, K(==)>(facts: seq<A>, key: A -> K, k: K): nat {
    if facts == [] then 0 else
      var n := |facts| - 1;
      Count(facts[..n], key, k) + if key(facts[n]) == k then 1 else 0
  }

  /** Keys that occur more than once. */
  ghost predicate Repeated<A, K>(facts: seq<A>, key: A -> K, k: K) {
    Count(facts, key, k) > 1
  }

  lemma {:induction false} ByKeyKeys<A, K>(facts: seq<A>, key: A -> K, k: K)
    ensures k in ByKey(facts, key) <==> Count(facts, key, k) > 0
    ensures k in ByKey(facts, key) ==> ByKey(facts, key)[k] in facts && key(ByKey(facts, key)[k]) == k
  {
    if facts != [] {
      var n := |facts| - 1;
      ByKeyKeys(facts[..n], key, k);
      assert facts == facts[..n] + [facts[n]];
    }
  }

  /** The place of the first fact from `i` on without the property, or the end. */
  function FirstNot<A>(p: A -> bool, facts: seq<A>, i: nat): (r: nat)
    requires i <= |facts|
    ensures i <= r <= |facts| && (forall k :: i <= k < r ==> p(facts[k])) && (r < |facts| ==> !p(facts[r]))
    decreases |facts| - i
  {
    if i == |facts| || !p(facts[i]) then i else FirstNot(p, facts, i + 1)
  }

  /** Counting the keys with a map filled in a loop. */
  method Counts<A, K(==)>(facts: seq<A>, key: A -> K) returns (counts: map<K, nat>)
    ensures forall k :: (if k in counts then counts[k] else 0) == Count(facts, key, k)
  {
    counts := map[];
    for i := 0 to |facts|
      invariant forall k :: (if k in counts then counts[k] else 0) == Count(facts[..i], key, k)
    {
      var k := key(facts[i]);
      assert facts[..i + 1][..i] == facts[..i];
      counts := counts[k := (if k in counts then counts[k] else 0) + 1];
    }
    assert facts[..|facts|] == facts;
  }

  method DuplicateKeys<A, K(==)>(facts: seq<A>, key: A -> K) returns (repeated: set<K>)
    ensures forall k :: k in repeated <==> Repeated(facts, key, k)
  {
    var counts := Counts(facts, key);
    repeated := set k | k in counts && counts[k] > 1;
  }

  lemma {:induction false} CountAt<A, K>(facts: seq<A>, key: A -> K, i: nat)
    requires i < |facts|
    ensures Count(facts, key, key(facts[i])) > 0
  {
    var n := |facts| - 1;
    if i < n {
      CountAt(facts[..n], key, i);
    }
  }

  lemma {:induction false} CountPair<A, K>(facts: seq<A>, key: A -> K, i: nat, j: nat)
    requires i < j < |facts| && key(facts[i]) == key(facts[j])
    ensures Count(facts, key, key(facts[i])) > 1
  {
    var n := |facts| - 1;
    if j < n {
      CountPair(facts[..n], key, i, j);
    } else {
      CountAt(facts[..n], key, i);
    }
  }

  /** A key is repeated exactly when two facts have it. */
  lemma {:induction false} CountExactly<A, K>(facts: seq<A>, key: A -> K, k: K)
    ensures Count(facts, key, k) > 0 <==> exists i :: 0 <= i < |facts| && key(facts[i]) == k
    ensures Repeated(facts, key, k) <==> exists i, j :: 0 <= i < j < |facts| && key(facts[i]) == k == key(facts[j])
  {
    if facts != [] {
      var n := |facts| - 1;
      CountExactly(facts[..n], key, k);
      assert forall i :: 0 <= i < n ==> facts[..n][i] == facts[i];
    }
  }

  lemma {:induction false} CountOne<A, K>(facts: seq<A>, key: A -> K, k: K)
    requires NoRepeats(facts, key)
    ensures Count(facts, key, k) <= 1
  {
    if facts != [] {
      var n := |facts| - 1;
      CountOne(facts[..n], key, k);
      if key(facts[n]) == k && Count(facts[..n], key, k) == 1 {
        ByKeyKeys(facts[..n], key, k);
        assert false;
      }
    }
  }

  /** No key counts twice exactly when no two positions share a key. */
  lemma NoRepeatsByCount<A, K(!new)>(facts: seq<A>, key: A -> K)
    ensures NoRepeats(facts, key) <==> forall k :: !Repeated(facts, key, k)
  {
    if NoRepeats(facts, key) {
      forall k ensures !Repeated(facts, key, k) {
        CountOne(facts, key, k);
      }
    } else {
      var i, j :| 0 <= i < j < |facts| && key(facts[i]) == key(facts[j]);
      CountPair(facts, key, i, j);
      assert Repeated(facts, key, key(facts[i]));
    }
  }

  lemma {:induction false} ByKeyFinds<A, K>(facts: seq<A>, key: A -> K, i: nat)
    requires i < |facts| && NoRepeats(facts, key)
    ensures key(facts[i]) in ByKey(facts, key) && ByKey(facts, key)[key(facts[i])] == facts[i]
  {
    var n := |facts| - 1;
    if i < n {
      ByKeyFinds(facts[..n], key, i);
    }
  }

  lemma {:induction false} MultisetOne<A, K>(facts: seq<A>, key: A -> K, fact: A)
    requires NoRepeats(facts, key)
    ensures multiset(facts)[fact] == if key(fact) in ByKey(facts, key) && ByKey(facts, key)[key(fact)] == fact then 1 else 0
  {
    if facts != [] {
      var n := |facts| - 1;
      MultisetOne(facts[..n], key, fact);
      assert facts == facts[..n] + [facts[n]];
      assert multiset(facts) == multiset(facts[..n]) + multiset{facts[n]};
      if key(facts[n]) == key(fact) && key(fact) in ByKey(facts[..n], key) {
        ByKeyKeys(facts[..n], key, key(fact));
        assert false;
      }
    }
  }

  /** Two repeat-free lists agree key by key exactly when one is a permutation of the other. */
  lemma AgreementIsPermutation<A(!new), K>(source: seq<A>, target: seq<A>, key: A -> K)
    requires NoRepeats(source, key) && NoRepeats(target, key)
    ensures ByKey(source, key) == ByKey(target, key) <==> multiset(source) == multiset(target)
  {
    if ByKey(source, key) == ByKey(target, key) {
      forall fact ensures multiset(source)[fact] == multiset(target)[fact] {
        MultisetOne(source, key, fact);
        MultisetOne(target, key, fact);
      }
      assert multiset(source) == multiset(target);
    } else if multiset(source) == multiset(target) {
      PermutationKeeps(source, target, key);
      PermutationKeeps(target, source, key);
      assert false;
    }
  }

  lemma PermutationKeeps<A, K>(source: seq<A>, target: seq<A>, key: A -> K)
    requires NoRepeats(source, key) && NoRepeats(target, key) && multiset(source) == multiset(target)
    ensures forall k :: k in ByKey(source, key) ==> k in ByKey(target, key) && ByKey(target, key)[k] == ByKey(source, key)[k]
  {
    forall k | k in ByKey(source, key)
      ensures k in ByKey(target, key) && ByKey(target, key)[k] == ByKey(source, key)[k]
    {
      ByKeyKeys(source, key, k);
      var fact := ByKey(source, key)[k];
      assert fact in multiset(source);
      assert fact in target;
      var i :| 0 <= i < |target| && target[i] == fact;
      ByKeyFinds(target, key, i);
    }
  }

  // ---- Sums ---------------------------------------------------------------

  function Sum<A>(facts: seq<A>, amount: A -> nat): nat {
    if facts == [] then 0 else amount(facts[0]) + Sum(facts[1..], amount)
  }

  lemma {:induction false} SumWithout<A>(facts: seq<A>, amount: A -> nat, i: nat)
    requires i < |facts|
    ensures Sum(facts, amount) == amount(facts[i]) + Sum(facts[..i] + facts[i + 1..], amount)
  {
    var others := facts[..i] + facts[i + 1..];
    if i == 0 {
      assert others == facts[1..];
    } else {
      SumWithout(facts[1..], amount, i - 1);
      assert others[1..] == facts[1..][..i - 1] + facts[1..][i..];
    }
  }

  lemma InSnoc<A>(a: seq<A>, last: A, x: A)
    ensures x in a + [last] <==> x in a || x == last
  {
  }

  lemma WithoutOne<A>(a: seq<A>, i: nat)
    requires i < |a|
    ensures multiset(a[..i] + a[i + 1..]) == multiset(a) - multiset{a[i]}
  {
    assert a == a[..i] + [a[i]] + a[i + 1..];
  }

  lemma WithOne<A>(a: seq<A>, b: seq<A>, i: nat)
    requires a != [] && i < |b| && a[0] == b[i] && multiset(a[1..]) == multiset(b[..i] + b[i + 1..])
    ensures multiset(a) == multiset(b)
  {
    assert a == [a[0]] + a[1..];
    assert b == b[..i] + [b[i]] + b[i + 1..];
  }

  // ---- Mapping ------------------------------------------------------------

  function Map<A, B>(f: A -> B, s: seq<A>): (r: seq<B>)
    ensures |r| == |s| && forall i :: 0 <= i < |r| ==> r[i] == f(s[i])
  {
    seq(|s|, i requires 0 <= i < |s| => f(s[i]))
  }

  /** Mapping facts without changing their keys maps what is found under each key. */
  lemma {:induction false} MapByKey<A(!new), B, K>(f: A -> B, facts: seq<A>, key: A -> K, mapped: B -> K, k: K)
    requires forall x :: mapped(f(x)) == key(x)
    ensures k in ByKey(Map(f, facts), mapped) <==> k in ByKey(facts, key)
    ensures k in ByKey(facts, key) ==> ByKey(Map(f, facts), mapped)[k] == f(ByKey(facts, key)[k])
  {
    if facts != [] {
      var n := |facts| - 1;
      MapByKey(f, facts[..n], key, mapped, k);
      assert Map(f, facts)[..n] == Map(f, facts[..n]);
    }
  }

  lemma MapWithout<A, B>(f: A -> B, s: seq<A>, i: nat)
    requires i < |s|
    ensures Map(f, s)[..i] + Map(f, s)[i + 1..] == Map(f, s[..i] + s[i + 1..])
    ensures i == 0 ==> Map(f, s)[1..] == Map(f, s[1..])
  {
    hide Map;
  }

  /** Where `f` determines `g`, equal multisets of `f` values give equal multisets of `g` values. */
  lemma {:induction false} MapFactors<A, B, C>(f: A -> B, g: A -> C, a: seq<A>, b: seq<A>)
    requires multiset(Map(f, a)) == multiset(Map(f, b))
    requires forall x, y :: x in a && y in b && f(x) == f(y) ==> g(x) == g(y)
    ensures multiset(Map(g, a)) == multiset(Map(g, b))
    decreases a
  {
    hide Map;
    PermutationLength(Map(f, a), Map(f, b));
    if a != [] {
      var fa, fb := Map(f, a), Map(f, b);
      assert fa[0] in multiset(fa);
      assert fa[0] in fb;
      var i :| 0 <= i < |fb| && fb[i] == fa[0];
      WithoutHead(fa);
      WithoutOne(fb, i);
      MapWithout(f, a, 0);
      MapWithout(f, b, i);
      MapWithout(g, a, 0);
      MapWithout(g, b, i);
      MapFactors(f, g, a[1..], b[..i] + b[i + 1..]);
      WithOne(Map(g, a), Map(g, b), i);
    }
  }

  lemma MapPermutes<A, B>(f: A -> B, a: seq<A>, b: seq<A>)
    requires multiset(a) == multiset(b)
    ensures multiset(Map(f, a)) == multiset(Map(f, b))
  {
    assert Map((x: A) => x, a) == a && Map((x: A) => x, b) == b;
    MapFactors((x: A) => x, f, a, b);
  }

  /** Permutations have equal sums. */
  lemma {:induction false} SumOfPermutation<A>(a: seq<A>, b: seq<A>, amount: A -> nat)
    requires multiset(a) == multiset(b)
    ensures Sum(a, amount) == Sum(b, amount)
  {
    PermutationLength(a, b);
    if a != [] {
      assert a[0] in multiset(a);
      assert a[0] in b;
      var i :| 0 <= i < |b| && b[i] == a[0];
      SumWithout(b, amount, i);
      var others := b[..i] + b[i + 1..];
      WithoutHead(a);
      WithoutOne(b, i);
      SumOfPermutation(a[1..], others, amount);
    }
  }

  lemma PermutationLength<A>(a: seq<A>, b: seq<A>)
    requires multiset(a) == multiset(b)
    ensures |a| == |b|
  {
    assert |multiset(a)| == |a| && |multiset(b)| == |b|;
  }

  // ---- Sorting ------------------------------------------------------------

  /** Stable insertion: a fact goes before the first one it may precede. */
  function Insert<A>(precedes: (A, A) -> bool, fact: A, sorted: seq<A>): seq<A> {
    if sorted == [] || precedes(fact, sorted[0]) then [fact] + sorted
    else [sorted[0]] + Insert(precedes, fact, sorted[1..])
  }

  function Sorted<A>(precedes: (A, A) -> bool, facts: seq<A>): seq<A> {
    if facts == [] then [] else Insert(precedes, facts[0], Sorted(precedes, facts[1..]))
  }

  ghost predicate TotalPreorder<A(!new)>(precedes: (A, A) -> bool) {
    && (forall a, b :: precedes(a, b) || precedes(b, a))
    && (forall a, b, c :: precedes(a, b) && precedes(b, c) ==> precedes(a, c))
  }

  ghost predicate InOrder<A>(precedes: (A, A) -> bool, facts: seq<A>) {
    forall i, j :: 0 <= i < j < |facts| ==> precedes(facts[i], facts[j])
  }

  /** No two different facts of the list compare equal both ways. */
  ghost predicate TieFree<A>(precedes: (A, A) -> bool, facts: seq<A>) {
    forall i, j :: 0 <= i < |facts| && 0 <= j < |facts| && precedes(facts[i], facts[j]) && precedes(facts[j], facts[i])
                   ==> facts[i] == facts[j]
  }

  lemma {:induction false} InsertPermutes<A>(precedes: (A, A) -> bool, fact: A, sorted: seq<A>)
    ensures multiset(Insert(precedes, fact, sorted)) == multiset([fact] + sorted)
  {
    if sorted != [] && !precedes(fact, sorted[0]) {
      InsertPermutes(precedes, fact, sorted[1..]);
      assert sorted == [sorted[0]] + sorted[1..];
    }
  }

  lemma {:induction false} InsertOrders<A(!new)>(precedes: (A, A) -> bool, fact: A, sorted: seq<A>)
    requires TotalPreorder(precedes) && InOrder(precedes, sorted)
    ensures InOrder(precedes, Insert(precedes, fact, sorted))
  {
    if sorted != [] && !precedes(fact, sorted[0]) {
      InsertOrders(precedes, fact, sorted[1..]);
      InsertPermutes(precedes, fact, sorted[1..]);
      var rest := Insert(precedes, fact, sorted[1..]);
      hide Insert;
      forall i | 0 <= i < |rest| ensures precedes(sorted[0], rest[i]) {
        assert rest[i] in multiset(rest);
        assert rest[i] in [fact] + sorted[1..];
      }
    }
  }

  lemma {:induction false} SortedPermutes<A(!new)>(precedes: (A, A) -> bool, facts: seq<A>)
    ensures multiset(Sorted(precedes, facts)) == multiset(facts)
    ensures TotalPreorder(precedes) ==> InOrder(precedes, Sorted(precedes, facts))
  {
    hide Insert;
    if facts != [] {
      SortedPermutes(precedes, facts[1..]);
      InsertPermutes(precedes, facts[0], Sorted(precedes, facts[1..]));
      if TotalPreorder(precedes) {
        InsertOrders(precedes, facts[0], Sorted(precedes, facts[1..]));
      }
      assert facts == [facts[0]] + facts[1..];
    }
  }

  lemma OrderedHeads<A(!new)>(precedes: (A, A) -> bool, a: seq<A>, b: seq<A>)
    requires a != [] && b != [] && multiset(a) == multiset(b)
    requires InOrder(precedes, a) && InOrder(precedes, b) && TieFree(precedes, a)
    ensures a[0] == b[0]
  {
    assert a[0] in multiset(a) && b[0] in multiset(b);
    assert a[0] in b && b[0] in a;
    var i :| 0 <= i < |b| && b[i] == a[0];
    var j :| 0 <= j < |a| && a[j] == b[0];
    if i > 0 && j > 0 {
      assert precedes(a[0], a[j]) && precedes(b[0], b[i]);
    }
  }

  lemma TailInOrder<A>(precedes: (A, A) -> bool, a: seq<A>)
    requires a != []
    ensures InOrder(precedes, a) ==> InOrder(precedes, a[1..])
    ensures TieFree(precedes, a) ==> TieFree(precedes, a[1..])
  {
    assert forall i :: 0 <= i < |a[1..]| ==> a[1..][i] == a[i + 1];
  }

  lemma TailsPermute<A>(a: seq<A>, b: seq<A>)
    requires a != [] && b != [] && a[0] == b[0] && multiset(a) == multiset(b)
    ensures multiset(a[1..]) == multiset(b[1..])
  {
    WithoutHead(a);
    WithoutHead(b);
  }

  lemma WithoutHead<A>(a: seq<A>)
    requires a != []
    ensures multiset(a[1..]) == multiset(a) - multiset{a[0]}
  {
    assert a == [a[0]] + a[1..];
  }

  /** Ordered permutations of each other without ties are the same list. */
  lemma {:induction false} OrderedUnique<A(!new)>(precedes: (A, A) -> bool, a: seq<A>, b: seq<A>)
    requires multiset(a) == multiset(b) && InOrder(precedes, a) && InOrder(precedes, b) && TieFree(precedes, a)
    ensures a == b
  {
    hide InOrder, TieFree;
    PermutationLength(a, b);
    if a != [] {
      OrderedHeads(precedes, a, b);
      TailInOrder(precedes, a);
      TailInOrder(precedes, b);
      TailsPermute(a, b);
      OrderedUnique(precedes, a[1..], b[1..]);
      assert a == [a[0]] + a[1..] && b == [b[0]] + b[1..];
    }
  }

  /** Sorting forgets the order of a list exactly as far as the comparison does not tie. */
  lemma SortedIsCanonical<A(!new)>(precedes: (A, A) -> bool, a: seq<A>, b: seq<A>)
    requires TotalPreorder(precedes) && TieFree(precedes, a)
    ensures Sorted(precedes, a) == Sorted(precedes, b) <==> multiset(a) == multiset(b)
  {
    SortedPermutes(precedes, a);
    SortedPermutes(precedes, b);
    if multiset(a) == multiset(b) {
      var sa := Sorted(precedes, a);
      hide Sorted;
      forall i | 0 <= i < |sa| ensures exists k :: 0 <= k < |a| && a[k] == sa[i] {
        assert sa[i] in multiset(sa);
        assert sa[i] in a;
      }
      OrderedUnique(precedes, sa, Sorted(precedes, b));
    }
  }

  /** Sorting mapped facts is mapping the facts sorted by what they map to. */
  lemma {:induction false} SortedNatural<A, B>(h: A -> B, precedes: (B, B) -> bool, facts: seq<A>)
    ensures Sorted(precedes, Map(h, facts)) == Map(h, Sorted(Through(h, precedes), facts))
  {
    if facts != [] {
      SortedNatural(h, precedes, facts[1..]);
      assert Map(h, facts)[1..] == Map(h, facts[1..]);
      InsertNatural(h, precedes, facts[0], Sorted(Through(h, precedes), facts[1..]));
    }
  }

  function Through<A, B>(h: A -> B, precedes: (B, B) -> bool): (A, A) -> bool {
    (a, b) => precedes(h(a), h(b))
  }

  lemma {:induction false} InsertNatural<A, B>(h: A -> B, precedes: (B, B) -> bool, fact: A, sorted: seq<A>)
    ensures Insert(precedes, h(fact), Map(h, sorted)) == Map(h, Insert(Through(h, precedes), fact, sorted))
  {
    if sorted != [] && !precedes(h(fact), h(sorted[0])) {
      InsertNatural(h, precedes, fact, sorted[1..]);
      assert Map(h, sorted)[1..] == Map(h, sorted[1..]);
    }
  }

  // ---- Lists in a strict order --------------------------------------------

  ghost predicate Increasing<M>(before: (M, M) -> bool, list: seq<M>) {
    forall i, j :: 0 <= i < j < |list| ==> before(list[i], list[j])
  }

  /** No two values come before each other, and no value before itself. */
  ghost predicate Strict<M(!new)>(before: (M, M) -> bool) {
    forall m, n :: before(m, n) ==> m != n && !before(n, m)
  }

  lemma IncreasingSnoc<M(!new)>(before: (M, M) -> bool, list: seq<M>, last: M)
    requires Increasing(before, list) && forall m :: m in list ==> before(m, last)
    ensures Increasing(before, list + [last])
    ensures forall m :: m in list + [last] <==> m in list || m == last
  {
    forall i | 0 <= i < |list| ensures before(list[i], last) {
      assert list[i] in list;
    }
    forall m ensures m in list + [last] <==> m in list || m == last {
      InSnoc(list, last, m);
    }
  }

  lemma IncreasingConcat<M(!new)>(before: (M, M) -> bool, a: seq<M>, b: seq<M>)
    requires Increasing(before, a) && Increasing(before, b) && forall m, n :: m in a && n in b ==> before(m, n)
    ensures Increasing(before, a + b)
  {
    forall i, j | 0 <= i < j < |a + b| ensures before((a + b)[i], (a + b)[j]) {
      if i < |a| <= j {
        assert (a + b)[i] in a && (a + b)[j] in b;
      }
    }
  }

  /** A list in a strict order is determined by what it holds. */
  lemma {:induction false} IncreasingUnique<M(!new)>(before: (M, M) -> bool, a: seq<M>, b: seq<M>)
    requires Strict(before) && Increasing(before, a) && Increasing(before, b) && forall m :: m in a <==> m in b
    ensures a == b
  {
    if a != [] {
      SameFirst(before, a, b);
      WithoutFirst(before, a);
      WithoutFirst(before, b);
      IncreasingUnique(before, a[1..], b[1..]);
      assert a == [a[0]] + a[1..] && b == [b[0]] + b[1..];
    } else if b != [] {
      SameFirst(before, b, a);
    }
  }

  lemma SameFirst<M(!new)>(before: (M, M) -> bool, a: seq<M>, b: seq<M>)
    requires a != [] && Strict(before) && Increasing(before, a) && Increasing(before, b) && forall m :: m in a <==> m in b
    ensures b != [] && a[0] == b[0]
  {
    assert a[0] in a && a[0] in b;
    assert b[0] in b && b[0] in a;
    FirstBefore(before, a, b[0]);
    FirstBefore(before, b, a[0]);
  }

  lemma FirstBefore<M>(before: (M, M) -> bool, a: seq<M>, x: M)
    requires Increasing(before, a) && x in a
    ensures x == a[0] || before(a[0], x)
  {
    var i :| 0 <= i < |a| && a[i] == x;
  }

  lemma WithoutFirst<M(!new)>(before: (M, M) -> bool, a: seq<M>)
    requires a != [] && Strict(before) && Increasing(before, a)
    ensures Increasing(before, a[1..]) && forall m :: m in a[1..] <==> m in a && m != a[0]
  {
    assert a == [a[0]] + a[1..];
    forall i | 0 <= i < |a[1..]| ensures a[1..][i] == a[i + 1] && a[i + 1] != a[0] {
      assert before(a[0], a[i + 1]);
    }
  }

  // ---- Ties make sorting depend on order ----------------------------------

  lemma {:induction false} InsertAt<A>(precedes: (A, A) -> bool, fact: A, sorted: seq<A>) returns (k: nat)
    ensures k <= |sorted| && Insert(precedes, fact, sorted) == sorted[..k] + [fact] + sorted[k..]
    ensures (forall i :: 0 <= i < k ==> !precedes(fact, sorted[i])) && (k < |sorted| ==> precedes(fact, sorted[k]))
  {
    if sorted == [] || precedes(fact, sorted[0]) {
      k := 0;
    } else {
      k := InsertAt(precedes, fact, sorted[1..]);
      assert sorted[..k + 1] == [sorted[0]] + sorted[1..][..k] && sorted[k + 1..] == sorted[1..][k..];
      assert forall i :: 1 <= i < k + 1 ==> sorted[i] == sorted[1..][i - 1];
      k := k + 1;
    }
  }

  /** A fact that ties with the one just inserted goes right before it. */
  lemma InsertTied<A(!new)>(precedes: (A, A) -> bool, x: A, y: A, sorted: seq<A>) returns (k: nat)
    requires TotalPreorder(precedes) && precedes(x, y) && precedes(y, x)
    ensures k <= |sorted| && Insert(precedes, x, Insert(precedes, y, sorted)) == sorted[..k] + [x, y] + sorted[k..]
    ensures Insert(precedes, y, Insert(precedes, x, sorted)) == sorted[..k] + [y, x] + sorted[k..]
  {
    k := InsertAt(precedes, y, sorted);
    var j := InsertAt(precedes, x, sorted);
    assert j == k;
    InsertBetween(precedes, x, y, sorted, k);
    InsertBetween(precedes, y, x, sorted, k);
  }

  lemma InsertBetween<A>(precedes: (A, A) -> bool, x: A, y: A, sorted: seq<A>, k: nat)
    requires k <= |sorted| && precedes(x, y) && forall i :: 0 <= i < k ==> !precedes(x, sorted[i])
    ensures Insert(precedes, x, sorted[..k] + [y] + sorted[k..]) == sorted[..k] + [x, y] + sorted[k..]
  {
    var longer := sorted[..k] + [y] + sorted[k..];
    var j := InsertAt(precedes, x, longer);
    assert j <= k by {
      assert longer[k] == y;
    }
    assert j >= k;
    assert longer[..k] == sorted[..k] && longer[k..] == [y] + sorted[k..];
  }

  /**
   * Exactly when sorting forgets the order of a list: every permutation of it sorts the same if and
   * only if no two of its different facts compare equal.
   */
  lemma SortedExactlyWhenTieFree<A(!new)>(precedes: (A, A) -> bool, a: seq<A>)
    requires TotalPreorder(precedes)
    ensures TieFree(precedes, a) <==>
            forall b :: multiset(b) == multiset(a) ==> Sorted(precedes, b) == Sorted(precedes, a)
  {
    if TieFree(precedes, a) {
      forall b | multiset(b) == multiset(a) ensures Sorted(precedes, b) == Sorted(precedes, a) {
        SortedIsCanonical(precedes, a, b);
      }
    } else {
      var i, j :| 0 <= i < |a| && 0 <= j < |a| && precedes(a[i], a[j]) && precedes(a[j], a[i]) && a[i] != a[j];
      var b, c := TiedOrders(precedes, a, if i < j then i else j, if i < j then j else i);
    }
  }

  lemma TiedOrders<A(!new)>(precedes: (A, A) -> bool, a: seq<A>, i: nat, j: nat) returns (b: seq<A>, c: seq<A>)
    requires TotalPreorder(precedes) && i < j < |a| && precedes(a[i], a[j]) && precedes(a[j], a[i]) && a[i] != a[j]
    ensures multiset(b) == multiset(a) == multiset(c) && Sorted(precedes, b) != Sorted(precedes, c)
  {
    var x, y, rest := a[i], a[j], a[..i] + a[i + 1..j] + a[j + 1..];
    b, c := [x] + ([y] + rest), [y] + ([x] + rest);
    assert a == a[..i] + [x] + a[i + 1..j] + [y] + a[j + 1..];
    var sorted := Sorted(precedes, rest);
    var k := InsertTied(precedes, x, y, sorted);
    assert b[1..] == [y] + rest && c[1..] == [x] + rest;
    assert ([y] + rest)[1..] == rest && ([x] + rest)[1..] == rest;
    assert Sorted(precedes, b) == sorted[..k] + [x, y] + sorted[k..];
    assert Sorted(precedes, c) == sorted[..k] + [y, x] + sorted[k..];
    assert Sorted(precedes, b)[k] != Sorted(precedes, c)[k];
  }
}
