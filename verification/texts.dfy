/** Strings as the program compares, sorts and trims them. */
module Texts {

  /** The order of strings by their code units, in which arrays of strings are sorted by default. */
  predicate UnitsLeq(a: seq<int>, b: seq<int>) {
    a == [] || (b != [] && (a[0] < b[0] || (a[0] == b[0] && UnitsLeq(a[1..], b[1..]))))
  }

  lemma {:induction false} UnitsTotal(a: seq<int>, b: seq<int>)
    ensures UnitsLeq(a, b) || UnitsLeq(b, a)
    ensures UnitsLeq(a, b) && UnitsLeq(b, a) ==> a == b
  {
    if a != [] && b != [] {
      UnitsTotal(a[1..], b[1..]);
      assert a == [a[0]] + a[1..] && b == [b[0]] + b[1..];
    }
  }

  lemma {:induction false} UnitsTransitive(a: seq<int>, b: seq<int>, c: seq<int>)
    requires UnitsLeq(a, b) && UnitsLeq(b, c)
    ensures UnitsLeq(a, c)
  {
    if a != [] && a[0] == b[0] == c[0] {
      UnitsTransitive(a[1..], b[1..], c[1..]);
    }
  }

  /** A character as UTF-16 code units. */
  function Encode(c: char): (units: seq<int>)
    ensures |units| == if c as int < 0x1_0000 then 1 else 2
  {
    var n := c as int;
    if n < 0x1_0000 then [n] else [0xD800 + (n - 0x1_0000) / 0x400, 0xDC00 + (n - 0x1_0000) % 0x400]
  }

  function Codes(s: string): seq<int> {
    if s == "" then [] else Encode(s[0]) + Codes(s[1..])
  }

  lemma EncodeInjective(a: char, x: seq<int>, b: char, y: seq<int>)
    requires Encode(a) + x == Encode(b) + y
    ensures a == b && x == y
  {
    var m, n := a as int, b as int;
    assert (Encode(a) + x)[0] == Encode(a)[0] && (Encode(b) + y)[0] == Encode(b)[0];
    assert m < 0x1_0000 <==> n < 0x1_0000;
    if m >= 0x1_0000 {
      assert (Encode(a) + x)[1] == Encode(a)[1] && (Encode(b) + y)[1] == Encode(b)[1];
    }
    assert m as char == a && n as char == b;
    assert x == (Encode(a) + x)[|Encode(a)|..] && y == (Encode(b) + y)[|Encode(b)|..];
  }

  lemma {:induction false} CodesInjective(a: string, b: string)
    requires Codes(a) == Codes(b)
    ensures a == b
  {
    hide Encode;
    if a != "" && b != "" {
      EncodeInjective(a[0], Codes(a[1..]), b[0], Codes(b[1..]));
      CodesInjective(a[1..], b[1..]);
      assert a == [a[0]] + a[1..] && b == [b[0]] + b[1..];
    }
  }

  predicate Leq(a: string, b: string) {
    UnitsLeq(Codes(a), Codes(b))
  }

  lemma LeqTotal(a: string, b: string)
    ensures Leq(a, b) || Leq(b, a)
    ensures Leq(a, b) && Leq(b, a) ==> a == b
  {
    UnitsTotal(Codes(a), Codes(b));
    if Codes(a) == Codes(b) {
      CodesInjective(a, b);
    }
  }

  lemma LeqTransitive(a: string, b: string, c: string)
    requires Leq(a, b) && Leq(b, c)
    ensures Leq(a, c)
  {
    UnitsTransitive(Codes(a), Codes(b), Codes(c));
  }

  predicate Less(a: string, b: string) {
    a != b && Leq(a, b)
  }

  // ---- The order, written out ---------------------------------------------

  /** At this place the units differ for the first time, and the first text's unit is smaller. */
  predicate SmallerAt(a: seq<int>, b: seq<int>, k: nat) {
    k < |a| && k < |b| && a[..k] == b[..k] && a[k] < b[k]
  }

  lemma AgreeBelow(a: seq<int>, b: seq<int>, k: nat)
    requires k <= |a| && k <= |b| && a[..k] == b[..k]
    ensures forall h :: 0 <= h < k ==> a[h] == b[h]
  {
    assert forall h :: 0 <= h < k ==> a[..k][h] == a[h] && b[..k][h] == b[h];
  }

  /** One text is no later than another exactly when it is a prefix, or has the smaller unit where they first differ. */
  lemma {:induction false} UnitsLeqExactly(a: seq<int>, b: seq<int>)
    ensures UnitsLeq(a, b) <==> a <= b || exists k: nat :: SmallerAt(a, b, k)
  {
    if a != [] && b != [] && a[0] == b[0] {
      UnitsLeqExactly(a[1..], b[1..]);
      assert a == [a[0]] + a[1..] && b == [b[0]] + b[1..];
      if k: nat :| SmallerAt(a[1..], b[1..], k) {
        assert a[..k + 1] == [a[0]] + a[1..][..k] && b[..k + 1] == [b[0]] + b[1..][..k];
        assert SmallerAt(a, b, k + 1);
      }
      if k: nat :| SmallerAt(a, b, k) {
        assert a[1..][..k - 1] == a[..k][1..] && b[1..][..k - 1] == b[..k][1..];
        assert SmallerAt(a[1..], b[1..], k - 1);
      }
    } else if a != [] && b != [] {
      if a[0] < b[0] {
        assert SmallerAt(a, b, 0);
      }
      if k: nat :| SmallerAt(a, b, k) {
        AgreeBelow(a, b, k);
      }
    }
  }

  lemma LeqExactly(a: string, b: string)
    ensures Leq(a, b) <==> Codes(a) <= Codes(b) || exists k: nat :: SmallerAt(Codes(a), Codes(b), k)
  {
    UnitsLeqExactly(Codes(a), Codes(b));
  }

  /** A character below 2^16 is its own unit; another is a high and a low surrogate that carry its ten upper and lower bits. */
  lemma EncodeReads(c: char)
    ensures c as int < 0x1_0000 ==> Encode(c) == [c as int]
    ensures c as int >= 0x1_0000 ==>
              && |Encode(c)| == 2 && 0xD800 <= Encode(c)[0] < 0xDC00 && 0xDC00 <= Encode(c)[1] < 0xE000
              && 0x1_0000 + (Encode(c)[0] - 0xD800) * 0x400 + (Encode(c)[1] - 0xDC00) == c as int
  {
  }

  /** Below 2^16 the units of a text are its characters, one by one. */
  lemma {:induction false} CodesAt(s: string)
    requires forall i :: 0 <= i < |s| ==> s[i] as int < 0x1_0000
    ensures |Codes(s)| == |s| && forall i :: 0 <= i < |s| ==> Codes(s)[i] == s[i] as int
  {
    if s != "" {
      CodesAt(s[1..]);
    }
  }

  /** On such texts the order is that of the first characters that differ. */
  lemma PlainOrder(a: string, b: string, k: nat)
    requires (forall i :: 0 <= i < |a| ==> a[i] as int < 0x1_0000) && (forall i :: 0 <= i < |b| ==> b[i] as int < 0x1_0000)
    requires k < |a| && k < |b| && a[..k] == b[..k] && a[k] != b[k]
    ensures Less(a, b) <==> a[k] < b[k]
  {
    CodesAt(a);
    CodesAt(b);
    var x, y := Codes(a), Codes(b);
    forall i | 0 <= i < k ensures x[i] == y[i] {
      assert a[..k][i] == b[..k][i];
    }
    assert x[..k] == y[..k] && x[k] != y[k];
    LeqExactly(a, b);
    if x[k] < y[k] {
      assert SmallerAt(x, y, k);
    } else {
      assert !(x <= y);
      AgreeBelow(x, y, k);
      if h: nat :| SmallerAt(x, y, h) {
        AgreeBelow(x, y, h);
      }
    }
  }

  /** A total order: no two different values compare equal both ways. */
  ghost predicate TotalOrder<K(!new)>(leq: (K, K) -> bool) {
    && (forall a, b :: leq(a, b) || leq(b, a))
    && (forall a, b :: leq(a, b) && leq(b, a) ==> a == b)
    && (forall a, b, c :: leq(a, b) && leq(b, c) ==> leq(a, c))
  }

  lemma LeqIsTotalOrder()
    ensures TotalOrder(Leq)
  {
    forall a, b ensures Leq(a, b) || Leq(b, a) ensures Leq(a, b) && Leq(b, a) ==> a == b {
      LeqTotal(a, b);
    }
    forall a, b, c | Leq(a, b) && Leq(b, c) ensures Leq(a, c) {
      LeqTransitive(a, b, c);
    }
  }

  // ---- Sorted sets of keys ------------------------------------------------

  /** Strictly ascending. */
  ghost predicate Ascends<K>(leq: (K, K) -> bool, keys: seq<K>) {
    forall i, j :: 0 <= i < j < |keys| ==> leq(keys[i], keys[j]) && keys[i] != keys[j]
  }

  /** The keys of the set, each once, in ascending order. */
  ghost predicate Lists<K(!new)>(leq: (K, K) -> bool, keys: seq<K>, elements: set<K>) {
    Ascends(leq, keys) && forall k :: k in keys <==> k in elements
  }

  /** The first keys of an ascending list, as a set. */
  ghost function Firsts<K>(keys: seq<K>, n: nat): set<K>
    requires n <= |keys|
  {
    set k | k in keys[..n]
  }

  lemma FirstsStep<K(!new)>(leq: (K, K) -> bool, keys: seq<K>, elements: set<K>, n: nat)
    requires Lists(leq, keys, elements) && n < |keys|
    ensures keys[n] in elements && Firsts(keys, n + 1) == Firsts(keys, n) + {keys[n]}
    ensures forall k :: k in Firsts(keys, n) ==> leq(k, keys[n]) && k != keys[n]
  {
    assert keys[..n + 1] == keys[..n] + [keys[n]];
    assert keys[n] in keys;
  }

  lemma FirstsAll<K(!new)>(leq: (K, K) -> bool, keys: seq<K>, elements: set<K>)
    requires Lists(leq, keys, elements)
    ensures Firsts(keys, 0) == {} && Firsts(keys, |keys|) == elements
  {
    assert keys[..|keys|] == keys;
  }

  /** `[...keys].sort()`: insertion of each key where it belongs. */
  method SortKeys<K(==, !new)>(leq: (K, K) -> bool, keys: set<K>) returns (sorted: seq<K>)
    requires TotalOrder(leq)
    ensures Lists(leq, sorted, keys)
  {
    sorted := [];
    var rest := keys;
    while rest != {}
      invariant rest <= keys && Lists(leq, sorted, keys - rest)
      decreases rest
    {
      var k :| k in rest;
      var i := 0;
      while i < |sorted| && leq(sorted[i], k)
        invariant 0 <= i <= |sorted| && forall h :: 0 <= h < i ==> leq(sorted[h], k)
      {
        i := i + 1;
      }
      Inserted(leq, sorted, keys - rest, k, i);
      sorted := sorted[..i] + [k] + sorted[i..];
      assert keys - (rest - {k}) == (keys - rest) + {k};
      rest := rest - {k};
    }
    assert keys - rest == keys;
  }

  lemma Inserted<K(!new)>(leq: (K, K) -> bool, sorted: seq<K>, elements: set<K>, k: K, i: nat)
    requires TotalOrder(leq) && Lists(leq, sorted, elements) && k !in elements && i <= |sorted|
    requires (forall h :: 0 <= h < i ==> leq(sorted[h], k)) && (i < |sorted| ==> !leq(sorted[i], k))
    ensures Lists(leq, sorted[..i] + [k] + sorted[i..], elements + {k})
  {
    var longer := sorted[..i] + [k] + sorted[i..];
    assert Ascends(leq, longer) by {
      InsertedAscends(leq, sorted, elements, k, i);
    }
    assert sorted == sorted[..i] + sorted[i..];
    forall x ensures x in longer <==> x in elements + {k} {
      assert x in longer <==> x in sorted[..i] || x == k || x in sorted[i..];
      assert x in sorted <==> x in sorted[..i] || x in sorted[i..];
    }
  }

  lemma InsertedAscends<K(!new)>(leq: (K, K) -> bool, sorted: seq<K>, elements: set<K>, k: K, i: nat)
    requires TotalOrder(leq) && Lists(leq, sorted, elements) && k !in elements && i <= |sorted|
    requires (forall h :: 0 <= h < i ==> leq(sorted[h], k)) && (i < |sorted| ==> !leq(sorted[i], k))
    ensures Ascends(leq, sorted[..i] + [k] + sorted[i..])
  {
    var longer := sorted[..i] + [k] + sorted[i..];
    assert forall h :: 0 <= h < |sorted| ==> sorted[h] in elements;
    forall h | i <= h < |sorted| ensures leq(k, sorted[h]) {
      assert leq(k, sorted[i]);
      assert h > i ==> leq(sorted[i], sorted[h]);
    }
    assert forall h :: 0 <= h < |longer| ==> longer[h] == if h < i then sorted[h] else if h == i then k else sorted[h - 1];
    forall p, q | 0 <= p < q < |longer| ensures leq(longer[p], longer[q]) && longer[p] != longer[q] {
    }
  }

  // ---- Joined texts -------------------------------------------------------

  predicate NoColon(s: string) {
    forall i :: 0 <= i < |s| ==> s[i] != ':'
  }

  /** A joined text splits one way at its first colon. */
  lemma FirstColon(a: string, x: string, b: string, y: string)
    requires NoColon(a) && NoColon(b) && a + ":" + x == b + ":" + y
    ensures a == b && x == y
  {
    var s := a + ":" + x;
    assert s[|a|] == ':' && s[|b|] == ':';
    assert (forall i :: 0 <= i < |a| ==> s[i] == a[i]) && (forall i :: 0 <= i < |b| ==> s[i] == b[i]);
    assert |a| == |b|;
    assert a == s[..|a|] && b == s[..|b|] && x == s[|a| + 1..] && y == s[|b| + 1..];
  }

  /** A joined text splits one way at its last colon, before a part without colons. */
  lemma LastColon(x: string, u: string, y: string, v: string)
    requires NoColon(u) && NoColon(v) && x + ":" + u == y + ":" + v
    ensures x == y && u == v
  {
    var s := x + ":" + u;
    assert s[|x|] == ':' && s[|y|] == ':';
    assert (forall k :: |x| < k < |s| ==> s[k] == u[k - |x| - 1]) && (forall k :: |y| < k < |s| ==> s[k] == v[k - |y| - 1]);
    assert |x| == |y|;
    assert x == s[..|x|] && y == s[..|y|] && u == s[|x| + 1..] && v == s[|y| + 1..];
  }

  // ---- White space --------------------------------------------------------

  /** White space and line terminators. */
  predicate IsSpace(c: char) {
    || c as int in {0x09, 0x0A, 0x0B, 0x0C, 0x0D, 0x20, 0xA0, 0x1680, 0x2028, 0x2029, 0x202F, 0x205F, 0x3000, 0xFEFF}
    || 0x2000 <= c as int <= 0x200A
  }

  function TrimStart(s: string): string {
    if s != "" && IsSpace(s[0]) then TrimStart(s[1..]) else s
  }

  function TrimEnd(s: string): string {
    if s != "" && IsSpace(s[|s| - 1]) then TrimEnd(s[..|s| - 1]) else s
  }

  function Trim(s: string): string {
    TrimEnd(TrimStart(s))
  }

  predicate AllSpace(s: string) {
    forall i :: 0 <= i < |s| ==> IsSpace(s[i])
  }

  /** What is trimmed is white space on both sides, and none is left there. */
  lemma TrimExactly(s: string) returns (before: string, after: string)
    ensures s == before + Trim(s) + after && AllSpace(before) && AllSpace(after)
    ensures Trim(s) != "" ==> !IsSpace(Trim(s)[0]) && !IsSpace(Trim(s)[|Trim(s)| - 1])
  {
    before := StartSplit(s);
    after := EndSplit(TrimStart(s));
    hide TrimStart, TrimEnd, IsSpace;
    assert Trim(s) != "" ==> Trim(s)[0] == TrimStart(s)[0];
  }

  lemma {:induction false} StartSplit(s: string) returns (before: string)
    ensures s == before + TrimStart(s) && AllSpace(before)
    ensures TrimStart(s) != "" ==> !IsSpace(TrimStart(s)[0])
  {
    hide IsSpace;
    if s != "" && IsSpace(s[0]) {
      before := StartSplit(s[1..]);
      before := [s[0]] + before;
      assert s == [s[0]] + s[1..];
    } else {
      before := "";
    }
  }

  lemma {:induction false} EndSplit(s: string) returns (after: string)
    ensures s == TrimEnd(s) + after && AllSpace(after)
    ensures TrimEnd(s) != "" ==> !IsSpace(TrimEnd(s)[|TrimEnd(s)| - 1])
  {
    hide IsSpace;
    if s != "" && IsSpace(s[|s| - 1]) {
      after := EndSplit(s[..|s| - 1]);
      after := after + [s[|s| - 1]];
      assert s == s[..|s| - 1] + [s[|s| - 1]];
    } else {
      after := "";
    }
  }

  /** White space and line terminators, one by one. */
  lemma SpacesRead(c: char)
    ensures IsSpace(c) <==> c as int in {
              9, 10, 11, 12, 13, 32, 160, 5760, 8192, 8193, 8194, 8195, 8196, 8197, 8198, 8199, 8200, 8201, 8202, 8232, 8233,
              8239, 8287, 12288, 65279}
  {
  }
}
