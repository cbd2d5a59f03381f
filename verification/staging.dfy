/** Staging evidence: the canonical text its hash is taken of. */
module StagingEvidence {
  import opened Facts
  import opened Json
  import C = Canonical
  import F = FinancialStore

  /** The names of the fields in the order of the text. */
  const FIELDS: seq<Text> := SCOPE + CAPTURED + RESULT

  const SCOPE: seq<Text> := [
    F.Units("recordId"), F.Units("schemaVersion"), F.Units("gateId"), F.Units("cohort"), F.Units("tenantId"),
    F.Units("legalEntityId"), F.Units("operatorPrincipalId"), F.Units("deploymentRevision"), F.Units("providerIdentityRef")]

  const CAPTURED: seq<Text> := [
    F.Units("endpointRefs"), F.Units("failureScenarioIds"), F.Units("operationIds"), F.Units("transferIds"),
    F.Units("leaseGenerations"), F.Units("watermarks"), F.Units("backupRestore"), F.Units("metrics"), F.Units("alerts")]

  const RESULT: seq<Text> := [
    F.Units("startedAt"), F.Units("completedAt"), F.Units("result"), F.Units("mismatchCount"), F.Units("orphanCount")]

  /** The places of the captured fields, whose elements come in no particular order. */
  predicate Unordered(i: nat) {
    |SCOPE| <= i < |SCOPE + CAPTURED|
  }

  /** The values of the fields, in the order of the fields; the unordered ones are arrays. */
  ghost predicate IsEvidence(e: seq<Json>) {
    && |e| == |FIELDS|
    && forall i :: 0 <= i < |e| ==> WellFormed(e[i]) && C.Listed(e[i]) && (Unordered(i) ==> e[i].Arr?)
  }

  /** The unordered fields are the tenth to the eighteenth, from the endpoint references to the alerts. */
  lemma UnorderedExactly(i: nat)
    ensures |FIELDS| == 23 && (Unordered(i) <==> 9 <= i <= 17)
    ensures FIELDS[9..18] == [
        F.Units("endpointRefs"), F.Units("failureScenarioIds"), F.Units("operationIds"), F.Units("transferIds"),
        F.Units("leaseGenerations"), F.Units("watermarks"), F.Units("backupRestore"), F.Units("metrics"), F.Units("alerts")]
  {
    hide F.Units;
  }

  function CanonicalField(leq: C.Order, i: nat, value: Json): Json {
    if Unordered(i) && value.Arr? then Arr(F.CanonicalArray(leq, value.items)) else C.CanonicalValue(leq, value)
  }

  function CanonicalFields(leq: C.Order, e: seq<Json>): seq<Json> {
    seq(|e|, i requires 0 <= i < |e| => CanonicalField(leq, i, e[i]))
  }

  /** `[name, value]` for each field. */
  function Named(values: seq<Json>): Json
    requires |values| == |FIELDS|
  {
    Arr(seq(|FIELDS|, i requires 0 <= i < |FIELDS| => Arr([Str(FIELDS[i]), values[i]])))
  }

  function CanonicalText(leq: C.Order, e: seq<Json>): Text
    requires |e| == |FIELDS|
  {
    Print(Named(CanonicalFields(leq, e)))
  }

  /** One field holds the same data: as a multiset of elements where capture order means nothing. */
  ghost predicate SameField(i: nat, v: Json, w: Json) {
    if Unordered(i) && v.Arr? && w.Arr? then F.SameData(v.items, w.items) else C.Meaning(v) == C.Meaning(w)
  }

  ghost predicate SameEvidence(a: seq<Json>, b: seq<Json>) {
    |a| == |b| && forall i :: 0 <= i < |a| ==> SameField(i, a[i], b[i])
  }

  ghost predicate UntiedField(leq: C.Order, i: nat, v: Json) {
    if Unordered(i) && v.Arr? then F.UntiedArray(leq, v.items) else C.Settled(leq, v)
  }

  ghost predicate Untied(leq: C.Order, e: seq<Json>) {
    forall i :: 0 <= i < |e| ==> UntiedField(leq, i, e[i])
  }

  // ---- One field ----------------------------------------------------------

  predicate FieldShape(i: nat, v: Json) {
    Unordered(i) ==> v.Arr?
  }

  lemma FieldIsUnambiguous(leq: C.Order, i: nat, v: Json, w: Json)
    requires WellFormed(v) && WellFormed(w) && FieldShape(i, v) && FieldShape(i, w)
    requires CanonicalField(leq, i, v) == CanonicalField(leq, i, w)
    ensures SameField(i, v, w)
  {
    hide C.Deep, C.Meaning, F.CanonicalArray;
    if Unordered(i) {
      F.CanonicalArrayIsUnambiguous(leq, v.items, w.items);
    } else {
      C.DeepKeeps(C.Rebuilt(leq), v);
      C.DeepKeeps(C.Rebuilt(leq), w);
    }
  }

  lemma FieldIsComplete(leq: C.Order, i: nat, v: Json, w: Json)
    requires TotalPreorder(leq) && WellFormed(v) && WellFormed(w) && FieldShape(i, v) && FieldShape(i, w)
    requires UntiedField(leq, i, v) && SameField(i, v, w)
    ensures CanonicalField(leq, i, v) == CanonicalField(leq, i, w)
  {
    hide C.Deep, C.Meaning, C.Settled, F.CanonicalArray, F.UntiedArray, F.SameData;
    if Unordered(i) {
      F.CanonicalArrayAgain(leq, v.items, w.items);
    } else {
      C.CanonicalValueIsComplete(leq, v, w);
    }
  }

  /** A field where something ties has the same data in another form. */
  lemma FieldTies(leq: C.Order, i: nat, v: Json) returns (w: Json)
    requires TotalPreorder(leq) && WellFormed(v) && C.Listed(v) && FieldShape(i, v) && !UntiedField(leq, i, v)
    ensures WellFormed(w) && C.Listed(w) && FieldShape(i, w) && SameField(i, v, w)
    ensures CanonicalField(leq, i, v) != CanonicalField(leq, i, w)
  {
    hide C.Deep, C.Meaning, C.Settled, F.CanonicalArray, F.UntiedArray, F.SameData, TotalPreorder;
    if Unordered(i) {
      F.CanonicalArrayExactlyWhenUntied(leq, v.items);
      var items :| F.AllWellFormed(items) && F.AllListed(items) && F.SameData(v.items, items)
                   && F.CanonicalArray(leq, items) != F.CanonicalArray(leq, v.items);
      w := Arr(items);
    } else {
      w := C.TiesReorder(C.Rebuilt(leq), v);
    }
  }

  // ---- The whole text -----------------------------------------------------

  lemma FieldWellFormed(leq: C.Order, i: nat, v: Json)
    requires WellFormed(v)
    ensures WellFormed(CanonicalField(leq, i, v))
  {
    hide C.Deep, Sorted, C.Meaning;
    if Unordered(i) && v.Arr? {
      var canonical, sorted := Map(F.CanonicalOf(leq), v.items), F.CanonicalArray(leq, v.items);
      SortedPermutes(F.TextOrder(leq), canonical);
      hide F.TextOrder;
      forall k | 0 <= k < |sorted| ensures WellFormed(sorted[k]) {
        assert sorted[k] in multiset(sorted);
        assert sorted[k] in canonical;
        var j :| 0 <= j < |canonical| && canonical[j] == sorted[k];
        C.DeepKeeps(C.Rebuilt(leq), v.items[j]);
      }
    } else {
      C.DeepKeeps(C.Rebuilt(leq), v);
    }
  }

  /** Two texts are equal exactly when every canonical field is. */
  lemma TextsExact(leq: C.Order, a: seq<Json>, b: seq<Json>)
    requires IsEvidence(a) && IsEvidence(b)
    ensures CanonicalText(leq, a) == CanonicalText(leq, b) <==>
            forall i :: 0 <= i < |a| ==> CanonicalField(leq, i, a[i]) == CanonicalField(leq, i, b[i])
  {
    hide CanonicalField, Print, C.Listed;
    var x, y := CanonicalFields(leq, a), CanonicalFields(leq, b);
    forall i | 0 <= i < |a| ensures WellFormed(x[i]) && WellFormed(y[i]) {
      FieldWellFormed(leq, i, a[i]);
      FieldWellFormed(leq, i, b[i]);
    }
    if CanonicalText(leq, a) == CanonicalText(leq, b) {
      NamedInjective(x, y);
      assert forall i :: 0 <= i < |a| ==> x[i] == CanonicalField(leq, i, a[i]) && y[i] == CanonicalField(leq, i, b[i]);
    }
    if forall i :: 0 <= i < |a| ==> CanonicalField(leq, i, a[i]) == CanonicalField(leq, i, b[i]) {
      assert x == y;
    }
  }

  lemma NamedInjective(x: seq<Json>, y: seq<Json>)
    requires |x| == |FIELDS| == |y| && F.AllWellFormed(x) && F.AllWellFormed(y)
    requires Print(Named(x)) == Print(Named(y))
    ensures x == y
  {
    hide Print;
    forall i | 0 <= i < |x| ensures WellFormed(Named(x).items[i]) && WellFormed(Named(y).items[i]) {
      assert WellFormed(Str(FIELDS[i])) && WellFormed(x[i]) && WellFormed(y[i]);
    }
    PrintInjective(Named(x), Named(y));
    forall i | 0 <= i < |x| ensures x[i] == y[i] {
      assert Named(x).items[i] == Named(y).items[i];
      assert Named(x).items[i].items[1] == x[i] && Named(y).items[i].items[1] == y[i];
    }
  }

  /** Equal texts are of the same evidence, for any comparison whatsoever. */
  lemma TextIsUnambiguous(leq: C.Order, a: seq<Json>, b: seq<Json>)
    requires IsEvidence(a) && IsEvidence(b) && CanonicalText(leq, a) == CanonicalText(leq, b)
    ensures SameEvidence(a, b)
  {
    TextsExact(leq, a, b);
    hide CanonicalField, CanonicalText, C.Listed, WellFormed, SameField;
    forall i | 0 <= i < |a| ensures SameField(i, a[i], b[i]) {
      FieldIsUnambiguous(leq, i, a[i], b[i]);
    }
  }

  /**
   * Neither the order of capture nor the order of properties changes the text, exactly when nothing
   * ties: the evidence has one text if and only if it is untied.
   */
  lemma TextExactlyWhenUntied(leq: C.Order, a: seq<Json>)
    requires TotalPreorder(leq) && IsEvidence(a)
    ensures Untied(leq, a) <==>
            forall b :: IsEvidence(b) && SameEvidence(a, b) ==> CanonicalText(leq, b) == CanonicalText(leq, a)
  {
    hide CanonicalField, CanonicalText, C.Listed, WellFormed, SameField, UntiedField, TotalPreorder;
    if Untied(leq, a) {
      forall b | IsEvidence(b) && SameEvidence(a, b) ensures CanonicalText(leq, b) == CanonicalText(leq, a) {
        forall i | 0 <= i < |a| ensures CanonicalField(leq, i, a[i]) == CanonicalField(leq, i, b[i]) {
          FieldIsComplete(leq, i, a[i], b[i]);
        }
        TextsExact(leq, a, b);
      }
    } else {
      var b := TiedEvidence(leq, a);
    }
  }

  lemma TiedEvidence(leq: C.Order, a: seq<Json>) returns (b: seq<Json>)
    requires TotalPreorder(leq) && IsEvidence(a) && !Untied(leq, a)
    ensures IsEvidence(b) && SameEvidence(a, b) && CanonicalText(leq, b) != CanonicalText(leq, a)
  {
    hide CanonicalField, CanonicalText, C.Listed, WellFormed, UntiedField, TotalPreorder, C.Meaning;
    var i :| 0 <= i < |a| && !UntiedField(leq, i, a[i]);
    var w := FieldTies(leq, i, a[i]);
    b := a[i := w];
    TextsExact(leq, a, b);
  }
}
