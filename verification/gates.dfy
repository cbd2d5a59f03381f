/** The roadmap's gates: validation of their dependency graph and the one-pass evaluation that relies on it. */
module GateGraph {

  /** The parts of a gate's own check that are decided outside the graph. */
  datatype Check =
    | Domain(accepted: bool)
    | Financial(accepted: bool)
    | Markers(present: bool, commandsPass: bool, evidence: bool)
    | Composite

  datatype Gate = Gate(id: string, dependencies: seq<string>, check: Check)

  datatype Failure =
    | Duplicate(id: string)
    | Unknown(id: string, dependency: string)
    | OnItself(id: string)
    | DeclaredLater(id: string, dependency: string)
    | Cycle(chain: seq<string>)

  // ---- The graph ----------------------------------------------------------

  function Ids(gates: seq<Gate>): (ids: seq<string>)
    ensures |ids| == |gates| && forall i :: 0 <= i < |ids| ==> ids[i] == gates[i].id
  {
    seq(|gates|, i requires 0 <= i < |gates| => gates[i].id)
  }

  /** `new Map` of the gates by id: the last gate with an id stands for it. */
  function ById(gates: seq<Gate>): (graph: map<string, Gate>)
    ensures forall id :: id in graph <==> id in Ids(gates)
    ensures forall id :: id in graph ==> graph[id] in gates && graph[id].id == id
  {
    if gates == [] then map[] else
      var n := |gates| - 1;
      assert forall id :: id in Ids(gates) <==> id in Ids(gates[..n]) || id == gates[n].id by {
        assert Ids(gates) == Ids(gates[..n]) + [gates[n].id];
      }
      ById(gates[..n])[gates[n].id := gates[n]]
  }

  /** `a` depends on another known gate `b`. */
  predicate Edge(graph: map<string, Gate>, a: string, b: string) {
    a in graph && b in graph && b != a && b in graph[a].dependencies
  }

  ghost predicate IsChain(graph: map<string, Gate>, chain: seq<string>) {
    forall i :: 0 <= i < |chain| - 1 ==> Edge(graph, chain[i], chain[i + 1])
  }

  ghost predicate IsCycle(graph: map<string, Gate>, chain: seq<string>) {
    |chain| > 1 && chain[0] == chain[|chain| - 1] && IsChain(graph, chain)
  }

  ghost predicate Cyclic(graph: map<string, Gate>) {
    exists chain :: IsCycle(graph, chain)
  }

  /** Distinct ids, and every dependency declared strictly earlier: what the program requires of its registry. */
  ghost predicate WellOrdered(gates: seq<Gate>) {
    && (forall i, j :: 0 <= i < j < |gates| ==> gates[i].id != gates[j].id)
    && (forall i, d :: 0 <= i < |gates| && d in gates[i].dependencies ==> d in Ids(gates[..i]))
  }

  // ---- Orders that rule out cycles ----------------------------------------

  ghost predicate Distinct<T>(s: seq<T>) {
    forall i, j :: 0 <= i < j < |s| ==> s[i] != s[j]
  }

  /** Every gate of the order comes after the gates it depends on. */
  ghost predicate Topological(graph: map<string, Gate>, order: seq<string>) {
    forall i, b :: 0 <= i < |order| && Edge(graph, order[i], b) ==> b in order[..i]
  }

  /** A chain that starts at place `i` of such an order ends at least its length before it. */
  lemma {:induction false} ChainDescends(graph: map<string, Gate>, order: seq<string>, chain: seq<string>, i: nat) returns (j: nat)
    requires Topological(graph, order) && i < |order| && chain != [] && chain[0] == order[i] && IsChain(graph, chain)
    ensures j + |chain| - 1 <= i && order[j] == chain[|chain| - 1]
    decreases chain
  {
    if |chain| == 1 {
      j := i;
    } else {
      assert Edge(graph, chain[0], chain[1]);
      assert chain[1] in order[..i];
      var k :| 0 <= k < i && order[k] == chain[1];
      assert forall n :: 0 <= n < |chain[1..]| ==> chain[1..][n] == chain[n + 1];
      j := ChainDescends(graph, order, chain[1..], k);
    }
  }

  lemma OrderedIsAcyclic(graph: map<string, Gate>, order: seq<string>)
    requires Topological(graph, order) && Distinct(order) && forall id :: id in graph ==> id in order
    ensures !Cyclic(graph)
  {
    if chain :| IsCycle(graph, chain) {
      assert Edge(graph, chain[0], chain[1]);
      var i :| 0 <= i < |order| && order[i] == chain[0];
      var j := ChainDescends(graph, order, chain, i);
      assert false;
    }
  }

  /** In a well-ordered registry each gate stands for its id, and its edges are its dependencies. */
  lemma Registered(gates: seq<Gate>, i: nat)
    requires WellOrdered(gates) && i < |gates|
    ensures gates[i].id in ById(gates) && ById(gates)[gates[i].id] == gates[i]
    ensures forall d :: Edge(ById(gates), gates[i].id, d) <==> d in gates[i].dependencies
    ensures forall d :: d in gates[i].dependencies ==> d in Ids(gates[..i])
  {
    var graph := ById(gates);
    assert Ids(gates)[i] == gates[i].id;
    var k :| 0 <= k < |gates| && gates[k] == graph[gates[i].id];
    assert k == i;
    forall d | d in gates[i].dependencies ensures d in graph && d != gates[i].id {
      var earlier := Ids(gates[..i]);
      var j :| 0 <= j < |earlier| && earlier[j] == d;
      assert Ids(gates)[j] == d;
    }
  }

  lemma WellOrderedIsAcyclic(gates: seq<Gate>)
    requires WellOrdered(gates)
    ensures !Cyclic(ById(gates))
  {
    var graph, ids := ById(gates), Ids(gates);
    hide ById, Edge;
    forall i, b | 0 <= i < |ids| && Edge(graph, ids[i], b) ensures b in ids[..i] {
      Registered(gates, i);
      assert Ids(gates[..i]) == ids[..i];
    }
    OrderedIsAcyclic(graph, ids);
  }

  // ---- The failures that need no search -----------------------------------

  function FirstIndex(ids: seq<string>, id: string): (i: nat)
    requires id in ids
    ensures i < |ids| && ids[i] == id && forall k :: 0 <= k < i ==> ids[k] != id
  {
    if ids[0] == id then 0 else 1 + FirstIndex(ids[1..], id)
  }

  /** What is wrong with one dependency of the gate at place `i`, apart from cycles. */
  function EdgeFailure(gates: seq<Gate>, i: nat, dependency: string): seq<Failure>
    requires i < |gates|
  {
    if dependency !in Ids(gates) then [Unknown(gates[i].id, dependency)]
    else if dependency == gates[i].id then [OnItself(gates[i].id)]
    else if FirstIndex(Ids(gates), dependency) > i then [DeclaredLater(gates[i].id, dependency)]
    else []
  }

  /** The failures other than cycles, each with what it says about the gates. */
  ghost predicate Misdeclared(gates: seq<Gate>, failure: Failure) {
    match failure
    case Duplicate(id) => exists i, j :: 0 <= i < j < |gates| && gates[i].id == id == gates[j].id
    case Cycle(_) => false
    case _ => exists i, k :: 0 <= i < |gates| && 0 <= k < |gates[i].dependencies|
                             && EdgeFailure(gates, i, gates[i].dependencies[k]) == [failure]
  }

  method Duplicates(gates: seq<Gate>) returns (failures: seq<Failure>)
    ensures forall f :: f in failures <==> f.Duplicate? && Misdeclared(gates, f)
  {
    var ids := Ids(gates);
    failures := [];
    for j := 0 to |ids|
      invariant forall f :: f in failures <==> f.Duplicate? && exists i, k :: 0 <= i < k < j && gates[i].id == f.id == gates[k].id
    {
      var i := FirstIndex(ids, ids[j]);
      ghost var before := failures;
      if i != j {
        failures := failures + [Duplicate(ids[j])];
      }
      forall f ensures f in failures <==> f.Duplicate? && exists i, k :: 0 <= i < k < j + 1 && gates[i].id == f.id == gates[k].id {
        if f in failures && f !in before {
          assert gates[i].id == f.id == gates[j].id;
        }
      }
    }
  }

  method Undeclared(gates: seq<Gate>) returns (failures: seq<Failure>)
    ensures forall f :: f in failures <==> !f.Duplicate? && Misdeclared(gates, f)
  {
    failures := [];
    for i := 0 to |gates|
      invariant forall f :: f in failures <==>
                  exists h, k :: 0 <= h < i && 0 <= k < |gates[h].dependencies| && EdgeFailure(gates, h, gates[h].dependencies[k]) == [f]
    {
      ghost var before := failures;
      var dependencies := gates[i].dependencies;
      for n := 0 to |dependencies|
        invariant forall f :: f in failures <==> f in before || exists k :: 0 <= k < n && EdgeFailure(gates, i, dependencies[k]) == [f]
      {
        failures := failures + EdgeFailure(gates, i, dependencies[n]);
      }
    }
  }

  // ---- The search for cycles ----------------------------------------------

  /** The distinct elements in the order of their first occurrence: iterating over a `new Set`. */
  function Dedup<T(==, !new)>(s: seq<T>): (r: seq<T>)
    ensures Distinct(r) && forall x :: x in r <==> x in s
  {
    if s == [] then [] else
      var n := |s| - 1;
      var r := Dedup(s[..n]);
      if s[n] in r then r else r + [s[n]]
  }

  ghost predicate HasCycle(failures: seq<Failure>) {
    exists chain :: Cycle(chain) in failures
  }

  /** Only cycles of the graph are reported as cycles. */
  ghost predicate Sound(graph: map<string, Gate>, failures: seq<Failure>) {
    forall chain :: Cycle(chain) in failures ==> IsCycle(graph, chain)
  }

  /** The only failures added are cycles. */
  ghost predicate AddsCycles(before: seq<Failure>, after: seq<Failure>) {
    before <= after && forall i :: |before| <= i < |after| ==> after[i].Cycle?
  }

  /** Depth-first search over the gates, as the program keeps its three collections. */
  class Search {
    const graph: map<string, Gate>
    var failures: seq<Failure>
    var visiting: set<string>
    var visited: set<string>
    ghost var order: seq<string>  // the visited gates in the order they were left

    constructor (graph: map<string, Gate>, failures: seq<Failure>)
      requires Sound(graph, failures)
      ensures this.graph == graph && this.failures == failures && visited == {}
      ensures Valid([])
    {
      this.graph := graph;
      this.failures := failures;
      visiting, visited := {}, {};
      order := [];
    }

    /** `path` leads from a starting gate to the current one along dependencies. */
    ghost predicate Valid(path: seq<string>)
      reads this
    {
      && Sound(graph, failures)
      && (forall id :: id in visiting <==> id in path)
      && (forall id :: id in visited <==> id in order)
      && visiting !! visited
      && visiting <= graph.Keys
      && visited <= graph.Keys
      && Distinct(order)
      && IsChain(graph, path)
      && (HasCycle(failures) || Topological(graph, order))
    }

    method Visit(id: string, path: seq<string>)
      requires Valid(path) && id in graph && (path != [] ==> Edge(graph, path[|path| - 1], id))
      modifies this
      ensures Valid(path) && visiting == old(visiting)
      ensures old(visited) <= visited && AddsCycles(old(failures), failures)
      ensures id in visited || HasCycle(failures)
      decreases graph.Keys - visiting
    {
      if id in visiting {
        var start := FirstIndex(path, id);
        CloseChain(path, id, start);
        failures := failures + [Cycle(path[start..] + [id])];
        return;
      }
      if id in visited {
        return;
      }
      visiting := visiting + {id};
      var dependencies := graph[id].dependencies;
      ExtendChain(path, id);
      for i := 0 to |dependencies|
        invariant Valid(path + [id]) && visiting == old(visiting) + {id}
        invariant old(visited) <= visited && AddsCycles(old(failures), failures)
        invariant forall k :: 0 <= k < i && Edge(graph, id, dependencies[k]) ==> dependencies[k] in visited || HasCycle(failures)
      {
        var dependency := dependencies[i];
        if dependency != id && dependency in graph {
          Visit(dependency, path + [id]);
        }
      }
      if !HasCycle(failures) {
        ExtendOrder(id);
      }
      visiting := visiting - {id};
      visited := visited + {id};
      order := order + [id];
    }

    method All(ids: seq<string>)
      requires Valid([]) && visited == {} && !HasCycle(failures) && forall id :: id in ids <==> id in graph
      modifies this
      ensures AddsCycles(old(failures), failures) && Sound(graph, failures)
      ensures HasCycle(failures) <==> Cyclic(graph)
    {
      for i := 0 to |ids|
        invariant Valid([]) && AddsCycles(old(failures), failures)
        invariant forall k :: 0 <= k < i ==> ids[k] in visited || HasCycle(failures)
      {
        Visit(ids[i], []);
      }
      if HasCycle(failures) {
        var chain :| Cycle(chain) in failures;
        assert IsCycle(graph, chain);
      } else {
        OrderedIsAcyclic(graph, order);
      }
    }

    lemma CloseChain(path: seq<string>, id: string, start: nat)
      requires IsChain(graph, path) && start < |path| && path[start] == id && Edge(graph, path[|path| - 1], id)
      ensures IsCycle(graph, path[start..] + [id])
    {
    }

    lemma ExtendOrder(id: string)
      requires Topological(graph, order) && forall b :: Edge(graph, id, b) ==> b in order
      ensures Topological(graph, order + [id])
    {
      var longer := order + [id];
      forall i, b | 0 <= i < |longer| && Edge(graph, longer[i], b) ensures b in longer[..i] {
        assert longer[..i] == order[..i];
      }
    }

    lemma ExtendChain(path: seq<string>, id: string)
      requires IsChain(graph, path) && (path != [] ==> Edge(graph, path[|path| - 1], id))
      ensures IsChain(graph, path + [id])
    {
    }
  }

  /**
   * The validation. A cycle is reported exactly when the graph has one, and every chain reported is
   * one; the other failures are the misdeclared ids and dependencies, each failure once; and nothing
   * is reported exactly when the registry is well ordered.
   */
  method Validate(gates: seq<Gate>) returns (failures: seq<Failure>)
    ensures HasCycle(failures) <==> Cyclic(ById(gates))
    ensures forall chain :: Cycle(chain) in failures ==> IsCycle(ById(gates), chain)
    ensures forall f: Failure :: !f.Cycle? ==> (f in failures <==> Misdeclared(gates, f))
    ensures Distinct(failures)
    ensures failures == [] <==> WellOrdered(gates)
  {
    var graph := ById(gates);
    var duplicates := Duplicates(gates);
    var undeclared := Undeclared(gates);
    var found := duplicates + undeclared;
    NoCycleYet(gates, found);
    var search := new Search(graph, found);
    search.All(Dedup(Ids(gates)));
    failures := Dedup(search.failures);
    AddedCycles(found, search.failures);
    Conclude(gates, failures);
  }

  lemma NoCycleYet(gates: seq<Gate>, found: seq<Failure>)
    requires forall f :: f in found <==> Misdeclared(gates, f)
    ensures !HasCycle(found) && Sound(ById(gates), found)
  {
    if chain :| Cycle(chain) in found {
      assert false;
    }
  }

  lemma AddedCycles(before: seq<Failure>, after: seq<Failure>)
    requires AddsCycles(before, after)
    ensures forall f: Failure :: !f.Cycle? ==> (f in before <==> f in after)
  {
    forall f | f in after && !f.Cycle? ensures f in before {
      var i :| 0 <= i < |after| && after[i] == f;
      assert before[i] == f;
    }
  }

  /** Nothing misdeclared is being well ordered. */
  lemma NothingMisdeclared(gates: seq<Gate>)
    ensures (forall f :: !Misdeclared(gates, f)) <==> WellOrdered(gates)
  {
    var ids := Ids(gates);
    if forall f :: !Misdeclared(gates, f) {
      forall i, j | 0 <= i < j < |gates| ensures gates[i].id != gates[j].id {
        assert !Misdeclared(gates, Duplicate(gates[i].id));
      }
      forall i, d | 0 <= i < |gates| && d in gates[i].dependencies ensures d in Ids(gates[..i]) {
        NoEdgeFailure(gates, i, d);
        var first := FirstIndex(ids, d);
        assert ids[i] == gates[i].id;
        assert Ids(gates[..i])[first] == d;
      }
    }
    if WellOrdered(gates) {
      forall i, k | 0 <= i < |gates| && 0 <= k < |gates[i].dependencies| ensures EdgeFailure(gates, i, gates[i].dependencies[k]) == [] {
        EarlierIsFine(gates, i, gates[i].dependencies[k]);
      }
    }
  }

  lemma NoEdgeFailure(gates: seq<Gate>, i: nat, d: string)
    requires i < |gates| && d in gates[i].dependencies && forall f :: !Misdeclared(gates, f)
    ensures EdgeFailure(gates, i, d) == []
  {
    var k :| 0 <= k < |gates[i].dependencies| && gates[i].dependencies[k] == d;
    if EdgeFailure(gates, i, d) != [] {
      var f := EdgeFailure(gates, i, d)[0];
      assert EdgeFailure(gates, i, gates[i].dependencies[k]) == [f];
      assert Misdeclared(gates, f);
      assert false;
    }
  }

  lemma EarlierIsFine(gates: seq<Gate>, i: nat, d: string)
    requires WellOrdered(gates) && i < |gates| && d in gates[i].dependencies
    ensures EdgeFailure(gates, i, d) == []
  {
    var earlier := Ids(gates[..i]);
    assert d in earlier;
    var j :| 0 <= j < |earlier| && earlier[j] == d;
    assert Ids(gates)[j] == d;
    assert gates[j].id != gates[i].id;
    assert FirstIndex(Ids(gates), d) <= j;
  }

  lemma SomeFailure(failures: seq<Failure>)
    requires failures != []
    ensures HasCycle(failures) || exists f: Failure :: !f.Cycle? && f in failures
  {
    var f := failures[0];
    if f.Cycle? {
      assert Cycle(f.chain) in failures;
    } else {
      assert f in failures;
    }
  }

  lemma Conclude(gates: seq<Gate>, failures: seq<Failure>)
    requires HasCycle(failures) <==> Cyclic(ById(gates))
    requires forall f: Failure :: !f.Cycle? ==> (f in failures <==> Misdeclared(gates, f))
    ensures failures == [] <==> WellOrdered(gates)
  {
    NothingMisdeclared(gates);
    if failures == [] {
      forall f ensures !Misdeclared(gates, f) {
        assert f !in failures;
      }
    }
    if WellOrdered(gates) {
      WellOrderedIsAcyclic(gates);
      if failures != [] {
        SomeFailure(failures);
        assert false;
      }
    }
  }
}

/** The roadmap measure: one pass over the gates, each judged from the results already recorded. */
module RoadmapMeasure {
  import opened GateGraph

  datatype Reason =
    | DomainPassed | DomainFailed
    | EvidenceAccepted | EvidenceIncomplete
    | DependenciesIncomplete | EvidenceMissing | CommandsFailed | ReviewBlocked | RequirementsPresent
    | AllDependenciesPassed

  datatype Result = Result(passed: bool, reason: Reason)

  /** The gate's own check; a composite gate must have something to depend on. */
  predicate Own(gate: Gate) {
    match gate.check
    case Domain(accepted) => accepted
    case Financial(accepted) => accepted
    case Markers(present, commandsPass, evidence) => present && commandsPass && evidence
    case Composite => gate.dependencies != []
  }

  /** A path of dependencies between two gates, possibly of no steps. */
  ghost predicate Path(graph: map<string, Gate>, path: seq<string>, a: string, b: string) {
    path != [] && path[0] == a && path[|path| - 1] == b && IsChain(graph, path) && b in graph
  }

  ghost predicate Reaches(graph: map<string, Gate>, a: string, b: string) {
    exists path :: Path(graph, path, a, b)
  }

  /** What a gate's result should mean: it and everything it rests on hold up. */
  ghost predicate Holds(graph: map<string, Gate>, id: string) {
    forall b :: Reaches(graph, id, b) ==> Own(graph[b])
  }

  lemma HoldsDownward(graph: map<string, Gate>, a: string, d: string)
    requires Edge(graph, a, d) && Holds(graph, a)
    ensures Holds(graph, d)
  {
    forall b | Reaches(graph, d, b) ensures Own(graph[b]) {
      var path :| Path(graph, path, d, b);
      assert Path(graph, [a] + path, a, b);
    }
  }

  /** A gate holds exactly when its own check passes and its dependencies hold. */
  lemma HoldsStep(graph: map<string, Gate>, id: string)
    requires id in graph
    ensures Holds(graph, id) <==> Own(graph[id]) && forall d :: Edge(graph, id, d) ==> Holds(graph, d)
  {
    if Holds(graph, id) {
      assert Path(graph, [id], id, id);
      forall d | Edge(graph, id, d) ensures Holds(graph, d) {
        HoldsDownward(graph, id, d);
      }
    }
    if Own(graph[id]) && forall d :: Edge(graph, id, d) ==> Holds(graph, d) {
      forall b | Reaches(graph, id, b) ensures Own(graph[b]) {
        var path :| Path(graph, path, id, b);
        if |path| > 1 {
          assert Edge(graph, path[0], path[1]);
          assert Path(graph, path[1..], path[1], b);
        }
      }
    }
  }

  /** What a gate's check asks for, kind by kind. */
  lemma OwnExactly(gate: Gate)
    ensures gate.check.Domain? || gate.check.Financial? ==> (Own(gate) <==> gate.check.accepted)
    ensures gate.check.Markers? ==> (Own(gate) <==> gate.check.present && gate.check.commandsPass && gate.check.evidence)
    ensures gate.check.Composite? ==> (Own(gate) <==> |gate.dependencies| > 0)
  {
  }

  /**
   * In a registry the validation lets through, a composite gate holds exactly when it has
   * dependencies and they all hold, and any other when its check succeeds and they do.
   */
  lemma HoldsByKind(gates: seq<Gate>, i: nat)
    requires WellOrdered(gates) && i < |gates|
    ensures gates[i].id in ById(gates)
    ensures var graph, gate := ById(gates), gates[i];
            Holds(graph, gate.id) <==>
              && (forall d :: d in gate.dependencies ==> Holds(graph, d))
              && match gate.check
                 case Domain(accepted) => accepted
                 case Financial(accepted) => accepted
                 case Markers(present, commandsPass, evidence) => present && commandsPass && evidence
                 case Composite => |gate.dependencies| > 0
  {
    OwnExactly(gates[i]);
    Registered(gates, i);
    HoldsStep(ById(gates), gates[i].id);
    hide ById, Holds, WellOrdered, Own;
  }

  predicate DependenciesPassed(results: map<string, Result>, dependencies: seq<string>) {
    forall d :: d in dependencies ==> d in results && results[d].passed
  }

  /** A failing marker gate is explained by the first of its conditions that does not hold. */
  predicate FirstFailing(reason: Reason, dependencies: bool, present: bool, commandsPass: bool, evidence: bool) {
    match reason
    case DependenciesIncomplete => !dependencies
    case EvidenceMissing => dependencies && !present
    case CommandsFailed => dependencies && present && !commandsPass
    case ReviewBlocked => dependencies && present && commandsPass && !evidence
    case RequirementsPresent => dependencies && present && commandsPass && evidence
    case _ => false
  }

  /** At most one reason explains a marker gate, and the last one exactly where nothing fails. */
  lemma OneReason(a: Reason, b: Reason, dependencies: bool, present: bool, commandsPass: bool, evidence: bool)
    ensures FirstFailing(a, dependencies, present, commandsPass, evidence) && FirstFailing(b, dependencies, present, commandsPass, evidence) ==>
              a == b
    ensures FirstFailing(RequirementsPresent, dependencies, present, commandsPass, evidence) <==>
            dependencies && present && commandsPass && evidence
  {
  }

  /** The result of a gate whose dependencies pass or not, with the reason its kind gives. */
  ghost predicate Explained(gate: Gate, dependencies: bool, result: Result) {
    && (result.passed <==> dependencies && Own(gate))
    && match gate.check
       case Domain(_) => result.reason == if result.passed then DomainPassed else DomainFailed
       case Financial(_) => result.reason == if result.passed then EvidenceAccepted else EvidenceIncomplete
       case Markers(present, commandsPass, evidence) => FirstFailing(result.reason, dependencies, present, commandsPass, evidence)
       case Composite => result.reason == if result.passed then AllDependenciesPassed else DependenciesIncomplete
  }

  /** One gate judged from the results so far, with the reason its kind gives. */
  method Judge(gate: Gate, results: map<string, Result>) returns (result: Result)
    ensures Explained(gate, DependenciesPassed(results, gate.dependencies), result)
  {
    var dependenciesPassed := DependenciesPassed(results, gate.dependencies);
    match gate.check
    case Domain(accepted) =>
      var passed := dependenciesPassed && accepted;
      result := Result(passed, if passed then DomainPassed else DomainFailed);
    case Financial(accepted) =>
      var passed := dependenciesPassed && accepted;
      result := Result(passed, if passed then EvidenceAccepted else EvidenceIncomplete);
    case Markers(present, commandsPass, evidence) =>
      var markers := dependenciesPassed && present;
      var commands := markers && commandsPass;
      var passed := markers && commands && evidence;
      result := Result(passed,
                       if !dependenciesPassed then DependenciesIncomplete
                       else if !markers then EvidenceMissing
                       else if !commands then CommandsFailed
                       else if !evidence then ReviewBlocked
                       else RequirementsPresent);
    case Composite =>
      var passed := |gate.dependencies| > 0 && dependenciesPassed;
      result := Result(passed, if passed then AllDependenciesPassed else DependenciesIncomplete);
  }

  /**
   * The pass over a registry the validation lets through: one result a gate, and a gate passes
   * exactly when its own check and that of every gate it rests on, however indirectly, pass.
   */
  method Measure(gates: seq<Gate>) returns (results: map<string, Result>)
    requires WellOrdered(gates)
    ensures forall id :: id in results <==> id in Ids(gates)
    ensures forall id :: id in results ==> (results[id].passed <==> Holds(ById(gates), id))
    ensures forall i :: 0 <= i < |gates| ==>
              gates[i].id in results && Explained(gates[i], AllHold(ById(gates), gates[i].dependencies), results[gates[i].id])
  {
    results := map[];
    assert Measured(gates, 0, results);
    hide ById, Holds, WellOrdered, Explained, Measured;
    for i := 0 to |gates|
      invariant Measured(gates, i, results)
    {
      var result := Judge(gates[i], results);
      MeasuredStep(gates, i, results, result);
      results := results[gates[i].id := result];
    }
    MeasuredAll(gates, results);
  }

  /** The results of the first gates: each passes exactly when it holds, and has its reason. */
  ghost predicate Measured(gates: seq<Gate>, i: nat, results: map<string, Result>)
    requires i <= |gates|
  {
    Passing(Ids(gates[..i]), ById(gates), results) && Reasoned(gates, i, ById(gates), results)
  }

  ghost predicate Passing(ids: seq<string>, graph: map<string, Gate>, results: map<string, Result>) {
    && (forall id :: id in results <==> id in ids)
    && (forall id :: id in results ==> id in graph && (results[id].passed <==> Holds(graph, id)))
  }

  ghost predicate Reasoned(gates: seq<Gate>, i: nat, graph: map<string, Gate>, results: map<string, Result>)
    requires i <= |gates|
  {
    forall k :: 0 <= k < i ==>
      gates[k].id in results && Explained(gates[k], AllHold(graph, gates[k].dependencies), results[gates[k].id])
  }

  lemma PassingStep(ids: seq<string>, graph: map<string, Gate>, results: map<string, Result>, id: string, result: Result)
    requires Passing(ids, graph, results) && id in graph && (result.passed <==> Holds(graph, id))
    ensures Passing(ids + [id], graph, results[id := result])
  {
    hide Holds;
  }

  lemma ReasonedStep(gates: seq<Gate>, i: nat, graph: map<string, Gate>, results: map<string, Result>, result: Result)
    requires i < |gates| && Reasoned(gates, i, graph, results) && forall k :: 0 <= k < i ==> gates[k].id != gates[i].id
    requires Explained(gates[i], AllHold(graph, gates[i].dependencies), result)
    ensures Reasoned(gates, i + 1, graph, results[gates[i].id := result])
  {
    hide Explained, AllHold;
  }

  lemma MeasuredStep(gates: seq<Gate>, i: nat, results: map<string, Result>, result: Result)
    requires WellOrdered(gates) && i < |gates| && Measured(gates, i, results)
    requires Explained(gates[i], DependenciesPassed(results, gates[i].dependencies), result)
    ensures Measured(gates, i + 1, results[gates[i].id := result])
  {
    PassingNext(gates, i, results, result);
    ReasonedNext(gates, i, results, result);
    hide WellOrdered, Explained, DependenciesPassed, Passing, Reasoned, Ids, ById;
  }

  lemma PassingNext(gates: seq<Gate>, i: nat, results: map<string, Result>, result: Result)
    requires WellOrdered(gates) && i < |gates| && Passing(Ids(gates[..i]), ById(gates), results)
    requires Explained(gates[i], DependenciesPassed(results, gates[i].dependencies), result)
    ensures Passing(Ids(gates[..i + 1]), ById(gates), results[gates[i].id := result])
  {
    MeasuredIds(gates, i, results);
    Judged(gates, i, results);
    ExplainedPasses(gates[i], DependenciesPassed(results, gates[i].dependencies), result);
    IdsStep(gates, i);
    hide ById, Ids, Holds, WellOrdered, Explained, AllHold, DependenciesPassed, Passing, Own;
    PassingStep(Ids(gates[..i]), ById(gates), results, gates[i].id, result);
  }

  lemma ReasonedNext(gates: seq<Gate>, i: nat, results: map<string, Result>, result: Result)
    requires WellOrdered(gates) && i < |gates| && Measured(gates, i, results)
    requires Explained(gates[i], DependenciesPassed(results, gates[i].dependencies), result)
    ensures Reasoned(gates, i + 1, ById(gates), results[gates[i].id := result])
  {
    MeasuredIds(gates, i, results);
    FreshId(gates, i, results);
    Judged(gates, i, results);
    hide ById, Ids, Holds, WellOrdered, Explained, AllHold, DependenciesPassed, Passing, Own, Reasoned;
    ReasonedStep(gates, i, ById(gates), results, result);
  }

  lemma MeasuredIds(gates: seq<Gate>, i: nat, results: map<string, Result>)
    requires i <= |gates| && Passing(Ids(gates[..i]), ById(gates), results)
    ensures forall id :: id in results <==> id in Ids(gates[..i])
    ensures forall id :: id in results ==> (results[id].passed <==> Holds(ById(gates), id))
  {
    hide ById, Holds;
  }

  lemma IdsStep(gates: seq<Gate>, i: nat)
    requires i < |gates|
    ensures Ids(gates[..i + 1]) == Ids(gates[..i]) + [gates[i].id]
  {
  }

  lemma MeasuredAll(gates: seq<Gate>, results: map<string, Result>)
    requires Measured(gates, |gates|, results)
    ensures forall id :: id in results <==> id in Ids(gates)
    ensures forall id :: id in results ==> id in ById(gates) && (results[id].passed <==> Holds(ById(gates), id))
    ensures forall i :: 0 <= i < |gates| ==>
              gates[i].id in results && Explained(gates[i], AllHold(ById(gates), gates[i].dependencies), results[gates[i].id])
  {
    assert gates[..|gates|] == gates;
    hide ById, Holds, Explained, AllHold;
  }

  ghost predicate AllHold(graph: map<string, Gate>, dependencies: seq<string>) {
    forall d :: d in dependencies ==> Holds(graph, d)
  }

  lemma ExplainedPasses(gate: Gate, dependencies: bool, result: Result)
    requires Explained(gate, dependencies, result)
    ensures result.passed <==> dependencies && Own(gate)
  {
  }

  lemma FreshId(gates: seq<Gate>, i: nat, results: map<string, Result>)
    requires WellOrdered(gates) && i < |gates| && forall id :: id in results <==> id in Ids(gates[..i])
    ensures forall k :: 0 <= k < i ==> gates[k].id != gates[i].id
  {
  }

  lemma Judged(gates: seq<Gate>, i: nat, results: map<string, Result>)
    requires WellOrdered(gates) && i < |gates|
    requires forall id :: id in results <==> id in Ids(gates[..i])
    requires forall id :: id in results ==> (results[id].passed <==> Holds(ById(gates), id))
    ensures gates[i].id in ById(gates)
    ensures DependenciesPassed(results, gates[i].dependencies) && Own(gates[i]) <==> Holds(ById(gates), gates[i].id)
    ensures DependenciesPassed(results, gates[i].dependencies) <==> AllHold(ById(gates), gates[i].dependencies)
  {
    hide ById, Holds, WellOrdered, Own, Edge;
    Registered(gates, i);
    HoldsStep(ById(gates), gates[i].id);
  }
}
