/** The fenced, write-once store of rendered document artifacts. */
module ArtifactStore {
  import opened Optional

  type Bytes = seq<bv8>

  datatype Metadata = Metadata(
    artifactId: string, tenantId: string, renderFingerprint: string, contentHash: string, byteLength: nat, details: string)

  datatype Record = Record(metadata: Metadata, bytes: Bytes)

  /** A write under a fencing scope; the writer holds the given generation of that scope. */
  datatype Write = Write(metadata: Metadata, bytes: Bytes, scope: string, generation: nat)

  datatype Outcome =
    | Stored(metadata: Metadata)
    | InvalidContent(artifactId: string)
    | StaleWriter(scope: string, received: nat, current: nat)
    | IdentityConflict(renderFingerprint: string)
    | ContentConflict(renderFingerprint: string)

  type Key = (string, string)

  datatype State = State(artifacts: map<Key, Record>, artifactIds: map<string, string>, generations: map<string, nat>)

  const Empty := State(map[], map[], map[])

  function KeyOf(metadata: Metadata): Key {
    (metadata.tenantId, metadata.renderFingerprint)
  }

  predicate ValidContent(hash: Bytes -> string, metadata: Metadata, bytes: Bytes) {
    hash(bytes) == metadata.contentHash && |bytes| == metadata.byteLength
  }

  function Put(hash: Bytes -> string, s: State, w: Write): (State, Outcome) {
    if !ValidContent(hash, w.metadata, w.bytes) then (s, InvalidContent(w.metadata.artifactId))
    else if w.scope in s.generations && w.generation < s.generations[w.scope] then
      (s, StaleWriter(w.scope, w.generation, s.generations[w.scope]))
    else Persist(s, w)
  }

  function Persist(s: State, w: Write): (State, Outcome) {
    var key, id := KeyOf(w.metadata), w.metadata.artifactId;
    if id in s.artifactIds && s.artifactIds[id] != key.1 then (s, IdentityConflict(key.1))
    else if key in s.artifacts then
      var existing := s.artifacts[key].metadata;
      if existing.contentHash != w.metadata.contentHash || existing.byteLength != w.metadata.byteLength then (s, ContentConflict(key.1))
      else (s.(generations := s.generations[w.scope := w.generation]), Stored(existing))
    else
      (State(s.artifacts[key := Record(w.metadata, w.bytes)], s.artifactIds[id := key.1], s.generations[w.scope := w.generation]),
       Stored(w.metadata))
  }

  // ---- What every state keeps ---------------------------------------------

  /** Stored bytes match their metadata, and each stored artifact's id is bound to its fingerprint. */
  ghost predicate Inv(hash: Bytes -> string, s: State) {
    forall key :: key in s.artifacts ==> RecordOk(hash, s.artifactIds, key, s.artifacts[key])
  }

  ghost predicate RecordOk(hash: Bytes -> string, artifactIds: map<string, string>, key: Key, r: Record) {
    && KeyOf(r.metadata) == key && ValidContent(hash, r.metadata, r.bytes)
    && r.metadata.artifactId in artifactIds && artifactIds[r.metadata.artifactId] == key.1
  }

  /** Later states: stored content and bindings stay, and no generation goes back. */
  ghost predicate Extends(before: State, after: State) {
    && (forall key :: key in before.artifacts ==> key in after.artifacts && after.artifacts[key] == before.artifacts[key])
    && (forall id :: id in before.artifactIds ==> id in after.artifactIds && after.artifactIds[id] == before.artifactIds[id])
    && (forall scope :: scope in before.generations ==> scope in after.generations && before.generations[scope] <= after.generations[scope])
  }

  lemma PutKeeps(hash: Bytes -> string, s: State, w: Write)
    requires Inv(hash, s)
    ensures Inv(hash, Put(hash, s, w).0) && Extends(s, Put(hash, s, w).0)
  {
    hide RecordOk, ValidContent;
    var key, id, after := KeyOf(w.metadata), w.metadata.artifactId, Put(hash, s, w).0;
    if after.artifacts != s.artifacts {
      assert RecordOk(hash, after.artifactIds, key, after.artifacts[key]) by { NewRecordOk(hash, after.artifactIds, w); }
      forall k | k in s.artifacts ensures RecordOk(hash, after.artifactIds, k, s.artifacts[k]) {
        RecordStays(hash, s.artifactIds, after.artifactIds, k, s.artifacts[k]);
      }
    }
  }

  lemma NewRecordOk(hash: Bytes -> string, artifactIds: map<string, string>, w: Write)
    requires ValidContent(hash, w.metadata, w.bytes)
    requires w.metadata.artifactId in artifactIds && artifactIds[w.metadata.artifactId] == w.metadata.renderFingerprint
    ensures RecordOk(hash, artifactIds, KeyOf(w.metadata), Record(w.metadata, w.bytes))
  {
  }

  lemma RecordStays(hash: Bytes -> string, before: map<string, string>, after: map<string, string>, key: Key, r: Record)
    requires RecordOk(hash, before, key, r) && forall id :: id in before ==> id in after && after[id] == before[id]
    ensures RecordOk(hash, after, key, r)
  {
  }

  function Run(hash: Bytes -> string, s: State, writes: seq<Write>): State
    decreases writes
  {
    if writes == [] then s else Run(hash, Put(hash, s, writes[0]).0, writes[1..])
  }

  lemma ExtendsTransitive(a: State, b: State, c: State)
    requires Extends(a, b) && Extends(b, c)
    ensures Extends(a, c)
  {
  }

  /** Over any run stored content, bindings and generations are kept, and everything stored is valid. */
  lemma {:induction false} RunKeepsStore(hash: Bytes -> string, s: State, writes: seq<Write>)
    requires Inv(hash, s)
    ensures Inv(hash, Run(hash, s, writes)) && Extends(s, Run(hash, s, writes))
    decreases writes
  {
    if writes != [] {
      hide Inv, Extends, Put;
      var next := Put(hash, s, writes[0]).0;
      PutKeeps(hash, s, writes[0]);
      RunKeepsStore(hash, next, writes[1..]);
      ExtendsTransitive(s, next, Run(hash, next, writes[1..]));
    }
  }

  /**
   * Write once: what the first successful write of a fingerprint stores is what every later lookup
   * finds, whatever is written in between, and its bytes still match its hash and length.
   */
  lemma FirstWriteStays(hash: Bytes -> string, s: State, w: Write, writes: seq<Write>)
    requires Inv(hash, s) && KeyOf(w.metadata) !in s.artifacts && Put(hash, s, w).1.Stored?
    ensures var later := Run(hash, Put(hash, s, w).0, writes);
            && KeyOf(w.metadata) in later.artifacts && later.artifacts[KeyOf(w.metadata)] == Record(w.metadata, w.bytes)
            && ValidContent(hash, w.metadata, w.bytes)
  {
    PutKeeps(hash, s, w);
    RunKeepsStore(hash, Put(hash, s, w).0, writes);
    hide Run;
  }

  /** A write is answered with stored content only if that content has the hash and length of the bytes written. */
  lemma StoredIsTheContent(hash: Bytes -> string, s: State, w: Write)
    requires Inv(hash, s) && Put(hash, s, w).1.Stored?
    ensures var (after, outcome) := Put(hash, s, w);
            && KeyOf(w.metadata) in after.artifacts && after.artifacts[KeyOf(w.metadata)].metadata == outcome.metadata
            && hash(after.artifacts[KeyOf(w.metadata)].bytes) == hash(w.bytes)
            && |after.artifacts[KeyOf(w.metadata)].bytes| == |w.bytes|
  {
    PutKeeps(hash, s, w);
    assert RecordOk(hash, Put(hash, s, w).0.artifactIds, KeyOf(w.metadata), Put(hash, s, w).0.artifacts[KeyOf(w.metadata)]);
  }

  /** A bound artifact id never stands for another fingerprint: such a write changes nothing, however much later. */
  lemma IdentityStays(hash: Bytes -> string, s: State, writes: seq<Write>, other: Write)
    requires Inv(hash, s) && other.metadata.artifactId in s.artifactIds
    requires s.artifactIds[other.metadata.artifactId] != other.metadata.renderFingerprint
    ensures var later := Run(hash, s, writes);
            Put(hash, later, other).0 == later && !Put(hash, later, other).1.Stored?
  {
    RunKeepsStore(hash, s, writes);
    hide Run, Inv;
  }

  /** Exactly when an accepted write leaves its id bound: its content was new, or the id was bound before. */
  lemma BindsExactly(hash: Bytes -> string, s: State, w: Write)
    requires Put(hash, s, w).1.Stored?
    ensures var ids := Put(hash, s, w).0.artifactIds;
            w.metadata.artifactId in ids && ids[w.metadata.artifactId] == w.metadata.renderFingerprint
            <==> KeyOf(w.metadata) !in s.artifacts || w.metadata.artifactId in s.artifactIds
  {
    hide ValidContent;
  }

  /** Repeating stored content under a new id is accepted and leaves the id free for another fingerprint. */
  lemma RepeatLeavesIdFree(hash: Bytes -> string, first: Write, again: Write, other: Write)
    requires ValidContent(hash, first.metadata, first.bytes) && ValidContent(hash, other.metadata, other.bytes)
    requires again == first.(metadata := first.metadata.(artifactId := other.metadata.artifactId))
    requires other.metadata.artifactId != first.metadata.artifactId && other.metadata.renderFingerprint != first.metadata.renderFingerprint
    requires other.scope != first.scope || other.generation >= first.generation
    ensures var one := Put(hash, Empty, first);
            var two := Put(hash, one.0, again);
            var three := Put(hash, two.0, other);
            && one.1.Stored? && two.1 == Stored(first.metadata) && three.1 == Stored(other.metadata)
            && again.metadata.artifactId == other.metadata.artifactId && again.metadata.renderFingerprint != other.metadata.renderFingerprint
  {
    assert ValidContent(hash, again.metadata, again.bytes);
    hide ValidContent;
  }

  /** Fencing: once a generation is accepted in a scope, no older one ever writes there again. */
  lemma OlderGenerationsAreFenced(hash: Bytes -> string, s: State, w: Write, writes: seq<Write>, older: Write)
    requires Inv(hash, s) && Put(hash, s, w).1.Stored? && older.scope == w.scope && older.generation < w.generation
    ensures var later := Run(hash, Put(hash, s, w).0, writes);
            Put(hash, later, older).0 == later && !Put(hash, later, older).1.Stored?
  {
    PutKeeps(hash, s, w);
    RunKeepsStore(hash, Put(hash, s, w).0, writes);
    hide Run, Inv;
  }

  /** The largest generation among the accepted writes of a scope, if any. */
  function Highest(hash: Bytes -> string, s: State, writes: seq<Write>, scope: string): Option<nat>
    decreases writes
  {
    if writes == [] then None else
      var (next, outcome) := Put(hash, s, writes[0]);
      var rest := Highest(hash, next, writes[1..], scope);
      if !outcome.Stored? || writes[0].scope != scope then rest
      else if rest.None? || rest.value < writes[0].generation then Some(writes[0].generation)
      else rest
  }

  lemma {:induction false} HighestBound(hash: Bytes -> string, s: State, writes: seq<Write>, scope: string)
    requires Inv(hash, s)
    ensures var after, highest := Run(hash, s, writes).generations, Highest(hash, s, writes, scope);
            && (scope in after <==> scope in s.generations || highest.Some?)
            && (scope in after ==> after[scope] == if highest.None? then s.generations[scope] else highest.value)
            && (highest.Some? && scope in s.generations ==> s.generations[scope] <= highest.value)
    decreases writes
  {
    if writes != [] {
      var next := Put(hash, s, writes[0]).0;
      PutKeeps(hash, s, writes[0]);
      hide Inv;
      HighestBound(hash, next, writes[1..], scope);
    }
  }

  /** The recorded generation of a scope is exactly the largest one that wrote there. */
  lemma GenerationIsHighest(hash: Bytes -> string, writes: seq<Write>, scope: string)
    ensures var after := Run(hash, Empty, writes).generations;
            Highest(hash, Empty, writes, scope) == if scope in after then Some(after[scope]) else None
  {
    HighestBound(hash, Empty, writes, scope);
  }

  /** Every answer to a write, exactly on its condition and with its values, in the order they are looked at. */
  lemma PutAnswers(hash: Bytes -> string, s: State, w: Write)
    ensures var (after, outcome) := Put(hash, s, w);
            var m, key := w.metadata, (w.metadata.tenantId, w.metadata.renderFingerprint);
            var intact := hash(w.bytes) == m.contentHash && |w.bytes| == m.byteLength;
            var current := w.scope !in s.generations || s.generations[w.scope] <= w.generation;
            var foreign := m.artifactId in s.artifactIds && s.artifactIds[m.artifactId] != m.renderFingerprint;
            var differs := && key in s.artifacts
                           && !(s.artifacts[key].metadata.contentHash == m.contentHash && s.artifacts[key].metadata.byteLength == m.byteLength);
            && (outcome == InvalidContent(m.artifactId) <==> !intact)
            && (forall scope, received, highest :: outcome == StaleWriter(scope, received, highest) <==>
                  intact && !current && scope == w.scope && received == w.generation && highest == s.generations[w.scope])
            && (outcome == IdentityConflict(m.renderFingerprint) <==> intact && current && foreign)
            && (outcome == ContentConflict(m.renderFingerprint) <==> intact && current && !foreign && differs)
            && (outcome.Stored? <==> intact && current && !foreign && !differs)
            && (!outcome.Stored? ==> after == s)
            && (outcome.Stored? ==>
                  && after.generations == s.generations[w.scope := w.generation]
                  && (key in s.artifacts ==>
                        outcome.metadata == s.artifacts[key].metadata && after.artifacts == s.artifacts && after.artifactIds == s.artifactIds)
                  && (key !in s.artifacts ==>
                        && outcome.metadata == m && after.artifacts == s.artifacts[key := Record(m, w.bytes)]
                        && after.artifactIds == s.artifactIds[m.artifactId := m.renderFingerprint]))
  {
  }

  /** At any point of a run a stale writer is told exactly its own generation and the largest one accepted in its scope. */
  lemma StaleIsTold(hash: Bytes -> string, writes: seq<Write>, w: Write, scope: string, received: nat, highest: nat)
    ensures Put(hash, Run(hash, Empty, writes), w).1 == StaleWriter(scope, received, highest) <==>
            && hash(w.bytes) == w.metadata.contentHash && |w.bytes| == w.metadata.byteLength
            && scope == w.scope && received == w.generation < highest && Highest(hash, Empty, writes, w.scope) == Some(highest)
  {
    GenerationIsHighest(hash, writes, w.scope);
    PutAnswers(hash, Run(hash, Empty, writes), w);
    hide Run, Highest, Put;
  }

  /** Repeating an accepted write changes nothing and answers the same. */
  lemma RetryIsIdempotent(hash: Bytes -> string, s: State, w: Write)
    requires Put(hash, s, w).1.Stored?
    ensures Put(hash, Put(hash, s, w).0, w) == Put(hash, s, w)
  {
    hide ValidContent;
    var after := Put(hash, s, w).0;
    assert after.generations[w.scope := w.generation] == after.generations;
  }

  // ---- The store ----------------------------------------------------------

  class DocumentArtifactStore {
    const hash: Bytes -> string
    var artifacts: map<Key, Record>
    var artifactIds: map<string, string>
    var generations: map<string, nat>

    constructor (hash: Bytes -> string)
      ensures Abs() == Empty && this.hash == hash
    {
      this.hash := hash;
      artifacts, artifactIds, generations := map[], map[], map[];
    }

    ghost function Abs(): State
      reads this
    {
      State(artifacts, artifactIds, generations)
    }

    /** The store keeps a copy of the bytes: writing to the caller's array afterwards cannot reach it. */
    method PutArtifact(metadata: Metadata, bytes: array<bv8>, scope: string, generation: nat) returns (outcome: Outcome)
      modifies this
      ensures (Abs(), outcome) == Put(hash, old(Abs()), Write(metadata, bytes[..], scope, generation))
      ensures bytes[..] == old(bytes[..])
    {
      if hash(bytes[..]) != metadata.contentHash || bytes.Length != metadata.byteLength {
        return InvalidContent(metadata.artifactId);
      }
      if scope in generations && generation < generations[scope] {
        return StaleWriter(scope, generation, generations[scope]);
      }
      outcome := PersistArtifact(metadata, bytes, scope, generation);
    }

    method PersistArtifact(metadata: Metadata, bytes: array<bv8>, scope: string, generation: nat) returns (outcome: Outcome)
      modifies this
      ensures (Abs(), outcome) == Persist(old(Abs()), Write(metadata, bytes[..], scope, generation))
      ensures bytes[..] == old(bytes[..])
    {
      var key := (metadata.tenantId, metadata.renderFingerprint);
      if metadata.artifactId in artifactIds && artifactIds[metadata.artifactId] != metadata.renderFingerprint {
        return IdentityConflict(metadata.renderFingerprint);
      }
      if key in artifacts {
        var existing := artifacts[key].metadata;
        if existing.contentHash != metadata.contentHash || existing.byteLength != metadata.byteLength {
          return ContentConflict(metadata.renderFingerprint);
        }
        generations := generations[scope := generation];
        return Stored(existing);
      }
      artifacts := artifacts[key := Record(metadata, bytes[..])];
      artifactIds := artifactIds[metadata.artifactId := metadata.renderFingerprint];
      generations := generations[scope := generation];
      return Stored(metadata);
    }

    /** A lookup answers with a copy of its own. */
    method Get(tenantId: string, renderFingerprint: string) returns (metadata: Option<Metadata>, bytes: array<bv8>)
      ensures fresh(bytes)
      ensures metadata.Some? <==> (tenantId, renderFingerprint) in artifacts
      ensures metadata.Some? ==> Record(metadata.value, bytes[..]) == artifacts[(tenantId, renderFingerprint)]
    {
      var key := (tenantId, renderFingerprint);
      if key !in artifacts {
        metadata, bytes := None, new bv8[0];
        return;
      }
      var found := artifacts[key].bytes;
      bytes := new bv8[|found|](i requires 0 <= i < |found| => found[i]);
      metadata := Some(artifacts[key].metadata);
      assert bytes[..] == found;
    }
  }
}
