/** The cutover of a legal entity's ledger to TigerBeetle: evidence, preparation, approval. */
module Cutover {
  import opened Optional

  type Id = nat
  type Bytes = seq<bv8>

  datatype Kind =
    | OpeningBalance | HistoricalBoundary | BackupRestore | FailureMatrix | ProjectionRebuild | CutoverRehearsal | Observability

  datatype Evidence = Evidence(
    tenantId: string, legalEntityId: string, kind: Kind, currency: string, targetWatermark: string, mismatchCount: nat, body: string)

  datatype Artifact = Artifact(
    id: Id, tenantId: string, legalEntityId: string, artifactHash: string, signingKeyId: string, signature: string,
    verified: bool, evidence: Evidence, producer: string)

  datatype Configuration = Configuration(tenantId: string, legalEntityId: string, baseCurrency: string, postingEnabled: bool)

  datatype Status = Postgresql | Preparing | VerificationPending | Approved | Activating | TigerBeetle

  datatype Control = Control(
    tenantId: string, legalEntityId: string, status: Status, cutoverWatermark: Option<string>, verificationHash: Option<string>,
    openingBalanceVerified: bool, historicalBoundaryVerified: bool, reconciliationHealthy: bool, backupRecoveryVerified: bool,
    evidenceArtifactId: Option<Id>, unresolvedAcceptedOperations: nat, approvedBy: Option<string>, approvedAt: Option<string>,
    activatedBy: Option<string>, activatedAt: Option<string>)

  /** A signer that may fail to sign, and may fail to verify. */
  datatype Signer = Signer(keyId: string, sign: string -> Option<Bytes>, verify: (string, Bytes) -> Option<bool>)

  datatype Keyring = Keyring(verify: (string, string, Bytes) -> Option<bool>)

  /** Digests and signatures of evidence, and the text encoding of signatures. */
  datatype Crypto = Crypto(
    hash: Evidence -> string, encode: Bytes -> string, decode: string -> Option<Bytes>, signer: Option<Signer>, keyring: Option<Keyring>)

  datatype InvalidReason = ScopeMismatch | Mismatch | Incomplete | Unsigned | Stale

  datatype BlockedReason = NotPrepared | VerificationMismatch | LedgerNotConfigured | ActivationGatesPending

  datatype Rejection =
    | EntityNotFound
    | EntityExists
    | EngineActivated
    | ArtifactNotFound(id: Id)
    | ArtifactInvalid(reason: InvalidReason)
    | Blocked(cause: BlockedReason)

  datatype Outcome<+T> = Done(value: T) | Failed(rejection: Rejection)

  type Key = (string, string)

  datatype State = State(configurations: map<Key, Configuration>, controls: map<Key, Control>, artifacts: map<Id, Artifact>, nextId: Id)

  const Empty := State(map[], map[], map[], 0)

  function NewControl(tenantId: string, legalEntityId: string): Control {
    Control(tenantId, legalEntityId, Postgresql, None, None, false, false, false, false, None, 0, None, None, None, None)
  }

  function ControlOf(s: State, key: Key): Control {
    if key in s.controls then s.controls[key] else NewControl(key.0, key.1)
  }

  // ---- The operations -----------------------------------------------------

  function Configure(upper: string -> string, s: State, tenantId: string, legalEntityId: string, currency: string,
                     postingEnabled: bool, tigerBeetle: bool): (State, Outcome<Configuration>)
  {
    var key := (tenantId, legalEntityId);
    if tigerBeetle then (s, Failed(Blocked(ActivationGatesPending)))
    else if key in s.configurations then (s, Failed(EntityExists))
    else
      var configuration := Configuration(tenantId, legalEntityId, upper(currency), postingEnabled);
      (s.(configurations := s.configurations[key := configuration], controls := s.controls[key := ControlOf(s, key)]), Done(configuration))
  }

  function RecordEvidence(c: Crypto, s: State, tenantId: string, evidence: Evidence, producer: string): (State, Outcome<Artifact>) {
    var key := (tenantId, evidence.legalEntityId);
    if evidence.tenantId != tenantId then (s, Failed(ArtifactInvalid(ScopeMismatch)))
    else if key !in s.configurations || s.configurations[key].baseCurrency != evidence.currency then
      (s, Failed(ArtifactInvalid(ScopeMismatch)))
    else if c.signer.None? then (s, Failed(ArtifactInvalid(Unsigned)))
    else if c.signer.value.sign(c.hash(evidence)).None? then (s, Failed(ArtifactInvalid(Unsigned)))
    else
      var artifact := Artifact(s.nextId, tenantId, evidence.legalEntityId, c.hash(evidence), c.signer.value.keyId,
                               c.encode(c.signer.value.sign(c.hash(evidence)).value), evidence.mismatchCount == 0, evidence, producer);
      (s.(artifacts := s.artifacts[s.nextId := artifact], nextId := s.nextId + 1), Done(artifact))
  }

  function Prepare(s: State, tenantId: string, legalEntityId: string): (State, Outcome<Control>) {
    var key := (tenantId, legalEntityId);
    if key !in s.configurations then (s, Failed(EntityNotFound)) else
      var current := ControlOf(s, key);
      var seen := s.(controls := s.controls[key := current]);
      if current.status == TigerBeetle then (seen, Failed(EngineActivated))
      else if current.status == Postgresql then
        var prepared := current.(status := Preparing);
        (s.(controls := s.controls[key := prepared]), Done(prepared))
      else (seen, Done(current))
  }

  /** Why an artifact cannot support the approval, before its signature is looked at. */
  function Unfit(s: State, key: Key, artifact: Artifact): Option<InvalidReason> {
    var scoped := && artifact.legalEntityId == key.1 && key in s.configurations
                  && artifact.evidence.currency == s.configurations[key].baseCurrency;
    if scoped && artifact.verified && artifact.evidence.kind == CutoverRehearsal && artifact.evidence.mismatchCount == 0 then None
    else if !scoped then Some(ScopeMismatch)
    else if artifact.evidence.mismatchCount > 0 then Some(Mismatch)
    else Some(Incomplete)
  }

  /** Why its digest or signature is not accepted. */
  function Unproven(c: Crypto, artifact: Artifact): Option<InvalidReason> {
    if c.keyring.None? && c.signer.None? then Some(Unsigned)
    else if c.keyring.None? && artifact.signingKeyId != c.signer.value.keyId then Some(Stale)
    else if c.hash(artifact.evidence) != artifact.artifactHash then Some(Mismatch)
    else if c.decode(artifact.signature).None? then Some(Unsigned)
    else
      var signature := c.decode(artifact.signature).value;
      if c.keyring.Some? then
        var answer := c.keyring.value.verify(artifact.signingKeyId, artifact.artifactHash, signature);
        if answer.None? then Some(Stale) else if !answer.value then Some(Unsigned) else None
      else
        var answer := c.signer.value.verify(artifact.artifactHash, signature);
        if answer.None? || !answer.value then Some(Unsigned) else None
  }

  function ApprovedControl(current: Control, artifact: Artifact, approver: string, now: string): Control {
    current.(status := Approved, cutoverWatermark := Some(artifact.evidence.targetWatermark),
             verificationHash := Some(artifact.artifactHash), openingBalanceVerified := true,
             historicalBoundaryVerified := true, reconciliationHealthy := true, backupRecoveryVerified := true,
             evidenceArtifactId := Some(artifact.id), approvedBy := Some(approver), approvedAt := Some(now))
  }

  function Approve(c: Crypto, s: State, tenantId: string, legalEntityId: string, artifactId: Id, approver: string, now: string)
    : (State, Outcome<Control>)
  {
    var key := (tenantId, legalEntityId);
    if key !in s.controls || s.controls[key].status == Postgresql then (s, Failed(Blocked(NotPrepared)))
    else if s.controls[key].status == TigerBeetle then (s, Done(s.controls[key]))
    else if s.controls[key].status == Approved then
      if s.controls[key].evidenceArtifactId == Some(artifactId) then (s, Done(s.controls[key]))
      else (s, Failed(Blocked(VerificationMismatch)))
    else if artifactId !in s.artifacts then (s, Failed(ArtifactNotFound(artifactId)))
    else if Unfit(s, key, s.artifacts[artifactId]).Some? then (s, Failed(ArtifactInvalid(Unfit(s, key, s.artifacts[artifactId]).value)))
    else if Unproven(c, s.artifacts[artifactId]).Some? then (s, Failed(ArtifactInvalid(Unproven(c, s.artifacts[artifactId]).value)))
    else
      var approved := ApprovedControl(s.controls[key], s.artifacts[artifactId], approver, now);
      (s.(controls := s.controls[key := approved]), Done(approved))
  }

  function Activate(s: State, tenantId: string, legalEntityId: string): Outcome<Control> {
    var key := (tenantId, legalEntityId);
    if key in s.controls && s.controls[key].status == TigerBeetle then Done(s.controls[key])
    else Failed(Blocked(LedgerNotConfigured))
  }

  // ---- What every state keeps ---------------------------------------------

  /** A stored artifact carries the digest of its evidence, and is verified exactly without mismatches. */
  ghost predicate ArtifactOk(c: Crypto, s: State, id: Id, a: Artifact) {
    && a.id == id < s.nextId && a.artifactHash == c.hash(a.evidence) && (a.verified <==> a.evidence.mismatchCount == 0)
    && a.tenantId == a.evidence.tenantId && a.legalEntityId == a.evidence.legalEntityId
    && (a.tenantId, a.legalEntityId) in s.configurations
  }

  /** The approval check of the control's schema. */
  predicate ApprovalComplete(control: Control) {
    && control.openingBalanceVerified && control.historicalBoundaryVerified && control.reconciliationHealthy
    && control.backupRecoveryVerified && control.unresolvedAcceptedOperations == 0 && control.cutoverWatermark.Some?
    && control.verificationHash.Some? && control.evidenceArtifactId.Some? && control.approvedBy.Some? && control.approvedAt.Some?
  }

  /** The artifact is zero-mismatch rehearsal evidence of the control's legal entity, in its currency, with its digest. */
  ghost predicate Supports(c: Crypto, s: State, key: Key, control: Control, artifact: Artifact) {
    && artifact.legalEntityId == control.legalEntityId
    && artifact.verified && artifact.evidence.kind == CutoverRehearsal && artifact.evidence.mismatchCount == 0
    && key in s.configurations && artifact.evidence.currency == s.configurations[key].baseCurrency
    && control.verificationHash == Some(artifact.artifactHash) == Some(c.hash(artifact.evidence))
    && control.cutoverWatermark == Some(artifact.evidence.targetWatermark)
    && Unproven(c, artifact).None?
  }

  /** A control is untouched, in preparation, or approved on stored evidence; no other status is reached. */
  ghost predicate ControlOk(c: Crypto, s: State, key: Key, control: Control) {
    && (control.tenantId, control.legalEntityId) == key
    && match control.status
       case Postgresql => control == NewControl(key.0, key.1)
       case Preparing => control == NewControl(key.0, key.1).(status := Preparing)
       case Approved =>
         && ApprovalComplete(control) && control.activatedBy.None? && control.activatedAt.None?
         && control.evidenceArtifactId.value in s.artifacts
         && Supports(c, s, key, control, s.artifacts[control.evidenceArtifactId.value])
       case _ => false
  }

  ghost predicate Inv(c: Crypto, s: State) {
    && (forall id :: id in s.artifacts ==> ArtifactOk(c, s, id, s.artifacts[id]))
    && (forall key :: key in s.controls ==> ControlOk(c, s, key, s.controls[key]))
    && (forall key :: key in s.configurations ==> (s.configurations[key].tenantId, s.configurations[key].legalEntityId) == key)
  }

  function Rank(status: Status): nat {
    match status
    case Postgresql => 0
    case Preparing => 1
    case VerificationPending => 2
    case Approved => 3
    case Activating => 4
    case TigerBeetle => 5
  }

  /** Later controls: never back, and an approved control stays as it is. */
  ghost predicate Advances(before: Control, after: Control) {
    Rank(before.status) <= Rank(after.status) && (before.status == Approved ==> after == before)
  }

  ghost predicate Extends(before: State, after: State) {
    && before.nextId <= after.nextId
    && (forall id :: id in before.artifacts ==> id in after.artifacts && after.artifacts[id] == before.artifacts[id])
    && (forall key :: key in before.configurations ==>
          key in after.configurations && after.configurations[key] == before.configurations[key])
    && (forall key :: key in before.controls ==> key in after.controls && Advances(before.controls[key], after.controls[key]))
  }

  datatype Command =
    | NewEntity(tenantId: string, legalEntityId: string, currency: string, postingEnabled: bool, tigerBeetle: bool)
    | NewEvidence(tenantId: string, evidence: Evidence, producer: string)
    | Preparation(tenantId: string, legalEntityId: string)
    | Approval(tenantId: string, legalEntityId: string, artifactId: Id, approver: string, now: string)
    | Activation(tenantId: string, legalEntityId: string)

  function Step(c: Crypto, upper: string -> string, s: State, command: Command): State {
    match command
    case NewEntity(tenantId, legalEntityId, currency, postingEnabled, tigerBeetle) =>
      Configure(upper, s, tenantId, legalEntityId, currency, postingEnabled, tigerBeetle).0
    case NewEvidence(tenantId, evidence, producer) => RecordEvidence(c, s, tenantId, evidence, producer).0
    case Preparation(tenantId, legalEntityId) => Prepare(s, tenantId, legalEntityId).0
    case Approval(tenantId, legalEntityId, artifactId, approver, now) => Approve(c, s, tenantId, legalEntityId, artifactId, approver, now).0
    case Activation(_, _) => s
  }

  lemma ControlStays(c: Crypto, s: State, after: State, key: Key, control: Control)
    requires ControlOk(c, s, key, control) && Extends(s, after)
    ensures ControlOk(c, after, key, control)
  {
    hide Unproven;
  }

  lemma ArtifactStays(c: Crypto, s: State, after: State, id: Id, artifact: Artifact)
    requires ArtifactOk(c, s, id, artifact) && Extends(s, after)
    ensures ArtifactOk(c, after, id, artifact)
  {
  }

  /** A step that changes at most one control, to one in order, keeps everything in order. */
  lemma ControlSet(c: Crypto, s: State, after: State, key: Key, control: Control)
    requires Inv(c, s) && Extends(s, after) && after == s.(controls := s.controls[key := control], configurations := after.configurations)
    requires forall k :: k in after.configurations ==> (after.configurations[k].tenantId, after.configurations[k].legalEntityId) == k
    requires ControlOk(c, after, key, control)
    ensures Inv(c, after)
  {
    hide ControlOk, ArtifactOk, Extends;
    forall k | k in s.controls ensures ControlOk(c, after, k, s.controls[k]) {
      ControlStays(c, s, after, k, s.controls[k]);
    }
    forall id | id in s.artifacts ensures ArtifactOk(c, after, id, s.artifacts[id]) {
      ArtifactStays(c, s, after, id, s.artifacts[id]);
    }
  }

  lemma ConfigureKeeps(c: Crypto, upper: string -> string, s: State, tenantId: string, legalEntityId: string, currency: string,
                       postingEnabled: bool, tigerBeetle: bool)
    requires Inv(c, s)
    ensures var after := Configure(upper, s, tenantId, legalEntityId, currency, postingEnabled, tigerBeetle).0;
            Inv(c, after) && Extends(s, after)
  {
    var key, r := (tenantId, legalEntityId), Configure(upper, s, tenantId, legalEntityId, currency, postingEnabled, tigerBeetle);
    if r.1.Done? {
      assert Extends(s, r.0);
      if key in s.controls {
        ControlStays(c, s, r.0, key, s.controls[key]);
      }
      ControlSet(c, s, r.0, key, ControlOf(s, key));
    }
  }

  lemma RecordKeeps(c: Crypto, s: State, tenantId: string, evidence: Evidence, producer: string)
    requires Inv(c, s)
    ensures Inv(c, RecordEvidence(c, s, tenantId, evidence, producer).0) && Extends(s, RecordEvidence(c, s, tenantId, evidence, producer).0)
  {
    var r := RecordEvidence(c, s, tenantId, evidence, producer);
    if r.1.Done? {
      assert Extends(s, r.0) && ArtifactOk(c, r.0, s.nextId, r.1.value);
      hide ControlOk, ArtifactOk, Extends;
      forall k | k in s.controls ensures ControlOk(c, r.0, k, s.controls[k]) {
        ControlStays(c, s, r.0, k, s.controls[k]);
      }
      forall id | id in s.artifacts ensures ArtifactOk(c, r.0, id, s.artifacts[id]) {
        ArtifactStays(c, s, r.0, id, s.artifacts[id]);
      }
    }
  }

  lemma PrepareKeeps(c: Crypto, s: State, tenantId: string, legalEntityId: string)
    requires Inv(c, s)
    ensures Inv(c, Prepare(s, tenantId, legalEntityId).0) && Extends(s, Prepare(s, tenantId, legalEntityId).0)
  {
    var key, r := (tenantId, legalEntityId), Prepare(s, tenantId, legalEntityId);
    hide ArtifactOk, Supports;
    if key in s.configurations {
      assert Extends(s, r.0);
      if key in s.controls {
        ControlStays(c, s, r.0, key, s.controls[key]);
      }
      ControlSet(c, s, r.0, key, r.0.controls[key]);
    }
  }

  lemma ApproveKeeps(c: Crypto, s: State, tenantId: string, legalEntityId: string, artifactId: Id, approver: string, now: string)
    requires Inv(c, s)
    ensures var after := Approve(c, s, tenantId, legalEntityId, artifactId, approver, now).0;
            Inv(c, after) && Extends(s, after)
  {
    var key, r := (tenantId, legalEntityId), Approve(c, s, tenantId, legalEntityId, artifactId, approver, now);
    if key in s.controls {
      ReachedStatus(c, s, key, s.controls[key]);
    }
    hide Unproven, Unfit, ControlOk, ArtifactOk, ApprovedControl;
    if r.1.Done? && s.controls[key].status == Preparing {
      ApprovedOk(c, s, r.0, key, artifactId, approver, now);
      ControlSet(c, s, r.0, key, r.1.value);
    }
  }

  lemma ReachedStatus(c: Crypto, s: State, key: Key, control: Control)
    requires ControlOk(c, s, key, control)
    ensures control.status in {Postgresql, Preparing, Approved}
  {
  }

  lemma ApprovedOk(c: Crypto, s: State, after: State, key: Key, artifactId: Id, approver: string, now: string)
    requires key in s.controls && s.controls[key].status == Preparing && artifactId in s.artifacts
    requires ControlOk(c, s, key, s.controls[key]) && ArtifactOk(c, s, artifactId, s.artifacts[artifactId])
    requires Unfit(s, key, s.artifacts[artifactId]).None? && Unproven(c, s.artifacts[artifactId]).None?
    requires after == s.(controls := s.controls[key := ApprovedControl(s.controls[key], s.artifacts[artifactId], approver, now)])
    ensures ControlOk(c, after, key, ApprovedControl(s.controls[key], s.artifacts[artifactId], approver, now)) && Extends(s, after)
  {
    hide Unproven;
  }

  lemma StepKeeps(c: Crypto, upper: string -> string, s: State, command: Command)
    requires Inv(c, s)
    ensures Inv(c, Step(c, upper, s, command)) && Extends(s, Step(c, upper, s, command))
  {
    match command
    case NewEntity(tenantId, legalEntityId, currency, postingEnabled, tigerBeetle) =>
      ConfigureKeeps(c, upper, s, tenantId, legalEntityId, currency, postingEnabled, tigerBeetle);
    case NewEvidence(tenantId, evidence, producer) => RecordKeeps(c, s, tenantId, evidence, producer);
    case Preparation(tenantId, legalEntityId) => PrepareKeeps(c, s, tenantId, legalEntityId);
    case Approval(tenantId, legalEntityId, artifactId, approver, now) =>
      ApproveKeeps(c, s, tenantId, legalEntityId, artifactId, approver, now);
    case Activation(_, _) =>
  }

  function Run(c: Crypto, upper: string -> string, s: State, commands: seq<Command>): State
    decreases commands
  {
    if commands == [] then s else Run(c, upper, Step(c, upper, s, commands[0]), commands[1..])
  }

  lemma ExtendsTransitive(a: State, b: State, d: State)
    requires Extends(a, b) && Extends(b, d)
    ensures Extends(a, d)
  {
    forall key | key in a.controls ensures key in d.controls && Advances(a.controls[key], d.controls[key]) {
      assert Advances(a.controls[key], b.controls[key]) && Advances(b.controls[key], d.controls[key]);
    }
  }

  /** Over any run: evidence and configurations are kept, no control goes back, an approved one never changes. */
  lemma {:induction false} RunKeepsControls(c: Crypto, upper: string -> string, s: State, commands: seq<Command>)
    requires Inv(c, s)
    ensures Inv(c, Run(c, upper, s, commands)) && Extends(s, Run(c, upper, s, commands))
    decreases commands
  {
    if commands != [] {
      hide Inv, Extends, Step;
      var next := Step(c, upper, s, commands[0]);
      StepKeeps(c, upper, s, commands[0]);
      RunKeepsControls(c, upper, next, commands[1..]);
      ExtendsTransitive(s, next, Run(c, upper, next, commands[1..]));
    }
  }

  /**
   * Wherever a run leads, a control is untouched, in preparation, or approved; and an approved one
   * passes the approval check and names a stored zero-mismatch rehearsal artifact of its legal entity
   * whose digest is its verification hash and whose signature is accepted.
   */
  lemma ApprovalsAreSupported(c: Crypto, upper: string -> string, commands: seq<Command>, key: Key)
    requires key in Run(c, upper, Empty, commands).controls
    ensures var s := Run(c, upper, Empty, commands);
            var control := s.controls[key];
            && control.status in {Postgresql, Preparing, Approved}
            && (control.status == Approved ==>
                  && ApprovalComplete(control) && control.evidenceArtifactId.value in s.artifacts
                  && Supports(c, s, key, control, s.artifacts[control.evidenceArtifactId.value]))
  {
    RunKeepsControls(c, upper, Empty, commands);
    var s := Run(c, upper, Empty, commands);
    hide Run, Supports, ApprovalComplete;
    assert ControlOk(c, s, key, s.controls[key]);
  }

  /** No run ever activates the engine: activation is blocked in every state a run reaches. */
  lemma ActivationStaysBlocked(c: Crypto, upper: string -> string, commands: seq<Command>, tenantId: string, legalEntityId: string)
    ensures Activate(Run(c, upper, Empty, commands), tenantId, legalEntityId) == Failed(Blocked(LedgerNotConfigured))
  {
    if (tenantId, legalEntityId) in Run(c, upper, Empty, commands).controls {
      ApprovalsAreSupported(c, upper, commands, (tenantId, legalEntityId));
    }
  }

  /** One step at a time: only preparing moves a control out of PostgreSQL, only approving completes it. */
  lemma OneStepForward(c: Crypto, upper: string -> string, s: State, command: Command, key: Key)
    requires Inv(c, s) && key in s.controls
    ensures var after := Step(c, upper, s, command);
            && key in after.controls
            && (after.controls[key] == s.controls[key]
                || (command == Preparation(key.0, key.1) && s.controls[key].status == Postgresql && after.controls[key].status == Preparing)
                || (command.Approval? && (command.tenantId, command.legalEntityId) == key
                    && s.controls[key].status == Preparing && after.controls[key].status == Approved))
  {
    hide Unproven, Unfit, Supports;
    assert ControlOk(c, s, key, s.controls[key]);
  }

  /**
   * Exactly when an approval in preparation succeeds: the artifact is stored, is zero-mismatch
   * rehearsal evidence of the legal entity in its currency, and its signature is accepted. That it
   * is marked verified and still carries its digest holds of every stored artifact.
   */
  lemma ApprovesExactly(c: Crypto, s: State, tenantId: string, legalEntityId: string, artifactId: Id, approver: string, now: string)
    requires Inv(c, s) && (tenantId, legalEntityId) in s.controls && s.controls[(tenantId, legalEntityId)].status == Preparing
    ensures Approve(c, s, tenantId, legalEntityId, artifactId, approver, now).1.Done? <==>
            && artifactId in s.artifacts && s.artifacts[artifactId].legalEntityId == legalEntityId
            && (tenantId, legalEntityId) in s.configurations
            && s.artifacts[artifactId].evidence.currency == s.configurations[(tenantId, legalEntityId)].baseCurrency
            && s.artifacts[artifactId].evidence.kind == CutoverRehearsal && s.artifacts[artifactId].evidence.mismatchCount == 0
            && SignatureAccepted(c, s.artifacts[artifactId])
    ensures var (after, outcome) := Approve(c, s, tenantId, legalEntityId, artifactId, approver, now);
            outcome.Done? ==>
              && after.controls == s.controls[(tenantId, legalEntityId) := outcome.value] && outcome.value.status == Approved
              && outcome.value.evidenceArtifactId == Some(artifactId) && outcome.value.approvedBy == Some(approver)
  {
    if artifactId in s.artifacts {
      assert ArtifactOk(c, s, artifactId, s.artifacts[artifactId]);
    }
  }

  /** The keyring if there is one, otherwise the signer that signed, accepts the signature of the digest. */
  predicate SignatureAccepted(c: Crypto, artifact: Artifact) {
    && c.decode(artifact.signature).Some?
    && var signature := c.decode(artifact.signature).value;
    match c.keyring
    case Some(keyring) => keyring.verify(artifact.signingKeyId, artifact.artifactHash, signature) == Some(true)
    case None =>
      && c.signer.Some? && artifact.signingKeyId == c.signer.value.keyId
      && c.signer.value.verify(artifact.artifactHash, signature) == Some(true)
  }

  /**
   * What the signer signs for a digest is accepted, once encoded and decoded, by whatever verifies:
   * the keyring if there is one, otherwise the signer.
   */
  predicate SignsAcceptably(c: Crypto, digest: string) {
    && c.signer.Some? && c.signer.value.sign(digest).Some?
    && var decoded := c.decode(c.encode(c.signer.value.sign(digest).value));
    && decoded.Some?
    && match c.keyring
       case Some(keyring) => keyring.verify(c.signer.value.keyId, digest, decoded.value) == Some(true)
       case None => c.signer.value.verify(digest, decoded.value) == Some(true)
  }

  /**
   * Recorded zero-mismatch rehearsal evidence approves the prepared cutover it was recorded for
   * exactly when whatever verifies accepts what the signer signed.
   */
  lemma RehearsalApproves(c: Crypto, s: State, evidence: Evidence, producer: string, approver: string, now: string)
    requires Inv(c, s) && evidence.kind == CutoverRehearsal && evidence.mismatchCount == 0
    requires (evidence.tenantId, evidence.legalEntityId) in s.controls
    requires s.controls[(evidence.tenantId, evidence.legalEntityId)].status == Preparing
    requires RecordEvidence(c, s, evidence.tenantId, evidence, producer).1.Done?
    ensures var (recorded, artifact) := RecordEvidence(c, s, evidence.tenantId, evidence, producer);
            Approve(c, recorded, evidence.tenantId, evidence.legalEntityId, artifact.value.id, approver, now).1.Done?
            <==> SignsAcceptably(c, c.hash(evidence))
  {
    var (recorded, artifact) := RecordEvidence(c, s, evidence.tenantId, evidence, producer);
    RecordKeeps(c, s, evidence.tenantId, evidence, producer);
    hide Inv;
    assert SignatureAccepted(c, artifact.value) <==> SignsAcceptably(c, c.hash(evidence));
    ApprovesExactly(c, recorded, evidence.tenantId, evidence.legalEntityId, artifact.value.id, approver, now);
  }

  /** A legal entity not configured before can go all the way: configured, prepared, rehearsed, approved. */
  lemma CutoverCanComplete(c: Crypto, upper: string -> string, s: State, currency: string, evidence: Evidence,
                           producer: string, approver: string, now: string)
    requires Inv(c, s) && evidence.kind == CutoverRehearsal && evidence.mismatchCount == 0 && evidence.currency == upper(currency)
    requires (evidence.tenantId, evidence.legalEntityId) !in s.configurations
    requires (evidence.tenantId, evidence.legalEntityId) !in s.controls
    requires SignsAcceptably(c, c.hash(evidence))
    ensures var (t, e) := (evidence.tenantId, evidence.legalEntityId);
            var after := Run(c, upper, s, [NewEntity(t, e, currency, true, false), Preparation(t, e),
                                           NewEvidence(t, evidence, producer), Approval(t, e, s.nextId, approver, now)]);
            && (t, e) in after.controls && after.controls[(t, e)].status == Approved
            && after.controls[(t, e)].verificationHash == Some(c.hash(evidence))
  {
    var (t, e) := (evidence.tenantId, evidence.legalEntityId);
    var a, b := NewEntity(t, e, currency, true, false), Preparation(t, e);
    var d, f := NewEvidence(t, evidence, producer), Approval(t, e, s.nextId, approver, now);
    var prepared := Step(c, upper, Step(c, upper, s, a), b);
    RunFour(c, upper, s, a, b, d, f);
    ReadyToApprove(c, upper, s, t, e, currency);
    var recorded := Step(c, upper, prepared, d);
    StepKeeps(c, upper, prepared, d);
    hide Run, Inv, Extends, Configure, Prepare;
    RehearsalApproves(c, prepared, evidence, producer, approver, now);
    ApprovesExactly(c, recorded, t, e, s.nextId, approver, now);
  }

  lemma ReadyToApprove(c: Crypto, upper: string -> string, s: State, t: string, e: string, currency: string)
    requires Inv(c, s) && (t, e) !in s.configurations && (t, e) !in s.controls
    ensures var prepared := Step(c, upper, Step(c, upper, s, NewEntity(t, e, currency, true, false)), Preparation(t, e));
            && Inv(c, prepared) && prepared.nextId == s.nextId && (t, e) in prepared.configurations && (t, e) in prepared.controls
            && prepared.configurations[(t, e)].baseCurrency == upper(currency) && prepared.controls[(t, e)].status == Preparing
  {
    var configured := Step(c, upper, s, NewEntity(t, e, currency, true, false));
    StepKeeps(c, upper, s, NewEntity(t, e, currency, true, false));
    StepKeeps(c, upper, configured, Preparation(t, e));
    hide Inv, Extends;
  }

  lemma RunFour(c: Crypto, upper: string -> string, s: State, a: Command, b: Command, d: Command, e: Command)
    ensures Run(c, upper, s, [a, b, d, e]) ==
            Step(c, upper, Step(c, upper, Step(c, upper, Step(c, upper, s, a), b), d), e)
  {
    hide Step;
    var one := Step(c, upper, s, a);
    var two := Step(c, upper, one, b);
    var three := Step(c, upper, two, d);
    assert [a] + [b, d, e] == [a, b, d, e] && [b] + [d, e] == [b, d, e] && [d] + [e] == [d, e] && [e] + [] == [e];
    RunCons(c, upper, s, a, [b, d, e]);
    RunCons(c, upper, one, b, [d, e]);
    RunCons(c, upper, two, d, [e]);
    RunCons(c, upper, three, e, []);
  }

  // ---- Evidence of another tenant -----------------------------------------

  /**
   * An approval does not ask whose evidence it is: where two tenants configure the same legal entity
   * id in one currency, the rehearsal one of them records approves the cutover of the other.
   */
  lemma OtherTenantsEvidenceApproves(c: Crypto, upper: string -> string, currency: string, evidence: Evidence, other: string,
                                     producer: string, approver: string, now: string)
    requires other != evidence.tenantId && evidence.kind == CutoverRehearsal && evidence.mismatchCount == 0
    requires evidence.currency == upper(currency) && SignsAcceptably(c, c.hash(evidence))
    ensures var (t, e) := (evidence.tenantId, evidence.legalEntityId);
            var s := Run(c, upper, Empty, [NewEntity(t, e, currency, true, false), NewEntity(other, e, currency, true, false),
                                           NewEvidence(t, evidence, producer), Preparation(other, e), Approval(other, e, 0, approver, now)]);
            && (other, e) in s.controls && s.controls[(other, e)].status == Approved
            && s.controls[(other, e)].evidenceArtifactId == Some(0) && 0 in s.artifacts && s.artifacts[0].tenantId == t != other
  {
    var (t, e) := (evidence.tenantId, evidence.legalEntityId);
    var a, b := NewEntity(t, e, currency, true, false), NewEntity(other, e, currency, true, false);
    var d, f, g := NewEvidence(t, evidence, producer), Preparation(other, e), Approval(other, e, 0, approver, now);
    RunCons(c, upper, Empty, a, [b, d, f, g]);
    RunFour(c, upper, Step(c, upper, Empty, a), b, d, f, g);
    TwoTenantsRecorded(c, upper, currency, evidence, other, producer);
    hide Run;
    assert [a] + [b, d, f, g] == [a, b, d, f, g];
    var recorded := Step(c, upper, Step(c, upper, Step(c, upper, Empty, a), b), d);
    var prepared := Step(c, upper, recorded, f);
    StepKeeps(c, upper, recorded, f);
    PrepareMoves(recorded, other, e);
    assert SignatureAccepted(c, recorded.artifacts[0]);
    hide Inv, Configure, RecordEvidence, SignatureAccepted, Extends, Prepare;
    ApprovesExactly(c, prepared, other, e, 0, approver, now);
  }

  lemma PrepareMoves(s: State, t: string, e: string)
    requires (t, e) in s.configurations && (t, e) in s.controls && s.controls[(t, e)].status == Postgresql
    ensures Prepare(s, t, e).0 == s.(controls := s.controls[(t, e) := s.controls[(t, e)].(status := Preparing)])
  {
  }

  lemma TwoTenantsRecorded(c: Crypto, upper: string -> string, currency: string, evidence: Evidence, other: string, producer: string)
    requires other != evidence.tenantId && evidence.mismatchCount == 0 && evidence.currency == upper(currency)
    requires c.signer.Some? && c.signer.value.sign(c.hash(evidence)).Some?
    ensures var (t, e) := (evidence.tenantId, evidence.legalEntityId);
            var both := Step(c, upper, Step(c, upper, Empty, NewEntity(t, e, currency, true, false)), NewEntity(other, e, currency, true, false));
            var s := Step(c, upper, both, NewEvidence(t, evidence, producer));
            && Inv(c, s) && (other, e) in s.configurations && s.configurations[(other, e)].baseCurrency == upper(currency)
            && (other, e) in s.controls && s.controls[(other, e)].status == Postgresql
            && s.artifacts == map[0 := RecordEvidence(c, both, t, evidence, producer).1.value]
            && RecordEvidence(c, both, t, evidence, producer).1.Done?
  {
    TwoTenantsConfigured(c, upper, currency, evidence.tenantId, other, evidence.legalEntityId);
    var (t, e) := (evidence.tenantId, evidence.legalEntityId);
    var both := Step(c, upper, Step(c, upper, Empty, NewEntity(t, e, currency, true, false)), NewEntity(other, e, currency, true, false));
    StepKeeps(c, upper, both, NewEvidence(t, evidence, producer));
    hide Inv, Extends, Configure;
  }

  lemma TwoTenantsConfigured(c: Crypto, upper: string -> string, currency: string, t: string, other: string, e: string)
    requires other != t
    ensures var both := Step(c, upper, Step(c, upper, Empty, NewEntity(t, e, currency, true, false)), NewEntity(other, e, currency, true, false));
            && Inv(c, both) && both.nextId == 0 && both.artifacts == map[]
            && (t, e) in both.configurations && both.configurations[(t, e)].baseCurrency == upper(currency)
            && (other, e) in both.configurations && both.configurations[(other, e)].baseCurrency == upper(currency)
            && (other, e) in both.controls && both.controls[(other, e)].status == Postgresql
  {
    var one := Step(c, upper, Empty, NewEntity(t, e, currency, true, false));
    StepKeeps(c, upper, Empty, NewEntity(t, e, currency, true, false));
    StepKeeps(c, upper, one, NewEntity(other, e, currency, true, false));
    hide Inv, Extends;
  }

  lemma RunCons(c: Crypto, upper: string -> string, s: State, first: Command, rest: seq<Command>)
    ensures Run(c, upper, s, [first] + rest) == Run(c, upper, Step(c, upper, s, first), rest)
  {
    hide Step;
    assert ([first] + rest)[1..] == rest;
  }

  /** The command approves a prepared cutover on evidence of another tenant; all of it can be read before the call. */
  ghost predicate Crosses(c: Crypto, s: State, command: Command) {
    command.Approval?
    && var key := (command.tenantId, command.legalEntityId);
    && key in s.controls && s.controls[key].status == Preparing && command.artifactId in s.artifacts
    && Unfit(s, key, s.artifacts[command.artifactId]).None? && Unproven(c, s.artifacts[command.artifactId]).None?
    && s.artifacts[command.artifactId].tenantId != command.tenantId
  }

  /** Every approved control rests on evidence of its own tenant. */
  ghost predicate OwnEvidence(s: State) {
    forall key :: key in s.controls && s.controls[key].status == Approved && s.controls[key].evidenceArtifactId.Some?
                  && s.controls[key].evidenceArtifactId.value in s.artifacts ==>
      s.artifacts[s.controls[key].evidenceArtifactId.value].tenantId == key.0
  }

  /** Exactly when a step keeps evidence with its tenant: unless it approves on another tenant's evidence. */
  lemma StepOwnsExactly(c: Crypto, upper: string -> string, s: State, command: Command)
    requires Inv(c, s) && OwnEvidence(s)
    ensures OwnEvidence(Step(c, upper, s, command)) <==> !Crosses(c, s, command)
  {
    var after := Step(c, upper, s, command);
    StepKeeps(c, upper, s, command);
    hide Unproven, Unfit, Supports;
    if Crosses(c, s, command) {
      var key := (command.tenantId, command.legalEntityId);
      assert after.controls[key].evidenceArtifactId == Some(command.artifactId);
    } else {
      forall key | key in after.controls && after.controls[key].status == Approved && after.controls[key].evidenceArtifactId.Some?
                   && after.controls[key].evidenceArtifactId.value in after.artifacts
        ensures after.artifacts[after.controls[key].evidenceArtifactId.value].tenantId == key.0
      {
        OwnsAt(c, upper, s, command, key);
      }
    }
  }

  lemma OwnsAt(c: Crypto, upper: string -> string, s: State, command: Command, key: Key)
    requires Inv(c, s) && OwnEvidence(s) && !Crosses(c, s, command) && key in Step(c, upper, s, command).controls
    requires Step(c, upper, s, command).controls[key].status == Approved
    ensures var after := Step(c, upper, s, command);
            after.controls[key].evidenceArtifactId.Some? && after.controls[key].evidenceArtifactId.value in after.artifacts
            && after.artifacts[after.controls[key].evidenceArtifactId.value].tenantId == key.0
  {
    var after := Step(c, upper, s, command);
    if key in s.controls {
      StepKeeps(c, upper, s, command);
      OneStepForward(c, upper, s, command, key);
      if s.controls[key].status == Approved {
        ReachedEvidence(c, s, key);
      }
      if after.controls[key] != s.controls[key] {
        ApprovalNames(c, s, command);
      }
      hide Inv, Step, Unproven, Unfit, ControlOk;
    } else {
      NewControlsAreFresh(c, upper, s, command, key);
    }
  }

  lemma ReachedEvidence(c: Crypto, s: State, key: Key)
    requires Inv(c, s) && key in s.controls && s.controls[key].status == Approved
    ensures s.controls[key].evidenceArtifactId.Some? && s.controls[key].evidenceArtifactId.value in s.artifacts
  {
    assert ControlOk(c, s, key, s.controls[key]);
    hide Unproven, Supports;
  }

  /** An approval that completes a preparation passed its tests and names the artifact it was given. */
  lemma ApprovalNames(c: Crypto, s: State, command: Command)
    requires Inv(c, s) && command.Approval? && (command.tenantId, command.legalEntityId) in s.controls
    requires s.controls[(command.tenantId, command.legalEntityId)].status == Preparing
    requires var key := (command.tenantId, command.legalEntityId);
             Approve(c, s, key.0, key.1, command.artifactId, command.approver, command.now).0.controls[key].status == Approved
    ensures var key, id := (command.tenantId, command.legalEntityId), command.artifactId;
            && id in s.artifacts && Unfit(s, key, s.artifacts[id]).None? && Unproven(c, s.artifacts[id]).None?
            && Approve(c, s, key.0, key.1, id, command.approver, command.now).0.controls[key].evidenceArtifactId == Some(id)
  {
    if command.artifactId in s.artifacts {
      assert ArtifactOk(c, s, command.artifactId, s.artifacts[command.artifactId]);
    }
    hide Inv, Unproven, Unfit;
  }

  lemma NewControlsAreFresh(c: Crypto, upper: string -> string, s: State, command: Command, key: Key)
    requires key !in s.controls && key in Step(c, upper, s, command).controls
    ensures Step(c, upper, s, command).controls[key].status in {Postgresql, Preparing}
  {
  }

  /** Some approval of the run crosses tenants. */
  ghost predicate CrossesTenants(c: Crypto, upper: string -> string, s: State, commands: seq<Command>)
    decreases commands
  {
    commands != [] && (Crosses(c, s, commands[0]) || CrossesTenants(c, upper, Step(c, upper, s, commands[0]), commands[1..]))
  }

  /** Evidence of another tenant on an approved control stays there. */
  lemma ForeignEvidenceStays(c: Crypto, s: State, after: State)
    requires Inv(c, s) && Extends(s, after) && !OwnEvidence(s)
    ensures !OwnEvidence(after)
  {
    var key :| key in s.controls && s.controls[key].status == Approved && s.controls[key].evidenceArtifactId.Some?
               && s.controls[key].evidenceArtifactId.value in s.artifacts
               && s.artifacts[s.controls[key].evidenceArtifactId.value].tenantId != key.0;
    assert after.controls[key] == s.controls[key];
    hide Inv;
  }

  /** Exactly when a run leaves every approved control on evidence of its own tenant: no approval in it crosses tenants. */
  lemma {:induction false} RunOwnsExactly(c: Crypto, upper: string -> string, s: State, commands: seq<Command>)
    requires Inv(c, s) && OwnEvidence(s)
    ensures OwnEvidence(Run(c, upper, s, commands)) <==> !CrossesTenants(c, upper, s, commands)
    decreases commands
  {
    if commands != [] {
      hide Inv, Extends, Step, Crosses, OwnEvidence;
      var next := Step(c, upper, s, commands[0]);
      StepKeeps(c, upper, s, commands[0]);
      StepOwnsExactly(c, upper, s, commands[0]);
      if Crosses(c, s, commands[0]) {
        RunKeepsControls(c, upper, next, commands[1..]);
        ForeignEvidenceStays(c, next, Run(c, upper, next, commands[1..]));
      } else {
        RunOwnsExactly(c, upper, next, commands[1..]);
      }
    }
  }

  /** Legal entity ids that belong to one tenant each rule the case out. */
  lemma OneTenantPerEntity(c: Crypto, s: State)
    requires Inv(c, s)
    requires forall a, b :: a in s.configurations && b in s.configurations && a.1 == b.1 ==> a == b
    ensures OwnEvidence(s)
  {
    hide Unproven;
    forall key | key in s.controls && s.controls[key].status == Approved && s.controls[key].evidenceArtifactId.Some?
                 && s.controls[key].evidenceArtifactId.value in s.artifacts
      ensures s.artifacts[s.controls[key].evidenceArtifactId.value].tenantId == key.0
    {
      var id := s.controls[key].evidenceArtifactId.value;
      assert ControlOk(c, s, key, s.controls[key]) && ArtifactOk(c, s, id, s.artifacts[id]);
      assert (s.artifacts[id].tenantId, s.artifacts[id].legalEntityId) in s.configurations;
    }
  }

  // ---- The service --------------------------------------------------------

  class CutoverControls {
    const crypto: Crypto
    const upper: string -> string
    var configurations: map<Key, Configuration>
    var controls: map<Key, Control>
    var artifacts: map<Id, Artifact>
    var nextId: Id

    constructor (crypto: Crypto, upper: string -> string)
      ensures Abs() == Empty && this.crypto == crypto && this.upper == upper
    {
      this.crypto, this.upper := crypto, upper;
      configurations, controls, artifacts, nextId := map[], map[], map[], 0;
    }

    ghost function Abs(): State
      reads this
    {
      State(configurations, controls, artifacts, nextId)
    }

    /** The control of a legal entity, stored when it is first asked for. */
    method TestControl(tenantId: string, legalEntityId: string) returns (control: Control)
      modifies this`controls
      ensures control == ControlOf(old(Abs()), (tenantId, legalEntityId))
      ensures controls == old(controls)[(tenantId, legalEntityId) := control]
    {
      var key := (tenantId, legalEntityId);
      if key in controls {
        control := controls[key];
        assert controls == controls[key := control];
        return;
      }
      control := NewControl(tenantId, legalEntityId);
      controls := controls[key := control];
    }

    method ConfigureLegalEntity(tenantId: string, legalEntityId: string, currency: string, postingEnabled: bool, tigerBeetle: bool)
      returns (outcome: Outcome<Configuration>)
      modifies this`configurations, this`controls
      ensures (Abs(), outcome) == Configure(upper, old(Abs()), tenantId, legalEntityId, currency, postingEnabled, tigerBeetle)
    {
      if tigerBeetle {
        return Failed(Blocked(ActivationGatesPending));
      }
      var key := (tenantId, legalEntityId);
      if key in configurations {
        return Failed(EntityExists);
      }
      var configuration := Configuration(tenantId, legalEntityId, upper(currency), postingEnabled);
      configurations := configurations[key := configuration];
      var control := TestControl(tenantId, legalEntityId);
      return Done(configuration);
    }

    method RecordVerificationArtifact(tenantId: string, evidence: Evidence, producer: string) returns (outcome: Outcome<Artifact>)
      modifies this`artifacts, this`nextId
      ensures (Abs(), outcome) == RecordEvidence(crypto, old(Abs()), tenantId, evidence, producer)
    {
      if evidence.tenantId != tenantId {
        return Failed(ArtifactInvalid(ScopeMismatch));
      }
      var key := (tenantId, evidence.legalEntityId);
      if key !in configurations || configurations[key].baseCurrency != evidence.currency {
        return Failed(ArtifactInvalid(ScopeMismatch));
      }
      if crypto.signer.None? {
        return Failed(ArtifactInvalid(Unsigned));
      }
      var artifactHash := crypto.hash(evidence);
      var signatureBytes := crypto.signer.value.sign(artifactHash);
      if signatureBytes.None? {
        return Failed(ArtifactInvalid(Unsigned));
      }
      var signature := crypto.encode(signatureBytes.value);
      var artifact := Artifact(nextId, tenantId, evidence.legalEntityId, artifactHash, crypto.signer.value.keyId, signature,
                               evidence.mismatchCount == 0, evidence, producer);
      artifacts, nextId := artifacts[nextId := artifact], nextId + 1;
      return Done(artifact);
    }

    method PrepareTigerBeetleCutover(tenantId: string, legalEntityId: string) returns (outcome: Outcome<Control>)
      modifies this`controls
      ensures (Abs(), outcome) == Prepare(old(Abs()), tenantId, legalEntityId)
    {
      var key := (tenantId, legalEntityId);
      if key !in configurations {
        return Failed(EntityNotFound);
      }
      var current := TestControl(tenantId, legalEntityId);
      if current.status == TigerBeetle {
        return Failed(EngineActivated);
      }
      if current.status == Postgresql {
        var prepared := current.(status := Preparing);
        assert controls[key := prepared] == old(controls)[key := prepared];
        controls := controls[key := prepared];
        return Done(prepared);
      }
      return Done(current);
    }

    method ApproveTigerBeetleCutover(tenantId: string, legalEntityId: string, artifactId: Id, approver: string, now: string)
      returns (outcome: Outcome<Control>)
      modifies this`controls
      ensures (Abs(), outcome) == Approve(crypto, old(Abs()), tenantId, legalEntityId, artifactId, approver, now)
    {
      hide Unfit, Unproven, ApprovedControl;
      var key := (tenantId, legalEntityId);
      if key !in controls || controls[key].status == Postgresql {
        return Failed(Blocked(NotPrepared));
      }
      var current := controls[key];
      if current.status == TigerBeetle {
        return Done(current);
      }
      if current.status == Approved {
        return if current.evidenceArtifactId == Some(artifactId) then Done(current) else Failed(Blocked(VerificationMismatch));
      }
      if artifactId !in artifacts {
        return Failed(ArtifactNotFound(artifactId));
      }
      var artifact := artifacts[artifactId];
      var unfit := Unfit(State(configurations, controls, artifacts, nextId), key, artifact);
      if unfit.Some? {
        return Failed(ArtifactInvalid(unfit.value));
      }
      var unproven := Unproven(crypto, artifact);
      if unproven.Some? {
        return Failed(ArtifactInvalid(unproven.value));
      }
      var approved := ApprovedControl(current, artifact, approver, now);
      controls := controls[key := approved];
      return Done(approved);
    }

    method ActivateTigerBeetleCutover(tenantId: string, legalEntityId: string) returns (outcome: Outcome<Control>)
      ensures outcome == Activate(Abs(), tenantId, legalEntityId)
    {
      var key := (tenantId, legalEntityId);
      if key in controls && controls[key].status == TigerBeetle {
        return Done(controls[key]);
      }
      return Failed(Blocked(LedgerNotConfigured));
    }
  }
}
