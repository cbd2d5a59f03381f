/** What the cutover operations answer, and when, said of the stored controls, evidence and configurations. */
module CutoverAnswers {
  import opened Optional
  import opened Cutover

  /**
   * After a successful approval, however much later, approving again changes nothing: it returns the
   * same control for the artifact it was approved on and is refused for any other, stored or not.
   */
  lemma ApprovalIsFinal(c: Crypto, upper: string -> string, s: State, tenantId: string, legalEntityId: string, artifactId: Id,
                        approver: string, now: string, commands: seq<Command>, again: Id, other: string, later: string)
    requires Inv(c, s) && Approve(c, s, tenantId, legalEntityId, artifactId, approver, now).1.Done?
    ensures var (after, outcome) := Approve(c, s, tenantId, legalEntityId, artifactId, approver, now);
            var end := Run(c, upper, after, commands);
            Approve(c, end, tenantId, legalEntityId, again, other, later) ==
            (end, if again == artifactId then outcome else Failed(Blocked(VerificationMismatch)))
  {
    var (after, outcome) := Approve(c, s, tenantId, legalEntityId, artifactId, approver, now);
    DoneIsApproved(c, s, tenantId, legalEntityId, artifactId, approver, now);
    StepKeeps(c, upper, s, Approval(tenantId, legalEntityId, artifactId, approver, now));
    hide Approve, Run, Inv, Unfit, Unproven;
    RunKeepsControls(c, upper, after, commands);
    assert Advances(after.controls[(tenantId, legalEntityId)], Run(c, upper, after, commands).controls[(tenantId, legalEntityId)]);
    ApprovedAnswers(c, Run(c, upper, after, commands), tenantId, legalEntityId, again, other, later);
  }

  /** A successful approval leaves the control it returns, approved on the artifact it named. */
  lemma DoneIsApproved(c: Crypto, s: State, tenantId: string, legalEntityId: string, artifactId: Id, approver: string, now: string)
    requires Inv(c, s) && Approve(c, s, tenantId, legalEntityId, artifactId, approver, now).1.Done?
    ensures var (after, outcome) := Approve(c, s, tenantId, legalEntityId, artifactId, approver, now);
            && (tenantId, legalEntityId) in after.controls && after.controls[(tenantId, legalEntityId)] == outcome.value
            && outcome.value.status == Approved && outcome.value.evidenceArtifactId == Some(artifactId)
  {
    var key := (tenantId, legalEntityId);
    assert ControlOk(c, s, key, s.controls[key]);
    hide Inv, Unproven, Unfit, Supports;
    if artifactId in s.artifacts {
      IdIsOwn(c, s, artifactId);
    }
  }

  lemma IdIsOwn(c: Crypto, s: State, id: Id)
    requires Inv(c, s) && id in s.artifacts
    ensures s.artifacts[id].id == id
  {
    assert ArtifactOk(c, s, id, s.artifacts[id]);
  }

  /** An approved control answers for its own artifact only. */
  lemma ApprovedAnswers(c: Crypto, s: State, tenantId: string, legalEntityId: string, artifactId: Id, approver: string, now: string)
    requires (tenantId, legalEntityId) in s.controls && s.controls[(tenantId, legalEntityId)].status == Approved
    ensures var control := s.controls[(tenantId, legalEntityId)];
            Approve(c, s, tenantId, legalEntityId, artifactId, approver, now) ==
            (s, if control.evidenceArtifactId == Some(artifactId) then Done(control) else Failed(Blocked(VerificationMismatch)))
  {
    hide Unfit, Unproven;
  }

  /** Only a control that was prepared can be approved. */
  lemma NotPreparedExactly(c: Crypto, s: State, tenantId: string, legalEntityId: string, artifactId: Id, approver: string, now: string)
    ensures Approve(c, s, tenantId, legalEntityId, artifactId, approver, now).1 == Failed(Blocked(NotPrepared)) <==>
            (tenantId, legalEntityId) !in s.controls || s.controls[(tenantId, legalEntityId)].status == Postgresql
    ensures (tenantId, legalEntityId) !in s.controls || s.controls[(tenantId, legalEntityId)].status == Postgresql ==>
              Approve(c, s, tenantId, legalEntityId, artifactId, approver, now).0 == s
  {
    hide Unfit, Unproven;
  }

  /** The artifact is of the legal entity, which is configured in the currency of the evidence. */
  predicate InScope(s: State, tenantId: string, legalEntityId: string, artifact: Artifact) {
    && artifact.legalEntityId == legalEntityId && (tenantId, legalEntityId) in s.configurations
    && s.configurations[(tenantId, legalEntityId)].baseCurrency == artifact.evidence.currency
  }

  /** What the verifier says of the stored signature; nothing if it cannot say. */
  function Verified(c: Crypto, artifact: Artifact, signature: Bytes): Option<bool>
    requires c.keyring.Some? || c.signer.Some?
  {
    if c.keyring.Some? then c.keyring.value.verify(artifact.signingKeyId, artifact.artifactHash, signature)
    else c.signer.value.verify(artifact.artifactHash, signature)
  }

  /** No one can verify, the signature cannot be read, or it is not accepted. */
  predicate NotSigned(c: Crypto, artifact: Artifact) {
    || (c.keyring.None? && c.signer.None?)
    || ((c.keyring.Some? || artifact.signingKeyId == c.signer.value.keyId)
        && (c.decode(artifact.signature).None?
            || Verified(c, artifact, c.decode(artifact.signature).value) == Some(false)
            || (c.keyring.None? && Verified(c, artifact, c.decode(artifact.signature).value).None?)))
  }

  /** The signer has another key by now, or the keyring cannot tell. */
  predicate KeyIsStale(c: Crypto, artifact: Artifact) {
    || (c.keyring.None? && c.signer.Some? && artifact.signingKeyId != c.signer.value.keyId)
    || (c.keyring.Some? && c.decode(artifact.signature).Some?
        && Verified(c, artifact, c.decode(artifact.signature).value).None?)
  }

  /** The evidence is a rehearsal without mismatches. */
  predicate Rehearsed(artifact: Artifact) {
    artifact.evidence.kind == CutoverRehearsal && artifact.evidence.mismatchCount == 0
  }

  /** Every answer to an approval in preparation, exactly on its condition, in the order they are looked at. */
  lemma ApprovalAnswers(c: Crypto, s: State, tenantId: string, legalEntityId: string, artifactId: Id, approver: string, now: string)
    requires Inv(c, s) && (tenantId, legalEntityId) in s.controls && s.controls[(tenantId, legalEntityId)].status == Preparing
    ensures var (after, outcome) := Approve(c, s, tenantId, legalEntityId, artifactId, approver, now);
            && (outcome == Failed(ArtifactNotFound(artifactId)) <==> artifactId !in s.artifacts)
            && (outcome.Failed? ==> after == s)
            && (artifactId in s.artifacts ==>
                  var artifact := s.artifacts[artifactId];
                  var scoped := InScope(s, tenantId, legalEntityId, artifact);
                  && (outcome == Failed(ArtifactInvalid(ScopeMismatch)) <==> !scoped)
                  && (outcome == Failed(ArtifactInvalid(Mismatch)) <==> scoped && artifact.evidence.mismatchCount > 0)
                  && (outcome == Failed(ArtifactInvalid(Incomplete)) <==>
                      scoped && artifact.evidence.mismatchCount == 0 && artifact.evidence.kind != CutoverRehearsal)
                  && (outcome == Failed(ArtifactInvalid(Unsigned)) <==> scoped && Rehearsed(artifact) && NotSigned(c, artifact))
                  && (outcome == Failed(ArtifactInvalid(Stale)) <==> scoped && Rehearsed(artifact) && KeyIsStale(c, artifact))
                  && (outcome.Done? <==> scoped && Rehearsed(artifact) && !NotSigned(c, artifact) && !KeyIsStale(c, artifact)))
  {
    if artifactId in s.artifacts {
      assert ArtifactOk(c, s, artifactId, s.artifacts[artifactId]);
      UnfitAnswers(s, tenantId, legalEntityId, s.artifacts[artifactId]);
      UnprovenAnswers(c, s.artifacts[artifactId]);
    }
    hide Unfit, Unproven, InScope, Rehearsed, NotSigned, KeyIsStale, Inv;
  }

  lemma UnfitAnswers(s: State, tenantId: string, legalEntityId: string, artifact: Artifact)
    requires artifact.verified <==> artifact.evidence.mismatchCount == 0
    ensures var unfit, scoped := Unfit(s, (tenantId, legalEntityId), artifact), InScope(s, tenantId, legalEntityId, artifact);
            unfit == if !scoped then Some(ScopeMismatch)
                     else if artifact.evidence.mismatchCount > 0 then Some(Mismatch)
                     else if Rehearsed(artifact) then None else Some(Incomplete)
    ensures Rehearsed(artifact) <==> artifact.evidence.mismatchCount == 0 && artifact.evidence.kind == CutoverRehearsal
  {
  }

  lemma UnprovenAnswers(c: Crypto, artifact: Artifact)
    requires artifact.artifactHash == c.hash(artifact.evidence)
    ensures Unproven(c, artifact) == Some(Unsigned) <==> NotSigned(c, artifact)
    ensures Unproven(c, artifact) == Some(Stale) <==> KeyIsStale(c, artifact)
    ensures Unproven(c, artifact).None? <==> !NotSigned(c, artifact) && !KeyIsStale(c, artifact)
  {
  }

  /** An approval records the artifact it rests on, its watermark and digest, who approved it and when, and keeps the rest. */
  lemma ApprovedRecords(c: Crypto, s: State, tenantId: string, legalEntityId: string, artifactId: Id, approver: string, now: string)
    requires Inv(c, s) && (tenantId, legalEntityId) in s.controls && s.controls[(tenantId, legalEntityId)].status == Preparing
    requires Approve(c, s, tenantId, legalEntityId, artifactId, approver, now).1.Done?
    ensures var (after, outcome) := Approve(c, s, tenantId, legalEntityId, artifactId, approver, now);
            var control, artifact := outcome.value, s.artifacts[artifactId];
            && control.tenantId == tenantId && control.legalEntityId == legalEntityId && control.status == Approved
            && control.evidenceArtifactId == Some(artifactId) && control.verificationHash == Some(c.hash(artifact.evidence))
            && control.cutoverWatermark == Some(artifact.evidence.targetWatermark)
            && control.openingBalanceVerified && control.historicalBoundaryVerified && control.reconciliationHealthy
            && control.backupRecoveryVerified && control.unresolvedAcceptedOperations == 0
            && control.approvedBy == Some(approver) && control.approvedAt == Some(now)
            && control.activatedBy.None? && control.activatedAt.None?
            && after == s.(controls := s.controls[(tenantId, legalEntityId) := control])
  {
    assert ControlOk(c, s, (tenantId, legalEntityId), s.controls[(tenantId, legalEntityId)]);
    assert ArtifactOk(c, s, artifactId, s.artifacts[artifactId]);
    hide Unfit, Unproven;
  }

  // ---- Configuring, recording, preparing, activating ----------------------

  /** A configuration is stored once, never for the TigerBeetle engine, and gives the entity a control if it has none. */
  lemma ConfigureAnswers(upper: string -> string, s: State, tenantId: string, legalEntityId: string, currency: string,
                         postingEnabled: bool, tigerBeetle: bool)
    ensures var (after, outcome) := Configure(upper, s, tenantId, legalEntityId, currency, postingEnabled, tigerBeetle);
            var key := (tenantId, legalEntityId);
            && (outcome == Failed(Blocked(ActivationGatesPending)) <==> tigerBeetle)
            && (outcome == Failed(EntityExists) <==> !tigerBeetle && key in s.configurations)
            && (outcome.Done? <==> !tigerBeetle && key !in s.configurations)
            && (outcome.Failed? ==> after == s)
            && (outcome.Done? ==>
                  && outcome.value == Configuration(tenantId, legalEntityId, upper(currency), postingEnabled)
                  && after.configurations == s.configurations[key := outcome.value]
                  && after.artifacts == s.artifacts && after.nextId == s.nextId
                  && key in after.controls && (key in s.controls ==> after.controls == s.controls)
                  && (key !in s.controls ==>
                        && after.controls == s.controls[key := after.controls[key]]
                        && after.controls[key].status == Postgresql && after.controls[key].tenantId == tenantId
                        && after.controls[key].legalEntityId == legalEntityId && after.controls[key].evidenceArtifactId.None?))
  {
  }

  /** Evidence is stored exactly for its own tenant's configured entity in its currency, under a signer that signs its digest. */
  lemma RecordAnswers(c: Crypto, s: State, tenantId: string, evidence: Evidence, producer: string)
    ensures var (after, outcome) := RecordEvidence(c, s, tenantId, evidence, producer);
            var key := (tenantId, evidence.legalEntityId);
            var scoped := && evidence.tenantId == tenantId && key in s.configurations
                          && s.configurations[key].baseCurrency == evidence.currency;
            var signs := c.signer.Some? && c.signer.value.sign(c.hash(evidence)).Some?;
            && (outcome == Failed(ArtifactInvalid(ScopeMismatch)) <==> !scoped)
            && (outcome == Failed(ArtifactInvalid(Unsigned)) <==> scoped && !signs)
            && (outcome.Done? <==> scoped && signs)
            && (outcome.Failed? ==> after == s)
            && (outcome.Done? ==>
                  && outcome.value.evidence == evidence && outcome.value.tenantId == tenantId
                  && outcome.value.legalEntityId == evidence.legalEntityId && outcome.value.producer == producer
                  && outcome.value.artifactHash == c.hash(evidence) && outcome.value.signingKeyId == c.signer.value.keyId
                  && outcome.value.signature == c.encode(c.signer.value.sign(c.hash(evidence)).value)
                  && (outcome.value.verified <==> evidence.mismatchCount == 0)
                  && outcome.value.id == s.nextId < after.nextId
                  && after == s.(artifacts := s.artifacts[s.nextId := outcome.value], nextId := after.nextId))
  {
  }

  /** The control is past PostgreSQL and not active yet. */
  predicate Underway(s: State, key: Key) {
    key in s.controls && s.controls[key].status != Postgresql && s.controls[key].status != TigerBeetle
  }

  /** Preparing moves a control on from PostgreSQL, creating it where there is none, and leaves later ones as they are. */
  lemma PrepareAnswers(s: State, tenantId: string, legalEntityId: string)
    ensures var (after, outcome) := Prepare(s, tenantId, legalEntityId);
            var key := (tenantId, legalEntityId);
            && (outcome == Failed(EntityNotFound) <==> key !in s.configurations)
            && (outcome == Failed(EngineActivated) <==>
                key in s.configurations && key in s.controls && s.controls[key].status == TigerBeetle)
            && (key in s.configurations && (key !in s.controls || s.controls[key].status == Postgresql) ==>
                  && outcome.Done? && outcome.value.status == Preparing
                  && (key in s.controls ==> outcome.value.(status := Postgresql) == s.controls[key])
                  && after == s.(controls := s.controls[key := outcome.value]))
            && (key in s.configurations && Underway(s, key) ==> outcome == Done(s.controls[key]) && after == s)
            && (outcome.Failed? ==> after == s)
  {
    var key := (tenantId, legalEntityId);
    if key in s.controls {
      assert s.controls[key := s.controls[key]] == s.controls;
    }
  }

  /** Activation answers for an active control and is refused otherwise. */
  lemma ActivationAnswers(s: State, tenantId: string, legalEntityId: string)
    ensures var outcome, key := Activate(s, tenantId, legalEntityId), (tenantId, legalEntityId);
            && (outcome.Done? <==> key in s.controls && s.controls[key].status == TigerBeetle)
            && (outcome.Done? ==> outcome == Done(s.controls[key]))
            && (outcome.Failed? ==> outcome == Failed(Blocked(LedgerNotConfigured)))
  {
  }

  /** The statuses in the order a cutover goes through them. */
  lemma RanksAscend()
    ensures Rank(Postgresql) < Rank(Preparing) < Rank(VerificationPending) < Rank(Approved) < Rank(Activating) < Rank(TigerBeetle)
  {
  }

  /** Whatever a run does, a control is never prepared again once it is approved, nor back on PostgreSQL once it is prepared. */
  lemma NeverBack(c: Crypto, upper: string -> string, s: State, commands: seq<Command>, key: Key)
    requires Inv(c, s) && key in s.controls
    ensures var end := Run(c, upper, s, commands);
            && key in end.controls
            && (s.controls[key].status == Approved ==> end.controls[key] == s.controls[key])
            && (s.controls[key].status == Preparing ==> end.controls[key].status == Preparing || end.controls[key].status == Approved)
  {
    RunKeepsControls(c, upper, s, commands);
    var end := Run(c, upper, s, commands);
    assert ControlOk(c, end, key, end.controls[key]);
    hide Run, Unproven, Supports;
    assert Advances(s.controls[key], end.controls[key]);
  }
}
