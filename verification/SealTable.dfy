/**
  The nonexecution-seal table that both synthetic target ledgers of
  tools/aegis_delivery_control/adapters.py share.

  Tables are finite sets of rows, and a transaction either replaces the whole table value or
  leaves it alone. Digests are parameters: nothing in this module needs them to be injective,
  because the source compares the stored body as well.
 */
module SealTable {
  import opened Options

  datatype Denial =
    | WrongTarget        // the attestation or the intent does not bind this ledger
    | Rebound            // one of its identities already belongs to another row
    | Contradicted       // the claim has executed
    | ConstraintFailed   // a UNIQUE column of the table refused the row
    | Invalid            // a request field is blank or the usage is negative
    | Unverified         // the authority did not issue it
    | NotFresh           // the durable intent or launch is a replay
    | Unbound            // request, capability, launch and intent disagree
    | ContactRefused     // the state store did not admit the contact
    | NotContained       // the containment check refused what the request asks for
    | SupportChanged     // the ledger's containment support record is not the expected one
    | SealedCeased
    | SealedNonexecuted
    | AlreadyUsed

  /** Where an exception interrupts a transaction. A crash before the commit rolls it back. */
  datatype Crash = NoCrash | BeforeCommit | AfterCommit

  datatype Attestation = Attestation(
    attestationId: string, sealId: string, contactKind: string, targetDigest: string,
    claimId: string, sourceId: string, sourceEventHash: string, reservationId: string,
    repositoryId: string, runId: string, itemId: string, logicalEffectId: string,
    attemptId: string, action: string, policyId: string, policyVersion: string, issuerMac: string)

  /** What `body_json` spells out. */
  datatype SealBody = SealBody(attestation: Attestation, attestationDigest: string, sealVersion: int)

  /** One row; its identity columns are copies of the attestation's fields. */
  datatype SealRow = SealRow(body: SealBody, sealHash: string) {
    function Claim(): string { body.attestation.claimId }
  }

  datatype SealReceipt = SealReceipt(
    sealId: string, contactKind: string, targetDigest: string, claimId: string,
    sourceId: string, reservationId: string, sealHash: string, replayed: bool)

  /** Which ledger this is, and the digests it computes. `target` is `None` for a foreign repository. */
  datatype Config = Config(
    kind: string,
    target: string -> Option<string>,
    attestationDigest: Attestation -> string,
    bodyDigest: SealBody -> string)

  datatype SealReply = Recorded(receipt: SealReceipt) | Refused(reason: Denial)

  function RowFor(cfg: Config, att: Attestation): SealRow {
    var body := SealBody(att, cfg.attestationDigest(att), 1);
    SealRow(body, cfg.bodyDigest(body))
  }

  function ReceiptFor(cfg: Config, att: Attestation, replayed: bool): SealReceipt {
    SealReceipt(att.sealId, cfg.kind, att.targetDigest, att.claimId, att.sourceId,
                att.reservationId, RowFor(cfg, att).sealHash, replayed)
  }

  /** The condition of the OR lookup: the two share at least one identity. */
  predicate Shares(a: Attestation, b: Attestation) {
    || a.sealId == b.sealId || a.claimId == b.claimId || a.sourceId == b.sourceId
    || a.reservationId == b.reservationId || a.attestationId == b.attestationId
  }

  predicate Sealed(seals: set<SealRow>, claim: string) {
    exists row :: row in seals && row.Claim() == claim
  }

  /** Every identity names at most one row, and every row is the one its attestation asks for. */
  ghost predicate WellFormed(cfg: Config, seals: set<SealRow>) {
    && (forall row :: row in seals ==> row == RowFor(cfg, row.body.attestation))
    && (forall r, s :: r in seals && s in seals && Shares(r.body.attestation, s.body.attestation) ==> r == s)
  }

  /** The attestation names this kind of contact and this ledger. */
  predicate Binds(cfg: Config, att: Attestation) {
    att.contactKind == cfg.kind && cfg.target(att.repositoryId) == Some(att.targetDigest)
  }

  ghost predicate Clashes(cfg: Config, seals: set<SealRow>, att: Attestation) {
    exists row :: row in seals && row != RowFor(cfg, att) && Shares(row.body.attestation, att)
  }

  /**
    What recording an attestation does, said without the lookup: replay its own row, refuse
    when another row has one of its identities, refuse an executed claim, and otherwise add it.
   */
  ghost function RecordSpec(cfg: Config, seals: set<SealRow>, executed: set<string>, att: Attestation)
    : (set<SealRow>, SealReply)
  {
    if !Binds(cfg, att) then (seals, Refused(WrongTarget))
    else if RowFor(cfg, att) in seals then (seals, Recorded(ReceiptFor(cfg, att, true)))
    else if Clashes(cfg, seals, att) then (seals, Refused(Rebound))
    else if att.claimId in executed then (seals, Refused(Contradicted))
    else if exists row :: row in seals && row.sealHash == RowFor(cfg, att).sealHash then
      (seals, Refused(ConstraintFailed))
    else (seals + {RowFor(cfg, att)}, Recorded(ReceiptFor(cfg, att, false)))
  }

  /**
    `_record_nonexecution_seal` inside its transaction. The OR lookup may fetch any row that
    shares an identity; the reply does not depend on which one.
   */
  method RecordNonexecutionSeal(cfg: Config, seals: set<SealRow>, executed: set<string>, att: Attestation)
    returns (seals': set<SealRow>, reply: SealReply)
    requires WellFormed(cfg, seals)
    ensures (seals', reply) == RecordSpec(cfg, seals, executed, att)
    ensures WellFormed(cfg, seals')
    ensures reply.Recorded? ==>
              && Sealed(seals', att.claimId) && cfg.target(att.repositoryId) == Some(reply.receipt.targetDigest)
              && reply.receipt.contactKind == att.contactKind && reply.receipt.sealId == att.sealId
              && reply.receipt.claimId == att.claimId && reply.receipt.sourceId == att.sourceId
              && reply.receipt.reservationId == att.reservationId
              && (reply.receipt.replayed <==> seals' == seals)
  {
    seals' := seals;
    if att.contactKind != cfg.kind || cfg.target(att.repositoryId) != Some(att.targetDigest) {
      return seals, Refused(WrongTarget);
    }
    var row := RowFor(cfg, att);
    var matches := set r | r in seals && Shares(r.body.attestation, att);
    if matches != {} {
      var prior :| prior in matches;
      if prior.sealHash != row.sealHash || prior.body != row.body {
        assert row in seals ==> prior == row;
        return seals, Refused(Rebound);
      }
      assert prior == row && row.Claim() == att.claimId;
      return seals, Recorded(ReceiptFor(cfg, att, true));
    }
    assert forall r :: r in seals ==> r !in matches;
    assert row !in seals by {
      assert Shares(row.body.attestation, att);
    }
    assert !Clashes(cfg, seals, att);
    if att.claimId in executed {
      return seals, Refused(Contradicted);
    }
    if exists r :: r in seals && r.sealHash == row.sealHash {
      return seals, Refused(ConstraintFailed);
    }
    seals' := seals + {row};
    assert row in seals' && row.Claim() == att.claimId;
    reply := Recorded(ReceiptFor(cfg, att, false));
  }

  /** Recording keeps the table well formed, never drops a row, and only adds unexecuted claims. */
  lemma RecordKeeps(cfg: Config, seals: set<SealRow>, executed: set<string>, att: Attestation)
    requires WellFormed(cfg, seals)
    ensures var (seals', _) := RecordSpec(cfg, seals, executed, att);
            WellFormed(cfg, seals') && seals <= seals'
            && forall row :: row in seals' && row !in seals ==> row.Claim() !in executed
  {
    var (seals', _) := RecordSpec(cfg, seals, executed, att);
    if seals' != seals {
      assert !Clashes(cfg, seals, att);
      assert forall r :: r in seals ==> !Shares(r.body.attestation, att);
    }
  }

  /** Resubmitting a recorded attestation changes nothing and repeats its receipt, marked replayed. */
  lemma SealReplays(cfg: Config, seals: set<SealRow>, executed: set<string>, executed': set<string>,
                    later: set<SealRow>, att: Attestation)
    requires RecordSpec(cfg, seals, executed, att).1.Recorded?
    requires RecordSpec(cfg, seals, executed, att).0 <= later
    ensures RecordSpec(cfg, later, executed', att)
         == (later, Recorded(RecordSpec(cfg, seals, executed, att).1.receipt.(replayed := true)))
  {
  }

  /** An attestation that shares one identity with a different recorded one is refused. */
  lemma SealRebindingRefused(cfg: Config, seals: set<SealRow>, executed: set<string>, row: SealRow, att: Attestation)
    requires WellFormed(cfg, seals) && row in seals
    requires att != row.body.attestation && Shares(row.body.attestation, att)
    ensures RecordSpec(cfg, seals, executed, att).0 == seals
    ensures RecordSpec(cfg, seals, executed, att).1 == Refused(if Binds(cfg, att) then Rebound else WrongTarget)
  {
    assert RowFor(cfg, att).body.attestation == att;
    assert RowFor(cfg, att) !in seals;
  }

  // ----- the identities, one by one -----

  /** In a well-formed table each of the five identities names at most one row. */
  lemma IdentitiesAreUnique(cfg: Config, seals: set<SealRow>, r: SealRow, s: SealRow)
    requires WellFormed(cfg, seals) && r in seals && s in seals
    requires var a, b := r.body.attestation, s.body.attestation;
             || a.sealId == b.sealId || a.claimId == b.claimId || a.sourceId == b.sourceId
             || a.reservationId == b.reservationId || a.attestationId == b.attestationId
    ensures r == s
  {
    assert Shares(r.body.attestation, s.body.attestation);
  }

  /** A new attestation for this ledger, of an unexecuted claim, is stored and answered field by field. */
  lemma NewIsRecorded(cfg: Config, seals: set<SealRow>, executed: set<string>, att: Attestation, hash: string)
    requires att.contactKind == cfg.kind && cfg.target(att.repositoryId) == Some(att.targetDigest)
    requires forall r :: r in seals ==>
               && r.body.attestation.sealId != att.sealId && r.body.attestation.claimId != att.claimId
               && r.body.attestation.sourceId != att.sourceId && r.body.attestation.reservationId != att.reservationId
               && r.body.attestation.attestationId != att.attestationId
    requires att.claimId !in executed
    requires hash == cfg.bodyDigest(SealBody(att, cfg.attestationDigest(att), 1))
    requires forall r :: r in seals ==> r.sealHash != hash
    ensures RecordSpec(cfg, seals, executed, att)
         == (seals + {SealRow(SealBody(att, cfg.attestationDigest(att), 1), hash)},
             Recorded(SealReceipt(att.sealId, att.contactKind, att.targetDigest, att.claimId, att.sourceId,
                                  att.reservationId, hash, false)))
  {
    var row := RowFor(cfg, att);
    assert row.body.attestation == att;
    assert row !in seals;
  }

  /** One that names another kind of contact or another target is refused, and so is one of an executed claim. */
  lemma ForeignIsRefused(cfg: Config, seals: set<SealRow>, executed: set<string>, att: Attestation)
    requires || att.contactKind != cfg.kind || cfg.target(att.repositoryId) != Some(att.targetDigest)
             || (att.claimId in executed && forall r :: r in seals ==> r.body.attestation.claimId != att.claimId)
    ensures RecordSpec(cfg, seals, executed, att).0 == seals && RecordSpec(cfg, seals, executed, att).1.Refused?
    ensures att.contactKind != cfg.kind || cfg.target(att.repositoryId) != Some(att.targetDigest) ==>
              RecordSpec(cfg, seals, executed, att).1 == Refused(WrongTarget)
    ensures att.contactKind == cfg.kind && cfg.target(att.repositoryId) == Some(att.targetDigest)
            && (forall r :: r in seals ==> !Shares(r.body.attestation, att)) ==>
              RecordSpec(cfg, seals, executed, att).1 == Refused(Contradicted)
  {
    assert Shares(att, att);
    assert RowFor(cfg, att).body.attestation == att;
  }

  /** The receipt of a recorded attestation repeats its fields and the hash of its row. */
  lemma ReceiptRepeatsAttestation(cfg: Config, seals: set<SealRow>, executed: set<string>, att: Attestation)
    requires RecordSpec(cfg, seals, executed, att).1.Recorded?
    ensures var (after, reply) := RecordSpec(cfg, seals, executed, att);
            var receipt := reply.receipt;
            && receipt.sealId == att.sealId && receipt.contactKind == att.contactKind
            && receipt.targetDigest == att.targetDigest && receipt.claimId == att.claimId
            && receipt.sourceId == att.sourceId && receipt.reservationId == att.reservationId
            && exists row :: row in after && row.body.attestation == att && row.sealHash == receipt.sealHash
    ensures RecordSpec(cfg, seals, executed, att).1.receipt.sealHash
         == cfg.bodyDigest(SealBody(att, cfg.attestationDigest(att), 1))
  {
    assert RowFor(cfg, att) in RecordSpec(cfg, seals, executed, att).0;
  }
}
