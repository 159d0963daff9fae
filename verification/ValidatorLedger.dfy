/**
  The synthetic validator adapter of tools/aegis_delivery_control/adapters.py: a durable table
  of validator results beside nonexecution seals and cessation seals.

  A cessation seal records, once, whether its claim had a result and which; the theorems say
  that the record stays true in every later state of every run.
 */
module ValidatorLedger {
  import opened Options
  import opened PyText
  import opened SealTable
  import opened Containment

  /** Where the failure hook of a contact raises. */
  datatype Hook = Quiet | BeforeTransaction | InsertedBeforeCommit | CommittedBeforeAcknowledgement

  /** The fields of a request that its result repeats. */
  datatype Answer = Answer(
    repositoryId: string, logicalEffectId: string, revisionDigest: string, checkId: string,
    inputDigest: string, validatorAttemptId: string, resultDigest: string, verdict: string)

  datatype Request = Request(answer: Answer, scopeDigest: string, containmentDigest: string, wish: Wish)

  datatype Capability = Capability(
    claimId: string, repositoryId: string, logicalEffectId: string, revisionDigest: string, checkId: string,
    inputDigest: string, validatorAttemptId: string, scopeDigest: string, containmentDigest: string)

  datatype Intent = Intent(
    repositoryId: string, logicalEffectId: string, revisionDigest: string, checkId: string,
    inputDigest: string, validatorAttemptId: string, containmentSpecJson: string)

  datatype Commit = Commit(replayed: bool, eventHash: string)

  /**
    One call of `_execute_committed`. `issued` is the authority's answer, `admitted` the state
    store's answer to the contact, and `supported` says whether the ledger's support record is the
    expected one; `loseResult` and `hook` say what happens to the acknowledgement.
   */
  datatype Call = Call(
    capability: Capability, request: Request, intent: Intent, commit: Commit, usage: Option<int>,
    issued: bool, admitted: bool, supported: bool, loseResult: bool, hook: Hook)

  datatype Result = Result(
    resultId: string, claimId: string, answer: Answer, usage: Option<int>, final: bool,
    containmentVersion: int, containmentDigest: string)

  datatype Reply = Acknowledged(result: Result) | NoResult | Crashed | Denied(reason: Denial)

  datatype CessationAttestation = CessationAttestation(
    attestationId: string, cessationId: string, targetDigest: string, claimId: string, sourceId: string,
    sourceEventHash: string, repositoryId: string, runId: string, itemId: string, logicalEffectId: string,
    revisionDigest: string, checkId: string, validatorAttemptId: string,
    action: string, policyId: string, policyVersion: string, issuerMac: string)

  /** The id and digest of the result a cessation found, if there was one. */
  datatype CessationBody = CessationBody(
    attestation: CessationAttestation, attestationDigest: string, cessationVersion: int,
    result: Option<(string, string)>)

  datatype CessationRow = CessationRow(body: CessationBody, cessationHash: string) {
    function Claim(): string { body.attestation.claimId }
  }

  datatype CessationReceipt = CessationReceipt(
    cessationId: string, targetDigest: string, claimId: string, sourceId: string, repositoryId: string,
    runId: string, itemId: string, logicalEffectId: string, revisionDigest: string, checkId: string,
    validatorAttemptId: string, result: Option<(string, string)>, cessationHash: string, replayed: bool)

  datatype CessationReply = CessationRecorded(receipt: CessationReceipt) | CessationRefused(reason: Denial)

  datatype Setup = Setup(
    seal: Config, sha: string -> string, containment: Containment.Tables,
    attestationDigest: CessationAttestation -> string, bodyDigest: CessationBody -> string)

  datatype State = State(results: map<string, Result>, seals: set<SealRow>, cessations: set<CessationRow>)

  datatype Event =
    | Contact(call: Call)
    | Seal(attestation: Attestation, verified: bool)
    | Cease(cessation: CessationAttestation, verified: bool)

  const Empty: State := State(map[], {}, {})

  // ----- one call -----

  predicate RequestValid(r: Request) {
    && !(Blank(r.answer.repositoryId) || Blank(r.answer.logicalEffectId) || Blank(r.answer.revisionDigest)
         || Blank(r.answer.checkId) || Blank(r.answer.inputDigest) || Blank(r.answer.validatorAttemptId)
         || Blank(r.scopeDigest) || Blank(r.answer.resultDigest) || Blank(r.answer.verdict)
         || Blank(r.containmentDigest) || Blank(r.wish.readPath) || Blank(r.wish.outputPath) || Blank(r.wish.scratchPath))
    && r.answer.verdict in {"PASS", "FAIL"}
    && "" !in r.wish.requestedActions && r.wish.outputBytes >= 0
  }

  /** `_validate_request_binding`, once the specification of the intent has been read. */
  predicate RequestBinds(c: Call, digest: string) {
    var a := c.request.answer;
    && a.repositoryId == c.capability.repositoryId == c.intent.repositoryId
    && a.logicalEffectId == c.capability.logicalEffectId == c.intent.logicalEffectId
    && a.revisionDigest == c.capability.revisionDigest == c.intent.revisionDigest
    && a.checkId == c.capability.checkId == c.intent.checkId
    && a.inputDigest == c.capability.inputDigest == c.intent.inputDigest
    && a.validatorAttemptId == c.capability.validatorAttemptId == c.intent.validatorAttemptId
    && c.request.scopeDigest == c.capability.scopeDigest
    && c.request.containmentDigest == c.capability.containmentDigest == digest
  }

  function SpecOf(setup: Setup, c: Call): Option<Spec> {
    ParseSpec(setup.containment, c.intent.containmentSpecJson)
  }

  /** The digest of the containment specification a call is bound to. */
  function SpecDigest(setup: Setup, c: Call): string {
    if SpecOf(setup, c).Some? then setup.containment.digest(SpecOf(setup, c).value) else ""
  }

  /**
    The checks made before the ledger is opened; the first that fails is reported. The containment
    check is repeated inside the transaction, on the same arguments.
   */
  function Precheck(setup: Setup, c: Call): Option<Denial> {
    if c.commit.replayed || c.commit.eventHash == "" then Some(NotFresh)
    else if setup.seal.target(c.intent.repositoryId).None? then Some(WrongTarget)
    else if !c.issued then Some(Unverified)
    else if !RequestValid(c.request) then Some(Invalid)
    else if c.usage.Some? && c.usage.value < 0 then Some(Invalid)
    else if SpecOf(setup, c) == None then Some(Invalid)
    else if !RequestBinds(c, SpecDigest(setup, c)) then Some(Unbound)
    else if SpecOf(setup, c).value.inputDigest != c.intent.inputDigest then Some(Unbound)
    else if !Permits(setup.containment, SpecOf(setup, c).value, c.request.wish,
                     c.request.answer.resultDigest, c.request.answer.verdict) then Some(NotContained)
    else if !c.admitted then Some(ContactRefused)
    else None
  }

  function ResultOf(setup: Setup, c: Call): Result {
    Result(setup.sha(c.capability.claimId + "\0" + c.request.answer.resultDigest + "\0" + c.request.answer.verdict),
           c.capability.claimId, c.request.answer, c.usage, true, BINDING_VERSION, SpecDigest(setup, c))
  }

  function Reconciled(s: State, claim: string): Option<Result> {
    if claim in s.results then Some(s.results[claim]) else None
  }

  predicate IsCeased(cessations: set<CessationRow>, claim: string) {
    exists row :: row in cessations && row.Claim() == claim
  }

  function ContactStep(setup: Setup, s: State, c: Call): (State, Reply) {
    if Precheck(setup, c).Some? then (s, Denied(Precheck(setup, c).value))
    else if c.hook.BeforeTransaction? then (s, Crashed)
    else if !c.supported then (s, Denied(SupportChanged))
    else if IsCeased(s.cessations, c.capability.claimId) then (s, Denied(SealedCeased))
    else if Sealed(s.seals, c.capability.claimId) then (s, Denied(SealedNonexecuted))
    else if c.capability.claimId in s.results then (s, Denied(AlreadyUsed))
    else if exists k :: k in s.results && s.results[k].resultId == ResultOf(setup, c).resultId then
      (s, Denied(ConstraintFailed))
    else if c.hook.InsertedBeforeCommit? then (s, Crashed)
    else
      (s.(results := s.results[c.capability.claimId := ResultOf(setup, c)]),
       if c.hook.CommittedBeforeAcknowledgement? then Crashed
       else if c.loseResult then NoResult else Acknowledged(ResultOf(setup, c)))
  }

  ghost function SealStep(setup: Setup, s: State, att: Attestation, verified: bool): (State, SealReply) {
    if !verified then (s, Refused(Unverified))
    else
      var (seals, reply) := RecordSpec(setup.seal, s.seals, s.results.Keys, att);
      (s.(seals := seals), reply)
  }

  predicate SharesIdentity(a: CessationAttestation, b: CessationAttestation) {
    || a.cessationId == b.cessationId || a.claimId == b.claimId
    || a.sourceId == b.sourceId || a.attestationId == b.attestationId
  }

  /** The five comparisons a stored row must pass to count as a replay. */
  predicate SameCessation(setup: Setup, row: CessationRow, att: CessationAttestation) {
    && row.body.attestation.cessationId == att.cessationId
    && row.body.attestation.claimId == att.claimId
    && row.body.attestation.sourceId == att.sourceId
    && row.body.attestation.attestationId == att.attestationId
    && row.body.attestationDigest == setup.attestationDigest(att)
  }

  function FoundResult(s: State, claim: string): Option<(string, string)> {
    if claim in s.results then Some((s.results[claim].resultId, s.results[claim].answer.resultDigest)) else None
  }

  function CessationFor(setup: Setup, s: State, att: CessationAttestation): CessationRow {
    var body := CessationBody(att, setup.attestationDigest(att), 1, FoundResult(s, att.claimId));
    CessationRow(body, setup.bodyDigest(body))
  }

  function CessationReceiptOf(row: CessationRow, replayed: bool): CessationReceipt {
    var a := row.body.attestation;
    CessationReceipt(a.cessationId, a.targetDigest, a.claimId, a.sourceId, a.repositoryId, a.runId, a.itemId,
                     a.logicalEffectId, a.revisionDigest, a.checkId, a.validatorAttemptId, row.body.result,
                     row.cessationHash, replayed)
  }

  /** What sealing a cessation does, said without the row the OR lookup happens to fetch. */
  ghost function CeaseStep(setup: Setup, s: State, att: CessationAttestation, verified: bool): (State, CessationReply) {
    if !verified then (s, CessationRefused(Unverified))
    else if setup.seal.target(att.repositoryId) != Some(att.targetDigest) then (s, CessationRefused(WrongTarget))
    else if exists row :: row in s.cessations && SameCessation(setup, row, att) then
      var row :| row in s.cessations && SameCessation(setup, row, att);
      (s, CessationRecorded(CessationReceiptOf(row, true)))
    else if exists row :: row in s.cessations && SharesIdentity(row.body.attestation, att) then
      (s, CessationRefused(Rebound))
    else
      var row := CessationFor(setup, s, att);
      if exists other :: other in s.cessations && other.cessationHash == row.cessationHash then
        (s, CessationRefused(ConstraintFailed))
      else
        (s.(cessations := s.cessations + {row}), CessationRecorded(CessationReceiptOf(row, false)))
  }

  ghost function Step(setup: Setup, s: State, e: Event): State {
    match e
    case Contact(call) => ContactStep(setup, s, call).0
    case Seal(att, verified) => SealStep(setup, s, att, verified).0
    case Cease(att, verified) => CeaseStep(setup, s, att, verified).0
  }

  ghost function Run(setup: Setup, s: State, events: seq<Event>): State
    decreases |events|
  {
    if events == [] then s else Run(setup, Step(setup, s, events[0]), events[1..])
  }

  predicate Commits(setup: Setup, s: State, c: Call) {
    ContactStep(setup, s, c).0 != s
  }

  /** Whichever row the lookup fetches, it decides the reply. */
  lemma LookupDecides(setup: Setup, s: State, att: CessationAttestation, prior: CessationRow)
    requires CessationsWellFormed(setup, s) && prior in s.cessations
    requires SharesIdentity(prior.body.attestation, att)
    requires setup.seal.target(att.repositoryId) == Some(att.targetDigest)
    ensures CeaseStep(setup, s, att, true)
         == (s, if SameCessation(setup, prior, att) then CessationRecorded(CessationReceiptOf(prior, true))
                else CessationRefused(Rebound))
  {
    forall row | row in s.cessations && SameCessation(setup, row, att) ensures row == prior {
      assert SharesIdentity(row.body.attestation, prior.body.attestation);
    }
  }

  // ----- the adapter -----

  class Ledger {
    const setup: Setup
    var results: map<string, Result>
    var seals: set<SealRow>
    var cessations: set<CessationRow>

    ghost function Value(): State
      reads this
    {
      State(results, seals, cessations)
    }

    ghost predicate Valid()
      reads this
    {
      Invariant(setup, Value())
    }

    constructor (setup: Setup)
      ensures Valid() && Value() == Empty && this.setup == setup
    {
      this.setup := setup;
      results, seals, cessations := map[], {}, {};
    }

    method SealNonexecution(att: Attestation, verified: bool) returns (reply: SealReply)
      requires Valid()
      modifies this
      ensures Valid()
      ensures (Value(), reply) == SealStep(setup, old(Value()), att, verified)
    {
      SealKeepsInvariant(setup, Value(), att, verified);
      if !verified {
        return Refused(Unverified);
      }
      var recorded;
      recorded, reply := RecordNonexecutionSeal(setup.seal, seals, results.Keys, att);
      seals := recorded;
    }

    method ExecuteCommitted(c: Call) returns (reply: Reply)
      requires Valid()
      modifies this
      ensures Valid()
      ensures (Value(), reply) == ContactStep(setup, old(Value()), c)
    {
      ContactKeepsInvariant(setup, Value(), c);
      var denial := Precheck(setup, c);
      if denial.Some? {
        return Denied(denial.value);
      }
      if c.hook.BeforeTransaction? {
        return Crashed;
      }
      if !c.supported {
        return Denied(SupportChanged);
      }
      if IsCeased(cessations, c.capability.claimId) {
        return Denied(SealedCeased);
      }
      if Sealed(seals, c.capability.claimId) {
        return Denied(SealedNonexecuted);
      }
      if c.capability.claimId in results {
        return Denied(AlreadyUsed);
      }
      var result := ResultOf(setup, c);
      if exists k :: k in results && results[k].resultId == result.resultId {
        return Denied(ConstraintFailed);
      }
      var before := results;
      results := results[c.capability.claimId := result];
      if c.hook.InsertedBeforeCommit? {
        results := before;
        return Crashed;
      }
      if c.hook.CommittedBeforeAcknowledgement? {
        return Crashed;
      }
      reply := if c.loseResult then NoResult else Acknowledged(result);
    }

    /** The lookup may fetch any row that shares an identity with the attestation. */
    method SealCessation(att: CessationAttestation, verified: bool) returns (reply: CessationReply)
      requires Valid()
      modifies this
      ensures Valid()
      ensures (Value(), reply) == CeaseStep(setup, old(Value()), att, verified)
    {
      hide SealTable.WellFormed, SealTable.RecordSpec, SealTable.Sealed, ContactStep, SealStep, CessationsWellFormed, CessationReceiptOf;
      CeaseKeepsInvariant(setup, Value(), att, verified);
      if !verified {
        return CessationRefused(Unverified);
      }
      if setup.seal.target(att.repositoryId) != Some(att.targetDigest) {
        return CessationRefused(WrongTarget);
      }
      var matches := set row | row in cessations && SharesIdentity(row.body.attestation, att);
      if matches != {} {
        var prior :| prior in matches;
        LookupDecides(setup, Value(), att, prior);
        return if SameCessation(setup, prior, att) then CessationRecorded(CessationReceiptOf(prior, true))
               else CessationRefused(Rebound);
      }
      assert forall row :: row in cessations ==> row !in matches;
      var found := if att.claimId in results
                   then Some((results[att.claimId].resultId, results[att.claimId].answer.resultDigest)) else None;
      var body := CessationBody(att, setup.attestationDigest(att), 1, found);
      var row := CessationRow(body, setup.bodyDigest(body));
      if exists other :: other in cessations && other.cessationHash == row.cessationHash {
        return CessationRefused(ConstraintFailed);
      }
      cessations := cessations + {row};
      reply := CessationRecorded(CessationReceiptOf(row, false));
    }

    method Reconcile(claim: string) returns (result: Option<Result>)
      ensures result == Reconciled(Value(), claim)
    {
      result := if claim in results then Some(results[claim]) else None;
    }
  }

  // ----- every run -----

  /** The row tells the truth about `s`: it names its claim's result exactly when there is one. */
  ghost predicate TrueOf(s: State, row: CessationRow) {
    row.body.result == FoundResult(s, row.Claim())
  }

  ghost predicate CessationsWellFormed(setup: Setup, s: State) {
    && (forall row :: row in s.cessations ==>
          && row.body.attestationDigest == setup.attestationDigest(row.body.attestation)
          && TrueOf(s, row))
    && (forall r, t :: r in s.cessations && t in s.cessations ==>
          SharesIdentity(r.body.attestation, t.body.attestation) ==> r == t)
  }

  ghost predicate Invariant(setup: Setup, s: State) {
    && (forall claim :: claim in s.results ==> s.results[claim].claimId == claim && !Sealed(s.seals, claim))
    && (forall k, l :: k in s.results && l in s.results && s.results[k].resultId == s.results[l].resultId ==> k == l)
    && WellFormed(setup.seal, s.seals)
    && CessationsWellFormed(setup, s)
  }

  ghost predicate Extends(s: State, s': State) {
    && (forall claim :: claim in s.results ==> claim in s'.results && s'.results[claim] == s.results[claim])
    && s.seals <= s'.seals && s.cessations <= s'.cessations
  }

  lemma ContactKeepsInvariant(setup: Setup, s: State, c: Call)
    requires Invariant(setup, s)
    ensures Invariant(setup, ContactStep(setup, s, c).0) && Extends(s, ContactStep(setup, s, c).0)
  {
    hide Precheck, SealTable.WellFormed, SealTable.Sealed, CessationsWellFormed, SpecDigest;
    var s' := ContactStep(setup, s, c).0;
    if s' != s {
      ResultAdded(setup, s, c);
    }
  }

  /** A result for a claim that has not ceased leaves every cessation true. */
  lemma ResultAdded(setup: Setup, s: State, c: Call)
    requires CessationsWellFormed(setup, s) && !IsCeased(s.cessations, c.capability.claimId)
    ensures CessationsWellFormed(setup, s.(results := s.results[c.capability.claimId := ResultOf(setup, c)]))
  {
    hide ResultOf, SharesIdentity;
    var s' := s.(results := s.results[c.capability.claimId := ResultOf(setup, c)]);
    forall row | row in s'.cessations ensures TrueOf(s', row) {
      assert row.Claim() != c.capability.claimId && TrueOf(s, row);
    }
  }

  lemma SealKeepsInvariant(setup: Setup, s: State, att: Attestation, verified: bool)
    requires Invariant(setup, s)
    ensures Invariant(setup, SealStep(setup, s, att, verified).0) && Extends(s, SealStep(setup, s, att, verified).0)
  {
    RecordKeeps(setup.seal, s.seals, s.results.Keys, att);
    var s' := SealStep(setup, s, att, verified).0;
    assert forall row :: row in s'.cessations ==> TrueOf(s, row) && TrueOf(s', row);
  }

  lemma CeaseKeepsInvariant(setup: Setup, s: State, att: CessationAttestation, verified: bool)
    requires Invariant(setup, s)
    ensures Invariant(setup, CeaseStep(setup, s, att, verified).0) && Extends(s, CeaseStep(setup, s, att, verified).0)
  {
    hide SealTable.WellFormed, SealTable.Sealed;
    var s' := CeaseStep(setup, s, att, verified).0;
    if s' != s {
      assert s' == s.(cessations := s.cessations + {CessationFor(setup, s, att)});
      assert forall row :: row in s.cessations ==> !SharesIdentity(row.body.attestation, att);
      CessationAdded(setup, s, att);
    }
  }

  lemma CessationAdded(setup: Setup, s: State, att: CessationAttestation)
    requires CessationsWellFormed(setup, s)
    requires forall row :: row in s.cessations ==> !SharesIdentity(row.body.attestation, att)
    ensures CessationsWellFormed(setup, s.(cessations := s.cessations + {CessationFor(setup, s, att)}))
  {
    hide SharesIdentity;
    var s' := s.(cessations := s.cessations + {CessationFor(setup, s, att)});
    forall row | row in s'.cessations ensures TrueOf(s', row) {
      assert row in s.cessations ==> TrueOf(s, row);
    }
    forall a, b ensures SharesIdentity(a, b) == SharesIdentity(b, a) {
      SharingIsMutual(a, b);
    }
  }

  lemma SharingIsMutual(a: CessationAttestation, b: CessationAttestation)
    ensures SharesIdentity(a, b) == SharesIdentity(b, a)
  {
  }

  lemma {:induction false} RunKeepsInvariant(setup: Setup, s: State, events: seq<Event>)
    requires Invariant(setup, s)
    ensures Invariant(setup, Run(setup, s, events))
    ensures Extends(s, Run(setup, s, events))
    decreases |events|
  {
    if events != [] {
      match events[0] {
        case Contact(call) => ContactKeepsInvariant(setup, s, call);
        case Seal(att, verified) => SealKeepsInvariant(setup, s, att, verified);
        case Cease(att, verified) => CeaseKeepsInvariant(setup, s, att, verified);
      }
      RunKeepsInvariant(setup, Step(setup, s, events[0]), events[1..]);
    }
  }

  /** No claim of any run has both a result and a nonexecution seal. */
  lemma NeverBothExecutedAndSealed(setup: Setup, events: seq<Event>, claim: string)
    ensures var s := Run(setup, Empty, events); !(claim in s.results && Sealed(s.seals, claim))
  {
    RunKeepsInvariant(setup, Empty, events);
  }

  /** After a nonexecution seal the claim never reconciles to a result and never obtains one. */
  lemma SealedForever(setup: Setup, events: seq<Event>, later: seq<Event>, c: Call)
    requires Sealed(Run(setup, Empty, events).seals, c.capability.claimId)
    ensures var s := Run(setup, Run(setup, Empty, events), later);
            && Reconciled(s, c.capability.claimId) == None
            && !Commits(setup, s, c) && !ContactStep(setup, s, c).1.Acknowledged?
  {
    hide Precheck, SealTable.WellFormed, CessationsWellFormed, CeaseStep, SealStep;
    RunKeepsInvariant(setup, Empty, events);
    RunKeepsInvariant(setup, Run(setup, Empty, events), later);
  }

  /** A call that commits differs from its undisturbed twin only in the acknowledgement. */
  lemma LostAcknowledgement(setup: Setup, s: State, c: Call)
    requires Commits(setup, s, c)
    ensures ContactStep(setup, s, c.(loseResult := false, hook := Quiet))
         == (ContactStep(setup, s, c).0, Acknowledged(ResultOf(setup, c)))
  {
    hide RequestValid, Containment.Permits, Containment.ParseSpec, SealTable.Sealed, IsCeased;
    var quiet := c.(loseResult := false, hook := Quiet);
    assert SpecOf(setup, quiet) == SpecOf(setup, c);
    hide SpecOf;
    assert RequestBinds(quiet, SpecDigest(setup, c)) == RequestBinds(c, SpecDigest(setup, c));
    hide RequestBinds;
    assert Precheck(setup, quiet) == Precheck(setup, c);
    hide Precheck;
    assert ResultOf(setup, quiet) == ResultOf(setup, c);
  }

  /** A committed result is what every later `reconcile` returns, acknowledged or not. */
  lemma CommittedForever(setup: Setup, events: seq<Event>, c: Call, later: seq<Event>)
    requires Commits(setup, Run(setup, Empty, events), c)
    ensures var s0 := Run(setup, Empty, events);
            var s := Run(setup, ContactStep(setup, s0, c).0, later);
            && ContactStep(setup, s0, c.(loseResult := false, hook := Quiet)).1 == Acknowledged(ResultOf(setup, c))
            && Reconciled(s, c.capability.claimId) == Some(ResultOf(setup, c))
  {
    hide SealTable.WellFormed, SealTable.RecordSpec, SealTable.Sealed, CeaseStep, SealStep, CessationsWellFormed, Precheck;
    var s0 := Run(setup, Empty, events);
    EmptyIsFine(setup);
    RunKeepsInvariant(setup, Empty, events);
    ContactKeepsInvariant(setup, s0, c);
    LostAcknowledgement(setup, s0, c);
    assert Reconciled(ContactStep(setup, s0, c).0, c.capability.claimId) == Some(ResultOf(setup, c));
    hide ContactStep, Invariant;
    RunKeepsInvariant(setup, ContactStep(setup, s0, c).0, later);
  }

  /**
    A cessation row stays in the table and stays true: what it recorded about its claim's
    result is what every later state says, and no later contact of the claim writes anything.
   */
  lemma CessationStaysTrue(setup: Setup, events: seq<Event>, row: CessationRow, later: seq<Event>, c: Call)
    requires row in Run(setup, Empty, events).cessations
    requires c.capability.claimId == row.Claim()
    ensures var s := Run(setup, Run(setup, Empty, events), later);
            && row in s.cessations
            && (row.body.result == None ==> Reconciled(s, row.Claim()) == None)
            && (row.body.result.Some? ==>
                  && Reconciled(s, row.Claim()).Some?
                  && Reconciled(s, row.Claim()).value.resultId == row.body.result.value.0
                  && Reconciled(s, row.Claim()).value.answer.resultDigest == row.body.result.value.1)
            && !Commits(setup, s, c)
  {
    hide Precheck, SealTable.WellFormed, CeaseStep, SealStep;
    RunKeepsInvariant(setup, Empty, events);
    RunKeepsInvariant(setup, Run(setup, Empty, events), later);
    var s := Run(setup, Run(setup, Empty, events), later);
    assert TrueOf(s, row);
  }

  /** A sealed claim and a ceased claim never disagree: the cessation of a sealed claim names no result. */
  lemma SealedAndCeasedAgree(setup: Setup, events: seq<Event>, row: CessationRow)
    requires row in Run(setup, Empty, events).cessations
    requires Sealed(Run(setup, Empty, events).seals, row.Claim())
    ensures row.body.result == None
  {
    hide Precheck, SealTable.WellFormed, CeaseStep, SealStep, ContactStep, Run;
    RunKeepsInvariant(setup, Empty, events);
    assert TrueOf(Run(setup, Empty, events), row);
  }

  /** A recorded cessation stands in the table, first time or replayed. */
  lemma RecordedRow(setup: Setup, s: State, att: CessationAttestation) returns (row: CessationRow)
    requires CeaseStep(setup, s, att, true).1.CessationRecorded?
    ensures row in CeaseStep(setup, s, att, true).0.cessations && SameCessation(setup, row, att)
    ensures CessationReceiptOf(row, true) == CeaseStep(setup, s, att, true).1.receipt.(replayed := true)
    ensures setup.seal.target(att.repositoryId) == Some(att.targetDigest)
  {
    if exists row :: row in s.cessations && SameCessation(setup, row, att) {
      row :| row in s.cessations && SameCessation(setup, row, att)
             && CeaseStep(setup, s, att, true) == (s, CessationRecorded(CessationReceiptOf(row, true)));
    } else {
      row := CessationFor(setup, s, att);
    }
  }

  /** That row is still there in every later state, and the table still well formed. */
  lemma RecordedForever(setup: Setup, events: seq<Event>, att: CessationAttestation, later: seq<Event>)
    returns (row: CessationRow)
    requires CeaseStep(setup, Run(setup, Empty, events), att, true).1.CessationRecorded?
    ensures var (s1, reply) := CeaseStep(setup, Run(setup, Empty, events), att, true);
            var s := Run(setup, s1, later);
            && CessationsWellFormed(setup, s) && row in s.cessations && SameCessation(setup, row, att)
            && CessationReceiptOf(row, true) == reply.receipt.(replayed := true)
    ensures setup.seal.target(att.repositoryId) == Some(att.targetDigest)
  {
    hide CeaseStep, CessationsWellFormed, SealTable.WellFormed, SealTable.Sealed, SameCessation, CessationReceiptOf, Run;
    var s0 := Run(setup, Empty, events);
    EmptyIsFine(setup);
    RunKeepsInvariant(setup, Empty, events);
    CeaseKeepsInvariant(setup, s0, att, true);
    RunKeepsInvariant(setup, CeaseStep(setup, s0, att, true).0, later);
    row := RecordedRow(setup, s0, att);
  }

  /** Resubmitting a cessation, however much later, changes nothing and repeats the receipt, marked replayed. */
  lemma CessationReplays(setup: Setup, events: seq<Event>, att: CessationAttestation, later: seq<Event>)
    requires CeaseStep(setup, Run(setup, Empty, events), att, true).1.CessationRecorded?
    ensures var (s1, reply) := CeaseStep(setup, Run(setup, Empty, events), att, true);
            var s := Run(setup, s1, later);
            CeaseStep(setup, s, att, true) == (s, CessationRecorded(reply.receipt.(replayed := true)))
  {
    hide CeaseStep, CessationsWellFormed, Run;
    var row := RecordedForever(setup, events, att, later);
    LookupDecides(setup, Run(setup, CeaseStep(setup, Run(setup, Empty, events), att, true).0, later), att, row);
  }

  /**
    The receipt of a cessation names its attestation, and what it says about the result is what
    every later state says.
   */
  lemma CessationReceiptStaysTrue(setup: Setup, events: seq<Event>, att: CessationAttestation, later: seq<Event>)
    requires CeaseStep(setup, Run(setup, Empty, events), att, true).1.CessationRecorded?
    ensures var (s1, reply) := CeaseStep(setup, Run(setup, Empty, events), att, true);
            && reply.receipt.result == FoundResult(Run(setup, s1, later), att.claimId)
            && reply.receipt.claimId == att.claimId && reply.receipt.cessationId == att.cessationId
            && reply.receipt.sourceId == att.sourceId
  {
    hide CeaseStep, FoundResult, Run;
    var row := RecordedForever(setup, events, att, later);
    assert TrueOf(Run(setup, CeaseStep(setup, Run(setup, Empty, events), att, true).0, later), row);
  }

  /** The event is a call that passed every check and whose arguments the result repeats, field by field. */
  ghost predicate Wrote(setup: Setup, e: Event, result: Result) {
    && e.Contact? && Precheck(setup, e.call) == None && e.call.supported
    && result.claimId == e.call.capability.claimId && result.answer == e.call.request.answer
    && result.usage == e.call.usage && result.final
    && result.containmentDigest == e.call.request.containmentDigest && result.containmentVersion == BINDING_VERSION
    && result.resultId == ResultOf(setup, e.call).resultId
  }

  /** Every result of a reachable ledger was written by a call of the run that passed every check. */
  lemma {:induction false} EveryResultHasItsCall(setup: Setup, s: State, events: seq<Event>, claim: string)
    requires claim in Run(setup, s, events).results && claim !in s.results
    ensures exists e :: e in events && Wrote(setup, e, Run(setup, s, events).results[claim])
    decreases |events|
  {
    hide SealTable.RecordSpec, SealTable.Sealed, RequestValid, Containment.Permits, Containment.ParseSpec;
    if events != [] {
      var s1 := Step(setup, s, events[0]);
      if claim in s1.results {
        ResultsStay(setup, s1, events[1..], claim);
        assert Wrote(setup, events[0], s1.results[claim]);
      } else {
        EveryResultHasItsCall(setup, s1, events[1..], claim);
      }
    }
  }

  lemma {:induction false} ResultsStay(setup: Setup, s: State, events: seq<Event>, claim: string)
    requires claim in s.results
    ensures claim in Run(setup, s, events).results && Run(setup, s, events).results[claim] == s.results[claim]
    decreases |events|
  {
    hide SealTable.RecordSpec, SealTable.Sealed, Precheck;
    if events != [] {
      ResultsStay(setup, Step(setup, s, events[0]), events[1..], claim);
    }
  }

  /**
    Every result comes from a contained call: it asked for the two allowed actions and nothing
    else, its rendered result is within bounds, and each of its paths lies in its own root and in no
    other.
   */
  lemma EveryResultIsContained(setup: Setup, events: seq<Event>, claim: string)
    requires claim in Run(setup, Empty, events).results
    ensures exists e :: e in events && Wrote(setup, e, Run(setup, Empty, events).results[claim]) && KeptInside(setup, e.call)
  {
    hide Precheck, KeptInside, Run;
    EveryResultHasItsCall(setup, Empty, events, claim);
    var e :| e in events && Wrote(setup, e, Run(setup, Empty, events).results[claim]);
    AdmittedIsKeptInside(setup, e.call);
  }

  ghost predicate KeptInside(setup: Setup, c: Call) {
    var wish := c.request.wish;
    && SpecOf(setup, c).Some? && ValidSpec(setup.containment, SpecOf(setup, c).value)
    && var spec := SpecOf(setup, c).value;
    && wish.requestedActions == spec.allowedActions && !wish.usesSubprocess && !wish.usesTool && !wish.usesNetwork
    && 0 <= wish.outputBytes <= spec.maxOutputBytes <= MAX_OUTPUT_BYTES
    && spec.inputDigest == c.request.answer.inputDigest
    && Contained(wish.readPath, spec.inputRoot, true)
    && Contained(wish.outputPath, spec.outputRoot, false) && Contained(wish.scratchPath, spec.scratchRoot, false)
    && !Contained(wish.outputPath, spec.inputRoot, true) && !Contained(wish.scratchPath, spec.inputRoot, true)
    && !Contained(wish.readPath, spec.outputRoot, true) && !Contained(wish.scratchPath, spec.outputRoot, true)
    && !Contained(wish.readPath, spec.scratchRoot, true) && !Contained(wish.outputPath, spec.scratchRoot, true)
  }

  lemma AdmittedIsKeptInside(setup: Setup, c: Call)
    requires Precheck(setup, c) == None
    ensures KeptInside(setup, c)
  {
    hide Containment.Contained, Containment.Apart, Containment.StaysInside, PyText.Blank;
    PermittedPathsAreIsolated(setup.containment, c.intent.containmentSpecJson, c.request.wish,
                              c.request.answer.resultDigest, c.request.answer.verdict);
  }

  /**
    A recorded nonexecution attestation, resubmitted after any later events, changes nothing and
    gets the same receipt marked replayed; another one that shares an identity with it is refused.
   */
  lemma SealIdentitiesAreFinal(setup: Setup, events: seq<Event>, att: Attestation, later: seq<Event>, other: Attestation)
    requires SealStep(setup, Run(setup, Empty, events), att, true).1.Recorded?
    ensures var (s1, reply) := SealStep(setup, Run(setup, Empty, events), att, true);
            var s := Run(setup, s1, later);
            && SealStep(setup, s, att, true) == (s, Recorded(reply.receipt.(replayed := true)))
            && (other != att && Shares(att, other) ==>
                  SealStep(setup, s, other, true).0 == s && SealStep(setup, s, other, true).1.Refused?)
  {
    hide CessationsWellFormed, CeaseStep, ContactStep;
    var s0 := Run(setup, Empty, events);
    EmptyIsFine(setup);
    RunKeepsInvariant(setup, Empty, events);
    SealKeepsInvariant(setup, s0, att, true);
    var s1 := SealStep(setup, s0, att, true).0;
    RunKeepsInvariant(setup, s1, later);
    var s := Run(setup, s1, later);
    SealReplays(setup.seal, s0.seals, s0.results.Keys, s.results.Keys, s.seals, att);
    if other != att && Shares(att, other) {
      SealRebindingRefused(setup.seal, s.seals, s.results.Keys, RowFor(setup.seal, att), other);
    }
  }

  lemma EmptyIsFine(setup: Setup)
    ensures Invariant(setup, Empty)
  {
  }

  /** With an injective digest, an attestation that shares an identity with another one is refused. */
  lemma CessationRebindingRefused(setup: Setup, events: seq<Event>, row: CessationRow, att: CessationAttestation)
    requires forall a, b :: setup.attestationDigest(a) == setup.attestationDigest(b) ==> a == b
    requires row in Run(setup, Empty, events).cessations
    requires att != row.body.attestation && SharesIdentity(row.body.attestation, att)
    ensures var s := Run(setup, Empty, events);
            CeaseStep(setup, s, att, true).0 == s && CeaseStep(setup, s, att, true).1.CessationRefused?
  {
    hide Precheck, ContactStep, SealStep, Run, SealTable.WellFormed, SealTable.Sealed;
    RunKeepsInvariant(setup, Empty, events);
    var s := Run(setup, Empty, events);
    forall other | other in s.cessations ensures !SameCessation(setup, other, att) {
      assert setup.attestationDigest(other.body.attestation) == setup.attestationDigest(att)
             ==> other.body.attestation == att;
    }
  }

  // ----- which calls get through -----

  /** Everything the adapter asks of a call before its ledger, written out. */
  ghost predicate InOrder(setup: Setup, c: Call) {
    var a := c.request.answer;
    && !c.commit.replayed && c.commit.eventHash != ""
    && a.repositoryId == c.capability.repositoryId == c.intent.repositoryId
    && a.logicalEffectId == c.capability.logicalEffectId == c.intent.logicalEffectId
    && a.revisionDigest == c.capability.revisionDigest == c.intent.revisionDigest
    && a.checkId == c.capability.checkId == c.intent.checkId
    && a.inputDigest == c.capability.inputDigest == c.intent.inputDigest
    && a.validatorAttemptId == c.capability.validatorAttemptId == c.intent.validatorAttemptId
    && c.request.scopeDigest == c.capability.scopeDigest
    && Strip(a.repositoryId) != "" && Strip(a.logicalEffectId) != "" && Strip(a.revisionDigest) != "" && Strip(a.checkId) != ""
    && Strip(a.inputDigest) != "" && Strip(a.validatorAttemptId) != "" && Strip(a.resultDigest) != ""
    && Strip(c.request.scopeDigest) != "" && Strip(c.request.containmentDigest) != ""
    && Strip(c.request.wish.readPath) != "" && Strip(c.request.wish.outputPath) != "" && Strip(c.request.wish.scratchPath) != ""
    && (a.verdict == "PASS" || a.verdict == "FAIL")
    && (c.usage.Some? ==> c.usage.value >= 0)
    && setup.seal.target(c.intent.repositoryId).Some? && c.issued && c.admitted
    && Contains(setup, c)
  }

  /** The intent's containment specification is valid and covers what the request asks for, written out. */
  ghost predicate Contains(setup: Setup, c: Call) {
    var spec, wish := setup.containment.decode(c.intent.containmentSpecJson), c.request.wish;
    && spec.Some? && Isolating(setup.containment, spec.value)
    && c.request.containmentDigest == c.capability.containmentDigest == setup.containment.digest(spec.value)
    && spec.value.inputDigest == c.intent.inputDigest
    && wish.requestedActions == ["READ_PINNED_INPUT", "EMIT_BOUNDED_RESULT"]
    && Beneath(wish.readPath, spec.value.inputRoot)
    && Beneath(wish.outputPath, spec.value.outputRoot) && Parts(wish.outputPath) != Parts(spec.value.outputRoot)
    && Beneath(wish.scratchPath, spec.value.scratchRoot) && Parts(wish.scratchPath) != Parts(spec.value.scratchRoot)
    && wish.outputBytes == setup.containment.outputSize(c.request.answer.resultDigest, c.request.answer.verdict)
    && wish.outputBytes <= spec.value.maxOutputBytes
    && !wish.usesSubprocess && !wish.usesTool && !wish.usesNetwork
  }

  lemma PrecheckMeans(setup: Setup, c: Call)
    ensures Precheck(setup, c) == None <==> InOrder(setup, c)
  {
    hide PyText.Blank, PyText.Strip, Containment.Parts, Containment.StaysInside, Containment.Isolating, Containment.Beneath;
    var a, wish := c.request.answer, c.request.wish;
    RequestValidMeans(c.request);
    VerdictsAreVisible();
    assert "" !in ["READ_PINNED_INPUT", "EMIT_BOUNDED_RESULT"] by {
      assert |"READ_PINNED_INPUT"| > 0 && |"EMIT_BOUNDED_RESULT"| > 0;
    }
    hide RequestValid;
    if setup.containment.decode(c.intent.containmentSpecJson).Some? {
      var spec := setup.containment.decode(c.intent.containmentSpecJson).value;
      ValidSpecMeans(setup.containment, spec);
      BeneathMeans(wish.readPath, spec.inputRoot);
      BeneathMeans(wish.outputPath, spec.outputRoot);
      BeneathMeans(wish.scratchPath, spec.scratchRoot);
    }
    hide Containment.ValidSpec, Containment.Contained;
  }

  lemma VerdictsAreVisible()
    ensures Strip("PASS") != "" && Strip("FAIL") != ""
  {
    assert !IsSpace("PASS"[0]) && !IsSpace("FAIL"[0]);
    StripSpec("PASS");
    StripSpec("FAIL");
  }

  lemma RequestValidMeans(r: Request)
    ensures RequestValid(r) <==>
              && Strip(r.answer.repositoryId) != "" && Strip(r.answer.logicalEffectId) != ""
              && Strip(r.answer.revisionDigest) != "" && Strip(r.answer.checkId) != "" && Strip(r.answer.inputDigest) != ""
              && Strip(r.answer.validatorAttemptId) != "" && Strip(r.scopeDigest) != "" && Strip(r.answer.resultDigest) != ""
              && Strip(r.answer.verdict) != "" && Strip(r.containmentDigest) != "" && Strip(r.wish.readPath) != ""
              && Strip(r.wish.outputPath) != "" && Strip(r.wish.scratchPath) != ""
              && (r.answer.verdict == "PASS" || r.answer.verdict == "FAIL")
              && "" !in r.wish.requestedActions && r.wish.outputBytes >= 0
  {
    hide PyText.Blank, PyText.Strip;
    forall x: string ensures Strip(x) == "" <==> Blank(x) {
      StripSpec(x);
    }
  }

  /** Every result of a reachable ledger comes from a call of the run that was in order. */
  lemma EveryResultWasInOrder(setup: Setup, events: seq<Event>, claim: string)
    requires claim in Run(setup, Empty, events).results
    ensures exists e :: e in events && Wrote(setup, e, Run(setup, Empty, events).results[claim]) && InOrder(setup, e.call)
  {
    hide Run, InOrder, Precheck;
    EveryResultHasItsCall(setup, Empty, events, claim);
    var e :| e in events && Wrote(setup, e, Run(setup, Empty, events).results[claim]);
    PrecheckMeans(setup, e.call);
  }

  /**
    A call in order, of a claim neither ceased nor sealed nor settled, and with a result id no
    row has, is stored and acknowledged with the result that repeats it.
   */
  lemma InOrderCommits(setup: Setup, s: State, c: Call, resultId: string)
    requires InOrder(setup, c) && c.supported && !c.loseResult && c.hook == Quiet
    requires resultId == setup.sha(c.capability.claimId + "\0" + c.request.answer.resultDigest + "\0" + c.request.answer.verdict)
    requires c.capability.claimId !in s.results
    requires forall row :: row in s.seals ==> row.body.attestation.claimId != c.capability.claimId
    requires forall row :: row in s.cessations ==> row.body.attestation.claimId != c.capability.claimId
    requires forall k :: k in s.results ==> s.results[k].resultId != resultId
    ensures var result := Result(resultId, c.capability.claimId, c.request.answer, c.usage, true, 1, c.request.containmentDigest);
            ContactStep(setup, s, c)
            == (State(s.results[c.capability.claimId := result], s.seals, s.cessations), Acknowledged(result))
  {
    hide InOrder, RequestValid, RequestBinds, Containment.Permits, Containment.ParseSpec;
    PrecheckMeans(setup, c);
    assert SpecDigest(setup, c) == c.request.containmentDigest by {
      DigestOfOrder(setup, c);
    }
    hide Precheck, SpecDigest;
  }

  lemma DigestOfOrder(setup: Setup, c: Call)
    requires InOrder(setup, c)
    ensures SpecDigest(setup, c) == c.request.containmentDigest
  {
    hide PyText.Strip, Containment.Beneath, Containment.Isolating, Containment.ValidSpec;
    ValidSpecMeans(setup.containment, setup.containment.decode(c.intent.containmentSpecJson).value);
  }

  /** Any other call that no hook interrupts is denied and stores nothing. */
  lemma OthersAreDenied(setup: Setup, s: State, c: Call)
    requires c.hook == Quiet
    requires || !InOrder(setup, c) || !c.supported || c.capability.claimId in s.results
             || (exists row :: row in s.seals && row.body.attestation.claimId == c.capability.claimId)
             || (exists row :: row in s.cessations && row.body.attestation.claimId == c.capability.claimId)
             || (exists k :: k in s.results && s.results[k].resultId == ResultOf(setup, c).resultId)
    ensures ContactStep(setup, s, c).0 == s && ContactStep(setup, s, c).1.Denied?
  {
    hide InOrder, Precheck, ResultOf;
    PrecheckMeans(setup, c);
    assert forall row: SealRow :: row.Claim() == row.body.attestation.claimId;
    assert forall row: CessationRow :: row.Claim() == row.body.attestation.claimId;
  }

  /** What a call in order is told when the ledger stands against it, in the order of the checks. */
  lemma LedgerReasons(setup: Setup, s: State, c: Call)
    requires InOrder(setup, c) && c.hook != BeforeTransaction
    ensures !c.supported ==> ContactStep(setup, s, c) == (s, Denied(SupportChanged))
    ensures c.supported && (exists row :: row in s.cessations && row.body.attestation.claimId == c.capability.claimId) ==>
              ContactStep(setup, s, c) == (s, Denied(SealedCeased))
    ensures c.supported && (forall row :: row in s.cessations ==> row.body.attestation.claimId != c.capability.claimId) ==>
              && ((exists row :: row in s.seals && row.body.attestation.claimId == c.capability.claimId) ==>
                    ContactStep(setup, s, c) == (s, Denied(SealedNonexecuted)))
              && (c.capability.claimId in s.results
                    && (forall row :: row in s.seals ==> row.body.attestation.claimId != c.capability.claimId) ==>
                    ContactStep(setup, s, c) == (s, Denied(AlreadyUsed)))
  {
    hide InOrder, Precheck, ResultOf;
    PrecheckMeans(setup, c);
    assert forall row: SealRow :: row.Claim() == row.body.attestation.claimId;
    assert forall row: CessationRow :: row.Claim() == row.body.attestation.claimId;
  }

  // ----- cessations, field by field -----

  /** In a well-formed table each of the four identities names at most one cessation. */
  lemma CessationIdentitiesAreUnique(setup: Setup, s: State, r: CessationRow, t: CessationRow)
    requires CessationsWellFormed(setup, s) && r in s.cessations && t in s.cessations
    requires var a, b := r.body.attestation, t.body.attestation;
             a.cessationId == b.cessationId || a.claimId == b.claimId || a.sourceId == b.sourceId || a.attestationId == b.attestationId
    ensures r == t
  {
    assert SharesIdentity(r.body.attestation, t.body.attestation);
  }

  /**
    A new cessation is stored with the result its claim has, or none, and answered field by
    field; the hash is that of the stored body.
   */
  lemma NewCessationIsRecorded(setup: Setup, s: State, att: CessationAttestation, result: Option<(string, string)>, hash: string)
    requires setup.seal.target(att.repositoryId) == Some(att.targetDigest)
    requires forall row :: row in s.cessations ==>
               && row.body.attestation.cessationId != att.cessationId && row.body.attestation.claimId != att.claimId
               && row.body.attestation.sourceId != att.sourceId && row.body.attestation.attestationId != att.attestationId
    requires result == if att.claimId !in s.results then None
                       else Some((s.results[att.claimId].resultId, s.results[att.claimId].answer.resultDigest))
    requires hash == setup.bodyDigest(CessationBody(att, setup.attestationDigest(att), 1, result))
    requires forall row :: row in s.cessations ==> row.cessationHash != hash
    ensures CeaseStep(setup, s, att, true)
         == (State(s.results, s.seals, s.cessations + {CessationRow(CessationBody(att, setup.attestationDigest(att), 1, result), hash)}),
             CessationRecorded(CessationReceipt(att.cessationId, att.targetDigest, att.claimId, att.sourceId, att.repositoryId,
                                                att.runId, att.itemId, att.logicalEffectId, att.revisionDigest, att.checkId,
                                                att.validatorAttemptId, result, hash, false)))
  {
    assert forall row :: row in s.cessations ==> !SameCessation(setup, row, att) && !SharesIdentity(row.body.attestation, att);
  }

  /** A replayed cessation gets the receipt its row gives, field by field. */
  lemma ReplayRepeatsRow(setup: Setup, s: State, row: CessationRow)
    requires CessationsWellFormed(setup, s) && row in s.cessations
    requires setup.seal.target(row.body.attestation.repositoryId) == Some(row.body.attestation.targetDigest)
    ensures var a := row.body.attestation;
            CeaseStep(setup, s, a, true)
            == (s, CessationRecorded(CessationReceipt(a.cessationId, a.targetDigest, a.claimId, a.sourceId, a.repositoryId,
                                                      a.runId, a.itemId, a.logicalEffectId, a.revisionDigest, a.checkId,
                                                      a.validatorAttemptId, row.body.result, row.cessationHash, true)))
  {
    hide CeaseStep;
    LookupDecides(setup, s, row.body.attestation, row);
  }
}
