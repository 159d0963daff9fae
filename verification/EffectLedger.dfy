/**
  The synthetic execution adapter of tools/aegis_delivery_control/adapters.py: a durable table
  of effects beside the nonexecution seals.

  `Ledger` is the adapter with its tables; `Step` says what one call does to them, and the
  theorems quantify over every sequence of calls, crashes and lost receipts.
 */
module EffectLedger {
  import opened Options
  import opened PyText
  import opened SealTable

  datatype Capability = Capability(
    claimId: string, repositoryId: string, logicalEffectId: string, attemptId: string, scopeDigest: string)

  datatype Request = Request(
    repositoryId: string, logicalEffectId: string, attemptId: string, scopeDigest: string, payloadDigest: string)

  datatype Intent = Intent(
    repositoryId: string, runId: string, itemId: string, logicalEffectId: string, attemptId: string,
    effectDescriptorDigest: string)

  datatype Commit = Commit(replayed: bool, eventHash: string)

  datatype Launch = Launch(
    replayed: bool, eventHash: string, repositoryId: string, runId: string, itemId: string,
    logicalEffectId: string, attemptId: string, intentEventHash: string)

  /**
    One call of `_execute_committed`. `issued` is the authority's answer, `admitted` the state
    store's answer to the contact; `loseReceipt` and `crash` say what happens to the acknowledgement.
   */
  datatype Call = Call(
    capability: Capability, request: Request, intent: Intent, commit: Commit, launch: Launch,
    usage: Option<int>, issued: bool, admitted: bool, loseReceipt: bool, crash: Crash)

  datatype EffectRow = EffectRow(
    claimId: string, receiptId: string, repositoryId: string, runId: string, itemId: string,
    logicalEffectId: string, attemptId: string, payloadDigest: string, usage: Option<int>)

  datatype Receipt = Receipt(
    receiptId: string, claimId: string, repositoryId: string, runId: string, itemId: string,
    logicalEffectId: string, attemptId: string, payloadDigest: string, usage: Option<int>, accepted: bool)

  datatype Setup = Setup(seal: Config, sha: string -> string)

  datatype Reply = Acknowledged(receipt: Receipt) | NoReceipt | Crashed | Denied(reason: Denial)

  datatype State = State(effects: map<string, EffectRow>, seals: set<SealRow>)

  datatype Event = Contact(call: Call) | Seal(attestation: Attestation, verified: bool)

  const Empty: State := State(map[], {})

  // ----- one call -----

  predicate RequestValid(r: Request) {
    !(Blank(r.repositoryId) || Blank(r.logicalEffectId) || Blank(r.attemptId)
      || Blank(r.scopeDigest) || Blank(r.payloadDigest))
  }

  predicate LaunchBinds(c: Call) {
    && c.launch.repositoryId == c.intent.repositoryId && c.launch.runId == c.intent.runId
    && c.launch.itemId == c.intent.itemId && c.launch.logicalEffectId == c.intent.logicalEffectId
    && c.launch.attemptId == c.intent.attemptId && c.launch.intentEventHash == c.commit.eventHash
  }

  predicate RequestBinds(c: Call) {
    && c.request.repositoryId == c.intent.repositoryId
    && c.request.logicalEffectId == c.intent.logicalEffectId
    && c.request.attemptId == c.intent.attemptId
    && c.request.scopeDigest == c.capability.scopeDigest
    && c.request.payloadDigest == c.intent.effectDescriptorDigest
    && c.capability.repositoryId == c.intent.repositoryId
    && c.capability.logicalEffectId == c.intent.logicalEffectId
    && c.capability.attemptId == c.intent.attemptId
  }

  /** The checks made before the ledger is opened; the first that fails is reported. */
  function Precheck(setup: Setup, c: Call): Option<Denial> {
    if c.commit.replayed || c.commit.eventHash == "" then Some(NotFresh)
    else if setup.seal.target(c.intent.repositoryId).None? then Some(WrongTarget)
    else if c.launch.replayed || c.launch.eventHash == "" then Some(NotFresh)
    else if !RequestValid(c.request) then Some(Invalid)
    else if !LaunchBinds(c) then Some(Unbound)
    else if !c.issued then Some(Unverified)
    else if c.usage.Some? && c.usage.value < 0 then Some(Invalid)
    else if !RequestBinds(c) then Some(Unbound)
    else if !c.admitted then Some(ContactRefused)
    else None
  }

  function ReceiptId(setup: Setup, c: Call): string {
    setup.sha(c.capability.claimId + "\0" + c.request.logicalEffectId + "\0" + c.request.attemptId
              + "\0" + c.request.payloadDigest)
  }

  function RowOf(setup: Setup, c: Call): EffectRow {
    EffectRow(c.capability.claimId, ReceiptId(setup, c), c.intent.repositoryId, c.intent.runId, c.intent.itemId,
              c.request.logicalEffectId, c.request.attemptId, c.request.payloadDigest, c.usage)
  }

  /** The receipt a call builds from its own arguments. */
  function ReceiptOfCall(setup: Setup, c: Call): Receipt {
    Receipt(ReceiptId(setup, c), c.capability.claimId, c.intent.repositoryId, c.intent.runId, c.intent.itemId,
            c.request.logicalEffectId, c.request.attemptId, c.request.payloadDigest, c.usage, true)
  }

  /** The receipt `reconcile` reads back from a stored row. */
  function ReceiptOfRow(row: EffectRow): Receipt {
    Receipt(row.receiptId, row.claimId, row.repositoryId, row.runId, row.itemId,
            row.logicalEffectId, row.attemptId, row.payloadDigest, row.usage, true)
  }

  function Reconciled(s: State, claim: string): Option<Receipt> {
    if claim in s.effects then Some(ReceiptOfRow(s.effects[claim])) else None
  }

  function ContactStep(setup: Setup, s: State, c: Call): (State, Reply) {
    var claim := c.capability.claimId;
    if Precheck(setup, c).Some? then (s, Denied(Precheck(setup, c).value))
    else if Sealed(s.seals, claim) then (s, Denied(SealedNonexecuted))
    else if claim in s.effects then (s, Denied(AlreadyUsed))
    else if exists k :: k in s.effects && s.effects[k].receiptId == ReceiptId(setup, c) then
      (s, Denied(ConstraintFailed))
    else if c.crash.BeforeCommit? then (s, Crashed)
    else
      (s.(effects := s.effects[claim := RowOf(setup, c)]),
       if c.crash.AfterCommit? then Crashed
       else if c.loseReceipt then NoReceipt else Acknowledged(ReceiptOfCall(setup, c)))
  }

  ghost function SealStep(setup: Setup, s: State, att: Attestation, verified: bool): (State, SealReply) {
    if !verified then (s, Refused(Unverified))
    else
      var (seals, reply) := RecordSpec(setup.seal, s.seals, s.effects.Keys, att);
      (s.(seals := seals), reply)
  }

  ghost function Step(setup: Setup, s: State, e: Event): State {
    match e
    case Contact(call) => ContactStep(setup, s, call).0
    case Seal(att, verified) => SealStep(setup, s, att, verified).0
  }

  ghost function Run(setup: Setup, s: State, events: seq<Event>): State
    decreases |events|
  {
    if events == [] then s else Run(setup, Step(setup, s, events[0]), events[1..])
  }

  /** The call writes its row. */
  predicate Commits(setup: Setup, s: State, c: Call) {
    ContactStep(setup, s, c).0 != s
  }

  // ----- the adapter -----

  class Ledger {
    const setup: Setup
    var effects: map<string, EffectRow>
    var seals: set<SealRow>

    ghost function Value(): State
      reads this
    {
      State(effects, seals)
    }

    ghost predicate Valid()
      reads this
    {
      Invariant(setup, Value())
    }

    constructor (setup: Setup)
      ensures Valid() && Value() == Empty && this.setup == setup
    {
      this.setup := setup;
      effects, seals := map[], {};
    }

    method SealNonexecution(att: Attestation, verified: bool) returns (reply: SealReply)
      requires Valid()
      modifies this
      ensures Valid()
      ensures (Value(), reply) == SealStep(setup, old(Value()), att, verified)
    {
      StepKeepsInvariant(setup, Value(), Seal(att, verified));
      if !verified {
        return Refused(Unverified);
      }
      var recorded;
      recorded, reply := RecordNonexecutionSeal(setup.seal, seals, effects.Keys, att);
      seals := recorded;
    }

    method ExecuteCommitted(c: Call) returns (reply: Reply)
      requires Valid()
      modifies this
      ensures Valid()
      ensures (Value(), reply) == ContactStep(setup, old(Value()), c)
    {
      StepKeepsInvariant(setup, Value(), Contact(c));
      var denial := Precheck(setup, c);
      if denial.Some? {
        return Denied(denial.value);
      }
      var claim := c.capability.claimId;
      if Sealed(seals, claim) {
        return Denied(SealedNonexecuted);
      }
      if claim in effects {
        return Denied(AlreadyUsed);
      }
      var receiptId := ReceiptId(setup, c);
      if exists k :: k in effects && effects[k].receiptId == receiptId {
        return Denied(ConstraintFailed);
      }
      var before := effects;
      effects := effects[claim := RowOf(setup, c)];
      if c.crash.BeforeCommit? {
        effects := before;
        return Crashed;
      }
      if c.crash.AfterCommit? {
        return Crashed;
      }
      reply := if c.loseReceipt then NoReceipt else Acknowledged(ReceiptOfCall(setup, c));
    }

    method Reconcile(claim: string) returns (receipt: Option<Receipt>)
      ensures receipt == Reconciled(Value(), claim)
    {
      receipt := if claim in effects then Some(ReceiptOfRow(effects[claim])) else None;
    }
  }

  // ----- every run -----

  /** No claim is both executed and sealed, and every column the tables call UNIQUE is unique. */
  ghost predicate Invariant(setup: Setup, s: State) {
    && (forall claim :: claim in s.effects ==> s.effects[claim].claimId == claim && !Sealed(s.seals, claim))
    && (forall k, l :: k in s.effects && l in s.effects && s.effects[k].receiptId == s.effects[l].receiptId ==> k == l)
    && WellFormed(setup.seal, s.seals)
  }

  lemma ContactKeepsInvariant(setup: Setup, s: State, c: Call)
    requires Invariant(setup, s)
    ensures Invariant(setup, ContactStep(setup, s, c).0) && Extends(s, ContactStep(setup, s, c).0)
  {
    hide Precheck, ReceiptId, SealTable.WellFormed, SealTable.Sealed, Invariant, Extends;
    var claim := c.capability.claimId;
    if ContactStep(setup, s, c).0 != s {
      assert !Sealed(s.seals, claim) && claim !in s.effects;
      assert forall k :: k in s.effects ==> s.effects[k].receiptId != ReceiptId(setup, c);
      RowAdded(setup, s, RowOf(setup, c));
    } else {
      NothingChanged(s);
    }
  }

  lemma NothingChanged(s: State)
    ensures Extends(s, s)
  {
  }

  /** A row for a new, unsealed claim with a new receipt id keeps the invariant. */
  lemma RowAdded(setup: Setup, s: State, row: EffectRow)
    requires Invariant(setup, s) && !Sealed(s.seals, row.claimId) && row.claimId !in s.effects
    requires forall k :: k in s.effects ==> s.effects[k].receiptId != row.receiptId
    ensures var s' := State(s.effects[row.claimId := row], s.seals); Invariant(setup, s') && Extends(s, s')
  {
    hide SealTable.WellFormed, SealTable.Sealed;
  }

  lemma SealKeepsInvariant(setup: Setup, s: State, att: Attestation, verified: bool)
    requires Invariant(setup, s)
    ensures Invariant(setup, SealStep(setup, s, att, verified).0) && Extends(s, SealStep(setup, s, att, verified).0)
  {
    hide SealTable.WellFormed, SealTable.RecordSpec;
    RecordKeeps(setup.seal, s.seals, s.effects.Keys, att);
  }

  lemma StepKeepsInvariant(setup: Setup, s: State, e: Event)
    requires Invariant(setup, s)
    ensures Invariant(setup, Step(setup, s, e)) && Extends(s, Step(setup, s, e))
  {
    hide Invariant, ContactStep, SealStep, Extends;
    match e
    case Contact(call) => ContactKeepsInvariant(setup, s, call);
    case Seal(att, verified) => SealKeepsInvariant(setup, s, att, verified);
  }

  /** Rows are only ever added. */
  ghost predicate Extends(s: State, s': State) {
    && (forall claim :: claim in s.effects ==> claim in s'.effects && s'.effects[claim] == s.effects[claim])
    && s.seals <= s'.seals
  }

  lemma {:induction false} RunKeepsInvariant(setup: Setup, s: State, events: seq<Event>)
    requires Invariant(setup, s)
    ensures Invariant(setup, Run(setup, s, events))
    ensures Extends(s, Run(setup, s, events))
    decreases |events|
  {
    hide Step, Invariant;
    if events != [] {
      StepKeepsInvariant(setup, s, events[0]);
      RunKeepsInvariant(setup, Step(setup, s, events[0]), events[1..]);
    }
  }

  lemma ReachableInvariant(setup: Setup, events: seq<Event>)
    ensures Invariant(setup, Run(setup, Empty, events))
  {
    RunKeepsInvariant(setup, Empty, events);
  }

  /** Over every run of the ledger no claim has both an effect row and a nonexecution seal. */
  lemma NeverBothExecutedAndSealed(setup: Setup, events: seq<Event>, claim: string)
    ensures var s := Run(setup, Empty, events); !(claim in s.effects && Sealed(s.seals, claim))
  {
    RunKeepsInvariant(setup, Empty, events);
  }

  /**
    Once sealed, a claim reconciles to nothing in every later state, and no later contact of
    it writes a row or acknowledges anything.
   */
  lemma SealedForever(setup: Setup, events: seq<Event>, later: seq<Event>, claim: string, c: Call)
    requires Sealed(Run(setup, Empty, events).seals, claim)
    requires c.capability.claimId == claim
    ensures var s := Run(setup, Run(setup, Empty, events), later);
            && Reconciled(s, claim) == None
            && ContactStep(setup, s, c).0 == s
            && ContactStep(setup, s, c).1.Denied?
  {
    RunKeepsInvariant(setup, Empty, events);
    RunKeepsInvariant(setup, Run(setup, Empty, events), later);
  }

  /** A call that commits differs from its undisturbed twin only in the acknowledgement. */
  lemma LostAcknowledgement(setup: Setup, s: State, c: Call)
    requires Commits(setup, s, c)
    ensures ContactStep(setup, s, c.(loseReceipt := false, crash := NoCrash))
         == (ContactStep(setup, s, c).0, Acknowledged(ReceiptOfCall(setup, c)))
    ensures Reconciled(ContactStep(setup, s, c).0, c.capability.claimId) == Some(ReceiptOfCall(setup, c))
  {
    var quiet := c.(loseReceipt := false, crash := NoCrash);
    assert Precheck(setup, quiet) == Precheck(setup, c);
    assert ReceiptId(setup, quiet) == ReceiptId(setup, c);
  }

  /**
    A committed contact reconciles, in every later state, to the receipt that its
    acknowledgement carried or would have carried; and its claim can never be sealed.
   */
  lemma CommittedForever(setup: Setup, events: seq<Event>, c: Call, later: seq<Event>, att: Attestation)
    requires Commits(setup, Run(setup, Empty, events), c)
    ensures var s0 := Run(setup, Empty, events);
            var s := Run(setup, ContactStep(setup, s0, c).0, later);
            && ContactStep(setup, s0, c.(loseReceipt := false, crash := NoCrash)).1
            == Acknowledged(ReceiptOfCall(setup, c))
            && Reconciled(s, c.capability.claimId) == Some(ReceiptOfCall(setup, c))
            && (att.claimId == c.capability.claimId ==> SealStep(setup, s, att, true).1.Refused?)
  {
    var s0 := Run(setup, Empty, events);
    RunKeepsInvariant(setup, Empty, events);
    StepKeepsInvariant(setup, s0, Contact(c));
    LostAcknowledgement(setup, s0, c);
    var s1 := Step(setup, s0, Contact(c));
    RunKeepsInvariant(setup, s1, later);
    ExecutedNeverSealed(setup, Run(setup, s1, later), att);
  }

  lemma ExecutedNeverSealed(setup: Setup, s: State, att: Attestation)
    requires Invariant(setup, s)
    ensures att.claimId in s.effects ==> SealStep(setup, s, att, true).1.Refused?
  {
    assert RowFor(setup.seal, att).Claim() == att.claimId;
  }

  /** A commit needs a new claim and a new receipt id, and stores both. */
  lemma CommitIsNew(setup: Setup, s: State, c: Call)
    requires Commits(setup, s, c)
    ensures c.capability.claimId !in s.effects
    ensures forall k :: k in s.effects ==> s.effects[k].receiptId != ReceiptId(setup, c)
    ensures var after := ContactStep(setup, s, c).0.effects;
            c.capability.claimId in after && after[c.capability.claimId].receiptId == ReceiptId(setup, c)
  {
    hide Precheck, SealTable.Sealed, ReceiptId;
  }

  /** A claim is redeemed at most once: a call commits only if no earlier call of its claim did. */
  lemma AtMostOneCommit(setup: Setup, events: seq<Event>, i: nat, j: nat)
    requires i < j < |events| && events[i].Contact? && events[j].Contact?
    requires Commits(setup, Run(setup, Empty, events[..i]), events[i].call)
    requires Commits(setup, Run(setup, Empty, events[..j]), events[j].call)
    ensures events[i].call.capability.claimId != events[j].call.capability.claimId
    ensures ReceiptId(setup, events[i].call) != ReceiptId(setup, events[j].call)
  {
    hide ContactStep, SealStep, Invariant, Commits, ReceiptId;
    var s0 := Run(setup, Empty, events[..i]);
    var s1 := Step(setup, s0, events[i]);
    CommitIsNew(setup, s0, events[i].call);
    CommitIsNew(setup, Run(setup, Empty, events[..j]), events[j].call);
    ReachableInvariant(setup, events[..i]);
    StepKeepsInvariant(setup, s0, events[i]);
    RunAppend(setup, Empty, events[..i], events[i..j]);
    assert events[..i] + events[i..j] == events[..j];
    assert events[i..j][1..] == events[i + 1..j];
    RunKeepsInvariant(setup, s1, events[i + 1..j]);
  }

  lemma {:induction false} RunAppend(setup: Setup, s: State, first: seq<Event>, second: seq<Event>)
    ensures Run(setup, s, first + second) == Run(setup, Run(setup, s, first), second)
    decreases |first|
  {
    if first == [] {
      assert first + second == second;
    } else {
      assert (first + second)[1..] == first[1..] + second;
      RunAppend(setup, Step(setup, s, first[0]), first[1..], second);
    }
  }

  /**
    A recorded attestation, resubmitted after any later events, changes nothing and gets the
    same receipt marked replayed; any other attestation that shares an identity with it is refused.
   */
  lemma SealIdentitiesAreFinal(setup: Setup, events: seq<Event>, att: Attestation, later: seq<Event>, other: Attestation)
    requires SealStep(setup, Run(setup, Empty, events), att, true).1.Recorded?
    ensures var (s1, reply) := SealStep(setup, Run(setup, Empty, events), att, true);
            var s := Run(setup, s1, later);
            && SealStep(setup, s, att, true) == (s, Recorded(reply.receipt.(replayed := true)))
            && (other != att && Shares(att, other) ==>
                  SealStep(setup, s, other, true).0 == s && SealStep(setup, s, other, true).1.Refused?)
  {
    var s0 := Run(setup, Empty, events);
    RunKeepsInvariant(setup, Empty, events);
    StepKeepsInvariant(setup, s0, Seal(att, true));
    var s1 := Step(setup, s0, Seal(att, true));
    RunKeepsInvariant(setup, s1, later);
    var s := Run(setup, s1, later);
    SealReplays(setup.seal, s0.seals, s0.effects.Keys, s.effects.Keys, s.seals, att);
    if other != att && Shares(att, other) {
      SealRebindingRefused(setup.seal, s.seals, s.effects.Keys, RowFor(setup.seal, att), other);
    }
  }

  /** The event is a call that passed every check and whose arguments the row repeats, field by field. */
  ghost predicate Wrote(setup: Setup, e: Event, row: EffectRow) {
    && e.Contact? && Precheck(setup, e.call) == None
    && row.claimId == e.call.capability.claimId && row.repositoryId == e.call.intent.repositoryId
    && row.runId == e.call.intent.runId && row.itemId == e.call.intent.itemId
    && row.logicalEffectId == e.call.request.logicalEffectId && row.attemptId == e.call.request.attemptId
    && row.payloadDigest == e.call.request.payloadDigest && row.usage == e.call.usage
    && row.receiptId == ReceiptId(setup, e.call)
  }

  /** Every row of a reachable ledger was written by a call of the run that passed every check. */
  lemma {:induction false} EveryRowHasItsCall(setup: Setup, s: State, events: seq<Event>, claim: string)
    requires claim in Run(setup, s, events).effects && claim !in s.effects
    ensures exists e :: e in events && Wrote(setup, e, Run(setup, s, events).effects[claim])
    decreases |events|
  {
    hide Precheck, SealTable.RecordSpec, SealTable.Sealed;
    if events != [] {
      var s1 := Step(setup, s, events[0]);
      if claim in s1.effects {
        RowsStay(setup, s1, events[1..], claim);
        assert Wrote(setup, events[0], s1.effects[claim]);
      } else {
        EveryRowHasItsCall(setup, s1, events[1..], claim);
      }
    }
  }

  lemma {:induction false} RowsStay(setup: Setup, s: State, events: seq<Event>, claim: string)
    requires claim in s.effects
    ensures claim in Run(setup, s, events).effects && Run(setup, s, events).effects[claim] == s.effects[claim]
    decreases |events|
  {
    if events != [] {
      RowsStay(setup, Step(setup, s, events[0]), events[1..], claim);
    }
  }

  // ----- which calls get through -----

  /** Everything the adapter asks of a call, written out. */
  ghost predicate InOrder(setup: Setup, c: Call) {
    // The durable intent and launch are fresh, and the launch is the intent's.
    && !c.commit.replayed && c.commit.eventHash != "" && !c.launch.replayed && c.launch.eventHash != ""
    && c.launch.intentEventHash == c.commit.eventHash
    && c.launch.repositoryId == c.intent.repositoryId && c.launch.runId == c.intent.runId
    && c.launch.itemId == c.intent.itemId && c.launch.logicalEffectId == c.intent.logicalEffectId
    && c.launch.attemptId == c.intent.attemptId
    // Request, intent and capability agree.
    && c.request.repositoryId == c.intent.repositoryId == c.capability.repositoryId
    && c.request.logicalEffectId == c.intent.logicalEffectId == c.capability.logicalEffectId
    && c.request.attemptId == c.intent.attemptId == c.capability.attemptId
    && c.request.payloadDigest == c.intent.effectDescriptorDigest
    && c.request.scopeDigest == c.capability.scopeDigest
    // No field of the request is blank.
    && Strip(c.request.repositoryId) != "" && Strip(c.request.logicalEffectId) != "" && Strip(c.request.attemptId) != ""
    && Strip(c.request.scopeDigest) != "" && Strip(c.request.payloadDigest) != ""
    // The rest.
    && (c.usage.Some? ==> c.usage.value >= 0)
    && setup.seal.target(c.intent.repositoryId).Some? && c.issued && c.admitted
  }

  lemma PrecheckMeans(setup: Setup, c: Call)
    ensures Precheck(setup, c) == None <==> InOrder(setup, c)
  {
    hide PyText.Blank, PyText.Strip;
    StripSpec(c.request.repositoryId);
    StripSpec(c.request.logicalEffectId);
    StripSpec(c.request.attemptId);
    StripSpec(c.request.scopeDigest);
    StripSpec(c.request.payloadDigest);
  }

  /** Every row of a reachable ledger comes from a call of the run that was in order. */
  lemma EveryRowWasInOrder(setup: Setup, events: seq<Event>, claim: string)
    requires claim in Run(setup, Empty, events).effects
    ensures exists e :: e in events && Wrote(setup, e, Run(setup, Empty, events).effects[claim]) && InOrder(setup, e.call)
  {
    hide Run, InOrder, Precheck, ReceiptId;
    EveryRowHasItsCall(setup, Empty, events, claim);
    var e :| e in events && Wrote(setup, e, Run(setup, Empty, events).effects[claim]);
    PrecheckMeans(setup, e.call);
  }

  /**
    A call in order, of a claim that is neither sealed nor executed, and with a receipt id no row
    has, is stored and acknowledged with the receipt that repeats it.
   */
  lemma InOrderCommits(setup: Setup, s: State, c: Call, receiptId: string)
    requires InOrder(setup, c) && !c.loseReceipt && c.crash == NoCrash
    requires receiptId == setup.sha(c.capability.claimId + "\0" + c.request.logicalEffectId + "\0" + c.request.attemptId
                                    + "\0" + c.request.payloadDigest)
    requires c.capability.claimId !in s.effects
    requires forall row :: row in s.seals ==> row.body.attestation.claimId != c.capability.claimId
    requires forall k :: k in s.effects ==> s.effects[k].receiptId != receiptId
    ensures var row := EffectRow(c.capability.claimId, receiptId, c.intent.repositoryId, c.intent.runId, c.intent.itemId,
                                 c.intent.logicalEffectId, c.intent.attemptId, c.intent.effectDescriptorDigest, c.usage);
            var receipt := Receipt(receiptId, c.capability.claimId, c.intent.repositoryId, c.intent.runId, c.intent.itemId,
                                   c.intent.logicalEffectId, c.intent.attemptId, c.intent.effectDescriptorDigest, c.usage, true);
            && ContactStep(setup, s, c) == (State(s.effects[c.capability.claimId := row], s.seals), Acknowledged(receipt))
            && Reconciled(ContactStep(setup, s, c).0, c.capability.claimId) == Some(receipt)
  {
    hide Precheck;
    PrecheckMeans(setup, c);
  }

  /** Any other call is denied and stores nothing. */
  lemma OthersAreDenied(setup: Setup, s: State, c: Call)
    requires || !InOrder(setup, c) || c.capability.claimId in s.effects
             || (exists row :: row in s.seals && row.body.attestation.claimId == c.capability.claimId)
             || (exists k :: k in s.effects && s.effects[k].receiptId == ReceiptId(setup, c))
    ensures ContactStep(setup, s, c).0 == s && ContactStep(setup, s, c).1.Denied?
  {
    hide InOrder, Precheck, ReceiptId;
    PrecheckMeans(setup, c);
    assert forall row: SealRow :: row.Claim() == row.body.attestation.claimId;
  }

  /** What a call in order is told when the ledger stands against it, and what a crash before the commit leaves. */
  lemma LedgerReasons(setup: Setup, s: State, c: Call)
    requires InOrder(setup, c)
    ensures (exists row :: row in s.seals && row.body.attestation.claimId == c.capability.claimId) ==>
              ContactStep(setup, s, c) == (s, Denied(SealedNonexecuted))
    ensures (forall row :: row in s.seals ==> row.body.attestation.claimId != c.capability.claimId) ==>
              && (c.capability.claimId in s.effects ==> ContactStep(setup, s, c) == (s, Denied(AlreadyUsed)))
              && (c.capability.claimId !in s.effects && (exists k :: k in s.effects && s.effects[k].receiptId == ReceiptId(setup, c)) ==>
                    ContactStep(setup, s, c) == (s, Denied(ConstraintFailed)))
              && (c.crash == BeforeCommit && c.capability.claimId !in s.effects
                    && (forall k :: k in s.effects ==> s.effects[k].receiptId != ReceiptId(setup, c)) ==>
                    ContactStep(setup, s, c) == (s, Crashed))
  {
    hide InOrder, Precheck, ReceiptId;
    PrecheckMeans(setup, c);
    assert forall row: SealRow :: row.Claim() == row.body.attestation.claimId;
  }

  /** What is reported before the ledger is looked at: a replay, a foreign target, a bad request or usage, a missing issue, a mismatch. */
  lemma CheckReasons(setup: Setup, s: State, c: Call)
    requires !InOrder(setup, c)
    ensures var reply := ContactStep(setup, s, c).1;
            && (c.commit.replayed ==> reply == Denied(NotFresh))
            && (!c.commit.replayed && c.commit.eventHash != "" && setup.seal.target(c.intent.repositoryId) == None ==>
                  reply == Denied(WrongTarget))
            && (reply == Denied(Invalid) ==> !RequestValid(c.request) || (c.usage.Some? && c.usage.value < 0))
            && (reply == Denied(Unverified) ==> !c.issued)
            && (reply == Denied(ContactRefused) ==> !c.admitted)
            && (reply == Denied(Unbound) ==> !LaunchBinds(c) || !RequestBinds(c))
            && (reply == Denied(NotFresh) ==> c.commit.replayed || c.commit.eventHash == "" || c.launch.replayed || c.launch.eventHash == "")
            && reply.Denied? && reply.reason in {NotFresh, WrongTarget, Invalid, Unbound, Unverified, ContactRefused}
  {
    PrecheckMeans(setup, c);
    hide InOrder, RequestValid, LaunchBinds, RequestBinds;
  }
}
