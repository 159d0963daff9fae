/**
  The synthetic liability book of tools/aegis_delivery_control/capabilities.py: it keeps the
  worst case reserved until one final, known amount arrives, and can be rebuilt from its receipts.
 */
module LiabilityBook {
  import opened Options

  datatype Receipt = Receipt(receiptId: string, operationId: string, amount: Option<int>, final: bool)

  datatype State = State(
    operationId: string, cap: int, worstCase: int, receipts: seq<Receipt>, amount: Option<int>, closed: bool)
  {
    function Liability(): int {
      if amount == None then worstCase else amount.value
    }

    predicate SlotHeld() {
      !closed
    }
  }

  predicate ValidBounds(operationId: string, cap: int, worstCase: int) {
    operationId != "" && 0 <= worstCase <= cap
  }

  function Opened(operationId: string, cap: int, worstCase: int): State {
    State(operationId, cap, worstCase, [], None, false)
  }

  predicate ValidReceipt(b: State, r: Receipt) {
    && r.receiptId != "" && r.operationId == b.operationId
    && (r.amount.Some? ==> 0 <= r.amount.value <= b.cap)
  }

  /** A receipt that settles the bill. */
  predicate Resolves(r: Receipt) {
    r.final && r.amount.Some?
  }

  /** The stored receipt with this identity. */
  function Lookup(receipts: seq<Receipt>, id: string): Option<Receipt> {
    if receipts == [] then None
    else if receipts[0].receiptId == id then Some(receipts[0])
    else Lookup(receipts[1..], id)
  }

  /** One `intake`; `None` is a denial, which leaves the book as it was. */
  function IntakeStep(b: State, r: Receipt): Option<State> {
    if !ValidReceipt(b, r) then None
    else
      var prior := Lookup(b.receipts, r.receiptId);
      if prior.Some? then (if prior.value != r then None else Some(b))
      else if b.closed || (b.amount.Some? && r.amount != b.amount) then None
      else
        var kept := b.(receipts := b.receipts + [r]);
        Some(if Resolves(r) then kept.(amount := r.amount, closed := true) else kept)
  }

  /** Offer receipts one after the other, going on after a denial. */
  ghost function Offer(b: State, offered: seq<Receipt>): State {
    if offered == [] then b
    else
      var before := Offer(b, offered[..|offered| - 1]);
      var next := IntakeStep(before, offered[|offered| - 1]);
      if next.Some? then next.value else before
  }

  /** Replay receipts into a book; one denial fails the whole replay. */
  ghost function Replay(b: State, receipts: seq<Receipt>): Option<State> {
    if receipts == [] then Some(b)
    else
      var before := Replay(b, receipts[..|receipts| - 1]);
      if before.None? then None else IntakeStep(before.value, receipts[|receipts| - 1])
  }

  // ----- the object -----

  class Book {
    const operationId: string
    const cap: int
    const worstCase: int
    var receipts: seq<Receipt>
    var amount: Option<int>
    var closed: bool

    ghost function Value(): State
      reads this
    {
      State(operationId, cap, worstCase, receipts, amount, closed)
    }

    constructor (operationId: string, cap: int, worstCase: int)
      requires ValidBounds(operationId, cap, worstCase)
      ensures Value() == Opened(operationId, cap, worstCase)
    {
      this.operationId, this.cap, this.worstCase := operationId, cap, worstCase;
      receipts, amount, closed := [], None, false;
    }

    /** Opening a book; the source raises on bounds that are not valid. */
    static method Open(operationId: string, cap: int, worstCase: int) returns (book: Option<Book>)
      ensures book.Some? <==> ValidBounds(operationId, cap, worstCase)
      ensures book.Some? ==> fresh(book.value) && book.value.Value() == Opened(operationId, cap, worstCase)
    {
      if operationId == "" || !(0 <= worstCase <= cap) {
        return None;
      }
      var b := new Book(operationId, cap, worstCase);
      book := Some(b);
    }

    method Intake(r: Receipt) returns (accepted: bool)
      modifies this
      ensures accepted == IntakeStep(old(Value()), r).Some?
      ensures Value() == if accepted then IntakeStep(old(Value()), r).value else old(Value())
    {
      if r.receiptId == "" || r.operationId != operationId || (r.amount.Some? && !(0 <= r.amount.value <= cap)) {
        return false;
      }
      var prior := Lookup(receipts, r.receiptId);
      if prior.Some? {
        return prior.value == r;
      }
      if closed || (amount.Some? && r.amount != amount) {
        return false;
      }
      receipts := receipts + [r];
      if r.final && r.amount.Some? {
        amount := r.amount;
        closed := true;
      }
      accepted := true;
    }

    method Checkpoint() returns (saved: seq<Receipt>)
      ensures saved == Value().receipts
    {
      saved := receipts;
    }

    /** `recover`: a replay loop that the first denial ends. */
    static method Recover(operationId: string, cap: int, worstCase: int, saved: seq<Receipt>) returns (book: Option<Book>)
      ensures !ValidBounds(operationId, cap, worstCase) ==> book == None
      ensures ValidBounds(operationId, cap, worstCase) ==>
                var replayed := Replay(Opened(operationId, cap, worstCase), saved);
                book.Some? == replayed.Some? && (book.Some? ==> fresh(book.value) && book.value.Value() == replayed.value)
    {
      book := Open(operationId, cap, worstCase);
      if book == None {
        return;
      }
      var b := book.value;
      for i := 0 to |saved|
        invariant fresh(b)
        invariant Replay(Opened(operationId, cap, worstCase), saved[..i]) == Some(b.Value())
      {
        assert saved[..i + 1][..i] == saved[..i];
        var accepted := b.Intake(saved[i]);
        if !accepted {
          ReplayPrefixFails(Opened(operationId, cap, worstCase), saved, i + 1);
          return None;
        }
      }
      assert saved[..|saved|] == saved;
      book := Some(b);
    }
  }

  lemma {:induction false} ReplayPrefixFails(b: State, receipts: seq<Receipt>, n: nat)
    requires n <= |receipts| && Replay(b, receipts[..n]) == None
    ensures Replay(b, receipts) == None
    decreases |receipts|
  {
    if n == |receipts| {
      assert receipts[..n] == receipts;
    } else {
      var most := receipts[..|receipts| - 1];
      assert most[..n] == receipts[..n];
      ReplayPrefixFails(b, most, n);
    }
  }

  // ----- every reachable book -----

  /** The book agrees with its receipts: valid, distinct, and settled by the last one or not at all. */
  ghost predicate Consistent(b: State) {
    && ValidBounds(b.operationId, b.cap, b.worstCase)
    && (forall i :: 0 <= i < |b.receipts| ==> ValidReceipt(b, b.receipts[i]))
    && (forall i, j :: 0 <= i < j < |b.receipts| ==> b.receipts[i].receiptId != b.receipts[j].receiptId)
    && (forall i :: 0 <= i < |b.receipts| - 1 ==> !Resolves(b.receipts[i]))
    && b.closed == (b.receipts != [] && Resolves(b.receipts[|b.receipts| - 1]))
    && b.amount == (if b.closed then b.receipts[|b.receipts| - 1].amount else None)
  }

  lemma {:induction false} LookupFinds(receipts: seq<Receipt>, id: string)
    ensures Lookup(receipts, id) == None <==> forall i :: 0 <= i < |receipts| ==> receipts[i].receiptId != id
    ensures Lookup(receipts, id).Some? ==> Lookup(receipts, id).value in receipts && Lookup(receipts, id).value.receiptId == id
  {
    if receipts != [] {
      LookupFinds(receipts[1..], id);
      assert forall i :: 0 < i < |receipts| ==> receipts[i] == receipts[1..][i - 1];
    }
  }

  lemma IntakeKeepsConsistent(b: State, r: Receipt)
    requires Consistent(b) && IntakeStep(b, r).Some?
    ensures Consistent(IntakeStep(b, r).value)
    ensures IntakeStep(b, r).value == b || IntakeStep(b, r).value.receipts == b.receipts + [r]
  {
    LookupFinds(b.receipts, r.receiptId);
    var next := IntakeStep(b, r).value;
    assert forall i :: 0 <= i < |next.receipts| ==> ValidReceipt(next, next.receipts[i]) == ValidReceipt(b, next.receipts[i]);
  }

  lemma {:induction false} OfferKeepsConsistent(b: State, offered: seq<Receipt>)
    requires Consistent(b)
    ensures Consistent(Offer(b, offered))
    ensures Offer(b, offered).(receipts := [], amount := None, closed := false)
         == b.(receipts := [], amount := None, closed := false)
  {
    if offered != [] {
      OfferKeepsConsistent(b, offered[..|offered| - 1]);
      var before := Offer(b, offered[..|offered| - 1]);
      if IntakeStep(before, offered[|offered| - 1]).Some? {
        IntakeKeepsConsistent(before, offered[|offered| - 1]);
      }
    }
  }

  /** The book before its last receipt. */
  ghost function WithoutLast(b: State): State
    requires b.receipts != []
  {
    b.(receipts := b.receipts[..|b.receipts| - 1], amount := None, closed := false)
  }

  lemma WithoutLastConsistent(b: State)
    requires Consistent(b) && b.receipts != []
    ensures Consistent(WithoutLast(b))
  {
    hide Resolves;
    var n := |b.receipts| - 1;
    assert forall i :: 0 <= i < n ==> ValidReceipt(WithoutLast(b), b.receipts[i]) == ValidReceipt(b, b.receipts[i]);
    assert n > 0 ==> !Resolves(b.receipts[n - 1]);
  }

  /** Taking the last receipt in again rebuilds the book. */
  lemma LastIntake(b: State)
    requires Consistent(b) && b.receipts != []
    ensures IntakeStep(WithoutLast(b), b.receipts[|b.receipts| - 1]) == Some(b)
  {
    var n := |b.receipts| - 1;
    var before, last := WithoutLast(b), b.receipts[n];
    LookupFinds(before.receipts, last.receiptId);
    assert ValidReceipt(before, last) == ValidReceipt(b, last);
    assert before.receipts + [last] == b.receipts;
  }

  /** Replaying the receipts of a consistent book into an empty one rebuilds exactly that book. */
  lemma {:induction false} ReplayRebuilds(b: State)
    requires Consistent(b)
    ensures Replay(Opened(b.operationId, b.cap, b.worstCase), b.receipts) == Some(b)
    decreases |b.receipts|
  {
    if b.receipts != [] {
      WithoutLastConsistent(b);
      LastIntake(b);
      hide Consistent, IntakeStep;
      ReplayRebuilds(WithoutLast(b));
    }
  }

  /**
    Whatever was offered to a book, accepted or denied, recovering its checkpoint succeeds and
    gives the same receipts, liability and slot, and the same answer to every later receipt.
   */
  lemma RecoverCheckpoint(operationId: string, cap: int, worstCase: int, offered: seq<Receipt>, later: seq<Receipt>, r: Receipt)
    requires ValidBounds(operationId, cap, worstCase)
    ensures var b := Offer(Opened(operationId, cap, worstCase), offered);
            var recovered := Replay(Opened(operationId, cap, worstCase), b.receipts);
            && recovered.Some?
            && recovered.value.receipts == b.receipts
            && recovered.value.Liability() == b.Liability() && recovered.value.SlotHeld() == b.SlotHeld()
            && Offer(recovered.value, later) == Offer(b, later)
            && IntakeStep(Offer(recovered.value, later), r) == IntakeStep(Offer(b, later), r)
  {
    OfferKeepsConsistent(Opened(operationId, cap, worstCase), offered);
    ReplayRebuilds(Offer(Opened(operationId, cap, worstCase), offered));
  }

  /**
    The liability of a reachable book lies in `0..cap`. It is the worst case, with the slot held,
    exactly as long as no stored receipt settles the bill, and then it is that receipt's amount.
   */
  lemma LiabilityMeaning(operationId: string, cap: int, worstCase: int, offered: seq<Receipt>)
    requires ValidBounds(operationId, cap, worstCase)
    ensures var b := Offer(Opened(operationId, cap, worstCase), offered);
            && 0 <= b.Liability() <= cap
            && (b.SlotHeld() <==> forall r :: r in b.receipts ==> !Resolves(r))
            && (b.SlotHeld() ==> b.Liability() == worstCase)
            && (forall r :: r in b.receipts && Resolves(r) ==> r.amount == Some(b.Liability()))
  {
    OfferKeepsConsistent(Opened(operationId, cap, worstCase), offered);
    var b := Offer(Opened(operationId, cap, worstCase), offered);
    if b.closed {
      assert b.receipts[|b.receipts| - 1] in b.receipts;
    }
  }

  /** A settled book never changes again, whatever is offered. */
  lemma {:induction false} SettledForever(b: State, later: seq<Receipt>)
    requires b.closed
    ensures Offer(b, later) == b
  {
    if later != [] {
      SettledForever(b, later[..|later| - 1]);
    }
  }

  /**
    A receipt may follow a history: it repeats an earlier one exactly, or its identity is new
    and nothing earlier settled the bill.
   */
  ghost predicate MayFollow(b: State, history: seq<Receipt>, r: Receipt) {
    && ValidReceipt(b, r)
    && (r in history || forall h :: h in history ==> h.receiptId != r.receiptId && !Resolves(h))
  }

  /** Each receipt may follow those before it. */
  ghost predicate Acceptable(b: State, saved: seq<Receipt>) {
    forall j :: 0 <= j < |saved| ==> MayFollow(b, saved[..j], saved[j])
  }

  lemma AcceptableSplit(b: State, saved: seq<Receipt>)
    requires saved != []
    ensures var n := |saved| - 1;
            Acceptable(b, saved) <==> Acceptable(b, saved[..n]) && MayFollow(b, saved[..n], saved[n])
  {
    hide MayFollow;
    var n := |saved| - 1;
    assert forall j :: 0 <= j < n ==> saved[..n][..j] == saved[..j] && saved[..n][j] == saved[j];
  }

  /** Exactly which tuples `recover` accepts, and that the rebuilt book holds exactly their receipts. */
  lemma {:induction false} RecoverAccepts(b: State, saved: seq<Receipt>)
    requires b.receipts == [] && Consistent(b)
    ensures Replay(b, saved).Some? <==> Acceptable(b, saved)
    ensures Replay(b, saved).Some? ==> Rebuilt(b, saved, Replay(b, saved).value)
  {
    hide MayFollow, Consistent, IntakeStep;
    if saved != [] {
      var n := |saved| - 1;
      RecoverAccepts(b, saved[..n]);
      AcceptableSplit(b, saved);
      if Replay(b, saved[..n]).Some? {
        IntakeFollows(b, Replay(b, saved[..n]).value, saved[..n], saved[n]);
        assert saved == saved[..n] + [saved[n]];
      }
    }
  }

  /** `built` is a consistent book with the bounds of `b` and exactly the receipts of `history`. */
  ghost predicate Rebuilt(b: State, history: seq<Receipt>, built: State) {
    && Consistent(built) && (forall r :: r in built.receipts <==> r in history)
    && built.operationId == b.operationId && built.cap == b.cap && built.worstCase == b.worstCase
  }

  lemma IntakeFollows(b: State, built: State, history: seq<Receipt>, r: Receipt)
    requires Rebuilt(b, history, built)
    ensures IntakeStep(built, r).Some? <==> MayFollow(b, history, r)
    ensures IntakeStep(built, r).Some? ==> Rebuilt(b, history + [r], IntakeStep(built, r).value)
  {
    LookupFinds(built.receipts, r.receiptId);
    assert ValidReceipt(built, r) == ValidReceipt(b, r);
    if built.closed {
      assert built.receipts[|built.receipts| - 1] in history;
    }
    if r in history {
      var i :| 0 <= i < |built.receipts| && built.receipts[i] == r;
      var prior := Lookup(built.receipts, r.receiptId).value;
      var j :| 0 <= j < |built.receipts| && built.receipts[j] == prior;
      assert i == j;
    }
    if IntakeStep(built, r).Some? {
      IntakeKeepsConsistent(built, r);
    }
  }

  // ----- which receipts are taken -----

  /** The receipts of a reachable book: named, of this operation, within the cap, and each identity once. */
  lemma StoredReceiptsAreValid(operationId: string, cap: int, worstCase: int, offered: seq<Receipt>)
    requires operationId != "" && 0 <= worstCase <= cap
    ensures var b := Offer(Opened(operationId, cap, worstCase), offered);
            && (forall r :: r in b.receipts ==>
                  r.receiptId != "" && r.operationId == operationId && (r.amount.Some? ==> 0 <= r.amount.value <= cap))
            && forall i, j :: 0 <= i < j < |b.receipts| ==> b.receipts[i].receiptId != b.receipts[j].receiptId
  {
    OfferKeepsConsistent(Opened(operationId, cap, worstCase), offered);
  }

  /**
    Exactly which receipts a reachable book accepts: one it has already, which changes nothing, or
    a valid one with a new identity while the bill is open, which is stored and, if final with an
    amount, settles the bill.
   */
  lemma IntakeIff(b: State, r: Receipt)
    requires Consistent(b)
    ensures IntakeStep(b, r).Some? <==>
              || r in b.receipts
              || (r.receiptId != "" && r.operationId == b.operationId && (r.amount.Some? ==> 0 <= r.amount.value <= b.cap)
                  && !b.closed && forall i :: 0 <= i < |b.receipts| ==> b.receipts[i].receiptId != r.receiptId)
    ensures r in b.receipts ==> IntakeStep(b, r) == Some(b)
    ensures IntakeStep(b, r).Some? && r !in b.receipts ==>
              IntakeStep(b, r).value == State(b.operationId, b.cap, b.worstCase, b.receipts + [r],
                                              if r.final then r.amount else None, r.final && r.amount.Some?)
  {
    LookupFinds(b.receipts, r.receiptId);
    if r in b.receipts {
      var i :| 0 <= i < |b.receipts| && b.receipts[i] == r;
      var prior := Lookup(b.receipts, r.receiptId).value;
      var j :| 0 <= j < |b.receipts| && b.receipts[j] == prior;
      assert i == j;
    }
  }
}
