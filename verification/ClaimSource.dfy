/**
  The one-use claim source of tools/aegis_delivery_control/capabilities.py. Every operation
  takes the source's lock for its whole effect, so a run is a sequence of atomic steps.
 */
module ClaimSource {
  import opened Options

  datatype State = State(
    token: string, expiresAt: int, claimedBy: Option<string>, revoked: bool, superseded: bool, available: bool)

  function Issued(token: string, expiresAt: int): State {
    State(token, expiresAt, None, false, false, true)
  }

  datatype ClaimReply = Won | Lost | Invalid

  function Claim(s: State, token: string, consumer: string, now: int): (State, ClaimReply) {
    if token == "" || consumer == "" then (s, Invalid)
    else if !s.available || token != s.token || s.revoked || s.superseded || now >= s.expiresAt || s.claimedBy != None then
      (s, Lost)
    else (s.(claimedBy := Some(consumer)), Won)
  }

  predicate RecoversAcknowledgement(s: State, token: string, consumer: string) {
    s.available && token == s.token && s.claimedBy == Some(consumer)
  }

  predicate AuthorizesContact(s: State, token: string, consumer: string, now: int) {
    RecoversAcknowledgement(s, token, consumer) && !s.revoked && !s.superseded && now < s.expiresAt
  }

  /** The clock is an argument of each step, so a run may use it in any order. */
  datatype Event =
    | ClaimBy(token: string, consumer: string, now: int)
    | Revoke
    | Supersede
    | SetAvailable(value: bool)

  function Step(s: State, e: Event): State {
    match e
    case ClaimBy(token, consumer, now) => Claim(s, token, consumer, now).0
    case Revoke => s.(revoked := true)
    case Supersede => s.(superseded := true)
    case SetAvailable(value) => s.(available := value)
  }

  ghost function Run(s: State, events: seq<Event>): State {
    if events == [] then s else Step(Run(s, events[..|events| - 1]), events[|events| - 1])
  }

  // ----- the object -----

  class Source {
    const token: string
    const expiresAt: int
    var claimedBy: Option<string>
    var revoked: bool
    var superseded: bool
    var available: bool

    ghost function Value(): State
      reads this
    {
      State(token, expiresAt, claimedBy, revoked, superseded, available)
    }

    constructor (token: string, expiresAt: int)
      ensures Value() == Issued(token, expiresAt)
    {
      this.token, this.expiresAt := token, expiresAt;
      claimedBy, revoked, superseded, available := None, false, false, true;
    }

    method RevokeIt()
      modifies this`revoked
      ensures Value() == Step(old(Value()), Revoke)
    {
      revoked := true;
    }

    method SupersedeIt()
      modifies this`superseded
      ensures Value() == Step(old(Value()), Supersede)
    {
      superseded := true;
    }

    method ClaimIt(token: string, consumer: string, now: int) returns (reply: ClaimReply)
      modifies this`claimedBy
      ensures (Value(), reply) == Claim(old(Value()), token, consumer, now)
    {
      if token == "" || consumer == "" {
        return Invalid;
      }
      if !available || token != this.token || revoked || superseded || now >= expiresAt || claimedBy != None {
        return Lost;
      }
      claimedBy := Some(consumer);
      reply := Won;
    }

    method RecoverAcknowledgement(token: string, consumer: string) returns (ok: bool)
      ensures ok == RecoversAcknowledgement(Value(), token, consumer)
    {
      ok := available && token == this.token && claimedBy == Some(consumer);
    }

    method AuthorizeContact(token: string, consumer: string, now: int) returns (ok: bool)
      ensures ok == AuthorizesContact(Value(), token, consumer, now)
    {
      ok := available && token == this.token && claimedBy == Some(consumer) && !revoked && !superseded && now < expiresAt;
    }
  }

  // ----- every run -----

  /** Step `i` of the run is a claim that wins. */
  ghost predicate Wins(s: State, events: seq<Event>, i: nat) {
    i < |events| && events[i].ClaimBy? &&
    Claim(Run(s, events[..i]), events[i].token, events[i].consumer, events[i].now).1 == Won
  }

  lemma {:induction false} Monotone(s: State, events: seq<Event>, n: nat)
    requires n <= |events|
    ensures var before, after := Run(s, events[..n]), Run(s, events);
            && after.token == before.token && after.expiresAt == before.expiresAt
            && (before.claimedBy.Some? ==> after.claimedBy == before.claimedBy)
            && (before.revoked ==> after.revoked) && (before.superseded ==> after.superseded)
    decreases |events|
  {
    if n == |events| {
      assert events[..n] == events;
    } else {
      var most := events[..|events| - 1];
      assert most[..n] == events[..n];
      Monotone(s, most, n);
    }
  }

  /** What a winning step leaves behind for the rest of the run. */
  lemma WinnerStays(s: State, events: seq<Event>, i: nat)
    requires Wins(s, events, i)
    ensures Run(s, events).claimedBy == Some(events[i].consumer)
  {
    assert events[..i + 1][..i] == events[..i];
    Monotone(s, events, i + 1);
  }

  /** Of all the claims in a run at most one wins. */
  lemma OneWinner(s: State, events: seq<Event>, i: nat, j: nat)
    requires Wins(s, events, i) && Wins(s, events, j)
    ensures i == j
  {
    if i < j {
      assert events[..j][..i] == events[..i];
      WinnerStays(s, events[..j], i);
    } else if j < i {
      assert events[..i][..j] == events[..j];
      WinnerStays(s, events[..i], j);
    }
  }

  /** Whoever holds the source won it by a step of the run, with the right token and in time. */
  lemma {:induction false} HolderWon(token: string, expiresAt: int, events: seq<Event>)
    requires Run(Issued(token, expiresAt), events).claimedBy.Some?
    ensures exists i: nat :: Wins(Issued(token, expiresAt), events, i)
                             && Run(Issued(token, expiresAt), events).claimedBy == Some(events[i].consumer)
                             && events[i].token == token && events[i].now < expiresAt
  {
    var s := Issued(token, expiresAt);
    var n := |events| - 1;
    assert events != [];
    var most := events[..n];
    if Run(s, most).claimedBy.Some? {
      HolderWon(token, expiresAt, most);
      var i: nat :| Wins(s, most, i) && Run(s, most).claimedBy == Some(most[i].consumer)
                    && most[i].token == token && most[i].now < expiresAt;
      assert most[..i] == events[..i];
      assert Wins(s, events, i);
    } else {
      Monotone(s, events[..n], 0);
      assert events[..n][..0] == [];
      assert Wins(s, events, n);
    }
  }

  /** Acknowledgement recovery and contact are granted only to the consumer of the one winning claim. */
  lemma OnlyTheWinner(token: string, expiresAt: int, events: seq<Event>, t: string, consumer: string, now: int)
    requires RecoversAcknowledgement(Run(Issued(token, expiresAt), events), t, consumer)
             || AuthorizesContact(Run(Issued(token, expiresAt), events), t, consumer, now)
    ensures t == token
    ensures exists i: nat :: Wins(Issued(token, expiresAt), events, i) && events[i].consumer == consumer
  {
    HolderWon(token, expiresAt, events);
    Monotone(Issued(token, expiresAt), events, 0);
    assert events[..0] == [];
  }

  /** After a revocation or a supersession no later claim wins and no later contact is authorized, at any time. */
  lemma ClosedForever(s: State, events: seq<Event>, n: nat, t: string, consumer: string, now: int)
    requires n < |events| && (events[n].Revoke? || events[n].Supersede?)
    ensures Claim(Run(s, events), t, consumer, now).1 != Won
    ensures !AuthorizesContact(Run(s, events), t, consumer, now)
  {
    assert events[..n + 1][..n] == events[..n];
    Monotone(s, events, n + 1);
  }

  /** The first claim on an issued source with the right token, in time and while it is available, wins. */
  lemma FirstClaimWins(token: string, expiresAt: int, consumer: string, now: int)
    requires token != "" && consumer != "" && now < expiresAt
    ensures Claim(Issued(token, expiresAt), token, consumer, now)
         == (State(token, expiresAt, Some(consumer), false, false, true), Won)
  {
  }

  /** A winner keeps both grants for as long as nothing closes the source, and contact until the source expires. */
  lemma WinnerIsServed(s: State, events: seq<Event>, i: nat, now: int)
    requires Wins(s, events, i) && Run(s, events).available
    ensures RecoversAcknowledgement(Run(s, events), events[i].token, events[i].consumer)
    ensures !Run(s, events).revoked && !Run(s, events).superseded && now < Run(s, events).expiresAt ==>
              AuthorizesContact(Run(s, events), events[i].token, events[i].consumer, now)
  {
    WinnerStays(s, events, i);
    Monotone(s, events, i);
  }
}
