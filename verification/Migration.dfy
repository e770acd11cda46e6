/** `rebind`: moving a live connection to a new socket, and the verdict that says whether the peer
    was heard from there. What happens around the call is a timeline of events; the call reads its
    three sources of truth at positions of that timeline, in program order. */
module Migration {
  import opened Sequences
  import opened Sockets
  import D = Dial
  import S = Salamander

  /** Which socket a datagram came in on: the previous one is still drained after the swap. */
  datatype Via = OldSocket | NewSocket

  /** `ArrivesOnNew` raises the new socket's own counter, before anyone looks at the datagram;
      `Accepted` raises the connection's counter; `Closes` sets the close reason. */
  datatype Event = ArrivesOnNew | Accepted(via: Via) | Closes

  type Timeline = seq<Event>

  function Arrivals(t: Timeline): nat
  {
    if t == [] then 0 else Arrivals(t[..|t| - 1]) + if t[|t| - 1].ArrivesOnNew? then 1 else 0
  }

  function AcceptedCount(t: Timeline): nat
  {
    if t == [] then 0 else AcceptedCount(t[..|t| - 1]) + if t[|t| - 1].Accepted? then 1 else 0
  }

  /** How long the peer has to answer on the new socket, and the pause between two looks. */
  const MIGRATION_PROOF_BUDGET: D.Duration := D.CONNECT_BUDGET
  const MIGRATION_POLL_INTERVAL: D.Duration := 10 * D.MILLISECOND

  /** One turn of the polling loop: where in the timeline it reads the close reason, the new socket's
      counter and the connection's counter, and what time it reads after that, counted from the
      moment the deadline was set. */
  datatype Poll = Poll(closeAt: nat, arriveAt: nat, acceptAt: nat, now: D.Duration)

  predicate Late(p: Poll)
  {
    p.now >= MIGRATION_PROOF_BUDGET
  }

  /** Between two turns the loop sleeps for at least the poll interval. */
  ghost predicate Sleeps(polls: seq<Poll>)
  {
    forall i :: 0 < i < |polls| ==> polls[i].now >= polls[i - 1].now + MIGRATION_POLL_INTERVAL
  }

  lemma SleepsTenMillis(p: Poll, q: Poll)
    ensures Sleeps([p, q]) <==> q.now >= p.now + 10 * D.MILLISECOND
  {
    var polls := [p, q];
    assert polls[1] == q && polls[0] == p;
  }

  /** The reads of a call happen in program order. */
  ghost predicate InOrder(t: Timeline, sampleAt: nat, swapAt: nat, polls: seq<Poll>)
  {
    && sampleAt <= swapAt <= |t|
    && (forall i :: 0 <= i < |polls| ==>
          swapAt <= polls[i].closeAt <= polls[i].arriveAt <= polls[i].acceptAt <= |t|)
    && (forall i, j :: 0 <= i < j < |polls| ==> polls[i].acceptAt <= polls[j].closeAt)
  }

  /** Only the endpoint's current socket counts arrivals, so the new one does not before the swap. */
  ghost predicate NothingBeforeSwap(t: Timeline, swapAt: nat)
  {
    forall k :: 0 <= k < swapAt && k < |t| ==> !t[k].ArrivesOnNew? && t[k] != Accepted(NewSocket)
  }

  predicate Died(t: Timeline, p: Poll)
    requires p.closeAt <= |t|
  {
    Closes in t[..p.closeAt]
  }

  /** Both counters have moved as far as this turn can see. */
  predicate Confirms(t: Timeline, before: nat, p: Poll)
    requires p.arriveAt <= |t| && p.acceptAt <= |t|
  {
    Arrivals(t[..p.arriveAt]) > 0 && AcceptedCount(t[..p.acceptAt]) > before
  }

  predicate Decides(t: Timeline, before: nat, p: Poll)
    requires p.closeAt <= |t| && p.arriveAt <= |t| && p.acceptAt <= |t|
  {
    Died(t, p) || Confirms(t, before, p) || Late(p)
  }

  /** `StillPolling` is a call cut off before its deadline. */
  datatype Verdict = BindFailed | SwapFailed | NoLocalAddr | Migrated | ConnectionDied | Unconfirmed | StillPolling

  ghost predicate Readable(t: Timeline, polls: seq<Poll>)
  {
    forall i :: 0 <= i < |polls| ==> polls[i].closeAt <= |t| && polls[i].arriveAt <= |t| && polls[i].acceptAt <= |t|
  }

  /** `v` is the verdict of the first turn that decides, and `turn` is that turn. */
  ghost predicate FirstDecision(t: Timeline, before: nat, polls: seq<Poll>, turn: nat, v: Verdict)
    requires Readable(t, polls)
  {
    && turn <= |polls|
    && (forall i :: 0 <= i < turn ==> !Decides(t, before, polls[i]))
    && (turn == |polls| ==> v == StillPolling)
    && (turn < |polls| ==>
          && Decides(t, before, polls[turn])
          && v == if Died(t, polls[turn]) then ConnectionDied
                  else if Confirms(t, before, polls[turn]) then Migrated else Unconfirmed)
  }

  /** The polling loop. */
  method AwaitProof(t: Timeline, acceptedBefore: nat, polls: seq<Poll>) returns (v: Verdict, turn: nat)
    requires Readable(t, polls) && Sleeps(polls)
    ensures FirstDecision(t, acceptedBefore, polls, turn, v)
    ensures turn * MIGRATION_POLL_INTERVAL <= MIGRATION_PROOF_BUDGET
  {
    turn := 0;
    while turn < |polls|
      invariant turn <= |polls|
      invariant forall i :: 0 <= i < turn ==> !Decides(t, acceptedBefore, polls[i])
      invariant turn > 0 ==> (turn - 1) * MIGRATION_POLL_INTERVAL <= polls[turn - 1].now < MIGRATION_PROOF_BUDGET
    {
      var p := polls[turn];
      if Closes in t[..p.closeAt] {
        return ConnectionDied, turn;
      }
      if Arrivals(t[..p.arriveAt]) > 0 && AcceptedCount(t[..p.acceptAt]) > acceptedBefore {
        return Migrated, turn;
      }
      if Late(p) {
        return Unconfirmed, turn;
      }
      turn := turn + 1;
    }
    v := StillPolling;
  }

  /** A bound socket, known by its identity; what the peer meets is its kind. */
  class BoundSocket {
    const kind: Socket

    constructor (kind: Socket)
      ensures this.kind == kind
    {
      this.kind := kind;
    }
  }

  /** One open connection and the socket its endpoint is on. */
  class QuicClient {
    const peer: Address
    const recipe: SocketRecipe
    var socket: BoundSocket

    /** The socket is of the peer's family and obfuscates as the first one did. */
    ghost predicate Valid()
      reads this
    {
      socket.kind == ClientSocket(recipe.bind, recipe.obf) && socket.kind.family == peer.family
    }

    constructor (c: D.Connection)
      requires c.recipe.bind == BindAddrFor(c.peer)
      ensures Valid() && peer == c.peer && recipe == c.recipe && fresh(socket)
    {
      peer, recipe := c.peer, c.recipe;
      socket := new BoundSocket(ClientSocket(c.recipe.bind, c.recipe.obf));
    }

    /** Sends one packet; any peer socket with this connection's obfuscation gets it back. */
    method Send(packet: S.Bytes, salt: S.Bytes) returns (datagram: S.Bytes)
      requires Valid() && |salt| == S.SALT_LEN
      ensures forall p: Socket :: p.obf == recipe.obf ==> HandedUp(p, datagram) == Some(packet)
    {
      datagram := OnTheWire(socket.kind, packet, salt);
      forall p: Socket | p.obf == recipe.obf
        ensures HandedUp(p, datagram) == Some(packet)
      {
        SameObfuscationDecodes(socket.kind, p, packet, salt);
      }
    }

    /** The verdict is that of the first turn that decides: a close reason outweighs an answer, an
        answer outweighs the deadline, which has then passed, and the budget bounds the turns.
        Whatever it is, the endpoint is on its old socket or on a new one like it. */
    method Rebind(t: Timeline, sampleAt: nat, swapAt: nat, polls: seq<Poll>, binds: bool, swaps: bool, hasAddr: bool)
      returns (v: Verdict, turn: nat)
      requires Valid() && InOrder(t, sampleAt, swapAt, polls) && Sleeps(polls)
      modifies this`socket
      ensures Valid()
      ensures if v.BindFailed? || v.SwapFailed? then socket == old(socket) else fresh(socket)
      ensures v.BindFailed? <==> !binds
      ensures v.SwapFailed? <==> binds && !swaps
      ensures v.NoLocalAddr? <==> binds && swaps && !hasAddr
      ensures turn <= |polls| && turn * MIGRATION_POLL_INTERVAL <= MIGRATION_PROOF_BUDGET
      ensures |polls| * MIGRATION_POLL_INTERVAL > MIGRATION_PROOF_BUDGET ==> !v.StillPolling?
      ensures binds && swaps && hasAddr ==> FirstDecision(t, AcceptedCount(t[..sampleAt]), polls, turn, v)
      ensures binds && swaps && hasAddr && turn < |polls| && NothingBeforeSwap(t, swapAt)
              ==> && (v.Migrated? <==> Closes !in t[..polls[turn].closeAt] && BothWitnesses(t, sampleAt, swapAt, polls[turn]))
                  && (v.ConnectionDied? <==> Closes in t[..polls[turn].closeAt])
                  && (v.Unconfirmed? ==> polls[turn].now >= 1500 * D.MILLISECOND)
      ensures binds && swaps && hasAddr && NothingBeforeSwap(t, swapAt)
              ==> forall i :: 0 <= i < turn ==>
                    && Closes !in t[..polls[i].closeAt] && !BothWitnesses(t, sampleAt, swapAt, polls[i])
                    && polls[i].now < 1500 * D.MILLISECOND
    {
      turn := 0;
      var acceptedBefore := AcceptedCount(t[..sampleAt]);
      if !binds {
        return BindFailed, 0;
      }
      var replacement := new BoundSocket(ClientSocket(recipe.bind, recipe.obf));
      if !swaps {
        return SwapFailed, 0;
      }
      socket := replacement;
      if !hasAddr {
        return NoLocalAddr, 0;
      }
      v, turn := AwaitProof(t, acceptedBefore, polls);
      if NothingBeforeSwap(t, swapAt) {
        forall i | 0 <= i < |polls|
          ensures Confirms(t, AcceptedCount(t[..sampleAt]), polls[i]) <==> BothWitnesses(t, sampleAt, swapAt, polls[i])
        {
          ConfirmedIffBothWitnesses(t, sampleAt, swapAt, polls, i);
        }
      }
    }
  }

  // ---- What the verdict proves ------------------------------------------------------------

  lemma {:induction false} CountMeansEvent(t: Timeline, lo: nat, hi: nat)
    requires lo <= hi <= |t|
    ensures Arrivals(t[..lo]) <= Arrivals(t[..hi]) && AcceptedCount(t[..lo]) <= AcceptedCount(t[..hi])
    ensures Arrivals(t[..hi]) > Arrivals(t[..lo]) <==> exists k :: lo <= k < hi && t[k].ArrivesOnNew?
    ensures AcceptedCount(t[..hi]) > AcceptedCount(t[..lo]) <==> exists k :: lo <= k < hi && t[k].Accepted?
    decreases hi
  {
    if lo < hi {
      CountMeansEvent(t, lo, hi - 1);
      assert t[..hi][..hi - 1] == t[..hi - 1];
    }
  }

  /** The new socket itself got a datagram after the swap, and the connection accepted one after the
      sample, both early enough for this turn to see. */
  ghost predicate BothWitnesses(t: Timeline, sampleAt: nat, swapAt: nat, p: Poll)
    requires p.arriveAt <= |t| && p.acceptAt <= |t|
  {
    && (exists a :: swapAt <= a < p.arriveAt && t[a].ArrivesOnNew?)
    && (exists b :: sampleAt <= b < p.acceptAt && t[b].Accepted?)
  }

  /** Soundness. In every environment - the old socket still delivering, the new one receiving
      garbage - a turn confirms exactly when it has both witnesses. */
  lemma ConfirmedIffBothWitnesses(t: Timeline, sampleAt: nat, swapAt: nat, polls: seq<Poll>, i: nat)
    requires InOrder(t, sampleAt, swapAt, polls) && NothingBeforeSwap(t, swapAt) && i < |polls|
    ensures Confirms(t, AcceptedCount(t[..sampleAt]), polls[i]) <==> BothWitnesses(t, sampleAt, swapAt, polls[i])
  {
    var p := polls[i];
    CountMeansEvent(t, 0, swapAt);
    CountMeansEvent(t, swapAt, p.arriveAt);
    CountMeansEvent(t, sampleAt, p.acceptAt);
    assert Arrivals(t[..0]) == 0;
  }

  // ---- What it proves about the time after the swap ---------------------------------------

  /** What can follow a swap: without `drains`, the old socket delivers nothing more that counts. */
  ghost predicate MayFollow(more: Timeline, drains: bool)
  {
    drains || Accepted(OldSocket) !in more
  }

  /** After the events `t0` up to the swap, `more` follows and the call succeeds at `turn`. */
  ghost predicate Succeeds(t0: Timeline, sampleAt: nat, more: Timeline, polls: seq<Poll>, turn: nat)
    requires sampleAt <= |t0|
  {
    && InOrder(t0 + more, sampleAt, |t0|, polls) && Sleeps(polls) && turn < |polls|
    && FirstDecision(t0 + more, AcceptedCount(t0[..sampleAt]), polls, turn, Migrated)
  }

  /** An acceptance after the swap that the deciding turn saw. */
  ghost predicate AcceptedSince(t0: Timeline, more: Timeline, p: Poll)
  {
    exists b :: |t0| <= b < p.acceptAt && b < |t0 + more| && (t0 + more)[b].Accepted?
  }

  ghost predicate AcceptedOnNew(t0: Timeline, more: Timeline, p: Poll)
  {
    exists b :: |t0| <= b < p.acceptAt && b < |t0 + more| && (t0 + more)[b] == Accepted(NewSocket)
  }

  /** The counter at the swap is what it was at the sample. */
  predicate SampleStillHolds(t0: Timeline, sampleAt: nat)
    requires sampleAt <= |t0|
  {
    AcceptedCount(t0) == AcceptedCount(t0[..sampleAt])
  }

  lemma SuccessHasBoth(t0: Timeline, sampleAt: nat, more: Timeline, polls: seq<Poll>, turn: nat)
    requires sampleAt <= |t0| && NothingBeforeSwap(t0, |t0|) && Succeeds(t0, sampleAt, more, polls, turn)
    ensures BothWitnesses(t0 + more, sampleAt, |t0|, polls[turn])
  {
    var t := t0 + more;
    assert t[..sampleAt] == t0[..sampleAt];
    assert NothingBeforeSwap(t, |t0|);
    ConfirmedIffBothWitnesses(t, sampleAt, |t0|, polls, turn);
  }

  lemma HeldMeansAcceptedSince(t0: Timeline, sampleAt: nat, more: Timeline, polls: seq<Poll>, turn: nat)
    requires sampleAt <= |t0| && NothingBeforeSwap(t0, |t0|) && SampleStillHolds(t0, sampleAt)
    requires Succeeds(t0, sampleAt, more, polls, turn)
    ensures AcceptedSince(t0, more, polls[turn])
  {
    SuccessHasBoth(t0, sampleAt, more, polls, turn);
    var t, p := t0 + more, polls[turn];
    var b :| sampleAt <= b < p.acceptAt && t[b].Accepted?;
    assert t0[..|t0|] == t0;
    CountMeansEvent(t0, sampleAt, |t0|);
    assert forall k :: sampleAt <= k < |t0| ==> !t0[k].Accepted? && t[k] == t0[k];
  }

  /** A success that only `more` decides: the environment adds `more`, and one turn looks at it. */
  lemma OneTurnSuccess(t0: Timeline, sampleAt: nat, more: Timeline)
    requires sampleAt <= |t0| && NothingBeforeSwap(t0, |t0|) && Closes !in t0 + more
    requires ArrivesOnNew in more && AcceptedCount(t0 + more) > AcceptedCount(t0[..sampleAt])
    ensures Succeeds(t0, sampleAt, more, [Poll(|t0 + more|, |t0 + more|, |t0 + more|, 0)], 0)
  {
    var t := t0 + more;
    var p := Poll(|t|, |t|, |t|, 0);
    assert t[..|t|] == t && t[..sampleAt] == t0[..sampleAt];
    var k :| 0 <= k < |more| && more[k].ArrivesOnNew?;
    assert t[|t0| + k].ArrivesOnNew?;
    CountMeansEvent(t, 0, |t|);
    assert Confirms(t, AcceptedCount(t0[..sampleAt]), p);
  }

  lemma ClosedNeverSucceeds(t0: Timeline, sampleAt: nat, more: Timeline, polls: seq<Poll>, turn: nat)
    requires sampleAt <= |t0| && Closes in t0
    ensures !Succeeds(t0, sampleAt, more, polls, turn)
  {
    if InOrder(t0 + more, sampleAt, |t0|, polls) && turn < |polls| {
      var k :| 0 <= k < |t0| && t0[k] == Closes;
      assert (t0 + more)[..polls[turn].closeAt][k] == Closes;
    }
  }

  /** The code samples before it swaps, so a success does not always mean an acceptance since the
      swap. On a connection not closed before, it does, whatever follows, exactly when the counter
      did not move between the two. */
  lemma AcceptedSinceSwapIff(t0: Timeline, sampleAt: nat)
    requires sampleAt <= |t0| && NothingBeforeSwap(t0, |t0|)
    ensures Closes in t0 || SampleStillHolds(t0, sampleAt) <==>
            forall more: Timeline, polls: seq<Poll>, turn: nat ::
              Succeeds(t0, sampleAt, more, polls, turn) ==> AcceptedSince(t0, more, polls[turn])
  {
    if Closes in t0 || SampleStillHolds(t0, sampleAt) {
      forall more: Timeline, polls: seq<Poll>, turn: nat | Succeeds(t0, sampleAt, more, polls, turn)
        ensures AcceptedSince(t0, more, polls[turn])
      {
        if Closes in t0 {
          ClosedNeverSucceeds(t0, sampleAt, more, polls, turn);
        } else {
          HeldMeansAcceptedSince(t0, sampleAt, more, polls, turn);
        }
      }
    } else {
      var polls := GarbageSuffices(t0, sampleAt);
      assert Succeeds(t0, sampleAt, [ArrivesOnNew], polls, 0);
      assert !AcceptedSince(t0, [ArrivesOnNew], polls[0]);
    }
  }

  /** With the counter moved before the swap, garbage on the new socket is enough. */
  lemma GarbageSuffices(t0: Timeline, sampleAt: nat) returns (polls: seq<Poll>)
    requires sampleAt <= |t0| && NothingBeforeSwap(t0, |t0|) && Closes !in t0 && !SampleStillHolds(t0, sampleAt)
    ensures |polls| == 1 && Succeeds(t0, sampleAt, [ArrivesOnNew], polls, 0)
    ensures !AcceptedSince(t0, [ArrivesOnNew], polls[0]) && !AcceptedOnNew(t0, [ArrivesOnNew], polls[0])
  {
    var t := t0 + [ArrivesOnNew];
    assert t[..|t0|] == t0 == t0[..|t0|] && t[..|t|] == t;
    CountMeansEvent(t0, sampleAt, |t0|);
    CountMeansEvent(t, |t0|, |t|);
    OneTurnSuccess(t0, sampleAt, [ArrivesOnNew]);
    polls := [Poll(|t|, |t|, |t|, 0)];
  }

  /** A success means an acceptance on the new socket, whatever follows, exactly when the old socket
      delivers nothing after the swap and the counter did not move between sample and swap (or the
      connection was closed before, and no success follows). */
  lemma ConfirmedOnNewSocket(t0: Timeline, sampleAt: nat, drains: bool)
    requires sampleAt <= |t0| && NothingBeforeSwap(t0, |t0|)
    ensures Closes in t0 || (!drains && SampleStillHolds(t0, sampleAt)) <==>
            forall more: Timeline, polls: seq<Poll>, turn: nat ::
              MayFollow(more, drains) && Succeeds(t0, sampleAt, more, polls, turn) ==> AcceptedOnNew(t0, more, polls[turn])
  {
    if Closes in t0 {
      forall more: Timeline, polls: seq<Poll>, turn: nat
        ensures !Succeeds(t0, sampleAt, more, polls, turn)
      {
        ClosedNeverSucceeds(t0, sampleAt, more, polls, turn);
      }
    } else if !SampleStillHolds(t0, sampleAt) {
      var polls := GarbageSuffices(t0, sampleAt);
      assert MayFollow([ArrivesOnNew], drains) && Succeeds(t0, sampleAt, [ArrivesOnNew], polls, 0);
    } else if drains {
      var more, polls := LateDatagramSuffices(t0, sampleAt);
      assert MayFollow(more, drains) && Succeeds(t0, sampleAt, more, polls, 0);
    } else {
      forall more: Timeline, polls: seq<Poll>, turn: nat | MayFollow(more, drains) && Succeeds(t0, sampleAt, more, polls, turn)
        ensures AcceptedOnNew(t0, more, polls[turn])
      {
        HeldMeansAcceptedSince(t0, sampleAt, more, polls, turn);
        var b :| |t0| <= b < polls[turn].acceptAt && b < |t0 + more| && (t0 + more)[b].Accepted?;
        assert (t0 + more)[b] == more[b - |t0|] && more[b - |t0|].via != OldSocket;
      }
    }
  }

  /** So is garbage together with one datagram still in flight to the old one. */
  lemma LateDatagramSuffices(t0: Timeline, sampleAt: nat) returns (more: Timeline, polls: seq<Poll>)
    requires sampleAt <= |t0| && NothingBeforeSwap(t0, |t0|) && Closes !in t0
    ensures more == [ArrivesOnNew, Accepted(OldSocket)]
    ensures |polls| == 1 && Succeeds(t0, sampleAt, more, polls, 0) && !AcceptedOnNew(t0, more, polls[0])
  {
    more := [ArrivesOnNew, Accepted(OldSocket)];
    var t := t0 + more;
    assert t[..sampleAt] == t0[..sampleAt] && t[..|t|] == t;
    assert t[|t0| + 1].Accepted?;
    CountMeansEvent(t, sampleAt, |t|);
    OneTurnSuccess(t0, sampleAt, more);
    polls := [Poll(|t|, |t|, |t|, 0)];
  }

  /** The smallest such run: the two witnesses are two datagrams, and the accepted one predates the
      swap, because the sample does. */
  lemma WitnessesMayDiffer()
    ensures var t := [Accepted(OldSocket), ArrivesOnNew]; var polls := [Poll(2, 2, 2, 0)];
            && InOrder(t, 0, 1, polls) && NothingBeforeSwap(t, 1)
            && !Died(t, polls[0]) && Confirms(t, AcceptedCount(t[..0]), polls[0])
            && (forall k :: 1 <= k < |t| ==> !t[k].Accepted?)
            && (forall k :: 0 <= k < |t| ==> t[k] != Accepted(NewSocket))
  {
    var t := [Accepted(OldSocket), ArrivesOnNew];
    assert t[0].Accepted? && t[1].ArrivesOnNew?;
    ConfirmedIffBothWitnesses(t, 0, 1, [Poll(2, 2, 2, 0)], 0);
  }

  /** A verdict from the connection's counter alone declares success where the new socket heard
      nothing at all; the swap alone declares it where nothing happened. The real check confirms
      neither. */
  lemma WeakerChecksAdmitFalseOk()
    ensures var t := [Accepted(OldSocket)]; var p := Poll(1, 1, 1, 0);
            && InOrder(t, 0, 0, [p]) && NothingBeforeSwap(t, 0)
            && AcceptedCount(t[..p.acceptAt]) > AcceptedCount(t[..0])
            && (forall k :: 0 <= k < |t| ==> !t[k].ArrivesOnNew?)
            && !Confirms(t, AcceptedCount(t[..0]), p)
    ensures var p := Poll(0, 0, 0, 0); InOrder([], 0, 0, [p]) && !Confirms([], AcceptedCount([]), p)
  {
    var t := [Accepted(OldSocket)];
    var p := Poll(1, 1, 1, 0);
    assert t[0].Accepted?;
    CountMeansEvent(t, 0, 1);
    ConfirmedIffBothWitnesses(t, 0, 0, [p], 0);
  }
}
