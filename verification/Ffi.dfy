/** The exported `QuicStream`: any number of concurrent calls, one lock around the send half, one
    around the receive half. Every call runs as a spawned task that outlives the caller awaiting it;
    what that is for shows next to a variant whose calls run inside the caller's own future. */
module Ffi {
  import opened Sequences
  import opened Grpc
  import R = Receiver

  type Id = nat

  /** How a call runs: as a task of its own, or inside the caller's future, cancelled with it. */
  datatype Mode = Detached | Inline

  /** What a call on the send half does: send a message, or half-close. */
  datatype SendCall = SendMessage(body: Body) | Finish

  /** A send task: waiting for the lock, holding it with some bytes written and some left, or
      returned. */
  datatype SendPhase = Waiting | Writing(written: nat, left: seq<byte>) | Sent | SendFailed

  datatype Sending = Sending(
    calls: map<Id, SendCall>,
    phases: map<Id, SendPhase>, // of the tasks the calls run as
    lock: Option<Id>,
    order: seq<Id>,             // tasks in the order they got the lock
    whole: nat,                 // how many of them have returned successfully
    wire: seq<byte>,
    fin: bool,                  // the send side was half-closed
    broken: bool,               // a send failed
    abandoned: nat)             // bytes on the wire from senders cancelled in the middle

  /** A receive task: waiting for the lock, holding it, or returned with a result. */
  datatype RecvPhase = Queued | Looping | Returned(result: R.RecvResult)

  datatype Receiving = Receiving(
    tasks: map<Id, RecvPhase>,
    lock: Option<Id>,
    arrived: seq<byte>,         // all bytes the stream delivered
    unread: seq<byte>,          // those not yet in the buffer
    end: R.End,
    recvBuf: seq<byte>,
    takers: seq<Id>,            // tasks that returned a message, in order
    got: seq<Body>)             // their messages

  datatype State = State(tx: Sending, rx: Receiving)

  const Init := State(Sending(map[], map[], None, [], 0, [], false, false, 0),
                      Receiving(map[], None, [], [], R.Open, [], [], []))

  datatype Label =
    | CallSend(id: Id, call: SendCall) | LockSend(id: Id) | Write(id: Id, size: nat) | SendReturns(id: Id) | SendFails(id: Id)
    | CallRecv(id: Id) | LockRecv(id: Id) | Pull(id: Id, size: nat) | RecvReturns(id: Id)
    | Arrive(bytes: seq<byte>) | StreamEnds(end: R.End)
    | DropCaller(id: Id)

  function BytesOf(call: SendCall): seq<byte>
  {
    match call
    case SendMessage(body) => FrameOf(body)
    case Finish => []
  }

  predicate Writes(s: Sending, id: Id)
  {
    id in s.phases && s.phases[id].Writing?
  }

  function SendStep(s: Sending, l: Label): Sending
  {
    match l
    case CallSend(id, call) =>
      if id in s.calls then s else s.(calls := s.calls[id := call], phases := s.phases[id := Waiting])
    case LockSend(id) =>
      if id in s.calls && id in s.phases && s.phases[id].Waiting? && s.lock.None?
      then s.(lock := Some(id), order := s.order + [id], phases := s.phases[id := Writing(0, BytesOf(s.calls[id]))]) else s
    case Write(id, n) =>
      if Writes(s, id) && n <= |s.phases[id].left| && !s.fin && !s.broken
      then s.(wire := s.wire + s.phases[id].left[..n],
              phases := s.phases[id := Writing(s.phases[id].written + n, s.phases[id].left[n..])]) else s
    case SendReturns(id) =>
      if Writes(s, id) && s.phases[id].left == [] && !s.broken
      then s.(lock := None, whole := s.whole + 1, fin := s.fin || (id in s.calls && s.calls[id].Finish?),
              phases := s.phases[id := Sent]) else s
    case SendFails(id) =>
      if Writes(s, id) then s.(lock := None, broken := true, phases := s.phases[id := SendFailed]) else s
    case _ => s
  }

  function RecvStep(s: Receiving, l: Label): Receiving
  {
    match l
    case CallRecv(id) => if id in s.tasks then s else s.(tasks := s.tasks[id := Queued])
    case LockRecv(id) =>
      if id in s.tasks && s.tasks[id].Queued? && s.lock.None?
      then s.(lock := Some(id), tasks := s.tasks[id := Looping]) else s
    case Pull(id, n) =>
      if id in s.tasks && s.tasks[id].Looping? && Take(s.recvBuf).None? && n <= |s.unread|
      then s.(recvBuf := s.recvBuf + s.unread[..n], unread := s.unread[n..]) else s
    case RecvReturns(id) =>
      if id in s.tasks && s.tasks[id].Looping? then
        match Take(s.recvBuf)
        case Some(cut) =>
          s.(lock := None, recvBuf := cut.rest, takers := s.takers + [id], got := s.got + [cut.body],
             tasks := s.tasks[id := Returned(R.Message(cut.body))])
        case None =>
          if s.unread == [] && !s.end.Open?
          then s.(lock := None, tasks := s.tasks[id := Returned(R.AtEnd(s.end))]) else s
      else s
    case Arrive(bytes) =>
      if s.end.Open? then s.(arrived := s.arrived + bytes, unread := s.unread + bytes) else s
    case StreamEnds(end) => if s.end.Open? then s.(end := end) else s
    case _ => s
  }

  /** What cancelling a call in the middle does to the send half: the call is as if never made, the
      lock is free, and what it has put on the wire stays there. */
  function CancelSend(s: Sending, id: Id): Sending
  {
    if id in s.phases && s.phases[id].Waiting? then s.(calls := s.calls - {id}, phases := s.phases - {id})
    else if Writes(s, id) && s.order != [] then
      s.(calls := s.calls - {id}, phases := s.phases - {id}, lock := None,
         order := s.order[..|s.order| - 1], abandoned := s.abandoned + s.phases[id].written)
    else s
  }

  /** And to the receive half: whatever the call has read stays in the shared buffer. */
  function CancelRecv(s: Receiving, id: Id): Receiving
  {
    if id in s.tasks && s.tasks[id].Queued? then s.(tasks := s.tasks - {id})
    else if id in s.tasks && s.tasks[id].Looping? then s.(tasks := s.tasks - {id}, lock := None)
    else s
  }

  /** Dropping the caller of a spawned task stops no one but the listener; dropping the caller of a
      call inside its own future cancels the call. */
  function Step(mode: Mode, s: State, l: Label): State
  {
    if !l.DropCaller? then State(SendStep(s.tx, l), RecvStep(s.rx, l))
    else if mode.Inline? then State(CancelSend(s.tx, l.id), CancelRecv(s.rx, l.id))
    else s
  }

  function Run(mode: Mode, labels: seq<Label>): State
  {
    if labels == [] then Init else Step(mode, Run(mode, labels[..|labels| - 1]), labels[|labels| - 1])
  }

  // ---- The send half ----------------------------------------------------------------------

  /** The bytes of the calls of `ids`, one after the other. */
  function BytesInOrder(calls: map<Id, SendCall>, ids: seq<Id>): seq<byte>
  {
    if ids == [] then []
    else
      var last := ids[|ids| - 1];
      BytesInOrder(calls, ids[..|ids| - 1]) + if last in calls then BytesOf(calls[last]) else []
  }

  /** At most one task holds the lock; the tasks that had it are listed once each, the successful
      ones first. */
  ghost predicate LockOrder(s: Sending)
  {
    ListedOnce(s) && DoneFirst(s) && HeldByLast(s)
  }

  ghost predicate ListedOnce(s: Sending)
  {
    && s.phases.Keys == s.calls.Keys
    && Distinct(s.order)
    && (forall id :: id in s.order ==> id in s.phases)
    && (forall id :: id in s.phases ==> (id in s.order <==> !s.phases[id].Waiting?))
  }

  ghost predicate DoneFirst(s: Sending)
  {
    && s.whole <= |s.order|
    && forall k :: 0 <= k < |s.order| ==> (Succeeded(s, s.order[k]) <==> k < s.whole)
  }

  predicate Succeeded(s: Sending, id: Id)
  {
    id in s.phases && s.phases[id].Sent?
  }

  ghost predicate HeldByLast(s: Sending)
  {
    && (forall id: Id :: Writes(s, id) ==> s.lock == Some(id))
    && (s.lock.Some? ==> s.order != [] && s.lock.value == s.order[|s.order| - 1] && Writes(s, s.lock.value))
    && (!s.broken ==> |s.order| == s.whole + if s.lock.Some? then 1 else 0)
  }

  /** What the lock holder still has to write. */
  function Left(s: Sending): seq<byte>
  {
    if s.lock.Some? && Writes(s, s.lock.value) then s.phases[s.lock.value].left else []
  }

  /** The wire holds the bytes of all calls that returned, in lock order, and of at most one more,
      of which it lacks what the lock holder has left. Nothing follows a half-close. */
  ghost predicate OnTheWire(s: Sending)
  {
    && s.whole <= |s.order|
    && Ordered(s, BytesInOrder(s.calls, s.order[..s.whole]), BytesInOrder(s.calls, s.order))
    && (s.broken && s.lock.Some? && s.order != [] ==> s.wire <= BytesInOrder(s.calls, s.order[..|s.order| - 1]))
  }

  ghost predicate Ordered(s: Sending, done: seq<byte>, all: seq<byte>)
  {
    && done <= s.wire <= all
    && (!s.broken ==> all == s.wire + Left(s))
    && (s.fin ==> s.wire == done)
  }

  /** Every byte on the wire belongs to a call listed or was left there by a cancelled one. */
  ghost predicate Counted(s: Sending)
  {
    && (!s.broken ==> |s.wire| + |Left(s)| == |BytesInOrder(s.calls, s.order)| + s.abandoned)
    && (forall id :: Writes(s, id) && id in s.calls ==>
          s.phases[id].written + |s.phases[id].left| == |BytesOf(s.calls[id])|)
  }

  /** With nothing left behind by a cancelled sender, the wire is in order. */
  ghost predicate SendInv(s: Sending)
  {
    LockOrder(s) && Counted(s) && (s.abandoned == 0 ==> OnTheWire(s))
  }

  lemma {:induction false} NewCallKeepsBytes(calls: map<Id, SendCall>, ids: seq<Id>, id: Id, call: SendCall)
    requires id !in ids
    ensures BytesInOrder(calls[id := call], ids) == BytesInOrder(calls, ids)
    decreases |ids|
  {
    if ids != [] {
      NewCallKeepsBytes(calls, ids[..|ids| - 1], id, call);
    }
  }

  lemma BytesSnoc(calls: map<Id, SendCall>, ids: seq<Id>, id: Id)
    requires id in calls
    ensures BytesInOrder(calls, ids + [id]) == BytesInOrder(calls, ids) + BytesOf(calls[id])
  {
    assert (ids + [id])[..|ids|] == ids;
  }

  /** The listed calls have the same bytes under `calls`. */
  ghost predicate SameBytes(s: Sending, calls: map<Id, SendCall>)
    requires s.whole <= |s.order|
  {
    && BytesInOrder(calls, s.order) == BytesInOrder(s.calls, s.order)
    && BytesInOrder(calls, s.order[..s.whole]) == BytesInOrder(s.calls, s.order[..s.whole])
    && (s.order != [] ==>
          BytesInOrder(calls, s.order[..|s.order| - 1]) == BytesInOrder(s.calls, s.order[..|s.order| - 1]))
  }

  /** The wire is in order as long as the bytes it is compared with are the same. */
  lemma SameBytesSameWire(s: Sending, t: Sending)
    requires OnTheWire(s) && t.order == s.order && t.whole == s.whole && t.wire == s.wire
    requires t.fin == s.fin && t.broken == s.broken && t.lock == s.lock && Left(t) == Left(s)
    requires SameBytes(s, t.calls)
    ensures OnTheWire(t)
  {
  }

  lemma NewCallKeepsAllBytes(s: Sending, id: Id, call: SendCall)
    requires s.whole <= |s.order| && id !in s.order
    ensures SameBytes(s, s.calls[id := call])
  {
    NewCallKeepsBytes(s.calls, s.order, id, call);
    NewCallKeepsBytes(s.calls, s.order[..s.whole], id, call);
    if s.order != [] {
      NewCallKeepsBytes(s.calls, s.order[..|s.order| - 1], id, call);
    }
  }

  lemma CallKeeps(s: Sending, id: Id, call: SendCall)
    requires LockOrder(s) && OnTheWire(s) && id !in s.calls
    ensures OnTheWire(SendStep(s, CallSend(id, call)))
  {
    NewCallKeepsAllBytes(s, id, call);
    SameBytesSameWire(s, SendStep(s, CallSend(id, call)));
  }

  lemma PrefixGrows<T>(a: seq<T>, b: seq<T>, c: seq<T>)
    requires a <= b
    ensures a <= b + c
  {
  }

  lemma FrontOfSnoc<T>(a: seq<T>, x: T, k: nat)
    requires k <= |a|
    ensures (a + [x])[..k] == a[..k] && (a + [x])[..|a|] == a
  {
  }

  lemma LockKeepsOrdered(s: Sending, t: Sending, done: seq<byte>, all: seq<byte>, bytes: seq<byte>)
    requires Ordered(s, done, all) && t.wire == s.wire && t.broken == s.broken && t.fin == s.fin
    requires Left(s) == [] && Left(t) == bytes
    ensures Ordered(t, done, all + bytes)
  {
    PrefixGrows(s.wire, all, bytes);
    assert s.wire + [] == s.wire;
  }

  lemma LockAddsBytes(s: Sending, id: Id)
    requires LockOrder(s) && id in s.phases && s.phases[id].Waiting? && s.lock.None?
    ensures var t := SendStep(s, LockSend(id));
            && BytesInOrder(t.calls, t.order) == BytesInOrder(s.calls, s.order) + BytesOf(s.calls[id])
            && BytesInOrder(t.calls, t.order[..t.whole]) == BytesInOrder(s.calls, s.order[..s.whole])
            && BytesInOrder(t.calls, t.order[..|t.order| - 1]) == BytesInOrder(s.calls, s.order)
  {
    BytesSnoc(s.calls, s.order, id);
    FrontOfSnoc(s.order, id, s.whole);
  }

  lemma LockKeeps(s: Sending, id: Id)
    requires LockOrder(s) && OnTheWire(s) && id in s.phases && s.phases[id].Waiting? && s.lock.None?
    ensures OnTheWire(SendStep(s, LockSend(id)))
  {
    LockAddsBytes(s, id);
    LockKeepsOrdered(s, SendStep(s, LockSend(id)), BytesInOrder(s.calls, s.order[..s.whole]),
                     BytesInOrder(s.calls, s.order), BytesOf(s.calls[id]));
  }

  lemma WriteKeeps(s: Sending, id: Id, n: nat)
    requires LockOrder(s) && OnTheWire(s) && Writes(s, id) && n <= |s.phases[id].left| && !s.fin && !s.broken
    ensures OnTheWire(SendStep(s, Write(id, n)))
  {
    var left := s.phases[id].left;
    SeqAssociates(s.wire, left[..n], left[n..]);
    assert left == left[..n] + left[n..];
  }

  lemma SendReturnsKeeps(s: Sending, id: Id)
    requires LockOrder(s) && OnTheWire(s) && Writes(s, id) && s.phases[id].left == [] && !s.broken
    ensures OnTheWire(SendStep(s, SendReturns(id)))
  {
    assert s.whole + 1 == |s.order| && s.order[..s.whole + 1] == s.order;
    assert BytesInOrder(s.calls, s.order) == s.wire + [] == s.wire;
    AllOnTheWire(SendStep(s, SendReturns(id)));
  }

  /** With every listed call done, the wire holds just their bytes. */
  lemma AllOnTheWire(s: Sending)
    requires s.whole == |s.order| && s.order[..s.whole] == s.order && s.lock.None? && !s.broken
    requires s.wire == BytesInOrder(s.calls, s.order)
    ensures OnTheWire(s)
  {
    assert s.wire + [] == s.wire;
  }

  lemma SendFailsKeeps(s: Sending, id: Id)
    requires LockOrder(s) && OnTheWire(s) && Writes(s, id)
    ensures OnTheWire(SendStep(s, SendFails(id)))
  {
  }

  lemma SendStepKeepsWire(s: Sending, l: Label)
    requires LockOrder(s) && OnTheWire(s)
    ensures OnTheWire(SendStep(s, l))
  {
    if SendStep(s, l) != s {
      match l {
        case CallSend(id, call) => CallKeeps(s, id, call);
        case LockSend(id) => LockKeeps(s, id);
        case Write(id, size) => WriteKeeps(s, id, size);
        case SendReturns(id) => SendReturnsKeeps(s, id);
        case SendFails(id) => SendFailsKeeps(s, id);
      }
    }
  }

  lemma {:induction false} ForgottenCallKeepsBytes(calls: map<Id, SendCall>, ids: seq<Id>, id: Id)
    requires id !in ids
    ensures BytesInOrder(calls - {id}, ids) == BytesInOrder(calls, ids)
    decreases |ids|
  {
    if ids != [] {
      ForgottenCallKeepsBytes(calls, ids[..|ids| - 1], id);
    }
  }

  lemma CallKeepsCount(s: Sending, id: Id, call: SendCall)
    requires LockOrder(s) && Counted(s) && id !in s.calls
    ensures Counted(SendStep(s, CallSend(id, call)))
  {
    NewCallKeepsBytes(s.calls, s.order, id, call);
  }

  lemma LockKeepsCount(s: Sending, id: Id)
    requires LockOrder(s) && Counted(s) && id in s.phases && s.phases[id].Waiting? && s.lock.None?
    ensures Counted(SendStep(s, LockSend(id)))
  {
    BytesSnoc(s.calls, s.order, id);
  }

  lemma SendStepKeepsCount(s: Sending, l: Label)
    requires LockOrder(s) && Counted(s) && !l.DropCaller?
    ensures Counted(SendStep(s, l))
  {
    match l {
      case CallSend(id, call) => if id !in s.calls { CallKeepsCount(s, id, call); }
      case LockSend(id) =>
        if id in s.phases && s.phases[id].Waiting? && s.lock.None? { LockKeepsCount(s, id); }
      case _ => HeldStepKeepsCount(s, l);
    }
  }

  lemma WriteKeepsCount(s: Sending, id: Id, n: nat)
    requires LockOrder(s) && Counted(s)
    ensures Counted(SendStep(s, Write(id, n)))
  {
  }

  lemma ReturnKeepsCount(s: Sending, id: Id)
    requires LockOrder(s) && Counted(s)
    ensures Counted(SendStep(s, SendReturns(id)))
  {
  }

  lemma FailKeepsCount(s: Sending, id: Id)
    requires LockOrder(s) && Counted(s)
    ensures Counted(SendStep(s, SendFails(id)))
  {
  }

  lemma HeldStepKeepsCount(s: Sending, l: Label)
    requires LockOrder(s) && Counted(s) && !l.DropCaller? && !l.CallSend? && !l.LockSend?
    ensures Counted(SendStep(s, l))
  {
    match l {
      case Write(id, n) => WriteKeepsCount(s, id, n);
      case SendReturns(id) => ReturnKeepsCount(s, id);
      case SendFails(id) => FailKeepsCount(s, id);
      case _ =>
    }
  }

  // Cancelling the call `id`.

  lemma CancelWaiterKeepsOrder(s: Sending, id: Id)
    requires LockOrder(s) && id in s.phases && s.phases[id].Waiting?
    ensures LockOrder(CancelSend(s, id))
  {
  }

  /** The lock holder is the last call listed. */
  lemma HolderIsLast(s: Sending, id: Id)
    requires LockOrder(s) && Writes(s, id)
    ensures id in s.calls && s.whole < |s.order| && s.order[|s.order| - 1] == id
    ensures s.order[..|s.order| - 1] + [id] == s.order && id !in s.order[..|s.order| - 1]
  {
  }

  lemma CancelHolderKeepsListed(s: Sending, id: Id)
    requires LockOrder(s) && Writes(s, id)
    ensures ListedOnce(CancelSend(s, id))
  {
    HolderIsLast(s, id);
  }

  lemma CancelHolderKeepsOrder(s: Sending, id: Id)
    requires LockOrder(s) && Writes(s, id)
    ensures LockOrder(CancelSend(s, id))
  {
    HolderIsLast(s, id);
    CancelHolderKeepsListed(s, id);
  }

  lemma CancelKeepsOrder(s: Sending, id: Id)
    requires LockOrder(s)
    ensures LockOrder(CancelSend(s, id))
  {
    if Writes(s, id) {
      CancelHolderKeepsOrder(s, id);
    } else if id in s.phases && s.phases[id].Waiting? {
      CancelWaiterKeepsOrder(s, id);
    }
  }

  lemma HolderHasLastBytes(s: Sending, id: Id)
    requires LockOrder(s) && Writes(s, id)
    ensures id in s.calls && s.whole < |s.order| && id !in s.order[..|s.order| - 1]
    ensures BytesInOrder(s.calls, s.order) == BytesInOrder(s.calls, s.order[..|s.order| - 1]) + BytesOf(s.calls[id])
  {
    HolderIsLast(s, id);
  }

  lemma CancelKeepsCount(s: Sending, id: Id)
    requires LockOrder(s) && Counted(s)
    ensures Counted(CancelSend(s, id))
  {
    if Writes(s, id) {
      HolderHasLastBytes(s, id);
      ForgottenCallKeepsBytes(s.calls, s.order[..|s.order| - 1], id);
    } else if id in s.phases && s.phases[id].Waiting? {
      ForgottenCallKeepsBytes(s.calls, s.order, id);
    }
  }

  /** A holder that has written nothing leaves the wire as the calls before it made it. */
  lemma CancelHolderKeepsOrdered(s: Sending, t: Sending, done: seq<byte>, front: seq<byte>, bytes: seq<byte>)
    requires Ordered(s, done, front + bytes) && t.wire == s.wire && t.broken == s.broken && t.fin == s.fin
    requires |Left(s)| == |bytes| && Left(t) == []
    requires if s.broken then s.wire <= front else done == front
    ensures Ordered(t, done, front)
  {
    if !s.broken {
      SameLengthTails(front, bytes, s.wire, Left(s));
    }
    assert s.wire + [] == s.wire;
  }

  lemma CancelHolderTakesBytes(s: Sending, id: Id)
    requires LockOrder(s) && Writes(s, id)
    ensures id in s.calls
    ensures var t := CancelSend(s, id);
            && t.order == s.order[..|s.order| - 1] && s.whole <= |t.order|
            && BytesInOrder(s.calls, s.order) == BytesInOrder(t.calls, t.order) + BytesOf(s.calls[id])
            && BytesInOrder(s.calls, t.order) == BytesInOrder(t.calls, t.order)
            && BytesInOrder(s.calls, s.order[..s.whole]) == BytesInOrder(t.calls, t.order[..s.whole])
  {
    var front := s.order[..|s.order| - 1];
    HolderHasLastBytes(s, id);
    ForgottenCallKeepsBytes(s.calls, front, id);
    ForgottenCallKeepsBytes(s.calls, front[..s.whole], id);
    assert front[..s.whole] == s.order[..s.whole];
  }

  lemma CancelHolderKeepsWire(s: Sending, id: Id)
    requires LockOrder(s) && Counted(s) && OnTheWire(s) && Writes(s, id) && s.phases[id].written == 0
    ensures OnTheWire(CancelSend(s, id))
  {
    var t := CancelSend(s, id);
    CancelHolderTakesBytes(s, id);
    assert !s.broken ==> t.order[..s.whole] == t.order;
    CancelHolderKeepsOrdered(s, t, BytesInOrder(t.calls, t.order[..s.whole]), BytesInOrder(t.calls, t.order),
                             BytesOf(s.calls[id]));
  }

  lemma ForgottenWaiterKeepsBytes(s: Sending, id: Id)
    requires ListedOnce(s) && id in s.phases && s.phases[id].Waiting? && s.whole <= |s.order|
    ensures SameBytes(s, s.calls - {id})
  {
    ForgottenCallKeepsBytes(s.calls, s.order, id);
    ForgottenCallKeepsBytes(s.calls, s.order[..s.whole], id);
    if s.order != [] {
      ForgottenCallKeepsBytes(s.calls, s.order[..|s.order| - 1], id);
    }
  }

  lemma CancelWaiterKeepsWire(s: Sending, id: Id)
    requires LockOrder(s) && OnTheWire(s) && id in s.phases && s.phases[id].Waiting?
    ensures OnTheWire(CancelSend(s, id))
  {
    ForgottenWaiterKeepsBytes(s, id);
    SameBytesSameWire(s, CancelSend(s, id));
  }

  lemma CancelKeeps(s: Sending, id: Id)
    requires SendInv(s)
    ensures SendInv(CancelSend(s, id))
  {
    CancelKeepsOrder(s, id);
    CancelKeepsCount(s, id);
    if CancelSend(s, id).abandoned == 0 {
      if Writes(s, id) {
        HolderHasLastBytes(s, id);
        CancelHolderKeepsWire(s, id);
      } else if id in s.phases && s.phases[id].Waiting? {
        CancelWaiterKeepsWire(s, id);
      }
    }
  }

  lemma SendStepKeeps(s: Sending, l: Label)
    requires SendInv(s) && !l.DropCaller?
    ensures SendInv(SendStep(s, l))
  {
    SendStepKeepsOrder(s, l);
    SendStepKeepsCount(s, l);
    if s.abandoned == 0 {
      SendStepKeepsWire(s, l);
    }
  }

  lemma LockKeepsOrder(s: Sending, id: Id)
    requires LockOrder(s) && id in s.phases && s.phases[id].Waiting? && s.lock.None?
    ensures LockOrder(SendStep(s, LockSend(id)))
  {
  }

  lemma SendReturnsKeepsOrder(s: Sending, id: Id)
    requires LockOrder(s) && Writes(s, id) && s.phases[id].left == [] && !s.broken
    ensures LockOrder(SendStep(s, SendReturns(id)))
  {
  }

  lemma SendFailsKeepsOrder(s: Sending, id: Id)
    requires LockOrder(s) && Writes(s, id)
    ensures LockOrder(SendStep(s, SendFails(id)))
  {
  }

  lemma SendStepKeepsOrder(s: Sending, l: Label)
    requires LockOrder(s)
    ensures LockOrder(SendStep(s, l))
  {
    if SendStep(s, l) != s {
      match l {
        case LockSend(id) => LockKeepsOrder(s, id);
        case SendReturns(id) => SendReturnsKeepsOrder(s, id);
        case SendFails(id) => SendFailsKeepsOrder(s, id);
        case _ =>
      }
    }
  }

  // ---- The receive half -------------------------------------------------------------------

  /** Each returned message belongs to exactly one task and each task to at most one message. */
  ghost predicate Partitioned(s: Receiving)
  {
    && |s.takers| == |s.got|
    && Distinct(s.takers)
    && (forall k :: 0 <= k < |s.takers| ==>
          s.takers[k] in s.tasks && s.tasks[s.takers[k]] == Returned(R.Message(s.got[k])))
    && (forall id :: id in s.tasks && s.tasks[id].Returned? && s.tasks[id].result.Message? ==> id in s.takers)
  }

  /** One task at a time reads, the messages returned are the first of the stream, and an end is
      reported only when nothing is left to return. */
  ghost predicate ReadInOrder(s: Receiving)
  {
    && (forall id: Id :: id in s.tasks && s.tasks[id].Looping? <==> s.lock == Some(id))
    && ReadSoFar(s.arrived, s.got, s.recvBuf + s.unread)
    && (forall id :: id in s.tasks && s.tasks[id].Returned? && !s.tasks[id].result.Message? ==>
          !s.end.Open? && s.tasks[id].result == R.AtEnd(s.end) && Take(s.recvBuf).None? && s.unread == [])
  }

  lemma RecvStepKeepsPartition(s: Receiving, l: Label)
    requires Partitioned(s)
    ensures Partitioned(RecvStep(s, l))
  {
    if l.RecvReturns? && l.id in s.tasks && s.tasks[l.id].Looping? {
      assert l.id !in s.takers;
    }
  }

  lemma ReturnKeepsReading(s: Receiving, id: Id)
    requires ReadInOrder(s) && id in s.tasks && s.tasks[id].Looping?
    ensures ReadInOrder(RecvStep(s, RecvReturns(id)))
  {
    if Take(s.recvBuf).Some? {
      var cut := Take(s.recvBuf).value;
      TakeStable(s.recvBuf, s.unread);
      ReadSoFarTakes(s.arrived, s.got, s.recvBuf + s.unread, Cut(cut.body, cut.rest + s.unread));
    }
  }

  lemma ArriveKeepsReading(s: Receiving, bytes: seq<byte>)
    requires ReadInOrder(s) && s.end.Open?
    ensures ReadInOrder(RecvStep(s, Arrive(bytes)))
  {
    ReadSoFarGrows(s.arrived, s.got, s.recvBuf + s.unread, bytes);
    SeqAssociates(s.recvBuf, s.unread, bytes);
  }

  lemma PullKeepsReading(s: Receiving, id: Id, n: nat)
    requires ReadInOrder(s) && n <= |s.unread|
    ensures ReadInOrder(RecvStep(s, Pull(id, n)))
  {
    SeqAssociates(s.recvBuf, s.unread[..n], s.unread[n..]);
    assert s.unread == s.unread[..n] + s.unread[n..];
  }

  lemma RecvStepKeepsReading(s: Receiving, l: Label)
    requires ReadInOrder(s)
    ensures ReadInOrder(RecvStep(s, l))
  {
    if RecvStep(s, l) != s {
      match l {
        case RecvReturns(id) => ReturnKeepsReading(s, id);
        case Arrive(bytes) => ArriveKeepsReading(s, bytes);
        case Pull(id, size) => PullKeepsReading(s, id, size);
        case _ =>
      }
    }
  }

  lemma CancelRecvKeeps(s: Receiving, id: Id)
    requires Partitioned(s) && ReadInOrder(s)
    ensures Partitioned(CancelRecv(s, id)) && ReadInOrder(CancelRecv(s, id))
  {
  }

  lemma StepKeeps(mode: Mode, s: State, l: Label)
    requires SendInv(s.tx) && Partitioned(s.rx) && ReadInOrder(s.rx)
    ensures var t := Step(mode, s, l); SendInv(t.tx) && Partitioned(t.rx) && ReadInOrder(t.rx)
  {
    if !l.DropCaller? {
      SendStepKeeps(s.tx, l);
      RecvStepKeepsPartition(s.rx, l);
      RecvStepKeepsReading(s.rx, l);
    } else {
      CancelKeeps(s.tx, l.id);
      CancelRecvKeeps(s.rx, l.id);
    }
  }

  lemma {:induction false} EveryRunKeeps(mode: Mode, labels: seq<Label>)
    ensures var s := Run(mode, labels); SendInv(s.tx) && Partitioned(s.rx) && ReadInOrder(s.rx)
  {
    if labels != [] {
      EveryRunKeeps(mode, labels[..|labels| - 1]);
      StepKeeps(mode, Run(mode, labels[..|labels| - 1]), labels[|labels| - 1]);
    } else {
      assert [] + Init.rx.unread == [];
    }
  }

  // ---- Main results -----------------------------------------------------------------------

  /** The messages of the send calls among `ids`, in order. */
  function MessagesOf(calls: map<Id, SendCall>, ids: seq<Id>): seq<Body>
  {
    if ids == [] then []
    else
      var last := ids[|ids| - 1];
      MessagesOf(calls, ids[..|ids| - 1])
      + if last in calls && calls[last].SendMessage? then [calls[last].body] else []
  }

  lemma {:induction false} BytesAreFrames(calls: map<Id, SendCall>, ids: seq<Id>)
    ensures BytesInOrder(calls, ids) == WireOf(MessagesOf(calls, ids))
    decreases |ids|
  {
    if ids != [] {
      var front, last := ids[..|ids| - 1], ids[|ids| - 1];
      BytesAreFrames(calls, front);
      if last in calls && calls[last].SendMessage? {
        var m := calls[last].body;
        WireOfConcat(MessagesOf(calls, front), [m]);
        assert WireOf([m]) == FrameOf(m) + WireOf([]) == FrameOf(m);
      } else {
        assert MessagesOf(calls, ids) == MessagesOf(calls, front);
        assert BytesInOrder(calls, ids) == BytesInOrder(calls, front) + [];
      }
    }
  }

  /** The calls that returned success, in lock order. */
  function Done(s: Sending): seq<Id>
  {
    if s.whole <= |s.order| then s.order[..s.whole] else s.order
  }

  /** Whether `l` cancels a sender that has put bytes on the wire. */
  predicate CutsFrame(mode: Mode, s: Sending, l: Label)
  {
    mode.Inline? && l.DropCaller? && Writes(s, l.id) && s.phases[l.id].written > 0
  }

  /** No sender is ever cancelled in the middle of its frame. */
  predicate NoFrameCut(mode: Mode, labels: seq<Label>)
  {
    labels == [] || (NoFrameCut(mode, labels[..|labels| - 1])
                     && !CutsFrame(mode, Run(mode, labels[..|labels| - 1]).tx, labels[|labels| - 1]))
  }

  lemma AbandonsIffCut(mode: Mode, s: State, l: Label)
    requires LockOrder(s.tx)
    ensures Step(mode, s, l).tx.abandoned == 0 <==> s.tx.abandoned == 0 && !CutsFrame(mode, s.tx, l)
  {
  }

  lemma {:induction false} SpawnedNeverCut(labels: seq<Label>)
    ensures NoFrameCut(Detached, labels)
  {
    if labels != [] {
      SpawnedNeverCut(labels[..|labels| - 1]);
    }
  }

  lemma LockOrderAlways(mode: Mode, labels: seq<Label>)
    ensures LockOrder(Run(mode, labels).tx)
  {
    EveryRunKeeps(mode, labels);
  }

  lemma {:induction false} NothingAbandonedIff(mode: Mode, labels: seq<Label>)
    ensures Run(mode, labels).tx.abandoned == 0 <==> NoFrameCut(mode, labels)
  {
    if labels != [] {
      var front, last := labels[..|labels| - 1], labels[|labels| - 1];
      NothingAbandonedIff(mode, front);
      LockOrderAlways(mode, front);
      AbandonsIffCut(mode, Run(mode, front), last);
    }
  }

  /** Concurrent senders never mix their frames: in every run of spawned tasks, whoever is dropped
      when. Each call that returned success got the lock exactly once; the wire starts with their
      frames in lock order and continues, at most, into those of the calls that got the lock after
      them. (Run inside their callers' futures, the calls keep this too if no frame is cut.) */
  lemma FramesInLockOrder(mode: Mode, labels: seq<Label>)
    requires mode.Detached? || NoFrameCut(mode, labels)
    ensures var s := Run(mode, labels).tx; var done := Done(s);
            && Distinct(s.order)
            && (forall id :: id in s.phases ==> (s.phases[id].Sent? <==> id in done))
            && WireOf(MessagesOf(s.calls, done)) <= s.wire <= WireOf(MessagesOf(s.calls, s.order))
            && (s.fin ==> s.wire == WireOf(MessagesOf(s.calls, done)))
  {
    if mode.Detached? {
      SpawnedNeverCut(labels);
    }
    EveryRunKeeps(mode, labels);
    NothingAbandonedIff(mode, labels);
    OrderedFrames(Run(mode, labels).tx);
  }

  lemma OrderedFrames(s: Sending)
    requires SendInv(s) && s.abandoned == 0
    ensures Distinct(s.order) && (forall id :: id in s.phases ==> (s.phases[id].Sent? <==> id in Done(s)))
    ensures WireOf(MessagesOf(s.calls, Done(s))) <= s.wire <= WireOf(MessagesOf(s.calls, s.order))
    ensures s.fin ==> s.wire == WireOf(MessagesOf(s.calls, Done(s)))
  {
    BytesAreFrames(s.calls, Done(s));
    BytesAreFrames(s.calls, s.order);
    SentAreDone(s);
  }

  /** What detaching is for. Whenever the lock is free and no send failed, the peer parses exactly
      the messages of the calls that returned success - if and only if no sender was cancelled in
      the middle of its frame, which spawned tasks never are. */
  lemma PeerParsesIffNoFrameCut(mode: Mode, labels: seq<Label>)
    requires var s := Run(mode, labels).tx; s.lock.None? && !s.broken && AllFit(MessagesOf(s.calls, Done(s)))
    ensures var s := Run(mode, labels).tx;
            Parse(s.wire) == Parsed(MessagesOf(s.calls, Done(s)), []) <==> NoFrameCut(mode, labels)
    ensures mode.Detached? ==> NoFrameCut(mode, labels)
  {
    if mode.Detached? {
      SpawnedNeverCut(labels);
    }
    EveryRunKeeps(mode, labels);
    NothingAbandonedIff(mode, labels);
    ParsesIffNothingAbandoned(Run(mode, labels).tx);
  }

  lemma ParsesIffNothingAbandoned(s: Sending)
    requires SendInv(s) && s.lock.None? && !s.broken && AllFit(MessagesOf(s.calls, Done(s)))
    ensures Parse(s.wire) == Parsed(MessagesOf(s.calls, Done(s)), []) <==> s.abandoned == 0
  {
    var messages := MessagesOf(s.calls, s.order);
    assert Done(s) == s.order && Left(s) == [];
    BytesAreFrames(s.calls, s.order);
    if s.abandoned == 0 {
      assert s.wire == s.wire + Left(s) == WireOf(messages);
      WireRoundTrip(messages);
    } else {
      ParseLength(s.wire);
    }
  }

  lemma SentAreDone(s: Sending)
    requires LockOrder(s)
    ensures forall id :: id in s.phases ==> (s.phases[id].Sent? <==> id in Done(s))
  {
    forall id | id in s.phases
      ensures s.phases[id].Sent? <==> id in Done(s)
    {
      if s.phases[id].Sent? {
        assert id in s.order;
        var k :| 0 <= k < |s.order| && s.order[k] == id;
        assert Done(s)[k] == id;
      }
    }
  }

  /** Concurrent receivers share the incoming messages out without loss or duplication: message `k`
      of the stream was returned by exactly one call, counting calls whose caller is gone, and a
      call that reports the end of the stream reports it after the last message. */
  lemma MessagesArePartitioned(mode: Mode, labels: seq<Label>)
    ensures var s := Run(mode, labels).rx;
            && s.got <= Parse(s.arrived).messages
            && |s.takers| == |s.got| && Distinct(s.takers)
            && (forall k :: 0 <= k < |s.got| ==> s.takers[k] in s.tasks && s.tasks[s.takers[k]] == Returned(R.Message(s.got[k])))
            && (forall id :: id in s.tasks && s.tasks[id].Returned? && s.tasks[id].result.Message? ==> id in s.takers)
            && (forall id :: id in s.tasks && s.tasks[id] == Returned(R.EndOfStream) ==>
                  s.end.Fin? && s.got == Parse(s.arrived).messages)
            && (forall id :: id in s.tasks && s.tasks[id] == Returned(R.RecvError) ==> s.end.Reset?)
            && (forall id :: id in s.tasks ==> s.tasks[id] != Returned(R.Parked))
  {
    EveryRunKeeps(mode, labels);
    var s := Run(mode, labels).rx;
    if Take(s.recvBuf).None? && s.unread == [] {
      assert s.recvBuf + s.unread == s.recvBuf;
      assert Parse(s.recvBuf).messages == [];
      assert s.got + [] == s.got;
    }
  }

  function WithoutDrops(labels: seq<Label>): seq<Label>
  {
    if labels == [] then []
    else
      var last := labels[|labels| - 1];
      WithoutDrops(labels[..|labels| - 1]) + if last.DropCaller? then [] else [last]
  }

  /** Dropping a foreign future cancels nothing: spawned calls do, whoever is dropped when, exactly
      what calls inside their callers' futures would have done had no one been dropped. */
  lemma {:induction false} DroppedCallersChangeNothing(labels: seq<Label>)
    ensures Run(Detached, labels) == Run(Inline, WithoutDrops(labels))
  {
    if labels != [] {
      var front, last := labels[..|labels| - 1], labels[|labels| - 1];
      DroppedCallersChangeNothing(front);
      if last.DropCaller? {
        assert WithoutDrops(labels) == WithoutDrops(front);
      } else {
        assert WithoutDrops(labels)[..|WithoutDrops(labels)| - 1] == WithoutDrops(front);
      }
    }
  }

  /** `labels` lead to `s`, stated so that no run needs unfolding to use it. */
  ghost predicate Reaches(mode: Mode, labels: seq<Label>, s: State)
  {
    forall run: seq<Label> :: run == labels ==> Run(mode, run) == s
  }

  lemma Then(mode: Mode, labels: seq<Label>, s: State, l: Label) returns (more: seq<Label>, t: State)
    requires Reaches(mode, labels, s)
    ensures more == labels + [l] && t == Step(mode, s, l) && Reaches(mode, more, t)
  {
    more, t := labels + [l], Step(mode, s, l);
    assert more[..|labels|] == labels;
    assert Run(mode, labels) == s;
  }

  /** One caller starts to send `a`, is dropped after `n` bytes, and a second one sends `b`. */
  function DropInTheMiddle(a: Body, n: nat, b: Body): seq<Label>
  {
    [CallSend(1, SendMessage(a)), LockSend(1), Write(1, n), DropCaller(1)]
    + [CallSend(2, SendMessage(b)), LockSend(2), Write(2, |FrameOf(b)|), SendReturns(2)]
  }

  lemma CancelledIsGone(s: State, id: Id)
    requires LockOrder(s.tx) && ReadInOrder(s.rx)
    ensures var tx, rx := CancelSend(s.tx, id), CancelRecv(s.rx, id);
            && (id in tx.phases ==> tx.phases[id].Sent? || tx.phases[id].SendFailed?)
            && (id in rx.tasks ==> rx.tasks[id].Returned?)
            && tx.lock != Some(id) && rx.lock != Some(id)
  {
  }

  /** Inside its caller's future, a call that has not returned is gone with its caller, and so is its
      hold on a lock; a call that has returned is not affected. */
  lemma InlineCallDiesWithCaller(labels: seq<Label>, id: Id)
    ensures var s, t := Run(Inline, labels), Run(Inline, labels + [DropCaller(id)]);
            && (id in t.tx.phases ==> t.tx.phases[id].Sent? || t.tx.phases[id].SendFailed?)
            && (id in t.rx.tasks ==> t.rx.tasks[id].Returned?)
            && t.tx.lock != Some(id) && t.rx.lock != Some(id)
            && (id in s.tx.phases && (s.tx.phases[id].Sent? || s.tx.phases[id].SendFailed?) ==> t.tx == s.tx)
            && (id in s.rx.tasks && s.rx.tasks[id].Returned? ==> t.rx == s.rx)
  {
    EveryRunKeeps(Inline, labels);
    assert (labels + [DropCaller(id)])[..|labels|] == labels;
    CancelledIsGone(Run(Inline, labels), id);
  }

  /** Calls inside their callers' futures do mix frames: on this run the second call returns success,
      but behind the beginning of a frame that no one will finish. */
  lemma InlineCallsMixFrames(a: Body, n: nat, b: Body)
    requires 0 < n < |FrameOf(a)| && Fits(b)
    ensures var s := Run(Inline, DropInTheMiddle(a, n, b)).tx;
            && s.wire == FrameOf(a)[..n] + FrameOf(b) && s.lock.None? && !s.broken
            && MessagesOf(s.calls, Done(s)) == [b] && Parse(s.wire) != Parsed([b], [])
  {
    var labels, s := FirstIsDropped(a, n);
    labels, s := SecondSends(labels, s, b);
    assert labels == DropInTheMiddle(a, n, b);
    OnlySecondIsDone(s.tx, b);
    ParseLength(s.tx.wire);
    assert WireOf([b]) == FrameOf(b) + WireOf([]);
  }

  lemma OnlySecondIsDone(s: Sending, b: Body)
    requires s.order == [2] && s.whole == 1 && s.calls == map[2 := SendMessage(b)]
    ensures MessagesOf(s.calls, Done(s)) == [b]
  {
    assert Done(s) == [2] && [2][..0] == [];
    assert MessagesOf(s.calls, [2]) == MessagesOf(s.calls, []) + [b];
  }

  lemma FirstIsDropped(a: Body, n: nat) returns (labels: seq<Label>, s: State)
    requires n <= |FrameOf(a)|
    ensures Reaches(Inline, labels, s)
    ensures labels == [CallSend(1, SendMessage(a)), LockSend(1), Write(1, n), DropCaller(1)]
    ensures s.tx == Sending(map[], map[], None, [], 0, FrameOf(a)[..n], false, false, n)
  {
    labels, s := Then(Inline, [], Init, CallSend(1, SendMessage(a)));
    labels, s := Then(Inline, labels, s, LockSend(1));
    labels, s := WriteAndDrop(labels, s, SendMessage(a), FrameOf(a), n);
  }

  lemma WriteAndDrop(labels: seq<Label>, s: State, call: SendCall, bytes: seq<byte>, n: nat)
    returns (more: seq<Label>, t: State)
    requires Reaches(Inline, labels, s) && n <= |bytes|
    requires s.tx == Sending(map[1 := call], map[1 := Writing(0, bytes)], Some(1), [1], 0, [], false, false, 0)
    ensures Reaches(Inline, more, t) && more == labels + [Write(1, n), DropCaller(1)]
    ensures t.tx == Sending(map[], map[], None, [], 0, bytes[..n], false, false, n)
  {
    more, t := Then(Inline, labels, s, Write(1, n));
    assert t.tx == s.tx.(wire := bytes[..n], phases := map[1 := Writing(n, bytes[n..])]);
    more, t := Then(Inline, more, t, DropCaller(1));
  }

  lemma SecondSends(labels: seq<Label>, s: State, b: Body) returns (more: seq<Label>, t: State)
    requires Reaches(Inline, labels, s) && s.tx == Sending(map[], map[], None, [], 0, s.tx.wire, false, false, s.tx.abandoned)
    ensures Reaches(Inline, more, t)
    ensures more == labels + [CallSend(2, SendMessage(b)), LockSend(2), Write(2, |FrameOf(b)|), SendReturns(2)]
    ensures t.tx == Sending(map[2 := SendMessage(b)], map[2 := Sent], None, [2], 1, s.tx.wire + FrameOf(b), false, false, s.tx.abandoned)
  {
    more, t := Then(Inline, labels, s, CallSend(2, SendMessage(b)));
    more, t := Then(Inline, more, t, LockSend(2));
    more, t := Then(Inline, more, t, Write(2, |FrameOf(b)|));
    more, t := Then(Inline, more, t, SendReturns(2));
  }

  // ---- What later steps do not take back, for spawned calls -------------------------------

  ghost predicate SendSince(s: Sending, t: Sending)
  {
    && s.wire <= t.wire && s.order <= t.order && s.whole <= t.whole
    && (forall id :: id in s.calls ==> id in t.calls && t.calls[id] == s.calls[id])
    && (forall id :: id in s.phases && (s.phases[id].Sent? || s.phases[id].SendFailed?) ==>
          id in t.phases && t.phases[id] == s.phases[id])
    && (s.fin ==> t.fin && t.wire == s.wire)
    && (s.broken ==> t.broken && t.wire == s.wire && t.whole == s.whole)
  }

  ghost predicate RecvSince(s: Receiving, t: Receiving)
  {
    && s.arrived <= t.arrived && s.got <= t.got && s.takers <= t.takers
    && (forall id :: id in s.tasks && s.tasks[id].Returned? ==> id in t.tasks && t.tasks[id] == s.tasks[id])
    && (!s.end.Open? ==> t.end == s.end && t.arrived == s.arrived)
  }

  lemma SendStepSince(s: Sending, l: Label)
    requires LockOrder(s)
    ensures SendSince(s, SendStep(s, l))
  {
  }

  lemma RecvStepSince(s: Receiving, l: Label)
    ensures RecvSince(s, RecvStep(s, l))
  {
  }

  lemma SendSinceAgain(s: Sending, t: Sending, u: Sending)
    requires SendSince(s, t) && SendSince(t, u)
    ensures SendSince(s, u)
  {
  }

  lemma RecvSinceAgain(s: Receiving, t: Receiving, u: Receiving)
    requires RecvSince(s, t) && RecvSince(t, u)
    ensures RecvSince(s, u)
  {
  }

  lemma RunSnoc(mode: Mode, labels: seq<Label>, l: Label)
    ensures Run(mode, labels + [l]) == Step(mode, Run(mode, labels), l)
  {
    assert (labels + [l])[..|labels|] == labels;
  }

  /** Nothing is taken back: a call that returned keeps its result, the wire and the messages only
      grow, and after a half-close, or a failed send, nothing more is written at all. */
  lemma {:induction false} NothingIsTakenBack(labels: seq<Label>, more: seq<Label>)
    ensures SendSince(Run(Detached, labels).tx, Run(Detached, labels + more).tx)
    ensures RecvSince(Run(Detached, labels).rx, Run(Detached, labels + more).rx)
    decreases |more|
  {
    if more == [] {
      assert labels + more == labels;
    } else {
      var front, last := more[..|more| - 1], more[|more| - 1];
      NothingIsTakenBack(labels, front);
      LockOrderAlways(Detached, labels + front);
      assert labels + more == labels + front + [last];
      RunSnoc(Detached, labels + front, last);
      OneMoreSince(Run(Detached, labels), Run(Detached, labels + front), last);
    }
  }

  lemma OneMoreSince(s: State, t: State, l: Label)
    requires SendSince(s.tx, t.tx) && RecvSince(s.rx, t.rx) && LockOrder(t.tx)
    ensures SendSince(s.tx, Step(Detached, t, l).tx) && RecvSince(s.rx, Step(Detached, t, l).rx)
  {
    if !l.DropCaller? {
      SendStepSince(t.tx, l);
      RecvStepSince(t.rx, l);
      SendSinceAgain(s.tx, t.tx, SendStep(t.tx, l));
      RecvSinceAgain(s.rx, t.rx, RecvStep(t.rx, l));
    }
  }

  /** A send that fails says so, frees the lock, and nothing is written after it. */
  lemma FailedSendEndsWriting(labels: seq<Label>, id: Id, more: seq<Label>)
    requires Writes(Run(Detached, labels).tx, id)
    ensures Run(Detached, labels + [SendFails(id)]).tx.lock.None?
    ensures var t := Run(Detached, labels + [SendFails(id)] + more).tx;
            t.broken && id in t.phases && t.phases[id].SendFailed? && t.wire == Run(Detached, labels).tx.wire
  {
    RunSnoc(Detached, labels, SendFails(id));
    NothingIsTakenBack(labels + [SendFails(id)], more);
  }

  ghost predicate FinishReturned(s: Sending)
  {
    exists id :: id in s.phases && s.phases[id].Sent? && id in s.calls && s.calls[id].Finish?
  }

  lemma SameSentSameFin(s: Sending, t: Sending)
    requires t.fin == s.fin && (s.fin <==> FinishReturned(s))
    requires forall id :: (id in t.phases && t.phases[id].Sent?) <==> (id in s.phases && s.phases[id].Sent?)
    requires forall id :: id in s.phases && s.phases[id].Sent? ==> (id in s.calls <==> id in t.calls)
    requires forall id :: id in s.phases && s.phases[id].Sent? && id in s.calls ==> t.calls[id] == s.calls[id]
    ensures t.fin <==> FinishReturned(t)
  {
    if FinishReturned(s) {
      var id :| id in s.phases && s.phases[id].Sent? && id in s.calls && s.calls[id].Finish?;
      assert id in t.phases && t.phases[id].Sent? && id in t.calls && t.calls[id].Finish?;
    }
  }

  lemma ReturnSetsFin(s: Sending, id: Id)
    requires LockOrder(s) && (s.fin <==> FinishReturned(s)) && Writes(s, id) && s.phases[id].left == [] && !s.broken
    ensures var t := SendStep(s, SendReturns(id)); t.fin <==> FinishReturned(t)
  {
    var t := SendStep(s, SendReturns(id));
    if FinishReturned(s) {
      var k :| k in s.phases && s.phases[k].Sent? && k in s.calls && s.calls[k].Finish?;
      assert k in t.phases && t.phases[k].Sent?;
    }
    assert t.phases[id].Sent?;
  }

  lemma FinStep(mode: Mode, s: State, l: Label)
    requires LockOrder(s.tx) && (s.tx.fin <==> FinishReturned(s.tx))
    ensures Step(mode, s, l).tx.fin <==> FinishReturned(Step(mode, s, l).tx)
  {
    if l.SendReturns? && Writes(s.tx, l.id) && s.tx.phases[l.id].left == [] && !s.tx.broken {
      ReturnSetsFin(s.tx, l.id);
    } else if l.DropCaller? {
      CancelKeepsFin(s.tx, l.id);
    } else {
      OtherStepKeepsFin(s.tx, l);
    }
  }

  lemma CancelKeepsFin(s: Sending, id: Id)
    requires s.fin <==> FinishReturned(s)
    ensures CancelSend(s, id).fin <==> FinishReturned(CancelSend(s, id))
  {
    SameSentSameFin(s, CancelSend(s, id));
  }

  lemma OtherStepKeepsFin(s: Sending, l: Label)
    requires LockOrder(s) && (s.fin <==> FinishReturned(s))
    requires l.SendReturns? ==> !Writes(s, l.id) || s.phases[l.id].left != [] || s.broken
    ensures SendStep(s, l).fin <==> FinishReturned(SendStep(s, l))
  {
    SameSentSameFin(s, SendStep(s, l));
  }

  /** The send side is half-closed exactly when some `finish` has returned. */
  lemma {:induction false} FinIffFinishReturned(mode: Mode, labels: seq<Label>)
    ensures Run(mode, labels).tx.fin <==> FinishReturned(Run(mode, labels).tx)
  {
    if labels != [] {
      var front, last := labels[..|labels| - 1], labels[|labels| - 1];
      FinIffFinishReturned(mode, front);
      LockOrderAlways(mode, front);
      FinStep(mode, Run(mode, front), last);
    }
  }

  // ---- Nothing gets stuck -----------------------------------------------------------------

  /** A step of the send half alone. */
  lemma SendActs(labels: seq<Label>, s: State, l: Label) returns (more: seq<Label>, t: State)
    requires Reaches(Detached, labels, s) && (l.CallSend? || l.LockSend? || l.Write? || l.SendReturns? || l.SendFails?)
    ensures more == labels + [l] && Reaches(Detached, more, t) && t == s.(tx := SendStep(s.tx, l))
  {
    more, t := Then(Detached, labels, s, l);
  }

  /** The lock holder can write what it has left and return. */
  lemma HolderCanFinish(labels: seq<Label>, s: State, id: Id) returns (more: seq<Label>, t: State)
    requires Reaches(Detached, labels, s) && Writes(s.tx, id) && !s.tx.broken
    requires s.tx.fin ==> s.tx.phases[id].left == []
    ensures Reaches(Detached, more, t) && labels <= more && t.rx == s.rx
    ensures t.tx.phases == s.tx.phases[id := Sent] && t.tx.calls == s.tx.calls && t.tx.lock.None? && !t.tx.broken
    ensures t.tx.wire == s.tx.wire + s.tx.phases[id].left && t.tx.order == s.tx.order
    ensures t.tx.fin <==> s.tx.fin || (id in s.tx.calls && s.tx.calls[id].Finish?)
  {
    var left := s.tx.phases[id].left;
    assert left[..|left|] == left && left[|left|..] == [];
    more, t := SendActs(labels, s, Write(id, |left|));
    assert Writes(t.tx, id) && t.tx.phases[id].left == [] && t.tx.wire == s.tx.wire + left;
    assert t.tx.phases[id := Sent] == s.tx.phases[id := Sent];
    more, t := SendActs(more, t, SendReturns(id));
  }

  /** A waiting call gets the lock once it is free, writes its whole frame - or half-closes - and
      returns success. */
  lemma WaiterCanSend(labels: seq<Label>, s: State, id: Id) returns (more: seq<Label>, t: State)
    requires Reaches(Detached, labels, s) && id in s.tx.phases && s.tx.phases[id].Waiting? && id in s.tx.calls
    requires s.tx.lock.None? && !s.tx.broken && (s.tx.fin ==> s.tx.calls[id].Finish?)
    ensures Reaches(Detached, more, t) && labels <= more && t.rx == s.rx
    ensures t.tx.phases == s.tx.phases[id := Sent] && t.tx.calls == s.tx.calls && t.tx.lock.None? && !t.tx.broken
    ensures t.tx.wire == s.tx.wire + (match s.tx.calls[id] case SendMessage(body) => FrameOf(body) case Finish => [])
    ensures t.tx.order == s.tx.order + [id] && (t.tx.fin <==> s.tx.fin || s.tx.calls[id].Finish?)
  {
    more, t := SendActs(labels, s, LockSend(id));
    assert t.tx.phases[id := Sent] == s.tx.phases[id := Sent];
    more, t := HolderCanFinish(more, t, id);
  }

  /** The calls that have not returned. */
  function Pending(s: Sending): set<Id>
  {
    set id | id in s.phases && s.phases[id].Waiting?
  }

  /** No send failed, and no message waits behind a half-close. */
  ghost predicate CanStillSend(s: Sending)
  {
    && !s.broken
    && (s.fin || (s.lock.Some? && s.lock.value in s.calls && s.calls[s.lock.value].Finish?) ==> forall id :: id in s.phases && id in s.calls && !s.phases[id].Sent? ==> s.calls[id].Finish?)
  }

  /** The next call to let through: a message before a half-close. */
  lemma NextCall(s: Sending) returns (id: Id)
    requires s.phases.Keys == s.calls.Keys && Pending(s) != {}
    ensures id in Pending(s) && (s.calls[id].Finish? ==> forall other :: other in Pending(s) ==> s.calls[other].Finish?)
  {
    if other :| other in Pending(s) && s.calls[other].SendMessage? {
      id := other;
    } else {
      id :| id in Pending(s);
    }
  }

  lemma {:induction false} WaitersCanSend(labels: seq<Label>, s: State) returns (more: seq<Label>, t: State)
    requires Reaches(Detached, labels, s) && LockOrder(s.tx) && s.tx.lock.None? && CanStillSend(s.tx)
    ensures Reaches(Detached, more, t) && labels <= more && t.tx.calls == s.tx.calls
    ensures t.tx.lock.None? && !t.tx.broken && Pending(t.tx) == {}
    decreases |Pending(s.tx)|
  {
    if Pending(s.tx) == {} {
      more, t := labels, s;
    } else {
      var id := NextCall(s.tx);
      more, t := WaiterCanSend(labels, s, id);
      assert Pending(t.tx) == Pending(s.tx) - {id};
      ReachedKeeps(more, t);
      OnlyFinishLeft(s.tx, t.tx, id);
      more, t := WaitersCanSend(more, t);
    }
  }

  lemma ReachedKeeps(labels: seq<Label>, s: State)
    requires Reaches(Detached, labels, s)
    ensures SendInv(s.tx)
  {
    EveryRunKeeps(Detached, labels);
    assert Run(Detached, labels) == s;
  }

  lemma OnlyFinishLeft(s: Sending, t: Sending, id: Id)
    requires LockOrder(s) && CanStillSend(s) && s.lock.None? && id in Pending(s) && id in s.calls && t.calls == s.calls
    requires s.calls[id].Finish? ==> forall other :: other in Pending(s) ==> s.calls[other].Finish?
    requires t.phases == s.phases[id := Sent] && t.lock.None? && !t.broken && (t.fin <==> s.fin || s.calls[id].Finish?)
    ensures CanStillSend(t)
  {
    forall other | t.fin && other in t.phases && other in t.calls && !t.phases[other].Sent?
      ensures t.calls[other].Finish?
    {
      assert other != id && s.phases[other] == t.phases[other];
      NoneFailedOrHolding(s, other);
    }
  }

  /** With the lock free and nothing broken, a call waits or has succeeded. */
  lemma NoneFailedOrHolding(s: Sending, id: Id)
    requires LockOrder(s) && s.lock.None? && !s.broken && id in s.phases
    ensures s.phases[id].Waiting? || s.phases[id].Sent?
  {
    if id in s.order {
      var k :| 0 <= k < |s.order| && s.order[k] == id;
      assert Succeeded(s, s.order[k]);
    }
  }

  /** The holder of the lock, if there is one, can finish. */
  lemma LockCanBeFreed(labels: seq<Label>) returns (run: seq<Label>, s: State)
    requires CanStillSend(Run(Detached, labels).tx)
    ensures Reaches(Detached, run, s) && labels <= run
    ensures s.tx.calls == Run(Detached, labels).tx.calls && s.tx.lock.None? && CanStillSend(s.tx)
  {
    run, s := labels, Run(Detached, labels);
    EveryRunKeeps(Detached, labels);
    if s.tx.lock.Some? {
      var id := s.tx.lock.value;
      var before := s.tx;
      HolderKeepsSending(before, id);
      run, s := HolderCanFinish(run, s, id);
    }
  }

  lemma HolderKeepsSending(s: Sending, id: Id)
    requires SendInv(s) && CanStillSend(s) && s.lock == Some(id)
    ensures Writes(s, id) && (s.fin ==> s.phases[id].left == [])
    ensures s.fin || (id in s.calls && s.calls[id].Finish?) ==>
              forall other :: other in s.phases && other in s.calls && !s.phases[id := Sent][other].Sent? ==> s.calls[other].Finish?
  {
    if s.fin {
      assert id in s.calls && BytesOf(s.calls[id]) == [];
    }
  }

  /** Nothing gets stuck: from every run in which no send failed and no message waits behind a
      half-close, every call made so far can still return success, and the peer then parses exactly
      their messages. */
  lemma EveryCallCanReturn(labels: seq<Label>) returns (run: seq<Label>)
    requires CanStillSend(Run(Detached, labels).tx)
    ensures labels <= run
    ensures var s := Run(Detached, run).tx;
            && s.calls == Run(Detached, labels).tx.calls
            && (forall id :: id in s.calls ==> id in s.phases && s.phases[id].Sent? && id in Done(s))
            && (AllFit(MessagesOf(s.calls, Done(s))) ==> Parse(s.wire) == Parsed(MessagesOf(s.calls, Done(s)), []))
  {
    var s;
    run, s := LockCanBeFreed(labels);
    ReachedKeeps(run, s);
    run, s := WaitersCanSend(run, s);
    assert Run(Detached, run) == s;
    AllReturned(run);
  }

  lemma AllReturned(labels: seq<Label>)
    requires var s := Run(Detached, labels).tx; s.lock.None? && !s.broken && Pending(s) == {}
    ensures var s := Run(Detached, labels).tx;
            && (forall id :: id in s.calls ==> id in s.phases && s.phases[id].Sent? && id in Done(s))
            && (AllFit(MessagesOf(s.calls, Done(s))) ==> Parse(s.wire) == Parsed(MessagesOf(s.calls, Done(s)), []))
  {
    EveryRunKeeps(Detached, labels);
    var s := Run(Detached, labels).tx;
    forall id | id in s.calls
      ensures id in s.phases && s.phases[id].Sent?
    {
      assert id !in Pending(s);
      NoneFailedOrHolding(s, id);
    }
    SentAreDone(s);
    if AllFit(MessagesOf(s.calls, Done(s))) {
      PeerParsesIffNoFrameCut(Detached, labels);
    }
  }

  /** A step of the receive half alone. */
  lemma RecvActs(labels: seq<Label>, s: State, l: Label) returns (more: seq<Label>, t: State)
    requires Reaches(Detached, labels, s)
    requires l.CallRecv? || l.LockRecv? || l.Pull? || l.RecvReturns? || l.Arrive? || l.StreamEnds?
    ensures more == labels + [l] && Reaches(Detached, more, t) && t == s.(rx := RecvStep(s.rx, l))
  {
    more, t := Then(Detached, labels, s, l);
  }

  /** A queued receiver gets the lock once it is free. It returns the next message of the stream if
      all of it has arrived; otherwise it reports the end if there is one, and holds on if not. */
  lemma ReceiverCanReturn(labels: seq<Label>, id: Id) returns (run: seq<Label>)
    requires var s := Run(Detached, labels).rx; id in s.tasks && s.tasks[id].Queued? && s.lock.None?
    ensures labels <= run
    ensures var s, t := Run(Detached, labels).rx, Run(Detached, run).rx;
            && t.arrived == s.arrived && id in t.tasks && s.got <= Parse(s.arrived).messages
            && t.tasks[id] ==
               if |s.got| < |Parse(s.arrived).messages| then Returned(R.Message(Parse(s.arrived).messages[|s.got|]))
               else if s.end.Fin? then Returned(R.EndOfStream)
               else if s.end.Reset? then Returned(R.RecvError)
               else Looping
  {
    var s := Run(Detached, labels);
    EveryRunKeeps(Detached, labels);
    var rx := s.rx;
    run, s := RecvActs(labels, s, LockRecv(id));
    run, s := RecvActs(run, s, Pull(id, |s.rx.unread|));
    NextMessage(rx.arrived, rx.got, rx.recvBuf + rx.unread);
    PulledEnough(rx, id);
    run, s := RecvActs(run, s, RecvReturns(id));
    assert Run(Detached, run) == s;
  }

  /** After one pull of everything, the buffer shows the first message of all bytes held. */
  lemma PulledEnough(s: Receiving, id: Id)
    requires id in s.tasks && s.tasks[id].Queued? && s.lock.None?
    ensures var t := RecvStep(RecvStep(s, LockRecv(id)), Pull(id, |s.unread|)); var held := s.recvBuf + s.unread;
            && t.tasks == s.tasks[id := Looping] && t.arrived == s.arrived && t.end == s.end && t.got == s.got
            && (Take(held).None? ==> Take(t.recvBuf).None? && t.unread == [])
            && (Take(held).Some? ==> Take(t.recvBuf).Some? && Take(t.recvBuf).value.body == Take(held).value.body)
  {
    assert s.unread[..|s.unread|] == s.unread;
    if Take(s.recvBuf).Some? {
      TakeStable(s.recvBuf, s.unread);
    }
  }

  /** A whole message in the buffer waits for a receiver to return it; no one reads on past it. */
  lemma WholeMessageWaits(mode: Mode, labels: seq<Label>, l: Label)
    requires Take(Run(mode, labels).rx.recvBuf).Some? && !l.RecvReturns?
    ensures Run(mode, labels + [l]).rx.recvBuf == Run(mode, labels).rx.recvBuf
  {
    RunSnoc(mode, labels, l);
  }

  /** The next message of a stream read faithfully so far is the first of the bytes held. */
  lemma NextMessage(whole: seq<byte>, got: seq<Body>, held: seq<byte>)
    requires ReadSoFar(whole, got, held)
    ensures got <= Parse(whole).messages
    ensures |got| < |Parse(whole).messages| <==> Take(held).Some?
    ensures Take(held).Some? ==> Parse(whole).messages[|got|] == Take(held).value.body
  {
    if Take(held).Some? {
      ParseHead(held, Take(held).value);
    }
  }

  /** A new call waits for its lock ... */
  lemma NewCallsWait(s: State, id: Id, call: SendCall)
    ensures id !in s.tx.calls ==>
              var t := Step(Detached, s, CallSend(id, call)).tx;
              id in t.phases && t.phases[id].Waiting? && id in t.calls && t.calls[id] == call
    ensures id !in s.rx.tasks ==>
              var t := Step(Detached, s, CallRecv(id)).rx; id in t.tasks && t.tasks[id].Queued?
  {
  }

  /** ... and what arrives before the end of the stream is there to be received. */
  lemma ArrivalsCount(s: State, bytes: seq<byte>, end: R.End)
    requires s.rx.end.Open?
    ensures Step(Detached, s, Arrive(bytes)).rx.arrived == s.rx.arrived + bytes
    ensures Step(Detached, s, StreamEnds(end)).rx.end == end
  {
  }
}
