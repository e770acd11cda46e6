/** The spin-free UDP socket: one receive poll against tokio's readiness rules, the loop it
    replaces, the driver above it, and the two error counters. */
module SpinFree {
  import opened Sequences

  // ---- Classification ---------------------------------------------------------------------

  datatype ErrorKind = WouldBlock | ConnectionReset | Other | AnyKind(code: int)

  /** An I/O error: its kind and, when the system reported one, its raw number. */
  datatype IoError = IoError(kind: ErrorKind, raw: Option<int>)

  datatype Result<+T> = Ok(value: T) | Err(error: IoError)

  datatype RecvDisposition = Deliver(n: nat) | Park | FailEndpoint

  function RecvDispositionOf(r: Result<nat>): RecvDisposition
  {
    match r
    case Ok(n) => Deliver(n)
    case Err(e) => if e.kind == WouldBlock then Park else FailEndpoint
  }

  /** The error a failed receive leaves the socket with: a connection reset, which the driver above
      would ignore and retry, is turned into an error of kind `Other`. */
  function EndpointReceiveError(e: IoError): (r: IoError)
    ensures r.kind != ConnectionReset
    ensures e.kind != ConnectionReset ==> r == e
    ensures e.kind == ConnectionReset ==> r.kind == Other
  {
    if e.kind == ConnectionReset then IoError(Other, None) else e
  }

  datatype SendDisposition = Sent | SendWouldBlock | ProbeTooLarge | SendFailed

  /** `emsgsize` is the system's number for a datagram too large for the path. */
  function SendDispositionOf(r: Result<()>, emsgsize: int): SendDisposition
  {
    match r
    case Ok(_) => Sent
    case Err(e) =>
      if e.kind == WouldBlock then SendWouldBlock
      else if e.raw == Some(emsgsize) then ProbeTooLarge
      else SendFailed
  }

  // ---- Readiness --------------------------------------------------------------------------

  datatype Ready = NotReady | IsReady | ReadyError(error: IoError)

  /** The registered socket as one poll sees it. The environment is three oracles: what the kernel
      answers to the n-th receive attempt, when the reactor delivers one of the readiness events it
      still has, and whether the n-th wait for readiness itself fails. */
  class UdpIo {
    const kernel: nat -> Result<nat>
    const arrives: nat -> bool
    const breaks: nat -> Option<IoError>

    var ready: bool
    var events: nat             // readiness events the reactor will still deliver
    var clock: nat              // how often the reactor has been looked at
    var waits: nat              // waits for readiness made
    var attempts: nat           // receive attempts made

    constructor (kernel: nat -> Result<nat>, arrives: nat -> bool, breaks: nat -> Option<IoError>, ready: bool, events: nat)
      ensures this.kernel == kernel && this.arrives == arrives && this.breaks == breaks
      ensures this.ready == ready && this.events == events && clock == 0 && waits == 0 && attempts == 0
    {
      this.kernel, this.arrives, this.breaks := kernel, arrives, breaks;
      this.ready, this.events, this.clock, this.waits, this.attempts := ready, events, 0, 0, 0;
    }

    /** How many more attempts readiness can justify. */
    ghost function Fuel(): nat
      reads this
    {
      events + if ready then 1 else 0
    }

    /** The reactor may deliver one of its events now. */
    method React()
      modifies this`ready, this`events, this`clock
      ensures Fuel() <= old(Fuel()) && (old(ready) ==> ready) && clock == old(clock) + 1
      ensures old(events) == 0 ==> ready == old(ready)
    {
      if events > 0 && arrives(clock) {
        ready, events := true, events - 1;
      }
      clock := clock + 1;
    }

    method PollRecvReady() returns (r: Ready)
      modifies this`ready, this`events, this`clock, this`waits
      ensures Fuel() <= old(Fuel()) && (old(ready) ==> ready) && waits == old(waits) + 1
      ensures r.ReadyError? ==> breaks(old(waits)) == Some(r.error)
      ensures !r.ReadyError? ==> breaks(old(waits)) == None && (r.IsReady? <==> ready)
    {
      React();
      r := match breaks(waits)
        case Some(e) => ReadyError(e)
        case None => if ready then IsReady else NotReady;
      waits := waits + 1;
    }

    /** Attempts to receive; only an attempt that would block clears the readiness, and an event may
        set it again at once. */
    method TryRecv() returns (r: Result<nat>)
      requires ready
      modifies this`ready, this`events, this`clock, this`attempts
      ensures r == kernel(old(attempts)) && attempts == old(attempts) + 1
      ensures r.Err? && r.error.kind == WouldBlock ==> Fuel() < old(Fuel())
      ensures r.Ok? || r.error.kind != WouldBlock ==> ready && Fuel() <= old(Fuel())
    {
      r := kernel(attempts);
      attempts := attempts + 1;
      if r.Err? && r.error.kind == WouldBlock {
        ready := false;
      }
      React();
    }
  }

  /** The process-wide counters. */
  class Counters {
    var recvErrors: nat
    var sendErrors: nat

    constructor ()
      ensures recvErrors == 0 && sendErrors == 0
    {
      recvErrors, sendErrors := 0, 0;
    }
  }

  datatype Poll = Pending | Datagrams(n: nat) | PollError(error: IoError)

  /** Whether the last receive attempt of a poll, if any, failed other than by blocking. */
  ghost predicate AttemptFailed(io: UdpIo, before: nat)
    reads io
  {
    io.attempts > before && io.kernel(io.attempts - 1).Err? && io.kernel(io.attempts - 1).error.kind != WouldBlock
  }

  class SpinFreeUdpSocket {
    const io: UdpIo
    const counters: Counters
    const emsgsize: int
    var received: nat           // datagrams delivered on this socket

    constructor (io: UdpIo, counters: Counters, emsgsize: int)
      ensures this.io == io && this.counters == counters && this.emsgsize == emsgsize && received == 0
    {
      this.io, this.counters, this.emsgsize := io, counters, emsgsize;
      this.received := 0;
    }

    /** One poll. It makes at most one attempt more than the readiness events that come in, every
        attempt but the last would have blocked, and any other outcome ends it at once: datagrams
        are counted on this socket; a failed attempt adds one to the receive errors and never leaves
        as a connection reset. Every wait but the last came back without an error; an error of the
        last one leaves uncounted and as it is. Pending is only reported by a wait, which is what wakes
        the task again. */
    method PollRecv() returns (r: Poll)
      modifies this`received, io, counters`recvErrors
      ensures old(io.attempts) <= io.attempts && old(io.waits) < io.waits
      ensures io.attempts - old(io.attempts) <= old(io.Fuel()) <= 1 + old(io.events)
      ensures forall k :: old(io.attempts) <= k < io.attempts - 1 ==> io.kernel(k).Err? && io.kernel(k).error.kind == WouldBlock
      ensures forall k :: old(io.attempts) <= k < io.attempts && io.kernel(k).Err? && io.kernel(k).error.kind != WouldBlock
                      ==> && k == io.attempts - 1 && r == PollError(EndpointReceiveError(io.kernel(k).error))
                          && counters.recvErrors == old(counters.recvErrors) + 1
      ensures forall k :: old(io.waits) <= k < io.waits - 1 ==> io.breaks(k).None?
      ensures old(io.ready) && io.breaks(old(io.waits)) == None ==> io.attempts > old(io.attempts)
      ensures r.Datagrams? <==> io.attempts > old(io.attempts) && io.kernel(io.attempts - 1).Ok?
      ensures r.Datagrams? ==> Ok(r.n) == io.kernel(io.attempts - 1)
      ensures received == old(received) + if r.Datagrams? then r.n else 0
      ensures counters.recvErrors == old(counters.recvErrors) + if AttemptFailed(io, old(io.attempts)) then 1 else 0
      ensures r.PollError? && !AttemptFailed(io, old(io.attempts)) <==> io.breaks(io.waits - 1).Some?
      ensures io.breaks(io.waits - 1).Some? ==> r == PollError(io.breaks(io.waits - 1).value)
      ensures io.breaks(old(io.waits)).Some? ==>
                io.waits == old(io.waits) + 1 && io.attempts == old(io.attempts) && (old(io.ready) ==> io.ready)
      ensures r.Pending? ==> !io.ready && io.waits - old(io.waits) == io.attempts - old(io.attempts) + 1
    {
      while true
        invariant old(io.attempts) <= io.attempts && old(io.waits) <= io.waits
        invariant io.attempts - old(io.attempts) == io.waits - old(io.waits)
        invariant io.attempts - old(io.attempts) + io.Fuel() <= old(io.Fuel())
        invariant forall k :: old(io.attempts) <= k < io.attempts ==> io.kernel(k).Err? && io.kernel(k).error.kind == WouldBlock
        invariant forall k :: old(io.waits) <= k < io.waits ==> io.breaks(k).None?
        invariant received == old(received) && counters.recvErrors == old(counters.recvErrors)
        invariant io.waits == old(io.waits) ==> io.ready == old(io.ready)
        decreases io.Fuel()
      {
        var readiness := io.PollRecvReady();
        if readiness.NotReady? {
          return Pending;
        }
        if readiness.ReadyError? {
          return PollError(readiness.error);
        }
        var result := io.TryRecv();
        match RecvDispositionOf(result) {
          case Deliver(n) =>
            received := received + n;
            return Datagrams(n);
          case Park =>
          case FailEndpoint =>
            counters.recvErrors := counters.recvErrors + 1;
            return PollError(EndpointReceiveError(result.error));
        }
      }
    }

    /** Classifies the outcome of one send attempt. Only backpressure is reported; only a datagram
        that could not leave, and was not an oversized probe, is counted. */
    method TrySend(result: Result<()>) returns (r: Result<()>)
      modifies counters`sendErrors
      ensures r.Err? <==> result.Err? && result.error.kind == WouldBlock
      ensures r.Err? ==> r == result
      ensures counters.sendErrors == old(counters.sendErrors)
                + if result.Err? && result.error.kind != WouldBlock && result.error.raw != Some(emsgsize) then 1 else 0
    {
      match SendDispositionOf(result, emsgsize) {
        case Sent => r := Ok(());
        case ProbeTooLarge => r := Ok(());
        case SendWouldBlock => r := result;
        case SendFailed =>
          counters.sendErrors := counters.sendErrors + 1;
          r := Ok(());
      }
    }
  }

  // ---- The loop this replaces, and the driver above ---------------------------------------

  /** The receive loop of quinn's own socket, cut off after `turns` turns: it returns datagrams,
      parks when not ready, and otherwise loops. `None`: still looping. */
  method QuinnPollRecv(io: UdpIo, turns: nat) returns (r: Option<Poll>)
    modifies io
    ensures (forall k :: io.kernel(k).Err? && io.kernel(k).error.kind != WouldBlock) && (forall k :: io.breaks(k) == None) && old(io.ready)
            ==> r == None && io.attempts == old(io.attempts) + turns
  {
    ghost var spins := (forall k :: io.kernel(k).Err? && io.kernel(k).error.kind != WouldBlock) && (forall k :: io.breaks(k) == None) && io.ready;
    for turn := 0 to turns
      invariant spins ==> io.ready && io.attempts == old(io.attempts) + turn
    {
      var readiness := io.PollRecvReady();
      if readiness.NotReady? {
        return Some(Pending);
      }
      if readiness.ReadyError? {
        return Some(PollError(readiness.error));
      }
      var result := io.TryRecv();
      if result.Ok? {
        return Some(Datagrams(result.value));
      }
    }
    r := None;
  }

  /** How many of the waits from `lo` to `hi` reported a connection reset. */
  function Resets(breaks: nat -> Option<IoError>, lo: nat, hi: nat): nat
    decreases hi
  {
    if hi <= lo then 0 else Resets(breaks, lo, hi - 1) + if IsReset(breaks(hi - 1)) then 1 else 0
  }

  predicate Fails(r: Result<nat>)
  {
    r.Err? && r.error.kind != WouldBlock
  }

  predicate IsReset(e: Option<IoError>)
  {
    e.Some? && e.value.kind == ConnectionReset
  }

  lemma {:induction false} NoResets(breaks: nat -> Option<IoError>, lo: nat, mid: nat, hi: nat)
    requires lo <= mid <= hi && forall k :: mid <= k < hi ==> !IsReset(breaks(k))
    ensures Resets(breaks, lo, hi) == Resets(breaks, lo, mid)
    decreases hi
  {
    if mid < hi {
      NoResets(breaks, lo, mid, hi - 1);
    }
  }

  lemma {:induction false} AllResets(breaks: nat -> Option<IoError>, lo: nat, hi: nat)
    requires lo <= hi
    ensures Resets(breaks, lo, hi) <= hi - lo
    ensures Resets(breaks, lo, hi) == hi - lo <==> forall k :: lo <= k < hi ==> IsReset(breaks(k))
    decreases hi
  {
    if lo < hi {
      AllResets(breaks, lo, hi - 1);
    }
  }

  /** One turn of the driver: a poll, and whether it is retried - exactly when the last wait for
      readiness reported a connection reset, and then no attempt was made that did not block. */
  method DriverTurn(socket: SpinFreeUdpSocket) returns (poll: Poll, again: bool)
    modifies socket`received, socket.io, socket.counters`recvErrors
    ensures old(socket.io.attempts) <= socket.io.attempts && old(socket.io.waits) < socket.io.waits
    ensures again <==> poll.PollError? && poll.error.kind == ConnectionReset
    ensures again <==> IsReset(socket.io.breaks(socket.io.waits - 1))
    ensures forall k :: old(socket.io.waits) <= k < socket.io.waits - 1 ==> !IsReset(socket.io.breaks(k))
    ensures forall k :: old(socket.io.attempts) <= k < socket.io.attempts - (if again then 0 else 1)
                    ==> socket.io.kernel(k).Err? && socket.io.kernel(k).error.kind == WouldBlock
    ensures AttemptFailed(socket.io, old(socket.io.attempts))
            ==> poll == PollError(EndpointReceiveError(socket.io.kernel(socket.io.attempts - 1).error))
    ensures socket.counters.recvErrors == old(socket.counters.recvErrors)
              + if AttemptFailed(socket.io, old(socket.io.attempts)) then 1 else 0
    ensures again && old(socket.io.ready) && Fails(socket.io.kernel(old(socket.io.attempts))) ==>
              socket.io.ready && socket.io.attempts == old(socket.io.attempts) && socket.io.waits == old(socket.io.waits) + 1
  {
    poll := socket.PollRecv();
    again := poll.PollError? && poll.error.kind == ConnectionReset;
    assert again && socket.io.attempts > old(socket.io.attempts)
           ==> socket.io.kernel(socket.io.attempts - 1).Err? && socket.io.kernel(socket.io.attempts - 1).error.kind == WouldBlock;
  }

  /** The endpoint driver: it retries exactly when a poll reports a connection reset. Cut off after
      `polls` polls; `None`: still retrying. In every environment it polls once more than waits for
      readiness reported a reset; a failed receive attempt is the last attempt of all, is counted
      once and ends the driver. When the socket is ready and its next receive would fail, it keeps
      retrying exactly if each of the next `polls` waits reports a reset. */
  method Drive(socket: SpinFreeUdpSocket, polls: nat) returns (r: Option<Poll>, done: nat)
    requires polls > 0
    modifies socket`received, socket.io, socket.counters`recvErrors
    ensures 0 < done <= polls && old(socket.io.waits) <= socket.io.waits && old(socket.io.attempts) <= socket.io.attempts
    ensures r.None? ==> done == polls
    ensures r.Some? ==> !(r.value.PollError? && r.value.error.kind == ConnectionReset)
    ensures done == Resets(socket.io.breaks, old(socket.io.waits), socket.io.waits) + if r.Some? then 1 else 0
    ensures forall k :: old(socket.io.attempts) <= k < socket.io.attempts - 1
                    ==> socket.io.kernel(k).Err? && socket.io.kernel(k).error.kind == WouldBlock
    ensures forall k :: old(socket.io.attempts) <= k < socket.io.attempts
                        && socket.io.kernel(k).Err? && socket.io.kernel(k).error.kind != WouldBlock
                    ==> && k == socket.io.attempts - 1 && r == Some(PollError(EndpointReceiveError(socket.io.kernel(k).error)))
                        && socket.counters.recvErrors == old(socket.counters.recvErrors) + 1
    ensures socket.counters.recvErrors == old(socket.counters.recvErrors)
              + if AttemptFailed(socket.io, old(socket.io.attempts)) then 1 else 0
    ensures old(socket.io.ready) && Fails(socket.io.kernel(old(socket.io.attempts))) ==>
              (r.None? <==> forall k :: old(socket.io.waits) <= k < old(socket.io.waits) + polls ==> IsReset(socket.io.breaks(k)))
  {
    done := 0;
    r := None;
    ghost var first, firstWait := socket.io.attempts, socket.io.waits;
    ghost var failing := socket.io.ready && Fails(socket.io.kernel(first));
    while done < polls
      invariant done <= polls && r == None
      invariant first <= socket.io.attempts && firstWait <= socket.io.waits
      invariant forall k :: first <= k < socket.io.attempts ==> socket.io.kernel(k).Err? && socket.io.kernel(k).error.kind == WouldBlock
      invariant socket.counters.recvErrors == old(socket.counters.recvErrors)
      invariant done == Resets(socket.io.breaks, firstWait, socket.io.waits)
      invariant failing ==> socket.io.ready && socket.io.attempts == first && socket.io.waits == firstWait + done
      invariant failing ==> forall k :: firstWait <= k < firstWait + done ==> IsReset(socket.io.breaks(k))
    {
      ghost var wait := socket.io.waits;
      var poll, again := DriverTurn(socket);
      NoResets(socket.io.breaks, firstWait, wait, socket.io.waits - 1);
      done := done + 1;
      if !again {
        assert !IsReset(socket.io.breaks(wait));
        r := Some(poll);
        return;
      }
    }
    AllResets(socket.io.breaks, firstWait, socket.io.waits);
  }
}
