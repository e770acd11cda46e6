/** `proxy_request` between a sending and receiving client and an echoing upstream, as one system
    of steps. The environment chooses every interleaving, every cut of the byte streams and every
    failure; the two pumps, the bounded channel and the client's loops are the source's own. */
module Proxy {
  import opened Sequences
  import opened Grpc
  import G = ResponseGrammar

  /** Capacity of the channel between pump A and the upstream request body. */
  const CHANNEL_CAPACITY := 64

  /** Why pump A stopped. */
  datatype Cause = HalfClosed | ReadError | UpstreamGone | Aborted

  /** Pump A: waiting in `recv_data`, waiting to send the chunk it read, or stopped. */
  datatype PumpA = Reading | Holding(chunk: seq<byte>) | Ended(cause: Cause)

  /** Client to upstream: the client's send side, pump A and the channel. */
  datatype Uplink = Uplink(
    sent: seq<Body>,            // messages the client sent, in order
    clientFin: bool,            // the client half-closed
    wire: seq<byte>,            // written by the client, not yet read by pump A
    pumpA: PumpA,
    queue: seq<seq<byte>>,      // the channel
    receiverGone: bool,         // the upstream request body was dropped
    delivered: seq<byte>,       // bytes the upstream took out of the channel
    dropped: seq<byte>)         // bytes read from the client that no one will deliver

  /** The main task of `proxy_request`, from waiting for the upstream's answer to its return. */
  datatype PumpB =
    | Awaiting | Replying | Forwarding | Carrying(data: seq<byte>) | CarryingTrailers
    | Finishing | Finished | Returned | Failed(lost: seq<byte>)

  datatype BodyFrame = DataFrame(bytes: seq<byte>) | TrailersFrame

  /** The upstream: echoing, ended after its request body ended and all was echoed, ended early,
      or failed in the middle of its response body. */
  datatype Upstream = Serving | Complete | CutShort | Broken

  /** Upstream to client: the echoing upstream and pump B. */
  datatype Downlink = Downlink(
    upstream: Upstream,
    toEcho: seq<byte>,          // delivered, not yet echoed
    body: seq<BodyFrame>,       // response frames pump B has not taken
    pumpB: PumpB,
    out: seq<G.Out>)            // frames sent to the client

  /** The client's receive side. */
  datatype Reader = Reader(
    wire: seq<byte>,            // data bytes sent to the client, not yet received
    arrived: seq<byte>,         // data bytes received
    recvBuf: seq<byte>,
    received: seq<Body>,        // messages `recv_message` returned
    sawEnd: bool)               // `recv_message` returned end of stream

  datatype State = State(up: Uplink, down: Downlink, reader: Reader)

  const Init := State(Uplink([], false, [], Reading, [], false, [], []),
                      Downlink(Serving, [], [], Awaiting, []),
                      Reader([], [], [], [], false))

  datatype Label =
    // the client's send side
    | Send(message: Body) | HalfClose
    // pump A
    | ReadChunk(size: nat) | ReadEnd | ReadFails | Push | PushFails | AbortLands
    // the upstream
    | TakeChunk | DropBody | Echo(size: nat) | EndBody(complete: bool, trailers: bool) | Break
    // pump B
    | Answered | Refused | SendHeaders | NextFrame | BodyError | BodyEnds
    | SendData | SendTrailers | SendFin | AbortPumpA | DownFails
    // the client's receive loop
    | Arrive(size: nat) | TakeMessage | SeeEnd

  // ---- Steps; a step whose condition does not hold leaves the state alone ------------------

  /** Steps that change only the way up. `aborting`: pump B has asked for the abort. */
  function UpStep(u: Uplink, l: Label, aborting: bool): Uplink
  {
    match l
    case Send(m) => if u.clientFin then u else u.(sent := u.sent + [m], wire := u.wire + FrameOf(m))
    case HalfClose => u.(clientFin := true)
    case ReadChunk(n) =>
      if u.pumpA.Reading? && n <= |u.wire| then u.(pumpA := Holding(u.wire[..n]), wire := u.wire[n..]) else u
    case ReadEnd =>
      if u.pumpA.Reading? && u.clientFin && u.wire == [] then u.(pumpA := Ended(HalfClosed)) else u
    case ReadFails =>
      if u.pumpA.Reading? then u.(pumpA := Ended(ReadError)) else u
    case Push =>
      if u.pumpA.Holding? && !u.receiverGone && |u.queue| < CHANNEL_CAPACITY
      then u.(pumpA := Reading, queue := u.queue + [u.pumpA.chunk]) else u
    case PushFails =>
      if u.pumpA.Holding? && u.receiverGone
      then u.(pumpA := Ended(UpstreamGone), dropped := u.dropped + u.pumpA.chunk) else u
    case AbortLands =>
      if aborting && !u.pumpA.Ended?
      then u.(pumpA := Ended(Aborted), dropped := u.dropped + InHand(u.pumpA)) else u
    case DropBody =>
      u.(receiverGone := true, queue := [], dropped := Flatten(u.queue) + u.dropped)
    case _ => u
  }

  function TrailersOf(present: bool): seq<BodyFrame>
  {
    if present then [TrailersFrame] else []
  }

  /** Steps that change only the way down. `requestEnded`: the upstream has read its whole request
      body, that is, pump A dropped its sender and the channel is empty. */
  function DownStep(d: Downlink, l: Label, requestEnded: bool): Downlink
  {
    match l
    case Echo(n) =>
      if d.upstream.Serving? && n <= |d.toEcho|
      then d.(body := d.body + [DataFrame(d.toEcho[..n])], toEcho := d.toEcho[n..]) else d
    case EndBody(complete, trailers) =>
      if d.upstream.Serving? && (complete ==> requestEnded && d.toEcho == [])
      then d.(upstream := if complete then Complete else CutShort, body := d.body + TrailersOf(trailers)) else d
    case Break => if d.upstream.Serving? then d.(upstream := Broken) else d
    case Answered => if d.pumpB.Awaiting? then d.(pumpB := Replying) else d
    case Refused => if d.pumpB.Awaiting? then d.(pumpB := Failed([])) else d
    case SendHeaders => if d.pumpB.Replying? then d.(pumpB := Forwarding, out := d.out + [G.Headers]) else d
    case NextFrame =>
      if d.pumpB.Forwarding? && d.body != []
      then d.(body := d.body[1..],
              pumpB := if d.body[0].DataFrame? then Carrying(d.body[0].bytes) else CarryingTrailers) else d
    case BodyError => if d.pumpB.Forwarding? && d.upstream.Broken? then d.(pumpB := Failed([])) else d
    case BodyEnds => if d.pumpB.Forwarding? && d.body == [] && BodyEnded(d) then d.(pumpB := Finishing) else d
    case SendTrailers => if d.pumpB.CarryingTrailers? then d.(pumpB := Forwarding, out := d.out + [G.Trailers]) else d
    case SendFin => if d.pumpB.Finishing? then d.(pumpB := Finished, out := d.out + [G.Fin]) else d
    case AbortPumpA => if d.pumpB.Finished? then d.(pumpB := Returned) else d
    case DownFails =>
      if d.pumpB.Replying? || d.pumpB.Carrying? || d.pumpB.CarryingTrailers? || d.pumpB.Finishing?
      then d.(pumpB := Failed(Carried(d.pumpB))) else d
    case _ => d
  }

  /** Steps of the client's receive loop: it reads more only when no whole frame is buffered, and
      it sees the end once all data sent before the trailers or the FIN has arrived. */
  function ReaderStep(r: Reader, l: Label, noMoreData: bool): Reader
  {
    match l
    case Arrive(n) =>
      if Take(r.recvBuf).None? && n <= |r.wire|
      then r.(arrived := r.arrived + r.wire[..n], recvBuf := r.recvBuf + r.wire[..n], wire := r.wire[n..]) else r
    case TakeMessage =>
      (match Take(r.recvBuf)
       case Some(cut) => r.(recvBuf := cut.rest, received := r.received + [cut.body])
       case None => r)
    case SeeEnd =>
      if Take(r.recvBuf).None? && r.wire == [] && noMoreData then r.(sawEnd := true) else r
    case _ => r
  }

  function Step(s: State, l: Label): State
  {
    match l
    case TakeChunk =>
      if s.down.upstream.Serving? && s.up.queue != []
      then s.(up := s.up.(queue := s.up.queue[1..], delivered := s.up.delivered + s.up.queue[0]),
              down := s.down.(toEcho := s.down.toEcho + s.up.queue[0])) else s
    case SendData =>
      if s.down.pumpB.Carrying?
      then s.(down := s.down.(pumpB := Forwarding, out := s.down.out + [G.Data(s.down.pumpB.data)]),
              reader := s.reader.(wire := s.reader.wire + s.down.pumpB.data)) else s
    case _ =>
      State(UpStep(s.up, l, s.down.pumpB.Returned?), DownStep(s.down, l, RequestEnded(s.up)),
            ReaderStep(s.reader, l, NoMoreData(s.down)))
  }

  predicate RequestEnded(u: Uplink)
  {
    !u.receiverGone && u.pumpA.Ended? && u.queue == []
  }

  predicate BodyEnded(d: Downlink)
  {
    d.upstream.Complete? || d.upstream.CutShort?
  }

  predicate NoMoreData(d: Downlink)
  {
    G.PhaseOf(d.out).Tail? || G.PhaseOf(d.out).Closed?
  }

  function Run(labels: seq<Label>): State
  {
    if labels == [] then Init else Step(Run(labels[..|labels| - 1]), labels[|labels| - 1])
  }

  // ---- What every run keeps ---------------------------------------------------------------

  function InHand(p: PumpA): seq<byte>
  {
    if p.Holding? then p.chunk else []
  }

  function Carried(p: PumpB): seq<byte>
  {
    match p
    case Carrying(data) => data
    case Failed(lost) => lost
    case _ => []
  }

  function BodyBytes(frames: seq<BodyFrame>): seq<byte>
  {
    if frames == [] then []
    else (if frames[0].DataFrame? then frames[0].bytes else []) + BodyBytes(frames[1..])
  }

  /** Pump conservation: the bytes written by the client are, in order, those the upstream took,
      those queued, those dropped, the chunk in hand and those not yet read. */
  ghost predicate UpConserved(u: Uplink)
  {
    WireOf(u.sent) == u.delivered + (Flatten(u.queue) + (u.dropped + (InHand(u.pumpA) + u.wire)))
  }

  /** The queue is bounded, and bytes are dropped only once the receiver is gone or pump A was
      aborted. */
  ghost predicate UpDiscipline(u: Uplink)
  {
    && |u.queue| <= CHANNEL_CAPACITY
    && (u.receiverGone ==> u.queue == [])
    && (u.dropped != [] ==> u.receiverGone || u.pumpA == Ended(Aborted))
    && (u.pumpA == Ended(UpstreamGone) ==> u.receiverGone)
    && (u.pumpA == Ended(HalfClosed) ==> u.clientFin && u.wire == [])
  }

  /** Bytes taken by the upstream are, in order, those the client has, those on the way, the frame
      pump B carries, those in the response body and those not yet echoed. */
  ghost predicate DownConserved(delivered: seq<byte>, d: Downlink, r: Reader)
  {
    delivered == r.arrived + (r.wire + (Carried(d.pumpB) + (BodyBytes(d.body) + d.toEcho)))
  }

  /** Trailers are the last frame of an ended response body; pump B's position in its code agrees
      with the frames it has sent. */
  ghost predicate DownDiscipline(d: Downlink)
  {
    var phase := G.PhaseOf(d.out);
    && (forall i :: 0 <= i < |d.body| && d.body[i].TrailersFrame? ==> i == |d.body| - 1 && BodyEnded(d))
    && (d.upstream.Complete? ==> d.toEcho == [])
    && (match d.pumpB
        case Awaiting => phase.Start?
        case Replying => phase.Start?
        case Forwarding => phase.Body? || phase.Tail?
        case Carrying(_) => phase.Body?
        case CarryingTrailers => phase.Body? && d.body == [] && BodyEnded(d)
        case Finishing => phase.Body? || phase.Tail?
        case Finished => phase.Closed?
        case Returned => phase.Closed?
        case Failed(lost) => phase.Start? || phase.Body? || (phase.Tail? && lost == []))
    && (d.pumpB.Finishing? || phase.Tail? || phase.Closed? ==> d.body == [] && BodyEnded(d))
  }

  /** The reader returned exactly the messages of the bytes it received. */
  ghost predicate ReaderFaithful(r: Reader)
  {
    ReadSoFar(r.arrived, r.received, r.recvBuf)
  }

  /** The DATA frames sent carry exactly the bytes the client has or will receive. */
  ghost predicate FramesCarryBytes(d: Downlink, r: Reader)
  {
    Flatten(G.Payloads(d.out)) == r.arrived + r.wire
  }

  /** What the three parts know about each other. */
  ghost predicate PumpsLinked(u: Uplink, d: Downlink)
  {
    && (d.upstream.Complete? ==> u.dropped == [] && u.queue == [])
    && (d.upstream.Complete? ==> u.pumpA == Ended(HalfClosed) || u.pumpA == Ended(ReadError))
    && (u.pumpA == Ended(Aborted) ==> d.pumpB.Returned?)
  }

  ghost predicate EndLinked(d: Downlink, r: Reader)
  {
    r.sawEnd ==> Take(r.recvBuf).None? && r.wire == [] && NoMoreData(d)
  }

  ghost predicate Linked(s: State)
  {
    PumpsLinked(s.up, s.down) && EndLinked(s.down, s.reader)
  }

  ghost predicate Inv(s: State)
  {
    && UpConserved(s.up) && UpDiscipline(s.up)
    && DownConserved(s.up.delivered, s.down, s.reader) && DownDiscipline(s.down)
    && ReaderFaithful(s.reader) && FramesCarryBytes(s.down, s.reader) && Linked(s)
  }

  lemma Regroup<T>(a: seq<T>, b: seq<T>, c: seq<T>, d: seq<T>)
    ensures a + (b + (c + d)) == (a + b) + (c + d)
    ensures a + (b + (c + d)) == a + ((b + c) + d)
    ensures (a + (b + c)) + d == a + (b + (c + d))
  {
  }

  lemma {:induction false} BodyBytesConcat(a: seq<BodyFrame>, b: seq<BodyFrame>)
    ensures BodyBytes(a + b) == BodyBytes(a) + BodyBytes(b)
  {
    if a == [] {
      assert a + b == b;
    } else {
      var bytes := if a[0].DataFrame? then a[0].bytes else [];
      BodyBytesConcat(a[1..], b);
      assert (a + b)[0] == a[0] && (a + b)[1..] == a[1..] + b;
      assert BodyBytes(a + b) == bytes + (BodyBytes(a[1..]) + BodyBytes(b));
      SeqAssociates(bytes, BodyBytes(a[1..]), BodyBytes(b));
    }
  }

  // The way up.

  lemma SendKeepsUp(u: Uplink, m: Body)
    requires UpConserved(u) && !u.clientFin
    ensures UpConserved(u.(sent := u.sent + [m], wire := u.wire + FrameOf(m)))
  {
    WireOfConcat(u.sent, [m]);
    assert WireOf([m]) == FrameOf(m) + WireOf([]) == FrameOf(m);
    var hand, frame := InHand(u.pumpA), FrameOf(m);
    Regroup(u.dropped, hand, u.wire, frame);
    Regroup(u.delivered, Flatten(u.queue), u.dropped + (hand + u.wire), frame);
  }

  lemma PushKeepsUp(u: Uplink)
    requires UpConserved(u) && u.pumpA.Holding? && u.dropped == []
    ensures UpConserved(u.(pumpA := Reading, queue := u.queue + [u.pumpA.chunk]))
  {
    var chunk := u.pumpA.chunk;
    FlattenSnoc(u.queue, chunk);
    SeqAssociates(Flatten(u.queue), chunk, u.wire);
    assert [] + (chunk + u.wire) == chunk + u.wire;
    assert [] + ([] + u.wire) == u.wire;
  }

  lemma DropKeepsUp(u: Uplink)
    requires UpConserved(u)
    ensures UpConserved(u.(receiverGone := true, queue := [], dropped := Flatten(u.queue) + u.dropped))
  {
    var behind := InHand(u.pumpA) + u.wire;
    SeqAssociates(Flatten(u.queue), u.dropped, behind);
    assert Flatten<byte>([]) + ((Flatten(u.queue) + u.dropped) + behind) == (Flatten(u.queue) + u.dropped) + behind;
  }

  /** Moving bytes between the wire, the hand and the dropped ones keeps them all. */
  lemma MoveKeepsUp(u: Uplink, pumpA: PumpA, dropped: seq<byte>, wire: seq<byte>)
    requires UpConserved(u)
    requires dropped + (InHand(pumpA) + wire) == u.dropped + (InHand(u.pumpA) + u.wire)
    ensures UpConserved(u.(pumpA := pumpA, dropped := dropped, wire := wire))
  {
  }

  lemma ReadKeepsUp(u: Uplink, n: nat)
    requires UpConserved(u) && u.pumpA.Reading? && n <= |u.wire|
    ensures UpConserved(u.(pumpA := Holding(u.wire[..n]), wire := u.wire[n..]))
  {
    assert u.wire[..n] + u.wire[n..] == [] + u.wire;
    MoveKeepsUp(u, Holding(u.wire[..n]), u.dropped, u.wire[n..]);
  }

  lemma StopKeepsUp(u: Uplink, cause: Cause)
    requires UpConserved(u) && u.pumpA.Reading?
    ensures UpConserved(u.(pumpA := Ended(cause)))
  {
    MoveKeepsUp(u, Ended(cause), u.dropped, u.wire);
  }

  lemma UpStepKeeps(u: Uplink, l: Label, aborting: bool)
    requires UpConserved(u) && UpDiscipline(u)
    ensures UpConserved(UpStep(u, l, aborting)) && UpStep(u, l, aborting).delivered == u.delivered
  {
    if UpStep(u, l, aborting) != u {
      match l {
        case Send(m) => SendKeepsUp(u, m);
        case HalfClose => MoveKeepsUp(u.(clientFin := true), u.pumpA, u.dropped, u.wire);
        case ReadChunk(n) => ReadKeepsUp(u, n);
        case ReadEnd => StopKeepsUp(u, HalfClosed);
        case ReadFails => StopKeepsUp(u, ReadError);
        case Push => PushKeepsUp(u);
        case PushFails => LoseHandKeepsUp(u, UpstreamGone);
        case AbortLands => LoseHandKeepsUp(u, Aborted);
        case DropBody => DropKeepsUp(u);
      }
    }
  }

  lemma LoseHandKeepsUp(u: Uplink, cause: Cause)
    requires UpConserved(u)
    ensures UpConserved(u.(pumpA := Ended(cause), dropped := u.dropped + InHand(u.pumpA)))
  {
    SeqAssociates(u.dropped, InHand(u.pumpA), u.wire);
    assert [] + u.wire == u.wire;
    MoveKeepsUp(u, Ended(cause), u.dropped + InHand(u.pumpA), u.wire);
  }

  lemma UpStepKeepsDiscipline(u: Uplink, l: Label, aborting: bool)
    requires UpDiscipline(u)
    ensures UpDiscipline(UpStep(u, l, aborting))
  {
  }

  lemma TakeChunkKeeps(s: State)
    requires UpConserved(s.up) && DownConserved(s.up.delivered, s.down, s.reader)
    ensures UpConserved(Step(s, TakeChunk).up)
    ensures DownConserved(Step(s, TakeChunk).up.delivered, Step(s, TakeChunk).down, Step(s, TakeChunk).reader)
  {
    if s.down.upstream.Serving? && s.up.queue != [] {
      var u, d, r := s.up, s.down, s.reader;
      var chunk := u.queue[0];
      var behind := u.dropped + (InHand(u.pumpA) + u.wire);
      SeqAssociates(chunk, Flatten(u.queue[1..]), behind);
      SeqAssociates(u.delivered, chunk, Flatten(u.queue[1..]) + behind);
      var carried, body := Carried(d.pumpB), BodyBytes(d.body);
      Regroup(carried, body, d.toEcho, chunk);
      Regroup(r.arrived, r.wire, carried + (body + d.toEcho), chunk);
    }
  }

  // The way down.

  lemma EchoKeepsDown(delivered: seq<byte>, d: Downlink, r: Reader, n: nat)
    requires DownConserved(delivered, d, r) && n <= |d.toEcho|
    ensures DownConserved(delivered, d.(body := d.body + [DataFrame(d.toEcho[..n])], toEcho := d.toEcho[n..]), r)
  {
    var front := d.toEcho[..n];
    BodyBytesConcat(d.body, [DataFrame(front)]);
    assert BodyBytes([DataFrame(front)]) == front + BodyBytes([]) == front;
    EchoMoves(BodyBytes(d.body), d.toEcho, n);
    SameRestKeepsDown(delivered, d, d.(body := d.body + [DataFrame(front)], toEcho := d.toEcho[n..]), r);
  }

  lemma EchoMoves<T>(before: seq<T>, toEcho: seq<T>, n: nat)
    requires n <= |toEcho|
    ensures (before + toEcho[..n]) + toEcho[n..] == before + toEcho
  {
  }

  lemma SameRestKeepsDown(delivered: seq<byte>, d: Downlink, e: Downlink, r: Reader)
    requires DownConserved(delivered, d, r) && Carried(e.pumpB) == Carried(d.pumpB)
    requires BodyBytes(e.body) + e.toEcho == BodyBytes(d.body) + d.toEcho
    ensures DownConserved(delivered, e, r)
  {
  }

  lemma NextFrameKeepsDown(delivered: seq<byte>, d: Downlink, r: Reader)
    requires DownConserved(delivered, d, r) && d.pumpB.Forwarding? && d.body != []
    ensures DownConserved(delivered, DownStep(d, NextFrame, true), r)
  {
    var bytes := if d.body[0].DataFrame? then d.body[0].bytes else [];
    SeqAssociates(bytes, BodyBytes(d.body[1..]), d.toEcho);
  }

  lemma DownStepKeeps(delivered: seq<byte>, d: Downlink, r: Reader, l: Label, requestEnded: bool)
    requires DownConserved(delivered, d, r)
    ensures DownConserved(delivered, DownStep(d, l, requestEnded), r)
  {
    match l {
      case Echo(n) => if n <= |d.toEcho| { EchoKeepsDown(delivered, d, r, n); }
      case EndBody(complete, trailers) =>
        BodyBytesConcat(d.body, TrailersOf(trailers));
        assert BodyBytes(d.body) + [] == BodyBytes(d.body);
      case NextFrame =>
        if d.pumpB.Forwarding? && d.body != [] { NextFrameKeepsDown(delivered, d, r); }
      case _ =>
    }
  }

  lemma BodyStepKeepsDiscipline(d: Downlink, l: Label, requestEnded: bool)
    requires DownDiscipline(d) && (l.Echo? || l.EndBody? || l.Break? || l.NextFrame?)
    ensures DownDiscipline(DownStep(d, l, requestEnded))
  {
  }

  lemma DownStepKeepsDiscipline(d: Downlink, l: Label, requestEnded: bool)
    requires DownDiscipline(d)
    ensures DownDiscipline(DownStep(d, l, requestEnded))
  {
    if l.Echo? || l.EndBody? || l.Break? || l.NextFrame? {
      BodyStepKeepsDiscipline(d, l, requestEnded);
    } else {
      match l {
        case SendHeaders => G.PhaseSnoc(d.out, G.Headers);
        case SendTrailers => G.PhaseSnoc(d.out, G.Trailers);
        case SendFin => G.PhaseSnoc(d.out, G.Fin);
        case _ =>
      }
    }
  }

  lemma SendDataKeeps(s: State)
    requires DownConserved(s.up.delivered, s.down, s.reader) && DownDiscipline(s.down)
    ensures var t := Step(s, SendData); DownConserved(t.up.delivered, t.down, t.reader) && DownDiscipline(t.down)
  {
    if s.down.pumpB.Carrying? {
      var data := s.down.pumpB.data;
      G.PhaseSnoc(s.down.out, G.Data(data));
      var behind := BodyBytes(s.down.body) + s.down.toEcho;
      SeqAssociates(s.reader.wire, data, behind);
      assert [] + behind == behind;
    }
  }

  lemma DownStepKeepsPayloads(d: Downlink, l: Label, ended: bool)
    ensures Flatten(G.Payloads(DownStep(d, l, ended).out)) == Flatten(G.Payloads(d.out))
  {
    match l {
      case SendHeaders => G.PayloadsSnoc(d.out, G.Headers);
      case SendTrailers => G.PayloadsSnoc(d.out, G.Trailers);
      case SendFin => G.PayloadsSnoc(d.out, G.Fin);
      case _ =>
    }
  }

  lemma ReaderStepKeepsBytes(r: Reader, l: Label, noMore: bool)
    ensures ReaderStep(r, l, noMore).arrived + ReaderStep(r, l, noMore).wire == r.arrived + r.wire
  {
    if l.Arrive? && l.size <= |r.wire| {
      SeqAssociates(r.arrived, r.wire[..l.size], r.wire[l.size..]);
      assert r.wire == r.wire[..l.size] + r.wire[l.size..];
    }
  }

  lemma PartsKeepFrames(d: Downlink, r: Reader, l: Label, ended: bool, noMore: bool)
    requires FramesCarryBytes(d, r)
    ensures FramesCarryBytes(DownStep(d, l, ended), ReaderStep(r, l, noMore))
  {
    DownStepKeepsPayloads(d, l, ended);
    ReaderStepKeepsBytes(r, l, noMore);
  }

  lemma SendDataKeepsFrames(s: State)
    requires FramesCarryBytes(s.down, s.reader)
    ensures var t := Step(s, SendData); FramesCarryBytes(t.down, t.reader)
  {
    if s.down.pumpB.Carrying? {
      G.PayloadsSnoc(s.down.out, G.Data(s.down.pumpB.data));
    }
  }

  // The reader.

  lemma ReaderStepKeeps(delivered: seq<byte>, d: Downlink, r: Reader, l: Label, noMoreData: bool)
    requires DownConserved(delivered, d, r) && ReaderFaithful(r)
    ensures DownConserved(delivered, d, ReaderStep(r, l, noMoreData)) && ReaderFaithful(ReaderStep(r, l, noMoreData))
  {
    match l {
      case Arrive(n) =>
        if n <= |r.wire| {
          var front, back := r.wire[..n], r.wire[n..];
          ReadSoFarGrows(r.arrived, r.received, r.recvBuf, front);
          assert r.wire == front + back;
          var behind := Carried(d.pumpB) + (BodyBytes(d.body) + d.toEcho);
          SeqAssociates(front, back, behind);
          SeqAssociates(r.arrived, front, back + behind);
        }
      case TakeMessage =>
        if Take(r.recvBuf).Some? { ReadSoFarTakes(r.arrived, r.received, r.recvBuf, Take(r.recvBuf).value); }
      case _ =>
    }
  }

  // The links.

  /** A request body that ended with its receiver there was ended by the client or by a read error,
      and nothing of it was dropped. */
  lemma EndedByClient(u: Uplink, d: Downlink)
    requires UpDiscipline(u) && DownDiscipline(d) && PumpsLinked(u, d) && RequestEnded(u) && d.upstream.Serving?
    ensures (u.pumpA == Ended(HalfClosed) || u.pumpA == Ended(ReadError)) && u.dropped == []
  {
    assert u.pumpA != Ended(Aborted) && u.pumpA != Ended(UpstreamGone);
    match u.pumpA.cause {
      case HalfClosed =>
      case ReadError =>
      case UpstreamGone =>
      case Aborted =>
    }
  }

  lemma PartsKeepPumpsLinked(u: Uplink, d: Downlink, l: Label)
    requires UpDiscipline(u) && DownDiscipline(d) && PumpsLinked(u, d)
    ensures PumpsLinked(UpStep(u, l, d.pumpB.Returned?), DownStep(d, l, RequestEnded(u)))
  {
    var v, e := UpStep(u, l, d.pumpB.Returned?), DownStep(d, l, RequestEnded(u));
    if u.pumpA.Ended? {
      assert v.pumpA == u.pumpA;
    }
    if l.EndBody? {
      assert v == u;
      if d.upstream.Serving? && RequestEnded(u) {
        EndedByClient(u, d);
      }
    } else {
      assert e.upstream.Complete? ==> d.upstream.Complete?;
    }
  }

  lemma TakeChunkKeepsPumpsLinked(s: State)
    requires PumpsLinked(s.up, s.down)
    ensures PumpsLinked(Step(s, TakeChunk).up, Step(s, TakeChunk).down)
  {
  }

  lemma StepKeepsPumpsLinked(s: State, l: Label)
    requires UpDiscipline(s.up) && DownDiscipline(s.down) && PumpsLinked(s.up, s.down)
    ensures PumpsLinked(Step(s, l).up, Step(s, l).down)
  {
    if l.TakeChunk? {
      TakeChunkKeepsPumpsLinked(s);
    } else if l.SendData? {
      assert Step(s, l).up == s.up;
    } else {
      PartsKeepPumpsLinked(s.up, s.down, l);
    }
  }

  lemma PartsKeepEndLinked(d: Downlink, r: Reader, l: Label, ended: bool)
    requires DownDiscipline(d) && EndLinked(d, r)
    ensures EndLinked(DownStep(d, l, ended), ReaderStep(r, l, NoMoreData(d)))
  {
    if l.SendFin? {
      G.PhaseSnoc(d.out, G.Fin);
    }
  }

  lemma SendDataKeepsEndLinked(s: State)
    requires DownDiscipline(s.down) && EndLinked(s.down, s.reader)
    ensures EndLinked(Step(s, SendData).down, Step(s, SendData).reader)
  {
  }

  lemma StepKeepsLinked(s: State, l: Label)
    requires UpDiscipline(s.up) && DownDiscipline(s.down) && Linked(s)
    ensures Linked(Step(s, l))
  {
    StepKeepsPumpsLinked(s, l);
    if l.SendData? {
      SendDataKeepsEndLinked(s);
    } else if !l.TakeChunk? {
      PartsKeepEndLinked(s.down, s.reader, l, RequestEnded(s.up));
    }
  }

  lemma PartsKeep(u: Uplink, d: Downlink, r: Reader, l: Label, aborting: bool, ended: bool, noMore: bool)
    requires UpConserved(u) && UpDiscipline(u) && ReaderFaithful(r)
    requires DownConserved(u.delivered, d, r) && DownDiscipline(d)
    ensures UpConserved(UpStep(u, l, aborting)) && UpDiscipline(UpStep(u, l, aborting))
    ensures DownConserved(UpStep(u, l, aborting).delivered, DownStep(d, l, ended), ReaderStep(r, l, noMore))
    ensures DownDiscipline(DownStep(d, l, ended)) && ReaderFaithful(ReaderStep(r, l, noMore))
  {
    UpStepKeeps(u, l, aborting);
    UpStepKeepsDiscipline(u, l, aborting);
    DownStepKeeps(u.delivered, d, r, l, ended);
    DownStepKeepsDiscipline(d, l, ended);
    ReaderStepKeeps(u.delivered, DownStep(d, l, ended), r, l, noMore);
  }

  lemma StepKeeps(s: State, l: Label)
    requires Inv(s)
    ensures Inv(Step(s, l))
  {
    StepKeepsLinked(s, l);
    if l.TakeChunk? {
      TakeChunkKeeps(s);
    } else if l.SendData? {
      SendDataKeeps(s);
      SendDataKeepsFrames(s);
    } else {
      PartsKeepFrames(s.down, s.reader, l, RequestEnded(s.up), NoMoreData(s.down));
      PartsKeep(s.up, s.down, s.reader, l, s.down.pumpB.Returned?, RequestEnded(s.up), NoMoreData(s.down));
    }
  }

  /** Every run keeps the invariant, whatever the environment does. */
  lemma {:induction false} EveryRunKeeps(labels: seq<Label>)
    ensures Inv(Run(labels))
  {
    if labels != [] {
      EveryRunKeeps(labels[..|labels| - 1]);
      StepKeeps(Run(labels[..|labels| - 1]), labels[|labels| - 1]);
    }
  }

  // ---- Main results -----------------------------------------------------------------------

  /** Every byte the client sent that has not come back to it yet, in order. */
  function Outstanding(s: State): seq<byte>
  {
    s.reader.wire + (Carried(s.down.pumpB) + (BodyBytes(s.down.body) + s.down.toEcho))
    + (Flatten(s.up.queue) + (s.up.dropped + (InHand(s.up.pumpA) + s.up.wire)))
  }

  lemma SentSplits(s: State)
    requires UpConserved(s.up) && DownConserved(s.up.delivered, s.down, s.reader)
    ensures WireOf(s.up.sent) == s.reader.arrived + Outstanding(s)
  {
    var down := s.reader.wire + (Carried(s.down.pumpB) + (BodyBytes(s.down.body) + s.down.toEcho));
    var up := Flatten(s.up.queue) + (s.up.dropped + (InHand(s.up.pumpA) + s.up.wire));
    SeqAssociates(s.reader.arrived, down, up);
  }

  /** Messages arrive whole, in order and once: in every interleaving, for every chunking and every
      failure, what the receiver has is a prefix of what was sent. A receiver with no whole frame
      left has everything exactly when no byte is outstanding. */
  lemma ReceivedIsPrefix(labels: seq<Label>)
    requires AllFit(Run(labels).up.sent)
    ensures var s := Run(labels);
            && s.reader.received <= s.up.sent
            && (Take(s.reader.recvBuf).None? ==> (s.reader.received == s.up.sent <==> Outstanding(s) == []))
  {
    EveryRunKeeps(labels);
    var s := Run(labels);
    SentSplits(s);
    CutOfWire(s.up.sent, s.reader.arrived, Outstanding(s));
    var r := s.reader;
    assert Parse(r.arrived).messages == r.received + Parse(r.recvBuf).messages;
    if Take(r.recvBuf).None? {
      assert Parse(r.recvBuf).messages == [];
    }
  }

  /** Completeness. Once the receiver saw the end of a response that the upstream ended after its
      request body, everything was received exactly when pump A left no byte of the client unread -
      as after the half-close, which together with a read error is all that can have ended it. */
  lemma EndMeansAllIffNothingLeft(labels: seq<Label>)
    requires var s := Run(labels); s.reader.sawEnd && s.down.upstream.Complete? && AllFit(s.up.sent)
    ensures var s := Run(labels);
            && (s.reader.received == s.up.sent <==> s.up.wire == [])
            && (s.up.pumpA == Ended(HalfClosed) || s.up.pumpA == Ended(ReadError))
            && (s.up.pumpA == Ended(HalfClosed) ==> s.up.wire == [] && s.up.clientFin)
  {
    EveryRunKeeps(labels);
    ReceivedIsPrefix(labels);
    OnlyPumpALeaves(Run(labels));
  }

  lemma OnlyPumpALeaves(s: State)
    requires Inv(s) && s.reader.sawEnd && s.down.upstream.Complete?
    ensures Take(s.reader.recvBuf).None? && Outstanding(s) == s.up.wire
  {
    NothingDown(s);
    assert s.up.queue == [] && s.up.dropped == [] && InHand(s.up.pumpA) == [];
    assert [] + s.up.wire == s.up.wire;
  }

  lemma NothingDown(s: State)
    requires DownDiscipline(s.down) && Linked(s) && s.reader.sawEnd && s.down.upstream.Complete?
    ensures s.reader.wire + (Carried(s.down.pumpB) + (BodyBytes(s.down.body) + s.down.toEcho)) == []
  {
    assert s.down.body == [];
  }

  /** Pump conservation in every run: see `UpConserved` and `UpDiscipline`. */
  lemma PumpsConserve(labels: seq<Label>)
    ensures var u := Run(labels).up;
            && WireOf(u.sent) == u.delivered + (Flatten(u.queue) + (u.dropped + (InHand(u.pumpA) + u.wire)))
            && |u.queue| <= 64
            && (u.dropped != [] ==> u.receiverGone || u.pumpA == Ended(Aborted))
            && (u.pumpA == Ended(Aborted) ==> Run(labels).down.pumpB.Returned?)
  {
    EveryRunKeeps(labels);
  }

  /** The frames sent to the client are in every run a prefix of HEADERS DATA* [TRAILERS] FIN, and
      the whole of it exactly once `finish` has succeeded; their payloads are the bytes received
      and on the way. */
  lemma ResponseInOrder(labels: seq<Label>)
    ensures var d := Run(labels).down;
            && G.PrefixOfResponse(d.out)
            && Flatten(G.Payloads(d.out)) == Run(labels).reader.arrived + Run(labels).reader.wire
            && (G.CompleteResponse(d.out) <==> d.pumpB.Finished? || d.pumpB.Returned?)
  {
    EveryRunKeeps(labels);
    InOrderFromDiscipline(Run(labels).down);
  }

  lemma InOrderFromDiscipline(d: Downlink)
    requires DownDiscipline(d)
    ensures G.PrefixOfResponse(d.out) && (G.CompleteResponse(d.out) <==> d.pumpB.Finished? || d.pumpB.Returned?)
  {
    var phase := G.PhaseOf(d.out);
    assert phase != G.Invalid && (phase == G.Closed <==> d.pumpB.Finished? || d.pumpB.Returned?);
    G.ValidIffPrefixOfResponse(d.out);
    G.ClosedIffComplete(d.out);
  }

  /** `labels` lead to `s`, stated so that no run needs unfolding to use it. */
  ghost predicate Reaches(labels: seq<Label>, s: State)
  {
    forall run: seq<Label> :: run == labels ==> Run(run) == s
  }

  lemma Then(labels: seq<Label>, s: State, l: Label) returns (more: seq<Label>, t: State)
    requires Reaches(labels, s)
    ensures more == labels + [l] && t == Step(s, l) && Reaches(more, t)
  {
    more, t := labels + [l], Step(s, l);
    assert more[..|labels|] == labels;
    assert Run(labels) == s;
  }

  /** A clean end does not prove completeness: when reading from the client fails, the upstream's
      request body ends as after a half-close, and the client of this run gets headers, trailers,
      FIN and end of stream although its message never left the proxy. */
  lemma ReadErrorLooksClean(m: Body) returns (labels: seq<Label>)
    ensures var s := Run(labels);
            && s.up.sent == [m] && s.up.pumpA == Ended(ReadError) && s.down.upstream.Complete?
            && s.down.pumpB.Returned? && s.down.out == G.Response([], true)
            && s.reader.sawEnd && s.reader.received == []
  {
    var s;
    labels, s := ReadErrorRun(m);
    assert [G.Headers, G.Trailers, G.Fin] == G.Response([], true);
    assert Run(labels) == s;
  }

  lemma ReadErrorRun(m: Body) returns (labels: seq<Label>, s: State)
    ensures Reaches(labels, s)
    ensures s.up.sent == [m] && s.up.pumpA == Ended(ReadError)
    ensures s.down == Downlink(Complete, [], [], Returned, [G.Headers, G.Trailers, G.Fin])
    ensures s.reader == Init.reader.(sawEnd := true)
  {
    labels, s := [], Init;
    labels, s := Then(labels, s, Send(m));
    labels, s := Then(labels, s, ReadFails);
    labels, s := AnswerAtOnce(labels, s);
    labels, s := EndCleanly(labels, s, [G.Headers]);
    labels, s := SeeItEnd(labels, s);
  }

  /** And a run of the good case: the message goes all the way round and the response ends cleanly. */
  lemma MessageCanReturn(m: Body) returns (labels: seq<Label>)
    requires Fits(m)
    ensures var s := Run(labels);
            && s.up.sent == [m] && s.up.pumpA == Ended(HalfClosed) && s.down.upstream.Complete?
            && s.down.pumpB.Returned? && s.down.out == G.Response([FrameOf(m)], true)
            && s.reader.sawEnd && s.reader.received == [m]
  {
    var s;
    labels, s := MessageGoesUp(m);
    labels, s := MessageComesBack(labels, s, m);
    labels, s := EndCleanly(labels, s, [G.Headers, G.Data(FrameOf(m))]);
    labels, s := MessageArrives(labels, s, m);
    OneChunkIsClosed(FrameOf(m));
    assert Run(labels) == s;
  }

  lemma MessageGoesUp(m: Body) returns (labels: seq<Label>, s: State)
    ensures Reaches(labels, s)
    ensures s == State(Uplink([m], true, [], Ended(HalfClosed), [], false, FrameOf(m), []),
                       Init.down.(toEcho := FrameOf(m)), Init.reader)
  {
    labels, s := MessageIsQueued(m);
    labels, s := Then(labels, s, HalfClose);
    labels, s := Then(labels, s, ReadEnd);
    assert [] + FrameOf(m) == FrameOf(m);
    labels, s := Then(labels, s, TakeChunk);
  }

  lemma MessageIsQueued(m: Body) returns (labels: seq<Label>, s: State)
    ensures Reaches(labels, s)
    ensures s == Init.(up := Uplink([m], false, [], Reading, [FrameOf(m)], false, [], []))
  {
    var frame := FrameOf(m);
    assert [] + frame == frame && frame[..|frame|] == frame && frame[|frame|..] == [];
    labels, s := Then([], Init, Send(m));
    labels, s := Then(labels, s, ReadChunk(|frame|));
    labels, s := Then(labels, s, Push);
  }

  lemma MessageComesBack(labels: seq<Label>, s: State, m: Body) returns (more: seq<Label>, t: State)
    requires Reaches(labels, s) && RequestEnded(s.up)
    requires s.down == Init.down.(toEcho := FrameOf(m)) && s.reader == Init.reader
    ensures Reaches(more, t)
    ensures t == State(s.up, Downlink(Complete, [], [TrailersFrame], Forwarding, [G.Headers, G.Data(FrameOf(m))]),
                       Init.reader.(wire := FrameOf(m)))
  {
    more, t := MessageIsEchoed(labels, s, m);
    assert [] + FrameOf(m) == FrameOf(m);
    more, t := DownActs(more, t, NextFrame);
    more, t := Then(more, t, SendData);
  }

  lemma MessageIsEchoed(labels: seq<Label>, s: State, m: Body) returns (more: seq<Label>, t: State)
    requires Reaches(labels, s) && RequestEnded(s.up) && s.down == Init.down.(toEcho := FrameOf(m))
    ensures Reaches(more, t)
    ensures t == s.(down := Downlink(Complete, [], [DataFrame(FrameOf(m)), TrailersFrame], Forwarding, [G.Headers]))
  {
    more, t := DownActs(labels, s, Answered);
    more, t := DownActs(more, t, SendHeaders);
    more, t := EchoAllAndEnd(more, t, FrameOf(m));
  }

  lemma EchoAllAndEnd(labels: seq<Label>, s: State, bytes: seq<byte>) returns (more: seq<Label>, t: State)
    requires Reaches(labels, s) && RequestEnded(s.up)
    requires s.down == Downlink(Serving, bytes, [], Forwarding, [G.Headers])
    ensures Reaches(more, t)
    ensures t == s.(down := Downlink(Complete, [], [DataFrame(bytes), TrailersFrame], Forwarding, [G.Headers]))
  {
    assert bytes[..|bytes|] == bytes && bytes[|bytes|..] == [];
    more, t := DownActs(labels, s, Echo(|bytes|));
    more, t := DownActs(more, t, EndBody(true, true));
  }

  lemma MessageArrives(labels: seq<Label>, s: State, m: Body) returns (more: seq<Label>, t: State)
    requires Reaches(labels, s) && Fits(m) && s.reader == Init.reader.(wire := FrameOf(m))
    requires s.down.out == [G.Headers, G.Data(FrameOf(m)), G.Trailers, G.Fin]
    ensures Reaches(more, t)
    ensures t == s.(reader := Reader([], FrameOf(m), [], [m], true))
  {
    EncodeThenTake(m, []);
    assert FrameOf(m) + [] == FrameOf(m);
    more, t := FrameArrives(labels, s, FrameOf(m), m);
  }

  lemma FrameArrives(labels: seq<Label>, s: State, frame: seq<byte>, m: Body) returns (more: seq<Label>, t: State)
    requires Reaches(labels, s) && s.reader == Init.reader.(wire := frame) && Take(frame) == Some(Cut(m, []))
    requires s.down.out == [G.Headers, G.Data(frame), G.Trailers, G.Fin]
    ensures Reaches(more, t)
    ensures t == s.(reader := Reader([], frame, [], [m], true))
  {
    assert frame[..|frame|] == frame && frame[|frame|..] == [] && [] + frame == frame;
    more, t := ReaderActs(labels, s, Arrive(|frame|));
    more, t := ReaderActs(more, t, TakeMessage);
    more, t := EndIsSeen(more, t, frame);
  }

  lemma ReaderActs(labels: seq<Label>, s: State, l: Label) returns (more: seq<Label>, t: State)
    requires Reaches(labels, s) && (l.Arrive? || l.TakeMessage? || l.SeeEnd?)
    ensures more == labels + [l] && Reaches(more, t) && t == s.(reader := ReaderStep(s.reader, l, NoMoreData(s.down)))
  {
    more, t := Then(labels, s, l);
  }

  lemma EndIsSeen(labels: seq<Label>, s: State, frame: seq<byte>) returns (more: seq<Label>, t: State)
    requires Reaches(labels, s) && s.reader.wire == [] && s.reader.recvBuf == []
    requires s.down.out == [G.Headers, G.Data(frame), G.Trailers, G.Fin]
    ensures Reaches(more, t) && t == s.(reader := s.reader.(sawEnd := true))
  {
    OneChunkIsClosed(frame);
    more, t := ReaderActs(labels, s, SeeEnd);
  }

  lemma OneChunkIsClosed(frame: seq<byte>)
    ensures G.Response([frame], true) == [G.Headers, G.Data(frame), G.Trailers, G.Fin]
    ensures G.PhaseOf([G.Headers, G.Data(frame), G.Trailers, G.Fin]) == G.Closed
  {
    assert G.DataFrames([frame]) == G.DataFrames([]) + [G.Data(frame)];
    assert G.Response([frame], true) == [G.Headers, G.Data(frame), G.Trailers, G.Fin];
    G.PhaseOfResponse([frame], true);
  }

  lemma AnswerAtOnce(labels: seq<Label>, s: State) returns (more: seq<Label>, t: State)
    requires Reaches(labels, s) && RequestEnded(s.up) && s.down == Init.down
    ensures Reaches(more, t)
    ensures t == s.(down := Downlink(Complete, [], [TrailersFrame], Forwarding, [G.Headers]))
  {
    more, t := DownActs(labels, s, Answered);
    more, t := DownActs(more, t, SendHeaders);
    more, t := DownActs(more, t, EndBody(true, true));
  }

  lemma SeeItEnd(labels: seq<Label>, s: State) returns (more: seq<Label>, t: State)
    requires Reaches(labels, s) && s.down.out == [G.Headers, G.Trailers, G.Fin] && s.reader == Init.reader
    ensures Reaches(more, t) && t == s.(reader := s.reader.(sawEnd := true))
  {
    G.PhaseOfResponse([], true);
    assert s.down.out == G.Response([], true);
    more, t := Then(labels, s, SeeEnd);
  }

  lemma EndCleanly(labels: seq<Label>, s: State, sent: seq<G.Out>) returns (more: seq<Label>, t: State)
    requires Reaches(labels, s)
    requires s.down == Downlink(Complete, [], [TrailersFrame], Forwarding, sent)
    ensures Reaches(more, t)
    ensures t == s.(down := Downlink(Complete, [], [], Returned, sent + [G.Trailers, G.Fin]))
  {
    more, t := DownActs(labels, s, NextFrame);
    more, t := DownActs(more, t, SendTrailers);
    more, t := DownActs(more, t, BodyEnds);
    more, t := DownActs(more, t, SendFin);
    more, t := DownActs(more, t, AbortPumpA);
  }

  lemma DownActs(labels: seq<Label>, s: State, l: Label) returns (more: seq<Label>, t: State)
    requires Reaches(labels, s)
    requires l.Echo? || l.EndBody? || l.Answered? || l.SendHeaders? || l.NextFrame? || l.SendTrailers?
             || l.BodyEnds? || l.SendFin? || l.AbortPumpA?
    ensures more == labels + [l] && Reaches(more, t) && t == s.(down := DownStep(s.down, l, RequestEnded(s.up)))
  {
    more, t := Then(labels, s, l);
  }

  /** And all 64 places of the channel can be used. */
  lemma {:induction false} QueueCanFill(n: nat) returns (labels: seq<Label>, s: State)
    requires n <= 64
    ensures Reaches(labels, s) && s.up == Init.up.(queue := s.up.queue) && |s.up.queue| == n
    decreases n
  {
    if n == 0 {
      labels, s := [], Init;
    } else {
      labels, s := QueueCanFill(n - 1);
      assert [] + s.up.wire == s.up.wire;
      labels, s := Then(labels, s, ReadChunk(0));
      labels, s := Then(labels, s, Push);
    }
  }

  // ---- What later steps do not take back --------------------------------------------------

  /** What holds between a state and every later one: histories only grow, and what has ended, failed
      or gone away stays so. */
  ghost predicate UpSince(u: Uplink, v: Uplink)
  {
    && u.sent <= v.sent && u.delivered <= v.delivered
    && (u.clientFin ==> v.clientFin && v.sent == u.sent)
    && (u.pumpA.Ended? ==> v.pumpA == u.pumpA && u.wire <= v.wire)
    && (u.receiverGone ==> v.receiverGone && v.queue == [] && v.delivered == u.delivered)
  }

  ghost predicate DownSince(d: Downlink, e: Downlink)
  {
    && d.out <= e.out
    && (!d.upstream.Serving? ==> e.upstream == d.upstream)
    && (d.pumpB.Returned? ==> e.pumpB.Returned? && e.out == d.out)
    && (d.pumpB.Failed? ==> e.pumpB == d.pumpB && e.out == d.out)
  }

  ghost predicate ReaderSince(r: Reader, q: Reader)
  {
    r.arrived <= q.arrived && r.received <= q.received && (r.sawEnd ==> q.sawEnd)
  }

  ghost predicate Since(s: State, t: State)
  {
    && UpSince(s.up, t.up) && DownSince(s.down, t.down) && ReaderSince(s.reader, t.reader)
    && (!s.down.upstream.Serving? ==> t.up.delivered == s.up.delivered)
  }

  lemma UpStepSince(u: Uplink, l: Label, aborting: bool)
    requires UpDiscipline(u)
    ensures UpSince(u, UpStep(u, l, aborting)) && UpStep(u, l, aborting).delivered == u.delivered
  {
  }

  lemma DownStepSince(d: Downlink, l: Label, ended: bool)
    ensures DownSince(d, DownStep(d, l, ended))
  {
  }

  lemma ReaderStepSince(r: Reader, l: Label, noMore: bool)
    ensures ReaderSince(r, ReaderStep(r, l, noMore))
  {
  }

  lemma TakeChunkSince(s: State)
    requires UpDiscipline(s.up)
    ensures Since(s, Step(s, TakeChunk))
  {
  }

  lemma SendDataSince(s: State)
    requires UpDiscipline(s.up)
    ensures Since(s, Step(s, SendData))
  {
  }

  lemma StepSince(s: State, l: Label)
    requires UpDiscipline(s.up)
    ensures Since(s, Step(s, l))
  {
    if l.TakeChunk? {
      TakeChunkSince(s);
    } else if l.SendData? {
      SendDataSince(s);
    } else {
      UpStepSince(s.up, l, s.down.pumpB.Returned?);
      DownStepSince(s.down, l, RequestEnded(s.up));
      ReaderStepSince(s.reader, l, NoMoreData(s.down));
    }
  }

  lemma SinceAgain(s: State, t: State, v: State)
    requires Since(s, t) && Since(t, v)
    ensures Since(s, v)
  {
  }

  lemma OneMoreSince(s: State, t: State, l: Label)
    requires Since(s, t) && UpDiscipline(t.up)
    ensures Since(s, Step(t, l))
  {
    StepSince(t, l);
    SinceAgain(s, t, Step(t, l));
  }

  lemma RunSnoc(labels: seq<Label>, l: Label)
    ensures Run(labels + [l]) == Step(Run(labels), l)
  {
    assert (labels + [l])[..|labels|] == labels;
  }

  /** Nothing is taken back: whatever `more` brings, see `UpSince`, `DownSince` and `ReaderSince`. */
  lemma {:induction false} NothingIsTakenBack(labels: seq<Label>, more: seq<Label>)
    ensures Since(Run(labels), Run(labels + more))
    decreases |more|
  {
    if more == [] {
      EveryRunKeeps(labels);
      assert labels + more == labels;
    } else {
      var front, last := more[..|more| - 1], more[|more| - 1];
      NothingIsTakenBack(labels, front);
      EveryRunKeeps(labels + front);
      assert labels + more == labels + front + [last];
      RunSnoc(labels + front, last);
      OneMoreSince(Run(labels), Run(labels + front), last);
    }
  }

  // ---- What each failure means, whatever happens afterwards -------------------------------

  /** The client is sent nothing before the upstream has answered ... */
  lemma {:induction false} SilentUntilAnswered(labels: seq<Label>)
    ensures Answered !in labels ==>
              Run(labels).down.out == [] && (Run(labels).down.pumpB.Awaiting? || Run(labels).down.pumpB.Failed?)
    decreases |labels|
  {
    if labels != [] {
      var front, last := labels[..|labels| - 1], labels[|labels| - 1];
      SilentUntilAnswered(front);
      assert labels == front + [last];
    }
  }

  lemma DisciplineAlways(labels: seq<Label>)
    ensures DownDiscipline(Run(labels).down)
    ensures var d := Run(labels).down; G.CompleteResponse(d.out) <==> d.pumpB.Finished? || d.pumpB.Returned?
  {
    EveryRunKeeps(labels);
    InOrderFromDiscipline(Run(labels).down);
  }

  lemma RefusedFails(s: State)
    requires s.down.pumpB.Awaiting? && DownDiscipline(s.down)
    ensures Step(s, Refused).down.pumpB.Failed? && Step(s, Refused).down.out == []
  {
    G.PhaseShape(s.down.out);
  }

  /** ... and nothing at all when it refused. */
  lemma RefusedSendsNothing(labels: seq<Label>, more: seq<Label>)
    requires Run(labels).down.pumpB.Awaiting?
    ensures var d := Run(labels + [Refused] + more).down; d.out == [] && d.pumpB.Failed?
  {
    DisciplineAlways(labels);
    RefusedFails(Run(labels));
    RunSnoc(labels, Refused);
    NothingIsTakenBack(labels + [Refused], more);
  }

  /** Where pump B can fail, and on what. */
  ghost predicate CanFail(d: Downlink, l: Label)
  {
    || (l.BodyError? && d.pumpB.Forwarding? && d.upstream == Broken)
    || (l.DownFails? && (d.pumpB.Replying? || d.pumpB.Carrying? || d.pumpB.CarryingTrailers? || d.pumpB.Finishing?))
  }

  /** A failed pump B sends nothing more, so the response is never completed. */
  lemma FailureEndsResponse(labels: seq<Label>, l: Label, more: seq<Label>)
    requires CanFail(Run(labels).down, l)
    ensures var d := Run(labels + [l] + more).down;
            d.pumpB.Failed? && d.out == Run(labels).down.out && !G.CompleteResponse(d.out)
  {
    FailsHere(Run(labels), l);
    RunSnoc(labels, l);
    NothingIsTakenBack(labels + [l], more);
    DisciplineAlways(labels + [l] + more);
  }

  lemma FailsHere(s: State, l: Label)
    requires CanFail(s.down, l)
    ensures Step(s, l).down.pumpB.Failed? && Step(s, l).down.out == s.down.out
  {
  }

  lemma BrokenIsUnfinished(d: Downlink)
    requires DownDiscipline(d) && d.upstream.Broken?
    ensures !d.pumpB.Finished? && !d.pumpB.Returned?
  {
  }

  /** Nor is one whose body broke off in the upstream. */
  lemma BrokenNeverCompletes(labels: seq<Label>, more: seq<Label>)
    requires Run(labels).down.upstream.Serving?
    ensures var d := Run(labels + [Break] + more).down; d.upstream.Broken? && !G.CompleteResponse(d.out)
  {
    RunSnoc(labels, Break);
    NothingIsTakenBack(labels + [Break], more);
    DisciplineAlways(labels + [Break] + more);
    BrokenIsUnfinished(Run(labels + [Break] + more).down);
  }

  lemma EndsEarly(s: State, trailers: bool)
    requires s.down.upstream.Serving?
    ensures Step(s, EndBody(false, trailers)).down.upstream.CutShort?
    ensures Step(s, EndBody(false, trailers)).up == s.up
  {
  }

  /** An upstream that ends its response before its request has ended takes nothing of the rest. */
  lemma EarlyEndIsFinal(labels: seq<Label>, trailers: bool, more: seq<Label>)
    requires Run(labels).down.upstream.Serving?
    ensures var s := Run(labels + [EndBody(false, trailers)] + more);
            s.down.upstream.CutShort? && s.up.delivered == Run(labels).up.delivered
  {
    EndsEarly(Run(labels), trailers);
    RunSnoc(labels, EndBody(false, trailers));
    NothingIsTakenBack(labels + [EndBody(false, trailers)], more);
  }

  /** Why pump A can stop early, and on what. */
  ghost predicate StopsFor(u: Uplink, returned: bool, l: Label, cause: Cause)
  {
    || (l.ReadFails? && u.pumpA.Reading? && cause == ReadError)
    || (l.PushFails? && u.pumpA.Holding? && u.receiverGone && cause == UpstreamGone)
    || (l.AbortLands? && returned && !u.pumpA.Ended? && cause == Aborted)
  }

  /** A stopped pump A stays stopped and reads nothing more; the chunk it held is lost for good. */
  lemma StoppedPumpReadsNothing(labels: seq<Label>, l: Label, cause: Cause, more: seq<Label>)
    requires StopsFor(Run(labels).up, Run(labels).down.pumpB.Returned?, l, cause)
    ensures var u, v := Run(labels).up, Run(labels + [l] + more).up;
            && v.pumpA == Ended(cause) && u.wire <= v.wire
            && Run(labels + [l]).up.dropped == u.dropped + InHand(u.pumpA)
  {
    RunSnoc(labels, l);
    NothingIsTakenBack(labels + [l], more);
    var dropped := Run(labels).up.dropped;
    assert dropped + [] == dropped;
  }

  /** Nothing is delivered once the upstream has dropped its request body. */
  lemma DroppedBodyTakesNothing(labels: seq<Label>, more: seq<Label>)
    ensures var u := Run(labels + [DropBody] + more).up;
            u.receiverGone && u.queue == [] && u.delivered == Run(labels).up.delivered
  {
    RunSnoc(labels, DropBody);
    NothingIsTakenBack(labels + [DropBody], more);
  }

  /** The client reads on only when it has returned every whole message it holds. */
  lemma WholeMessageWaits(labels: seq<Label>, l: Label)
    requires Take(Run(labels).reader.recvBuf).Some? && !l.TakeMessage?
    ensures Run(labels + [l]).reader.recvBuf == Run(labels).reader.recvBuf
  {
    RunSnoc(labels, l);
    HeldIsKept(Run(labels), l);
  }

  lemma HeldIsKept(s: State, l: Label)
    requires Take(s.reader.recvBuf).Some? && !l.TakeMessage?
    ensures Step(s, l).reader.recvBuf == s.reader.recvBuf
  {
    ReaderHolds(s.reader, l, NoMoreData(s.down));
  }

  lemma ReaderHolds(r: Reader, l: Label, noMore: bool)
    requires Take(r.recvBuf).Some? && !l.TakeMessage?
    ensures ReaderStep(r, l, noMore).recvBuf == r.recvBuf
  {
  }

  /** And nothing is sent once the client has half-closed. */
  lemma HalfCloseEndsSending(labels: seq<Label>, more: seq<Label>)
    ensures var u := Run(labels + [HalfClose] + more).up; u.clientFin && u.sent == Run(labels).up.sent
  {
    RunSnoc(labels, HalfClose);
    NothingIsTakenBack(labels + [HalfClose], more);
  }

  // ---- Nothing gets stuck -----------------------------------------------------------------

  lemma QueueDrains(labels: seq<Label>, s: State) returns (more: seq<Label>, t: State)
    requires Reaches(labels, s) && s.down.upstream.Serving?
    ensures Reaches(more, t) && labels <= more
    ensures t.up == s.up.(queue := [], delivered := t.up.delivered) && t.down == s.down.(toEcho := t.down.toEcho)
    ensures t.reader == s.reader
    decreases |s.up.queue|
  {
    if s.up.queue == [] {
      more, t := labels, s;
    } else {
      more, t := Then(labels, s, TakeChunk);
      more, t := QueueDrains(more, t);
    }
  }

  lemma UpActs(labels: seq<Label>, s: State, l: Label) returns (more: seq<Label>, t: State)
    requires Reaches(labels, s) && (l.HalfClose? || l.ReadChunk? || l.ReadEnd? || l.Push?)
    ensures more == labels + [l] && Reaches(more, t) && t == s.(up := UpStep(s.up, l, s.down.pumpB.Returned?))
  {
    more, t := Then(labels, s, l);
  }

  lemma HandIsTaken(labels: seq<Label>, s: State) returns (more: seq<Label>, t: State)
    requires Reaches(labels, s) && s.down.upstream.Serving? && s.up.pumpA.Holding? && !s.up.receiverGone && s.up.queue == []
    ensures Reaches(more, t) && labels <= more
    ensures t.up == s.up.(pumpA := Reading, queue := [], delivered := t.up.delivered)
    ensures t.down == s.down.(toEcho := t.down.toEcho) && t.reader == s.reader
  {
    more, t := UpActs(labels, s, Push);
    more, t := QueueDrains(more, t);
  }

  lemma AllIsRead(labels: seq<Label>, s: State) returns (more: seq<Label>, t: State)
    requires Reaches(labels, s) && s.down.upstream.Serving? && s.up.pumpA.Reading? && s.up.clientFin
    requires !s.up.receiverGone && s.up.queue == []
    ensures Reaches(more, t) && labels <= more
    ensures t.up == s.up.(pumpA := Ended(HalfClosed), wire := [], queue := [], delivered := t.up.delivered)
    ensures t.down == s.down.(toEcho := t.down.toEcho) && t.reader == s.reader
  {
    more, t := UpActs(labels, s, ReadChunk(|s.up.wire|));
    more, t := HandIsTaken(more, t);
    more, t := UpActs(more, t, ReadEnd);
  }

  /** The request body reaches its end. */
  lemma UpFinishes(labels: seq<Label>, s: State) returns (more: seq<Label>, t: State)
    requires Reaches(labels, s) && s.down.upstream.Serving? && !s.up.receiverGone
    requires s.up.pumpA.Ended? ==> s.up.pumpA == Ended(HalfClosed)
    ensures Reaches(more, t) && labels <= more
    ensures t.up.pumpA == Ended(HalfClosed) && RequestEnded(t.up) && t.up.sent == s.up.sent
    ensures t.down == s.down.(toEcho := t.down.toEcho) && t.reader == s.reader
  {
    more, t := UpActs(labels, s, HalfClose);
    more, t := QueueDrains(more, t);
    if t.up.pumpA.Holding? {
      more, t := HandIsTaken(more, t);
    }
    if t.up.pumpA.Reading? {
      more, t := AllIsRead(more, t);
    }
  }

  /** Trailers are on their way to the client, or sent. */
  predicate HasTrailers(d: Downlink)
  {
    TrailersFrame in d.body || d.pumpB.CarryingTrailers? || G.Trailers in d.out
  }

  lemma ServingHasNone(d: Downlink)
    requires DownDiscipline(d) && d.upstream.Serving?
    ensures !HasTrailers(d)
  {
    G.TrailersAreLate(d.out);
  }

  /** The upstream echoes everything and ends its response. */
  lemma UpstreamFinishes(labels: seq<Label>, s: State, trailers: bool) returns (more: seq<Label>, t: State)
    requires Reaches(labels, s) && s.down.upstream.Serving? && RequestEnded(s.up)
    ensures Reaches(more, t) && labels <= more
    ensures t.up == s.up && t.reader == s.reader && t.down.upstream.Complete? && t.down.pumpB == s.down.pumpB
    ensures HasTrailers(t.down) <==> HasTrailers(s.down) || trailers
  {
    more, t := DownActs(labels, s, Echo(|s.down.toEcho|));
    assert HasTrailers(t.down) <==> HasTrailers(s.down);
    var body := t.down.body;
    more, t := DownActs(more, t, EndBody(true, trailers));
    assert trailers ==> t.down.body[|body|] == TrailersFrame;
    assert forall f :: f in body ==> f in t.down.body;
  }

  /** Pump B gets to the head of its loop. */
  lemma PumpBLoops(labels: seq<Label>, s: State) returns (more: seq<Label>, t: State)
    requires Reaches(labels, s) && (s.down.pumpB.Awaiting? || s.down.pumpB.Replying? || s.down.pumpB.Forwarding?
                                    || s.down.pumpB.Carrying? || s.down.pumpB.CarryingTrailers?)
    ensures Reaches(more, t) && labels <= more && t.up == s.up
    ensures t.down.pumpB.Forwarding? && t.down.upstream == s.down.upstream && t.down.body == s.down.body
    ensures HasTrailers(t.down) <==> HasTrailers(s.down)
  {
    more, t := labels, s;
    if s.down.pumpB.Awaiting? {
      more, t := DownActs(more, t, Answered);
    }
    if t.down.pumpB.Replying? {
      more, t := DownActs(more, t, SendHeaders);
    } else if t.down.pumpB.CarryingTrailers? {
      more, t := DownActs(more, t, SendTrailers);
    } else if t.down.pumpB.Carrying? {
      more, t := Then(more, t, SendData);
    }
  }

  lemma BodyDrains(labels: seq<Label>, s: State) returns (more: seq<Label>, t: State)
    requires Reaches(labels, s) && s.down.pumpB.Forwarding?
    ensures Reaches(more, t) && labels <= more && t.up == s.up
    ensures t.down.pumpB.Forwarding? && t.down.upstream == s.down.upstream && t.down.body == []
    ensures HasTrailers(t.down) <==> HasTrailers(s.down)
    decreases |s.down.body|
  {
    if s.down.body == [] {
      more, t := labels, s;
    } else {
      more, t := DownActs(labels, s, NextFrame);
      assert s.down.body == [s.down.body[0]] + t.down.body;
      more, t := PumpBLoops(more, t);
      more, t := BodyDrains(more, t);
    }
  }

  /** Pump B sends the whole response and returns. */
  lemma PumpBFinishes(labels: seq<Label>, s: State) returns (more: seq<Label>, t: State)
    requires Reaches(labels, s) && BodyEnded(s.down) && !s.down.pumpB.Failed?
    ensures Reaches(more, t) && labels <= more && t.up == s.up
    ensures t.down.pumpB.Returned? && t.down.upstream == s.down.upstream
    ensures HasTrailers(t.down) <==> HasTrailers(s.down)
  {
    more, t := labels, s;
    if !s.down.pumpB.Finishing? && !s.down.pumpB.Finished? && !s.down.pumpB.Returned? {
      more, t := PumpBLoops(more, t);
      more, t := BodyDrains(more, t);
      more, t := DownActs(more, t, BodyEnds);
    }
    if t.down.pumpB.Finishing? {
      more, t := DownActs(more, t, SendFin);
    }
    more, t := DownActs(more, t, AbortPumpA);
  }

  lemma MessagesTaken(labels: seq<Label>, s: State) returns (more: seq<Label>, t: State)
    requires Reaches(labels, s)
    ensures Reaches(more, t) && labels <= more && t.up == s.up && t.down == s.down
    ensures Take(t.reader.recvBuf).None? && t.reader.wire == s.reader.wire
    decreases |s.reader.recvBuf|
  {
    if Take(s.reader.recvBuf).None? {
      more, t := labels, s;
    } else {
      more, t := ReaderActs(labels, s, TakeMessage);
      more, t := MessagesTaken(more, t);
    }
  }

  /** The client receives everything on the way and sees the end. */
  lemma ReaderFinishes(labels: seq<Label>, s: State) returns (more: seq<Label>, t: State)
    requires Reaches(labels, s) && NoMoreData(s.down)
    ensures Reaches(more, t) && labels <= more && t.up == s.up && t.down == s.down && t.reader.sawEnd
  {
    more, t := MessagesTaken(labels, s);
    more, t := ReaderActs(more, t, Arrive(|t.reader.wire|));
    more, t := MessagesTaken(more, t);
    more, t := ReaderActs(more, t, SeeEnd);
  }

  /** Nothing has gone wrong yet. */
  ghost predicate Healthy(s: State)
  {
    && (s.up.pumpA.Ended? ==> s.up.pumpA == Ended(HalfClosed)) && !s.up.receiverGone
    && (s.down.upstream.Serving? || s.down.upstream.Complete?) && !s.down.pumpB.Failed?
  }

  /** Nothing gets stuck: from every state of every run in which nothing has gone wrong, whatever
      was sent and wherever the parts stand, the system can still bring every message back and end
      with a complete response - with trailers or without, as the upstream chooses. */
  lemma EverythingCanReturn(labels: seq<Label>, trailers: bool) returns (run: seq<Label>)
    requires Healthy(Run(labels)) && AllFit(Run(labels).up.sent)
    ensures labels <= run
    ensures var s := Run(run);
            && s.reader.received == s.up.sent == Run(labels).up.sent && s.reader.sawEnd
            && s.down.pumpB.Returned? && G.CompleteResponse(s.down.out)
            && (Run(labels).down.upstream.Serving? ==> (G.Trailers in s.down.out <==> trailers))
  {
    var s := Run(labels);
    DisciplineAlways(labels);
    run := labels;
    if s.down.upstream.Serving? {
      ServingHasNone(s.down);
      run, s := UpFinishes(run, s);
      run, s := UpstreamFinishes(run, s, trailers);
    } else {
      CompleteWasHalfClosed(labels);
    }
    run, s := PumpBFinishes(run, s);
    ReachesReturned(run, s);
    run, s := ReaderFinishes(run, s);
    assert Run(run) == s;
    EndMeansAllIffNothingLeft(run);
  }

  lemma CompleteWasHalfClosed(labels: seq<Label>)
    requires Healthy(Run(labels)) && Run(labels).down.upstream.Complete?
    ensures Run(labels).up.pumpA == Ended(HalfClosed)
  {
    EveryRunKeeps(labels);
  }

  lemma ReachesReturned(labels: seq<Label>, s: State)
    requires Reaches(labels, s) && s.down.pumpB.Returned?
    ensures NoMoreData(s.down) && s.down.body == [] && G.CompleteResponse(s.down.out)
  {
    DisciplineAlways(labels);
    assert Run(labels) == s;
  }
}
