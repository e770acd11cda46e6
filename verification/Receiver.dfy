/** The buffered `recv_message` loops and `split`: chunks in, whole messages out. */
module Receiver {
  import opened Sequences
  import opened Grpc

  /** How the peer's half of the stream stands: still open, half-closed, or failed. */
  datatype End = Open | Fin | Reset

  /** What one `recv_data` call reports. `Pending` is an await with nothing to deliver yet. */
  datatype DataResult = Chunk(bytes: seq<byte>) | NoMoreData | DataError | Pending

  /** What one `recv_message` call reports; `Parked` is a call still waiting for data. */
  datatype RecvResult = Message(body: Body) | EndOfStream | RecvError | Parked

  function Exhausted(end: End): DataResult
  {
    match end
    case Open => Pending
    case Fin => NoMoreData
    case Reset => DataError
  }

  function AtEnd(end: End): RecvResult
  {
    match end
    case Open => Parked
    case Fin => EndOfStream
    case Reset => RecvError
  }

  /** The receive side of an h3 stream: chunks that have arrived, cut anywhere, then an ending. */
  class H3Recv {
    var queue: seq<seq<byte>>
    var end: End

    method RecvData() returns (r: DataResult)
      modifies this
      ensures end == old(end)
      ensures old(queue) != [] ==> r == Chunk(old(queue)[0]) && queue == old(queue)[1..]
      ensures old(queue) == [] ==> queue == [] && r == Exhausted(end)
    {
      if queue != [] {
        r, queue := Chunk(queue[0]), queue[1..];
      } else {
        r := Exhausted(end);
      }
    }
  }

  datatype Outcome = Outcome(result: RecvResult, buf: seq<byte>, queue: seq<seq<byte>>)

  /** One `recv_message` call on buffered bytes and waiting chunks. */
  function RecvCall(buf: seq<byte>, queue: seq<seq<byte>>, end: End): Outcome
    decreases |queue|
  {
    match Take(buf)
    case Some(cut) => Outcome(Message(cut.body), cut.rest, queue)
    case None =>
      if queue == [] then Outcome(AtEnd(end), buf, [])
      else RecvCall(buf + queue[0], queue[1..], end)
  }

  /** A call depends only on the bytes, not on where the chunks were cut: it returns the first
      message of all bytes at hand and keeps exactly the bytes behind it, or drains everything and
      reports how the stream stands: end of stream only after the half-close, an error only after a
      reset, and otherwise it waits. */
  lemma {:induction false} RecvCallIgnoresChunking(buf: seq<byte>, queue: seq<seq<byte>>, end: End)
    ensures var o := RecvCall(buf, queue, end);
            match Take(buf + Flatten(queue))
            case Some(cut) => o.result == Message(cut.body) && o.buf + Flatten(o.queue) == cut.rest
            case None =>
              && o == Outcome(AtEnd(end), buf + Flatten(queue), [])
              && (o.result.EndOfStream? <==> end.Fin?) && (o.result.RecvError? <==> end.Reset?)
              && (o.result.Parked? <==> end.Open?)
    decreases |queue|
  {
    if Take(buf).Some? {
      TakeStable(buf, Flatten(queue));
    } else if queue == [] {
      assert buf + Flatten(queue) == buf;
    } else {
      RecvCallIgnoresChunking(buf + queue[0], queue[1..], end);
      SeqAssociates(buf, queue[0], Flatten(queue[1..]));
    }
  }

  /** It never reads a chunk it does not need: without the last chunk read there was no message. */
  lemma {:induction false} RecvCallIsLazy(buf: seq<byte>, queue: seq<seq<byte>>, end: End) returns (read: nat)
    ensures read <= |queue| && RecvCall(buf, queue, end).queue == queue[read..]
    ensures read > 0 ==> Take(buf + Flatten(queue[..read - 1])).None?
    decreases |queue|
  {
    read := 0;
    if Take(buf).None? && queue != [] {
      var more := RecvCallIsLazy(buf + queue[0], queue[1..], end);
      read := more + 1;
      var seen := queue[..more];
      if more > 0 {
        assert seen[0] == queue[0] && seen[1..] == queue[1..][..more - 1];
        assert buf + Flatten(seen) == buf + queue[0] + Flatten(seen[1..]);
      } else {
        assert buf + Flatten(seen) == buf;
      }
    }
  }

  /** The loop both `recv_message` methods share. */
  method ReceiveLoop(inner: H3Recv, recvBuf: BytesMut) returns (r: RecvResult)
    modifies inner, recvBuf
    ensures inner.end == old(inner.end)
    ensures Outcome(r, recvBuf.contents, inner.queue)
         == RecvCall(old(recvBuf.contents), old(inner.queue), inner.end)
    ensures (r.EndOfStream? ==> inner.end.Fin?) && (r.RecvError? ==> inner.end.Reset?) && (r.Parked? ==> inner.end.Open?)
  {
    while true
      invariant inner.end == old(inner.end)
      invariant RecvCall(recvBuf.contents, inner.queue, inner.end)
             == RecvCall(old(recvBuf.contents), old(inner.queue), old(inner.end))
      decreases |inner.queue|
    {
      ghost var buffered := recvBuf.contents;
      var frame := TakeFrame(recvBuf);
      TakeWaitsIffUnfinished(buffered);
      if frame.Some? {
        return Message(frame.value);
      }
      var data := inner.RecvData();
      match data {
        case Chunk(bytes) => recvBuf.ExtendFromSlice(bytes);
        case NoMoreData => return EndOfStream;
        case DataError => return RecvError;
        case Pending => return Parked;
      }
    }
  }

  /** A call handle before it is split: sends and receives through one object. */
  class QuicStream {
    const inner: H3Recv
    const recvBuf: BytesMut

    constructor (inner: H3Recv)
      ensures this.inner == inner && fresh(recvBuf) && recvBuf.contents == []
    {
      this.inner := inner;
      var buf := new BytesMut();
      this.recvBuf := buf;
    }

    method RecvMessage() returns (r: RecvResult)
      modifies inner, recvBuf
      ensures inner.end == old(inner.end)
      ensures Outcome(r, recvBuf.contents, inner.queue)
           == RecvCall(old(recvBuf.contents), old(inner.queue), inner.end)
      ensures (r.EndOfStream? ==> inner.end.Fin?) && (r.RecvError? ==> inner.end.Reset?) && (r.Parked? ==> inner.end.Open?)
    {
      r := ReceiveLoop(inner, recvBuf);
    }

    /** Hands the receive side over together with the bytes already buffered. */
    method Split() returns (recv: QuicRecvStream)
      ensures fresh(recv) && recv.inner == inner && recv.recvBuf == recvBuf
    {
      recv := new QuicRecvStream(inner, recvBuf);
    }
  }

  /** The receive half after `split`. */
  class QuicRecvStream {
    const inner: H3Recv
    const recvBuf: BytesMut

    constructor (inner: H3Recv, recvBuf: BytesMut)
      ensures this.inner == inner && this.recvBuf == recvBuf
    {
      this.inner, this.recvBuf := inner, recvBuf;
    }

    method RecvMessage() returns (r: RecvResult)
      modifies inner, recvBuf
      ensures inner.end == old(inner.end)
      ensures Outcome(r, recvBuf.contents, inner.queue)
           == RecvCall(old(recvBuf.contents), old(inner.queue), inner.end)
      ensures (r.EndOfStream? ==> inner.end.Fin?) && (r.RecvError? ==> inner.end.Reset?) && (r.Parked? ==> inner.end.Open?)
    {
      r := ReceiveLoop(inner, recvBuf);
    }
  }

  // ---- Runs: arrivals, calls and the split in any order -----------------------------------

  datatype Event = Arrive(chunk: seq<byte>) | Ends(end: End) | Call | Split

  /** The one handle of a call that can receive: the whole stream or, after the split, its half. */
  datatype Handle = Whole(recvBuf: seq<byte>) | RecvHalf(recvBuf: seq<byte>)

  /** `split` consumes the whole stream and builds the receive half around its buffer. */
  function SplitOff(h: Handle): Handle
  {
    match h
    case Whole(recvBuf) => RecvHalf(recvBuf)
    case RecvHalf(_) => h
  }

  datatype Receiving = Receiving(handle: Handle, queue: seq<seq<byte>>, end: End,
                                 arrived: seq<byte>, results: seq<RecvResult>)

  function Step(s: Receiving, e: Event): Receiving
  {
    match e
    case Arrive(chunk) =>
      if s.end == Open then s.(queue := s.queue + [chunk], arrived := s.arrived + chunk) else s
    case Ends(end) => if s.end == Open then s.(end := end) else s
    case Call =>
      var o := RecvCall(s.handle.recvBuf, s.queue, s.end);
      s.(handle := s.handle.(recvBuf := o.buf), queue := o.queue, results := s.results + [o.result])
    case Split => s.(handle := SplitOff(s.handle))
  }

  function Run(events: seq<Event>): Receiving
  {
    if events == [] then Receiving(Whole([]), [], Open, [], [])
    else Step(Run(events[..|events| - 1]), events[|events| - 1])
  }

  /** The messages among a list of results. */
  function Messages(results: seq<RecvResult>): seq<Body>
  {
    if results == [] then []
    else
      var last := results[|results| - 1];
      Messages(results[..|results| - 1]) + if last.Message? then [last.body] else []
  }

  /** The results so far, followed by what the buffered and waiting bytes still hold, are exactly
      the one-shot parse of everything that arrived. */
  ghost predicate ResultsAreParse(s: Receiving)
  {
    ReadSoFar(s.arrived, Messages(s.results), s.handle.recvBuf + Flatten(s.queue))
  }

  lemma ArriveKeepsParse(s: Receiving, chunk: seq<byte>)
    requires ResultsAreParse(s)
    ensures ResultsAreParse(Step(s, Arrive(chunk)))
  {
    var held := s.handle.recvBuf + Flatten(s.queue);
    FlattenSnoc(s.queue, chunk);
    assert s.handle.recvBuf + Flatten(s.queue + [chunk]) == held + chunk;
    ReadSoFarGrows(s.arrived, Messages(s.results), held, chunk);
  }

  lemma CallKeepsParse(s: Receiving)
    requires ResultsAreParse(s)
    ensures ResultsAreParse(Step(s, Call))
  {
    var held := s.handle.recvBuf + Flatten(s.queue);
    var o := RecvCall(s.handle.recvBuf, s.queue, s.end);
    RecvCallIgnoresChunking(s.handle.recvBuf, s.queue, s.end);
    MessagesSnoc(s.results, o.result);
    if Take(held).Some? {
      ReadSoFarTakes(s.arrived, Messages(s.results), held, Take(held).value);
    } else {
      assert o.buf + Flatten(o.queue) == held;
    }
  }

  lemma MessagesSnoc(results: seq<RecvResult>, r: RecvResult)
    ensures Messages(results + [r]) == Messages(results) + if r.Message? then [r.body] else []
  {
    assert (results + [r])[..|results|] == results;
  }

  /** Every run, with arrivals, calls and the split in any order, returns the parse. */
  lemma {:induction false} RunIsParse(events: seq<Event>)
    ensures ResultsAreParse(Run(events))
  {
    if events != [] {
      var before, last := Run(events[..|events| - 1]), events[|events| - 1];
      RunIsParse(events[..|events| - 1]);
      match last {
        case Arrive(chunk) => ArriveKeepsParse(before, chunk);
        case Call => CallKeepsParse(before);
        case Ends(_) =>
        case Split =>
      }
    }
  }

  /** When a call reports anything but a message, every message that arrived has been returned and
      the buffer holds an unfinished frame - possibly a partial one that will never be reported. */
  lemma DrainedIsParse(events: seq<Event>)
    requires events != [] && events[|events| - 1] == Call
    requires !Run(events).results[|Run(events).results| - 1].Message?
    ensures var s := Run(events);
            Parse(s.arrived) == Parsed(Messages(s.results), s.handle.recvBuf) && UnfinishedFrame(s.handle.recvBuf) && s.queue == []
  {
    RunIsParse(events);
    var before := Run(events[..|events| - 1]);
    RecvCallIgnoresChunking(before.handle.recvBuf, before.queue, before.end);
    var s := Run(events);
    assert s.handle.recvBuf + Flatten(s.queue) == s.handle.recvBuf;
    TakeWaitsIffUnfinished(s.handle.recvBuf);
  }

  /** Chunking invariance: two drained runs that received the same bytes, cut and interleaved in
      any two ways, returned the same messages and hold the same leftover. */
  lemma ChunkingInvariance(one: seq<Event>, two: seq<Event>)
    requires one != [] && one[|one| - 1] == Call && two != [] && two[|two| - 1] == Call
    requires !Run(one).results[|Run(one).results| - 1].Message?
    requires !Run(two).results[|Run(two).results| - 1].Message?
    requires Run(one).arrived == Run(two).arrived
    ensures Messages(Run(one).results) == Messages(Run(two).results)
    ensures Run(one).handle.recvBuf == Run(two).handle.recvBuf
  {
    DrainedIsParse(one);
    DrainedIsParse(two);
  }

  /** The bytes of the chunks that arrive before the stream ends. */
  function BytesIn(events: seq<Event>): seq<byte>
  {
    if events == [] then []
    else
      var front, last := events[..|events| - 1], events[|events| - 1];
      BytesIn(front) + if last.Arrive? && !Over(front) then last.chunk else []
  }

  /** The peer has half-closed or reset. */
  predicate Over(events: seq<Event>)
  {
    exists k :: 0 <= k < |events| && events[k].Ends? && !events[k].end.Open?
  }

  lemma OverSnoc(front: seq<Event>, last: Event)
    ensures Over(front + [last]) <==> Over(front) || (last.Ends? && !last.end.Open?)
  {
    var events := front + [last];
    assert events[|front|] == last && forall k :: 0 <= k < |front| ==> events[k] == front[k];
  }

  /** Everything that arrives before the end counts, and nothing after it. */
  lemma {:induction false} ArrivedIsBytesIn(events: seq<Event>)
    ensures Run(events).arrived == BytesIn(events) && (Run(events).end.Open? <==> !Over(events))
  {
    if events != [] {
      var front, last := events[..|events| - 1], events[|events| - 1];
      ArrivedIsBytesIn(front);
      OverSnoc(front, last);
      assert events == front + [last];
    }
  }

  function Calls(n: nat): seq<Event>
  {
    seq(n, _ => Call)
  }

  lemma OneMoreCall(events: seq<Event>)
    ensures var s, t := Run(events), Run(events + [Call]); var o := RecvCall(s.handle.recvBuf, s.queue, s.end);
            && t == s.(handle := s.handle.(recvBuf := o.buf), queue := o.queue, results := s.results + [o.result])
            && (o.result.Message? ==> |t.handle.recvBuf + Flatten(t.queue)| < |s.handle.recvBuf + Flatten(s.queue)|)
            && (!o.result.Message? ==> Take(s.handle.recvBuf + Flatten(s.queue)).None?)
  {
    assert (events + [Call])[..|events|] == events;
    var s := Run(events);
    RecvCallIgnoresChunking(s.handle.recvBuf, s.queue, s.end);
  }

  /** Nothing gets stuck: from any run on, enough calls return every message of all the bytes in, and
      the last of them tells how the stream stands. */
  lemma {:induction false} CallsReturnEverything(events: seq<Event>) returns (calls: nat)
    ensures calls > 0
    ensures var s := Run(events + Calls(calls));
            && Messages(s.results) == Parse(BytesIn(events)).messages && s.handle.recvBuf == Parse(BytesIn(events)).rest
            && |s.results| > 0 && s.end == Run(events).end
            && var last := s.results[|s.results| - 1];
               last == if s.end.Fin? then EndOfStream else if s.end.Reset? then RecvError else Parked
    decreases var s := Run(events); |s.handle.recvBuf + Flatten(s.queue)|
  {
    var next := events + [Call];
    var s, t := Run(events), Run(next);
    OneMoreCall(events);
    ArrivedIsBytesIn(events);
    ArrivedIsBytesIn(next);
    if t.results[|s.results|].Message? {
      var more := CallsReturnEverything(next);
      calls := more + 1;
      assert events + Calls(calls) == next + Calls(more);
    } else {
      calls := 1;
      assert events + Calls(1) == next;
      RecvCallIgnoresChunking(s.handle.recvBuf, s.queue, s.end);
      DrainedIsParse(next);
    }
  }

  // ---- The same with the objects ----------------------------------------------------------

  /** Calls `RecvMessage` up to `calls` times on the whole stream, splits it, and then calls it on the
      receive half until no message comes: the messages are the parse of every byte that arrived. */
  method ReceiveAcrossSplit(inner: H3Recv, calls: nat) returns (messages: seq<Body>, last: RecvResult, half: QuicRecvStream)
    modifies inner
    ensures fresh(half) && fresh(half.recvBuf) && half.inner == inner && inner.queue == [] && inner.end == old(inner.end)
    ensures last == if inner.end.Fin? then EndOfStream else if inner.end.Reset? then RecvError else Parked
    ensures Parse(Flatten(old(inner.queue))) == Parsed(messages, half.recvBuf.contents)
  {
    ghost var all := Flatten(inner.queue);
    var stream := new QuicStream(inner);
    messages, last := [], Parked;
    var more, n := true, 0;
    assert [] + Flatten(inner.queue) == all;
    while more && n < calls
      invariant n <= calls && inner.end == old(inner.end) && fresh(stream.recvBuf)
      invariant ReadSoFar(all, messages, stream.recvBuf.contents + Flatten(inner.queue))
    {
      ghost var buf, queue := stream.recvBuf.contents, inner.queue;
      last := stream.RecvMessage();
      OneCall(all, messages, buf, queue, inner.end);
      if last.Message? { messages := messages + [last.body]; }
      more, n := last.Message?, n + 1;
    }
    half := stream.Split();
    more := true;
    while more
      invariant inner.end == old(inner.end)
      invariant ReadSoFar(all, messages, half.recvBuf.contents + Flatten(inner.queue))
      invariant !more ==> last == AtEnd(inner.end) && inner.queue == [] && Take(half.recvBuf.contents).None?
      decreases |half.recvBuf.contents + Flatten(inner.queue)|, more
    {
      ghost var buf, queue := half.recvBuf.contents, inner.queue;
      last := half.RecvMessage();
      OneCall(all, messages, buf, queue, inner.end);
      if last.Message? { messages := messages + [last.body]; }
      more := last.Message?;
    }
    NothingLeft(all, messages, half.recvBuf.contents);
  }

  /** One call keeps a faithful reader faithful, and only a message leaves bytes behind it unread. */
  lemma OneCall(whole: seq<byte>, got: seq<Body>, buf: seq<byte>, queue: seq<seq<byte>>, end: End)
    requires ReadSoFar(whole, got, buf + Flatten(queue))
    ensures var o := RecvCall(buf, queue, end);
            match o.result
            case Message(body) =>
              && ReadSoFar(whole, got + [body], o.buf + Flatten(o.queue))
              && |o.buf + Flatten(o.queue)| < |buf + Flatten(queue)|
            case _ =>
              && o.result == AtEnd(end) && o.queue == [] && Take(o.buf).None?
              && ReadSoFar(whole, got, o.buf + Flatten(o.queue)) && o.buf + Flatten(o.queue) == buf + Flatten(queue)
  {
    var held := buf + Flatten(queue);
    RecvCallIgnoresChunking(buf, queue, end);
    if Take(held).Some? {
      ReadSoFarTakes(whole, got, held, Take(held).value);
    } else {
      var o := RecvCall(buf, queue, end);
      assert o.buf + Flatten(o.queue) == held;
    }
  }

  lemma NothingLeft(whole: seq<byte>, got: seq<Body>, held: seq<byte>)
    requires ReadSoFar(whole, got, held + Flatten<byte>([])) && Take(held).None?
    ensures Parse(whole) == Parsed(got, held)
  {
    assert held + Flatten<byte>([]) == held;
    assert Parse(held) == Parsed([], held) && got + [] == got;
  }
}
