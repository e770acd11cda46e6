/** The echo server's connection handler: headers first, then every chunk back as it comes, then
    trailers and FIN, for one request after the other. */
module EchoServer {
  import opened Sequences
  import opened ResponseGrammar
  import Grpc

  /** What happens on one request stream, in order. */
  datatype Event = Sent(frame: Out) | Got(chunk: seq<byte>) | SawEnd

  /** The frames among the events. */
  function Frames(log: seq<Event>): seq<Out>
  {
    if log == [] then []
    else Frames(log[..|log| - 1]) + if log[|log| - 1].Sent? then [log[|log| - 1].frame] else []
  }

  /** Each chunk read and sent back before the next one is read. */
  function Echoes(chunks: seq<seq<byte>>): seq<Event>
  {
    if chunks == [] then []
    else Echoes(chunks[..|chunks| - 1]) + [Got(chunks[|chunks| - 1]), Sent(Data(chunks[|chunks| - 1]))]
  }

  /** Everything that happens on a request that is served to its end. */
  function FullLog(chunks: seq<seq<byte>>): seq<Event>
  {
    [Sent(Headers)] + Echoes(chunks) + [SawEnd, Sent(Trailers), Sent(Fin)]
  }

  /** The server side of one h3 request stream: the chunks the client sends before it half-closes
      or resets, and how many sends succeed before the connection fails. */
  class EchoStream {
    var incoming: seq<seq<byte>>
    var halfCloses: bool
    var sendsLeft: nat
    var log: seq<Event>

    method Send(frame: Out) returns (ok: bool)
      modifies this`sendsLeft, this`log
      ensures ok == (old(sendsLeft) > 0)
      ensures ok ==> sendsLeft == old(sendsLeft) - 1 && log == old(log) + [Sent(frame)]
      ensures !ok ==> sendsLeft == 0 && log == old(log)
    {
      ok := sendsLeft > 0;
      if ok {
        sendsLeft := sendsLeft - 1;
        log := log + [Sent(frame)];
      }
    }

    /** The next chunk; none at the half-close; an error on a reset. */
    method RecvData() returns (chunk: Option<seq<byte>>, ok: bool)
      modifies this`incoming, this`log
      ensures old(incoming) != [] ==>
                && ok && chunk == Some(old(incoming)[0])
                && incoming == old(incoming)[1..] && log == old(log) + [Got(old(incoming)[0])]
      ensures old(incoming) == [] ==>
                && ok == halfCloses && chunk == None
                && incoming == [] && log == old(log) + if halfCloses then [SawEnd] else []
    {
      if incoming != [] {
        chunk, ok := Some(incoming[0]), true;
        log := log + [Got(incoming[0])];
        incoming := incoming[1..];
      } else {
        chunk, ok := None, halfCloses;
        log := log + if halfCloses then [SawEnd] else [];
      }
    }
  }

  lemma EchoesSnoc(chunks: seq<seq<byte>>, c: seq<byte>)
    ensures Echoes(chunks + [c]) == Echoes(chunks) + [Got(c), Sent(Data(c))]
  {
    assert (chunks + [c])[..|chunks|] == chunks;
  }

  lemma {:induction false} EchoesPrefix(chunks: seq<seq<byte>>, k: nat)
    requires k <= |chunks|
    ensures Echoes(chunks[..k]) <= Echoes(chunks)
    ensures k < |chunks| ==> Echoes(chunks[..k]) + [Got(chunks[k]), Sent(Data(chunks[k]))] <= Echoes(chunks)
    decreases |chunks| - k
  {
    if k == |chunks| {
      assert chunks[..k] == chunks;
    } else {
      EchoesSnoc(chunks[..k], chunks[k]);
      assert chunks[..k + 1] == chunks[..k] + [chunks[k]];
      EchoesPrefix(chunks, k + 1);
    }
  }

  /** The events after `k` chunks, and after reading one more, are how a full log begins. */
  lemma PartialLog(chunks: seq<seq<byte>>, k: nat)
    requires k <= |chunks|
    ensures [Sent(Headers)] + Echoes(chunks[..k]) <= FullLog(chunks)
    ensures k < |chunks| ==> [Sent(Headers)] + Echoes(chunks[..k]) + [Got(chunks[k])] <= FullLog(chunks)
  {
    EchoesPrefix(chunks, k);
    if k < |chunks| {
      var more := Echoes(chunks[..k]) + [Got(chunks[k]), Sent(Data(chunks[k]))];
      assert Echoes(chunks[..k]) + [Got(chunks[k])] <= more;
    }
  }

  /** The events after one more turn of the echo loop. */
  lemma NextTurn(chunks: seq<seq<byte>>, k: nat)
    requires k < |chunks|
    ensures chunks[k..][0] == chunks[k] && chunks[k..][1..] == chunks[k + 1..]
    ensures [Sent(Headers)] + Echoes(chunks[..k]) + [Got(chunks[k])] + [Sent(Data(chunks[k]))]
         == [Sent(Headers)] + Echoes(chunks[..k + 1])
  {
    EchoesSnoc(chunks[..k], chunks[k]);
    assert chunks[..k + 1] == chunks[..k] + [chunks[k]];
  }

  lemma LastTurn(chunks: seq<seq<byte>>, k: nat)
    requires k <= |chunks| && chunks[k..] == []
    ensures k == |chunks| && chunks[..k] == chunks
  {
  }

  /** `log` is where a request stops that can send `sends` frames: at a frame too many, or at the end
      of a request that was reset. */
  ghost predicate StopsAt(log: seq<Event>, chunks: seq<seq<byte>>, halfCloses: bool, sends: nat)
  {
    && log < FullLog(chunks)
    && match FullLog(chunks)[|log|]
       case Sent(_) => |Frames(log)| == sends
       case Got(_) => false
       case SawEnd => !halfCloses
  }

  lemma {:induction false} EchoesCount(chunks: seq<seq<byte>>)
    ensures |Echoes(chunks)| == 2 * |chunks| && |Frames([Sent(Headers)] + Echoes(chunks))| == 1 + |chunks|
    decreases |chunks|
  {
    var head: seq<Event> := [Sent(Headers)];
    if chunks == [] {
      assert head + Echoes(chunks) == head && head[..0] == [];
    } else {
      var front, last := chunks[..|chunks| - 1], chunks[|chunks| - 1];
      EchoesCount(front);
      var log := head + Echoes(front);
      ReadNotSent(log, Got(last));
      ReadNotSent(log + [Got(last)], Sent(Data(last)));
      assert head + Echoes(chunks) == log + [Got(last)] + [Sent(Data(last))];
    }
  }

  lemma ReadNotSent(log: seq<Event>, e: Event)
    ensures Frames(log + [e]) == Frames(log) + if e.Sent? then [e.frame] else []
  {
    assert (log + [e])[..|log|] == log;
  }

  /** Stopping before the data frame number `k`, and at a reset. */
  lemma StopsInLoop(chunks: seq<seq<byte>>, k: nat, sends: nat)
    requires k <= |chunks|
    ensures var log := [Sent(Headers)] + Echoes(chunks[..k]);
            if k < |chunks| then StopsAt(log + [Got(chunks[k])], chunks, true, k + 1)
                                 && StopsAt(log + [Got(chunks[k])], chunks, false, k + 1)
            else StopsAt(log, chunks, false, sends)
  {
    PartialLog(chunks, k);
    EchoesCount(chunks);
    EchoesCount(chunks[..k]);
    if k < |chunks| {
      var log := [Sent(Headers)] + Echoes(chunks[..k]);
      ReadNotSent(log, Got(chunks[k]));
      EchoesPrefix(chunks, k);
      var turn: seq<Event> := [Got(chunks[k]), Sent(Data(chunks[k]))];
      var upTo := Echoes(chunks[..k]) + turn;
      assert upTo[2 * k + 1] == Sent(Data(chunks[k])) && Echoes(chunks)[2 * k + 1] == upTo[2 * k + 1];
      assert FullLog(chunks)[2 * k + 2] == Echoes(chunks)[2 * k + 1];
    } else {
      assert chunks[..k] == chunks;
    }
  }

  /** The inner loop: every chunk goes back before the next is read. It succeeds exactly when the
      client half-closes and every send does. */
  method EchoChunks(stream: EchoStream) returns (ok: bool)
    requires stream.log == [Sent(Headers)]
    modifies stream
    ensures ok <==> old(stream.halfCloses) && old(stream.sendsLeft) >= |old(stream.incoming)|
    ensures ok ==> stream.log == [Sent(Headers)] + Echoes(old(stream.incoming)) + [SawEnd]
    ensures ok ==> stream.sendsLeft == old(stream.sendsLeft) - |old(stream.incoming)|
    ensures !ok ==> StopsAt(stream.log, old(stream.incoming), old(stream.halfCloses), 1 + old(stream.sendsLeft))
  {
    ghost var chunks := stream.incoming;
    ghost var k := 0;
    var more := true;
    while more
      invariant k <= |chunks| && stream.incoming == chunks[k..] && stream.halfCloses == old(stream.halfCloses)
      invariant stream.sendsLeft + k == old(stream.sendsLeft)
      invariant more ==> stream.log == [Sent(Headers)] + Echoes(chunks[..k])
      invariant !more ==> k == |chunks| && stream.halfCloses
      invariant !more ==> stream.log == [Sent(Headers)] + Echoes(chunks) + [SawEnd]
      decreases |stream.incoming|, more
    {
      StopsInLoop(chunks, k, 1 + old(stream.sendsLeft));
      if stream.incoming == [] {
        LastTurn(chunks, k);
      } else {
        NextTurn(chunks, k);
      }
      var chunk, fine := stream.RecvData();
      if !fine {
        return false;
      }
      if chunk.None? {
        more := false;
      } else {
        ok := stream.Send(Data(chunk.value));
        if !ok {
          return;
        }
        k := k + 1;
      }
    }
    ok := true;
  }

  lemma FramesOfFull(chunks: seq<seq<byte>>)
    ensures |Frames([Sent(Headers)] + Echoes(chunks) + [SawEnd])| == 1 + |chunks|
  {
    EchoesCount(chunks);
    ReadNotSent([Sent(Headers)] + Echoes(chunks), SawEnd);
  }

  /** One request of `handle_conn`. It succeeds exactly when the client half-closes and the sends up
      to the trailers succeed; whatever happens, the events are a beginning of the full log, so
      headers go out before any request data is read. The result of `finish` is ignored. */
  method ServeRequest(stream: EchoStream) returns (ok: bool)
    requires stream.log == []
    modifies stream
    ensures ok <==> old(stream.halfCloses) && old(stream.sendsLeft) >= |old(stream.incoming)| + 2
    ensures stream.log <= FullLog(old(stream.incoming))
    ensures ok ==> |stream.log| >= |FullLog(old(stream.incoming))| - 1
    ensures ok ==> (stream.log == FullLog(old(stream.incoming)) <==> old(stream.sendsLeft) > |old(stream.incoming)| + 2)
    ensures !ok ==> StopsAt(stream.log, old(stream.incoming), old(stream.halfCloses), old(stream.sendsLeft))
  {
    ghost var chunks := stream.incoming;
    EchoesCount(chunks);
    FramesOfFull(chunks);
    ghost var served := [Sent(Headers)] + Echoes(chunks);
    assert FullLog(chunks) == served + [SawEnd, Sent(Trailers), Sent(Fin)];
    ok := stream.Send(Headers);
    if !ok {
      return;
    }
    ok := EchoChunks(stream);
    if !ok {
      return;
    }
    ok := stream.Send(Trailers);
    if !ok {
      return;
    }
    var finished := stream.Send(Fin);
  }

  datatype Accepted = Request(stream: EchoStream) | AcceptError

  ghost predicate WillServe(a: Accepted)
    reads if a.Request? then {a.stream} else {}
  {
    a.Request? && a.stream.halfCloses && a.stream.sendsLeft >= |a.stream.incoming| + 2
  }

  ghost function StreamsOf(requests: seq<Accepted>): set<EchoStream>
  {
    set i | 0 <= i < |requests| && requests[i].Request? :: requests[i].stream
  }

  /** The handler of one connection: one request after the other, until the client is done, or a
      request fails and the connection is abandoned with the later requests untouched. `served` counts
      those that were served. */
  method HandleConn(requests: seq<Accepted>) returns (ok: bool, ghost served: nat)
    requires forall i :: 0 <= i < |requests| && requests[i].Request? ==> requests[i].stream.log == []
    requires forall i, j :: 0 <= i < j < |requests| && requests[i].Request? && requests[j].Request?
                        ==> requests[i].stream != requests[j].stream
    modifies StreamsOf(requests)
    ensures served <= |requests| && (ok <==> served == |requests|)
    ensures forall i :: 0 <= i < served ==>
              old(WillServe(requests[i])) && Echoed(requests[i].stream.log, old(requests[i].stream.incoming))
    ensures served < |requests| ==> !old(WillServe(requests[served]))
    ensures served < |requests| && requests[served].Request? ==>
              StopsAt(requests[served].stream.log, old(requests[served].stream.incoming),
                      old(requests[served].stream.halfCloses), old(requests[served].stream.sendsLeft))
    ensures forall i :: served < i < |requests| && requests[i].Request? ==> unchanged(requests[i].stream)
  {
    served := 0;
    var n := 0;
    while n < |requests|
      invariant served == n <= |requests|
      invariant forall i :: 0 <= i < n ==>
                  old(WillServe(requests[i])) && Echoed(requests[i].stream.log, old(requests[i].stream.incoming))
      invariant forall i :: n <= i < |requests| && requests[i].Request? ==> unchanged(requests[i].stream)
    {
      if requests[n].AcceptError? {
        return false, n;
      }
      ok := ServeRequest(requests[n].stream);
      if !ok {
        return;
      }
      n, served := n + 1, n + 1;
    }
    ok := true;
  }

  /** What a served request leaves: its full log, but for the FIN if `finish` failed. */
  ghost predicate Echoed(log: seq<Event>, chunks: seq<seq<byte>>)
  {
    log <= FullLog(chunks) && |log| >= |FullLog(chunks)| - 1
  }

  lemma {:induction false} FramesConcat(a: seq<Event>, b: seq<Event>)
    ensures Frames(a + b) == Frames(a) + Frames(b)
    decreases |b|
  {
    if b == [] {
      assert a + b == a;
    } else {
      FramesConcat(a, b[..|b| - 1]);
      assert (a + b)[..|a + b| - 1] == a + b[..|b| - 1];
    }
  }

  lemma {:induction false} FramesOfEchoes(chunks: seq<seq<byte>>)
    ensures Frames(Echoes(chunks)) == DataFrames(chunks)
    decreases |chunks|
  {
    if chunks != [] {
      var front, last := chunks[..|chunks| - 1], chunks[|chunks| - 1];
      FramesOfEchoes(front);
      FramesConcat(Echoes(front), [Got(last), Sent(Data(last))]);
      assert [Got(last), Sent(Data(last))][..1] == [Got(last)];
      assert Frames([Got(last), Sent(Data(last))]) == Frames([Got(last)]) + [Data(last)];
      assert Frames([Got(last)]) == [];
    }
  }

  /** A request served to its end puts exactly one response on its stream: the chunks read, in
      order, with trailers. */
  lemma FullLogIsResponse(chunks: seq<seq<byte>>)
    ensures Frames(FullLog(chunks)) == Response(chunks, true)
  {
    var head: seq<Event> := [Sent(Headers)];
    var tail: seq<Event> := [SawEnd, Sent(Trailers), Sent(Fin)];
    FramesOfEchoes(chunks);
    FramesConcat(head + Echoes(chunks), tail);
    FramesConcat(head, Echoes(chunks));
    assert Frames(head) == Frames([]) + [Headers];
    assert tail[..2] == [SawEnd, Sent(Trailers)] && [SawEnd, Sent(Trailers)][..1] == [SawEnd];
    assert Frames(tail) == Frames(tail[..2]) + [Fin];
    assert Frames(tail[..2]) == Frames([SawEnd]) + [Trailers];
    assert Frames([SawEnd]) == [];
  }

  /** Whatever part of a request is served, its frames are a prefix of HEADERS DATA* TRAILERS FIN,
      and nothing is read before the headers are sent. */
  lemma EchoFramesInOrder(log: seq<Event>, chunks: seq<seq<byte>>)
    requires log <= FullLog(chunks)
    ensures Frames(log) <= Response(chunks, true) && PrefixOfResponse(Frames(log))
    ensures log != [] ==> log[0] == Sent(Headers)
  {
    FullLogIsResponse(chunks);
    var rest := FullLog(chunks)[|log|..];
    assert FullLog(chunks) == log + rest;
    FramesConcat(log, rest);
  }

  lemma {:induction false} PayloadsConcat(a: seq<Out>, b: seq<Out>)
    ensures Flatten(Payloads(a + b)) == Flatten(Payloads(a)) + Flatten(Payloads(b))
    decreases |b|
  {
    if b == [] {
      assert a + b == a;
    } else {
      var front, last := b[..|b| - 1], b[|b| - 1];
      PayloadsConcat(a, front);
      assert a + b == (a + front) + [last] && b == front + [last];
      PayloadsSnoc(a + front, last);
      PayloadsSnoc(front, last);
      SeqAssociates(Flatten(Payloads(a)), Flatten(Payloads(front)), if last.Data? then last.bytes else []);
    }
  }

  lemma {:induction false} PayloadsOfData(payloads: seq<seq<byte>>)
    ensures Flatten(Payloads(DataFrames(payloads))) == Flatten(payloads)
    decreases |payloads|
  {
    if payloads != [] {
      var front, last := payloads[..|payloads| - 1], payloads[|payloads| - 1];
      PayloadsOfData(front);
      PayloadsSnoc(DataFrames(front), Data(last));
      FlattenSnoc(front, last);
      assert payloads == front + [last];
    }
  }

  lemma PayloadsOfResponse(payloads: seq<seq<byte>>)
    ensures Flatten(Payloads(Response(payloads, true))) == Flatten(payloads)
  {
    var sent := [Headers] + DataFrames(payloads);
    PayloadsOfData(payloads);
    PayloadsConcat([Headers], DataFrames(payloads));
    PayloadsSnoc([], Headers);
    PayloadsSnoc(sent, Trailers);
    PayloadsSnoc(sent + [Trailers], Fin);
    assert [] + [Headers] == [Headers] && Response(payloads, true) == sent + [Trailers] + [Fin];
  }

  /** Messages come back whole: however the client's bytes were cut into chunks, and wherever the
      handler stops, what its response carries parses into a prefix of the messages sent - into all
      of them when the request was served to its trailers. */
  lemma MessagesComeBack(messages: seq<Grpc.Body>, chunks: seq<seq<byte>>, log: seq<Event>)
    requires Grpc.AllFit(messages) && Flatten(chunks) == Grpc.WireOf(messages)
    requires log <= FullLog(chunks)
    ensures var echoed := Grpc.Parse(Carried(log));
            && echoed.messages <= messages
            && (|log| >= |FullLog(chunks)| - 1 ==> echoed == Grpc.Parsed(messages, []))
  {
    var rest := FullLog(chunks)[|log|..];
    assert FullLog(chunks) == log + rest;
    CarriedSplits(chunks, log, rest);
    Grpc.CutOfWire(messages, Carried(log), Carried(rest));
    if |log| >= |FullLog(chunks)| - 1 {
      LastEvent(chunks, rest);
      LastEventCarriesNothing(rest);
    }
  }

  /** The data bytes among the frames sent. */
  function Carried(log: seq<Event>): seq<byte>
  {
    Flatten(Payloads(Frames(log)))
  }

  lemma CarriedSplits(chunks: seq<seq<byte>>, log: seq<Event>, rest: seq<Event>)
    requires log + rest == FullLog(chunks)
    ensures Flatten(chunks) == Carried(log) + Carried(rest)
  {
    FramesConcat(log, rest);
    FullLogIsResponse(chunks);
    PayloadsOfResponse(chunks);
    PayloadsConcat(Frames(log), Frames(rest));
  }

  lemma LastEvent(chunks: seq<seq<byte>>, rest: seq<Event>)
    requires |rest| <= 1 && rest == FullLog(chunks)[|FullLog(chunks)| - |rest|..]
    ensures rest == [] || rest == [Sent(Fin)]
  {
  }

  lemma LastEventCarriesNothing(rest: seq<Event>)
    requires rest == [] || rest == [Sent(Fin)]
    ensures Carried(rest) == []
  {
    if rest != [] {
      assert rest[..0] == [];
      assert Frames(rest) == [] + [Fin];
      PayloadsSnoc([], Fin);
    }
  }
}
