/** The frames a server puts on one response stream, and the order HTTP/3 allows for them
    (section 4.1 of RFC 9114): HEADERS, any number of DATA, optionally TRAILERS, then FIN. */
module ResponseGrammar {
  import opened Sequences

  datatype Out = Headers | Data(bytes: seq<byte>) | Trailers | Fin

  function DataFrames(payloads: seq<seq<byte>>): seq<Out>
  {
    if payloads == [] then []
    else DataFrames(payloads[..|payloads| - 1]) + [Data(payloads[|payloads| - 1])]
  }

  function TrailerFrame(present: bool): seq<Out>
  {
    if present then [Trailers] else []
  }

  /** A complete response. */
  function Response(payloads: seq<seq<byte>>, trailers: bool): seq<Out>
  {
    [Headers] + DataFrames(payloads) + TrailerFrame(trailers) + [Fin]
  }

  ghost predicate PrefixOfResponse(out: seq<Out>)
  {
    exists payloads: seq<seq<byte>>, trailers: bool :: out <= Response(payloads, trailers)
  }

  /** Where a stream stands after the frames sent so far. */
  datatype Phase = Start | Body | Tail | Closed | Invalid

  function NextPhase(p: Phase, o: Out): Phase
  {
    match o
    case Headers => if p == Start then Body else Invalid
    case Data(_) => if p == Body then Body else Invalid
    case Trailers => if p == Body then Tail else Invalid
    case Fin => if p == Body || p == Tail then Closed else Invalid
  }

  function PhaseOf(out: seq<Out>): Phase
  {
    if out == [] then Start else NextPhase(PhaseOf(out[..|out| - 1]), out[|out| - 1])
  }

  lemma PhaseSnoc(out: seq<Out>, o: Out)
    ensures PhaseOf(out + [o]) == NextPhase(PhaseOf(out), o)
  {
    assert (out + [o])[..|out|] == out;
  }

  /** The payloads of the DATA frames sent, in order. */
  function Payloads(out: seq<Out>): seq<seq<byte>>
  {
    if out == [] then []
    else
      var last := out[|out| - 1];
      Payloads(out[..|out| - 1]) + if last.Data? then [last.bytes] else []
  }

  lemma PayloadsSnoc(out: seq<Out>, o: Out)
    ensures Flatten(Payloads(out + [o])) == Flatten(Payloads(out)) + if o.Data? then o.bytes else []
  {
    assert (out + [o])[..|out|] == out;
    if o.Data? {
      FlattenSnoc(Payloads(out), o.bytes);
    } else {
      assert Payloads(out) + [] == Payloads(out);
    }
  }

  ghost predicate HasShape(p: Phase, out: seq<Out>, payloads: seq<seq<byte>>)
  {
    match p
    case Start => out == [] && payloads == []
    case Body => out == [Headers] + DataFrames(payloads)
    case Tail => out == [Headers] + DataFrames(payloads) + [Trailers]
    case Closed => out == Response(payloads, false) || out == Response(payloads, true)
    case Invalid => true
  }

  lemma ShapeSnoc(p: Phase, out: seq<Out>, payloads: seq<seq<byte>>, o: Out)
    requires HasShape(p, out, payloads)
    ensures HasShape(NextPhase(p, o), out + [o], payloads + if o.Data? then [o.bytes] else [])
  {
    match o {
      case Headers => assert p == Start ==> out + [o] == [Headers] + DataFrames([]);
      case Data(bytes) =>
        assert (payloads + [bytes])[..|payloads|] == payloads;
        assert p == Body ==> out + [o] == [Headers] + (DataFrames(payloads) + [o]);
      case Trailers => assert payloads + [] == payloads;
      case Fin =>
        assert payloads + [] == payloads;
        assert p == Body ==> out + [o] == Response(payloads, false);
        assert p == Tail ==> out + [o] == Response(payloads, true);
    }
  }

  /** Each phase names exactly one shape of output. */
  lemma {:induction false} PhaseShape(out: seq<Out>)
    ensures HasShape(PhaseOf(out), out, Payloads(out))
  {
    if out != [] {
      var front, last := out[..|out| - 1], out[|out| - 1];
      PhaseShape(front);
      ShapeSnoc(PhaseOf(front), front, Payloads(front), last);
      assert out == front + [last];
    }
  }

  lemma {:induction false} PhaseOfPrefix(out: seq<Out>, more: seq<Out>)
    requires PhaseOf(out + more) != Invalid
    ensures PhaseOf(out) != Invalid
    decreases |more|
  {
    if more == [] {
      assert out + more == out;
    } else {
      assert out + more == out + more[..|more| - 1] + [more[|more| - 1]];
      PhaseSnoc(out + more[..|more| - 1], more[|more| - 1]);
      PhaseOfPrefix(out, more[..|more| - 1]);
    }
  }

  lemma {:induction false} PhaseOfData(payloads: seq<seq<byte>>)
    ensures PhaseOf([Headers] + DataFrames(payloads)) == Body
    decreases |payloads|
  {
    var sent := [Headers] + DataFrames(payloads);
    if payloads == [] {
      PhaseSnoc([], Headers);
      assert sent == [] + [Headers];
    } else {
      var front, last := payloads[..|payloads| - 1], payloads[|payloads| - 1];
      PhaseOfData(front);
      PhaseSnoc([Headers] + DataFrames(front), Data(last));
      assert sent == [Headers] + DataFrames(front) + [Data(last)];
    }
  }

  lemma PhaseOfResponse(payloads: seq<seq<byte>>, trailers: bool)
    ensures PhaseOf(Response(payloads, trailers)) == Closed
  {
    var sent := [Headers] + DataFrames(payloads);
    PhaseOfData(payloads);
    PhaseSnoc(sent, Trailers);
    PhaseSnoc(sent, Fin);
    PhaseSnoc(sent + [Trailers], Fin);
    assert Response(payloads, false) == sent + [Fin];
    assert Response(payloads, true) == sent + [Trailers] + [Fin];
  }

  /** The phases accept exactly the prefixes of responses. */
  lemma ValidIffPrefixOfResponse(out: seq<Out>)
    ensures PhaseOf(out) != Invalid <==> PrefixOfResponse(out)
  {
    if PhaseOf(out) != Invalid {
      ValidIsPrefix(out);
    }
    if PrefixOfResponse(out) {
      var payloads: seq<seq<byte>>, trailers: bool :| out <= Response(payloads, trailers);
      var full := Response(payloads, trailers);
      PhaseOfResponse(payloads, trailers);
      assert full == out + full[|out|..];
      PhaseOfPrefix(out, full[|out|..]);
    }
  }

  lemma ValidIsPrefix(out: seq<Out>)
    requires PhaseOf(out) != Invalid
    ensures PrefixOfResponse(out)
  {
    PhaseShape(out);
    var p := Payloads(out);
    match PhaseOf(out) {
      case Start => PrefixIntro(out, p, false, Response(p, false));
      case Body => PrefixIntro(out, p, false, [Fin]);
      case Tail => PrefixIntro(out, p, true, [Fin]);
      case Closed => PrefixIntro(out, p, out == Response(p, true), []);
    }
  }

  lemma PrefixIntro(out: seq<Out>, payloads: seq<seq<byte>>, trailers: bool, more: seq<Out>)
    requires out + more == Response(payloads, trailers)
    ensures PrefixOfResponse(out)
  {
    assert out <= out + more;
  }

  ghost predicate CompleteResponse(out: seq<Out>)
  {
    exists payloads: seq<seq<byte>>, trailers: bool :: out == Response(payloads, trailers)
  }

  /** And the last phase is reached exactly by the complete responses. */
  lemma ClosedIffComplete(out: seq<Out>)
    ensures PhaseOf(out) == Closed <==> CompleteResponse(out)
  {
    if PhaseOf(out) == Closed {
      PhaseShape(out);
      if out == Response(Payloads(out), false) {
        CompleteIntro(out, Payloads(out), false);
      } else {
        CompleteIntro(out, Payloads(out), true);
      }
    }
    if CompleteResponse(out) {
      var payloads: seq<seq<byte>>, trailers: bool :| out == Response(payloads, trailers);
      PhaseOfResponse(payloads, trailers);
    }
  }

  lemma CompleteIntro(out: seq<Out>, payloads: seq<seq<byte>>, trailers: bool)
    requires out == Response(payloads, trailers)
    ensures CompleteResponse(out)
  {
  }

  /** The order read off the frames one by one: HEADERS at the front and nowhere else, FIN only at the
      end, and behind TRAILERS nothing but FIN. */
  ghost predicate FramesInOrder(out: seq<Out>)
  {
    && (forall i :: 0 <= i < |out| ==> (out[i].Headers? <==> i == 0))
    && (forall i :: 0 <= i < |out| && out[i].Fin? ==> i == |out| - 1)
    && (forall i :: 0 <= i < |out| - 1 && out[i].Trailers? ==> out[i + 1].Fin?)
  }

  lemma {:induction false} PhaseByIndex(out: seq<Out>)
    ensures PhaseOf(out) != Invalid <==> FramesInOrder(out)
    ensures FramesInOrder(out) ==>
              && (PhaseOf(out) == Start <==> out == [])
              && (PhaseOf(out) == Tail <==> out != [] && out[|out| - 1].Trailers?)
              && (PhaseOf(out) == Closed <==> out != [] && out[|out| - 1].Fin?)
    decreases |out|
  {
    if out != [] {
      var front, last := out[..|out| - 1], out[|out| - 1];
      PhaseByIndex(front);
      OrderSnoc(front, last);
      assert out == front + [last];
    }
  }

  lemma OrderSnoc(front: seq<Out>, last: Out)
    ensures FramesInOrder(front + [last]) <==>
            && FramesInOrder(front) && (last.Headers? <==> front == [])
            && (front != [] ==> !front[|front| - 1].Fin? && (front[|front| - 1].Trailers? ==> last.Fin?))
  {
    var out := front + [last];
    assert forall i :: 0 <= i < |front| ==> out[i] == front[i];
    assert out[|front|] == last;
    if FramesInOrder(out) {
      forall i | 0 <= i < |front|
        ensures (front[i].Headers? <==> i == 0) && !front[i].Fin?
        ensures front[i].Trailers? ==> i == |front| - 1 && last.Fin?
      {
        assert out[i] == front[i] && (out[i].Trailers? ==> out[i + 1].Fin?);
      }
    }
    if FramesInOrder(front) && (last.Headers? <==> front == [])
       && (front != [] ==> !front[|front| - 1].Fin? && (front[|front| - 1].Trailers? ==> last.Fin?)) {
      forall i | 0 <= i < |out| - 1 && out[i].Trailers?
        ensures out[i + 1].Fin?
      {
        assert out[i] == front[i];
      }
    }
  }

  lemma TrailersAreLate(out: seq<Out>)
    ensures PhaseOf(out) != Invalid && Trailers in out ==> PhaseOf(out) == Tail || PhaseOf(out) == Closed
  {
    PhaseByIndex(out);
    if FramesInOrder(out) && Trailers in out {
      var i :| 0 <= i < |out| && out[i] == Trailers;
      assert i == |out| - 1 || out[i + 1].Fin?;
    }
  }

  /** Prefixes of responses, and complete responses, told by their frames alone. */
  lemma OrderedIffPrefix(out: seq<Out>)
    ensures PrefixOfResponse(out) <==> FramesInOrder(out)
    ensures CompleteResponse(out) <==> FramesInOrder(out) && out != [] && out[|out| - 1].Fin?
  {
    ValidIffPrefixOfResponse(out);
    ClosedIffComplete(out);
    PhaseByIndex(out);
  }
}
