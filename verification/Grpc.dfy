/** Length-prefixed message framing: the buffer, `encode_frame`, `take_frame`, and the meaning of
    a whole byte stream. A frame is one flag byte, a big-endian 32-bit length and the body. */
module Grpc {
  import opened Sequences

  const U32_RANGE := 0x1_0000_0000
  const HEADER_LEN := 5

  type Body = seq<byte>

  // ---- The 32-bit length field ------------------------------------------------------------

  /** The four big-endian bytes `put_u32` writes for a length cast to 32 bits. */
  function U32Bytes(n: nat): (b: seq<byte>)
    ensures |b| == 4
  {
    var n1 := n / 256;
    var n2 := n1 / 256;
    var n3 := n2 / 256;
    [(n3 % 256) as byte, (n2 % 256) as byte, (n1 % 256) as byte, (n % 256) as byte]
  }

  /** What `u32::from_be_bytes` reads back. */
  function U32Value(b: seq<byte>): (n: nat)
    requires |b| == 4
    ensures n < U32_RANGE
  {
    ((b[0] as int * 256 + b[1] as int) * 256 + b[2] as int) * 256 + b[3] as int
  }

  /** The length field keeps a length modulo 2^32 ... */
  lemma U32RoundTrip(n: nat)
    ensures U32Value(U32Bytes(n)) == n % U32_RANGE
  {
    var n1 := n / 256;
    var n2 := n1 / 256;
    var n3 := n2 / 256;
    SplitByte(n);
    SplitByte(n1);
    SplitByte(n2);
    SplitByte(n3);
    var b := U32Bytes(n);
    assert b[0] as int == n3 % 256 && b[1] as int == n2 % 256 && b[2] as int == n1 % 256 && b[3] as int == n % 256;
    assert n == U32_RANGE * (n3 / 256) + U32Value(b);
    Remainder(n3 / 256, U32Value(b));
  }

  lemma SplitByte(n: nat)
    ensures n == 256 * (n / 256) + n % 256
  {
  }

  lemma Remainder(q: nat, r: nat)
    requires r < U32_RANGE
    ensures (U32_RANGE * q + r) % U32_RANGE == r
  {
  }

  lemma LastByte(q: nat, r: nat)
    requires r < 256
    ensures (q * 256 + r) / 256 == q && (q * 256 + r) % 256 == r
  {
  }

  /** ... and the four bytes determine the length and are determined by it. */
  lemma U32BytesInvert(b: seq<byte>)
    requires |b| == 4
    ensures U32Bytes(U32Value(b)) == b
  {
    var v3 := b[0] as int;
    var v2 := v3 * 256 + b[1] as int;
    var v1 := v2 * 256 + b[2] as int;
    LastByte(v1, b[3] as int);
    LastByte(v2, b[2] as int);
    LastByte(v3, b[1] as int);
  }

  /** The most significant byte comes first: values are ordered as their bytes are. */
  lemma BigEndian(a: seq<byte>, b: seq<byte>, k: nat)
    requires |a| == |b| == 4 && k < 4 && a[..k] == b[..k] && a[k] < b[k]
    ensures U32Value(a) < U32Value(b)
  {
    assert forall j :: 0 <= j < k ==> a[..k][j] == a[j] && b[..k][j] == b[j];
  }

  // ---- Frames -----------------------------------------------------------------------------

  /** The bytes one `encode_frame` call produces. */
  function FrameOf(body: Body): seq<byte>
  {
    [0 as byte] + U32Bytes(|body|) + body
  }

  /** A body whose length survives the cast to 32 bits. */
  predicate Fits(body: Body)
  {
    |body| < U32_RANGE
  }

  /** Exactly one frame, whatever its flag byte says. */
  predicate WholeFrame(f: seq<byte>)
  {
    |f| >= HEADER_LEN && |f| == HEADER_LEN + U32Value(f[1..HEADER_LEN])
  }

  /** Bytes that some continuation turns into exactly one frame: an unfinished frame. */
  ghost predicate UnfinishedFrame(b: seq<byte>)
  {
    exists t: seq<byte> :: t != [] && WholeFrame(b + t)
  }

  datatype Cut = Cut(body: Body, rest: seq<byte>)

  /** The value of `take_frame` on a buffer: the first body and what stays buffered. */
  function Take(buf: seq<byte>): (r: Option<Cut>)
    ensures r.Some? ==> |r.value.rest| < |buf|
  {
    if |buf| < HEADER_LEN then None
    else
      var len := U32Value(buf[1..HEADER_LEN]);
      if |buf| < HEADER_LEN + len then None
      else Some(Cut(buf[HEADER_LEN..HEADER_LEN + len], buf[HEADER_LEN + len..]))
  }

  /** `take_frame` answers exactly when the buffer starts with a whole frame, and then yields that
      frame's body and everything behind it. */
  lemma TakeWhole(frame: seq<byte>, tail: seq<byte>)
    requires WholeFrame(frame)
    ensures Take(frame + tail) == Some(Cut(frame[HEADER_LEN..], tail))
  {
    var buf := frame + tail;
    assert buf[1..HEADER_LEN] == frame[1..HEADER_LEN];
    assert buf[HEADER_LEN..|frame|] == frame[HEADER_LEN..];
    assert buf[|frame|..] == tail;
  }

  lemma TakeSplitsWhole(buf: seq<byte>) returns (frame: seq<byte>)
    requires Take(buf).Some?
    ensures WholeFrame(frame) && buf == frame + Take(buf).value.rest
    ensures Take(buf).value.body == frame[HEADER_LEN..]
  {
    var len := U32Value(buf[1..HEADER_LEN]);
    frame := buf[..HEADER_LEN + len];
    assert frame[1..HEADER_LEN] == buf[1..HEADER_LEN];
  }

  /** A header completed with zeros, and then a body of zeros, completes any unfinished frame. */
  lemma WaitingIsUnfinished(buf: seq<byte>)
    requires Take(buf).None?
    ensures UnfinishedFrame(buf)
  {
    var pad := if |buf| < HEADER_LEN then HEADER_LEN - |buf| else 0;
    var head := buf + Zeros(pad);
    assert |buf| >= HEADER_LEN ==> head == buf;
    var missing := HEADER_LEN + U32Value(head[1..HEADER_LEN]) - |head|;
    assert missing >= 0;
    var t := Zeros(pad) + Zeros(missing);
    assert buf + t == head + Zeros(missing);
    assert (buf + t)[1..HEADER_LEN] == head[1..HEADER_LEN];
    assert t != [] && WholeFrame(buf + t);
  }

  function Zeros(n: nat): (z: seq<byte>)
    ensures |z| == n
  {
    seq(n, _ => 0)
  }

  lemma UnfinishedIsWaiting(buf: seq<byte>, t: seq<byte>)
    requires t != [] && WholeFrame(buf + t)
    ensures Take(buf).None?
  {
    if |buf| >= HEADER_LEN {
      assert (buf + t)[1..HEADER_LEN] == buf[1..HEADER_LEN];
    }
  }

  /** `take_frame` waits exactly while the buffer is an unfinished frame. */
  lemma TakeWaitsIffUnfinished(buf: seq<byte>)
    ensures Take(buf).None? <==> UnfinishedFrame(buf)
  {
    if Take(buf).None? {
      WaitingIsUnfinished(buf);
    }
    if UnfinishedFrame(buf) {
      var t: seq<byte> :| t != [] && WholeFrame(buf + t);
      UnfinishedIsWaiting(buf, t);
    }
  }

  /** Encoding then cutting gives the message back exactly when its length fits 32 bits. */
  lemma EncodeThenTake(body: Body, tail: seq<byte>)
    ensures Take(FrameOf(body) + tail) == Some(Cut(body, tail)) <==> Fits(body)
    ensures Fits(body) <==> WholeFrame(FrameOf(body))
    ensures Take(FrameOf(body) + tail) == Some(Cut(body[..|body| % U32_RANGE], body[|body| % U32_RANGE..] + tail))
  {
    U32RoundTrip(|body|);
    var frame := FrameOf(body);
    var buf := frame + tail;
    var kept := |body| % U32_RANGE;
    assert frame[1..HEADER_LEN] == U32Bytes(|body|) == buf[1..HEADER_LEN];
    assert buf[HEADER_LEN..HEADER_LEN + kept] == body[..kept];
    assert buf[HEADER_LEN + kept..] == body[kept..] + tail;
    if Fits(body) {
      assert body[..kept] == body && body[kept..] + tail == tail;
    }
  }

  /** A whole frame with the uncompressed flag is the encoding of its own body. */
  lemma TakeThenEncode(frame: seq<byte>)
    requires WholeFrame(frame)
    ensures FrameOf(frame[HEADER_LEN..]) == frame <==> frame[0] == 0
  {
    U32BytesInvert(frame[1..HEADER_LEN]);
    assert frame == [frame[0]] + frame[1..HEADER_LEN] + frame[HEADER_LEN..];
  }

  // ---- Whole streams ----------------------------------------------------------------------

  /** All the messages a byte stream carries, and the bytes left over. */
  datatype Parsed = Parsed(messages: seq<Body>, rest: seq<byte>)

  /** One-shot parse: cut frames off the front until none is complete. */
  function Parse(b: seq<byte>): Parsed
    decreases |b|
  {
    match Take(b)
    case None => Parsed([], b)
    case Some(cut) =>
      var p := Parse(cut.rest);
      Parsed([cut.body] + p.messages, p.rest)
  }

  lemma ParseHead(b: seq<byte>, cut: Cut)
    requires Take(b) == Some(cut)
    ensures Parse(b).messages == [cut.body] + Parse(cut.rest).messages
    ensures Parse(b).rest == Parse(cut.rest).rest
  {
  }

  /** The bytes written by sending `messages` in order. */
  function WireOf(messages: seq<Body>): seq<byte>
  {
    if messages == [] then [] else FrameOf(messages[0]) + WireOf(messages[1..])
  }

  ghost predicate AllFit(messages: seq<Body>)
  {
    forall m :: m in messages ==> Fits(m)
  }

  ghost predicate AllWhole(frames: seq<seq<byte>>)
  {
    forall f :: f in frames ==> WholeFrame(f)
  }

  function Bodies(frames: seq<seq<byte>>): seq<Body>
    requires forall f :: f in frames ==> |f| >= HEADER_LEN
  {
    if frames == [] then [] else [frames[0][HEADER_LEN..]] + Bodies(frames[1..])
  }

  /** Every split of a stream into whole frames and an unfinished tail is the one `Parse` finds. */
  lemma {:induction false} ParseUnique(frames: seq<seq<byte>>, tail: seq<byte>)
    requires AllWhole(frames) && UnfinishedFrame(tail)
    ensures Parse(Flatten(frames) + tail) == Parsed(Bodies(frames), tail)
  {
    if frames == [] {
      assert Flatten(frames) + tail == tail;
      TakeWaitsIffUnfinished(tail);
    } else {
      var more := Flatten(frames[1..]) + tail;
      assert Flatten(frames) + tail == frames[0] + more;
      TakeWhole(frames[0], more);
      ParseUnique(frames[1..], tail);
    }
  }

  /** And every stream has such a split: the leftover of a parse is an unfinished frame. */
  lemma {:induction false} ParseExists(b: seq<byte>) returns (frames: seq<seq<byte>>)
    ensures AllWhole(frames) && UnfinishedFrame(Parse(b).rest)
    ensures b == Flatten(frames) + Parse(b).rest && Bodies(frames) == Parse(b).messages
    decreases |b|
  {
    TakeWaitsIffUnfinished(b);
    if Take(b).None? {
      frames := [];
    } else {
      var first := TakeSplitsWhole(b);
      var others := ParseExists(Take(b).value.rest);
      frames := [first] + others;
      assert frames[0] == first && frames[1..] == others;
      ParseHead(b, Take(b).value);
      SeqAssociates(first, Flatten(others), Parse(b).rest);
    }
  }

  /** Prefix stability: more bytes never change a cut that has been made. */
  lemma TakeStable(a: seq<byte>, more: seq<byte>)
    requires Take(a).Some?
    ensures Take(a + more) == Some(Cut(Take(a).value.body, Take(a).value.rest + more))
  {
    var frame := TakeSplitsWhole(a);
    assert a + more == frame + (Take(a).value.rest + more);
    TakeWhole(frame, Take(a).value.rest + more);
  }

  /** A stream may be parsed in any two pieces: finish the first, carry its leftover over. */
  lemma {:induction false} ParseConcat(a: seq<byte>, more: seq<byte>)
    ensures Parse(a + more).messages == Parse(a).messages + Parse(Parse(a).rest + more).messages
    ensures Parse(a + more).rest == Parse(Parse(a).rest + more).rest
    decreases |a|
  {
    if Take(a).Some? {
      var cut := Take(a).value;
      TakeStable(a, more);
      ParseConcat(cut.rest, more);
      ParseHead(a, cut);
      ParseHead(a + more, Cut(cut.body, cut.rest + more));
    } else {
      assert Parse(a) == Parsed([], a);
    }
  }

  /** A reader that returned `got` and holds `held` has read `whole` faithfully so far. */
  ghost predicate ReadSoFar(whole: seq<byte>, got: seq<Body>, held: seq<byte>)
  {
    Parse(whole).messages == got + Parse(held).messages && Parse(whole).rest == Parse(held).rest
  }

  /** Bytes appended to the stream and to the reader's buffer keep a faithful reader faithful ... */
  lemma ReadSoFarGrows(whole: seq<byte>, got: seq<Body>, held: seq<byte>, more: seq<byte>)
    requires ReadSoFar(whole, got, held)
    ensures ReadSoFar(whole + more, got, held + more)
  {
    ParseConcat(whole, more);
    ParseConcat(held, more);
    SeqAssociates(got, Parse(held).messages, Parse(Parse(held).rest + more).messages);
  }

  /** ... and so does returning the first message of the buffer. */
  lemma ReadSoFarTakes(whole: seq<byte>, got: seq<Body>, held: seq<byte>, cut: Cut)
    requires ReadSoFar(whole, got, held) && Take(held) == Some(cut)
    ensures ReadSoFar(whole, got + [cut.body], cut.rest)
  {
    ParseHead(held, cut);
    SeqAssociates(got, [cut.body], Parse(cut.rest).messages);
  }

  lemma {:induction false} WireOfConcat(a: seq<Body>, b: seq<Body>)
    ensures WireOf(a + b) == WireOf(a) + WireOf(b)
  {
    if a == [] {
      assert a + b == b;
    } else {
      var frame := FrameOf(a[0]);
      WireOfConcat(a[1..], b);
      assert (a + b)[0] == a[0] && (a + b)[1..] == a[1..] + b;
      assert WireOf(a + b) == frame + (WireOf(a[1..]) + WireOf(b));
      SeqAssociates(frame, WireOf(a[1..]), WireOf(b));
    }
  }

  /** Stream round trip: what was sent is what is parsed, exactly when every length fits. */
  lemma {:induction false} WireRoundTrip(messages: seq<Body>)
    ensures Parse(WireOf(messages)) == Parsed(messages, []) <==> AllFit(messages)
  {
    if messages == [] {
      assert Parse([]) == Parsed([], []);
    } else {
      var first, others := messages[0], messages[1..];
      assert messages == [first] + others;
      EncodeThenTake(first, WireOf(others));
      WireRoundTrip(others);
      if Fits(first) {
        ParseHead(WireOf(messages), Cut(first, WireOf(others)));
      } else {
        assert first in messages;
        var kept := |first| % U32_RANGE;
        ParseHead(WireOf(messages), Cut(first[..kept], first[kept..] + WireOf(others)));
      }
    }
  }

  /** A parse accounts for every byte. */
  lemma {:induction false} ParseLength(b: seq<byte>)
    ensures |b| == |WireOf(Parse(b).messages)| + |Parse(b).rest|
    decreases |b|
  {
    if Take(b).Some? {
      var cut := Take(b).value;
      ParseHead(b, cut);
      ParseLength(cut.rest);
      assert Parse(b).messages[1..] == Parse(cut.rest).messages;
    }
  }

  /** Any cut of a sent stream shows a prefix of the messages, and all of them only at the end. */
  lemma CutOfWire(sent: seq<Body>, front: seq<byte>, back: seq<byte>)
    requires AllFit(sent) && WireOf(sent) == front + back
    ensures Parse(front).messages <= sent
    ensures Parse(front).messages == sent <==> back == []
    ensures back == [] ==> Parse(front).rest == []
  {
    WireRoundTrip(sent);
    ParseConcat(front, back);
    assert front + [] == front;
    var carried := Parse(front).rest + back;
    if Parse(front).messages == sent {
      assert |Parse(carried).messages| == 0;
      assert Parse(carried).rest == carried;
    }
  }

  // ---- The buffer and the two operations --------------------------------------------------

  /** The growable byte buffer: the part of its interface the framing code uses. */
  class BytesMut {
    var contents: seq<byte>

    constructor ()
      ensures contents == []
    {
      contents := [];
    }

    method PutU8(b: byte)
      modifies this
      ensures contents == old(contents) + [b]
    {
      contents := contents + [b];
    }

    method PutU32(n: nat)
      modifies this
      ensures contents == old(contents) + U32Bytes(n)
    {
      contents := contents + U32Bytes(n);
    }

    method ExtendFromSlice(bytes: seq<byte>)
      modifies this
      ensures contents == old(contents) + bytes
    {
      contents := contents + bytes;
    }

    /** Cuts the first `at` bytes off into a new buffer and keeps the rest. */
    method SplitTo(at: nat) returns (front: BytesMut)
      requires at <= |contents|
      modifies this
      ensures fresh(front)
      ensures front.contents == old(contents)[..at] && contents == old(contents)[at..]
    {
      front := new BytesMut();
      front.contents := contents[..at];
      contents := contents[at..];
    }

    method Advance(count: nat)
      requires count <= |contents|
      modifies this
      ensures contents == old(contents)[count..]
    {
      contents := contents[count..];
    }
  }

  /** One gRPC frame around `body`. The length is cast to 32 bits, as the source does. */
  method EncodeFrame(body: Body) returns (frame: seq<byte>)
    ensures frame == FrameOf(body)
    ensures Fits(body) ==> WholeFrame(frame) && frame[HEADER_LEN..] == body
  {
    var buf := new BytesMut();
    buf.PutU8(0);
    buf.PutU32(|body|);
    buf.ExtendFromSlice(body);
    frame := buf.contents;
    EncodeThenTake(body, []);
  }

  /** Pulls one body out of `buf` if a whole frame is buffered; otherwise leaves `buf` alone. */
  method TakeFrame(buf: BytesMut) returns (r: Option<Body>)
    modifies buf
    ensures r.None? <==> UnfinishedFrame(old(buf.contents))
    ensures r.None? ==> buf.contents == old(buf.contents)
    ensures r.Some? ==> Take(old(buf.contents)) == Some(Cut(r.value, buf.contents))
  {
    TakeWaitsIffUnfinished(buf.contents);
    if |buf.contents| < HEADER_LEN {
      return None;
    }
    var len := U32Value(buf.contents[1..HEADER_LEN]);
    if |buf.contents| < HEADER_LEN + len {
      return None;
    }
    var frame := buf.SplitTo(HEADER_LEN + len);
    frame.Advance(HEADER_LEN);
    r := Some(frame.contents);
  }
}
