/** The obfuscating socket: every datagram sent is encoded under a fresh salt, every batch received
    is decoded in the caller's buffers. One datagram per buffer: segment offload is off. */
module ObfSocket {
  import opened Sequences
  import opened Salamander

  /** Upper bound of MTU discovery on a plain connection, and the one an obfuscated connection uses. */
  const MTUD_UPPER_BOUND := 1452
  const OBF_OVERHEAD := SALT_LEN
  const OBF_UPPER_BOUND := MTUD_UPPER_BOUND - OBF_OVERHEAD

  datatype SendResult = Ok | WouldBlock

  /** What the path does with the next datagram: takes it, pushes back, or swallows it. */
  datatype Path = Clear | Full | Dead

  datatype Meta = Meta(len: nat, stride: nat)

  datatype Poll = Pending | Ready(n: nat) | Failed

  /** What of a datagram fits a buffer. */
  function Fitting(datagram: Bytes, buf: array<bv8>): Bytes
  {
    datagram[..Min(|datagram|, buf.Length)]
  }

  /** The caller's side of one receive: disjoint buffers, and one metadata entry for each. */
  class Batch {
    const bufs: seq<array<bv8>>
    var meta: seq<Meta>

    constructor (bufs: seq<array<bv8>>, meta: seq<Meta>)
      ensures this.bufs == bufs && this.meta == meta
    {
      this.bufs, this.meta := bufs, meta;
    }

    ghost function Arrays(): set<array<bv8>>
    {
      set i | 0 <= i < |bufs| :: bufs[i]
    }

    ghost predicate Valid()
      reads this
    {
      |meta| == |bufs| && forall i, j :: 0 <= i < j < |bufs| ==> bufs[i] != bufs[j]
    }

    /** Buffer `i` starts with the datagram and its metadata say so. */
    ghost predicate Holds(i: nat, datagram: Bytes)
      requires i < |bufs|
      reads this, bufs[i]
    {
      i < |meta| && meta[i] == Meta(|datagram|, |datagram|) && |datagram| <= bufs[i].Length
      && bufs[i][..|datagram|] == datagram
    }

    /** Rewrites entry `k`: the front of its buffer and its metadata. */
    method Put(k: nat, datagram: Bytes)
      requires Valid() && k < |bufs| && |datagram| <= bufs[k].Length
      modifies this`meta, bufs[k]
      ensures Valid() && Holds(k, datagram)
      ensures forall i :: 0 <= i < |meta| && i != k ==> meta[i] == old(meta[i])
    {
      forall i | 0 <= i < |datagram| {
        bufs[k][i] := datagram[i];
      }
      meta := meta[k := Meta(|datagram|, |datagram|)];
    }
  }

  /** The plain socket underneath: what it put on the wire, and what has arrived. */
  class InnerSocket {
    var path: Path
    var wire: seq<Bytes>
    var inbound: seq<Bytes>
    var failing: bool

    constructor ()
      ensures path == Clear && wire == [] && inbound == [] && !failing
    {
      path, wire, inbound, failing := Clear, [], [], false;
    }

    method TrySend(contents: Bytes) returns (r: SendResult)
      modifies this`wire
      ensures r == if path.Full? then WouldBlock else Ok
      ensures wire == if path.Clear? then old(wire) + [contents] else old(wire)
    {
      r := if path.Full? then WouldBlock else Ok;
      if path.Clear? {
        wire := wire + [contents];
      }
    }

    /** Fills one buffer per datagram, as many as have arrived and fit the batch. */
    method PollRecv(batch: Batch) returns (r: Poll)
      requires batch.Valid()
      modifies this`inbound, batch`meta, batch.Arrays()
      ensures batch.Valid()
      ensures r == if failing then Failed else if old(inbound) == [] then Pending
                   else Ready(Min(|old(inbound)|, |batch.bufs|))
      ensures inbound == if r.Ready? then old(inbound)[r.n..] else old(inbound)
      ensures forall i :: (if r.Ready? then r.n else 0) <= i < |batch.bufs|
                      ==> batch.meta[i] == old(batch.meta[i]) && batch.bufs[i][..] == old(batch.bufs[i][..])
      ensures r.Ready? ==> forall i :: 0 <= i < r.n ==> batch.Holds(i, Fitting(old(inbound)[i], batch.bufs[i]))
    {
      if failing {
        return Failed;
      }
      if inbound == [] {
        return Pending;
      }
      var n := Min(|inbound|, |batch.bufs|);
      for k := 0 to n
        invariant batch.Valid() && inbound == old(inbound)
        invariant forall i :: k <= i < |batch.bufs|
                          ==> batch.meta[i] == old(batch.meta[i]) && batch.bufs[i][..] == old(batch.bufs[i][..])
        invariant forall i :: 0 <= i < k ==> batch.Holds(i, Fitting(inbound[i], batch.bufs[i]))
      {
        batch.Put(k, Fitting(inbound[k], batch.bufs[k]));
      }
      inbound := inbound[n..];
      r := Ready(n);
    }
  }

  /** What quinn sees of a received datagram: its plaintext, or nothing if it is too short. */
  function Visible(obf: Salamander, datagram: Bytes): Bytes
  {
    match obf.Decode(datagram)
    case Some(plain) => plain
    case None => []
  }

  class ObfuscatedUdpSocket {
    const inner: InnerSocket
    const obf: Salamander

    constructor (inner: InnerSocket, obf: Salamander)
      ensures this.inner == inner && this.obf == obf
    {
      this.inner, this.obf := inner, obf;
    }

    /** Sends one datagram under a salt drawn for this call. What reaches the wire decodes to the
        contents and is no longer than the MTU bound exactly when the contents respect the lowered
        bound. */
    method TrySend(contents: Bytes, salt: Bytes) returns (r: SendResult)
      requires |salt| == SALT_LEN
      modifies inner`wire
      ensures r == if inner.path.Full? then WouldBlock else Ok
      ensures !inner.path.Clear? ==> inner.wire == old(inner.wire)
      ensures inner.path.Clear? ==>
                && |inner.wire| == |old(inner.wire)| + 1 && old(inner.wire) <= inner.wire
                && inner.wire[|old(inner.wire)|] == obf.Encode(contents, salt)
                && (|inner.wire[|old(inner.wire)|]| <= MTUD_UPPER_BOUND <==> |contents| <= OBF_UPPER_BOUND)
                && MTUD_UPPER_BOUND == 1452 && OBF_UPPER_BOUND == 1444
    {
      var buf := new bv8[|contents| + SALT_LEN];
      var n := obf.Obfuscate(contents, salt, buf);
      obf.DecodeEncode(contents, salt);
      assert buf[..] == buf[..n];
      r := inner.TrySend(buf[..]);
    }

    /** Receives a batch. Each filled buffer ends up holding its own plaintext with matching length
        and stride - length zero for a datagram too short to be one of ours - and the rest of the
        batch is not touched. */
    method PollRecv(batch: Batch) returns (r: Poll)
      requires batch.Valid()
      modifies inner`inbound, batch`meta, batch.Arrays()
      ensures batch.Valid()
      ensures r == if inner.failing then Failed else if old(inner.inbound) == [] then Pending
                   else Ready(Min(|old(inner.inbound)|, |batch.bufs|))
      ensures inner.inbound == if r.Ready? then old(inner.inbound)[r.n..] else old(inner.inbound)
      ensures forall i :: (if r.Ready? then r.n else 0) <= i < |batch.bufs|
                      ==> batch.meta[i] == old(batch.meta[i]) && batch.bufs[i][..] == old(batch.bufs[i][..])
      ensures r.Ready? ==> forall i :: 0 <= i < r.n ==>
                && batch.Holds(i, Visible(obf, Fitting(old(inner.inbound)[i], batch.bufs[i])))
                && (|Fitting(old(inner.inbound)[i], batch.bufs[i])| < SALT_LEN ==> batch.meta[i] == Meta(0, 0))
    {
      r := inner.PollRecv(batch);
      if r.Ready? {
        ghost var got := old(inner.inbound);
        label filled:
        for k := 0 to r.n
          invariant batch.Valid() && inner.inbound == old@filled(inner.inbound)
          invariant forall i :: k <= i < |batch.bufs| ==>
                      batch.meta[i] == old@filled(batch.meta[i]) && batch.bufs[i][..] == old@filled(batch.bufs[i][..])
          invariant forall i :: 0 <= i < k ==> batch.Holds(i, Visible(obf, Fitting(got[i], batch.bufs[i])))
        {
          DecodeEntry(batch, k, got[k]);
        }
      }
    }

    /** One turn of the decode loop. */
    method DecodeEntry(batch: Batch, k: nat, ghost datagram: Bytes)
      requires batch.Valid() && k < |batch.bufs| && batch.Holds(k, Fitting(datagram, batch.bufs[k]))
      modifies batch`meta, batch.bufs[k]
      ensures batch.Valid() && batch.Holds(k, Visible(obf, Fitting(datagram, batch.bufs[k])))
      ensures forall i :: 0 <= i < |batch.meta| && i != k ==> batch.meta[i] == old(batch.meta[i])
    {
      var len := batch.meta[k].len;
      var plainLen := obf.DeobfuscateInPlace(batch.bufs[k], len);
      match plainLen {
        case Some(n) => batch.meta := batch.meta[k := Meta(n, n)];
        case None => batch.meta := batch.meta[k := Meta(0, 0)];
      }
    }
  }

  // ---- From one socket to the other -------------------------------------------------------

  /** One `try_send` call: the datagram, the salt drawn for it, and how the path was. */
  datatype Attempt = Attempt(contents: Bytes, salt: Bytes, path: Path)

  /** What one call puts on the wire. */
  function WireOfOne(obf: Salamander, a: Attempt): seq<Bytes>
  {
    if a.path.Clear? then [obf.Encode(a.contents, a.salt)] else []
  }

  /** What a series of calls puts on the wire. */
  function WireAfter(obf: Salamander, attempts: seq<Attempt>): seq<Bytes>
  {
    if attempts == [] then []
    else
      var last := attempts[|attempts| - 1];
      WireAfter(obf, attempts[..|attempts| - 1]) + WireOfOne(obf, last)
  }

  /** The contents of the calls the path took. */
  function Taken(attempts: seq<Attempt>): (r: seq<Bytes>)
    ensures |r| <= |attempts|
  {
    if attempts == [] then []
    else
      var last := attempts[|attempts| - 1];
      Taken(attempts[..|attempts| - 1]) + if last.path.Clear? then [last.contents] else []
  }

  /** Batch round trip: whatever salts were drawn and however often a send was pushed back and
      tried again, a receiver with the same key sees exactly the datagrams the path took, in order,
      in any buffers large enough. */
  lemma {:induction false} TakenIsVisible(obf: Salamander, attempts: seq<Attempt>, bufs: seq<array<bv8>>)
    requires forall a :: a in attempts ==> |a.salt| == SALT_LEN
    requires |bufs| >= |WireAfter(obf, attempts)|
    requires forall i :: 0 <= i < |WireAfter(obf, attempts)| ==> |WireAfter(obf, attempts)[i]| <= bufs[i].Length
    ensures |WireAfter(obf, attempts)| == |Taken(attempts)|
    ensures forall i :: 0 <= i < |Taken(attempts)| ==>
              Visible(obf, Fitting(WireAfter(obf, attempts)[i], bufs[i])) == Taken(attempts)[i]
  {
    if attempts != [] {
      var front, last := attempts[..|attempts| - 1], attempts[|attempts| - 1];
      var wire := WireAfter(obf, front);
      assert wire == WireAfter(obf, attempts)[..|wire|];
      TakenIsVisible(obf, front, bufs);
      if last.path.Clear? {
        var datagram := obf.Encode(last.contents, last.salt);
        assert WireAfter(obf, attempts)[|wire|] == datagram;
        EncodedIsVisible(obf, last, bufs[|wire|]);
      }
    }
  }

  lemma ShortIsInvisible(obf: Salamander, datagram: Bytes)
    ensures |datagram| < SALT_LEN ==> Visible(obf, datagram) == []
    ensures |datagram| >= SALT_LEN ==> |Visible(obf, datagram)| == |datagram| - SALT_LEN
  {
  }

  lemma EncodedIsVisible(obf: Salamander, a: Attempt, buf: array<bv8>)
    requires |a.salt| == SALT_LEN && |obf.Encode(a.contents, a.salt)| <= buf.Length
    ensures Visible(obf, Fitting(obf.Encode(a.contents, a.salt), buf)) == a.contents
  {
    var datagram := obf.Encode(a.contents, a.salt);
    obf.DecodeEncode(a.contents, a.salt);
    assert Fitting(datagram, buf) == datagram;
  }

  /** Every salt is one, and every buffer has room for every datagram. */
  ghost predicate SaltsAndRoom(attempts: seq<Attempt>, bufs: seq<array<bv8>>)
  {
    && (forall a :: a in attempts ==> |a.salt| == SALT_LEN)
    && (forall a, i :: a in attempts && 0 <= i < |bufs| ==> |a.contents| + SALT_LEN <= bufs[i].Length)
  }

  /** One of the calls. */
  method SendOne(sender: ObfuscatedUdpSocket, a: Attempt)
    requires |a.salt| == SALT_LEN
    modifies sender.inner
    ensures sender.inner.wire == old(sender.inner.wire) + WireOfOne(sender.obf, a)
  {
    sender.inner.path := a.path;
    var sent := sender.TrySend(a.contents, a.salt);
  }

  /** A series of calls on one socket. */
  method SendAll(sender: ObfuscatedUdpSocket, attempts: seq<Attempt>)
    requires forall a :: a in attempts ==> |a.salt| == SALT_LEN
    requires sender.inner.wire == []
    modifies sender.inner
    ensures sender.inner.wire == WireAfter(sender.obf, attempts)
  {
    for k := 0 to |attempts|
      invariant sender.inner.wire == WireAfter(sender.obf, attempts[..k])
    {
      assert attempts[k] in attempts;
      SendOne(sender, attempts[k]);
      WireSnoc(sender.obf, attempts, k);
    }
    assert attempts[..|attempts|] == attempts;
  }

  /** One receive of everything that arrived, when the datagrams show `plain` in the batch. */
  method ReceiveAll(receiver: ObfuscatedUdpSocket, batch: Batch, ghost plain: seq<Bytes>) returns (r: Poll)
    requires batch.Valid() && |receiver.inner.inbound| == |plain| <= |batch.bufs| && !receiver.inner.failing
    requires forall i :: 0 <= i < |plain| ==>
               Visible(receiver.obf, Fitting(receiver.inner.inbound[i], batch.bufs[i])) == plain[i]
    modifies receiver.inner`inbound, batch`meta, batch.Arrays()
    ensures r == if plain == [] then Pending else Ready(|plain|)
    ensures r.Ready? ==> forall i :: 0 <= i < r.n ==> batch.Holds(i, plain[i])
  {
    r := receiver.PollRecv(batch);
  }

  /** Two sockets: the calls of `attempts` on one, its wire carried to the other, and one receive
      there. If anything was taken the batch ends up holding exactly that, buffer by buffer; if
      nothing was, the receive has nothing to report. */
  method Transfer(obf: Salamander, attempts: seq<Attempt>, batch: Batch) returns (r: Poll)
    requires batch.Valid() && |batch.bufs| >= |attempts|
    requires SaltsAndRoom(attempts, batch.bufs)
    modifies batch`meta, batch.Arrays()
    ensures r == if Taken(attempts) == [] then Pending else Ready(|Taken(attempts)|)
    ensures r.Ready? ==> forall i :: 0 <= i < r.n ==> batch.Holds(i, Taken(attempts)[i])
  {
    var path := new InnerSocket();
    var sender := new ObfuscatedUdpSocket(path, obf);
    SendAll(sender, attempts);
    WireBounded(obf, attempts, batch.bufs);
    TakenIsVisible(obf, attempts, batch.bufs);
    var inner := new InnerSocket();
    inner.inbound := path.wire;
    var receiver := new ObfuscatedUdpSocket(inner, obf);
    r := ReceiveAll(receiver, batch, Taken(attempts));
  }

  lemma WireSnoc(obf: Salamander, attempts: seq<Attempt>, k: nat)
    requires k < |attempts|
    ensures WireAfter(obf, attempts[..k + 1])
         == WireAfter(obf, attempts[..k])
            + WireOfOne(obf, attempts[k])
  {
    assert attempts[..k + 1][..k] == attempts[..k];
  }

  lemma {:induction false} WireBounded(obf: Salamander, attempts: seq<Attempt>, bufs: seq<array<bv8>>)
    requires SaltsAndRoom(attempts, bufs)
    ensures |WireAfter(obf, attempts)| <= |attempts|
    ensures forall i, j :: 0 <= i < |WireAfter(obf, attempts)| && 0 <= j < |bufs| ==> |WireAfter(obf, attempts)[i]| <= bufs[j].Length
    decreases |attempts|
  {
    if attempts != [] {
      var front, last := attempts[..|attempts| - 1], attempts[|attempts| - 1];
      assert last in attempts && forall a :: a in front ==> a in attempts;
      WireBounded(obf, front, bufs);
      obf.DecodeEncode(last.contents, last.salt);
    }
  }
}
