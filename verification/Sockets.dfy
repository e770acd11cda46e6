/** Addresses, socket recipes and the one builder every socket of a connection comes from. */
module Sockets {
  import opened Sequences
  import opened Salamander

  datatype Family = V4 | V6

  datatype Address = Address(family: Family, host: nat, port: nat)

  /** The wildcard address of the peer's own family, with a port the system chooses. */
  function BindAddrFor(peer: Address): (a: Address)
    ensures a.family == peer.family && a.host == 0 && a.port == 0
  {
    match peer.family
    case V4 => Address(V4, 0, 0)
    case V6 => Address(V6, 0, 0)
  }

  /** Everything needed to build a socket like the one an endpoint started on. */
  datatype SocketRecipe = SocketRecipe(bind: Address, obf: Option<Salamander>)

  /** A socket as the peer meets it: its family, and what it does to datagrams. */
  datatype Socket = Socket(family: Family, obf: Option<Salamander>)

  /** The builder for first and replacement sockets alike. */
  function ClientSocket(bind: Address, obf: Option<Salamander>): Socket
  {
    Socket(bind.family, obf)
  }

  /** The datagram a socket puts on the wire for a packet. */
  function OnTheWire(s: Socket, packet: Bytes, salt: Bytes): Bytes
  {
    match s.obf
    case None => packet
    case Some(obf) => obf.Encode(packet, salt)
  }

  /** What a socket hands up for a datagram; `None` if it drops it. */
  function HandedUp(s: Socket, datagram: Bytes): Option<Bytes>
  {
    match s.obf
    case None => Some(datagram)
    case Some(obf) => obf.Decode(datagram)
  }

  /** Two sockets understand each other when they obfuscate alike ... */
  lemma SameObfuscationDecodes(s: Socket, peer: Socket, packet: Bytes, salt: Bytes)
    requires s.obf == peer.obf && |salt| == SALT_LEN
    ensures HandedUp(peer, OnTheWire(s, packet, salt)) == Some(packet)
  {
    if s.obf.Some? {
      s.obf.value.DecodeEncode(packet, salt);
    }
  }

  /** ... and never when one of them obfuscates and the other does not: the replacement built plain
      by mistake delivers not a single packet unchanged. */
  lemma MixedObfuscationNeverDecodes(s: Socket, peer: Socket, packet: Bytes, salt: Bytes)
    requires s.obf.Some? != peer.obf.Some? && |salt| == SALT_LEN
    ensures HandedUp(peer, OnTheWire(s, packet, salt)) != Some(packet)
  {
    if s.obf.Some? {
      s.obf.value.DecodeEncode(packet, salt);
    }
  }
}
