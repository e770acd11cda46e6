/** The Salamander obfuscator: a salt in front, a repeating-key XOR behind it. */
module Salamander {
  import opened Sequences

  const SALT_LEN := 8
  const KEY_LEN := 32

  type Bytes = seq<bv8>

  type Digest = d: Bytes | |d| == KEY_LEN witness seq(KEY_LEN, _ => 0)

  /** BLAKE2b-256, of which only the length of the result is known. */
  type Hash = Bytes -> Digest

  /** Repeating-key XOR. */
  function Xor(text: Bytes, key: Bytes): (r: Bytes)
    requires |key| == KEY_LEN
    ensures |r| == |text|
  {
    seq(|text|, i requires 0 <= i < |text| => text[i] ^ key[i % KEY_LEN])
  }

  lemma XorTwice(text: Bytes, key: Bytes)
    requires |key| == KEY_LEN
    ensures Xor(Xor(text, key), key) == text
  {
    forall i | 0 <= i < |text|
      ensures Xor(Xor(text, key), key)[i] == text[i]
    {
      XorBytes(text[i], key[i % KEY_LEN]);
    }
  }

  lemma XorBytes(a: bv8, k: bv8)
    ensures (a ^ k) ^ k == a
  {
  }

  predicate AgreeUpTo(a: Bytes, b: Bytes, n: nat)
  {
    forall j :: 0 <= j < n && j < |a| && j < |b| ==> a[j] == b[j]
  }

  lemma ByteUndone(a: bv8, k: bv8, l: bv8)
    ensures (a ^ k) ^ l == a <==> l == k
  {
  }

  lemma XorAt(text: Bytes, key: Bytes, i: nat)
    requires |key| == KEY_LEN && i < |text|
    ensures Xor(text, key)[i] == text[i] ^ key[i % KEY_LEN]
  {
  }

  lemma UndoneAt(text: Bytes, key: Bytes, other: Bytes, i: nat)
    requires |key| == |other| == KEY_LEN && i < |text|
    ensures Xor(Xor(text, key), other)[i] == text[i] <==> other[i % KEY_LEN] == key[i % KEY_LEN]
  {
    XorAt(text, key, i);
    XorAt(Xor(text, key), other, i);
    var a, k, l, b := text[i], key[i % KEY_LEN], other[i % KEY_LEN], Xor(Xor(text, key), other)[i];
    assert b == (a ^ k) ^ l;
    ByteUndone(a, k, l);
  }

  lemma AgreeingUndoes(text: Bytes, key: Bytes, other: Bytes)
    requires |key| == |other| == KEY_LEN && AgreeUpTo(other, key, |text|)
    ensures Xor(Xor(text, key), other) == text
  {
    forall i | 0 <= i < |text|
      ensures Xor(Xor(text, key), other)[i] == text[i]
    {
      var j := i % KEY_LEN;
      assert other[j] == key[j];
      UndoneAt(text, key, other, i);
    }
  }

  lemma UndoneAgrees(text: Bytes, key: Bytes, other: Bytes)
    requires |key| == |other| == KEY_LEN && Xor(Xor(text, key), other) == text
    ensures AgreeUpTo(other, key, |text|)
  {
    forall j | 0 <= j < |text| && j < KEY_LEN
      ensures other[j] == key[j]
    {
      UndoneAt(text, key, other, j);
    }
  }

  lemma UndoneIffAgree(text: Bytes, key: Bytes, other: Bytes)
    requires |key| == |other| == KEY_LEN
    ensures Xor(Xor(text, key), other) == text <==> AgreeUpTo(other, key, |text|)
  {
    if AgreeUpTo(other, key, |text|) {
      AgreeingUndoes(text, key, other);
    }
    if Xor(Xor(text, key), other) == text {
      UndoneAgrees(text, key, other);
    }
  }

  /** The stateless obfuscator of one pre-shared key. */
  datatype Salamander = Salamander(psk: Bytes, blake2b: Hash) {

    function Key(salt: Bytes): (key: Bytes)
      ensures |key| == KEY_LEN
    {
      blake2b(psk + salt)
    }

    /** The datagram that carries `plain` under `salt`. */
    function Encode(plain: Bytes, salt: Bytes): Bytes
    {
      salt + Xor(plain, Key(salt))
    }

    /** What a datagram carries, if it is long enough to start with a salt. */
    function Decode(datagram: Bytes): Option<Bytes>
    {
      if |datagram| < SALT_LEN then None
      else Some(Xor(datagram[SALT_LEN..], Key(datagram[..SALT_LEN])))
    }

    /** Every plaintext comes back, under every salt ... */
    lemma DecodeEncode(plain: Bytes, salt: Bytes)
      requires |salt| == SALT_LEN
      ensures Decode(Encode(plain, salt)) == Some(plain)
      ensures |Encode(plain, salt)| == |plain| + SALT_LEN
    {
      XorTwice(plain, Key(salt));
      SentParts(plain, salt);
    }

    /** ... and every datagram that decodes is the encoding of what it carries under its salt. */
    lemma EncodeDecode(datagram: Bytes)
      requires |datagram| >= SALT_LEN
      ensures Encode(Decode(datagram).value, datagram[..SALT_LEN]) == datagram
    {
      XorTwice(datagram[SALT_LEN..], Key(datagram[..SALT_LEN]));
    }

    lemma OtherDecodes(other: Salamander, plain: Bytes, salt: Bytes)
      requires |salt| == SALT_LEN
      ensures other.Decode(Encode(plain, salt)) == Some(Xor(Xor(plain, Key(salt)), other.Key(salt)))
    {
      SentParts(plain, salt);
    }

    /** Only the right key opens a datagram: another obfuscator gets the plaintext back exactly when
        its key for the salt agrees as far as the plaintext reaches. */
    lemma OpensIffSameKey(other: Salamander, plain: Bytes, salt: Bytes)
      requires |salt| == SALT_LEN
      ensures other.Decode(Encode(plain, salt)) == Some(plain) <==> AgreeUpTo(other.Key(salt), Key(salt), |plain|)
    {
      OtherDecodes(other, plain, salt);
      UndoneIffAgree(plain, Key(salt), other.Key(salt));
    }

    /** With a hash that never maps two inputs to one output, keys tell both the pre-shared key and
        the salt apart. */
    lemma KeysDiffer(other: Salamander, salt: Bytes, salt2: Bytes)
      requires |salt| == |salt2| == SALT_LEN && blake2b == other.blake2b
      requires forall x, y :: blake2b(x) == blake2b(y) ==> x == y
      ensures Key(salt) == other.Key(salt2) <==> psk == other.psk && salt == salt2
    {
      if Key(salt) == other.Key(salt2) {
        assert psk + salt == other.psk + salt2;
        SameLengthTails(psk, salt, other.psk, salt2);
      }
    }

    lemma SentParts(plain: Bytes, salt: Bytes)
      requires |salt| == SALT_LEN
      ensures |Encode(plain, salt)| == SALT_LEN + |plain|
      ensures Encode(plain, salt)[..SALT_LEN] == salt && Encode(plain, salt)[SALT_LEN..] == Xor(plain, Key(salt))
    {
    }

    lemma Assembled(datagram: Bytes, plain: Bytes, salt: Bytes)
      requires |salt| == SALT_LEN && |datagram| == SALT_LEN + |plain|
      requires forall j :: 0 <= j < SALT_LEN ==> datagram[j] == salt[j]
      requires forall j :: 0 <= j < |plain| ==> datagram[SALT_LEN + j] == plain[j] ^ Key(salt)[j % KEY_LEN]
      ensures datagram == Encode(plain, salt)
    {
      forall k | 0 <= k < |datagram|
        ensures datagram[k] == Encode(plain, salt)[k]
      {
        assert k >= SALT_LEN ==> datagram[SALT_LEN + (k - SALT_LEN)] == Encode(plain, salt)[k];
      }
    }

    /** Writes the salt and the obfuscated plaintext to the front of `out`. */
    method Obfuscate(plain: Bytes, salt: Bytes, out: array<bv8>) returns (n: nat)
      requires |salt| == SALT_LEN && out.Length >= |plain| + SALT_LEN
      modifies out
      ensures n == |plain| + SALT_LEN
      ensures out[..n] == Encode(plain, salt) && Decode(out[..n]) == Some(plain)
      ensures out[n..] == old(out[n..])
    {
      forall i | 0 <= i < SALT_LEN {
        out[i] := salt[i];
      }
      var key := Key(salt);
      for i := 0 to |plain|
        invariant forall j :: 0 <= j < SALT_LEN ==> out[j] == salt[j]
        invariant forall j :: 0 <= j < i ==> out[SALT_LEN + j] == plain[j] ^ key[j % KEY_LEN]
        invariant forall j :: SALT_LEN + i <= j < out.Length ==> out[j] == old(out[j])
      {
        out[SALT_LEN + i] := plain[i] ^ key[i % KEY_LEN];
      }
      n := SALT_LEN + |plain|;
      Assembled(out[..n], plain, salt);
      DecodeEncode(plain, salt);
    }

    /** Decodes `buf[..len]` into the front of the same buffer. Byte `i` is written from byte
        `i + 8`, which no earlier turn has written, and nothing past the plaintext changes. */
    method DeobfuscateInPlace(buf: array<bv8>, len: nat) returns (plainLen: Option<nat>)
      requires len <= buf.Length
      modifies buf
      ensures plainLen.None? <==> len < SALT_LEN
      ensures plainLen.None? ==> buf[..] == old(buf[..])
      ensures plainLen.Some? ==> plainLen.value == len - SALT_LEN
      ensures plainLen.Some? ==> Decode(old(buf[..len])) == Some(buf[..plainLen.value])
      ensures plainLen.Some? ==> buf[plainLen.value..] == old(buf[plainLen.value..])
    {
      if len < SALT_LEN {
        return None;
      }
      ghost var datagram := buf[..len];
      var key := Key(buf[..SALT_LEN]);
      assert datagram[..SALT_LEN] == buf[..SALT_LEN];
      var n := len - SALT_LEN;
      for i := 0 to n
        invariant forall j :: i <= j < buf.Length ==> buf[j] == old(buf[j])
        invariant forall j :: 0 <= j < i ==> buf[j] == datagram[SALT_LEN + j] ^ key[j % KEY_LEN]
      {
        buf[i] := buf[SALT_LEN + i] ^ key[i % KEY_LEN];
      }
      plainLen := Some(n);
      assert buf[..n] == Xor(datagram[SALT_LEN..], key);
    }
  }
}
