/** The gateway's stored certificate: `load_or_generate` over two files that are written one after
    the other, across any number of restarts and failures. */
module Tls {
  import opened Sequences

  type Der = seq<byte>

  datatype Bundle = Bundle(cert: Der, key: Der)

  /** How a file write ends: complete, refused before it changed anything, or stopped part-way. */
  datatype WriteOutcome = Written | Refused | Torn(left: Der)

  /** What one start meets: whether reads succeed, the pair generation yields, and its writes. */
  datatype Start = Start(readsCert: bool, readsKey: bool, generated: Option<Bundle>,
                         certWrite: WriteOutcome, keyWrite: WriteOutcome)

  datatype Disk = Disk(cert: Option<Der>, key: Option<Der>)

  predicate BothPresent(d: Disk)
  {
    d.cert.Some? && d.key.Some?
  }

  function WriteFile(file: Option<Der>, contents: Der, w: WriteOutcome): Option<Der>
  {
    match w
    case Written => Some(contents)
    case Refused => file
    case Torn(left) => Some(left)
  }

  /** The two files at their paths. */
  class Files {
    var cert: Option<Der>
    var key: Option<Der>

    constructor (d: Disk)
      ensures OnDisk() == d
    {
      cert, key := d.cert, d.key;
    }

    function OnDisk(): Disk
      reads this
    {
      Disk(cert, key)
    }

    /** Reuses the stored pair if both files are there, and otherwise generates one and writes the
        certificate, then the key. */
    method LoadOrGenerate(s: Start) returns (r: Option<Bundle>)
      modifies this
      ensures (OnDisk(), r) == AfterStart(old(OnDisk()), s)
      ensures r.Some? <==> if BothPresent(old(OnDisk())) then s.readsCert && s.readsKey
                           else s.generated.Some? && s.certWrite.Written? && s.keyWrite.Written?
      ensures r.Some? ==> OnDisk() == Disk(Some(r.value.cert), Some(r.value.key))
      ensures OnDisk() != old(OnDisk()) ==> !BothPresent(old(OnDisk())) && s.generated.Some?
    {
      if cert.Some? && key.Some? {
        if !s.readsCert || !s.readsKey {
          return None;
        }
        return Some(Bundle(cert.value, key.value));
      }
      if s.generated.None? {
        return None;
      }
      var bundle := s.generated.value;
      cert := WriteFile(cert, bundle.cert, s.certWrite);
      if !s.certWrite.Written? {
        return None;
      }
      key := WriteFile(key, bundle.key, s.keyWrite);
      if !s.keyWrite.Written? {
        return None;
      }
      r := Some(bundle);
    }
  }

  /** One start as a function of the disk: what is stored afterwards, and what is returned. */
  function AfterStart(d: Disk, s: Start): (Disk, Option<Bundle>)
  {
    if BothPresent(d) then
      (d, if s.readsCert && s.readsKey then Some(Bundle(d.cert.value, d.key.value)) else None)
    else if s.generated.None? then (d, None)
    else
      var cert := WriteFile(d.cert, s.generated.value.cert, s.certWrite);
      if !s.certWrite.Written? then (Disk(cert, d.key), None)
      else
        var key := WriteFile(d.key, s.generated.value.key, s.keyWrite);
        (Disk(cert, key), if s.keyWrite.Written? then s.generated else None)
  }

  /** The disk after a series of starts, with nothing else touching the files. */
  function AfterStarts(d: Disk, starts: seq<Start>): Disk
  {
    if starts == [] then d
    else AfterStart(AfterStarts(d, starts[..|starts| - 1]), starts[|starts| - 1]).0
  }

  /** What start number `i` returned. */
  function Returned(d: Disk, starts: seq<Start>, i: nat): Option<Bundle>
    requires i < |starts|
  {
    AfterStart(AfterStarts(d, starts[..i]), starts[i]).1
  }

  /** A start in which everything works returns a pair, on any disk: the stored one if there is one,
      and otherwise the generated one. */
  lemma HealthyStartReturns(d: Disk, s: Start)
    requires s.readsCert && s.readsKey && s.generated.Some? && s.certWrite.Written? && s.keyWrite.Written?
    ensures AfterStart(d, s).1 ==
            if d.cert.Some? && d.key.Some? then Some(Bundle(d.cert.value, d.key.value)) else s.generated
  {
  }

  /** What a start without a whole pair leaves on disk: nothing changes before generation succeeds, the
      key only after the whole certificate is written, and each file ends as its own write did. */
  lemma WhatAStartLeaves(d: Disk, s: Start)
    requires d.cert.None? || d.key.None?
    ensures var after := AfterStart(d, s).0;
            && (s.generated.None? || s.certWrite.Refused? ==> after == d)
            && (s.generated.Some? && s.certWrite.Torn? ==> after == Disk(Some(s.certWrite.left), d.key))
            && (s.generated.Some? && s.certWrite.Written? ==>
                  && after.cert == Some(s.generated.value.cert)
                  && match s.keyWrite
                     case Written => after.key == Some(s.generated.value.key)
                     case Refused => after.key == d.key
                     case Torn(left) => after.key == Some(left))
  {
  }

  lemma {:induction false} DiskSettles(d: Disk, starts: seq<Start>, i: nat, j: nat)
    requires i < j <= |starts| && Returned(d, starts, i).Some?
    ensures var b := Returned(d, starts, i).value;
            AfterStarts(d, starts[..j]) == Disk(Some(b.cert), Some(b.key))
    decreases j
  {
    assert starts[..j][..j - 1] == starts[..j - 1];
    if i + 1 < j {
      DiskSettles(d, starts, i, j - 1);
    }
  }

  /** Stable pin: from any disk and over any series of starts and failures, every start that returns
      a pair returns the same one - the first one returned. After it, a start fails only if a read
      does, and writes nothing. */
  lemma StablePin(d: Disk, starts: seq<Start>, i: nat, j: nat)
    requires i < j < |starts| && Returned(d, starts, i).Some?
    ensures Returned(d, starts, j).Some? ==> Returned(d, starts, j) == Returned(d, starts, i)
    ensures Returned(d, starts, j).Some? <==> starts[j].readsCert && starts[j].readsKey
    ensures AfterStarts(d, starts[..j]) == AfterStarts(d, starts)
  {
    DiskSettles(d, starts, i, j);
    DiskSettles(d, starts, i, |starts|);
    assert starts[..|starts|] == starts;
  }

  // ---- When the stored pair matches -------------------------------------------------------

  /** Whether a key belongs to a certificate. */
  type Pairing = (Der, Der) -> bool

  /** A stored pair, if there is one, belongs together. */
  ghost predicate Matching(d: Disk, pairs: Pairing)
  {
    BothPresent(d) ==> pairs(d.cert.value, d.key.value)
  }

  /** Generation yields pairs that belong together. */
  ghost predicate SoundGeneration(starts: seq<Start>, pairs: Pairing)
  {
    forall s :: s in starts && s.generated.Some? ==> pairs(s.generated.value.cert, s.generated.value.key)
  }

  /** No key is stored, or a whole pair that belongs together. */
  ghost predicate SafeDisk(d: Disk, pairs: Pairing)
  {
    d.key.None? || (d.cert.Some? && pairs(d.cert.value, d.key.value))
  }

  /** The one failure that breaks a safe disk: a new certificate is stored whole, and then the write
      of its key stops part-way and leaves something that is not its key. */
  ghost predicate Breaks(d: Disk, s: Start, pairs: Pairing)
  {
    && !BothPresent(d) && s.generated.Some? && s.certWrite.Written? && s.keyWrite.Torn?
    && !pairs(s.generated.value.cert, s.keyWrite.left)
  }

  lemma StartBreaksIff(d: Disk, s: Start, pairs: Pairing)
    requires SafeDisk(d, pairs) && SoundGeneration([s], pairs)
    ensures SafeDisk(AfterStart(d, s).0, pairs) <==> !Breaks(d, s, pairs)
    ensures Matching(AfterStart(d, s).0, pairs) <==> !Breaks(d, s, pairs)
  {
    assert s in [s];
  }

  lemma BrokenStaysBroken(d: Disk, s: Start, pairs: Pairing)
    requires !Matching(d, pairs)
    ensures AfterStart(d, s).0 == d && !Breaks(d, s, pairs)
  {
  }

  /** Some start of the series breaks the disk it finds. */
  ghost predicate SomeBreaks(d: Disk, starts: seq<Start>, pairs: Pairing)
  {
    exists i :: 0 <= i < |starts| && Breaks(AfterStarts(d, starts[..i]), starts[i], pairs)
  }

  lemma SomeBreaksSnoc(d: Disk, front: seq<Start>, last: Start, pairs: Pairing)
    ensures SomeBreaks(d, front + [last], pairs) <==>
            SomeBreaks(d, front, pairs) || Breaks(AfterStarts(d, front), last, pairs)
  {
    var starts := front + [last];
    assert forall i :: 0 <= i < |front| ==> starts[..i] == front[..i] && starts[i] == front[i];
    assert starts[..|front|] == front && starts[|front|] == last;
  }

  /** Over any series of starts and write failures from a safe disk, the stored pair matches in the
      end exactly when no start broke it on the way. */
  lemma {:induction false} MatchingIffNoneBreaks(d: Disk, starts: seq<Start>, pairs: Pairing)
    requires SafeDisk(d, pairs) && SoundGeneration(starts, pairs)
    ensures Matching(AfterStarts(d, starts), pairs) <==> !SomeBreaks(d, starts, pairs)
    ensures SafeDisk(AfterStarts(d, starts), pairs) <==> !SomeBreaks(d, starts, pairs)
  {
    if starts != [] {
      var front, last := starts[..|starts| - 1], starts[|starts| - 1];
      assert starts == front + [last];
      MatchingIffNoneBreaks(d, front, pairs);
      SomeBreaksSnoc(d, front, last, pairs);
      if SomeBreaks(d, front, pairs) {
        BrokenStaysBroken(AfterStarts(d, front), last, pairs);
      } else {
        StartBreaksIff(AfterStarts(d, front), last, pairs);
      }
    }
  }

  lemma WholeKeyWritesNeverBreak(d: Disk, starts: seq<Start>, pairs: Pairing)
    requires forall s :: s in starts ==> !s.keyWrite.Torn?
    ensures !SomeBreaks(d, starts, pairs)
  {
    assert forall i :: 0 <= i < |starts| ==> starts[i] in starts;
  }

  /** Exactly the safe disks keep every stored pair matching, whatever fails on the way short of that
      one failure. A leftover key is not safe: a start that replaces the certificate and then cannot
      replace the key leaves two halves of different pairs. */
  lemma AlwaysMatchingIffSafe(d: Disk, pairs: Pairing, other: Bundle)
    requires pairs(other.cert, other.key) && (d.key.Some? ==> !pairs(other.cert, d.key.value))
    ensures SafeDisk(d, pairs) <==>
            forall starts :: SoundGeneration(starts, pairs) && !SomeBreaks(d, starts, pairs)
                        ==> Matching(AfterStarts(d, starts), pairs)
  {
    if SafeDisk(d, pairs) {
      forall starts | SoundGeneration(starts, pairs) && !SomeBreaks(d, starts, pairs)
        ensures Matching(AfterStarts(d, starts), pairs)
      {
        MatchingIffNoneBreaks(d, starts, pairs);
      }
    } else {
      var s := Start(true, true, Some(other), Written, Refused);
      WholeKeyWritesNeverBreak(d, [s], pairs);
      WholeKeyWritesNeverBreak(d, [], pairs);
      assert SoundGeneration([s], pairs) && SoundGeneration([], pairs);
      assert AfterStarts(d, []) == d;
      assert AfterStarts(d, [s]) == AfterStart(d, s).0 by { assert [s][..0] == []; }
      assert !Matching(AfterStarts(d, []), pairs) || !Matching(AfterStarts(d, [s]), pairs);
    }
  }

  /** A key write stopped part-way breaks even an empty disk: the next start finds both files and
      returns the halves as if they were a pair. */
  lemma TornKeyIsReturned(b: Bundle, half: Der, pairs: Pairing)
    requires !pairs(b.cert, half)
    ensures var starts := [Start(true, true, Some(b), Written, Torn(half)), Start(true, true, None, Written, Written)];
            Returned(Disk(None, None), starts, 0) == None && Returned(Disk(None, None), starts, 1) == Some(Bundle(b.cert, half))
            && !Matching(AfterStarts(Disk(None, None), starts), pairs)
  {
    var first, second := Start(true, true, Some(b), Written, Torn(half)), Start(true, true, None, Written, Written);
    var starts := [first, second];
    assert starts[..1] == [first] && starts[..0] == [] && [first][..0] == [];
    assert AfterStarts(Disk(None, None), [first]) == Disk(Some(b.cert), Some(half));
  }
}
