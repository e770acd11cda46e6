/** From a resolver's answer to one open connection: candidates, the time plan, the dial loop and
    the handshake, with every resource they acquire. Durations are in nanoseconds. */
module Dial {
  import opened Sequences
  import opened Sockets
  import S = Salamander

  type Duration = nat

  const MILLISECOND: Duration := 1_000_000
  const CONNECT_BUDGET: Duration := 1500 * MILLISECOND
  const RESOLVE_TIMEOUT: Duration := 500 * MILLISECOND
  const HANDSHAKE_TIMEOUT: Duration := SaturatingSub(CONNECT_BUDGET, RESOLVE_TIMEOUT)
  const MIN_ATTEMPT: Duration := 250 * MILLISECOND

  function SaturatingSub(a: Duration, b: Duration): Duration
  {
    if a < b then 0 else a - b
  }

  // ---- Candidates -------------------------------------------------------------------------

  /** `index` picks from `addrs`, in order, exactly the first occurrence of each address. */
  ghost predicate PicksFirsts(addrs: seq<Address>, index: seq<nat>)
  {
    && (forall i, j :: 0 <= i < j < |index| ==> index[i] < index[j])
    && (forall k :: 0 <= k < |index| ==> index[k] < |addrs| && addrs[index[k]] !in addrs[..index[k]])
    && (forall p: nat :: p < |addrs| && addrs[p] !in addrs[..p] ==> p in index)
  }

  ghost predicate FirstOccurrences(addrs: seq<Address>, out: seq<Address>)
  {
    exists index: seq<nat> :: PicksFirsts(addrs, index) && Picked(addrs, index, out)
  }

  ghost predicate Picked(addrs: seq<Address>, index: seq<nat>, out: seq<Address>)
  {
    |out| == |index| && forall k :: 0 <= k < |index| ==> index[k] < |addrs| && out[k] == addrs[index[k]]
  }

  lemma PicksGrow(addrs: seq<Address>, a: Address, index: seq<nat>)
    requires PicksFirsts(addrs, index)
    ensures a in addrs ==> PicksFirsts(addrs + [a], index)
    ensures a !in addrs ==> PicksFirsts(addrs + [a], index + [|addrs|])
  {
    var more := addrs + [a];
    forall p: nat | p <= |addrs|
      ensures more[..p] == addrs[..p]
    {
    }
    assert addrs[..|addrs|] == addrs;
    if a !in addrs {
      var grown := index + [|addrs|];
      forall p: nat | p < |more| && more[p] !in more[..p]
        ensures p in grown
      {
        assert grown[|index|] == |addrs|;
        assert p < |addrs| ==> p in index;
      }
    }
  }

  lemma PickedGrows(addrs: seq<Address>, a: Address, index: seq<nat>, out: seq<Address>)
    requires Picked(addrs, index, out)
    ensures Picked(addrs + [a], index, out) && Picked(addrs + [a], index + [|addrs|], out + [a])
  {
  }

  /** The candidate list as a function of the resolver's answer. */
  function Firsts(addrs: seq<Address>): seq<Address>
  {
    if addrs == [] then []
    else
      var front, last := addrs[..|addrs| - 1], addrs[|addrs| - 1];
      Firsts(front) + if last in front then [] else [last]
  }

  lemma {:induction false} SameMembers(addrs: seq<Address>)
    ensures forall a :: a in addrs <==> a in Firsts(addrs)
    decreases |addrs|
  {
    if addrs != [] {
      var front, last := addrs[..|addrs| - 1], addrs[|addrs| - 1];
      SameMembers(front);
      assert addrs == front + [last];
    }
  }

  lemma {:induction false} FirstsPicked(addrs: seq<Address>) returns (index: seq<nat>)
    ensures PicksFirsts(addrs, index) && Picked(addrs, index, Firsts(addrs))
    decreases |addrs|
  {
    if addrs == [] {
      index := [];
    } else {
      var front, last := addrs[..|addrs| - 1], addrs[|addrs| - 1];
      index := FirstsPicked(front);
      PicksGrow(front, last, index);
      PickedGrows(front, last, index, Firsts(front));
      assert addrs == front + [last];
      if last in front {
        assert Firsts(addrs) == Firsts(front) + [] == Firsts(front);
      } else {
        index := index + [|front|];
      }
    }
  }

  /** The candidates are the resolver's addresses, in its order, each at its first occurrence and no
      other. */
  lemma FirstsAreFirstOccurrences(addrs: seq<Address>)
    ensures FirstOccurrences(addrs, Firsts(addrs)) && Distinct(Firsts(addrs))
    ensures forall a :: a in addrs <==> a in Firsts(addrs)
  {
    var index := FirstsPicked(addrs);
    SameMembers(addrs);
    PickedOnce(addrs, index, Firsts(addrs));
  }

  lemma PickedOnce(addrs: seq<Address>, index: seq<nat>, out: seq<Address>)
    requires PicksFirsts(addrs, index) && Picked(addrs, index, out)
    ensures Distinct(out)
  {
    forall i, j | 0 <= i < j < |out|
      ensures out[i] != out[j]
    {
      assert addrs[..index[j]][index[i]] == addrs[index[i]];
    }
  }

  /** The resolver's addresses in its order, each once. */
  method DialCandidates(addrs: seq<Address>) returns (out: seq<Address>)
    ensures out == Firsts(addrs)
  {
    out := [];
    for p := 0 to |addrs|
      invariant out == Firsts(addrs[..p])
    {
      SameMembers(addrs[..p]);
      assert addrs[..p + 1][..p] == addrs[..p];
      if addrs[p] !in out {
        out := out + [addrs[p]];
      }
    }
    assert addrs[..|addrs|] == addrs;
  }

  lemma {:induction false} PicksUnique(addrs: seq<Address>, i: seq<nat>, j: seq<nat>)
    requires PicksFirsts(addrs, i) && PicksFirsts(addrs, j)
    ensures i == j
    decreases |i|
  {
    SomePicked(addrs, i);
    SomePicked(addrs, j);
    if i != [] {
      var a, b := i[|i| - 1], j[|j| - 1];
      assert a in j && b in i;
      assert a == b;
      LastPickDropped(addrs, i);
      LastPickDropped(addrs, j);
      PicksUnique(addrs[..a], i[..|i| - 1], j[..|j| - 1]);
    }
  }

  lemma SomePicked(addrs: seq<Address>, i: seq<nat>)
    requires PicksFirsts(addrs, i)
    ensures i == [] <==> addrs == []
  {
    if i != [] {
      assert i[0] < |addrs|;
    }
    if addrs != [] {
      var p: nat := 0;
      assert addrs[p] !in addrs[..p];
      assert p in i;
    }
  }

  lemma LastPickDropped(addrs: seq<Address>, i: seq<nat>)
    requires PicksFirsts(addrs, i) && i != []
    ensures i[|i| - 1] < |addrs| && PicksFirsts(addrs[..i[|i| - 1]], i[..|i| - 1])
  {
    var a, front := i[|i| - 1], i[..|i| - 1];
    forall k | 0 <= k < |front|
      ensures front[k] < |addrs[..a]| && addrs[..a][front[k]] !in addrs[..a][..front[k]]
    {
      assert addrs[..a][..front[k]] == addrs[..front[k]];
    }
    forall p: nat | p < |addrs[..a]| && addrs[..a][p] !in addrs[..a][..p]
      ensures p in front
    {
      assert addrs[..a][..p] == addrs[..p];
      assert p in i;
    }
  }

  /** There is only one such list ... */
  lemma FirstOccurrencesUnique(addrs: seq<Address>, x: seq<Address>)
    requires FirstOccurrences(addrs, x)
    ensures x == Firsts(addrs)
  {
    var i: seq<nat> :| PicksFirsts(addrs, i) && Picked(addrs, i, x);
    var j := FirstsPicked(addrs);
    PicksUnique(addrs, i, j);
  }

  /** ... and a list of candidates is its own list of candidates. */
  lemma {:induction false} FirstsIdempotent(out: seq<Address>)
    ensures Distinct(out) ==> Firsts(out) == out
    ensures Firsts(Firsts(out)) == Firsts(out)
  {
    FirstsOfDistinct(out);
    FirstsAreFirstOccurrences(out);
    FirstsOfDistinct(Firsts(out));
  }

  lemma {:induction false} FirstsOfDistinct(out: seq<Address>)
    ensures Distinct(out) ==> Firsts(out) == out
    decreases |out|
  {
    if out != [] && Distinct(out) {
      var front, last := out[..|out| - 1], out[|out| - 1];
      FirstsOfDistinct(front);
      assert out == front + [last];
    }
  }

  // ---- The time plan ----------------------------------------------------------------------

  datatype Plan = Plan(attempts: nat, slice: Duration)

  function Millis(d: Duration): nat { d / MILLISECOND }

  /** How many of `count` candidates to dial in `window`, and how long each one gets. Lengths are
      compared in whole milliseconds; the window is divided with truncation. */
  function DialPlan(count: nat, window: Duration, minAttempt: Duration): (p: Plan)
    requires Millis(minAttempt) > 0
    ensures p.attempts >= 1
  {
    var maxFits := Max(Millis(window) / Millis(minAttempt), 1);
    var n := Min(Max(count, 1), maxFits);
    Plan(n, window / n)
  }

  lemma DivTimes(a: nat, n: nat)
    requires n > 0
    ensures n * (a / n) <= a < n * (a / n) + n
  {
    assert a == n * (a / n) + a % n;
  }

  lemma AtMostQuotient(b: nat, a: nat, n: nat)
    requires n > 0 && n * b <= a
    ensures b <= a / n
  {
    DivTimes(a, n);
    assert n * b < n * (a / n + 1);
  }

  /** The slices never add up past the window and waste less than a nanosecond each; one candidate
      gets all of it; and with a minimum of whole milliseconds every slice reaches it exactly when the
      window does. Candidates are left out only when one attempt more of that minimum would not fit. */
  lemma PlanFitsWindow(count: nat, window: Duration, minAttempt: Duration)
    requires minAttempt > 0 && minAttempt % MILLISECOND == 0
    ensures Millis(minAttempt) > 0
    ensures var p := DialPlan(count, window, minAttempt);
            && p.attempts * p.slice <= window
            && p.attempts <= Max(count, 1)
            && (count <= 1 ==> p.attempts == 1 && p.slice == window)
            && (p.slice >= minAttempt <==> window >= minAttempt)
            && window < p.attempts * (p.slice + 1)
            && (p.attempts == Max(count, 1) || (p.attempts + 1) * minAttempt > window)
            && (p.attempts == 1 || p.attempts * minAttempt <= window)
  {
    var ms := Millis(minAttempt);
    var p := DialPlan(count, window, minAttempt);
    DivTimes(window, p.attempts);
    NoRoomForMore(Millis(window) / ms, ms, window);
    if window >= minAttempt {
      EveryAttemptFits(window, ms, p.attempts);
      AtMostQuotient(minAttempt, window, p.attempts);
    } else {
      assert Millis(window) < ms;
      SmallerDividesToZero(Millis(window), ms);
      assert p.attempts == 1;
    }
  }

  lemma NoRoomForMore(fits: nat, ms: nat, window: Duration)
    requires ms > 0 && fits == Millis(window) / ms
    ensures (Max(fits, 1) + 1) * (ms * MILLISECOND) > window
  {
    DivTimes(Millis(window), ms);
    assert (fits + 1) * ms >= Millis(window) + 1;
    assert (fits + 1) * (ms * MILLISECOND) == ((fits + 1) * ms) * MILLISECOND >= (Millis(window) + 1) * MILLISECOND;
    if fits == 0 {
      assert 2 * (ms * MILLISECOND) > window;
    }
  }

  /** With the constants of the source: up to four attempts, of a second divided among them. */
  lemma PlanOfTheSource(count: nat)
    ensures var p := DialPlan(count, HANDSHAKE_TIMEOUT, MIN_ATTEMPT);
            && p.attempts == (if count == 0 then 1 else if count > 4 then 4 else count)
            && p.slice == 1_000_000_000 / p.attempts
            && MIN_ATTEMPT == 250_000_000 <= p.slice
    ensures RESOLVE_TIMEOUT + HANDSHAKE_TIMEOUT == CONNECT_BUDGET == 1_500_000_000
  {
    PlanFitsWindow(count, HANDSHAKE_TIMEOUT, MIN_ATTEMPT);
  }

  /** Candidate `i` is among those dialed if that many attempts of the minimum fit the window. */
  lemma RoomFor(count: nat, i: nat, window: Duration, minAttempt: Duration)
    requires minAttempt > 0 && minAttempt % MILLISECOND == 0
    requires i < count && (i + 1) * minAttempt <= window
    ensures Millis(minAttempt) > 0 && i < DialPlan(count, window, minAttempt).attempts
    ensures minAttempt <= DialPlan(count, window, minAttempt).slice
  {
    PlanFitsWindow(count, window, minAttempt);
    TimesMonotone(1, i + 1, minAttempt);
    var n := DialPlan(count, window, minAttempt).attempts;
    if n <= i {
      TimesMonotone(n + 1, i + 1, minAttempt);
    }
  }

  lemma TimesMonotone(a: nat, b: nat, c: nat)
    requires a <= b
    ensures a * c <= b * c
  {
  }

  lemma SmallerDividesToZero(a: nat, b: nat)
    requires a < b
    ensures a / b == 0
  {
  }

  lemma EveryAttemptFits(window: Duration, ms: nat, n: nat)
    requires 0 < ms <= Millis(window) && n <= Max(Millis(window) / ms, 1)
    ensures n * (ms * MILLISECOND) <= window
  {
    DivTimes(Millis(window), ms);
    assert ms * 1 <= Millis(window);
    AtMostQuotient(1, Millis(window), ms);
    AttemptsFit(n, Millis(window) / ms, ms, window);
  }

  lemma AttemptsFit(n: nat, fits: nat, ms: nat, window: Duration)
    requires n <= fits && ms * fits <= Millis(window)
    ensures n * (ms * MILLISECOND) <= window
  {
    assert n * ms <= fits * ms;
    assert (n * ms) * MILLISECOND <= Millis(window) * MILLISECOND <= window;
    assert n * (ms * MILLISECOND) == (n * ms) * MILLISECOND;
  }

  // ---- Dialing ----------------------------------------------------------------------------

  /** What happens to an attempt on an address: whether its socket opens and the connect starts,
      after how long the peer answers (if ever), and whether handshake and h3 setup succeed. */
  datatype Fate = Fate(opens: bool, starts: bool, latency: Option<Duration>, accepted: bool, h3: bool)

  predicate Answers(f: Fate, slice: Duration)
  {
    f.opens && f.starts && f.latency.Some? && f.latency.value <= slice
  }

  predicate Succeeds(f: Fate, slice: Duration)
  {
    Answers(f, slice) && f.accepted && f.h3
  }

  /** The time an attempt spends inside its timeout; h3 setup is under none. */
  function TimedWait(f: Fate, slice: Duration): (d: Duration)
    ensures d <= slice
    ensures f.opens && f.starts && f.latency.None? ==> d == slice
    ensures f.opens && f.starts && f.latency.Some? ==> d == Min(f.latency.value, slice)
    ensures d > 0 ==> f.opens && f.starts
  {
    if !f.opens || !f.starts then 0 else if Answers(f, slice) then f.latency.value else slice
  }

  datatype Connection = Connection(endpoint: nat, recipe: SocketRecipe, peer: Address)

  datatype Failure = OpenFailed | StartFailed | TimedOut | Refused | H3Failed

  datatype DialResult = Connected(connection: Connection) | DialFailed(failures: seq<(Address, Failure)>)

  datatype Resolution = NoAnswer | LookupFailed(after: Duration) | Found(addrs: seq<Address>, after: Duration)

  /** `why` is what went wrong first in an attempt that failed. */
  ghost predicate Explains(why: Failure, f: Fate, slice: Duration)
  {
    match why
    case OpenFailed => !f.opens
    case StartFailed => f.opens && !f.starts
    case TimedOut => f.opens && f.starts && (f.latency.None? || f.latency.value > slice)
    case Refused => f.opens && f.starts && f.latency.Some? && f.latency.value <= slice && !f.accepted
    case H3Failed => f.opens && f.starts && f.latency.Some? && f.latency.value <= slice && f.accepted && !f.h3
  }

  /** The resolver answers in time, and with an address. */
  predicate Resolves(r: Resolution)
  {
    r.Found? && r.after <= RESOLVE_TIMEOUT && r.addrs != []
  }

  /** The process as dialing sees it: what is open and running, the gauge, and the history. */
  class Process {
    const fates: Address -> Fate

    var live: nat               // LIVE_CONNECTIONS
    var endpoints: set<nat>     // open endpoints
    var drivers: set<nat>       // endpoints with a running h3 driver
    var nextId: nat
    var dialed: seq<Address>    // addresses a socket was opened for, or tried to be
    var peak: nat               // most endpoints ever open at once
    var waited: Duration        // time spent under timeouts

    ghost predicate Valid()
      reads this
    {
      (forall e :: e in endpoints ==> e < nextId) && (forall e :: e in drivers ==> e < nextId)
    }

    constructor (fates: Address -> Fate)
      ensures Valid() && this.fates == fates && live == 0 && endpoints == {} && drivers == {}
      ensures dialed == [] && peak == 0 && waited == 0
    {
      this.fates := fates;
      live, endpoints, drivers, nextId, dialed, peak, waited := 0, {}, {}, 0, [], 0, 0;
    }

    /** Opens a socket of the peer's family and an endpoint on it. */
    method Open(addr: Address, obf: Option<S.Salamander>) returns (r: Option<(nat, SocketRecipe)>)
      requires Valid()
      modifies this`endpoints, this`nextId, this`dialed, this`peak
      ensures Valid() && dialed == old(dialed) + [addr]
      ensures r.Some? <==> fates(addr).opens
      ensures r.None? ==> endpoints == old(endpoints) && peak == old(peak)
      ensures r.Some? ==>
                && r.value == (old(nextId), SocketRecipe(BindAddrFor(addr), obf))
                && endpoints == old(endpoints) + {r.value.0} && peak == Max(old(peak), |old(endpoints)| + 1)
    {
      dialed := dialed + [addr];
      if !fates(addr).opens {
        return None;
      }
      r := Some((nextId, SocketRecipe(BindAddrFor(addr), obf)));
      endpoints := endpoints + {nextId};
      peak := Max(peak, |endpoints|);
      nextId := nextId + 1;
    }

    method CloseEndpoint(e: nat)
      requires Valid()
      modifies this`endpoints
      ensures Valid() && endpoints == old(endpoints) - {e}
    {
      endpoints := endpoints - {e};
    }

    /** Handshake and h3 setup on an open endpoint. Success keeps the endpoint, starts one driver and
        raises the gauge; every failure closes the endpoint and leaves the rest alone. */
    method Handshake(e: nat, recipe: SocketRecipe, addr: Address, slice: Duration) returns (r: Option<Connection>, why: Failure)
      requires Valid() && e in endpoints && fates(addr).opens
      modifies this`live, this`endpoints, this`drivers, this`waited
      ensures Valid() && waited == old(waited) + TimedWait(fates(addr), slice)
      ensures r.Some? <==> Succeeds(fates(addr), slice)
      ensures var f := fates(addr);
              r.Some? <==> f.starts && f.latency.Some? && f.latency.value <= slice && f.accepted && f.h3
      ensures r.Some? ==>
                && r.value == Connection(e, recipe, addr) && live == old(live) + 1
                && endpoints == old(endpoints) && drivers == old(drivers) + {e}
      ensures r.None? ==> live == old(live) && endpoints == old(endpoints) - {e} && drivers == old(drivers)
      ensures r.None? ==> Explains(why, fates(addr), slice)
    {
      var f := fates(addr);
      r, why := None, TimedOut;
      if !f.starts {
        CloseEndpoint(e);
        why := StartFailed;
        return;
      }
      if f.latency.None? || f.latency.value > slice {
        waited := waited + slice;
        CloseEndpoint(e);
        return;
      }
      waited := waited + f.latency.value;
      if !f.accepted {
        CloseEndpoint(e);
        why := Refused;
        return;
      }
      if !f.h3 {
        CloseEndpoint(e);
        why := H3Failed;
        return;
      }
      drivers := drivers + {e};
      live := live + 1;
      r := Some(Connection(e, recipe, addr));
    }

    /** One connection more than before: an endpoint no one had open, its driver, and the gauge. */
    ghost predicate GainedOne(c: Connection, obf: Option<S.Salamander>, live0: nat, endpoints0: set<nat>, drivers0: set<nat>)
      reads this
    {
      && live == live0 + 1 && c.endpoint !in endpoints0
      && endpoints == endpoints0 + {c.endpoint} && drivers == drivers0 + {c.endpoint}
      && c.recipe == SocketRecipe(BindAddrFor(c.peer), obf)
    }

    /** One turn of the dial loop: open, then handshake. */
    method TryOne(addr: Address, obf: Option<S.Salamander>, slice: Duration) returns (r: Option<Connection>, why: Failure)
      requires Valid()
      modifies this`live, this`endpoints, this`drivers, this`nextId, this`dialed, this`peak, this`waited
      ensures Valid() && peak <= Max(old(peak), |old(endpoints)| + 1)
      ensures dialed == old(dialed) + [addr] && waited == old(waited) + TimedWait(fates(addr), slice)
      ensures r.Some? <==> Succeeds(fates(addr), slice)
      ensures r.Some? ==> r.value.peer == addr && GainedOne(r.value, obf, old(live), old(endpoints), old(drivers))
      ensures r.None? ==> Explains(why, fates(addr), slice)
      ensures r.None? ==> live == old(live) && endpoints == old(endpoints) && drivers == old(drivers)
    {
      var socket := Open(addr, obf);
      if socket.None? {
        return None, OpenFailed;
      }
      var (e, recipe) := socket.value;
      r, why := Handshake(e, recipe, addr, slice);
    }

    /** Dials the candidates in order until one works. Success leaves exactly one more endpoint, one
        driver on it and the gauge up by one, for the earliest candidate whose attempt succeeds;
        failure leaves none. Never are two endpoints of one dial open at once, and the timed waits
        stay within the plan. */
    method Dial(candidates: seq<Address>, obf: Option<S.Salamander>) returns (r: DialResult, ghost tried: nat)
      requires Valid()
      modifies this`live, this`endpoints, this`drivers, this`nextId, this`dialed, this`peak, this`waited
      ensures Valid() && peak <= Max(old(peak), |old(endpoints)| + 1)
      ensures waited - old(waited) <= HANDSHAKE_TIMEOUT
      ensures match r
              case Connected(c) => GainedOne(c, obf, old(live), old(endpoints), old(drivers))
              case DialFailed(_) => live == old(live) && endpoints == old(endpoints) && drivers == old(drivers)
      ensures tried <= |candidates| && dialed == old(dialed) + candidates[..tried]
      ensures var plan := DialPlan(|candidates|, HANDSHAKE_TIMEOUT, MIN_ATTEMPT);
              match r
              case Connected(c) =>
                0 < tried <= plan.attempts && c.peer == candidates[tried - 1] && IsWinner(candidates, tried - 1, plan.slice)
              case DialFailed(failures) =>
                && tried == |failures| == Min(|candidates|, plan.attempts)
                && (failures == [] <==> candidates == [])
                && (forall i :: 0 <= i < tried ==> !Succeeds(fates(candidates[i]), plan.slice))
                && (forall i :: 0 <= i < tried ==>
                      failures[i].0 == candidates[i] && Explains(failures[i].1, fates(candidates[i]), plan.slice))
    {
      var plan := DialPlan(|candidates|, HANDSHAKE_TIMEOUT, MIN_ATTEMPT);
      PlanFitsWindow(|candidates|, HANDSHAKE_TIMEOUT, MIN_ATTEMPT);
      var n := Min(|candidates|, plan.attempts);
      var failures: seq<(Address, Failure)> := [];
      tried := 0;
      for i := 0 to n
        invariant Valid() && live == old(live) && endpoints == old(endpoints) && drivers == old(drivers)
        invariant peak <= Max(old(peak), |old(endpoints)| + 1)
        invariant waited - old(waited) <= i * plan.slice
        invariant tried == i == |failures| && dialed == old(dialed) + candidates[..i]
        invariant forall j :: 0 <= j < i ==> !Succeeds(fates(candidates[j]), plan.slice)
        invariant forall j :: 0 <= j < i ==>
                    failures[j].0 == candidates[j] && Explains(failures[j].1, fates(candidates[j]), plan.slice)
      {
        var addr := candidates[i];
        assert candidates[..i + 1] == candidates[..i] + [addr];
        WithinPlan(i + 1, n, plan);
        var done, why := TryOne(addr, obf, plan.slice);
        tried := i + 1;
        if done.Some? {
          return Connected(done.value), tried;
        }
        failures := failures + [(addr, why)];
      }
      WithinPlan(n, n, plan);
      r := DialFailed(failures);
    }

    /** The earliest candidate whose attempt succeeds. */
    ghost predicate IsWinner(candidates: seq<Address>, i: nat, slice: Duration)
    {
      i < |candidates| && Succeeds(fates(candidates[i]), slice)
      && forall j :: 0 <= j < i ==> !Succeeds(fates(candidates[j]), slice)
    }

    /** Name resolution under its own timeout; an answer without addresses is a failure. */
    method ResolveAll(resolution: Resolution) returns (r: Option<seq<Address>>)
      modifies this`waited
      ensures waited - old(waited) == if resolution.NoAnswer? then RESOLVE_TIMEOUT else Min(resolution.after, RESOLVE_TIMEOUT)
      ensures r.Some? <==> resolution.Found? && resolution.after <= RESOLVE_TIMEOUT && resolution.addrs != []
      ensures r.Some? ==> r.value == Firsts(resolution.addrs) && r.value != [] && Distinct(r.value)
    {
      if resolution.NoAnswer? || resolution.after > RESOLVE_TIMEOUT {
        waited := waited + RESOLVE_TIMEOUT;
        return None;
      }
      waited := waited + resolution.after;
      if resolution.LookupFailed? {
        return None;
      }
      var candidates := DialCandidates(resolution.addrs);
      NoneFromNone(resolution.addrs);
      FirstsAreFirstOccurrences(resolution.addrs);
      if candidates == [] {
        return None;
      }
      r := Some(candidates);
    }

    /** Resolution and dial together. It succeeds exactly when the resolver answers in time and one of
        the candidates the plan has room for works, and then with the earliest of them; a candidate
        that would answer within the minimum attempt suffices if that many attempts fit. The connect
        budget covers every timed wait, addresses are tried in order and none twice, and gauge,
        endpoints and drivers move only on success, by exactly the connection won. */
    method Connect(resolution: Resolution, obf: Option<S.Salamander>)
      returns (r: Option<Connection>, ghost candidates: seq<Address>, ghost tried: nat)
      requires Valid()
      modifies this`live, this`endpoints, this`drivers, this`nextId, this`dialed, this`peak, this`waited
      ensures Valid() && waited - old(waited) <= CONNECT_BUDGET
      ensures r.None? ==> live == old(live) && endpoints == old(endpoints) && drivers == old(drivers)
      ensures r.Some? ==> GainedOne(r.value, obf, old(live), old(endpoints), old(drivers))
      ensures candidates == if Resolves(resolution) then Firsts(resolution.addrs) else []
      ensures Distinct(candidates)
      ensures tried <= |candidates| && dialed == old(dialed) + candidates[..tried]
      ensures var plan := DialPlan(|candidates|, HANDSHAKE_TIMEOUT, MIN_ATTEMPT);
              && (r.Some? <==> exists i :: 0 <= i < Min(|candidates|, plan.attempts) && Succeeds(fates(candidates[i]), plan.slice))
              && (r.Some? ==> tried > 0 && r.value.peer == candidates[tried - 1] && IsWinner(candidates, tried - 1, plan.slice))
              && (r.None? ==> tried == Min(|candidates|, plan.attempts))
      ensures forall i :: (0 <= i < |candidates| && (i + 1) * MIN_ATTEMPT <= HANDSHAKE_TIMEOUT
                           && Succeeds(fates(candidates[i]), MIN_ATTEMPT)) ==> r.Some?
    {
      var found := ResolveAll(resolution);
      if found.None? {
        return None, [], 0;
      }
      candidates := found.value;
      var dial;
      dial, tried := Dial(found.value, obf);
      match dial {
        case Connected(c) => r := Some(c);
        case DialFailed(_) =>
          r := None;
          forall i | 0 <= i < |candidates| && (i + 1) * MIN_ATTEMPT <= HANDSHAKE_TIMEOUT
            ensures !Succeeds(fates(candidates[i]), MIN_ATTEMPT)
          {
            RoomFor(|candidates|, i, HANDSHAKE_TIMEOUT, MIN_ATTEMPT);
          }
      }
    }
  }

  lemma NoneFromNone(addrs: seq<Address>)
    ensures addrs == [] <==> Firsts(addrs) == []
  {
    SameMembers(addrs);
    assert addrs == [] || addrs[0] in Firsts(addrs);
  }

  lemma WithinPlan(i: nat, n: nat, plan: Plan)
    requires i <= n <= plan.attempts && plan.attempts * plan.slice <= HANDSHAKE_TIMEOUT
    ensures i * plan.slice <= HANDSHAKE_TIMEOUT
    ensures i > 0 ==> (i - 1) * plan.slice + plan.slice == i * plan.slice
  {
    assert i * plan.slice <= plan.attempts * plan.slice;
  }
}
