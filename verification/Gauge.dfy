/** The live-connection gauge under concurrent teardown: any number of clients, any number of
    threads inside `retire` through `close()` or the final `Drop`, interleaved step by step. The
    atomics are sequentially consistent here. */
module Gauge {
  import opened Sequences

  type Id = nat

  datatype Client = Client(
    published: bool,            // the constructor returned the client to its caller
    dropping: bool,             // the last reference went away; no `close()` can start any more
    connClosed: bool, driverAborted: bool, endpointClosed: bool,
    retired: bool)              // the flag `retire` swaps

  /** The next thing a thread inside `retire` does. */
  datatype Pc = CloseConn | AbortDriver | CloseEndpoint | SwapFlag | Subtract

  datatype Thread = Thread(client: Id, pc: Pc)

  datatype State = State(
    clients: map<Id, Client>,
    threads: map<Id, Thread>,   // threads inside `retire`
    live: int,                  // LIVE_CONNECTIONS
    winner: map<Id, Id>,        // for each retired client, the thread whose swap set the flag
    subtracted: seq<Id>,        // clients taken off the gauge, in order
    retirements: set<Id>)       // clients for which some `retire` call has returned

  const Init := State(map[], map[], 0, map[], [], {})

  datatype Label = Connect(c: Id) | Publish(c: Id) | Close(t: Id, c: Id) | Drop(t: Id, c: Id) | Next(t: Id)

  /** Whether a thread may enter `retire` on client `c`. */
  predicate MayEnter(s: State, t: Id, c: Id)
  {
    t !in s.threads && c in s.clients && s.clients[c].published && !s.clients[c].dropping
  }

  function Step(s: State, l: Label): State
  {
    match l
    case Connect(c) =>
      if c in s.clients then s
      else s.(live := s.live + 1, clients := s.clients[c := Client(false, false, false, false, false, false)])
    case Publish(c) =>
      if c in s.clients then s.(clients := s.clients[c := s.clients[c].(published := true)]) else s
    case Close(t, c) =>
      if MayEnter(s, t, c) then s.(threads := s.threads[t := Thread(c, CloseConn)]) else s
    case Drop(t, c) =>
      // Dropping needs exclusive access: no `close()` is running on this client.
      if MayEnter(s, t, c) && (forall u :: u in s.threads ==> s.threads[u].client != c)
      then s.(clients := s.clients[c := s.clients[c].(dropping := true)],
              threads := s.threads[t := Thread(c, CloseConn)]) else s
    case Next(t) => if t in s.threads then Advance(s, t) else s
  }

  function Advance(s: State, t: Id): State
    requires t in s.threads
  {
    var c := s.threads[t].client;
    if c !in s.clients then s
    else
      var client := s.clients[c];
      match s.threads[t].pc
      case CloseConn => GoOn(s, t, client.(connClosed := true), AbortDriver)
      case AbortDriver => GoOn(s, t, client.(driverAborted := true), CloseEndpoint)
      case CloseEndpoint => GoOn(s, t, client.(endpointClosed := true), SwapFlag)
      case SwapFlag =>
        if client.retired then Leave(s, t)
        else GoOn(s.(winner := s.winner[c := t]), t, client.(retired := true), Subtract)
      case Subtract => Leave(s.(live := s.live - 1, subtracted := s.subtracted + [c]), t)
  }

  function GoOn(s: State, t: Id, client: Client, pc: Pc): State
    requires t in s.threads
  {
    var c := s.threads[t].client;
    s.(clients := s.clients[c := client], threads := s.threads[t := Thread(c, pc)])
  }

  function Leave(s: State, t: Id): State
    requires t in s.threads
  {
    s.(threads := s.threads - {t}, retirements := s.retirements + {s.threads[t].client})
  }

  function Run(labels: seq<Label>): State
  {
    if labels == [] then Init else Step(Run(labels[..|labels| - 1]), labels[|labels| - 1])
  }

  // ---- What every run keeps ---------------------------------------------------------------

  function Unretired(s: State): set<Id>
  {
    set c | c in s.clients && !s.clients[c].retired
  }

  /** Threads between the swap that set the flag and the subtraction it entitles them to. */
  function Subtracting(s: State): set<Id>
  {
    set t | t in s.threads && s.threads[t].pc == Subtract
  }

  ghost predicate GaugeExact(s: State)
  {
    s.live == |Unretired(s)| + |Subtracting(s)|
  }

  function Rank(pc: Pc): nat
  {
    match pc
    case CloseConn => 0
    case AbortDriver => 1
    case CloseEndpoint => 2
    case SwapFlag => 3
    case Subtract => 4
  }

  /** Everything `retire` does before `pc` has been done to the client. */
  ghost predicate Passed(c: Client, pc: Pc)
  {
    && (Rank(pc) > 0 ==> c.connClosed)
    && (Rank(pc) > 1 ==> c.driverAborted)
    && (Rank(pc) > 2 ==> c.endpointClosed)
    && (Rank(pc) > 3 ==> c.retired)
  }

  ghost predicate TornDown(c: Client)
  {
    c.connClosed && c.driverAborted && c.endpointClosed
  }

  /** The teardown steps a thread has passed have been done, and the flag comes last. */
  ghost predicate StepsInOrder(s: State)
  {
    && (forall t :: t in s.threads ==> s.threads[t].client in s.clients)
    && (forall t :: t in s.threads ==> Passed(s.clients[s.threads[t].client], s.threads[t].pc))
    && (forall c :: c in s.clients && s.clients[c].retired ==> TornDown(s.clients[c]))
    && (forall c :: c in s.retirements ==> c in s.clients && s.clients[c].retired)
  }

  ghost predicate StillDue(s: State, c: Id)
    requires c in s.winner
  {
    s.winner[c] in s.threads && s.threads[s.winner[c]] == Thread(c, Subtract)
  }

  ghost predicate DueToWinner(s: State, t: Id)
    requires t in s.threads
  {
    var c := s.threads[t].client;
    c in s.winner && s.winner[c] == t && c !in s.subtracted
  }

  /** A retired client has either been subtracted or its winner is about to do it, never both. */
  ghost predicate SubtractedOnce(s: State)
  {
    && Distinct(s.subtracted)
    && (forall c :: c in s.winner <==> c in s.clients && s.clients[c].retired)
    && (forall c :: c in s.subtracted ==> c in s.winner)
    && (forall c :: c in s.winner && c !in s.subtracted ==> StillDue(s, c))
    && (forall t :: t in s.threads && s.threads[t].pc == Subtract ==> DueToWinner(s, t))
  }

  // Entering `retire`, and the bookkeeping around it, retires no one.

  ghost predicate NothingUndone(c: Client, d: Client)
  {
    && (c.connClosed ==> d.connClosed) && (c.driverAborted ==> d.driverAborted)
    && (c.endpointClosed ==> d.endpointClosed) && (c.retired ==> d.retired)
  }

  ghost predicate SameFlags(a: map<Id, Client>, b: map<Id, Client>)
  {
    && a.Keys <= b.Keys
    && (forall c :: c in a ==> NothingUndone(a[c], b[c]) && NothingUndone(b[c], a[c]))
    && (forall c :: c in b && c !in a ==> !b[c].retired)
  }

  ghost predicate OnlyEntered(s: State, clients: map<Id, Client>, threads: map<Id, Thread>)
  {
    && SameFlags(s.clients, clients)
    && (forall t :: t in s.threads ==> t in threads && threads[t] == s.threads[t])
    && (forall t :: t in threads && t !in s.threads ==> threads[t].client in clients && threads[t].pc == CloseConn)
  }

  lemma EnterKeepsOrder(s: State, clients: map<Id, Client>, threads: map<Id, Thread>, live: int)
    requires StepsInOrder(s) && OnlyEntered(s, clients, threads)
    ensures StepsInOrder(s.(clients := clients, threads := threads, live := live))
  {
  }

  lemma EnterKeepsOnce(s: State, clients: map<Id, Client>, threads: map<Id, Thread>, live: int)
    requires SubtractedOnce(s) && OnlyEntered(s, clients, threads)
    ensures SubtractedOnce(s.(clients := clients, threads := threads, live := live))
  {
  }

  lemma EnterKeeps(s: State, clients: map<Id, Client>, threads: map<Id, Thread>, live: int)
    requires StepsInOrder(s) && SubtractedOnce(s) && OnlyEntered(s, clients, threads)
    ensures var after := s.(clients := clients, threads := threads, live := live);
            StepsInOrder(after) && SubtractedOnce(after)
  {
    EnterKeepsOrder(s, clients, threads, live);
    EnterKeepsOnce(s, clients, threads, live);
  }

  // One step inside `retire`.

  lemma GoOnKeepsOrder(s: State, t: Id, client: Client, pc: Pc)
    requires StepsInOrder(s) && t in s.threads
    requires NothingUndone(s.clients[s.threads[t].client], client)
    requires Passed(client, pc) && (client.retired ==> TornDown(client))
    ensures StepsInOrder(GoOn(s, t, client, pc))
  {
  }

  lemma LeaveKeepsOrder(s: State, t: Id)
    requires StepsInOrder(s) && t in s.threads && s.clients[s.threads[t].client].retired
    ensures StepsInOrder(Leave(s, t))
  {
  }

  lemma NextKeepsOrder(s: State, t: Id)
    requires StepsInOrder(s) && t in s.threads
    ensures StepsInOrder(Advance(s, t))
  {
    var c := s.threads[t].client;
    var client := s.clients[c];
    match s.threads[t].pc {
      case CloseConn => GoOnKeepsOrder(s, t, client.(connClosed := true), AbortDriver);
      case AbortDriver => GoOnKeepsOrder(s, t, client.(driverAborted := true), CloseEndpoint);
      case CloseEndpoint => GoOnKeepsOrder(s, t, client.(endpointClosed := true), SwapFlag);
      case SwapFlag =>
        if client.retired {
          LeaveKeepsOrder(s, t);
        } else {
          GoOnKeepsOrder(s.(winner := s.winner[c := t]), t, client.(retired := true), Subtract);
        }
      case Subtract => LeaveKeepsOrder(s.(live := s.live - 1, subtracted := s.subtracted + [c]), t);
    }
  }

  lemma TeardownKeepsOnce(s: State, t: Id, client: Client, pc: Pc)
    requires SubtractedOnce(s) && t in s.threads && s.threads[t].client in s.clients
    requires client.retired == s.clients[s.threads[t].client].retired
    requires s.threads[t].pc != Subtract && pc != Subtract
    ensures SubtractedOnce(GoOn(s, t, client, pc))
  {
  }

  lemma WinKeepsOnce(s: State, t: Id, client: Client)
    requires SubtractedOnce(s) && t in s.threads && s.threads[t].pc == SwapFlag
    requires s.threads[t].client in s.clients && !s.clients[s.threads[t].client].retired && client.retired
    ensures SubtractedOnce(GoOn(s.(winner := s.winner[s.threads[t].client := t]), t, client, Subtract))
  {
  }

  lemma LoseKeepsOnce(s: State, t: Id)
    requires SubtractedOnce(s) && t in s.threads && s.threads[t].pc == SwapFlag
    ensures SubtractedOnce(Leave(s, t))
  {
  }

  lemma SubtractKeepsOnce(s: State, t: Id)
    requires SubtractedOnce(s) && t in s.threads && s.threads[t].pc == Subtract
    ensures SubtractedOnce(Leave(s.(live := s.live - 1, subtracted := s.subtracted + [s.threads[t].client]), t))
  {
  }

  lemma NextKeepsOnce(s: State, t: Id)
    requires SubtractedOnce(s) && t in s.threads && s.threads[t].client in s.clients
    ensures SubtractedOnce(Advance(s, t))
  {
    var client := s.clients[s.threads[t].client];
    match s.threads[t].pc {
      case CloseConn => TeardownKeepsOnce(s, t, client.(connClosed := true), AbortDriver);
      case AbortDriver => TeardownKeepsOnce(s, t, client.(driverAborted := true), CloseEndpoint);
      case CloseEndpoint => TeardownKeepsOnce(s, t, client.(endpointClosed := true), SwapFlag);
      case SwapFlag => if client.retired { LoseKeepsOnce(s, t); } else { WinKeepsOnce(s, t, client.(retired := true)); }
      case Subtract => SubtractKeepsOnce(s, t);
    }
  }

  // The gauge.

  lemma SameSetsSameGauge(s: State, after: State)
    requires GaugeExact(s) && after.live == s.live
    requires Unretired(after) == Unretired(s) && Subtracting(after) == Subtracting(s)
    ensures GaugeExact(after)
  {
  }

  lemma WinKeepsGauge(s: State, t: Id, client: Client)
    requires GaugeExact(s) && t in s.threads && s.threads[t].pc == SwapFlag
    requires s.threads[t].client in s.clients && !s.clients[s.threads[t].client].retired && client.retired
    ensures GaugeExact(GoOn(s.(winner := s.winner[s.threads[t].client := t]), t, client, Subtract))
  {
    var after := GoOn(s.(winner := s.winner[s.threads[t].client := t]), t, client, Subtract);
    assert Unretired(after) == Unretired(s) - {s.threads[t].client};
    assert Subtracting(after) == Subtracting(s) + {t};
  }

  lemma SubtractKeepsGauge(s: State, t: Id)
    requires GaugeExact(s) && t in s.threads && s.threads[t].pc == Subtract
    ensures GaugeExact(Leave(s.(live := s.live - 1, subtracted := s.subtracted + [s.threads[t].client]), t))
  {
    var after := Leave(s.(live := s.live - 1, subtracted := s.subtracted + [s.threads[t].client]), t);
    assert Unretired(after) == Unretired(s) && Subtracting(after) == Subtracting(s) - {t};
  }

  lemma NextKeepsGauge(s: State, t: Id)
    requires GaugeExact(s) && StepsInOrder(s) && t in s.threads
    ensures GaugeExact(Advance(s, t))
  {
    var client := s.clients[s.threads[t].client];
    match s.threads[t].pc {
      case SwapFlag =>
        if client.retired {
          SameSetsSameGauge(s, Leave(s, t));
        } else {
          WinKeepsGauge(s, t, client.(retired := true));
        }
      case Subtract => SubtractKeepsGauge(s, t);
      case CloseConn => SameSetsSameGauge(s, GoOn(s, t, client.(connClosed := true), AbortDriver));
      case AbortDriver => SameSetsSameGauge(s, GoOn(s, t, client.(driverAborted := true), CloseEndpoint));
      case CloseEndpoint => SameSetsSameGauge(s, GoOn(s, t, client.(endpointClosed := true), SwapFlag));
    }
  }

  lemma ConnectKeepsGauge(s: State, c: Id)
    requires GaugeExact(s) && c !in s.clients
    ensures GaugeExact(Step(s, Connect(c)))
  {
    var after := Step(s, Connect(c));
    assert Unretired(after) == Unretired(s) + {c} && Subtracting(after) == Subtracting(s);
  }

  lemma StepKeepsGauge(s: State, l: Label)
    requires GaugeExact(s) && StepsInOrder(s)
    ensures GaugeExact(Step(s, l))
  {
    match l {
      case Connect(c) => if c !in s.clients { ConnectKeepsGauge(s, c); }
      case Next(t) => if t in s.threads { NextKeepsGauge(s, t); }
      case _ => SameSetsSameGauge(s, Step(s, l));
    }
  }

  lemma ConnectKeepsTheRest(s: State, c: Id)
    requires StepsInOrder(s) && SubtractedOnce(s) && c !in s.clients
    ensures StepsInOrder(Step(s, Connect(c))) && SubtractedOnce(Step(s, Connect(c)))
  {
    var clients := s.clients[c := Client(false, false, false, false, false, false)];
    EnterKeeps(s, clients, s.threads, s.live + 1);
  }

  lemma DropKeepsTheRest(s: State, t: Id, c: Id)
    requires StepsInOrder(s) && SubtractedOnce(s) && MayEnter(s, t, c)
    ensures StepsInOrder(Step(s, Drop(t, c))) && SubtractedOnce(Step(s, Drop(t, c)))
  {
    var clients := s.clients[c := s.clients[c].(dropping := true)];
    EnterKeeps(s, clients, s.threads[t := Thread(c, CloseConn)], s.live);
  }

  lemma CloseKeepsTheRest(s: State, t: Id, c: Id)
    requires StepsInOrder(s) && SubtractedOnce(s) && MayEnter(s, t, c)
    ensures StepsInOrder(Step(s, Close(t, c))) && SubtractedOnce(Step(s, Close(t, c)))
  {
    EnterKeeps(s, s.clients, s.threads[t := Thread(c, CloseConn)], s.live);
  }

  lemma PublishKeepsTheRest(s: State, c: Id)
    requires StepsInOrder(s) && SubtractedOnce(s) && c in s.clients
    ensures StepsInOrder(Step(s, Publish(c))) && SubtractedOnce(Step(s, Publish(c)))
  {
    EnterKeeps(s, s.clients[c := s.clients[c].(published := true)], s.threads, s.live);
  }

  lemma StepKeepsTheRest(s: State, l: Label)
    requires StepsInOrder(s) && SubtractedOnce(s)
    ensures StepsInOrder(Step(s, l)) && SubtractedOnce(Step(s, l))
  {
    match l {
      case Next(t) =>
        if t in s.threads {
          NextKeepsOrder(s, t);
          NextKeepsOnce(s, t);
        }
      case Connect(c) => if c !in s.clients { ConnectKeepsTheRest(s, c); }
      case Publish(c) => if c in s.clients { PublishKeepsTheRest(s, c); }
      case Close(t, c) => if MayEnter(s, t, c) { CloseKeepsTheRest(s, t, c); }
      case Drop(t, c) => if MayEnter(s, t, c) { DropKeepsTheRest(s, t, c); }
    }
  }

  lemma {:induction false} EveryRunKeeps(labels: seq<Label>)
    ensures var s := Run(labels); GaugeExact(s) && StepsInOrder(s) && SubtractedOnce(s)
  {
    if labels != [] {
      var s, l := Run(labels[..|labels| - 1]), labels[|labels| - 1];
      EveryRunKeeps(labels[..|labels| - 1]);
      StepKeepsGauge(s, l);
      StepKeepsTheRest(s, l);
    }
  }

  // ---- Main results -----------------------------------------------------------------------

  /** The gauge is exact in every run: it counts the clients no one has retired and those whose
      subtraction is still due, so it never falls below zero, and a thread about to subtract finds
      it positive. With no thread inside `retire` it is the number of unretired clients. */
  lemma GaugeIsExact(labels: seq<Label>)
    ensures var s := Run(labels);
            && s.live == |Unretired(s)| + |Subtracting(s)| && s.live >= 0
            && (forall t :: t in s.threads && s.threads[t].pc == Subtract ==> s.live >= 1)
            && (s.threads == map[] ==> s.live == |Unretired(s)|)
  {
    EveryRunKeeps(labels);
    var s := Run(labels);
    forall t | t in s.threads && s.threads[t].pc == Subtract
      ensures s.live >= 1
    {
      assert t in Subtracting(s);
    }
    if s.threads == map[] {
      assert Subtracting(s) == {};
    }
  }

  /** Each client is taken off the gauge at most once, and with no thread inside `retire` exactly
      the retired ones have been. The flag is set only after connection, driver and endpoint were
      closed, and no `retire` call returns without it. */
  lemma RetiredOnceAndTornDown(labels: seq<Label>)
    ensures var s := Run(labels);
            && Distinct(s.subtracted)
            && (forall c :: c in s.subtracted ==> c in s.clients && s.clients[c].retired)
            && (forall c :: c in s.clients && s.clients[c].retired ==> TornDown(s.clients[c]))
            && (forall c :: c in s.retirements ==> c in s.clients && s.clients[c].retired)
            && (s.threads == map[] ==> forall c :: c in s.clients ==> (s.clients[c].retired <==> c in s.subtracted))
  {
    EveryRunKeeps(labels);
  }

  // ---- `retire` gets done -----------------------------------------------------------------

  /** `n` steps of one thread. */
  function NextN(s: State, t: Id, n: nat): State
    decreases n
  {
    if n == 0 then s else NextN(Step(s, Next(t)), t, n - 1)
  }

  function Nexts(t: Id, n: nat): seq<Label>
  {
    seq(n, _ => Next(t))
  }

  lemma RunSnoc(labels: seq<Label>, l: Label)
    ensures Run(labels + [l]) == Step(Run(labels), l)
  {
    assert (labels + [l])[..|labels|] == labels;
  }

  lemma {:induction false} RunNexts(labels: seq<Label>, t: Id, n: nat)
    ensures Run(labels + Nexts(t, n)) == NextN(Run(labels), t, n)
    decreases n
  {
    if n == 0 {
      assert labels + Nexts(t, 0) == labels;
    } else {
      RunSnoc(labels, Next(t));
      RunNexts(labels + [Next(t)], t, n - 1);
      assert labels + Nexts(t, n) == labels + [Next(t)] + Nexts(t, n - 1);
    }
  }

  lemma {:induction false} GoneStaysGone(s: State, t: Id, n: nat)
    requires t !in s.threads
    ensures NextN(s, t, n) == s
    decreases n
  {
    if n > 0 {
      GoneStaysGone(s, t, n - 1);
    }
  }

  /** What a thread that entered `retire` on `c` at `s` has done when it leaves at `u`. */
  ghost predicate Retired(s: State, u: State, t: Id, c: Id)
  {
    && c in s.clients && c in u.clients && c in u.retirements && u.threads == s.threads - {t}
    && u.clients[c].retired && u.clients[c].connClosed && u.clients[c].driverAborted && u.clients[c].endpointClosed
    && u.live == s.live - if s.clients[c].retired then 0 else 1
  }

  lemma LastSteps(s: State, t: Id, n: nat)
    requires StepsInOrder(s) && t in s.threads && s.threads[t].pc == SwapFlag && n >= 2
    ensures Retired(s, NextN(s, t, n), t, s.threads[t].client)
  {
    var s1 := Step(s, Next(t));
    if s.clients[s.threads[t].client].retired {
      GoneStaysGone(s1, t, n - 1);
    } else {
      var s2 := Step(s1, Next(t));
      GoneStaysGone(s2, t, n - 2);
      assert NextN(s1, t, n - 1) == s2;
      assert s2.threads == s.threads - {t};
    }
  }

  /** A teardown step moves the thread on by one and retires nothing. */
  lemma TeardownStep(s: State, t: Id)
    requires StepsInOrder(s) && t in s.threads && Rank(s.threads[t].pc) < 3
    ensures var u, c := Step(s, Next(t)), s.threads[t].client;
            && t in u.threads && u.threads[t].client == c && Rank(u.threads[t].pc) == Rank(s.threads[t].pc) + 1
            && u.threads - {t} == s.threads - {t} && u.live == s.live
            && c in u.clients && u.clients[c].retired == s.clients[c].retired
  {
  }

  lemma {:induction false} LeavesRetired(s: State, t: Id, n: nat)
    requires StepsInOrder(s) && t in s.threads && s.threads[t].pc != Subtract && n >= 5 - Rank(s.threads[t].pc)
    ensures Retired(s, NextN(s, t, n), t, s.threads[t].client)
    decreases n
  {
    if s.threads[t].pc == SwapFlag {
      LastSteps(s, t, n);
    } else {
      TeardownStep(s, t);
      NextKeepsOrder(s, t);
      LeavesRetired(Step(s, Next(t)), t, n - 1);
    }
  }

  /** `close()` works: a thread that may enter on `c`, whatever the others have done so far, is out
      after five steps, and then `c` is retired, everything of it is closed, and the gauge has gone
      down by one exactly if no one had retired `c` before. */
  lemma CloseRetires(labels: seq<Label>, t: Id, c: Id)
    requires MayEnter(Run(labels), t, c)
    ensures Retired(Run(labels), Run(labels + [Close(t, c)] + Nexts(t, 5)), t, c)
  {
    EveryRunKeeps(labels);
    EveryRunKeeps(labels + [Close(t, c)]);
    RunSnoc(labels, Close(t, c));
    RunNexts(labels + [Close(t, c)], t, 5);
    LeavesRetired(Run(labels + [Close(t, c)]), t, 5);
    assert Run(labels + [Close(t, c)]).threads - {t} == Run(labels).threads - {t};
  }

  lemma DropEnters(s: State, t: Id, c: Id)
    requires MayEnter(s, t, c) && forall u :: u in s.threads ==> s.threads[u].client != c
    ensures var after := Step(s, Drop(t, c));
            && after.threads == s.threads[t := Thread(c, CloseConn)] && after.threads - {t} == s.threads - {t}
            && after.live == s.live && c in after.clients && after.clients[c].dropping
            && after.clients[c].retired == s.clients[c].retired
  {
  }

  /** So does the final drop, once no other thread is inside `retire` on `c`; whatever happens after
      it, no one can enter any more. */
  lemma DropRetires(labels: seq<Label>, t: Id, c: Id)
    requires MayEnter(Run(labels), t, c) && forall u :: u in Run(labels).threads ==> Run(labels).threads[u].client != c
    ensures Retired(Run(labels), Run(labels + [Drop(t, c)] + Nexts(t, 5)), t, c)
    ensures forall more, u :: !MayEnter(Run(labels + [Drop(t, c)] + more), u, c)
  {
    EveryRunKeeps(labels + [Drop(t, c)]);
    RunSnoc(labels, Drop(t, c));
    DropEnters(Run(labels), t, c);
    RunNexts(labels + [Drop(t, c)], t, 5);
    LeavesRetired(Run(labels + [Drop(t, c)]), t, 5);
    forall more, u
      ensures !MayEnter(Run(labels + [Drop(t, c)] + more), u, c)
    {
      DropIsFinal(labels + [Drop(t, c)], more, c);
    }
  }

  lemma DroppingStays(s: State, l: Label, c: Id)
    requires c in s.clients && s.clients[c].dropping
    ensures c in Step(s, l).clients && Step(s, l).clients[c].dropping
  {
  }

  lemma {:induction false} DropIsFinal(labels: seq<Label>, more: seq<Label>, c: Id)
    requires c in Run(labels).clients && Run(labels).clients[c].dropping
    ensures c in Run(labels + more).clients && Run(labels + more).clients[c].dropping
    decreases |more|
  {
    if more == [] {
      assert labels + more == labels;
    } else {
      var front, last := more[..|more| - 1], more[|more| - 1];
      DropIsFinal(labels, front, c);
      RunSnoc(labels + front, last);
      DroppingStays(Run(labels + front), last, c);
      assert labels + more == labels + front + [last];
    }
  }

  /** A new connection counts at once, before its caller has it, and can be closed once it has. */
  lemma ConnectCounts(labels: seq<Label>, c: Id, t: Id)
    requires c !in Run(labels).clients && t !in Run(labels).threads
    ensures var s := Run(labels + [Connect(c)]);
            s.live == Run(labels).live + 1 && c in Unretired(s) && !MayEnter(s, t, c)
    ensures MayEnter(Run(labels + [Connect(c), Publish(c)]), t, c)
  {
    RunSnoc(labels, Connect(c));
    RunSnoc(labels + [Connect(c)], Publish(c));
    assert labels + [Connect(c)] + [Publish(c)] == labels + [Connect(c), Publish(c)];
  }

  /** The final drop has `retire` to itself. */
  ghost predicate DropperIsAlone(s: State)
  {
    forall t, u :: (t in s.threads && u in s.threads && s.threads[t].client == s.threads[u].client
                    && s.threads[t].client in s.clients && s.clients[s.threads[t].client].dropping) ==> t == u
  }

  /** No thread and no drop is new. */
  lemma FewerStillAlone(s: State, u: State)
    requires DropperIsAlone(s)
    requires forall t :: t in u.threads ==> t in s.threads && u.threads[t].client == s.threads[t].client
    requires forall c :: c in u.clients && u.clients[c].dropping ==> c in s.clients && s.clients[c].dropping
    ensures DropperIsAlone(u)
  {
  }

  lemma AloneGoOn(s: State, t: Id, client: Client, pc: Pc)
    requires DropperIsAlone(s) && t in s.threads && s.threads[t].client in s.clients
    requires client.dropping == s.clients[s.threads[t].client].dropping
    ensures DropperIsAlone(GoOn(s, t, client, pc))
  {
    FewerStillAlone(s, GoOn(s, t, client, pc));
  }

  lemma AloneLeave(s: State, t: Id)
    requires DropperIsAlone(s) && t in s.threads
    ensures DropperIsAlone(Leave(s, t))
  {
    FewerStillAlone(s, Leave(s, t));
  }

  lemma AloneNext(s: State, t: Id)
    requires DropperIsAlone(s) && StepsInOrder(s) && t in s.threads
    ensures DropperIsAlone(Step(s, Next(t)))
  {
    var c := s.threads[t].client;
    var client := s.clients[c];
    match s.threads[t].pc {
      case CloseConn => AloneGoOn(s, t, client.(connClosed := true), AbortDriver);
      case AbortDriver => AloneGoOn(s, t, client.(driverAborted := true), CloseEndpoint);
      case CloseEndpoint => AloneGoOn(s, t, client.(endpointClosed := true), SwapFlag);
      case SwapFlag =>
        if client.retired {
          AloneLeave(s, t);
        } else {
          AloneGoOn(s.(winner := s.winner[c := t]), t, client.(retired := true), Subtract);
        }
      case Subtract => AloneLeave(s.(live := s.live - 1, subtracted := s.subtracted + [c]), t);
    }
  }

  lemma AloneClose(s: State, t: Id, c: Id)
    requires DropperIsAlone(s) && MayEnter(s, t, c)
    ensures DropperIsAlone(Step(s, Close(t, c)))
  {
  }

  lemma AloneDrop(s: State, t: Id, c: Id)
    requires DropperIsAlone(s) && MayEnter(s, t, c)
    ensures DropperIsAlone(Step(s, Drop(t, c)))
  {
  }

  lemma AloneStep(s: State, l: Label)
    requires DropperIsAlone(s) && StepsInOrder(s)
    ensures DropperIsAlone(Step(s, l))
  {
    if Step(s, l) != s {
      match l {
        case Next(t) => AloneNext(s, t);
        case Close(t, c) => AloneClose(s, t, c);
        case Drop(t, c) => AloneDrop(s, t, c);
        case _ => AloneClients(s, l);
      }
    }
  }

  lemma AloneClients(s: State, l: Label)
    requires DropperIsAlone(s) && StepsInOrder(s) && (l.Connect? || l.Publish?)
    ensures DropperIsAlone(Step(s, l))
  {
    FewerStillAlone(s, Step(s, l));
  }

  lemma {:induction false} DropperIsAlwaysAlone(labels: seq<Label>)
    ensures DropperIsAlone(Run(labels))
  {
    if labels != [] {
      DropperIsAlwaysAlone(labels[..|labels| - 1]);
      EveryRunKeeps(labels[..|labels| - 1]);
      AloneStep(Run(labels[..|labels| - 1]), labels[|labels| - 1]);
    }
  }
}
