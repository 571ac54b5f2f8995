/** The polling loop as a schedule: what the clock and the network card bring, and in which
    order the data plane acts on it. */
module Polling {
  import opened Defs
  import opened Mbufs
  import opened Router

  /** A received packet, the time at which it is handled, and the choices that come with it. */
  datatype Rx = Rx(frame: Frame, now: nat, rnd: nat, acc: seq<nat>)

  /** One round of the loop: the time read at its start, what the card would accept in a drain,
      and the burst that each receive queue delivers. */
  datatype Tick = Tick(cur: nat, acc: seq<nat>, bursts: seq<seq<Rx>>)

  /** What the data plane does, as seen from outside. */
  datatype Stamp = DrainAt(now: nat) | PurgeAt(now: nat) | PacketAt(frame: Frame, port: nat, now: nat)

  function StampOf(e: Event): seq<Stamp> {
    match e
    case Receive(_, frame, port, now, _, _, _) => [PacketAt(frame, port, now)]
    case Drain(now, _) => [DrainAt(now)]
    case Purge(now) => [PurgeAt(now)]
    case _ => []
  }

  function Trace(run: seq<Event>): seq<Stamp> {
    if run == [] then [] else Trace(run[..|run| - 1]) + StampOf(run[|run| - 1])
  }

  lemma TraceAppend(run: seq<Event>, e: Event)
    ensures Trace(run + [e]) == Trace(run) + StampOf(e)
  {
    assert (run + [e])[..|run|] == run;
  }

  /** The packets of a burst, in order. */
  function Packets(burst: seq<Rx>, port: nat): (ps: seq<Stamp>)
    ensures |ps| == |burst|
  {
    seq(|burst|, j requires 0 <= j < |burst| => PacketAt(burst[j].frame, port, burst[j].now))
  }

  /** The packets of the first n queues, queue by queue. */
  function Round(bursts: seq<seq<Rx>>, ports: seq<nat>, n: nat): seq<Stamp>
    requires n <= |bursts| == |ports|
  {
    if n == 0 then [] else Round(bursts, ports, n - 1) + Packets(bursts[n - 1], ports[n - 1])
  }

  /** What one round begins with. A drain purges the PIT too; a purge of its own comes only
      when the last one is too long ago. */
  function Upkeep(cur: nat, prevDrain: nat, prevPurge: nat, drainTsc: nat, purgeTsc: nat): seq<Stamp> {
    if cur - prevDrain > drainTsc then [DrainAt(cur)]
    else if cur - prevPurge > purgeTsc then [PurgeAt(cur)]
    else []
  }

  /** When the last drain of the first n rounds took place; time starts at 0. */
  function LastDrain(ticks: seq<Tick>, drainTsc: nat, n: nat): nat
    requires n <= |ticks|
  {
    if n == 0 then 0
    else
      var prev := LastDrain(ticks, drainTsc, n - 1);
      if ticks[n - 1].cur - prev > drainTsc then ticks[n - 1].cur else prev
  }

  /** When the PIT was last purged in the first n rounds, with or without a drain. */
  function LastPurge(ticks: seq<Tick>, drainTsc: nat, purgeTsc: nat, n: nat): nat
    requires n <= |ticks|
  {
    if n == 0 then 0
    else
      var cur, prev := ticks[n - 1].cur, LastPurge(ticks, drainTsc, purgeTsc, n - 1);
      if cur - LastDrain(ticks, drainTsc, n - 1) > drainTsc || cur - prev > purgeTsc then cur else prev
  }

  /** What the n-th round begins with. */
  function UpkeepAt(ticks: seq<Tick>, drainTsc: nat, purgeTsc: nat, n: nat): seq<Stamp>
    requires n < |ticks|
  {
    Upkeep(ticks[n].cur, LastDrain(ticks, drainTsc, n), LastPurge(ticks, drainTsc, purgeTsc, n), drainTsc, purgeTsc)
  }

  /** The first n rounds: upkeep, and then the packets. */
  function Schedule(ticks: seq<Tick>, ports: seq<nat>, drainTsc: nat, purgeTsc: nat, n: nat): seq<Stamp>
    requires n <= |ticks| && forall k :: 0 <= k < |ticks| ==> |ticks[k].bursts| == |ports|
  {
    if n == 0 then []
    else
      Schedule(ticks, ports, drainTsc, purgeTsc, n - 1)
      + (UpkeepAt(ticks, drainTsc, purgeTsc, n - 1) + Round(ticks[n - 1].bursts, ports, |ports|))
  }

  // ----- Where each packet is -----

  /** How many packets the first n bursts have. */
  function Before(bursts: seq<seq<Rx>>, n: nat): nat
    requires n <= |bursts|
  {
    if n == 0 then 0 else Before(bursts, n - 1) + |bursts[n - 1]|
  }

  /** A round consists of the packets of its bursts, each with the port of its own queue. */
  lemma {:induction false} RoundAt(bursts: seq<seq<Rx>>, ports: seq<nat>, n: nat, q: nat, j: nat)
    requires n <= |bursts| == |ports|
    ensures |Round(bursts, ports, n)| == Before(bursts, n)
    ensures q < n && j < |bursts[q]| ==>
              && Before(bursts, q) + j < Before(bursts, n)
              && Round(bursts, ports, n)[Before(bursts, q) + j]
                 == PacketAt(bursts[q][j].frame, ports[q], bursts[q][j].now)
  {
    if n > 0 {
      RoundAt(bursts, ports, n - 1, q, j);
    }
  }

  lemma {:induction false} EarlierSchedule(ticks: seq<Tick>, ports: seq<nat>, drainTsc: nat, purgeTsc: nat, n: nat,
                                           m: nat)
    requires n <= m <= |ticks| && forall k :: 0 <= k < |ticks| ==> |ticks[k].bursts| == |ports|
    ensures Schedule(ticks, ports, drainTsc, purgeTsc, n) <= Schedule(ticks, ports, drainTsc, purgeTsc, m)
    decreases m
  {
    hide Schedule;
    if n < m {
      EarlierSchedule(ticks, ports, drainTsc, purgeTsc, n, m - 1);
      OneRoundMore(ticks, ports, drainTsc, purgeTsc, m - 1);
    }
  }

  lemma OneRoundMore(ticks: seq<Tick>, ports: seq<nat>, drainTsc: nat, purgeTsc: nat, n: nat)
    requires n < |ticks| && forall k :: 0 <= k < |ticks| ==> |ticks[k].bursts| == |ports|
    ensures Schedule(ticks, ports, drainTsc, purgeTsc, n) <= Schedule(ticks, ports, drainTsc, purgeTsc, n + 1)
  {
    hide Round, UpkeepAt;
  }

  /** The schedule round by round: first a drain, when the last one is too long ago, or else a purge,
      when the last one of these is; and then the packets of the bursts, queue by queue. */
  lemma ScheduleAt(ticks: seq<Tick>, ports: seq<nat>, drainTsc: nat, purgeTsc: nat, n: nat, q: nat, j: nat)
    requires n < |ticks| && forall k :: 0 <= k < |ticks| ==> |ticks[k].bursts| == |ports|
    ensures var stamps, tick := Schedule(ticks, ports, drainTsc, purgeTsc, |ticks|), ticks[n];
            var start := |Schedule(ticks, ports, drainTsc, purgeTsc, n)|;
            var drains := tick.cur - LastDrain(ticks, drainTsc, n) > drainTsc;
            var purges := !drains && tick.cur - LastPurge(ticks, drainTsc, purgeTsc, n) > purgeTsc;
            var first := start + if drains || purges then 1 else 0;
            && |Schedule(ticks, ports, drainTsc, purgeTsc, n + 1)| == first + Before(tick.bursts, |ports|) <= |stamps|
            && (drains ==> start < |stamps| && stamps[start] == DrainAt(tick.cur))
            && (purges ==> start < |stamps| && stamps[start] == PurgeAt(tick.cur))
            && (q < |ports| && j < |tick.bursts[q]| ==>
                  var i, rx := first + Before(tick.bursts, q) + j, tick.bursts[q][j];
                  i < |stamps| && stamps[i] == PacketAt(rx.frame, ports[q], rx.now))
  {
    EarlierSchedule(ticks, ports, drainTsc, purgeTsc, n + 1, |ticks|);
    RoundAt(ticks[n].bursts, ports, |ports|, q, j);
    hide Round, LastDrain, LastPurge;
    var sofar, upkeep := Schedule(ticks, ports, drainTsc, purgeTsc, n), UpkeepAt(ticks, drainTsc, purgeTsc, n);
    var round := Round(ticks[n].bursts, ports, |ports|);
    assert Schedule(ticks, ports, drainTsc, purgeTsc, n + 1) == sofar + (upkeep + round);
  }

  lemma Assoc<T>(a: seq<T>, b: seq<T>, c: seq<T>)
    ensures (a + b) + c == a + (b + c)
  {
  }

  /** The PIT is never purged without a drain. */
  predicate NoLonePurge(stamps: seq<Stamp>) {
    forall k :: 0 <= k < |stamps| ==> !stamps[k].PurgeAt?
  }

  /** As long as purges are due no sooner than drains, the two go together. */
  lemma {:induction false} Together(ticks: seq<Tick>, drainTsc: nat, purgeTsc: nat, n: nat)
    requires n <= |ticks| && drainTsc <= purgeTsc
    ensures LastPurge(ticks, drainTsc, purgeTsc, n) == LastDrain(ticks, drainTsc, n)
  {
    if n > 0 {
      Together(ticks, drainTsc, purgeTsc, n - 1);
    }
  }

  lemma {:induction false} RoundIsPackets(bursts: seq<seq<Rx>>, ports: seq<nat>, n: nat)
    requires n <= |bursts| == |ports|
    ensures NoLonePurge(Round(bursts, ports, n))
  {
    if n > 0 {
      RoundIsPackets(bursts, ports, n - 1);
    }
  }

  lemma {:induction false} ScheduleTogether(ticks: seq<Tick>, ports: seq<nat>, drainTsc: nat, purgeTsc: nat, n: nat)
    requires n <= |ticks| && (forall k :: 0 <= k < |ticks| ==> |ticks[k].bursts| == |ports|) && drainTsc <= purgeTsc
    ensures NoLonePurge(Schedule(ticks, ports, drainTsc, purgeTsc, n))
  {
    if n > 0 {
      ScheduleTogether(ticks, ports, drainTsc, purgeTsc, n - 1);
      Together(ticks, drainTsc, purgeTsc, n - 1);
      RoundIsPackets(ticks[n - 1].bursts, ports, |ports|);
    }
  }

  /** An event that handles a packet received from a port. */
  predicate Handled(e: Event, rx: Rx, port: nat) {
    e.Receive? && e.frame == rx.frame && e.port == port && e.now == rx.now && e.acc == rx.acc
  }

  /** Events that handle the first packets of a burst, in order. */
  predicate HandledSoFar(es: seq<Event>, burst: seq<Rx>, port: nat) {
    |es| <= |burst| && forall i :: 0 <= i < |es| ==> Handled(es[i], burst[i], port)
  }

  lemma HandledNone(burst: seq<Rx>, port: nat)
    ensures HandledSoFar([], burst, port)
  {
  }

  lemma HandledAll(es: seq<Event>, burst: seq<Rx>, port: nat)
    requires HandledSoFar(es, burst, port)
    ensures forall i :: 0 <= i < |es| ==>
              && es[i].Receive? && es[i].frame == burst[i].frame && es[i].port == port
              && es[i].now == burst[i].now && es[i].acc == burst[i].acc
  {
  }

  lemma HandledNext(es: seq<Event>, burst: seq<Rx>, port: nat, e: Event)
    requires HandledSoFar(es, burst, port) && |es| < |burst| && Handled(e, burst[|es|], port)
    ensures HandledSoFar(es + [e], burst, port)
  {
  }

  /** The j-th packet of the q-th burst of a round is handled in its turn. */
  predicate InItsTurn(es: seq<Event>, bursts: seq<seq<Rx>>, ports: seq<nat>, q: nat, j: nat)
    requires q < |bursts| == |ports| && j < |bursts[q]|
  {
    Before(bursts, q) + j < |es| && Handled(es[Before(bursts, q) + j], bursts[q][j], ports[q])
  }

  /** Events that handle the packets of the first n bursts of a round, queue by queue. */
  predicate RoundHandled(es: seq<Event>, bursts: seq<seq<Rx>>, ports: seq<nat>, n: nat)
    requires n <= |bursts| == |ports|
  {
    && |es| == Before(bursts, n)
    && forall q, j | 0 <= q < n && 0 <= j < |bursts[q]| :: InItsTurn(es, bursts, ports, q, j)
  }

  lemma RoundHandledNone(bursts: seq<seq<Rx>>, ports: seq<nat>)
    requires |bursts| == |ports|
    ensures RoundHandled([], bursts, ports, 0)
  {
  }

  lemma RoundHandledNext(es: seq<Event>, bursts: seq<seq<Rx>>, ports: seq<nat>, n: nat, more: seq<Event>)
    requires n < |bursts| == |ports| && RoundHandled(es, bursts, ports, n)
    requires |more| == |bursts[n]| && HandledSoFar(more, bursts[n], ports[n])
    ensures RoundHandled(es + more, bursts, ports, n + 1)
  {
    var es' := es + more;
    forall q, j | 0 <= q < n + 1 && 0 <= j < |bursts[q]|
      ensures InItsTurn(es', bursts, ports, q, j)
    {
      if q < n {
        assert InItsTurn(es, bursts, ports, q, j);
        assert es'[Before(bursts, q) + j] == es[Before(bursts, q) + j];
      } else {
        assert es'[Before(bursts, q) + j] == more[j];
      }
    }
  }

  // ----- What the loop may expect of its inputs -----

  predicate Fine(rx: Rx) {
    Transmit.AccOk(rx.acc) && WellFormed(rx.frame)
  }

  /** The packets of a burst are handled from time t on, without going back. */
  predicate BurstOk(burst: seq<Rx>, t: nat) {
    && (forall j :: 0 <= j < |burst| ==> t <= burst[j].now && Fine(burst[j]))
    && (forall i, j :: 0 <= i < j < |burst| ==> burst[i].now <= burst[j].now)
  }

  /** The time when the first n bursts have been handled. */
  function After(bursts: seq<seq<Rx>>, t: nat, n: nat): nat
    requires n <= |bursts|
  {
    if n == 0 then t else EndOf(bursts[n - 1], After(bursts, t, n - 1))
  }

  function EndOf(burst: seq<Rx>, t: nat): nat {
    if burst == [] then t else burst[|burst| - 1].now
  }

  /** The burst of the n-th queue is handled when those before it have been. */
  predicate InTurn(tick: Tick, n: nat) {
    n < |tick.bursts| && BurstOk(tick.bursts[n], After(tick.bursts, tick.cur, n))
  }

  predicate TickOk(tick: Tick, ports: seq<nat>) {
    && |tick.acc| == APP_MAX_ETH_PORTS && |tick.bursts| == |ports|
    && forall n :: 0 <= n < |ports| ==> InTurn(tick, n)
  }

  predicate InputOk(ticks: seq<Tick>, ports: seq<nat>, t: nat) {
    && (forall n :: 0 <= n < |ports| ==> ports[n] < APP_MAX_ETH_PORTS)
    && (forall k :: 0 <= k < |ticks| ==> TickOk(ticks[k], ports))
    && (ticks != [] ==> t <= ticks[0].cur)
    && (forall k :: 0 < k < |ticks| ==> After(ticks[k - 1].bursts, ticks[k - 1].cur, |ports|) <= ticks[k].cur)
  }

  /** A round takes no negative time. */
  lemma {:induction false} RoundTakesTime(tick: Tick, ports: seq<nat>, n: nat)
    requires TickOk(tick, ports) && n <= |ports|
    ensures tick.cur <= After(tick.bursts, tick.cur, n)
  {
    if n > 0 {
      RoundTakesTime(tick, ports, n - 1);
      assert InTurn(tick, n - 1);
    }
  }

  /** One round, at a time when a purge is due and a drain is not. */
  function TooEarly(purgeTsc: nat): Tick {
    Tick(purgeTsc + 1, seq(APP_MAX_ETH_PORTS, _ => 0), [[]])
  }

  /** The second purge of the loop never takes place, whatever the clock and the network card
      bring, if and only if the purge interval is not below the drain interval. */
  lemma LonePurgeIff(drainTsc: nat, purgeTsc: nat)
    ensures drainTsc <= purgeTsc <==>
            forall ticks, ports | InputOk(ticks, ports, 0) ::
              NoLonePurge(Schedule(ticks, ports, drainTsc, purgeTsc, |ticks|))
  {
    if drainTsc <= purgeTsc {
      forall ticks, ports | InputOk(ticks, ports, 0)
        ensures NoLonePurge(Schedule(ticks, ports, drainTsc, purgeTsc, |ticks|))
      {
        ScheduleTogether(ticks, ports, drainTsc, purgeTsc, |ticks|);
      }
    } else {
      var ticks, ports := [TooEarly(purgeTsc)], [0];
      var stamps := Schedule(ticks, ports, drainTsc, purgeTsc, 1);
      assert InTurn(ticks[0], 0);
      assert InputOk(ticks, ports, 0);
      assert Schedule(ticks, ports, drainTsc, purgeTsc, 0) == [];
      assert stamps[0] == PurgeAt(purgeTsc + 1);
    }
  }
}
