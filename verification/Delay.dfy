/** How long packets and expired entries can wait: a bound for every round of the polling loop. */
module Delay {
  import opened Defs
  import opened Mbufs
  import opened Transmit
  import opened Polling
  import opened Router
  import opened Runs
  import Delivery
  import Ledger
  import Cs = CsSpec
  import Pit = PitSpec

  // ----- When transmit buffers were last drained, and the PIT purged -----

  /** The time of the last drain; time starts at 0. */
  function DrainOf(stamps: seq<Stamp>): nat {
    if stamps == [] then 0
    else
      match stamps[|stamps| - 1]
      case DrainAt(now) => now
      case _ => DrainOf(stamps[..|stamps| - 1])
  }

  /** The time of the last purge, by a drain or on its own. */
  function PurgeOf(stamps: seq<Stamp>): nat {
    if stamps == [] then 0
    else
      match stamps[|stamps| - 1]
      case DrainAt(now) => now
      case PurgeAt(now) => now
      case PacketAt(_, _, _) => PurgeOf(stamps[..|stamps| - 1])
  }

  predicate OnlyPackets(stamps: seq<Stamp>) {
    forall k :: 0 <= k < |stamps| ==> stamps[k].PacketAt?
  }

  lemma {:induction false} PacketsChangeNothing(before: seq<Stamp>, packets: seq<Stamp>)
    requires OnlyPackets(packets)
    ensures DrainOf(before + packets) == DrainOf(before) && PurgeOf(before + packets) == PurgeOf(before)
  {
    if packets == [] {
      assert before + packets == before;
    } else {
      var n := |packets| - 1;
      assert (before + packets)[..|before + packets| - 1] == before + packets[..n];
      PacketsChangeNothing(before, packets[..n]);
    }
  }

  lemma {:induction false} RoundOnlyPackets(bursts: seq<seq<Rx>>, ports: seq<nat>, n: nat)
    requires n <= |bursts| == |ports|
    ensures OnlyPackets(Round(bursts, ports, n))
  {
    if n > 0 {
      RoundOnlyPackets(bursts, ports, n - 1);
    }
  }

  /** What has been done when the upkeep of a round is over. */
  function UpTo(before: seq<Stamp>, ticks: seq<Tick>, ports: seq<nat>, drainTsc: nat, purgeTsc: nat, n: nat): seq<Stamp>
    requires n < |ticks| && forall k :: 0 <= k < |ticks| ==> |ticks[k].bursts| == |ports|
  {
    before + Schedule(ticks, ports, drainTsc, purgeTsc, n) + UpkeepAt(ticks, drainTsc, purgeTsc, n)
  }

  /** The schedule knows when drains and purges took place. */
  lemma {:induction false} ScheduleTimes(before: seq<Stamp>, ticks: seq<Tick>, ports: seq<nat>, drainTsc: nat,
                                         purgeTsc: nat, n: nat)
    requires n <= |ticks| && forall k :: 0 <= k < |ticks| ==> |ticks[k].bursts| == |ports|
    ensures var stamps := before + Schedule(ticks, ports, drainTsc, purgeTsc, n);
            && LastDrain(ticks, drainTsc, n) <= DrainOf(stamps)
            && LastDrain(ticks, drainTsc, n) <= LastPurge(ticks, drainTsc, purgeTsc, n) <= PurgeOf(stamps)
    decreases n, 0
  {
    hide DrainOf, PurgeOf, Round, UpTo, OnlyPackets;
    if n > 0 {
      UpkeepTimes(before, ticks, ports, drainTsc, purgeTsc, n - 1);
      RoundOnlyPackets(ticks[n - 1].bursts, ports, |ports|);
      PacketsChangeNothing(UpTo(before, ticks, ports, drainTsc, purgeTsc, n - 1),
                           Round(ticks[n - 1].bursts, ports, |ports|));
      RoundEnds(before, ticks, ports, drainTsc, purgeTsc, n - 1);
    }
  }

  lemma RoundEnds(before: seq<Stamp>, ticks: seq<Tick>, ports: seq<nat>, drainTsc: nat, purgeTsc: nat, n: nat)
    requires n < |ticks| && forall k :: 0 <= k < |ticks| ==> |ticks[k].bursts| == |ports|
    ensures before + Schedule(ticks, ports, drainTsc, purgeTsc, n + 1)
         == UpTo(before, ticks, ports, drainTsc, purgeTsc, n) + Round(ticks[n].bursts, ports, |ports|)
  {
    hide Round, UpkeepAt;
  }

  /** After the upkeep of a round the last drain is at most the drain interval ago, and the last
      purge no longer ago than the shorter of the two intervals. */
  lemma {:induction false} UpkeepTimes(before: seq<Stamp>, ticks: seq<Tick>, ports: seq<nat>, drainTsc: nat,
                                       purgeTsc: nat, n: nat)
    requires n < |ticks| && forall k :: 0 <= k < |ticks| ==> |ticks[k].bursts| == |ports|
    ensures var stamps := UpTo(before, ticks, ports, drainTsc, purgeTsc, n);
            && LastDrain(ticks, drainTsc, n + 1) <= DrainOf(stamps)
            && LastDrain(ticks, drainTsc, n + 1) <= LastPurge(ticks, drainTsc, purgeTsc, n + 1) <= PurgeOf(stamps)
            && ticks[n].cur <= DrainOf(stamps) + drainTsc
            && ticks[n].cur <= PurgeOf(stamps) + purgeTsc && ticks[n].cur <= PurgeOf(stamps) + drainTsc
    decreases n, 1
  {
    ScheduleTimes(before, ticks, ports, drainTsc, purgeTsc, n);
    var sofar, upkeep := before + Schedule(ticks, ports, drainTsc, purgeTsc, n), UpkeepAt(ticks, drainTsc, purgeTsc, n);
    if upkeep == [] {
      assert sofar + upkeep == sofar;
    } else {
      assert (sofar + upkeep)[..|sofar|] == sofar;
    }
  }

  // ----- Packets in the transmit buffers -----

  function Times(n: int, now: nat): seq<nat> {
    if n <= 0 then [] else seq(n, _ => now)
  }

  /** The time now, once for each packet that a step has queued for a port. */
  function Added(t: Tx, t': Tx, p: nat, now: nat): seq<nat> {
    Times(|Delivery.Queued(t'.out, p)| - |Delivery.Queued(t.out, p)|, now)
  }

  /** When each of the packets queued for a port was queued. */
  ghost function QueuedAt(c: Config, run: seq<Event>, p: nat): seq<nat>
    requires ConfigOk(c) && ValidRun(c, run)
  {
    if run == [] then []
    else
      var prev := run[..|run| - 1];
      QueuedAt(c, prev, p) + Added(Exec(c, prev).tx, Exec(c, run).tx, p, Exec(c, run).clock)
  }

  lemma TxAfterQueues(t: Tx, m: Mbuf, port: nat, fate: Fate, acc: seq<nat>)
    requires port < APP_MAX_ETH_PORTS == |t.ports| && AccOk(acc) && (fate.Forwarded? ==> fate.face < APP_MAX_ETH_PORTS)
    ensures Delivery.OnlyQueued(t, TxAfter(t, m, port, fate, acc))
  {
    hide SendSingle, Delivery.Queued;
    match fate
    case Hit(data) => Delivery.SingleQueues(Retain(t, data), data, port, acc[port]);
    case Forwarded(face) => Delivery.SingleQueues(t, m, face, acc[face]);
    case _ =>
  }

  lemma StepQueues(c: Config, s: State, e: Event)
    requires Sane(c, s) && Enabled(s, e)
    ensures Delivery.OnlyQueued(s.tx, Step(c, s, e).tx)
    ensures e.Drain? ==> forall p :: 0 <= p < APP_MAX_ETH_PORTS ==> Step(c, s, e).tx.ports[p].buf == []
  {
    hide Drained, Delivery.Queued, TxAfter, Copies;
    match e
    case Receive(m, frame, port, now, hit, at, acc) =>
      var s0 := Arrive(s, m, frame, now);
      match Classify(frame) {
        case Interest(name, offsets) =>
          StepIsInterest(c, s, e, name, offsets);
          TxAfterQueues(s0.tx, m, port, FateOf(c, s, e, name, offsets), acc);
        case Data(name) =>
          StepIsData(c, s, e, name);
          var stored := Cs.Insert(c.cs, s.cs, Cs.Item(name, m)).1;
          Delivery.CopiesQueue(TxStored(c.cs, s.cs, s0.tx, m, stored), m, Pit.Remove(s.pit, name).1, APP_MAX_ETH_PORTS,
                               acc);
        case Malformed => StepIsMalformed(c, s, e);
      }
    case Drain(_, acc) => DrainedEffect(s.tx, APP_MAX_ETH_PORTS, acc);
    case _ =>
  }

  lemma StepClock(c: Config, s: State, e: Event)
    requires Sane(c, s) && Enabled(s, e)
    ensures s.clock <= Step(c, s, e).clock
    ensures e.Receive? || e.Drain? || e.Purge? ==> Step(c, s, e).clock == e.now
  {
    Ledger.StepPit(c, s, e);
  }

  /** The last ones of a list of times lie between two instants. */
  predicate Between(at: seq<nat>, waiting: nat, from: nat, to: nat) {
    waiting <= |at| && from <= to && forall i :: |at| - waiting <= i < |at| ==> from <= at[i] <= to
  }

  lemma BetweenMore(at: seq<nat>, waiting: nat, from: nat, to: nat, added: nat, waiting': nat, to': nat)
    requires Between(at, waiting, from, to) && waiting' <= waiting + added && to <= to'
    ensures Between(at + Times(added, to'), waiting', from, to')
  {
    var at' := at + Times(added, to');
    forall i | |at'| - waiting' <= i < |at'| ensures from <= at'[i] <= to' {
      if i < |at| {
        assert at'[i] == at[i];
      }
    }
  }

  lemma TraceNext(run: seq<Event>, e: Event)
    ensures DrainOf(Trace(run + [e])) == if e.Drain? then e.now else DrainOf(Trace(run))
    ensures PurgeOf(Trace(run + [e])) == if e.Drain? || e.Purge? then e.now else PurgeOf(Trace(run))
  {
    TraceAppend(run, e);
    if StampOf(e) == [] {
      assert Trace(run) + StampOf(e) == Trace(run);
    } else {
      assert (Trace(run) + StampOf(e))[..|Trace(run)|] == Trace(run);
    }
  }

  /** In every run, every packet in a transmit buffer was queued since the last drain. The packets
      waiting are the last ones queued for the port, as Runs.RunDelivers has it. */
  lemma {:induction false} WaitsSinceDrain(c: Config, run: seq<Event>, p: nat)
    requires ConfigOk(c) && ValidRun(c, run) && p < APP_MAX_ETH_PORTS
    ensures var s := Exec(c, run);
            && |QueuedAt(c, run, p)| == |Delivery.Queued(s.tx.out, p)|
            && Between(QueuedAt(c, run, p), |s.tx.ports[p].buf|, DrainOf(Trace(run)), s.clock)
  {
    if run == [] {
      NoneWaiting(c, p);
    } else {
      hide Exec, ValidRun, Step, Sane, Enabled, Delivery.Queued, Trace, DrainOf, PurgeOf, QueuedAt;
      var prev, e := run[..|run| - 1], run[|run| - 1];
      Unroll(c, run);
      WaitsSinceDrain(c, prev, p);
      QueuedNext(c, run, p);
      TraceNext(prev, e);
      StepQueues(c, Exec(c, prev), e);
      StepClock(c, Exec(c, prev), e);
      WaitsOn(Exec(c, prev).tx, Exec(c, run).tx, p, QueuedAt(c, prev, p), DrainOf(Trace(prev)), Exec(c, prev).clock,
              Exec(c, run).clock);
    }
  }

  lemma NoneWaiting(c: Config, p: nat)
    requires ConfigOk(c) && p < APP_MAX_ETH_PORTS
    ensures ValidRun(c, []) && QueuedAt(c, [], p) == [] && Delivery.Queued(Exec(c, []).tx.out, p) == []
    ensures Exec(c, []).tx.ports[p].buf == [] && DrainOf(Trace([])) == 0
  {
    Start(c);
  }

  lemma QueuedNext(c: Config, run: seq<Event>, p: nat)
    requires ConfigOk(c) && ValidRun(c, run) && run != []
    ensures var prev := run[..|run| - 1];
            QueuedAt(c, run, p)
            == QueuedAt(c, prev, p) + Added(Exec(c, prev).tx, Exec(c, run).tx, p, Exec(c, run).clock)
  {
    hide Exec, Delivery.Queued;
  }

  lemma WaitsOn(t: Tx, t': Tx, p: nat, at: seq<nat>, from: nat, to: nat, to': nat)
    requires Delivery.OnlyQueued(t, t') && p < |t.ports| && |at| == |Delivery.Queued(t.out, p)| && to <= to'
    requires Between(at, |t.ports[p].buf|, from, to)
    ensures var at' := at + Added(t, t', p, to');
            |at'| == |Delivery.Queued(t'.out, p)| && Between(at', |t'.ports[p].buf|, from, to')
  {
    hide Delivery.Queued;
    var added := |Delivery.Queued(t'.out, p)| - |Delivery.Queued(t.out, p)|;
    BetweenMore(at, |t.ports[p].buf|, from, to, added, |t'.ports[p].buf|, to');
  }

  // ----- Expired entries in the PIT -----

  /** A step leaves an entry its expiry, or makes a new one that lasts a TTL. */
  lemma StepExpiry(c: Config, s: State, e: Event, n: Name)
    requires Sane(c, s) && Enabled(s, e) && n in Pit.View(Step(c, s, e).pit)
    ensures var expiry := Pit.View(Step(c, s, e).pit)[n].expiry;
            || (n in Pit.View(s.pit) && Pit.View(s.pit)[n].expiry == expiry)
            || (e.Receive? && expiry == e.now + c.ttl)
  {
    hide PitAfter, Pit.View, Pit.Purge, Pit.Remove, Pit.Update, Step;
    Ledger.StepPit(c, s, e);
    match e
    case Receive(m, frame, port, now, hit, at, acc) =>
      match Classify(frame) {
        case Interest(name, offsets) =>
          StepIsInterest(c, s, e, name, offsets);
          Ledger.FateFits(c, s, e, name, offsets);
          Ledger.PitAfterView(c.pit, s.pit, name, port, now + c.ttl, FateOf(c, s, e, name, offsets));
        case Data(name) => Pit.RemoveView(c.pit, s.pit, name);
        case Malformed =>
      }
    case Drain(now, _) => PurgeShrinks(c.pit, s.pit, now, n);
    case Purge(now) => PurgeShrinks(c.pit, s.pit, now, n);
    case _ =>
  }

  lemma PurgeShrinks(d: Pit.Dim, log: Pit.Log, now: nat, n: Name)
    requires Pit.Valid(d, log) && n in Pit.View(Pit.Purge(log, now))
    ensures n in Pit.View(log) && Pit.View(log)[n] == Pit.View(Pit.Purge(log, now))[n]
  {
    var log' := Pit.Purge(log, now);
    Pit.PurgeIsDrop(log, now);
    Pit.PurgeValid(d, log, now);
    Pit.ViewAt(log', n);
    Pit.ViewAt(log, n);
    var j := Pit.Find(log', n);
    Pit.FindUnique(log, |log| - |log'| + j, n);
  }

  /** In every run, what had expired at the last purge is no longer pending. */
  lemma {:induction false} ExpiresAfterPurge(c: Config, run: seq<Event>, n: Name)
    requires ConfigOk(c) && ValidRun(c, run) && n in Pit.View(Exec(c, run).pit)
    ensures Pit.View(Exec(c, run).pit)[n].expiry >= PurgeOf(Trace(run))
    ensures c.ttl > 0 ==> Pit.View(Exec(c, run).pit)[n].expiry > PurgeOf(Trace(run))
  {
    if run != [] {
      hide Exec, ValidRun, Step, Sane, Enabled, Pit.View, Trace, PurgeOf, DrainOf;
      var prev, e := run[..|run| - 1], run[|run| - 1];
      Unroll(c, run);
      TraceNext(prev, e);
      StepClock(c, Exec(c, prev), e);
      PurgeBefore(c, prev);
      if e.Drain? || e.Purge? {
        Ledger.AfterPurge(c, prev, e);
      } else {
        StepExpiry(c, Exec(c, prev), e, n);
        if n in Pit.View(Exec(c, prev).pit) {
          ExpiresAfterPurge(c, prev, n);
        }
      }
    }
  }

  lemma {:induction false} PurgeBefore(c: Config, run: seq<Event>)
    requires ConfigOk(c) && ValidRun(c, run)
    ensures PurgeOf(Trace(run)) <= Exec(c, run).clock
  {
    if run != [] {
      hide Exec, ValidRun, Step, Sane, Enabled, Trace, PurgeOf, DrainOf;
      var prev, e := run[..|run| - 1], run[|run| - 1];
      Unroll(c, run);
      PurgeBefore(c, prev);
      TraceNext(prev, e);
      StepClock(c, Exec(c, prev), e);
    }
  }

  // ----- Every round of the loop -----

  /** The i-th packet queued for a port is one of the last ones, which still wait. */
  ghost predicate Waiting(c: Config, run: seq<Event>, p: nat, i: int)
    requires ConfigOk(c) && ValidRun(c, run) && p < APP_MAX_ETH_PORTS
  {
    && 0 <= i < |QueuedAt(c, run, p)|
    && |QueuedAt(c, run, p)| - |Exec(c, run).tx.ports[p].buf| <= i
  }

  /** No packet has waited for transmission for longer than the drain interval, and no entry that
      expired longer ago than the shorter of the two intervals is still pending, to aggregate
      Interests. */
  ghost predicate Prompt(c: Config, run: seq<Event>, cur: nat, drainTsc: nat, purgeTsc: nat)
    requires ConfigOk(c) && ValidRun(c, run)
  {
    var s := Exec(c, run);
    && (forall p, i | 0 <= p < APP_MAX_ETH_PORTS && Waiting(c, run, p, i) ::
          cur <= QueuedAt(c, run, p)[i] + drainTsc)
    && (forall n :: n in Pit.View(s.pit) ==>
          cur <= Pit.View(s.pit)[n].expiry + drainTsc && cur <= Pit.View(s.pit)[n].expiry + purgeTsc)
  }

  lemma UpkeepPrompt(c: Config, run: seq<Event>, before: seq<Stamp>, ticks: seq<Tick>, ports: seq<nat>, drainTsc: nat,
                     purgeTsc: nat, n: nat)
    requires ConfigOk(c) && ValidRun(c, run)
    requires n < |ticks| && forall k :: 0 <= k < |ticks| ==> |ticks[k].bursts| == |ports|
    requires Trace(run) == UpTo(before, ticks, ports, drainTsc, purgeTsc, n)
    ensures Prompt(c, run, ticks[n].cur, drainTsc, purgeTsc)
  {
    hide UpTo, Trace, DrainOf, PurgeOf, QueuedAt, Pit.View, Exec, ValidRun;
    UpkeepTimes(before, ticks, ports, drainTsc, purgeTsc, n);
    var s := Exec(c, run);
    forall p, i | 0 <= p < APP_MAX_ETH_PORTS && Waiting(c, run, p, i)
      ensures ticks[n].cur <= QueuedAt(c, run, p)[i] + drainTsc
    {
      WaitsSinceDrain(c, run, p);
    }
    forall name | name in Pit.View(s.pit)
      ensures ticks[n].cur <= Pit.View(s.pit)[name].expiry + drainTsc
      ensures ticks[n].cur <= Pit.View(s.pit)[name].expiry + purgeTsc
    {
      ExpiresAfterPurge(c, run, name);
    }
  }

  /** Every beginning of a trace is the trace of some beginning of the run. */
  lemma {:induction false} Beginning(c: Config, run: seq<Event>, m: nat) returns (j: nat)
    requires ConfigOk(c) && ValidRun(c, run) && m <= |Trace(run)|
    ensures j <= |run| && ValidRun(c, run[..j]) && Trace(run[..j]) == Trace(run)[..m]
  {
    hide Exec, ValidRun;
    if run == [] || m == |Trace(run)| {
      j := |run|;
      assert run[..j] == run && Trace(run)[..m] == Trace(run);
    } else {
      var prev := run[..|run| - 1];
      Unroll(c, run);
      j := Beginning(c, prev, m);
      assert prev[..j] == run[..j];
      assert Trace(run)[..m] == Trace(prev)[..m];
    }
  }

  lemma {:induction false} EarlierRounds(before: seq<Stamp>, ticks: seq<Tick>, ports: seq<nat>, drainTsc: nat,
                                         purgeTsc: nat, n: nat, m: nat)
    requires n < m <= |ticks| && forall k :: 0 <= k < |ticks| ==> |ticks[k].bursts| == |ports|
    ensures UpTo(before, ticks, ports, drainTsc, purgeTsc, n)
         <= before + Schedule(ticks, ports, drainTsc, purgeTsc, m)
  {
    hide UpkeepAt, Round;
    var rounds := Schedule(ticks, ports, drainTsc, purgeTsc, m - 1);
    var round := UpkeepAt(ticks, drainTsc, purgeTsc, m - 1) + Round(ticks[m - 1].bursts, ports, |ports|);
    assert before + Schedule(ticks, ports, drainTsc, purgeTsc, m) == before + rounds + round;
    if n < m - 1 {
      EarlierRounds(before, ticks, ports, drainTsc, purgeTsc, n, m - 1);
    } else {
      RoundEnds(before, ticks, ports, drainTsc, purgeTsc, n);
    }
  }

  /** A run passes through a state in which the upkeep of the n-th round is done and nothing has
      waited for too long. */
  ghost predicate RoundPrompt(c: Config, run: seq<Event>, before: seq<Stamp>, ticks: seq<Tick>, ports: seq<nat>,
                              drainTsc: nat, purgeTsc: nat, n: nat)
    requires ConfigOk(c) && n < |ticks| && forall k :: 0 <= k < |ticks| ==> |ticks[k].bursts| == |ports|
  {
    exists j :: 0 <= j <= |run| && ValidRun(c, run[..j])
             && Trace(run[..j]) == UpTo(before, ticks, ports, drainTsc, purgeTsc, n)
             && Prompt(c, run[..j], ticks[n].cur, drainTsc, purgeTsc)
  }

  /** The batching delay is bounded, and so is the life of expired entries, in every round of every
      run that follows the schedule of the polling loop. */
  lemma EveryRoundPrompt(c: Config, run: seq<Event>, before: seq<Stamp>, ticks: seq<Tick>, ports: seq<nat>,
                         drainTsc: nat, purgeTsc: nat, n: nat)
    requires ConfigOk(c) && ValidRun(c, run)
    requires n < |ticks| && forall k :: 0 <= k < |ticks| ==> |ticks[k].bursts| == |ports|
    requires Trace(run) == before + Schedule(ticks, ports, drainTsc, purgeTsc, |ticks|)
    ensures RoundPrompt(c, run, before, ticks, ports, drainTsc, purgeTsc, n)
  {
    hide Trace, UpTo, Prompt, Schedule, ValidRun;
    EarlierRounds(before, ticks, ports, drainTsc, purgeTsc, n, |ticks|);
    var j := Beginning(c, run, |UpTo(before, ticks, ports, drainTsc, purgeTsc, n)|);
    UpkeepPrompt(c, run[..j], before, ticks, ports, drainTsc, purgeTsc, n);
  }
}
