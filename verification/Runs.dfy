/** Runs of the data plane from its initial state, and what every reachable state satisfies. */
module Runs {
  import opened Defs
  import opened Mbufs
  import opened Transmit
  import opened Router
  import Delivery
  import Refcounts
  import Pit = PitSpec
  import Cs = CsSpec
  import Fib = FibSpec

  // ----- Steps keep the state sane -----

  lemma PitAfterValid(d: Pit.Dim, log: Pit.Log, name: Name, port: nat, expiry: nat, fate: Fate)
    requires Pit.Valid(d, log)
    ensures Pit.Valid(d, PitAfter(d, log, name, port, expiry, fate))
  {
    Pit.UpdateValid(d, log, name, port, expiry);
    Pit.RemoveView(d, Pit.Update(d, log, name, port, expiry).0, name);
  }

  /** What an Interest adds to the transmit history. */
  function Replies(t: Tx, m: Mbuf, port: nat, fate: Fate): seq<Out> {
    match fate
    case Hit(data) => [Out(port, Pkt(data, FrameOf(t.mem.frames, data)))]
    case Forwarded(face) => [Out(face, Pkt(m, FrameOf(t.mem.frames, m)))]
    case _ => []
  }

  lemma TxAfterEffect(t: Tx, m: Mbuf, port: nat, fate: Fate, acc: seq<nat>)
    requires port < APP_MAX_ETH_PORTS && NoneFull(t.ports) && AccOk(acc)
    requires fate.Forwarded? ==> fate.face < APP_MAX_ETH_PORTS
    ensures var t' := TxAfter(t, m, port, fate, acc);
            && NoneFull(t'.ports) && t'.mem.frames == t.mem.frames && t'.lost == t.lost
            && t'.out == t.out + Replies(t, m, port, fate)
  {
    match fate
    case Hit(data) => SingleEffect(Retain(t, data), data, port, acc[port]);
    case Forwarded(face) => SingleEffect(t, m, face, acc[face]);
    case _ =>
  }

  lemma InterestSane(c: Config, s: State, e: Event, name: Name, offsets: seq<nat>, fate: Fate)
    requires e.Receive? && Sane(c, s) && AccOk(e.acc) && e.port < APP_MAX_ETH_PORTS
    requires fate.Forwarded? ==> fate.face < APP_MAX_ETH_PORTS
    ensures Sane(c, OnInterest(c, s, e, name, offsets, fate))
  {
    hide PitAfter, TxAfter, StatsAfter, Cs.Valid, Fib.Valid, FacesOk;
    PitAfterValid(c.pit, s.pit, name, e.port, e.now + c.ttl, fate);
    TxAfterEffect(s.tx, e.m, e.port, fate, e.acc);
  }

  lemma DataSane(c: Config, s: State, m: Mbuf, name: Name, acc: seq<nat>)
    requires Sane(c, s) && AccOk(acc)
    ensures Sane(c, OnData(c, s, m, name, acc))
  {
    hide Copies, Pit.Remove;
    var (q, stored) := Cs.Insert(c.cs, s.cs, Cs.Item(name, m));
    var (log, faces) := Pit.Remove(s.pit, name);
    Pit.RemoveView(c.pit, s.pit, name);
    CopiesEffect(TxStored(c.cs, s.cs, s.tx, m, stored), m, faces, APP_MAX_ETH_PORTS, acc);
  }

  lemma StepSane(c: Config, s: State, e: Event)
    requires Sane(c, s) && Enabled(s, e)
    ensures Sane(c, Step(c, s, e))
  {
    match e
    case Receive(m, frame, port, now, hit, at, acc) =>
      var s0 := Arrive(s, m, frame, now);
      match Classify(frame) {
        case Interest(name, offsets) =>
          ForwardedToPort(c, s0, e, name, offsets);
          InterestSane(c, s0, e, name, offsets, FateOf(c, s0, e, name, offsets));
        case Data(name) => DataSane(c, s0, m, name, acc);
        case Malformed =>
      }
    case Drain(now, acc) =>
      DrainedEffect(s.tx, APP_MAX_ETH_PORTS, acc);
      Pit.PurgeValid(c.pit, s.pit, now);
    case Purge(now) => Pit.PurgeValid(c.pit, s.pit, now);
    case AddRoute(_, _) =>
    case DelRoute(_, _, _) =>
    case Transmitted(_) =>
  }

  /** A received Interest meets its fate. */
  lemma StepIsInterest(c: Config, s: State, e: Event, n: Name, offsets: seq<nat>)
    requires Sane(c, s) && Enabled(s, e) && e.Receive? && Classify(e.frame) == Interest(n, offsets)
    ensures Fib.Inside(n, offsets) && (Cs.Holds(s.cs, n) ==> e.hit < |s.cs|)
    ensures var fate := FateOf(c, s, e, n, offsets);
            && (fate.Forwarded? ==> fate.face < APP_MAX_ETH_PORTS)
            && Step(c, s, e) == OnInterest(c, Arrive(s, e.m, e.frame, e.now), e, n, offsets, fate)
  {
    ForwardedToPort(c, s, e, n, offsets);
  }

  /** Received Data goes to the store and to those that wait for it. */
  lemma StepIsData(c: Config, s: State, e: Event, n: Name)
    requires Sane(c, s) && Enabled(s, e) && e.Receive? && Classify(e.frame) == Data(n)
    ensures Step(c, s, e) == OnData(c, Arrive(s, e.m, e.frame, e.now), e.m, n, e.acc)
  {
    hide OnData, Choices, WellFormed;
  }

  lemma StepIsMalformed(c: Config, s: State, e: Event)
    requires Sane(c, s) && Enabled(s, e) && e.Receive? && Classify(e.frame) == Malformed
    ensures Step(c, s, e) == OnMalformed(Arrive(s, e.m, e.frame, e.now), e.m)
  {
    hide Choices, WellFormed;
  }

  lemma ArriveSane(c: Config, s: State, m: Mbuf, frame: Frame, now: nat)
    requires Sane(c, s)
    ensures Sane(c, Arrive(s, m, frame, now))
  {
  }

  // ----- Runs -----

  lemma InitSane(c: Config)
    requires ConfigOk(c)
    ensures Sane(c, Router.Init())
    ensures Refcounts.Owned(Router.Init().cs, Router.Init().tx, multiset{})
  {
    Refcounts.NothingHeld(APP_MAX_ETH_PORTS);
  }

  ghost predicate ValidRun(c: Config, run: seq<Event>)
    requires ConfigOk(c)
    decreases |run|, 0
  {
    run != [] ==> ValidRun(c, run[..|run| - 1]) && Enabled(Exec(c, run[..|run| - 1]), run[|run| - 1])
  }

  /** The state after a run. */
  ghost function Exec(c: Config, run: seq<Event>): (s: State)
    requires ConfigOk(c) && ValidRun(c, run)
    ensures Sane(c, s)
    decreases |run|, 1
  {
    if run == [] then Router.Init()
    else
      var s := Exec(c, run[..|run| - 1]);
      StepSane(c, s, run[|run| - 1]);
      Step(c, s, run[|run| - 1])
  }

  lemma Start(c: Config)
    requires ConfigOk(c)
    ensures ValidRun(c, []) && Exec(c, []) == Router.Init()
  {
  }

  /** One more step. */
  lemma Extend(c: Config, run: seq<Event>, e: Event)
    requires ConfigOk(c) && ValidRun(c, run) && Enabled(Exec(c, run), e)
    ensures ValidRun(c, run + [e]) && Exec(c, run + [e]) == Step(c, Exec(c, run), e)
  {
    assert (run + [e])[..|run|] == run;
  }

  /** The last step of a run. */
  lemma Unroll(c: Config, run: seq<Event>)
    requires ConfigOk(c) && ValidRun(c, run) && run != []
    ensures var prev, e := run[..|run| - 1], run[|run| - 1];
            && run == prev + [e] && ValidRun(c, prev) && Enabled(Exec(c, prev), e)
            && Exec(c, run) == Step(c, Exec(c, prev), e)
  {
    hide Step, Enabled, Sane;
  }

  // ----- References -----

  lemma TxAfterOwned(q: Cs.Queue, t: Tx, m: Mbuf, port: nat, fate: Fate, acc: seq<nat>)
    requires port < APP_MAX_ETH_PORTS == |t.ports| && AccOk(acc) && (fate.Forwarded? ==> fate.face < APP_MAX_ETH_PORTS)
    requires Refcounts.Owned(q, t, multiset{m})
    ensures Refcounts.Owned(q, TxAfter(t, m, port, fate, acc), multiset{})
  {
    hide SendSingle, Free, Refcounts.Owned;
    match fate
    case Hit(data) =>
      Refcounts.RetainOwned(q, t, data, multiset{m});
      Refcounts.SingleOwned(q, Retain(t, data), data, port, acc[port], multiset{m});
      assert multiset{} + multiset{m} == multiset{m};
      Refcounts.FreeOwned(q, SendSingle(Retain(t, data), data, port, acc[port]), m, multiset{});
    case Forwarded(face) =>
      assert multiset{} + multiset{m} == multiset{m};
      Refcounts.SingleOwned(q, t, m, face, acc[face], multiset{});
    case _ =>
      assert multiset{} + multiset{m} == multiset{m};
      Refcounts.FreeOwned(q, t, m, multiset{});
  }

  lemma TxStoredOwned(d: Cs.Dim, q: Cs.Queue, t: Tx, m: Mbuf, name: Name)
    requires d.buckets > 0 && Refcounts.Owned(q, t, multiset{m})
    ensures var (q', stored) := Cs.Insert(d, q, Cs.Item(name, m));
            Refcounts.Owned(q', TxStored(d, q, t, m, stored), multiset{})
  {
    Refcounts.StoreOwned(d, q, t, Cs.Item(name, m));
  }

  lemma DataOwned(c: Config, s: State, m: Mbuf, name: Name, acc: seq<nat>)
    requires c.cs.buckets > 0 && AccOk(acc) && |s.tx.ports| == APP_MAX_ETH_PORTS
    requires Refcounts.Owned(s.cs, s.tx, multiset{m})
    ensures Refcounts.Owned(OnData(c, s, m, name, acc).cs, OnData(c, s, m, name, acc).tx, multiset{})
  {
    hide Refcounts.Owned, Cs.Insert, Copies, Pit.Remove;
    TxStoredOwned(c.cs, s.cs, s.tx, m, name);
    var (q, stored) := Cs.Insert(c.cs, s.cs, Cs.Item(name, m));
    var t := TxStored(c.cs, s.cs, s.tx, m, stored);
    Refcounts.CopiesOwned(q, t, m, Pit.Remove(s.pit, name).1, APP_MAX_ETH_PORTS, acc);
  }

  lemma ReceiveOwned(c: Config, s: State, e: Event)
    requires e.Receive? && Sane(c, s) && Enabled(s, e) && Refcounts.Owned(s.cs, s.tx, multiset{})
    ensures Refcounts.Owned(Step(c, s, e).cs, Step(c, s, e).tx, multiset{})
  {
    var s0 := Arrive(s, e.m, e.frame, e.now);
    Refcounts.RetainOwned(s.cs, s.tx, e.m, multiset{});
    assert multiset{} + multiset{e.m} == multiset{e.m};
    match Classify(e.frame)
    case Interest(name, offsets) =>
      ForwardedToPort(c, s0, e, name, offsets);
      TxAfterOwned(s0.cs, s0.tx, e.m, e.port, FateOf(c, s0, e, name, offsets), e.acc);
    case Data(name) => DataOwned(c, s0, e.m, name, e.acc);
    case Malformed => Refcounts.FreeOwned(s0.cs, s0.tx, e.m, multiset{});
  }

  lemma StepOwned(c: Config, s: State, e: Event)
    requires Sane(c, s) && Enabled(s, e) && Refcounts.Owned(s.cs, s.tx, multiset{})
    ensures Refcounts.Owned(Step(c, s, e).cs, Step(c, s, e).tx, multiset{})
  {
    match e
    case Receive(_, _, _, _, _, _, _) => ReceiveOwned(c, s, e);
    case Drain(_, acc) => Refcounts.DrainedOwned(s.cs, s.tx, APP_MAX_ETH_PORTS, acc);
    case Purge(_) =>
    case AddRoute(_, _) =>
    case DelRoute(_, _, _) =>
    case Transmitted(m) => Refcounts.SentOwned(s.cs, s.tx, m);
  }

  /** In every reachable state the reference count of a buffer is the number of its holders. */
  lemma {:induction false} RefcountsExact(c: Config, run: seq<Event>)
    requires ConfigOk(c) && ValidRun(c, run)
    ensures Refcounts.Owned(Exec(c, run).cs, Exec(c, run).tx, multiset{})
  {
    hide Exec, ValidRun, Step, Sane, Enabled;
    if run == [] {
      Start(c);
      InitSane(c);
    } else {
      Unroll(c, run);
      RefcountsExact(c, run[..|run| - 1]);
      StepOwned(c, Exec(c, run[..|run| - 1]), run[|run| - 1]);
    }
  }

  /** So no buffer that the store, a transmit buffer or the network card refers to is ever free
      to be filled with another packet. */
  lemma NoDanglingReference(c: Config, run: seq<Event>, m: Mbuf)
    requires ConfigOk(c) && ValidRun(c, run) && Refcounts.Reachable(Exec(c, run).cs, Exec(c, run).tx, m)
    ensures forall e: Event :: e.Receive? && e.m == m ==> !Enabled(Exec(c, run), e)
  {
    hide Exec, ValidRun;
    RefcountsExact(c, run);
    Refcounts.ReachableNotFree(Exec(c, run).cs, Exec(c, run).tx, m);
  }

  // ----- Free buffers stay free -----

  /** No buffer but m has come into use. */
  predicate OnlyNew(t: Tx, t': Tx, m: Mbuf) {
    forall x :: x in t'.mem.refs ==> x in t.mem.refs || x == m
  }

  lemma SingleShrinks(t: Tx, m: Mbuf, p: nat, k: nat)
    requires p < |t.ports| && k <= MAX_PKT_BURST
    ensures SendSingle(t, m, p, k).mem.refs <= t.mem.refs
  {
  }

  lemma {:induction false} CopiesOnlyNew(t: Tx, m: Mbuf, faces: set<nat>, n: nat, acc: seq<nat>)
    requires n <= |t.ports| == APP_MAX_ETH_PORTS && AccOk(acc)
    ensures OnlyNew(t, Copies(t, m, faces, n, acc), m)
  {
    hide SendSingle;
    if n > 0 {
      CopiesOnlyNew(t, m, faces, n - 1, acc);
      if n - 1 in faces {
        SingleShrinks(Retain(Copies(t, m, faces, n - 1, acc), m), m, n - 1, acc[n - 1]);
      }
    }
  }

  lemma {:induction false} DrainedOnlyNew(t: Tx, n: nat, acc: seq<nat>)
    requires n <= |t.ports| == |acc| && Acceptable(t, acc)
    ensures Drained(t, n, acc).mem.refs <= t.mem.refs
  {
    if n > 0 {
      DrainedOnlyNew(t, n - 1, acc);
    }
  }

  lemma TxAfterOnlyNew(q: Cs.Queue, t: Tx, m: Mbuf, port: nat, fate: Fate, acc: seq<nat>)
    requires port < APP_MAX_ETH_PORTS == |t.ports| && AccOk(acc) && (fate.Forwarded? ==> fate.face < APP_MAX_ETH_PORTS)
    requires Refcounts.Owned(q, t, multiset{m}) && (fate.Hit? ==> fate.data in Refcounts.CsRefs(q))
    ensures OnlyNew(t, TxAfter(t, m, port, fate, acc), m)
  {
    hide SendSingle;
    match fate
    case Hit(data) =>
      Refcounts.KeptNotFree(q, t, data, multiset{m});
      SingleShrinks(Retain(t, data), data, port, acc[port]);
    case Forwarded(face) => SingleShrinks(t, m, face, acc[face]);
    case _ =>
  }

  lemma ReactOnlyNew(c: Config, s: State, e: Event)
    requires Sane(c, s) && Handles(s, e) && Refcounts.Owned(s.cs, s.tx, multiset{e.m})
    ensures OnlyNew(s.tx, React(c, s, e).tx, e.m)
  {
    hide Copies, TxAfter, PitAfter, StatsAfter, DataStats, Refcounts.Owned;
    match Classify(e.frame)
    case Interest(name, offsets) =>
      ForwardedToPort(c, s, e, name, offsets);
      var fate := FateOf(c, s, e, name, offsets);
      if fate.Hit? {
        assert Refcounts.MbufsOf(s.cs)[e.hit] == fate.data;
      }
      TxAfterOnlyNew(s.cs, s.tx, e.m, e.port, fate, e.acc);
    case Data(name) =>
      var (q, stored) := Cs.Insert(c.cs, s.cs, Cs.Item(name, e.m));
      CopiesOnlyNew(TxStored(c.cs, s.cs, s.tx, e.m, stored), e.m, Pit.Remove(s.pit, name).1, APP_MAX_ETH_PORTS, e.acc);
    case Malformed =>
  }

  /** Only reception brings a free buffer into use, and only the one that was received into. */
  lemma StepOnlyNew(c: Config, s: State, e: Event)
    requires Sane(c, s) && Enabled(s, e) && Refcounts.Owned(s.cs, s.tx, multiset{})
    ensures forall x :: x in Step(c, s, e).tx.mem.refs ==> x in s.tx.mem.refs || (e.Receive? && x == e.m)
  {
    hide Drained, React, Classify, WellFormed;
    match e
    case Receive(m, frame, port, now, hit, at, acc) =>
      Refcounts.RetainOwned(s.cs, s.tx, m, multiset{});
      assert multiset{} + multiset{m} == multiset{m};
      ReactOnlyNew(c, Arrive(s, m, frame, now), e);
    case Drain(_, acc) => DrainedOnlyNew(s.tx, APP_MAX_ETH_PORTS, acc);
    case Purge(_) =>
    case AddRoute(_, _) =>
    case DelRoute(_, _, _) =>
    case Transmitted(_) =>
  }

  lemma ReactClock(c: Config, s: State, e: Event)
    requires Sane(c, s) && Handles(s, e)
    ensures React(c, s, e).clock == s.clock
  {
    hide WellFormed, Classify, Choices;
  }

  lemma SameChoices(s: State, e: Event)
    requires e.Receive? && Handles(Arrive(s, e.m, e.frame, e.now), e)
    ensures Handles(s, e)
  {
  }

  /** One more packet. */
  lemma Received(c: Config, run: seq<Event>, e: Event)
    requires ConfigOk(c) && ValidRun(c, run) && e.Receive?
    requires var s := Exec(c, run);
             && Handles(Arrive(s, e.m, e.frame, e.now), e)
             && e.m !in s.tx.mem.refs && s.clock <= e.now
    ensures var s := Exec(c, run);
            && Sane(c, Arrive(s, e.m, e.frame, e.now))
            && ValidRun(c, run + [e]) && Exec(c, run + [e]) == React(c, Arrive(s, e.m, e.frame, e.now), e)
            && Exec(c, run + [e]).clock == e.now
            && forall x :: x in Exec(c, run + [e]).tx.mem.refs ==> x in s.tx.mem.refs || x == e.m
  {
    hide Exec, ValidRun, React, Handles;
    RefcountsExact(c, run);
    SameChoices(Exec(c, run), e);
    Extend(c, run, e);
    ReactClock(c, Arrive(Exec(c, run), e.m, e.frame, e.now), e);
    StepOnlyNew(c, Exec(c, run), e);
  }

  // ----- Leaks -----

  /** An event that brings Data whose bucket of the store is full. */
  predicate Refuses(d: Cs.Dim, q: Cs.Queue, e: Event)
    requires d.buckets > 0
  {
    e.Receive? && Classify(e.frame).Data? && Cs.BucketFull(d, q, Classify(e.frame).name)
  }

  ghost function Refused(c: Config, run: seq<Event>): multiset<Mbuf>
    requires ConfigOk(c) && ValidRun(c, run)
  {
    if run == [] then multiset{}
    else
      var prev := run[..|run| - 1];
      var e := run[|run| - 1];
      Refused(c, prev) + if Refuses(c.cs, Exec(c, prev).cs, e) then multiset{e.m} else multiset{}
  }

  /** The references that nobody will ever give up are those of the Data packets that the store
      refused, one each. So nothing leaks exactly as long as no bucket of the store overflows. */
  lemma {:induction false} LeaksAreRefusals(c: Config, run: seq<Event>)
    requires ConfigOk(c) && ValidRun(c, run)
    ensures Exec(c, run).tx.lost == Refused(c, run)
  {
    hide Exec, ValidRun, Step, Sane, Enabled;
    if run == [] {
      Start(c);
    } else {
      Unroll(c, run);
      var prev := run[..|run| - 1];
      LeaksAreRefusals(c, prev);
      LostStep(c, Exec(c, prev), run[|run| - 1]);
    }
  }

  lemma LostStep(c: Config, s: State, e: Event)
    requires Sane(c, s) && Enabled(s, e)
    ensures Step(c, s, e).tx.lost == s.tx.lost + if Refuses(c.cs, s.cs, e) then multiset{e.m} else multiset{}
  {
    match e
    case Receive(m, frame, port, now, hit, at, acc) =>
      var s0 := Arrive(s, m, frame, now);
      match Classify(frame) {
        case Interest(name, offsets) =>
          ForwardedToPort(c, s0, e, name, offsets);
          TxAfterEffect(s0.tx, m, port, FateOf(c, s0, e, name, offsets), acc);
        case Data(name) =>
          var (q, stored) := Cs.Insert(c.cs, s.cs, Cs.Item(name, m));
          CopiesEffect(TxStored(c.cs, s.cs, s0.tx, m, stored), m, Pit.Remove(s.pit, name).1, APP_MAX_ETH_PORTS, acc);
        case Malformed =>
      }
    case Drain(_, acc) => DrainedEffect(s.tx, APP_MAX_ETH_PORTS, acc);
    case Purge(_) =>
    case AddRoute(_, _) =>
    case DelRoute(_, _, _) =>
    case Transmitted(_) =>
  }

  // ----- Contents and order -----

  /** The cached packets are Data packets of the names they are cached under. */
  predicate Genuine(q: Cs.Queue, frames: map<Mbuf, Frame>) {
    forall k :: 0 <= k < |q| ==> Classify(FrameOf(frames, q[k].mbuf)) == Data(q[k].name)
  }

  lemma TxAfterDelivers(t: Tx, m: Mbuf, port: nat, fate: Fate, acc: seq<nat>)
    requires port < APP_MAX_ETH_PORTS == |t.ports| && AccOk(acc) && (fate.Forwarded? ==> fate.face < APP_MAX_ETH_PORTS)
    requires Delivery.Delivers(t)
    ensures Delivery.Delivers(TxAfter(t, m, port, fate, acc))
  {
    match fate
    case Hit(data) => Delivery.SingleDelivers(Retain(t, data), data, port, acc[port]);
    case Forwarded(face) => Delivery.SingleDelivers(t, m, face, acc[face]);
    case _ =>
  }

  lemma StepDelivers(c: Config, s: State, e: Event)
    requires Sane(c, s) && Enabled(s, e) && Refcounts.Owned(s.cs, s.tx, multiset{}) && Delivery.Delivers(s.tx)
    ensures Delivery.Delivers(Step(c, s, e).tx)
  {
    hide Drained, Copies;
    match e
    case Receive(m, frame, port, now, hit, at, acc) =>
      Delivery.ReceiveDelivers(s.cs, s.tx, m, frame);
      var t := Transmit.Receive(s.tx, m, frame);
      match Classify(frame) {
        case Interest(name, offsets) =>
          ForwardedToPort(c, s, e, name, offsets);
          TxAfterDelivers(t, m, port, FateOf(c, s, e, name, offsets), acc);
        case Data(name) =>
          var (q, stored) := Cs.Insert(c.cs, s.cs, Cs.Item(name, m));
          Delivery.CopiesDeliver(TxStored(c.cs, s.cs, t, m, stored), m, Pit.Remove(s.pit, name).1, APP_MAX_ETH_PORTS,
                                 acc);
        case Malformed =>
      }
    case Drain(_, acc) => Delivery.DrainedDelivers(s.tx, APP_MAX_ETH_PORTS, acc);
    case Purge(_) =>
    case AddRoute(_, _) =>
    case DelRoute(_, _, _) =>
    case Transmitted(_) =>
  }

  lemma ArriveGenuine(s: State, m: Mbuf, frame: Frame)
    requires Refcounts.Owned(s.cs, s.tx, multiset{}) && m !in s.tx.mem.refs && Genuine(s.cs, s.tx.mem.frames)
    ensures Genuine(s.cs, Transmit.Receive(s.tx, m, frame).mem.frames)
  {
    forall k | 0 <= k < |s.cs| ensures s.cs[k].mbuf != m {
      if s.cs[k].mbuf == m {
        Refcounts.ReachableNotFree(s.cs, s.tx, m);
      }
    }
  }

  lemma DataGenuine(c: Config, s: State, m: Mbuf, name: Name, acc: seq<nat>)
    requires Sane(c, s) && AccOk(acc)
    requires Genuine(s.cs, s.tx.mem.frames) && Classify(FrameOf(s.tx.mem.frames, m)) == Data(name)
    ensures Genuine(OnData(c, s, m, name, acc).cs, OnData(c, s, m, name, acc).tx.mem.frames)
  {
    var (q, stored) := Cs.Insert(c.cs, s.cs, Cs.Item(name, m));
    CopiesEffect(TxStored(c.cs, s.cs, s.tx, m, stored), m, Pit.Remove(s.pit, name).1, APP_MAX_ETH_PORTS, acc);
  }

  lemma StepGenuine(c: Config, s: State, e: Event)
    requires Sane(c, s) && Enabled(s, e) && Refcounts.Owned(s.cs, s.tx, multiset{}) && Genuine(s.cs, s.tx.mem.frames)
    ensures Genuine(Step(c, s, e).cs, Step(c, s, e).tx.mem.frames)
  {
    match e
    case Receive(m, frame, port, now, hit, at, acc) =>
      ArriveGenuine(s, m, frame);
      var s0 := Arrive(s, m, frame, now);
      match Classify(frame) {
        case Interest(name, offsets) =>
          ForwardedToPort(c, s0, e, name, offsets);
          TxAfterEffect(s0.tx, m, port, FateOf(c, s0, e, name, offsets), acc);
        case Data(name) => DataGenuine(c, s0, m, name, acc);
        case Malformed =>
      }
    case Drain(_, acc) => DrainedEffect(s.tx, APP_MAX_ETH_PORTS, acc);
    case Purge(_) =>
    case AddRoute(_, _) =>
    case DelRoute(_, _, _) =>
    case Transmitted(_) =>
  }

  /** In every reachable state every port has queued, offered and kept its packets in order and
      unaltered, the drop counter is the number of packets refused, and the store holds
      genuine Data. */
  lemma {:induction false} RunDelivers(c: Config, run: seq<Event>)
    requires ConfigOk(c) && ValidRun(c, run)
    ensures Delivery.Delivers(Exec(c, run).tx)
    ensures Genuine(Exec(c, run).cs, Exec(c, run).tx.mem.frames)
  {
    hide Exec, ValidRun, Step, Sane, Enabled;
    if run == [] {
      Start(c);
      Delivery.NothingRefused(APP_MAX_ETH_PORTS);
    } else {
      Unroll(c, run);
      var prev := run[..|run| - 1];
      RunDelivers(c, prev);
      RefcountsExact(c, prev);
      StepDelivers(c, Exec(c, prev), run[|run| - 1]);
      StepGenuine(c, Exec(c, prev), run[|run| - 1]);
    }
  }
}
