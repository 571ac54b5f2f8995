/** What the router owes and pays over whole runs: Interests, forwards, Data and expiries. */
module Ledger {
  import opened Defs
  import opened Mbufs
  import opened Transmit
  import opened Router
  import opened Runs
  import Pit = PitSpec
  import Cs = CsSpec
  import Fib = FibSpec
  import Refcounts

  // ----- Counting what went out -----

  predicate IsDataTo(o: Out, n: Name, p: nat) {
    o.port == p && Classify(o.pkt.frame) == Data(n)
  }

  predicate IsForward(o: Out, n: Name) {
    Classify(o.pkt.frame).Interest? && Classify(o.pkt.frame).name == n
  }

  /** Data packets of a name that went to a port. */
  function DataTo(out: seq<Out>, n: Name, p: nat): nat {
    if out == [] then 0
    else DataTo(out[..|out| - 1], n, p) + if IsDataTo(out[|out| - 1], n, p) then 1 else 0
  }

  /** Interests for a name that were forwarded to any port. */
  function Forwards(out: seq<Out>, n: Name): nat {
    if out == [] then 0
    else Forwards(out[..|out| - 1], n) + if IsForward(out[|out| - 1], n) then 1 else 0
  }

  lemma {:induction false} CountConcat(a: seq<Out>, b: seq<Out>, n: Name, p: nat)
    ensures DataTo(a + b, n, p) == DataTo(a, n, p) + DataTo(b, n, p)
    ensures Forwards(a + b, n) == Forwards(a, n) + Forwards(b, n)
  {
    if b == [] {
      assert a + b == a;
    } else {
      assert (a + b)[..|a + b| - 1] == a + b[..|b| - 1];
      CountConcat(a, b[..|b| - 1], n, p);
    }
  }

  lemma CountOne(o: Out, n: Name, p: nat)
    ensures DataTo([o], n, p) == if IsDataTo(o, n, p) then 1 else 0
    ensures Forwards([o], n) == if IsForward(o, n) then 1 else 0
  {
    assert [o][..0] == [];
  }

  lemma {:induction false} CountCopies(faces: set<nat>, k: nat, x: Pkt, n: Name, p: nat)
    requires Classify(x.frame).Data?
    ensures DataTo(CopiesOut(faces, k, x), n, p)
         == if Classify(x.frame).name == n && p in faces && p < k then 1 else 0
    ensures Forwards(CopiesOut(faces, k, x), n) == 0
    ensures |CopiesOut(faces, k, x)| == PortsIn(faces, k)
    ensures faces == {} ==> CopiesOut(faces, k, x) == []
  {
    hide Classify;
    if k > 0 {
      hide DataTo, Forwards;
      CountCopies(faces, k - 1, x, n, p);
      if k - 1 in faces {
        CountConcat(CopiesOut(faces, k - 1, x), [Out(k - 1, x)], n, p);
        CountOne(Out(k - 1, x), n, p);
      } else {
        assert CopiesOut(faces, k, x) == CopiesOut(faces, k - 1, x);
      }
    }
  }

  // ----- What an Interest does to the PIT -----

  /** A fate that agrees with the answer of the PIT. */
  predicate Fits(d: Pit.Dim, log: Pit.Log, name: Name, port: nat, expiry: nat, fate: Fate)
    requires d.buckets > 0
  {
    var r := Pit.Update(d, log, name, port, expiry).1;
    match fate
    case Hit(_) => true
    case Overflow => r.NoSpace?
    case Aggregated => r.Aggregated?
    case _ => r.Inserted?
  }

  lemma PitAfterView(d: Pit.Dim, log: Pit.Log, name: Name, port: nat, expiry: nat, fate: Fate)
    requires Pit.Valid(d, log) && Fits(d, log, name, port, expiry, fate)
    ensures var view, view' := Pit.View(log), Pit.View(PitAfter(d, log, name, port, expiry, fate));
            match fate
            case Aggregated => name in view && view' == view[name := view[name].(faces := view[name].faces + {port})]
            case Forwarded(_) => name !in view && view' == view[name := Pit.Pending({port}, expiry)]
            case _ => view' == view
  {
    Pit.UpdateView(d, log, name, port, expiry);
    if fate.NoRoute? || fate.Loop? {
      Pit.InsertThenRemove(d, log, name, port, expiry);
    }
  }

  // ----- Time -----

  /** Expiries are sorted along the log and lie at most a TTL ahead of the clock. */
  predicate Timed(log: Pit.Log, latest: nat) {
    Pit.Sorted(log, 0) && forall k :: 0 <= k < |log| && log[k].Live? ==> log[k].expiry <= latest
  }

  lemma PitAfterTimed(d: Pit.Dim, log: Pit.Log, name: Name, port: nat, expiry: nat, fate: Fate)
    requires Pit.Valid(d, log) && Timed(log, expiry)
    ensures Timed(PitAfter(d, log, name, port, expiry, fate), expiry)
  {
    var log1 := Pit.Update(d, log, name, port, expiry).0;
    Pit.UpdateValid(d, log, name, port, expiry);
    Pit.KeepsSorted(d, log, 0, name, port, expiry, 0);
    assert Timed(log1, expiry);
    RemoveTimed(d, log1, name, expiry);
  }

  lemma Later(log: Pit.Log, earlier: nat, later: nat)
    requires Timed(log, earlier) && earlier <= later
    ensures Timed(log, later)
  {
  }

  lemma RemoveTimed(d: Pit.Dim, log: Pit.Log, name: Name, latest: nat)
    requires Pit.Valid(d, log) && Timed(log, latest)
    ensures Timed(Pit.Remove(log, name).0, latest)
  {
    Pit.KeepsSorted(d, log, 0, name, 0, 0, 0);
    var i, log' := Pit.Find(log, name), Pit.Remove(log, name).0;
    forall k | 0 <= k < |log'| && log'[k].Live? ensures log'[k].expiry <= latest {
      if i == 0 {
        assert log'[k] == log[k + 1];
      } else {
        assert log'[k] == log[k];
      }
    }
  }

  lemma PurgeTimed(log: Pit.Log, now: nat, latest: nat)
    requires Timed(log, latest)
    ensures Timed(Pit.Purge(log, now), latest)
  {
    Pit.PurgeIsDrop(log, now);
    var log' := Pit.Purge(log, now);
    assert forall k :: 0 <= k < |log'| ==> log'[k] == log[k + (|log| - |log'|)];
  }

  /** What a step makes of the PIT. */
  function PitOf(c: Config, s: State, e: Event): Pit.Log
    requires Sane(c, s) && Enabled(s, e)
  {
    match e
    case Receive(m, frame, port, now, _, _, _) =>
      (match Classify(frame)
       case Interest(name, offsets) => PitAfter(c.pit, s.pit, name, port, now + c.ttl, FateOf(c, s, e, name, offsets))
       case Data(name) => Pit.Remove(s.pit, name).0
       case Malformed => s.pit)
    case Drain(now, _) => Pit.Purge(s.pit, now)
    case Purge(now) => Pit.Purge(s.pit, now)
    case _ => s.pit
  }

  lemma StepPit(c: Config, s: State, e: Event)
    requires Sane(c, s) && Enabled(s, e)
    ensures Step(c, s, e).pit == PitOf(c, s, e)
    ensures Step(c, s, e).clock == if e.Receive? || e.Drain? || e.Purge? then e.now else s.clock
  {
    hide PitAfter, TxAfter, StatsAfter, Copies, DataStats, WellFormed, Choices;
    if e.Receive? {
      match Classify(e.frame)
      case Interest(name, offsets) => StepIsInterest(c, s, e, name, offsets);
      case Data(name) => StepIsData(c, s, e, name);
      case Malformed => StepIsMalformed(c, s, e);
    }
  }

  lemma PitOfTimed(c: Config, s: State, e: Event, latest: nat)
    requires Sane(c, s) && Enabled(s, e) && Timed(s.pit, latest)
    requires e.Receive? ==> latest == e.now + c.ttl
    ensures Timed(PitOf(c, s, e), latest)
  {
    hide Timed, PitAfter, Pit.Remove, Pit.Purge, Pit.Valid;
    match e
    case Receive(m, frame, port, now, hit, at, acc) =>
      match Classify(frame) {
        case Interest(name, offsets) =>
          PitAfterTimed(c.pit, s.pit, name, port, latest, FateOf(c, s, e, name, offsets));
        case Data(name) => RemoveTimed(c.pit, s.pit, name, latest);
        case Malformed =>
      }
    case Drain(now, _) => PurgeTimed(s.pit, now, latest);
    case Purge(now) => PurgeTimed(s.pit, now, latest);
    case _ =>
  }

  lemma StepTimed(c: Config, s: State, e: Event)
    requires Sane(c, s) && Enabled(s, e) && Timed(s.pit, s.clock + c.ttl)
    ensures Timed(Step(c, s, e).pit, Step(c, s, e).clock + c.ttl)
  {
    StepPit(c, s, e);
    var latest := Step(c, s, e).clock + c.ttl;
    Later(s.pit, s.clock + c.ttl, latest);
    PitOfTimed(c, s, e, latest);
  }

  lemma {:induction false} RunTimed(c: Config, run: seq<Event>)
    requires ConfigOk(c) && ValidRun(c, run)
    ensures Timed(Exec(c, run).pit, Exec(c, run).clock + c.ttl)
  {
    hide Exec, ValidRun, Step, Sane, Enabled;
    if run == [] {
      Start(c);
    } else {
      Unroll(c, run);
      RunTimed(c, run[..|run| - 1]);
      StepTimed(c, Exec(c, run[..|run| - 1]), run[|run| - 1]);
    }
  }

  /** In every run, a drain or a purge removes from the PIT exactly what has expired by then,
      and a drain leaves every transmit buffer empty. */
  lemma AfterPurge(c: Config, run: seq<Event>, e: Event)
    requires ConfigOk(c) && ValidRun(c, run) && Enabled(Exec(c, run), e) && (e.Drain? || e.Purge?)
    ensures var view := Pit.View(Exec(c, run).pit);
            Pit.View(Step(c, Exec(c, run), e).pit) == map n | n in view && view[n].expiry > e.now :: view[n]
    ensures e.Drain? ==> forall p :: 0 <= p < APP_MAX_ETH_PORTS ==> Step(c, Exec(c, run), e).tx.ports[p].buf == []
  {
    hide Exec, ValidRun;
    RunTimed(c, run);
    var s := Exec(c, run);
    Pit.PurgeView(c.pit, s.pit, e.now);
    if e.Drain? {
      DrainedEffect(s.tx, APP_MAX_ETH_PORTS, e.acc);
    }
  }

  // ----- The balance of one step -----

  /** An event that brings an Interest for a name from a port. */
  predicate Asks(e: Event, n: Name, p: nat) {
    e.Receive? && e.port == p && Classify(e.frame).Interest? && Classify(e.frame).name == n
  }

  predicate Waits(log: Pit.Log, n: Name, p: nat) {
    n in Pit.View(log) && p in Pit.View(log)[n].faces
  }

  function Bit(b: bool): nat {
    if b then 1 else 0
  }

  /** An event that brings Data for a pending name. */
  predicate Satisfies(log: Pit.Log, e: Event, n: Name) {
    e.Receive? && Classify(e.frame) == Data(n) && n in Pit.View(log)
  }

  /** An event at which a pending name has expired. */
  predicate Expires(log: Pit.Log, e: Event, n: Name) {
    (e.Drain? || e.Purge?) && n in Pit.View(log) && Pit.View(log)[n].expiry <= e.now
  }

  /** A fate that answers an Interest with nothing, now or later: it is dropped, or it joins an
      entry for which its port is waiting already. */
  predicate Vain(log: Pit.Log, fate: Fate, n: Name, p: nat) {
    fate.Overflow? || fate.NoRoute? || fate.Loop? || (fate.Aggregated? && Waits(log, n, p))
  }

  /** An event that settles an Interest for a name from a port without Data: an Interest that meets
      a vain fate, or the end of a wait that has expired. */
  predicate Unserved(c: Config, s: State, e: Event, n: Name, p: nat)
    requires Sane(c, s) && Enabled(s, e)
  {
    if e.Receive? then Asks(e, n, p) && Vain(s.pit, FateOf(c, s, e, n, Classify(e.frame).offsets), n, p)
    else Waits(s.pit, n, p) && Expires(s.pit, e, n)
  }

  /** What one step adds for a name and a port: an Interest that came in is answered with Data, or
      waits, or goes unserved, and nothing else is answered or waits; a forward for every new
      entry, and an entry lost only to Data or to time. */
  predicate Balanced(s: State, s': State, e: Event, n: Name, p: nat, unserved: bool) {
    && DataTo(s'.tx.out, n, p) + Bit(Waits(s'.pit, n, p))
       <= DataTo(s.tx.out, n, p) + Bit(Waits(s.pit, n, p)) + Bit(Asks(e, n, p))
    && (p < APP_MAX_ETH_PORTS ==>
          DataTo(s'.tx.out, n, p) + Bit(Waits(s'.pit, n, p)) + Bit(unserved)
          == DataTo(s.tx.out, n, p) + Bit(Waits(s.pit, n, p)) + Bit(Asks(e, n, p)))
    && Forwards(s'.tx.out, n) + Bit(n in Pit.View(s.pit))
       == Forwards(s.tx.out, n) + Bit(Satisfies(s.pit, e, n)) + Bit(Expires(s.pit, e, n)) + Bit(n in Pit.View(s'.pit))
  }

  /** A reply by the store to an Interest is Data of that name; anything else sent is the
      Interest itself. */
  lemma RepliesCount(s: State, e: Event, name: Name, offsets: seq<nat>, fate: Fate, n: Name, p: nat)
    requires e.Receive? && Classify(FrameOf(s.tx.mem.frames, e.m)) == Interest(name, offsets)
    requires fate.Hit? ==> Classify(FrameOf(s.tx.mem.frames, fate.data)) == Data(name)
    ensures var added := Replies(s.tx, e.m, e.port, fate);
            && DataTo(added, n, p) == Bit(fate.Hit? && name == n && e.port == p)
            && Forwards(added, n) == Bit(fate.Forwarded? && name == n)
            && |added| == Bit(fate.Hit?) + Bit(fate.Forwarded?)
  {
    var added := Replies(s.tx, e.m, e.port, fate);
    if added != [] {
      assert added[..0] == [];
    }
  }

  /** What an Interest changes for a name and a port in the PIT. */
  lemma PitBalanced(d: Pit.Dim, log: Pit.Log, name: Name, port: nat, expiry: nat, fate: Fate, n: Name, p: nat)
    requires Pit.Valid(d, log) && Fits(d, log, name, port, expiry, fate)
    ensures var log' := PitAfter(d, log, name, port, expiry, fate);
            && Bit(Waits(log', n, p)) + Bit(n == name && p == port && Vain(log, fate, n, p))
               == Bit(Waits(log, n, p)) + Bit(!fate.Hit? && n == name && p == port)
            && Bit(n in Pit.View(log')) == Bit(n in Pit.View(log)) + Bit(fate.Forwarded? && n == name)
  {
    PitAfterView(d, log, name, port, expiry, fate);
  }

  /** A step is balanced if what it adds to the transmit history is. */
  lemma Grown(s: State, s': State, e: Event, n: Name, p: nat, unserved: bool, added: seq<Out>)
    requires s'.tx.out == s.tx.out + added
    requires DataTo(added, n, p) + Bit(Waits(s'.pit, n, p)) <= Bit(Waits(s.pit, n, p)) + Bit(Asks(e, n, p))
    requires p < APP_MAX_ETH_PORTS ==>
               DataTo(added, n, p) + Bit(Waits(s'.pit, n, p)) + Bit(unserved)
               == Bit(Waits(s.pit, n, p)) + Bit(Asks(e, n, p))
    requires Forwards(added, n) + Bit(n in Pit.View(s.pit))
          == Bit(Satisfies(s.pit, e, n)) + Bit(Expires(s.pit, e, n)) + Bit(n in Pit.View(s'.pit))
    ensures Balanced(s, s', e, n, p, unserved)
  {
    CountConcat(s.tx.out, added, n, p);
  }

  lemma InterestBalanced(c: Config, s: State, e: Event, name: Name, offsets: seq<nat>, fate: Fate, n: Name, p: nat)
    requires e.Receive? && Pit.Valid(c.pit, s.pit) && NoneFull(s.tx.ports) && AccOk(e.acc) && e.port < APP_MAX_ETH_PORTS
    requires fate.Forwarded? ==> fate.face < APP_MAX_ETH_PORTS
    requires Classify(e.frame) == Classify(FrameOf(s.tx.mem.frames, e.m)) == Interest(name, offsets)
    requires fate.Hit? ==> Classify(FrameOf(s.tx.mem.frames, fate.data)) == Data(name)
    requires Fits(c.pit, s.pit, name, e.port, e.now + c.ttl, fate)
    ensures Balanced(s, OnInterest(c, s, e, name, offsets, fate), e, n, p, Asks(e, n, p) && Vain(s.pit, fate, n, p))
  {
    hide PitAfter, TxAfter, Pit.View, Replies, StatsAfter, Classify, FrameOf, Fits, Balanced, Waits, DataTo,
      Forwards, Vain;
    var s' := OnInterest(c, s, e, name, offsets, fate);
    TxAfterEffect(s.tx, e.m, e.port, fate, e.acc);
    RepliesCount(s, e, name, offsets, fate, n, p);
    PitBalanced(c.pit, s.pit, name, e.port, e.now + c.ttl, fate, n, p);
    Grown(s, s', e, n, p, Asks(e, n, p) && Vain(s.pit, fate, n, p), Replies(s.tx, e.m, e.port, fate));
  }

  /** What Data changes for a name and a port in the PIT. */
  lemma RemoveBalanced(d: Pit.Dim, log: Pit.Log, name: Name, n: Name, p: nat)
    requires Pit.Valid(d, log)
    ensures var (log', faces) := Pit.Remove(log, name);
            && Bit(n == name && p in faces) + Bit(Waits(log', n, p)) == Bit(Waits(log, n, p))
            && Bit(n in Pit.View(log)) == Bit(n == name && n in Pit.View(log)) + Bit(n in Pit.View(log'))
  {
    Pit.RemoveView(d, log, name);
  }

  lemma DataBalanced(c: Config, s: State, e: Event, name: Name, n: Name, p: nat)
    requires e.Receive? && Pit.Valid(c.pit, s.pit) && NoneFull(s.tx.ports) && c.cs.buckets > 0 && AccOk(e.acc)
    requires Classify(e.frame) == Classify(FrameOf(s.tx.mem.frames, e.m)) == Data(name)
    ensures Balanced(s, OnData(c, s, e.m, name, e.acc), e, n, p, false)
  {
    hide Copies, CopiesOut, Cs.Insert, Classify, Pit.Remove, Pit.View, FrameOf, Balanced, Waits, DataTo, Forwards,
      Pit.Valid;
    var stored := Cs.Insert(c.cs, s.cs, Cs.Item(name, e.m)).1;
    var faces := Pit.Remove(s.pit, name).1;
    var x := Pkt(e.m, FrameOf(s.tx.mem.frames, e.m));
    CopiesEffect(TxStored(c.cs, s.cs, s.tx, e.m, stored), e.m, faces, APP_MAX_ETH_PORTS, e.acc);
    CountCopies(faces, APP_MAX_ETH_PORTS, x, n, p);
    RemoveBalanced(c.pit, s.pit, name, n, p);
    Grown(s, OnData(c, s, e.m, name, e.acc), e, n, p, false, CopiesOut(faces, APP_MAX_ETH_PORTS, x));
  }

  lemma FateFits(c: Config, s: State, e: Event, name: Name, offsets: seq<nat>)
    requires e.Receive? && c.pit.buckets > 0 && Fib.Inside(name, offsets)
    requires Cs.Holds(s.cs, name) ==> e.hit < |s.cs|
    ensures Fits(c.pit, s.pit, name, e.port, e.now + c.ttl, FateOf(c, s, e, name, offsets))
  {
  }

  /** Reception itself changes neither the PIT nor the transmit history. */
  lemma BalancedSince(s: State, m: Mbuf, frame: Frame, now: nat, s': State, e: Event, n: Name, p: nat, unserved: bool)
    requires Balanced(Arrive(s, m, frame, now), s', e, n, p, unserved)
    ensures Balanced(s, s', e, n, p, unserved)
  {
  }

  lemma MalformedBalanced(s: State, e: Event, n: Name, p: nat)
    requires e.Receive? && Classify(e.frame) == Malformed
    ensures Balanced(s, OnMalformed(s, e.m), e, n, p, false)
  {
  }

  /** A packet found in the store is Data of the name asked for. */
  lemma HitIsData(c: Config, s: State, e: Event, name: Name, offsets: seq<nat>)
    requires e.Receive? && Sane(c, s) && Enabled(s, e) && Classify(e.frame) == Interest(name, offsets)
    requires Refcounts.Owned(s.cs, s.tx, multiset{}) && Genuine(s.cs, s.tx.mem.frames)
    ensures var frames, fate := Arrive(s, e.m, e.frame, e.now).tx.mem.frames, FateOf(c, s, e, name, offsets);
            && Classify(FrameOf(frames, e.m)) == Classify(e.frame)
            && (fate.Hit? ==> Classify(FrameOf(frames, fate.data)) == Data(name))
  {
    hide Classify, Fib.Answers, Refcounts.Owned;
    ArriveGenuine(s, e.m, e.frame);
  }

  lemma ReceiveBalanced(c: Config, s: State, e: Event, n: Name, p: nat)
    requires e.Receive? && Sane(c, s) && Enabled(s, e)
    requires Refcounts.Owned(s.cs, s.tx, multiset{}) && Genuine(s.cs, s.tx.mem.frames)
    ensures Balanced(s, Step(c, s, e), e, n, p, Unserved(c, s, e, n, p))
  {
    var s0 := Arrive(s, e.m, e.frame, e.now);
    ArriveSane(c, s, e.m, e.frame, e.now);
    SaneParts(c, s0);
    assert Classify(FrameOf(s0.tx.mem.frames, e.m)) == Classify(e.frame);
    hide Step, OnInterest, OnData, OnMalformed, Balanced, WellFormed, Pit.Valid, NoneFull, Refcounts.Owned,
      Genuine, FateOf;
    match Classify(e.frame)
    case Interest(name, offsets) =>
      StepIsInterest(c, s, e, name, offsets);
      FateFits(c, s, e, name, offsets);
      HitIsData(c, s, e, name, offsets);
      InterestBalanced(c, s0, e, name, offsets, FateOf(c, s, e, name, offsets), n, p);
      BalancedSince(s, e.m, e.frame, e.now, Step(c, s, e), e, n, p, Unserved(c, s, e, n, p));
    case Data(name) =>
      StepIsData(c, s, e, name);
      DataBalanced(c, s0, e, name, n, p);
      BalancedSince(s, e.m, e.frame, e.now, Step(c, s, e), e, n, p, Unserved(c, s, e, n, p));
    case Malformed =>
      StepIsMalformed(c, s, e);
      MalformedBalanced(s0, e, n, p);
      BalancedSince(s, e.m, e.frame, e.now, Step(c, s, e), e, n, p, Unserved(c, s, e, n, p));
  }

  lemma StepBalanced(c: Config, s: State, e: Event, n: Name, p: nat)
    requires Sane(c, s) && Enabled(s, e) && Timed(s.pit, s.clock + c.ttl)
    requires Refcounts.Owned(s.cs, s.tx, multiset{}) && Genuine(s.cs, s.tx.mem.frames)
    ensures Balanced(s, Step(c, s, e), e, n, p, Unserved(c, s, e, n, p))
  {
    hide Pit.Purge, Drained, React, Classify, Pit.View;
    match e
    case Receive(_, _, _, _, _, _, _) => ReceiveBalanced(c, s, e, n, p);
    case Drain(now, acc) =>
      DrainedEffect(s.tx, APP_MAX_ETH_PORTS, acc);
      Pit.PurgeView(c.pit, s.pit, now);
    case Purge(now) => Pit.PurgeView(c.pit, s.pit, now);
    case AddRoute(_, _) =>
    case DelRoute(_, _, _) =>
    case Transmitted(_) =>
  }

  // ----- Whole runs -----

  /** Interests for a name that came in from a port. */
  function Asked(run: seq<Event>, n: Name, p: nat): nat {
    if run == [] then 0 else Asked(run[..|run| - 1], n, p) + Bit(Asks(run[|run| - 1], n, p))
  }

  /** How often Data came in for a name that was pending. */
  ghost function Satisfied(c: Config, run: seq<Event>, n: Name): nat
    requires ConfigOk(c) && ValidRun(c, run)
  {
    if run == [] then 0
    else
      var prev := run[..|run| - 1];
      Satisfied(c, prev, n) + Bit(Satisfies(Exec(c, prev).pit, run[|run| - 1], n))
  }

  /** How often a pending name was purged because it had expired. */
  ghost function Expired(c: Config, run: seq<Event>, n: Name): nat
    requires ConfigOk(c) && ValidRun(c, run)
  {
    if run == [] then 0
    else
      var prev := run[..|run| - 1];
      Expired(c, prev, n) + Bit(Expires(Exec(c, prev).pit, run[|run| - 1], n))
  }

  /** Flow balance: over every run, for every name and port, the Data sent to the port, plus one
      if the port is still waiting, never exceeds the Interests that came from it. */
  lemma {:induction false} NoUnsolicitedData(c: Config, run: seq<Event>, n: Name, p: nat)
    requires ConfigOk(c) && ValidRun(c, run)
    ensures DataTo(Exec(c, run).tx.out, n, p) + Bit(Waits(Exec(c, run).pit, n, p)) <= Asked(run, n, p)
  {
    hide Exec, ValidRun, Step, Sane, Enabled;
    if run == [] {
      Start(c);
    } else {
      Unroll(c, run);
      var prev := run[..|run| - 1];
      NoUnsolicitedData(c, prev, n, p);
      RefcountsExact(c, prev);
      RunDelivers(c, prev);
      RunTimed(c, prev);
      StepBalanced(c, Exec(c, prev), run[|run| - 1], n, p);
    }
  }

  /** How many Interests for a name from a port went unserved. */
  ghost function AllUnserved(c: Config, run: seq<Event>, n: Name, p: nat): nat
    requires ConfigOk(c) && ValidRun(c, run)
  {
    if run == [] then 0
    else
      var prev := run[..|run| - 1];
      AllUnserved(c, prev, n, p) + Bit(Unserved(c, Exec(c, prev), run[|run| - 1], n, p))
  }

  /** Every Interest is accounted for: over every run, for every name and port, each Interest that
      came from the port was answered with Data, or is the one still waiting, or went unserved. */
  lemma {:induction false} InterestsAccounted(c: Config, run: seq<Event>, n: Name, p: nat)
    requires ConfigOk(c) && ValidRun(c, run) && p < APP_MAX_ETH_PORTS
    ensures Asked(run, n, p)
         == DataTo(Exec(c, run).tx.out, n, p) + Bit(Waits(Exec(c, run).pit, n, p)) + AllUnserved(c, run, n, p)
  {
    hide Exec, ValidRun, Step, Sane, Enabled;
    if run == [] {
      Start(c);
    } else {
      Unroll(c, run);
      var prev := run[..|run| - 1];
      InterestsAccounted(c, prev, n, p);
      RefcountsExact(c, prev);
      RunDelivers(c, prev);
      RunTimed(c, prev);
      StepBalanced(c, Exec(c, prev), run[|run| - 1], n, p);
    }
  }

  /** Aggregation is exact: over every run, a name has been forwarded as often as its entry was
      satisfied by Data or expired, plus one if it is still pending. */
  lemma {:induction false} AggregationExact(c: Config, run: seq<Event>, n: Name)
    requires ConfigOk(c) && ValidRun(c, run)
    ensures Forwards(Exec(c, run).tx.out, n)
         == Satisfied(c, run, n) + Expired(c, run, n) + Bit(n in Pit.View(Exec(c, run).pit))
  {
    hide Exec, ValidRun, Step, Sane, Enabled;
    if run == [] {
      Start(c);
    } else {
      Unroll(c, run);
      var prev := run[..|run| - 1];
      AggregationExact(c, prev, n);
      RefcountsExact(c, prev);
      RunDelivers(c, prev);
      RunTimed(c, prev);
      StepBalanced(c, Exec(c, prev), run[|run| - 1], n, 0);
    }
  }

  /** A name that is satisfied or has expired leaves the PIT. */
  lemma LeavesPit(c: Config, s: State, e: Event, n: Name)
    requires Sane(c, s) && Enabled(s, e) && Pit.Sorted(s.pit, 0)
    requires Satisfies(s.pit, e, n) || Expires(s.pit, e, n)
    ensures n !in Pit.View(Step(c, s, e).pit)
  {
    if Satisfies(s.pit, e, n) {
      Pit.RemoveView(c.pit, s.pit, n);
    } else {
      Pit.PurgeView(c.pit, s.pit, e.now);
    }
  }

  /** While a name is pending it is not forwarded again. */
  lemma PendingNotForwarded(c: Config, run: seq<Event>, e: Event, n: Name)
    requires ConfigOk(c) && ValidRun(c, run) && Enabled(Exec(c, run), e)
    requires n in Pit.View(Exec(c, run).pit)
    ensures Forwards(Step(c, Exec(c, run), e).tx.out, n) == Forwards(Exec(c, run).tx.out, n)
  {
    hide Exec, ValidRun, Step, Sane, Enabled;
    RefcountsExact(c, run);
    RunDelivers(c, run);
    RunTimed(c, run);
    var s := Exec(c, run);
    StepBalanced(c, s, e, n, 0);
    NeverLess(c, s, e, n);
    if Satisfies(s.pit, e, n) || Expires(s.pit, e, n) {
      LeavesPit(c, s, e, n);
    }
  }

  /** Data for a pending name reaches every port that waits for it, once, and settles the name. */
  lemma EveryWaiterServed(c: Config, run: seq<Event>, e: Event, n: Name, p: nat)
    requires ConfigOk(c) && ValidRun(c, run) && Enabled(Exec(c, run), e)
    requires e.Receive? && Classify(e.frame) == Data(n) && p < APP_MAX_ETH_PORTS
    ensures var s, s' := Exec(c, run), Step(c, Exec(c, run), e);
            && DataTo(s'.tx.out, n, p) == DataTo(s.tx.out, n, p) + Bit(Waits(s.pit, n, p))
            && n !in Pit.View(s'.pit)
  {
    hide Copies, CopiesOut, Cs.Insert, Classify, Sane, Exec, ValidRun;
    var s := Exec(c, run);
    assert Pit.Valid(c.pit, s.pit) && NoneFull(s.tx.ports) by {
      SaneParts(c, s);
    }
    var s0 := Arrive(s, e.m, e.frame, e.now);
    var (q, stored) := Cs.Insert(c.cs, s.cs, Cs.Item(n, e.m));
    var faces := Pit.Remove(s.pit, n).1;
    var x := Pkt(e.m, FrameOf(s0.tx.mem.frames, e.m));
    CopiesEffect(TxStored(c.cs, s.cs, s0.tx, e.m, stored), e.m, faces, APP_MAX_ETH_PORTS, e.acc);
    CountConcat(s.tx.out, CopiesOut(faces, APP_MAX_ETH_PORTS, x), n, p);
    CountCopies(faces, APP_MAX_ETH_PORTS, x, n, p);
    Pit.RemoveView(c.pit, s.pit, n);
  }

  lemma SaneParts(c: Config, s: State)
    requires Sane(c, s)
    ensures Pit.Valid(c.pit, s.pit) && NoneFull(s.tx.ports)
  {
  }

  /** An Interest that the store can answer is answered with Data of its name, once, to the port
      it came from; nothing else happens to the tables. */
  lemma HitServed(c: Config, run: seq<Event>, e: Event, n: Name, offsets: seq<nat>)
    requires ConfigOk(c) && ValidRun(c, run) && Enabled(Exec(c, run), e)
    requires e.Receive? && Classify(e.frame) == Interest(n, offsets) && Cs.Holds(Exec(c, run).cs, n)
    ensures var s, s' := Exec(c, run), Step(c, Exec(c, run), e);
            && DataTo(s'.tx.out, n, e.port) == DataTo(s.tx.out, n, e.port) + 1
            && |s'.tx.out| == |s.tx.out| + 1
            && s'.cs == s.cs && s'.pit == s.pit && s'.fib == s.fib
  {
    hide Exec, ValidRun;
    var s := Exec(c, run);
    RefcountsExact(c, run);
    RunDelivers(c, run);
    ArriveGenuine(s, e.m, e.frame);
    var s0 := Arrive(s, e.m, e.frame, e.now);
    ForwardedToPort(c, s0, e, n, offsets);
    var fate := FateOf(c, s0, e, n, offsets);
    TxAfterEffect(s0.tx, e.m, e.port, fate, e.acc);
    RepliesCount(s0, e, n, offsets, fate, n, e.port);
    CountConcat(s.tx.out, Replies(s0.tx, e.m, e.port, fate), n, e.port);
  }

  /** What a step makes of an Interest that is sent on to a face, and pending from now on. */
  predicate SentOn(c: Config, s: State, s': State, e: Event, n: Name, face: nat)
    requires e.Receive?
  {
    && s'.tx.out == s.tx.out + [Out(face, Pkt(e.m, e.frame))]
    && Pit.View(s'.pit) == Pit.View(s.pit)[n := Pit.Pending({e.port}, e.now + c.ttl)]
  }

  /** What a step makes of an Interest that goes nowhere. */
  predicate Dropped(s: State, s': State) {
    s'.tx.out == s.tx.out && Pit.View(s'.pit) == Pit.View(s.pit)
  }

  /** An Interest that carries the offsets of its separators, and is newly pending, is sent to
      one face, registered for the longest of its component prefixes in the FIB and not the port
      it came from; or else it leaves no trace, and then no prefix is registered, or the face
      found is the port it came from. */
  lemma RoutedByLongestPrefix(c: Config, run: seq<Event>, e: Event, n: Name, offsets: seq<nat>)
    requires ConfigOk(c) && ValidRun(c, run) && Enabled(Exec(c, run), e)
    requires e.Receive? && Classify(e.frame) == Interest(n, offsets) && Fib.SeparatorsOf(n, offsets)
    requires !Cs.Holds(Exec(c, run).cs, n)
    requires Pit.Update(c.pit, Exec(c, run).pit, n, e.port, e.now + c.ttl).1.Inserted?
    ensures var s, s' := Exec(c, run), Step(c, Exec(c, run), e);
            || (exists face :: face != e.port && Fib.LongestMatch(s.fib, n, Some(face)) && SentOn(c, s, s', e, n, face))
            || (Dropped(s, s') && (Fib.LongestMatch(s.fib, n, None) || Fib.LongestMatch(s.fib, n, Some(e.port))))
    ensures var s, s' := Exec(c, run), Step(c, Exec(c, run), e);
            Fib.LongestMatch(s.fib, n, None) ==> Dropped(s, s')
  {
    hide Exec, ValidRun;
    var s := Exec(c, run);
    var fate := FateOf(c, s, e, n, offsets);
    RoutedFate(c, s, e, n, offsets);
    RoutedStep(c, s, e, n, offsets);
    OneAnswer(s.fib, n);
    if fate.Forwarded? {
      assert SentOn(c, s, Step(c, s, e), e, n, fate.face);
    }
  }

  /** No prefix is registered, or some is. */
  lemma OneAnswer(es: Fib.Entries, n: Name)
    ensures Fib.LongestMatch(es, n, None) ==> forall face :: !Fib.LongestMatch(es, n, Some(face))
  {
    forall face | Fib.LongestMatch(es, n, Some(face)) ensures !Fib.LongestMatch(es, n, None) {
      var p :| Fib.ComponentPrefix(p, n) && Fib.Route(p, face) in es;
    }
  }

  lemma RoutedFate(c: Config, s: State, e: Event, n: Name, offsets: seq<nat>)
    requires Sane(c, s) && Enabled(s, e)
    requires e.Receive? && Classify(e.frame) == Interest(n, offsets) && Fib.SeparatorsOf(n, offsets)
    requires !Cs.Holds(s.cs, n) && Pit.Update(c.pit, s.pit, n, e.port, e.now + c.ttl).1.Inserted?
    ensures match FateOf(c, s, e, n, offsets)
            case Forwarded(face) => face != e.port && Fib.LongestMatch(s.fib, n, Some(face))
            case Loop => Fib.LongestMatch(s.fib, n, Some(e.port))
            case NoRoute => Fib.LongestMatch(s.fib, n, None)
            case _ => false
  {
    hide Fib.LongestMatch, Fib.Answers, Fib.SeparatorsOf, Sane, Pit.Update;
    assert Fib.Answers(s.fib, n, offsets, RouteOf(s.fib, n, offsets, e.at), e.at);
    Fib.BestIsLongest(s.fib, n, offsets, RouteOf(s.fib, n, offsets, e.at), e.at);
  }

  lemma InterestRouted(c: Config, s: State, e: Event, n: Name, offsets: seq<nat>, fate: Fate)
    requires e.Receive? && Pit.Valid(c.pit, s.pit) && NoneFull(s.tx.ports) && AccOk(e.acc) && e.port < APP_MAX_ETH_PORTS
    requires Fits(c.pit, s.pit, n, e.port, e.now + c.ttl, fate) && FrameOf(s.tx.mem.frames, e.m) == e.frame
    requires fate.NoRoute? || fate.Loop? || (fate.Forwarded? && fate.face < APP_MAX_ETH_PORTS)
    ensures var s' := OnInterest(c, s, e, n, offsets, fate);
            if fate.Forwarded? then SentOn(c, s, s', e, n, fate.face) else Dropped(s, s')
  {
    hide PitAfter, TxAfter, StatsAfter, Pit.View, Fits;
    TxAfterEffect(s.tx, e.m, e.port, fate, e.acc);
    PitAfterView(c.pit, s.pit, n, e.port, e.now + c.ttl, fate);
  }

  lemma RoutedStep(c: Config, s: State, e: Event, n: Name, offsets: seq<nat>)
    requires Sane(c, s) && Enabled(s, e)
    requires e.Receive? && Classify(e.frame) == Interest(n, offsets) && !Cs.Holds(s.cs, n)
    requires Pit.Update(c.pit, s.pit, n, e.port, e.now + c.ttl).1.Inserted?
    ensures match FateOf(c, s, e, n, offsets)
            case Forwarded(face) => SentOn(c, s, Step(c, s, e), e, n, face)
            case _ => Dropped(s, Step(c, s, e))
  {
    hide OnInterest, Pit.Update, Pit.View, Classify, Step;
    StepIsInterest(c, s, e, n, offsets);
    FateFits(c, s, e, n, offsets);
    InterestRouted(c, Arrive(s, e.m, e.frame, e.now), e, n, offsets, FateOf(c, s, e, n, offsets));
  }

  /** The transmit history only grows. */
  lemma NeverLess(c: Config, s: State, e: Event, n: Name)
    requires Sane(c, s) && Enabled(s, e)
    ensures Forwards(Step(c, s, e).tx.out, n) >= Forwards(s.tx.out, n)
  {
    match e
    case Receive(m, frame, port, now, hit, at, acc) =>
      var t := Transmit.Receive(s.tx, m, frame);
      match Classify(frame) {
        case Interest(name, offsets) =>
          ForwardedToPort(c, s, e, name, offsets);
          var fate := FateOf(c, s, e, name, offsets);
          TxAfterEffect(t, m, port, fate, acc);
          CountConcat(s.tx.out, Replies(t, m, port, fate), n, 0);
        case Data(name) =>
          var (q, stored) := Cs.Insert(c.cs, s.cs, Cs.Item(name, m));
          var faces := Pit.Remove(s.pit, name).1;
          CopiesEffect(TxStored(c.cs, s.cs, t, m, stored), m, faces, APP_MAX_ETH_PORTS, acc);
          CountConcat(s.tx.out, CopiesOut(faces, APP_MAX_ETH_PORTS, Pkt(m, FrameOf(t.mem.frames, m))), n, 0);
        case Malformed =>
      }
    case Drain(_, acc) => DrainedEffect(s.tx, APP_MAX_ETH_PORTS, acc);
    case Purge(_) =>
    case AddRoute(_, _) =>
    case DelRoute(_, _, _) =>
    case Transmitted(_) =>
  }

  // ----- The counters -----

  /** Faces waiting, over all pending names. */
  function Waiting(log: Pit.Log): nat {
    if log == [] then 0
    else Waiting(log[..|log| - 1]) + if log[|log| - 1].Live? then |log[|log| - 1].faces| else 0
  }

  /** Every Interest received met exactly one fate; every packet queued is accounted for; no
      more Data is sent, and still owed, than Interests came in. */
  predicate Counted(s: State) {
    && s.stats.intRecv == s.stats.intCsHit + s.stats.intPitHit + s.stats.swPktDrop + s.stats.intNoRoute
                          + s.stats.intFibLoop + s.stats.intFibHit
    && |s.tx.out| == s.stats.dataSent + s.stats.intFibHit
    && s.stats.dataSent + Waiting(s.pit) <= s.stats.intRecv
  }

  lemma {:induction false} WaitingConcat(a: Pit.Log, b: Pit.Log)
    ensures Waiting(a + b) == Waiting(a) + Waiting(b)
  {
    if b == [] {
      assert a + b == a;
    } else {
      assert (a + b)[..|a + b| - 1] == a + b[..|b| - 1];
      WaitingConcat(a, b[..|b| - 1]);
    }
  }

  /** Replacing one entry changes the sum by the difference of the two. */
  lemma WaitingReplace(log: Pit.Log, k: nat, x: Pit.LogEntry)
    requires k < |log|
    ensures Waiting(log[k := x]) + Waiting([log[k]]) == Waiting(log) + Waiting([x])
  {
    var a, b := log[..k], log[k + 1..];
    assert log == a + ([log[k]] + b) && log[k := x] == a + ([x] + b);
    WaitingConcat(a, [log[k]] + b);
    WaitingConcat([log[k]], b);
    WaitingConcat(a, [x] + b);
    WaitingConcat([x], b);
  }

  lemma WaitingOne(x: Pit.LogEntry)
    ensures Waiting([x]) == if x.Live? then |x.faces| else 0
  {
    assert [x][..0] == [];
  }

  lemma UpdateWaiting(d: Pit.Dim, log: Pit.Log, name: Name, port: nat, expiry: nat)
    requires d.buckets > 0
    ensures var (log', r) := Pit.Update(d, log, name, port, expiry);
            Waiting(log') <= Waiting(log) + Bit(!r.NoSpace?)
  {
    var (log', r) := Pit.Update(d, log, name, port, expiry);
    match r
    case Aggregated =>
      var k := Pit.Find(log, name);
      WaitingReplace(log, k, log'[k]);
      WaitingOne(log[k]);
      WaitingOne(log'[k]);
      assert port in log[k].faces ==> log[k].faces + {port} == log[k].faces;
      assert port !in log[k].faces ==> |log[k].faces + {port}| == |log[k].faces| + 1;
    case Inserted =>
      WaitingConcat(log, [Pit.Live(name, {port}, expiry)]);
      WaitingOne(Pit.Live(name, {port}, expiry));
    case NoSpace =>
  }

  lemma RemoveWaiting(log: Pit.Log, name: Name)
    ensures var (log', faces) := Pit.Remove(log, name);
            Waiting(log') + |faces| == Waiting(log)
  {
    var k := Pit.Find(log, name);
    if k >= 0 {
      WaitingOne(log[k]);
      if k == 0 {
        assert log == [log[0]] + log[1..];
        WaitingConcat([log[0]], log[1..]);
      } else {
        WaitingReplace(log, k, Pit.Hole);
        WaitingOne(Pit.Hole);
      }
    }
  }

  lemma PurgeWaiting(log: Pit.Log, now: nat)
    ensures Waiting(Pit.Purge(log, now)) <= Waiting(log)
  {
    Pit.PurgeIsDrop(log, now);
    var k := |log| - |Pit.Purge(log, now)|;
    assert log == log[..k] + log[k..];
    WaitingConcat(log[..k], log[k..]);
  }

  /** No more ports are served than there are faces. */
  lemma {:induction false} PortsInBound(faces: set<nat>, k: nat)
    ensures PortsIn(faces, k) <= |faces|
    ensures PortsIn(faces, k) <= |set f | f in faces && f < k|
  {
    var below := set f | f in faces && f < k;
    if k > 0 {
      PortsInBound(faces, k - 1);
      var less := set f | f in faces && f < k - 1;
      if k - 1 in faces {
        assert below == less + {k - 1};
      } else {
        assert below == less;
      }
    }
    assert below <= faces;
    Subset(below, faces);
  }

  lemma Subset<T>(a: set<T>, b: set<T>)
    requires a <= b
    ensures |a| <= |b|
  {
    assert b == a + (b - a);
  }

  lemma PitAfterWaiting(d: Pit.Dim, log: Pit.Log, name: Name, port: nat, expiry: nat, fate: Fate)
    requires Pit.Valid(d, log) && Fits(d, log, name, port, expiry, fate)
    ensures Waiting(PitAfter(d, log, name, port, expiry, fate)) <= Waiting(log) + Bit(!fate.Hit?)
  {
    UpdateWaiting(d, log, name, port, expiry);
    RemoveWaiting(Pit.Update(d, log, name, port, expiry).0, name);
  }

  lemma InterestCounted(c: Config, s: State, e: Event, name: Name, offsets: seq<nat>, fate: Fate)
    requires e.Receive? && Pit.Valid(c.pit, s.pit) && NoneFull(s.tx.ports) && AccOk(e.acc) && e.port < APP_MAX_ETH_PORTS
    requires fate.Forwarded? ==> fate.face < APP_MAX_ETH_PORTS
    requires Fits(c.pit, s.pit, name, e.port, e.now + c.ttl, fate) && Counted(s)
    ensures Counted(OnInterest(c, s, e, name, offsets, fate))
  {
    hide PitAfter, TxAfter, FrameOf, Fits, Classify, Pit.Valid;
    TxAfterEffect(s.tx, e.m, e.port, fate, e.acc);
    PitAfterWaiting(c.pit, s.pit, name, e.port, e.now + c.ttl, fate);
  }

  lemma DataCounted(c: Config, s: State, m: Mbuf, name: Name, acc: seq<nat>)
    requires Sane(c, s) && AccOk(acc) && Counted(s) && Classify(FrameOf(s.tx.mem.frames, m)) == Data(name)
    ensures Counted(OnData(c, s, m, name, acc))
  {
    var (q, stored) := Cs.Insert(c.cs, s.cs, Cs.Item(name, m));
    var (log, faces) := Pit.Remove(s.pit, name);
    CopiesEffect(TxStored(c.cs, s.cs, s.tx, m, stored), m, faces, APP_MAX_ETH_PORTS, acc);
    CountCopies(faces, APP_MAX_ETH_PORTS, Pkt(m, FrameOf(s.tx.mem.frames, m)), name, 0);
    RemoveWaiting(s.pit, name);
    PortsInBound(faces, APP_MAX_ETH_PORTS);
  }

  lemma ReceiveCounted(c: Config, s: State, e: Event)
    requires e.Receive? && Sane(c, s) && Enabled(s, e) && Counted(s)
    ensures Counted(Step(c, s, e))
  {
    var s0 := Arrive(s, e.m, e.frame, e.now);
    ArriveSane(c, s, e.m, e.frame, e.now);
    SaneParts(c, s0);
    assert Counted(s0);
    hide Step, OnInterest, OnData, Counted, WellFormed, Pit.Valid, NoneFull;
    match Classify(e.frame)
    case Interest(name, offsets) =>
      StepIsInterest(c, s, e, name, offsets);
      FateFits(c, s, e, name, offsets);
      InterestCounted(c, s0, e, name, offsets, FateOf(c, s, e, name, offsets));
    case Data(name) =>
      StepIsData(c, s, e, name);
      DataCounted(c, s0, e.m, name, e.acc);
    case Malformed =>
      StepIsMalformed(c, s, e);
      MalformedCounted(s0, e.m);
  }

  lemma MalformedCounted(s: State, m: Mbuf)
    requires Counted(s)
    ensures Counted(OnMalformed(s, m))
  {
  }

  lemma StepCounted(c: Config, s: State, e: Event)
    requires Sane(c, s) && Enabled(s, e) && Counted(s)
    ensures Counted(Step(c, s, e))
  {
    hide React, Drained, Pit.Purge, Waiting;
    match e
    case Receive(_, _, _, _, _, _, _) => ReceiveCounted(c, s, e);
    case Drain(now, acc) =>
      DrainedEffect(s.tx, APP_MAX_ETH_PORTS, acc);
      PurgeWaiting(s.pit, now);
    case Purge(now) => PurgeWaiting(s.pit, now);
    case AddRoute(_, _) =>
    case DelRoute(_, _, _) =>
    case Transmitted(_) =>
  }

  lemma NothingCounted(c: Config)
    requires ConfigOk(c)
    ensures ValidRun(c, []) && Counted(Exec(c, []))
  {
    hide Exec, ValidRun;
    Start(c);
  }

  /** The counters balance in every reachable state. */
  lemma {:induction false} RunCounted(c: Config, run: seq<Event>)
    requires ConfigOk(c) && ValidRun(c, run)
    ensures Counted(Exec(c, run))
  {
    hide Exec, ValidRun, Step, Sane, Enabled, Counted;
    if run == [] {
      NothingCounted(c);
    } else {
      Unroll(c, run);
      RunCounted(c, run[..|run| - 1]);
      StepCounted(c, Exec(c, run[..|run| - 1]), run[|run| - 1]);
    }
  }
}
