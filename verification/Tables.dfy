/** What the tables hold after a whole run of the data plane: each is the outcome of a run of its
    own operations, so what is proved of those runs holds of the router. */
module Tables {
  import opened Defs
  import opened Router
  import opened Runs
  import Pit = PitSpec
  import Cs = CsSpec
  import Fib = FibSpec
  import Ledger

  // ----- The store -----

  function ItemOf(e: Event): seq<Cs.Item> {
    if e.Receive? && Classify(e.frame).Data? then [Cs.Item(Classify(e.frame).name, e.m)] else []
  }

  /** The Data packets of a run, in order. */
  function DataOf(run: seq<Event>): seq<Cs.Item> {
    if run == [] then [] else DataOf(run[..|run| - 1]) + ItemOf(run[|run| - 1])
  }

  lemma StepStore(c: Config, s: State, e: Event)
    requires Sane(c, s) && Enabled(s, e)
    ensures Step(c, s, e).cs
         == if ItemOf(e) != [] then Cs.Insert(c.cs, s.cs, ItemOf(e)[0]).0 else s.cs
  {
    hide Cs.Insert, WellFormed, Choices;
    if e.Receive? {
      match Classify(e.frame)
      case Interest(name, offsets) => StepIsInterest(c, s, e, name, offsets);
      case Data(_) =>
      case Malformed =>
    }
  }

  lemma AppendNothing<T>(s: seq<T>)
    ensures s + [] == s
  {
  }

  /** After any run the store holds the newest of the Data packets it accepted, up to its capacity,
      oldest first, whatever else has happened. */
  lemma {:induction false} StoreHoldsNewest(c: Config, run: seq<Event>)
    requires ConfigOk(c) && ValidRun(c, run)
    ensures Exec(c, run).cs == Cs.Run(c.cs, DataOf(run))
    ensures Exec(c, run).cs == Cs.Newest(Cs.Accepted(c.cs, DataOf(run)), c.cs.capacity)
  {
    hide Exec, ValidRun, Step, Sane, Enabled, Cs.Insert, Cs.Accepted, Cs.Newest;
    if run == [] {
      Start(c);
    } else {
      var prev, e := run[..|run| - 1], run[|run| - 1];
      Unroll(c, run);
      StoreHoldsNewest(c, prev);
      StepStore(c, Exec(c, prev), e);
      if ItemOf(e) == [] {
        AppendNothing(DataOf(prev));
      } else {
        assert DataOf(run)[..|DataOf(prev)|] == DataOf(prev);
      }
    }
    Cs.RunIsNewest(c.cs, DataOf(run));
  }

  // ----- The FIB -----

  function UpdateOf(e: Event): seq<Fib.Op> {
    match e
    case AddRoute(name, face) => if Fib.BadName(name) then [] else [Fib.Insert(name, face)]
    case DelRoute(name, face, pick) => if Fib.BadName(name) then [] else [Fib.Delete(name, face, pick)]
    case _ => []
  }

  /** The updates of the FIB in a run that are not rejected for their names. */
  function UpdatesOf(run: seq<Event>): seq<Fib.Op> {
    if run == [] then [] else UpdatesOf(run[..|run| - 1]) + UpdateOf(run[|run| - 1])
  }

  lemma StepFib(c: Config, s: State, e: Event)
    requires Sane(c, s) && Enabled(s, e)
    ensures Step(c, s, e).fib
         == if UpdateOf(e) != [] then Fib.Step(c.fib, s.fib, UpdateOf(e)[0]).0 else s.fib
    ensures UpdateOf(e) != [] ==> Fib.Picks(s.fib, UpdateOf(e)[0])
  {
    hide Fib.Add, WellFormed, Choices;
    if e.Receive? {
      match Classify(e.frame)
      case Interest(name, offsets) => StepIsInterest(c, s, e, name, offsets);
      case Data(_) =>
      case Malformed =>
    }
  }

  /** After any run the routes are those of the same updates on multisets, and the places of the
      forwarding table in use are the additions that ever succeeded. */
  lemma {:induction false} FibHoldsRoutes(c: Config, run: seq<Event>)
    requires ConfigOk(c) && ValidRun(c, run)
    ensures Exec(c, run).fib == Fib.Run(c.fib, UpdatesOf(run)) && Fib.WellPicked(c.fib, UpdatesOf(run))
    ensures Fib.Routes(Exec(c, run).fib) == Fib.RunRoutes(c.fib, UpdatesOf(run))
    ensures |Exec(c, run).fib| == Fib.Additions(c.fib, UpdatesOf(run)) <= c.fib.maxElements
  {
    hide Exec, ValidRun, Step, Sane, Enabled, Fib.Step, Fib.Picks, Fib.Routes, Fib.RunRoutes, Fib.Additions;
    if run == [] {
      Start(c);
    } else {
      var prev, e := run[..|run| - 1], run[|run| - 1];
      Unroll(c, run);
      FibHoldsRoutes(c, prev);
      StepFib(c, Exec(c, prev), e);
      if UpdateOf(e) == [] {
        AppendNothing(UpdatesOf(prev));
      } else {
        Fib.OneMore(c.fib, UpdatesOf(prev), UpdateOf(e)[0]);
      }
    }
    Fib.RunRefinesMultiset(c.fib, UpdatesOf(run));
  }

  // ----- The PIT -----

  /** What an Interest does to the PIT: it enters its name, unless the store can answer it, and
      takes it back if it goes nowhere. */
  function InterestOps(name: Name, port: nat, now: nat, ttl: nat, fate: Fate): seq<Pit.Op> {
    var enter := Pit.Enter(name, port, now, ttl);
    match fate
    case Hit(_) => []
    case NoRoute => [enter, Pit.Leave(name)]
    case Loop => [enter, Pit.Leave(name)]
    case _ => [enter]
  }

  /** What an event does to the PIT: Data removes its name, and drains and purges purge. */
  function PitOpsOf(c: Config, s: State, e: Event): seq<Pit.Op>
    requires Sane(c, s) && Enabled(s, e)
  {
    match e
    case Receive(m, frame, port, now, _, _, _) =>
      (match Classify(frame)
       case Interest(name, offsets) => InterestOps(name, port, now, c.ttl, FateOf(c, s, e, name, offsets))
       case Data(name) => [Pit.Leave(name)]
       case Malformed => [])
    case Drain(now, _) => [Pit.Sweep(now)]
    case Purge(now) => [Pit.Sweep(now)]
    case _ => []
  }

  ghost function PitOps(c: Config, run: seq<Event>): seq<Pit.Op>
    requires ConfigOk(c) && ValidRun(c, run)
  {
    if run == [] then []
    else
      var prev := run[..|run| - 1];
      PitOps(c, prev) + PitOpsOf(c, Exec(c, prev), run[|run| - 1])
  }

  function ApplyAll(d: Pit.Dim, log: Pit.Log, ops: seq<Pit.Op>): Pit.Log
    requires d.buckets > 0
  {
    if ops == [] then log else Pit.Apply(d, ApplyAll(d, log, ops[..|ops| - 1]), ops[|ops| - 1])
  }

  lemma {:induction false} RunMore(d: Pit.Dim, ops: seq<Pit.Op>, more: seq<Pit.Op>)
    requires d.buckets > 0
    ensures Pit.Run(d, ops + more) == ApplyAll(d, Pit.Run(d, ops), more)
  {
    hide Pit.Apply;
    if more == [] {
      assert ops + more == ops;
    } else {
      assert (ops + more)[..|ops + more| - 1] == ops + more[..|more| - 1];
      RunMore(d, ops, more[..|more| - 1]);
    }
  }

  lemma ApplyOne(d: Pit.Dim, log: Pit.Log, op: Pit.Op)
    requires d.buckets > 0
    ensures ApplyAll(d, log, [op]) == Pit.Apply(d, log, op)
  {
    hide Pit.Apply;
    assert [op][..0] == [];
  }

  lemma ApplyTwo(d: Pit.Dim, log: Pit.Log, op: Pit.Op, next: Pit.Op)
    requires d.buckets > 0
    ensures ApplyAll(d, log, [op, next]) == Pit.Apply(d, Pit.Apply(d, log, op), next)
  {
    hide Pit.Apply;
    ApplyOne(d, log, op);
    assert [op, next][..1] == [op];
  }

  lemma InterestApplied(d: Pit.Dim, log: Pit.Log, name: Name, port: nat, now: nat, ttl: nat, fate: Fate)
    requires d.buckets > 0 && Ledger.Fits(d, log, name, port, now + ttl, fate)
    ensures PitAfter(d, log, name, port, now + ttl, fate)
         == ApplyAll(d, log, InterestOps(name, port, now, ttl, fate))
  {
    hide Pit.Update, Pit.Remove, ApplyAll;
    var enter := Pit.Enter(name, port, now, ttl);
    ApplyNone(d, log);
    ApplyOne(d, log, enter);
    ApplyTwo(d, log, enter, Pit.Leave(name));
    Pit.NoSpaceKeeps(d, log, name, port, now + ttl);
  }

  /** What a step makes of the PIT is what its operations make of it. */
  lemma PitOfApplied(c: Config, s: State, e: Event)
    requires Sane(c, s) && Enabled(s, e)
    ensures Ledger.PitOf(c, s, e) == ApplyAll(c.pit, s.pit, PitOpsOf(c, s, e))
  {
    hide PitAfter, InterestOps, FateOf, Classify, WellFormed, Choices, Sane, Enabled, Step, OnInterest, Pit.Update,
      Pit.Remove, Pit.Purge, ApplyAll;
    Ledger.SaneParts(c, s);
    ApplyNone(c.pit, s.pit);
    match e
    case Receive(_, frame, port, now, _, _, _) =>
      match Classify(frame) {
        case Interest(name, offsets) =>
          StepIsInterest(c, s, e, name, offsets);
          Ledger.FateFits(c, s, e, name, offsets);
          InterestApplied(c.pit, s.pit, name, port, now, c.ttl, FateOf(c, s, e, name, offsets));
        case Data(name) => ApplyOne(c.pit, s.pit, Pit.Leave(name));
        case Malformed =>
      }
    case Drain(now, _) => ApplyOne(c.pit, s.pit, Pit.Sweep(now));
    case Purge(now) => ApplyOne(c.pit, s.pit, Pit.Sweep(now));
    case _ =>
  }

  lemma ApplyNone(d: Pit.Dim, log: Pit.Log)
    requires d.buckets > 0
    ensures ApplyAll(d, log, []) == log
  {
  }

  /** After any run the PIT is the outcome of its own operations, and the places that new names
      have taken in its log are those given back at the bottom and those still in use. */
  lemma {:induction false} PitPlacesConserved(c: Config, run: seq<Event>)
    requires ConfigOk(c) && ValidRun(c, run)
    ensures Exec(c, run).pit == Pit.Run(c.pit, PitOps(c, run))
    ensures Pit.Taken(c.pit, PitOps(c, run)) == Pit.GivenBack(c.pit, PitOps(c, run)) + |Exec(c, run).pit|
  {
    hide Exec, ValidRun, Step, Sane, Enabled, PitOpsOf, ApplyAll, Ledger.PitOf, Pit.Run, Pit.Taken, Pit.GivenBack;
    if run == [] {
      Start(c);
      Pit.Empty(c.pit);
    } else {
      var prev, e := run[..|run| - 1], run[|run| - 1];
      Unroll(c, run);
      PitPlacesConserved(c, prev);
      Ledger.StepPit(c, Exec(c, prev), e);
      PitOfApplied(c, Exec(c, prev), e);
      RunMore(c.pit, PitOps(c, prev), PitOpsOf(c, Exec(c, prev), e));
    }
    Pit.PlacesConserved(c.pit, PitOps(c, run));
  }
}
