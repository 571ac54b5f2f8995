/** What every kind of event does to every reachable state, in the terms of the source: the bytes
    of the packet, the contents of the tables, the counters and the bursts. */
module Steps {
  import opened Defs
  import opened Mbufs
  import opened Transmit
  import opened Router
  import opened Runs
  import Delivery
  import Ledger
  import Refcounts
  import Tables
  import Wire
  import Pit = PitSpec
  import Cs = CsSpec
  import Fib = FibSpec

  // ----- Which packets are ICN packets, and what they say -----

  /** Only IPv4 (EtherType 0x0800, read by a little-endian machine) with protocol 253 is ICN. Type 0
      is an Interest and type 1 is Data; the name and the offsets are those in the bytes. */
  lemma ReadsAs(f: Frame)
    ensures f.etherType != 0x0008 || f.proto != 253 ==> Classify(f) == Malformed
    ensures f.etherType == 0x0008 && f.proto == 253 && WellFormed(f) ==>
              && Wire.Readable(f.icn)
              && var pkt, kind, n := f.icn, Classify(f), 256 * (f.icn[9] as int) + (f.icn[10] as int);
                 && (kind.Interest? <==> pkt[0] == 0 && pkt[1] == 0)
                 && (kind.Data? <==> pkt[0] == 0 && pkt[1] == 1)
                 && (kind.Interest? || kind.Data? ==> kind.name == pkt[11..11 + n])
                 && (kind.Interest? ==>
                       && |kind.offsets| == (256 * (pkt[13 + n] as int) + (pkt[14 + n] as int)) / 2
                       && forall k :: 0 <= k < |kind.offsets| ==>
                            kind.offsets[k] == 256 * (pkt[15 + n + 2 * k] as int) + (pkt[15 + n + 2 * k + 1] as int))
  {
    hide Wire.Parse, Wire.Readable;
    if f.etherType == 0x0008 && f.proto == 253 && WellFormed(f) {
      Wire.ParseBytes(f.icn);
    }
  }

  // ----- Malformed packets -----

  /** A packet that is not ICN, or is neither an Interest nor Data, is dropped and counted, and
      nothing else happens. */
  lemma MalformedStep(c: Config, run: seq<Event>, e: Event)
    requires ConfigOk(c) && ValidRun(c, run) && Enabled(Exec(c, run), e) && e.Receive?
    requires || e.frame.etherType != 0x0008 || e.frame.proto != 253
             || (Wire.Readable(e.frame.icn) && (e.frame.icn[0] != 0 || e.frame.icn[1] > 1))
    ensures var s, s' := Exec(c, run), Step(c, Exec(c, run), e);
            && s'.cs == s.cs && s'.pit == s.pit && s'.fib == s.fib && s'.clock == e.now
            && s'.tx.out == s.tx.out && s'.tx.ports == s.tx.ports && s'.tx.drops == s.tx.drops
            && s'.tx.mem.refs == s.tx.mem.refs && s'.tx.mem.nic == s.tx.mem.nic && s'.tx.lost == s.tx.lost
            && s'.stats == s.stats.(malformed := s.stats.malformed + 1)
  {
    hide Exec, ValidRun, Classify;
    ReadsAs(e.frame);
    StepIsMalformed(c, Exec(c, run), e);
  }

  // ----- Interests -----

  /** What becomes of the counters once an Interest has met its fate. */
  lemma CountedByFate(c: Config, s: State, e: Event, n: Name, offsets: seq<nat>)
    requires Sane(c, s) && Enabled(s, e) && e.Receive? && Classify(e.frame) == Interest(n, offsets)
    ensures Fib.Inside(n, offsets) && (Cs.Holds(s.cs, n) ==> e.hit < |s.cs|)
    ensures var fate, st, st' := FateOf(c, s, e, n, offsets), s.stats, Step(c, s, e).stats;
            st' == match fate
                   case Hit(_) =>
                     st.(intRecv := st.intRecv + 1, intCsHit := st.intCsHit + 1, dataSent := st.dataSent + 1)
                   case Overflow => st.(intRecv := st.intRecv + 1, swPktDrop := st.swPktDrop + 1)
                   case Aggregated => st.(intRecv := st.intRecv + 1, intPitHit := st.intPitHit + 1)
                   case NoRoute => st.(intRecv := st.intRecv + 1, intNoRoute := st.intNoRoute + 1)
                   case Loop => st.(intRecv := st.intRecv + 1, intFibLoop := st.intFibLoop + 1)
                   case Forwarded(_) => st.(intRecv := st.intRecv + 1, intFibHit := st.intFibHit + 1)
  {
    hide FateOf, Classify, Step, Sane, Enabled, PitAfter, TxAfter;
    StepIsInterest(c, s, e, n, offsets);
  }

  /** Some route has this very name. */
  predicate Registered(es: Fib.Entries, p: Name) {
    exists j :: 0 <= j < |es| && es[j].Route? && es[j].name == p
  }

  /** The k-th separator is the last one whose prefix has a route, and to this face. */
  ghost predicate RoutedAt(es: Fib.Entries, n: Name, offsets: seq<nat>, k: nat, face: nat)
    requires Fib.Inside(n, offsets) && k < |offsets|
  {
    && Fib.Route(n[..offsets[k] + 1], face) in es
    && forall i :: k < i < |offsets| ==> !Registered(es, n[..offsets[i] + 1])
  }

  /** Which fate an Interest meets that the store cannot answer. */
  lemma MissByTables(d: Pit.Dim, log: Pit.Log, es: Fib.Entries, n: Name, offsets: seq<nat>, port: nat, expiry: nat,
                     at: nat)
    requires Pit.Valid(d, log) && Fib.Inside(n, offsets)
    requires Fib.Answers(es, n, offsets, RouteOf(es, n, offsets, at), at)
    ensures var fate, view := MissFate(d, log, es, n, offsets, port, expiry, at), Pit.View(log);
            if n in view then fate.Aggregated?
            else if |log| == d.capacity || Pit.Crowded(d, view, n) then fate.Overflow?
            else if forall k :: 0 <= k < |offsets| ==> !Registered(es, n[..offsets[k] + 1]) then fate.NoRoute?
            else exists k, face :: 0 <= k < |offsets| && RoutedAt(es, n, offsets, k, face)
                                   && fate == if face == port then Loop else Forwarded(face)
  {
    hide Pit.View, Pit.Update, Pit.Crowded, Pit.Valid, Registered, RoutedAt;
    Pit.UpdateView(d, log, n, port, expiry);
    var best := Fib.Best(es, n, offsets, |offsets|);
    if best >= 0 {
      RoutedAtBest(es, n, offsets, best, at);
    } else {
      NoRouteBelow(es, n, offsets);
    }
  }

  /** Which fate an Interest meets, in terms of what the tables hold. */
  lemma FateByTables(c: Config, s: State, e: Event, n: Name, offsets: seq<nat>)
    requires Sane(c, s) && Enabled(s, e) && e.Receive? && Classify(e.frame) == Interest(n, offsets)
    ensures Fib.Inside(n, offsets) && (Cs.Holds(s.cs, n) ==> e.hit < |s.cs|)
    ensures var fate, view := FateOf(c, s, e, n, offsets), Pit.View(s.pit);
            if exists k :: 0 <= k < |s.cs| && s.cs[k].name == n then fate.Hit?
            else if n in view then fate.Aggregated?
            else if |s.pit| == c.pit.capacity || Pit.Crowded(c.pit, view, n) then fate.Overflow?
            else if forall k :: 0 <= k < |offsets| ==> !Registered(s.fib, n[..offsets[k] + 1]) then fate.NoRoute?
            else exists k, face :: 0 <= k < |offsets| && RoutedAt(s.fib, n, offsets, k, face)
                                   && fate == if face == e.port then Loop else Forwarded(face)
  {
    hide Pit.View, Pit.Crowded, MissFate, Classify, Step, OnInterest, Fib.Answers, RouteOf, Registered, RoutedAt;
    StepIsInterest(c, s, e, n, offsets);
    MissByTables(c.pit, s.pit, s.fib, n, offsets, e.port, e.now + c.ttl, e.at);
  }

  lemma RoutedAtBest(es: Fib.Entries, n: Name, offsets: seq<nat>, best: nat, at: nat)
    requires Fib.Inside(n, offsets) && best == Fib.Best(es, n, offsets, |offsets|)
    requires at < |es| && es[at].Route? && es[at].name == Fib.Prefix(n, offsets[best])
    ensures RoutedAt(es, n, offsets, best, es[at].face) && Registered(es, n[..offsets[best] + 1])
  {
    assert es[at] == Fib.Route(n[..offsets[best] + 1], es[at].face);
    forall i | best < i < |offsets| ensures !Registered(es, n[..offsets[i] + 1]) {
      NotRegistered(es, Fib.Prefix(n, offsets[i]));
    }
  }

  lemma NoRouteBelow(es: Fib.Entries, n: Name, offsets: seq<nat>)
    requires Fib.Inside(n, offsets) && Fib.Best(es, n, offsets, |offsets|) < 0
    ensures forall k :: 0 <= k < |offsets| ==> !Registered(es, n[..offsets[k] + 1])
  {
    forall k | 0 <= k < |offsets| ensures !Registered(es, n[..offsets[k] + 1]) {
      NotRegistered(es, Fib.Prefix(n, offsets[k]));
    }
  }

  lemma NotRegistered(es: Fib.Entries, p: Name)
    requires !Fib.HasRoute(es, p)
    ensures !Registered(es, p)
  {
    if Registered(es, p) {
      var k :| 0 <= k < |es| && es[k].Route? && es[k].name == p;
      assert Fib.IsRoute(es, k, p);
    }
  }

  /** In every reachable state an Interest is counted by what the tables hold: as a hit if the store
      has its name; or else as aggregated if the name is pending; or else as dropped if the log or
      the bucket of the name is full; or else by the last separator whose prefix has a route, as
      one without route, or back to where it came from, or forwarded. */
  lemma InterestStep(c: Config, run: seq<Event>, e: Event, n: Name, offsets: seq<nat>)
    requires ConfigOk(c) && ValidRun(c, run) && Enabled(Exec(c, run), e)
    requires e.Receive? && Classify(e.frame) == Interest(n, offsets)
    ensures Fib.Inside(n, offsets)
    ensures var s, st, st' := Exec(c, run), Exec(c, run).stats, Step(c, Exec(c, run), e).stats;
            if exists k :: 0 <= k < |s.cs| && s.cs[k].name == n then
              st' == st.(intRecv := st.intRecv + 1, intCsHit := st.intCsHit + 1, dataSent := st.dataSent + 1)
            else if n in Pit.View(s.pit) then st' == st.(intRecv := st.intRecv + 1, intPitHit := st.intPitHit + 1)
            else if |s.pit| == c.pit.capacity || Pit.Crowded(c.pit, Pit.View(s.pit), n) then
              st' == st.(intRecv := st.intRecv + 1, swPktDrop := st.swPktDrop + 1)
            else if forall k :: 0 <= k < |offsets| ==> !Registered(s.fib, n[..offsets[k] + 1]) then
              st' == st.(intRecv := st.intRecv + 1, intNoRoute := st.intNoRoute + 1)
            else exists k, face :: 0 <= k < |offsets| && RoutedAt(s.fib, n, offsets, k, face)
                   && st' == if face == e.port then st.(intRecv := st.intRecv + 1, intFibLoop := st.intFibLoop + 1)
                             else st.(intRecv := st.intRecv + 1, intFibHit := st.intFibHit + 1)
  {
    hide Exec, ValidRun, Step, Sane, Enabled, Classify, FateOf, Pit.View, Pit.Crowded, RoutedAt;
    CountedByFate(c, Exec(c, run), e, n, offsets);
    FateByTables(c, Exec(c, run), e, n, offsets);
  }

  /** What an Interest does once it has met its fate. */
  lemma EffectOfFate(c: Config, s: State, e: Event, n: Name, offsets: seq<nat>)
    requires Sane(c, s) && Enabled(s, e) && e.Receive? && Classify(e.frame) == Interest(n, offsets)
    ensures Fib.Inside(n, offsets) && (Cs.Holds(s.cs, n) ==> e.hit < |s.cs|)
    ensures var fate, s' := FateOf(c, s, e, n, offsets), Step(c, s, e);
            var view, view' := Pit.View(s.pit), Pit.View(s'.pit);
            && s'.cs == s.cs && s'.fib == s.fib && s'.clock == e.now && s'.tx.lost == s.tx.lost
            && match fate
               case Hit(data) =>
                 s'.pit == s.pit && s'.tx.out == s.tx.out + [Out(e.port, Pkt(data, FrameOf(s'.tx.mem.frames, data)))]
               case Aggregated =>
                 && n in view && view' == view[n := Pit.Pending(view[n].faces + {e.port}, view[n].expiry)]
                 && s'.tx.out == s.tx.out
               case Forwarded(face) =>
                 && view' == view[n := Pit.Pending({e.port}, e.now + c.ttl)]
                 && s'.tx.out == s.tx.out + [Out(face, Pkt(e.m, e.frame))]
               case _ => view' == view && s'.tx.out == s.tx.out
  {
    hide FateOf, Step, Sane, Choices, WellFormed, Classify, PitAfter, TxAfter, StatsAfter, Pit.View, Ledger.Fits,
      Fib.Inside, Cs.Holds;
    StepIsInterest(c, s, e, n, offsets);
    ArriveSane(c, s, e.m, e.frame, e.now);
    Ledger.SaneParts(c, Arrive(s, e.m, e.frame, e.now));
    var s0, fate := Arrive(s, e.m, e.frame, e.now), FateOf(c, s, e, n, offsets);
    Ledger.FateFits(c, s, e, n, offsets);
    Ledger.PitAfterView(c.pit, s.pit, n, e.port, e.now + c.ttl, fate);
    TxAfterEffect(s0.tx, e.m, e.port, fate, e.acc);
    if fate.Hit? {
      HitLeavesPit(c.pit, s.pit, n, e.port, e.now + c.ttl, fate);
    }
  }

  lemma HitLeavesPit(d: Pit.Dim, log: Pit.Log, n: Name, port: nat, expiry: nat, fate: Fate)
    requires d.buckets > 0 && fate.Hit?
    ensures PitAfter(d, log, n, port, expiry, fate) == log
  {
  }

  /** A hit is some packet of that name in the store. */
  lemma HitInStore(c: Config, s: State, e: Event, n: Name, offsets: seq<nat>)
    requires Sane(c, s) && Enabled(s, e) && e.Receive? && Classify(e.frame) == Interest(n, offsets)
    ensures Fib.Inside(n, offsets) && (Cs.Holds(s.cs, n) ==> e.hit < |s.cs|)
    ensures var fate := FateOf(c, s, e, n, offsets);
            fate.Hit? ==> e.hit < |s.cs| && s.cs[e.hit].name == n && fate.data == s.cs[e.hit].mbuf
  {
    hide Classify, Fib.Answers, RouteOf, Step, OnInterest;
    StepIsInterest(c, s, e, n, offsets);
  }

  /** And what it does to the tables and to transmission. The store and the FIB stay as they are. A
      name that is pending gets one more face, and keeps its expiry; a name that is not becomes
      pending if the Interest is forwarded, and only then. Nothing is queued but a reply from the
      store or the Interest itself. */
  lemma InterestTables(c: Config, run: seq<Event>, e: Event, n: Name, offsets: seq<nat>)
    requires ConfigOk(c) && ValidRun(c, run) && Enabled(Exec(c, run), e)
    requires e.Receive? && Classify(e.frame) == Interest(n, offsets)
    ensures var s, s' := Exec(c, run), Step(c, Exec(c, run), e);
            var view, view' := Pit.View(s.pit), Pit.View(s'.pit);
            && s'.cs == s.cs && s'.fib == s.fib && s'.clock == e.now && s'.tx.lost == s.tx.lost
            && if exists k :: 0 <= k < |s.cs| && s.cs[k].name == n then
                 && s'.pit == s.pit
                 && exists k | 0 <= k < |s.cs| && s.cs[k].name == n ::
                      s'.tx.out == s.tx.out + [Out(e.port, Pkt(s.cs[k].mbuf, FrameOf(s'.tx.mem.frames, s.cs[k].mbuf)))]
               else if n in view then
                 && view' == view[n := Pit.Pending(view[n].faces + {e.port}, view[n].expiry)] && s'.tx.out == s.tx.out
               else
                 || (view' == view && s'.tx.out == s.tx.out)
                 || exists face | face != e.port ::
                      && view' == view[n := Pit.Pending({e.port}, e.now + c.ttl)]
                      && s'.tx.out == s.tx.out + [Out(face, Pkt(e.m, e.frame))]
  {
    hide Exec, ValidRun, Step, Sane, Enabled, Classify, FateOf, Pit.View, Pit.Crowded, Registered, RoutedAt;
    EffectOfFate(c, Exec(c, run), e, n, offsets);
    FateByTables(c, Exec(c, run), e, n, offsets);
    HitInStore(c, Exec(c, run), e, n, offsets);
  }

  // ----- Data -----

  /** The ports of a set, which are what Copies sends to. */
  lemma {:induction false} PortsInAre(faces: set<nat>, k: nat)
    ensures PortsIn(faces, k) == |set p: nat | p < k && p in faces|
  {
    var ports := set p: nat | p < k && p in faces;
    if k > 0 {
      PortsInAre(faces, k - 1);
      var fewer := set p: nat | p < k - 1 && p in faces;
      if k - 1 in faces {
        assert ports == fewer + {k - 1};
      } else {
        assert ports == fewer;
      }
    }
  }

  /** In every reachable state Data is counted as received, and then as sent to each of the ports
      that wait for it, or as a miss if its name is not pending. It settles the name and leaves the
      FIB alone. */
  lemma DataStep(c: Config, run: seq<Event>, e: Event, n: Name)
    requires ConfigOk(c) && ValidRun(c, run) && Enabled(Exec(c, run), e)
    requires e.Receive? && Classify(e.frame) == Data(n)
    ensures var s, s' := Exec(c, run), Step(c, Exec(c, run), e);
            var view, st := Pit.View(s.pit), s.stats;
            && Pit.View(s'.pit) == view - {n} && s'.fib == s.fib && s'.clock == e.now
            && s'.stats == if n in view then
                 st.(dataRecv := st.dataRecv + 1, dataSent := st.dataSent + |set p: nat | p < 10 && p in view[n].faces|)
               else st.(dataRecv := st.dataRecv + 1, dataPitMiss := st.dataPitMiss + 1)
  {
    hide Exec, ValidRun, Classify, Copies, TxStored, Cs.Insert, Pit.View, Pit.Remove, Step, PortsIn;
    var s := Exec(c, run);
    StepIsData(c, s, e, n);
    Pit.RemoveView(c.pit, s.pit, n);
    PortsInAre(Pit.Remove(s.pit, n).1, APP_MAX_ETH_PORTS);
  }

  // ----- Updates of the FIB -----

  /** In every reachable state, a route is added unless its name is empty or starts with a zero byte,
      or there is no room: as many additions as there are places, or seven routes in its bucket. */
  lemma AddStep(c: Config, run: seq<Event>, name: Name, face: nat)
    requires ConfigOk(c) && ValidRun(c, run) && Enabled(Exec(c, run), AddRoute(name, face))
    ensures var s, s' := Exec(c, run), Step(c, Exec(c, run), AddRoute(name, face));
            var load := |set k: nat | k < |s.fib| && s.fib[k].Route?
                                      && c.fib.h(s.fib[k].name) % c.fib.buckets == c.fib.h(name) % c.fib.buckets|;
            && s' == s.(fib := s'.fib)
            && if name == [] || name[0] == 0 || |s.fib| == c.fib.maxElements || load == 7 then s'.fib == s.fib
               else Fib.Routes(s'.fib) == Fib.Routes(s.fib) + multiset{(name, face)}
  {
    hide Exec, ValidRun, React, Fib.Routes, Fib.BucketFull;
    Fib.FullIs(c.fib, Exec(c, run).fib, name);
    Fib.AddedRoutes(c.fib, Exec(c, run).fib, name, face);
  }

  /** In every reachable state, a route is deleted, one copy of it, unless its name is empty or starts
      with a zero byte, or there is no such route. */
  lemma DeleteStep(c: Config, run: seq<Event>, name: Name, face: nat, pick: nat)
    requires ConfigOk(c) && ValidRun(c, run) && Enabled(Exec(c, run), DelRoute(name, face, pick))
    ensures var s, s' := Exec(c, run), Step(c, Exec(c, run), DelRoute(name, face, pick));
            && s' == s.(fib := s'.fib)
            && if name == [] || name[0] == 0 || Fib.Route(name, face) !in s.fib then s'.fib == s.fib
               else Fib.Routes(s'.fib) == Fib.Routes(s.fib) - multiset{(name, face)}
  {
    hide Exec, ValidRun, React, Fib.Routes;
    var s := Exec(c, run);
    if pick < |s.fib| && s.fib[pick] == Fib.Route(name, face) {
      Fib.DeleteRoutes(s.fib, pick);
    }
  }

  // ----- Drains, purges and packets that have been sent -----

  /** What else can happen touches nothing but transmission, the PIT, or the references of the
      packet that the card gives back. */
  lemma QuietStep(c: Config, run: seq<Event>, e: Event)
    requires ConfigOk(c) && ValidRun(c, run) && Enabled(Exec(c, run), e) && (e.Drain? || e.Purge? || e.Transmitted?)
    ensures var s, s' := Exec(c, run), Step(c, Exec(c, run), e);
            && s'.cs == s.cs && s'.fib == s.fib && s'.stats == s.stats
            && s'.tx.out == s.tx.out && s'.tx.lost == s.tx.lost
            && (e.Drain? || e.Purge? ==> s'.clock == e.now)
            && (e.Purge? ==> s'.tx == s.tx)
            && (e.Transmitted? ==>
                  && s'.pit == s.pit && s'.clock == s.clock && s'.tx.ports == s.tx.ports && s'.tx.drops == s.tx.drops
                  && s'.tx.mem.refs == s.tx.mem.refs - multiset{e.m} && s'.tx.mem.nic == s.tx.mem.nic - multiset{e.m})
  {
    hide Exec, ValidRun, React, Drained;
    if e.Drain? {
      DrainedEffect(Exec(c, run).tx, APP_MAX_ETH_PORTS, e.acc);
    }
  }

  // ----- Bursts -----

  lemma TxAfterMoves(t: Tx, m: Mbuf, port: nat, fate: Fate, acc: seq<nat>, p: nat)
    requires port < APP_MAX_ETH_PORTS == |t.ports| && AccOk(acc) && NoneFull(t.ports) && p < |t.ports|
    requires fate.Forwarded? ==> fate.face < APP_MAX_ETH_PORTS
    ensures |TxAfter(t, m, port, fate, acc).ports| == |t.ports|
    ensures Delivery.PortMoves(t, TxAfter(t, m, port, fate, acc), p, acc[p], false)
  {
    hide SendSingle, Delivery.Queued, Delivery.PortMoves;
    var t' := TxAfter(t, m, port, fate, acc);
    match fate
    case Hit(data) =>
      var t1 := Retain(t, data);
      var t2 := SendSingle(t1, data, port, acc[port]);
      Delivery.SingleMoves(t1, data, port, acc[port]);
      Delivery.SameMoves(t, t1, t2, t', p, acc[p]);
    case Forwarded(face) =>
      Delivery.SingleMoves(t, m, face, acc[face]);
      Delivery.SameMoves(t, t, t', t', p, acc[p]);
    case _ => Delivery.RestMoves(t, t', p, acc[p]);
  }

  lemma ReactMoves(c: Config, s: State, e: Event, p: nat)
    requires Sane(c, s) && Handles(s, e) && p < APP_MAX_ETH_PORTS
    ensures |React(c, s, e).tx.ports| == APP_MAX_ETH_PORTS
    ensures Delivery.PortMoves(s.tx, React(c, s, e).tx, p, e.acc[p], false)
  {
    hide Copies, TxAfter, PitAfter, StatsAfter, DataStats, Delivery.PortMoves;
    match Classify(e.frame)
    case Interest(name, offsets) =>
      ForwardedToPort(c, s, e, name, offsets);
      TxAfterMoves(s.tx, e.m, e.port, FateOf(c, s, e, name, offsets), e.acc, p);
    case Data(name) =>
      var stored := Cs.Insert(c.cs, s.cs, Cs.Item(name, e.m)).1;
      var t, faces := TxStored(c.cs, s.cs, s.tx, e.m, stored), Pit.Remove(s.pit, name).1;
      var t' := React(c, s, e).tx;
      Delivery.CopiesMove(t, e.m, faces, APP_MAX_ETH_PORTS, e.acc);
      if faces == {} {
        Delivery.RestMoves(s.tx, t', p, e.acc[p]);
      } else {
        assert Delivery.PortMoves(t, Copies(t, e.m, faces, APP_MAX_ETH_PORTS, e.acc), p, e.acc[p], false);
        Delivery.SameMoves(s.tx, t, t', t', p, e.acc[p]);
      }
    case Malformed => Delivery.RestMoves(s.tx, React(c, s, e).tx, p, e.acc[p]);
  }

  /** Filling a free buffer does not change what waits. */
  lemma ArrivalMoves(q: Cs.Queue, t: Tx, m: Mbuf, frame: Frame, t': Tx, p: nat, k: nat)
    requires p < |t.ports| == |t'.ports| && Refcounts.Owned(q, t, multiset{}) && m !in t.mem.refs
    requires Delivery.PortMoves(Transmit.Receive(t, m, frame), t', p, k, false)
    ensures Delivery.PortMoves(t, t', p, k, false)
  {
    if m in t.ports[p].buf {
      Refcounts.ReachableNotFree(q, t, m);
    }
    assert Tag(t.ports[p].buf, Transmit.Receive(t, m, frame).mem.frames) == Tag(t.ports[p].buf, t.mem.frames);
  }

  /** How much of a burst from a port the card takes in an event. */
  function Taken(e: Event, p: nat): nat {
    if (e.Receive? || e.Drain?) && p < |e.acc| then e.acc[p] else 0
  }

  lemma StillHandles(s: State, e: Event)
    requires Handles(s, e)
    ensures Handles(Arrive(s, e.m, e.frame, e.now), e)
  {
  }

  lemma ReceiveMoves(c: Config, s: State, e: Event, p: nat)
    requires e.Receive? && Sane(c, s) && Enabled(s, e)
    requires Refcounts.Owned(s.cs, s.tx, multiset{}) && p < APP_MAX_ETH_PORTS
    ensures |Step(c, s, e).tx.ports| == APP_MAX_ETH_PORTS
    ensures Delivery.PortMoves(s.tx, Step(c, s, e).tx, p, e.acc[p], false)
  {
    StillHandles(s, e);
    ArriveSane(c, s, e.m, e.frame, e.now);
    hide React, Handles, Delivery.PortMoves, Refcounts.Owned;
    ReactMoves(c, Arrive(s, e.m, e.frame, e.now), e, p);
    ArrivalMoves(s.cs, s.tx, e.m, e.frame, Step(c, s, e).tx, p, e.acc[p]);
  }

  lemma StepMoves(c: Config, s: State, e: Event, p: nat)
    requires Sane(c, s) && Enabled(s, e) && Refcounts.Owned(s.cs, s.tx, multiset{}) && p < APP_MAX_ETH_PORTS
    ensures |Step(c, s, e).tx.ports| == APP_MAX_ETH_PORTS
    ensures Delivery.PortMoves(s.tx, Step(c, s, e).tx, p, Taken(e, p), e.Drain?)
  {
    hide React, Drained, Delivery.PortMoves, Classify, WellFormed, Choices, Refcounts.Owned;
    match e
    case Receive(_, _, _, _, _, _, _) => ReceiveMoves(c, s, e, p);
    case Drain(_, acc) =>
      Delivery.DrainedMoves(s.tx, APP_MAX_ETH_PORTS, acc);
      assert Delivery.PortMoves(s.tx, Drained(s.tx, APP_MAX_ETH_PORTS, acc), p, acc[p], true);
    case _ => Delivery.RestMoves(s.tx, Step(c, s, e).tx, p, 0);
  }

  lemma NothingQueued(c: Config, s: State, e: Event)
    requires Sane(c, s) && Enabled(s, e) && !e.Receive? && !e.Drain?
    ensures Step(c, s, e).tx.out == s.tx.out
  {
  }

  /** In every reachable state and for every port: an event queues at most one packet for it. When
      this makes 32 with what waits, or in a drain when anything waits, one burst of all of these
      is offered; the card takes as many of them as it accepts, from the first on, and the others
      are refused. Otherwise nothing is offered and all of these wait. */
  lemma PortStep(c: Config, run: seq<Event>, e: Event, p: nat)
    requires ConfigOk(c) && ValidRun(c, run) && Enabled(Exec(c, run), e) && p < 10
    ensures var t, t' := Exec(c, run).tx, Step(c, Exec(c, run), e).tx;
            var before, after := Delivery.Queued(t.out, p), Delivery.Queued(t'.out, p);
            && |t.ports| == |t'.ports| == 10 && before <= after && |after| <= |before| + 1
            && var waiting := Tag(t.ports[p].buf, t.mem.frames) + after[|before|..];
               if |waiting| == 32 || (e.Drain? && waiting != []) then
                 && (e.Receive? || e.Drain?) && |e.acc| == 10 && e.acc[p] <= |waiting|
                 && t'.ports[p].bursts == t.ports[p].bursts + [Burst(waiting[..e.acc[p]], waiting[e.acc[p]..])]
                 && t'.ports[p].buf == []
               else
                 t'.ports[p].bursts == t.ports[p].bursts && Tag(t'.ports[p].buf, t'.mem.frames) == waiting
  {
    hide Exec, ValidRun, Step, Delivery.Queued, Refcounts.Owned;
    RefcountsExact(c, run);
    StepMoves(c, Exec(c, run), e, p);
    Ledger.SaneParts(c, Exec(c, run));
    if !e.Receive? && !e.Drain? {
      NothingQueued(c, Exec(c, run), e);
    }
  }

  /** How many packets the card refuses of what an event offers it from a port. */
  function RefusedAt(t: Tx, t': Tx, e: Event, p: nat): int
    requires p < |t.ports|
  {
    var w := |t.ports[p].buf| + |Delivery.Queued(t'.out, p)| - |Delivery.Queued(t.out, p)|;
    if w == 32 || (e.Drain? && w > 0) then w - Taken(e, p) else 0
  }

  function RefusedBelow(t: Tx, t': Tx, e: Event, n: nat): int
    requires n <= |t.ports|
  {
    if n == 0 then 0 else RefusedBelow(t, t', e, n - 1) + RefusedAt(t, t', e, n - 1)
  }

  lemma PortRefuses(t: Tx, t': Tx, e: Event, p: nat)
    requires p < |t.ports| == |t'.ports| && Delivery.PortMoves(t, t', p, Taken(e, p), e.Drain?)
    ensures Delivery.Refusals(t'.ports[p].bursts) == Delivery.Refusals(t.ports[p].bursts) + RefusedAt(t, t', e, p)
  {
    var bursts, bursts' := t.ports[p].bursts, t'.ports[p].bursts;
    if bursts' != bursts {
      assert bursts'[..|bursts|] == bursts;
    }
  }

  lemma {:induction false} PortsRefuse(t: Tx, t': Tx, e: Event, n: nat)
    requires n <= |t.ports| == |t'.ports|
    requires forall p :: 0 <= p < n ==> Delivery.PortMoves(t, t', p, Taken(e, p), e.Drain?)
    ensures Delivery.AllRefusals(t'.ports[..n]) == Delivery.AllRefusals(t.ports[..n]) + RefusedBelow(t, t', e, n)
  {
    if n > 0 {
      hide Delivery.PortMoves, Delivery.Queued, Delivery.Refusals;
      PortsRefuse(t, t', e, n - 1);
      PortRefuses(t, t', e, n - 1);
      assert t.ports[..n][..n - 1] == t.ports[..n - 1] && t'.ports[..n][..n - 1] == t'.ports[..n - 1];
    }
  }

  /** The packets refused over a run, event by event and port by port. */
  ghost function AllRefused(c: Config, run: seq<Event>): int
    requires ConfigOk(c) && ValidRun(c, run)
  {
    if run == [] then 0
    else
      var prev := run[..|run| - 1];
      AllRefused(c, prev) + RefusedBelow(Exec(c, prev).tx, Exec(c, run).tx, run[|run| - 1], |Exec(c, prev).tx.ports|)
  }

  lemma AllRefusedNext(c: Config, run: seq<Event>)
    requires ConfigOk(c) && ValidRun(c, run) && run != []
    ensures var prev := run[..|run| - 1];
            AllRefused(c, run) == AllRefused(c, prev)
              + RefusedBelow(Exec(c, prev).tx, Exec(c, run).tx, run[|run| - 1], |Exec(c, prev).tx.ports|)
  {
    hide Exec, RefusedBelow;
  }

  /** In every reachable state the drop counter is the number of packets that the card refused: of
      each burst, what waited less what the card accepted. */
  lemma {:induction false} DropsExact(c: Config, run: seq<Event>)
    requires ConfigOk(c) && ValidRun(c, run)
    ensures Exec(c, run).tx.drops == AllRefused(c, run)
  {
    hide Exec, ValidRun, Step, Sane, Enabled, Refcounts.Owned, Delivery.PortMoves, RefusedBelow;
    if run == [] {
      Start(c);
    } else {
      Unroll(c, run);
      var prev, e := run[..|run| - 1], run[|run| - 1];
      var t, t' := Exec(c, prev).tx, Exec(c, run).tx;
      DropsExact(c, prev);
      AllRefusedNext(c, run);
      DropsAreRefusals(c, prev);
      DropsAreRefusals(c, run);
      RefcountsExact(c, prev);
      forall p: nat | p < APP_MAX_ETH_PORTS
        ensures |t'.ports| == APP_MAX_ETH_PORTS && Delivery.PortMoves(t, t', p, Taken(e, p), e.Drain?)
      {
        StepMoves(c, Exec(c, prev), e, p);
      }
      PortsRefuse(t, t', e, APP_MAX_ETH_PORTS);
      assert t.ports[..APP_MAX_ETH_PORTS] == t.ports && t'.ports[..APP_MAX_ETH_PORTS] == t'.ports;
    }
  }

  lemma DropsAreRefusals(c: Config, run: seq<Event>)
    requires ConfigOk(c) && ValidRun(c, run)
    ensures Exec(c, run).tx.drops == Delivery.AllRefusals(Exec(c, run).tx.ports)
    ensures |Exec(c, run).tx.ports| == APP_MAX_ETH_PORTS
  {
    hide Exec, ValidRun;
    RunDelivers(c, run);
    Ledger.SaneParts(c, Exec(c, run));
  }

  // ----- What was received -----

  function Interests(run: seq<Event>): nat {
    if run == [] then 0
    else
      var e := run[|run| - 1];
      Interests(run[..|run| - 1]) + if e.Receive? && Classify(e.frame).Interest? then 1 else 0
  }

  function Rejects(run: seq<Event>): nat {
    if run == [] then 0
    else
      var e := run[|run| - 1];
      Rejects(run[..|run| - 1]) + if e.Receive? && Classify(e.frame).Malformed? then 1 else 0
  }

  /** An event that brings Data for a name that is not pending. */
  predicate Misses(log: Pit.Log, e: Event) {
    e.Receive? && Classify(e.frame).Data? && Classify(e.frame).name !in Pit.View(log)
  }

  ghost function Missed(c: Config, run: seq<Event>): nat
    requires ConfigOk(c) && ValidRun(c, run)
  {
    if run == [] then 0
    else
      var prev := run[..|run| - 1];
      Missed(c, prev) + if Misses(Exec(c, prev).pit, run[|run| - 1]) then 1 else 0
  }

  lemma StepReceived(c: Config, run: seq<Event>, e: Event)
    requires ConfigOk(c) && ValidRun(c, run) && Enabled(Exec(c, run), e)
    ensures var s, st, st' := Exec(c, run), Exec(c, run).stats, Step(c, Exec(c, run), e).stats;
            && st'.intRecv == st.intRecv + (if e.Receive? && Classify(e.frame).Interest? then 1 else 0)
            && st'.dataRecv == st.dataRecv + |Tables.ItemOf(e)|
            && st'.dataPitMiss == st.dataPitMiss + (if Misses(s.pit, e) then 1 else 0)
            && st'.malformed == st.malformed + if e.Receive? && Classify(e.frame).Malformed? then 1 else 0
  {
    hide Exec, ValidRun, Step, Sane, Enabled, Classify, FateOf, Pit.View;
    match e
    case Receive(_, frame, _, _, _, _, _) =>
      match Classify(frame) {
        case Interest(n, offsets) => CountedByFate(c, Exec(c, run), e, n, offsets);
        case Data(n) => DataStep(c, run, e, n);
        case Malformed => StepIsMalformed(c, Exec(c, run), e);
      }
    case AddRoute(name, face) => AddStep(c, run, name, face);
    case DelRoute(name, face, pick) => DeleteStep(c, run, name, face, pick);
    case _ => QuietStep(c, run, e);
  }

  /** In terms of the bytes: an IPv4 packet with protocol 253 counts as an Interest if its type is 0,
      as Data if it is 1, and as malformed otherwise; any other packet counts as malformed. */
  lemma TypeCounted(c: Config, run: seq<Event>, e: Event)
    requires ConfigOk(c) && ValidRun(c, run) && Enabled(Exec(c, run), e) && e.Receive?
    ensures var f, st, st' := e.frame, Exec(c, run).stats, Step(c, Exec(c, run), e).stats;
            var icn := f.etherType == 0x0008 && f.proto == 253;
            && (icn ==> |f.icn| >= 11)
            && st'.intRecv == st.intRecv + (if icn && f.icn[0] == 0 && f.icn[1] == 0 then 1 else 0)
            && st'.dataRecv == st.dataRecv + (if icn && f.icn[0] == 0 && f.icn[1] == 1 then 1 else 0)
            && st'.malformed == st.malformed + (if icn && f.icn[0] == 0 && f.icn[1] <= 1 then 0 else 1)
  {
    hide Exec, ValidRun, Step, Classify;
    ReadsAs(e.frame);
    StepReceived(c, run, e);
  }

  /** In every reachable state every packet received is counted as an Interest, as Data or as
      malformed, and the misses are the Data that came for names that were not pending. */
  lemma {:induction false} ReceivedCounted(c: Config, run: seq<Event>)
    requires ConfigOk(c) && ValidRun(c, run)
    ensures var st := Exec(c, run).stats;
            && st.intRecv == Interests(run) && st.dataRecv == |Tables.DataOf(run)| && st.malformed == Rejects(run)
            && st.dataPitMiss == Missed(c, run)
  {
    hide Exec, ValidRun, Step, Sane, Enabled, Classify, Misses, Tables.ItemOf;
    if run == [] {
      Start(c);
    } else {
      Unroll(c, run);
      ReceivedCounted(c, run[..|run| - 1]);
      StepReceived(c, run[..|run| - 1], run[|run| - 1]);
    }
  }
}
