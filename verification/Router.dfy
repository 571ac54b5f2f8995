/**
 The data plane of one core as a state machine: what every received packet, drain, purge and
 FIB update does to the tables and to transmission.

 Time, the number of packets that the network card accepts and the choices the tables leave
 open (which duplicate a CS hit returns, which of several routes a tie picks) come with the
 events.
 */
module Router {
  import opened Defs
  import opened Mbufs
  import opened Transmit
  import Pit = PitSpec
  import Cs = CsSpec
  import Fib = FibSpec
  import Wire

  const ETHER_TYPE_IPv4_BE := 0x0008
  const IPPROTO_ICN := 253

  // ----- Packets -----

  datatype Kind = Interest(name: Name, offsets: seq<nat>) | Data(name: Name) | Malformed

  predicate IsIcn(f: Frame) {
    f.etherType == ETHER_TYPE_IPv4_BE && f.proto == IPPROTO_ICN
  }

  predicate Parses(f: Frame) {
    Wire.Readable(f.icn) && Wire.Parse(f.icn).Some?
  }

  function Classify(f: Frame): Kind {
    if !IsIcn(f) || !Parses(f) then Malformed
    else
      var icn := Wire.Parse(f.icn).value;
      if icn.kind == Wire.TYPE_INTEREST then Interest(icn.name, icn.offsets)
      else if icn.kind == Wire.TYPE_DATA then Data(icn.name)
      else Malformed
  }

  /** A frame that is not ICN, or whose ICN packet fits the fixed-size tables. */
  predicate WellFormed(f: Frame) {
    IsIcn(f) ==>
      && Parses(f)
      && var icn := Wire.Parse(f.icn).value;
         && |icn.name| <= MAX_NAME_LEN
         && |icn.offsets| < MAX_NAME_COMPONENTS
         && Fib.Inside(icn.name, icn.offsets)
  }

  /** A packet that the Scapy layer prints for a chunk name is classified by its type and read
      back with that name; an Interest carries the offsets of exactly its separators. If the tables
      have room for the name and its separators, the router handles the packet. */
  lemma PrintedPacket(l: Wire.Layer, payload: seq<byte>, f: Frame)
    requires |l.name| < 0x1_0000 && l.offsets == Wire.ComputeOffset(l.name) && Wire.Fits(l, payload) && l.pktLen == 0
    requires IsIcn(f) && f.icn == Wire.Packet(l, payload)
    ensures var kind := Classify(f);
            if l.kind == Wire.TYPE_INTEREST then
              kind.Interest? && kind.name == l.name && Fib.SeparatorsOf(l.name, kind.offsets)
            else if l.kind == Wire.TYPE_DATA then kind == Data(l.name)
            else kind == Malformed
    ensures |l.name| <= 33 && |Wire.Separators(l.name)| < 16 ==> WellFormed(f)
  {
    hide Wire.Packet, Wire.Parse, Wire.Readable, Wire.Separators, Fib.SeparatorsOf;
    Wire.ChunkRoundTrip(l, payload);
    Wire.SeparatorsExact(l.name);
    Wire.RoundTrip(l, payload, Wire.AsU16(Wire.Separators(l.name)));
    SeparatorsInside(l.name);
  }

  lemma SeparatorsInside(name: Name)
    ensures Fib.Inside(name, Wire.Separators(name))
  {
    Wire.SeparatorsExact(name);
  }

  // ----- State -----

  /** The counters, apart from that of packets the network card refused, which is in Tx. */
  datatype Stats = Stats(intRecv: nat, intCsHit: nat, intPitHit: nat, intFibHit: nat, intFibLoop: nat, intNoRoute: nat,
                         dataRecv: nat, dataSent: nat, dataPitMiss: nat, swPktDrop: nat, malformed: nat)

  /** clock is the latest time seen. */
  datatype State = State(cs: Cs.Queue, pit: Pit.Log, fib: Fib.Entries, tx: Tx, stats: Stats, clock: nat)

  datatype Config = Config(cs: Cs.Dim, pit: Pit.Dim, fib: Fib.Dim, ttl: nat)

  predicate ConfigOk(c: Config) {
    c.pit.buckets > 0 && c.cs.buckets > 0 && c.cs.capacity > 0 && c.fib.buckets > 0
  }

  const NO_STATS := Stats(0, 0, 0, 0, 0, 0, 0, 0, 0, 0, 0)

  function Init(): State {
    State([], [], [], Transmit.Init(), NO_STATS, 0)
  }

  predicate FacesOk(es: Fib.Entries) {
    forall k :: 0 <= k < |es| && es[k].Route? ==> es[k].face < APP_MAX_ETH_PORTS
  }

  /** The tables are valid, faces are ports and no transmit buffer is left full. */
  predicate Sane(c: Config, s: State) {
    && ConfigOk(c)
    && Cs.Valid(c.cs, s.cs) && Pit.Valid(c.pit, s.pit) && Fib.Valid(c.fib, s.fib)
    && FacesOk(s.fib)
    && NoneFull(s.tx.ports)
  }

  // ----- Events -----

  /** acc[p] is how many packets the card accepts from port p, should a burst go there. hit
      is the place in the queue of the duplicate that a CS hit returns; at, the route that
      FIB lookup picks; pick, the one that a deletion finds. */
  datatype Event =
    | Receive(m: Mbuf, frame: Frame, port: nat, now: nat, hit: nat, at: nat, acc: seq<nat>)
    | Drain(now: nat, acc: seq<nat>)
    | Purge(now: nat)
    | AddRoute(name: Name, face: nat)
    | DelRoute(name: Name, face: nat, pick: nat)
    | Transmitted(m: Mbuf)

  /** The choices that come with an Interest are among those the tables leave open. */
  predicate Choices(s: State, frame: Frame, hit: nat, at: nat)
    requires WellFormed(frame)
  {
    match Classify(frame)
    case Interest(name, offsets) =>
      && (Cs.Holds(s.cs, name) ==> hit < |s.cs| && s.cs[hit].name == name)
      && Fib.Answers(s.fib, name, offsets, RouteOf(s.fib, name, offsets, at), at)
    case _ => true
  }

  /** A packet that the tables have room for, with choices that they leave open. */
  predicate Handles(s: State, e: Event) {
    e.Receive? && e.port < APP_MAX_ETH_PORTS && AccOk(e.acc) && WellFormed(e.frame) && Choices(s, e.frame, e.hit, e.at)
  }

  /** Only a free buffer can be filled, and time does not go back. */
  predicate Enabled(s: State, e: Event) {
    match e
    case Receive(m, _, _, now, _, _, _) => m !in s.tx.mem.refs && s.clock <= now && Handles(s, e)
    case Drain(now, acc) => s.clock <= now && Acceptable(s.tx, acc)
    case Purge(now) => s.clock <= now
    case AddRoute(name, face) => face < APP_MAX_ETH_PORTS
    case DelRoute(name, face, pick) => Fib.BadName(name) || Fib.Picks(s.fib, Fib.Delete(name, face, pick))
    case Transmitted(m) => m in s.tx.mem.nic
  }

  // ----- Interests -----

  function RouteOf(es: Fib.Entries, name: Name, offsets: seq<nat>, at: nat): Option<nat>
    requires Fib.Inside(name, offsets)
  {
    if Fib.Best(es, name, offsets, |offsets|) >= 0 && at < |es| && es[at].Route? then Some(es[at].face) else None
  }

  /** What becomes of an Interest. */
  datatype Fate = Hit(data: Mbuf) | Overflow | Aggregated | NoRoute | Loop | Forwarded(face: nat)

  /** The PIT decides whether the FIB is asked; an Interest is never sent back to the port it
      came from. */
  function MissFate(d: Pit.Dim, log: Pit.Log, es: Fib.Entries, name: Name, offsets: seq<nat>, port: nat, expiry: nat,
                    at: nat): Fate
    requires d.buckets > 0 && Fib.Inside(name, offsets)
  {
    match Pit.Update(d, log, name, port, expiry).1
    case NoSpace => Overflow
    case Aggregated => Aggregated
    case Inserted => RouteFate(RouteOf(es, name, offsets, at), port)
  }

  function RouteFate(route: Option<nat>, port: nat): Fate {
    match route
    case None => NoRoute
    case Some(face) => if face == port then Loop else Forwarded(face)
  }

  /** The store is asked first. */
  function FateOf(c: Config, s: State, e: Event, name: Name, offsets: seq<nat>): Fate
    requires e.Receive? && c.pit.buckets > 0 && Fib.Inside(name, offsets)
    requires Cs.Holds(s.cs, name) ==> e.hit < |s.cs|
  {
    if Cs.Holds(s.cs, name) then Hit(s.cs[e.hit].mbuf)
    else MissFate(c.pit, s.pit, s.fib, name, offsets, e.port, e.now + c.ttl, e.at)
  }

  /** Some choice of route is always open. */
  ghost function AnyRoute(es: Fib.Entries, name: Name, offsets: seq<nat>): (at: nat)
    requires Fib.Inside(name, offsets)
    ensures Fib.Answers(es, name, offsets, RouteOf(es, name, offsets, at), at)
  {
    var best := Fib.Best(es, name, offsets, |offsets|);
    if best < 0 then 0
    else
      var k :| 0 <= k < |es| && Fib.IsRoute(es, k, Fib.Prefix(name, offsets[best]));
      k
  }

  /** The new PIT entry of an Interest that goes nowhere is withdrawn. */
  function PitAfter(d: Pit.Dim, log: Pit.Log, name: Name, port: nat, expiry: nat, fate: Fate): Pit.Log
    requires d.buckets > 0
  {
    match fate
    case Hit(_) => log
    case Overflow => log
    case Aggregated => Pit.Update(d, log, name, port, expiry).0
    case Forwarded(_) => Pit.Update(d, log, name, port, expiry).0
    case NoRoute => Pit.Remove(Pit.Update(d, log, name, port, expiry).0, name).0
    case Loop => Pit.Remove(Pit.Update(d, log, name, port, expiry).0, name).0
  }

  /** A reply from the store takes a reference of its own, and the Interest is dropped. */
  function Replied(t: Tx, m: Mbuf, data: Mbuf, port: nat, acc: seq<nat>): Tx
    requires port < APP_MAX_ETH_PORTS == |t.ports| && AccOk(acc)
  {
    Free(SendSingle(Retain(t, data), data, port, acc[port]), m)
  }

  /** An Interest is dropped unless it is forwarded. */
  function TxAfter(t: Tx, m: Mbuf, port: nat, fate: Fate, acc: seq<nat>): Tx
    requires port < APP_MAX_ETH_PORTS == |t.ports| && AccOk(acc)
    requires fate.Forwarded? ==> fate.face < APP_MAX_ETH_PORTS
  {
    match fate
    case Hit(data) => Replied(t, m, data, port, acc)
    case Forwarded(face) => SendSingle(t, m, face, acc[face])
    case _ => Free(t, m)
  }

  function StatsAfter(st: Stats, fate: Fate): Stats {
    match fate
    case Hit(_) => st.(intCsHit := st.intCsHit + 1, dataSent := st.dataSent + 1)
    case Overflow => st.(swPktDrop := st.swPktDrop + 1)
    case Aggregated => st.(intPitHit := st.intPitHit + 1)
    case NoRoute => st.(intNoRoute := st.intNoRoute + 1)
    case Loop => st.(intFibLoop := st.intFibLoop + 1)
    case Forwarded(_) => st.(intFibHit := st.intFibHit + 1)
  }

  /** What the PIT, transmission and the counters are once an Interest has met its fate. */
  predicate Settled(c: Config, s: State, m: Mbuf, name: Name, port: nat, now: nat, acc: seq<nat>, fate: Fate,
                    log: Pit.Log, t: Tx, st: Stats)
    requires c.pit.buckets > 0 && port < APP_MAX_ETH_PORTS == |s.tx.ports| && AccOk(acc)
  {
    && (fate.Forwarded? ==> fate.face < APP_MAX_ETH_PORTS)
    && log == PitAfter(c.pit, s.pit, name, port, now + c.ttl, fate)
    && t == TxAfter(s.tx, m, port, fate, acc)
    && st == StatsAfter(s.stats, fate)
  }

  /** The fates that the PIT decides. */
  lemma Unrouted(c: Config, s: State, m: Mbuf, name: Name, offsets: seq<nat>, port: nat, now: nat, acc: seq<nat>,
                 at: nat)
    requires c.pit.buckets > 0 && Fib.Inside(name, offsets) && port < APP_MAX_ETH_PORTS == |s.tx.ports| && AccOk(acc)
    requires !Pit.Update(c.pit, s.pit, name, port, now + c.ttl).1.Inserted?
    ensures var (log, r) := Pit.Update(c.pit, s.pit, name, port, now + c.ttl);
            var fate := if r.NoSpace? then Overflow else Aggregated;
            && fate == MissFate(c.pit, s.pit, s.fib, name, offsets, port, now + c.ttl, at)
            && Settled(c, s, m, name, port, now, acc, fate, log, Free(s.tx, m),
                       if r.NoSpace? then s.stats.(swPktDrop := s.stats.swPktDrop + 1)
                       else s.stats.(intPitHit := s.stats.intPitHit + 1))
  {
  }

  /** The fates that the FIB decides. */
  lemma Routed(c: Config, s: State, m: Mbuf, name: Name, offsets: seq<nat>, port: nat, now: nat, acc: seq<nat>,
               found: Option<nat>, at: nat)
    requires c.pit.buckets > 0 && Fib.Inside(name, offsets) && port < APP_MAX_ETH_PORTS == |s.tx.ports| && AccOk(acc)
    requires Pit.Update(c.pit, s.pit, name, port, now + c.ttl).1.Inserted?
    requires Fib.Answers(s.fib, name, offsets, found, at)
    requires found.Some? ==> found.value < APP_MAX_ETH_PORTS
    ensures var fate, log := RouteFate(found, port), Pit.Update(c.pit, s.pit, name, port, now + c.ttl).0;
            && fate == MissFate(c.pit, s.pit, s.fib, name, offsets, port, now + c.ttl, at)
            && found == RouteOf(s.fib, name, offsets, at)
            && if found.Some? && found.value != port then
                 Settled(c, s, m, name, port, now, acc, fate, log, SendSingle(s.tx, m, found.value, acc[found.value]),
                         s.stats.(intFibHit := s.stats.intFibHit + 1))
               else
                 Settled(c, s, m, name, port, now, acc, fate, Pit.Remove(log, name).0, Free(s.tx, m),
                         if found.None? then s.stats.(intNoRoute := s.stats.intNoRoute + 1)
                         else s.stats.(intFibLoop := s.stats.intFibLoop + 1))
  {
    hide SendSingle, Free, Pit.Remove, Pit.Update;
  }

  /** The fate that the store decides. */
  lemma Answered(c: Config, s: State, m: Mbuf, name: Name, port: nat, now: nat, acc: seq<nat>, data: Mbuf)
    requires c.pit.buckets > 0 && port < APP_MAX_ETH_PORTS == |s.tx.ports| && AccOk(acc)
    ensures Settled(c, s, m, name, port, now, acc, Hit(data), s.pit, Replied(s.tx, m, data, port, acc),
                    s.stats.(intCsHit := s.stats.intCsHit + 1, dataSent := s.stats.dataSent + 1))
  {
    hide Replied;
  }

  lemma ForwardedToPort(c: Config, s: State, e: Event, name: Name, offsets: seq<nat>)
    requires e.Receive? && c.pit.buckets > 0 && Fib.Inside(name, offsets) && FacesOk(s.fib)
    requires Cs.Holds(s.cs, name) ==> e.hit < |s.cs|
    ensures var fate := FateOf(c, s, e, name, offsets);
            fate.Forwarded? ==> fate.face < APP_MAX_ETH_PORTS
  {
  }

  // ----- Data -----

  /** The store keeps the reference that came with the packet, and drops its oldest packet to
      make room. When the bucket of the name is full the packet is not stored, and nobody ever
      gives that reference up. */
  function TxStored(d: Cs.Dim, q: Cs.Queue, t: Tx, m: Mbuf, stored: bool): Tx {
    if stored then t.(mem := t.mem.(refs := t.mem.refs - Cs.Gone(d, q))) else t.(lost := t.lost + multiset{m})
  }

  function DataStats(st: Stats, faces: set<nat>): Stats {
    if faces == {} then st.(dataPitMiss := st.dataPitMiss + 1)
    else st.(dataSent := st.dataSent + PortsIn(faces, APP_MAX_ETH_PORTS))
  }

  // ----- Steps -----

  function OnInterest(c: Config, s: State, e: Event, name: Name, offsets: seq<nat>, fate: Fate): State
    requires e.Receive? && c.pit.buckets > 0 && AccOk(e.acc) && e.port < APP_MAX_ETH_PORTS == |s.tx.ports|
    requires fate.Forwarded? ==> fate.face < APP_MAX_ETH_PORTS
  {
    s.(pit := PitAfter(c.pit, s.pit, name, e.port, e.now + c.ttl, fate),
       tx := TxAfter(s.tx, e.m, e.port, fate, e.acc),
       stats := StatsAfter(s.stats.(intRecv := s.stats.intRecv + 1), fate))
  }

  /** Data goes to the store first, asked for or not, and then to the ports that wait for it. */
  function OnData(c: Config, s: State, m: Mbuf, name: Name, acc: seq<nat>): State
    requires c.cs.buckets > 0 && AccOk(acc) && |s.tx.ports| == APP_MAX_ETH_PORTS
  {
    var (q, stored) := Cs.Insert(c.cs, s.cs, Cs.Item(name, m));
    var (log, faces) := Pit.Remove(s.pit, name);
    var t := TxStored(c.cs, s.cs, s.tx, m, stored);
    s.(cs := q, pit := log,
       tx := if faces == {} then t else Copies(t, m, faces, APP_MAX_ETH_PORTS, acc),
       stats := DataStats(s.stats.(dataRecv := s.stats.dataRecv + 1), faces))
  }

  /** What the tables, transmission and the counters are once Data has been handled. */
  predicate Served(c: Config, s: State, m: Mbuf, name: Name, acc: seq<nat>, q: Cs.Queue, log: Pit.Log, t: Tx, st: Stats)
    requires c.cs.buckets > 0 && AccOk(acc) && |s.tx.ports| == APP_MAX_ETH_PORTS
  {
    OnData(c, s, m, name, acc) == s.(cs := q, pit := log, tx := t, stats := st)
  }

  lemma DataServed(c: Config, s: State, m: Mbuf, name: Name, acc: seq<nat>, q: Cs.Queue, log: Pit.Log, t: Tx, st: Stats)
    requires c.cs.buckets > 0 && AccOk(acc) && |s.tx.ports| == APP_MAX_ETH_PORTS
    requires q == Cs.Insert(c.cs, s.cs, Cs.Item(name, m)).0 && log == Pit.Remove(s.pit, name).0
    requires var stored := TxStored(c.cs, s.cs, s.tx, m, Cs.Insert(c.cs, s.cs, Cs.Item(name, m)).1);
             var faces := Pit.Remove(s.pit, name).1;
             && t == (if faces == {} then stored else Copies(stored, m, faces, APP_MAX_ETH_PORTS, acc))
             && st == DataStats(s.stats.(dataRecv := s.stats.dataRecv + 1), faces)
    ensures Served(c, s, m, name, acc, q, log, t, st)
  {
    hide Copies, DataStats;
  }

  function OnMalformed(s: State, m: Mbuf): State {
    s.(tx := Free(s.tx, m), stats := s.stats.(malformed := s.stats.malformed + 1))
  }

  function Arrive(s: State, m: Mbuf, frame: Frame, now: nat): State {
    s.(tx := Transmit.Receive(s.tx, m, frame), clock := now)
  }

  /** What the router does with a packet that has arrived. */
  function React(c: Config, s: State, e: Event): State
    requires Sane(c, s) && Handles(s, e)
  {
    match Classify(e.frame)
    case Interest(name, offsets) =>
      ForwardedToPort(c, s, e, name, offsets);
      OnInterest(c, s, e, name, offsets, FateOf(c, s, e, name, offsets))
    case Data(name) => OnData(c, s, e.m, name, e.acc)
    case Malformed => OnMalformed(s, e.m)
  }

  /** The reactions in terms of what becomes of the tables, transmission and the counters. */
  lemma ReactInterest(c: Config, s: State, e: Event, name: Name, offsets: seq<nat>, fate: Fate, log: Pit.Log, t: Tx,
                      st: Stats)
    requires Sane(c, s) && Handles(s, e) && Classify(e.frame) == Interest(name, offsets)
    requires fate == FateOf(c, s, e, name, offsets)
    requires Settled(c, s.(stats := s.stats.(intRecv := s.stats.intRecv + 1)), e.m, name, e.port, e.now, e.acc, fate,
                     log, t, st)
    ensures React(c, s, e) == s.(pit := log, tx := t, stats := st)
  {
    hide PitAfter, TxAfter, StatsAfter, MissFate, Classify, WellFormed, Choices;
  }

  lemma ReactData(c: Config, s: State, e: Event, name: Name, q: Cs.Queue, log: Pit.Log, t: Tx, st: Stats)
    requires Sane(c, s) && Handles(s, e) && Classify(e.frame) == Data(name)
    requires Served(c, s, e.m, name, e.acc, q, log, t, st)
    ensures React(c, s, e) == s.(cs := q, pit := log, tx := t, stats := st)
  {
    hide OnData, Classify, WellFormed;
  }

  lemma ReactMalformed(c: Config, s: State, e: Event)
    requires Sane(c, s) && Handles(s, e) && Classify(e.frame) == Malformed
    ensures React(c, s, e) == s.(tx := Free(s.tx, e.m), stats := s.stats.(malformed := s.stats.malformed + 1))
  {
    hide Classify, WellFormed, Free;
  }

  /** What makes the choices of an event good. */
  lemma HandlesInterest(c: Config, s: State, e: Event, name: Name, offsets: seq<nat>)
    requires e.Receive? && e.port < APP_MAX_ETH_PORTS && AccOk(e.acc) && WellFormed(e.frame)
    requires c.pit.buckets > 0 && Classify(e.frame) == Interest(name, offsets)
    requires Cs.Holds(s.cs, name) ==> e.hit < |s.cs| && s.cs[e.hit].name == name
    requires Fib.Answers(s.fib, name, offsets, RouteOf(s.fib, name, offsets, e.at), e.at)
    ensures Handles(s, e)
  {
    hide Classify, WellFormed, Fib.Answers, RouteOf;
  }

  lemma HandlesOther(s: State, e: Event)
    requires e.Receive? && e.port < APP_MAX_ETH_PORTS && AccOk(e.acc) && WellFormed(e.frame)
    requires !Classify(e.frame).Interest?
    ensures Handles(s, e)
  {
    hide Classify, WellFormed;
  }

  lemma AddsRoute(c: Config, s: State, name: Name, face: nat, es: Fib.Entries)
    requires Sane(c, s) && face < APP_MAX_ETH_PORTS
    requires es == if Fib.BadName(name) then s.fib else Fib.Add(c.fib, s.fib, name, face).0
    ensures Enabled(s, AddRoute(name, face)) && Step(c, s, AddRoute(name, face)) == s.(fib := es)
  {
  }

  lemma DeletesRoute(c: Config, s: State, name: Name, face: nat, pick: nat, es: Fib.Entries, done: bool)
    requires Sane(c, s)
    requires done <==> !Fib.BadName(name) && Fib.Route(name, face) in s.fib
    requires if done then pick < |s.fib| && s.fib[pick] == Fib.Route(name, face) && es == Fib.DeleteAt(s.fib, pick)
             else es == s.fib
    ensures Enabled(s, DelRoute(name, face, pick)) && Step(c, s, DelRoute(name, face, pick)) == s.(fib := es)
  {
  }

  function Step(c: Config, s: State, e: Event): State
    requires Sane(c, s) && Enabled(s, e)
  {
    match e
    case Receive(m, frame, _, now, _, _, _) => React(c, Arrive(s, m, frame, now), e)
    case Drain(now, acc) => s.(tx := Drained(s.tx, APP_MAX_ETH_PORTS, acc), pit := Pit.Purge(s.pit, now), clock := now)
    case Purge(now) => s.(pit := Pit.Purge(s.pit, now), clock := now)
    case AddRoute(name, face) => if Fib.BadName(name) then s else s.(fib := Fib.Add(c.fib, s.fib, name, face).0)
    case DelRoute(name, face, pick) =>
      if Fib.BadName(name) then s else s.(fib := Fib.Step(c.fib, s.fib, Fib.Delete(name, face, pick)).0)
    case Transmitted(m) => s.(tx := Sent(s.tx, m))
  }
}
