/** The packet loop of one core, over its tables and transmit buffers. */
module DataPlane {
  import opened Defs
  import opened Mbufs
  import opened Polling
  import opened Router
  import opened Wire
  import Cs
  import CsSpec
  import Delay
  import Delivery
  import FaceMask
  import Fib
  import FibHashTable
  import FibSpec
  import Ledger
  import Pit
  import PitSpec
  import Refcounts
  import Runs
  import Tables
  import Transmit
  import Transmitter

  class DataPlane {
    const hash: Hash
    const cs: Cs.Cs
    const pit: Pit.Pit
    const fib: Fib.Fib
    const tx: Transmitter.Transmitter
    var stats: Stats
    ghost var clock: nat
    /** Every step taken so far. */
    ghost var history: seq<Event>

    ghost function Config(): Router.Config
      reads pit`ttl
    {
      Router.Config(cs.Dim(), pit.Dim(), fib.table.Dim(), pit.ttl)
    }

    /** The tables are valid, hash alike and share no memory. */
    ghost predicate Parts()
      reads cs, cs.table, cs.ring, pit, pit.table, pit.ring
      reads fib, fib.table, fib.table.htbl, fib.table.fwdTable, tx, tx.txMbufs
    {
      && cs.Valid() && pit.Valid() && fib.Valid() && tx.Shaped()
      && cs.hash == pit.hash == fib.hash == hash
      && cs.table != pit.table && cs.table != fib.table.htbl && pit.table != fib.table.htbl
    }

    ghost function State(): Router.State
      requires Parts()
      reads this`stats, this`clock, cs, cs.table, cs.ring, pit, pit.table, pit.ring
      reads fib, fib.table, fib.table.htbl, fib.table.fwdTable, tx, tx.txMbufs, tx.pool
    {
      Router.State(cs.Queue(), pit.Log(), fib.table.Entries(), tx.View(), stats, clock)
    }

    /** The object is in a given state. */
    ghost predicate Is(c: Router.Config, s: Router.State)
      reads this`stats, this`clock, cs, cs.table, cs.ring, pit, pit.table, pit.ring
      reads fib, fib.table, fib.table.htbl, fib.table.fwdTable, tx, tx.txMbufs, tx.pool
    {
      Parts() && Config() == c && State() == s
    }

    /** What the fields say of the state. */
    lemma Seen(c: Router.Config, s: Router.State)
      requires Is(c, s)
      ensures tx.pool.refs == s.tx.mem.refs && tx.pool.nic == s.tx.mem.nic && clock == s.clock
    {
    }

    /** Exact reference counts in the state are exact in the transmitter. */
    lemma Held(c: Router.Config, s: Router.State)
      requires Is(c, s) && Sane(c, s) && Refcounts.Owned(s.cs, s.tx, multiset{})
      ensures tx.Owns(s.cs, multiset{})
    {
      hide Pit.Pit.Valid, Pit.Pit.Log, Cs.Cs.Valid, Cs.Cs.Queue, FibHashTable.FibHashTable.Valid,
           FibHashTable.FibHashTable.Entries, Transmitter.PortsOf, Refcounts.Owned;
    }

    /** The state is the one that the steps so far lead to. */
    ghost predicate Valid()
      reads this, cs, cs.table, cs.ring, pit, pit.table, pit.ring
      reads fib, fib.table, fib.table.htbl, fib.table.fwdTable, tx, tx.txMbufs, tx.pool
    {
      ConfigOk(Config()) && Runs.ValidRun(Config(), history) && Is(Config(), Runs.Exec(Config(), history))
    }

    /** What the object keeps through any sequence of calls. References are exact; every port sends
        what was queued for it, in order and unaltered; the counters balance; no port gets more
        Data of a name than it has asked for, and every Interest is accounted for; a name has been
        forwarded as often as its entry was satisfied or expired, plus one if it is pending; the
        store holds the newest Data that it accepted; and the FIB holds the routes added and not
        deleted. */
    lemma Keeps(n: Name, p: nat)
      requires Valid()
      ensures Parts() && Refcounts.Owned(cs.Queue(), tx.View(), multiset{})
      ensures Delivery.Delivers(tx.View()) && Runs.Genuine(cs.Queue(), tx.pool.frames)
      ensures Ledger.Counted(State())
      ensures Ledger.DataTo(tx.out, n, p) + Ledger.Bit(Ledger.Waits(pit.Log(), n, p)) <= Ledger.Asked(history, n, p)
      ensures p < APP_MAX_ETH_PORTS ==>
                Ledger.Asked(history, n, p)
                == Ledger.DataTo(tx.out, n, p) + Ledger.Bit(Ledger.Waits(pit.Log(), n, p))
                   + Ledger.AllUnserved(Config(), history, n, p)
      ensures Ledger.Forwards(tx.out, n)
           == Ledger.Satisfied(Config(), history, n) + Ledger.Expired(Config(), history, n)
              + Ledger.Bit(n in PitSpec.View(pit.Log()))
      ensures cs.Queue() == CsSpec.Newest(CsSpec.Accepted(Config().cs, Tables.DataOf(history)), Config().cs.capacity)
      ensures FibSpec.Routes(fib.table.Entries()) == FibSpec.RunRoutes(Config().fib, Tables.UpdatesOf(history))
    {
      hide Pit.Pit.Valid, Pit.Pit.Log, Cs.Cs.Valid, Cs.Cs.Queue, FibHashTable.FibHashTable.Valid,
           FibHashTable.FibHashTable.Entries, Transmitter.PortsOf, Refcounts.Owned, Delivery.Delivers, Runs.Genuine,
           Ledger.Counted, Ledger.DataTo, Ledger.Waits, Ledger.Asked, Ledger.Forwards, Ledger.Satisfied, Ledger.Expired,
           Ledger.AllUnserved, PitSpec.View, Runs.Exec, CsSpec.Newest, CsSpec.Accepted, FibSpec.Routes,
           FibSpec.RunRoutes;
      Tables.StoreHoldsNewest(Config(), history);
      Tables.FibHoldsRoutes(Config(), history);
      Runs.RefcountsExact(Config(), history);
      Runs.RunDelivers(Config(), history);
      Ledger.RunCounted(Config(), history);
      Ledger.NoUnsolicitedData(Config(), history, n, p);
      if p < APP_MAX_ETH_PORTS {
        Ledger.InterestsAccounted(Config(), history, n, p);
      }
      Ledger.AggregationExact(Config(), history, n);
    }

    constructor (hash: Hash, csBuckets: nat, csElements: nat, pitBuckets: nat, pitElements: nat, ttl: nat,
                 fibBuckets: nat, fibElements: nat)
      requires csBuckets > 0 && csElements > 0 && pitBuckets > 0 && pitElements > 0 && fibBuckets > 0
      ensures Valid()
      ensures Config() == Router.Config(CsSpec.Dim(hash, csBuckets, csElements),
                                        PitSpec.Dim(hash, pitBuckets, pitElements),
                                        FibSpec.Dim(hash, fibBuckets, fibElements), ttl)
      ensures history == []
    {
      hide Pit.Pit.Valid, Pit.Pit.Log, Cs.Cs.Valid, Cs.Cs.Queue, FibHashTable.FibHashTable.Valid,
           FibHashTable.FibHashTable.Entries, Transmitter.PortsOf, Transmit.Init, Runs.Exec,
           Runs.ValidRun, Router.Step, Router.Sane, Transmit.NoneFull, Refcounts.Owned, CsSpec.Valid, PitSpec.Valid,
           FibSpec.Valid, FacesOk, Router.Enabled;
      this.hash := hash;
      cs := new Cs.Cs(hash, csBuckets, csElements);
      pit := new Pit.Pit(hash, pitBuckets, pitElements, ttl);
      fib := new Fib.Fib(hash, fibBuckets, fibElements);
      tx := new Transmitter.Transmitter();
      stats := NO_STATS;
      clock := 0;
      history := [];
      new;
      assert Parts();
      assert State() == Router.State([], [], [], Transmit.Init(), NO_STATS, 0);
      Runs.Start(Config());
    }

    // ----- Interests -----

    /** Replies to an Interest with a packet of the store, and drops the Interest. */
    method Reply(ghost q: CsSpec.Queue, m: Mbuf, data: Mbuf, port: nat, acc: seq<nat>)
      requires tx.Owns(q, multiset{m}) && data in Refcounts.CsRefs(q)
      requires port < APP_MAX_ETH_PORTS && Transmit.AccOk(acc)
      modifies this`stats, tx, tx.txMbufs, tx.pool
      ensures tx.Owns(q, multiset{})
      ensures tx.View() == Replied(old(tx.View()), m, data, port, acc)
      ensures stats == old(stats).(intCsHit := old(stats).intCsHit + 1, dataSent := old(stats).dataSent + 1)
    {
      hide Transmit.SendSingle, Transmit.Free, Transmit.Retain, Transmit.NoneFull, Transmitter.PortsOf, Refcounts.Owned;
      stats := stats.(intCsHit := stats.intCsHit + 1);
      Refcounts.KeptNotFree(q, tx.View(), data, multiset{m});
      tx.SendCopy(q, data, port, acc[port], multiset{m});
      stats := stats.(dataSent := stats.dataSent + 1);
      tx.Drop(q, m);
    }

    /** An Interest that the store cannot answer. The PIT comes first: a pending name is not
        forwarded again, and without room the Interest is dropped. A new entry is withdrawn when
        the FIB knows no way on. */
    method Miss(ghost c: Router.Config, ghost s: Router.State, ghost offsets: seq<nat>,
                m: Mbuf, icn: IcnPacket, port: nat, now: nat, rnd: nat, acc: seq<nat>, crc: nat)
      returns (ghost fate: Fate, ghost at: nat)
      requires Parts() && c == Config() && ConfigOk(c) && s == State() && FacesOk(s.fib) && tx.Owns(s.cs, multiset{m})
      requires Small(icn) && offsets == GetAll(icn.componentOffsets) && crc == hash(icn.name)
      requires port < APP_MAX_ETH_PORTS && Transmit.AccOk(acc)
      modifies this`stats, pit`top, pit`bottom, pit.table, pit.ring, icn.crc
      modifies tx, tx.txMbufs, tx.pool
      ensures pit.Valid() && tx.Owns(s.cs, multiset{})
      ensures FibSpec.Answers(s.fib, icn.name, offsets, RouteOf(s.fib, icn.name, offsets, at), at)
      ensures fate == MissFate(c.pit, s.pit, s.fib, icn.name, offsets, port, now + c.ttl, at)
      ensures Settled(c, s, m, icn.name, port, now, acc, fate, pit.Log(), tx.View(), stats)
    {
      hide Pit.Pit.Valid, Pit.Pit.Log, Cs.Cs.Valid, Cs.Cs.Queue, FibHashTable.FibHashTable.Valid,
           FibHashTable.FibHashTable.Entries, Transmit.SendSingle, Transmit.Free, FibSpec.Answers,
           PitSpec.Remove, PitSpec.Update, Transmit.NoneFull, Refcounts.Owned, Transmitter.PortsOf, CsSpec.Valid,
           PitSpec.Valid, FibSpec.Valid, Router.FacesOk, Router.MissFate, Router.Settled, Router.RouteFate,
           Router.RouteOf, Wire.GetAll, FibSpec.Inside, FibSpec.Best;
      at := AnyRoute(s.fib, icn.name, offsets);
      var r := pit.LookupAndUpdate(icn.name, port, now, crc);
      assert (pit.Log(), r) == PitSpec.Update(c.pit, s.pit, icn.name, port, now + c.ttl);
      if r == PitSpec.Inserted {
        var found;
        found, at := Route(s.cs, m, icn, port, rnd, acc, crc);
        fate := RouteFate(found, port);
        Routed(c, s, m, icn.name, offsets, port, now, acc, found, at);
        assert Settled(c, s, m, icn.name, port, now, acc, fate, pit.Log(), tx.View(), stats);
        return;
      }
      if r == PitSpec.NoSpace {
        stats := stats.(swPktDrop := stats.swPktDrop + 1);
        fate := Overflow;
      } else {
        stats := stats.(intPitHit := stats.intPitHit + 1);
        fate := Aggregated;
      }
      tx.Drop(s.cs, m);
      Unrouted(c, s, m, icn.name, offsets, port, now, acc, at);
      assert Settled(c, s, m, icn.name, port, now, acc, fate, pit.Log(), tx.View(), stats);
    }

    /** An Interest: the store is asked first. */
    method OnInterest(ghost c: Router.Config, ghost s: Router.State, ghost offsets: seq<nat>,
                    m: Mbuf, icn: IcnPacket, port: nat, now: nat, rnd: nat, acc: seq<nat>, crc: nat)
      returns (ghost fate: Fate, ghost hit: nat, ghost at: nat)
      requires Parts() && c == Config() && ConfigOk(c) && s == State() && FacesOk(s.fib) && tx.Owns(s.cs, multiset{m})
      requires Small(icn) && offsets == GetAll(icn.componentOffsets) && crc == hash(icn.name)
      requires port < APP_MAX_ETH_PORTS && Transmit.AccOk(acc)
      modifies this`stats, pit`top, pit`bottom, pit.table, pit.ring, icn.crc
      modifies tx, tx.txMbufs, tx.pool
      ensures pit.Valid() && tx.Owns(s.cs, multiset{})
      ensures CsSpec.Holds(s.cs, icn.name) ==> hit < |s.cs| && s.cs[hit].name == icn.name
      ensures FibSpec.Answers(s.fib, icn.name, offsets, RouteOf(s.fib, icn.name, offsets, at), at)
      ensures fate == if CsSpec.Holds(s.cs, icn.name) then Hit(s.cs[hit].mbuf)
                      else MissFate(c.pit, s.pit, s.fib, icn.name, offsets, port, now + c.ttl, at)
      ensures Settled(c, s, m, icn.name, port, now, acc, fate, pit.Log(), tx.View(), stats)
    {
      hide Pit.Pit.Valid, Pit.Pit.Log, Cs.Cs.Valid, Cs.Cs.Queue, FibHashTable.FibHashTable.Valid,
           FibHashTable.FibHashTable.Entries, Transmitter.PortsOf, FibSpec.Answers,
           Router.Replied, Transmit.NoneFull, Refcounts.Owned,
           Router.MissFate, Router.Settled, Router.RouteOf, Wire.GetAll, FibSpec.Inside, FibSpec.Best, CsSpec.Holds;
      var data := cs.Lookup(icn.name, crc);
      if data.Some? {
        hit :| hit < |s.cs| && s.cs[hit] == CsSpec.Item(icn.name, data.value);
        assert Refcounts.MbufsOf(s.cs)[hit] == data.value;
        Reply(s.cs, m, data.value, port, acc);
        at := AnyRoute(s.fib, icn.name, offsets);
        fate := Hit(data.value);
        assert pit.Log() == s.pit && tx.View() == Replied(s.tx, m, data.value, port, acc);
        assert stats == s.stats.(intCsHit := s.stats.intCsHit + 1, dataSent := s.stats.dataSent + 1);
        Answered(c, s, m, icn.name, port, now, acc, data.value);
      } else {
        hit := 0;
        fate, at := Miss(c, s, offsets, m, icn, port, now, rnd, acc, crc);
      }
    }

    /** Takes back the entry of an Interest that goes nowhere, and drops it. */
    method Withdraw(ghost q: CsSpec.Queue, m: Mbuf, name: Name, crc: nat)
      requires pit.Valid() && crc == pit.hash(name) && tx.Owns(q, multiset{m})
      modifies pit`bottom, pit.table, pit.ring, tx.pool
      ensures pit.Valid() && pit.Log() == PitSpec.Remove(old(pit.Log()), name).0
      ensures tx.Owns(q, multiset{}) && tx.View() == Transmit.Free(old(tx.View()), m)
    {
      hide Pit.Pit.Valid, Pit.Pit.Log, PitSpec.Remove, Transmitter.PortsOf, Refcounts.Owned, Transmit.NoneFull,
           Transmit.Free;
      var _ := pit.LookupAndRemove(name, crc);
      tx.Drop(q, m);
    }

    /** Asks the FIB for the next hop of an Interest that is newly pending. */
    method Route(ghost q: CsSpec.Queue, m: Mbuf, icn: IcnPacket, port: nat, rnd: nat, acc: seq<nat>, crc: nat)
      returns (found: Option<nat>, ghost at: nat)
      requires pit.Valid() && fib.Valid() && pit.hash == hash && FacesOk(fib.table.Entries()) && tx.Owns(q, multiset{m})
      requires Small(icn) && crc == hash(icn.name) && port < APP_MAX_ETH_PORTS && Transmit.AccOk(acc)
      modifies this`stats, pit`bottom, pit.table, pit.ring, icn.crc
      modifies tx, tx.txMbufs, tx.pool
      ensures FibSpec.Answers(old(fib.table.Entries()), icn.name, GetAll(icn.componentOffsets), found, at)
      ensures found.Some? ==> found.value < APP_MAX_ETH_PORTS
      ensures pit.Valid() && tx.Owns(q, multiset{})
      ensures found.None? ==> stats == old(stats).(intNoRoute := old(stats).intNoRoute + 1)
      ensures found == Some(port) ==> stats == old(stats).(intFibLoop := old(stats).intFibLoop + 1)
      ensures found.None? || found == Some(port) ==>
                pit.Log() == PitSpec.Remove(old(pit.Log()), icn.name).0 && tx.View() == Transmit.Free(old(tx.View()), m)
      ensures found.Some? && found.value != port ==>
                && stats == old(stats).(intFibHit := old(stats).intFibHit + 1)
                && pit.Log() == old(pit.Log())
                && tx.View() == Transmit.SendSingle(old(tx.View()), m, found.value, acc[found.value])
    {
      hide Pit.Pit.Valid, Pit.Pit.Log, Cs.Cs.Valid, Cs.Cs.Queue, FibHashTable.FibHashTable.Valid,
           FibHashTable.FibHashTable.Entries, Transmit.SendSingle, Transmit.Free, FibSpec.Answers,
           PitSpec.Remove, Transmit.NoneFull, Refcounts.Owned, Transmitter.PortsOf, CsSpec.Valid, PitSpec.Valid,
           FibSpec.Valid, FibSpec.Best, FibSpec.Inside;
      found, at := fib.Lookup(icn, rnd);
      if found.None? {
        stats := stats.(intNoRoute := stats.intNoRoute + 1);
        Withdraw(q, m, icn.name, crc);
      } else if found.value == port {
        stats := stats.(intFibLoop := stats.intFibLoop + 1);
        Withdraw(q, m, icn.name, crc);
      } else {
        stats := stats.(intFibHit := stats.intFibHit + 1);
        assert multiset{} + multiset{m} == multiset{m};
        tx.Forward(q, m, found.value, acc[found.value], multiset{});
      }
    }

    // ----- Data -----

    /** Puts a Data packet in the store. Nobody looks at the result: the reference of a packet that
        the store refuses is lost. */
    method Store(ghost d: CsSpec.Dim, ghost q: CsSpec.Queue, ghost t: Transmit.Tx, m: Mbuf, name: Name, crc: nat)
      requires cs.Valid() && d == cs.Dim() && q == cs.Queue() && tx.Owns(q, multiset{m}) && t == tx.View()
      requires crc == cs.hash(name) && |name| <= MAX_NAME_LEN && d.buckets > 0
      modifies cs`top, cs`bottom, cs.table, cs.ring, tx`lost, tx.pool
      ensures cs.Valid() && tx.Owns(cs.Queue(), multiset{})
      ensures cs.Queue() == CsSpec.Insert(d, q, CsSpec.Item(name, m)).0
      ensures tx.View() == TxStored(d, q, t, m, CsSpec.Insert(d, q, CsSpec.Item(name, m)).1)
      ensures m in Refcounts.CsRefs(cs.Queue()) || m in tx.lost
    {
      hide Cs.Cs.Valid, Cs.Cs.Queue, Transmitter.PortsOf, Refcounts.Owned, Transmit.NoneFull, CsSpec.Insert,
           CsSpec.Room, Refcounts.CsRefs;
      Runs.TxStoredOwned(d, q, t, m, name);
      Refcounts.StoreOwned(d, q, t, CsSpec.Item(name, m));
      Refcounts.StoredKept(d, q, CsSpec.Item(name, m));
      var inserted := cs.Insert(tx.pool, name, m, crc);
      if !inserted {
        tx.Lose(m);
      }
      assert tx.View() == TxStored(d, q, t, m, inserted);
    }

    /** A Data packet: it goes to the store first, and then to the ports that wait for it. */
    method OnData(ghost c: Router.Config, ghost s: Router.State, m: Mbuf, name: Name, acc: seq<nat>, crc: nat)
      requires cs.Valid() && pit.Valid() && pit.hash == cs.hash && cs.table != pit.table
      requires c.cs == cs.Dim() && s.cs == cs.Queue() && s.pit == pit.Log() && s.stats == stats && c.cs.buckets > 0
      requires tx.Owns(s.cs, multiset{m}) && s.tx == tx.View()
      requires crc == cs.hash(name) && |name| <= MAX_NAME_LEN && Transmit.AccOk(acc)
      modifies this`stats, cs`top, cs`bottom, cs.table, cs.ring, pit`bottom, pit.table, pit.ring
      modifies tx, tx.txMbufs, tx.pool
      ensures cs.Valid() && pit.Valid() && tx.Owns(cs.Queue(), multiset{})
      ensures Served(c, s, m, name, acc, cs.Queue(), pit.Log(), tx.View(), stats)
    {
      hide Pit.Pit.Valid, Pit.Pit.Log, Cs.Cs.Valid, Cs.Cs.Queue, Transmitter.PortsOf, Refcounts.Owned,
           Transmit.NoneFull, CsSpec.Insert,
           PitSpec.Remove, Router.Served;
      stats := stats.(dataRecv := stats.dataRecv + 1);
      Store(c.cs, s.cs, s.tx, m, name, crc);
      ghost var q, t := cs.Queue(), tx.View();
      assert pit.Log() == s.pit;
      assert t == TxStored(c.cs, s.cs, s.tx, m, CsSpec.Insert(c.cs, s.cs, CsSpec.Item(name, m)).1);
      Serve(q, s.pit, t, stats, m, name, acc, crc);
      assert cs.Queue() == q;
      DataServed(c, s, m, name, acc, q, pit.Log(), tx.View(), stats);
    }

    /** Sends Data to the ports that wait for it, if any. */
    method Serve(ghost q: CsSpec.Queue, ghost log: PitSpec.Log, ghost t: Transmit.Tx, ghost st: Stats,
                 m: Mbuf, name: Name, acc: seq<nat>, crc: nat)
      requires pit.Valid() && log == pit.Log() && crc == pit.hash(name) && st == stats
      requires tx.Owns(q, multiset{}) && t == tx.View() && (m in Refcounts.CsRefs(q) || m in t.lost)
      requires Transmit.AccOk(acc)
      modifies this`stats, pit`bottom, pit.table, pit.ring, tx, tx.txMbufs, tx.pool
      ensures pit.Valid() && tx.Owns(q, multiset{})
      ensures pit.Log() == PitSpec.Remove(log, name).0
      ensures var faces := PitSpec.Remove(log, name).1;
              && tx.View() == (if faces == {} then t else Transmit.Copies(t, m, faces, APP_MAX_ETH_PORTS, acc))
              && stats == DataStats(st, faces)
    {
      hide Pit.Pit.Valid, Pit.Pit.Log, Transmitter.PortsOf, Refcounts.Owned, PitSpec.Remove, Transmit.Copies,
           Transmit.PortsIn, FaceMask.Faces;
      var portmask := pit.LookupAndRemove(name, crc);
      FaceMask.ZeroIsEmpty(portmask);
      if portmask == 0 {
        stats := stats.(dataPitMiss := stats.dataPitMiss + 1);
      } else {
        var sent := tx.SendCopies(q, m, portmask, acc);
        stats := stats.(dataSent := stats.dataSent + sent);
      }
    }

    // ----- Packets -----

    /** Parses the ICN packet of a frame and hashes its name. */
    method Read(frame: Frame) returns (icn: IcnPacket, crc: nat)
      requires IsIcn(frame) && WellFormed(frame)
      ensures fresh(icn) && fresh(icn.crc) && Small(icn) && crc == hash(icn.name)
      ensures Classify(frame) == if icn.kind == TYPE_INTEREST then
                                   Router.Interest(icn.name, GetAll(icn.componentOffsets))
                                 else if icn.kind == TYPE_DATA then Router.Data(icn.name)
                                 else Malformed
    {
      icn := new IcnPacket();
      var _ := icn.ParsePacket(frame.icn);
      crc := hash(icn.name);
      icn.crc[icn.componentNr] := crc;
    }

    /** Handles an Interest; the event says which choices were made. */
    method HandleInterest(ghost c: Router.Config, ghost s: Router.State, ghost frame: Frame, m: Mbuf, icn: IcnPacket,
                          port: nat, now: nat, rnd: nat, acc: seq<nat>, crc: nat)
      returns (ghost e: Event)
      requires Is(c, s) && Sane(c, s) && tx.Owns(s.cs, multiset{m})
      requires port < APP_MAX_ETH_PORTS && Transmit.AccOk(acc) && WellFormed(frame)
      requires Small(icn) && crc == hash(icn.name)
      requires Classify(frame) == Router.Interest(icn.name, GetAll(icn.componentOffsets))
      modifies this`stats, pit`top, pit`bottom, pit.table, pit.ring, icn.crc
      modifies tx, tx.txMbufs, tx.pool
      ensures e.Receive? && e == Receive(m, frame, port, now, e.hit, e.at, acc) && Handles(s, e)
      ensures Is(c, React(c, s, e))
    {
      hide Pit.Pit.Valid, Pit.Pit.Log, Cs.Cs.Valid, Cs.Cs.Queue, FibHashTable.FibHashTable.Valid,
           FibHashTable.FibHashTable.Entries, Transmitter.PortsOf, FibSpec.Answers,
           Transmit.NoneFull, Refcounts.Owned, Router.MissFate, Router.Settled, Router.RouteOf, Wire.GetAll,
           FibSpec.Inside, FibSpec.Best, CsSpec.Holds, Router.React, Router.Handles, Router.Classify, Router.WellFormed,
           FacesOk, CsSpec.Valid, PitSpec.Valid, FibSpec.Valid;
      ghost var offsets := GetAll(icn.componentOffsets);
      stats := stats.(intRecv := stats.intRecv + 1);
      ghost var fate, hit, at := OnInterest(c, s.(stats := stats), offsets, m, icn, port, now, rnd, acc, crc);
      e := Receive(m, frame, port, now, hit, at, acc);
      HandlesInterest(c, s, e, icn.name, offsets);
      ReactInterest(c, s, e, icn.name, offsets, fate, pit.Log(), tx.View(), stats);
    }

    /** Handles a Data packet. */
    method HandleData(ghost c: Router.Config, ghost s: Router.State, ghost frame: Frame, m: Mbuf, name: Name,
                      ghost port: nat, ghost now: nat, acc: seq<nat>, crc: nat)
      returns (ghost e: Event)
      requires Is(c, s) && Sane(c, s) && tx.Owns(s.cs, multiset{m})
      requires port < APP_MAX_ETH_PORTS && Transmit.AccOk(acc) && WellFormed(frame)
      requires |name| <= MAX_NAME_LEN && crc == hash(name) && Classify(frame) == Router.Data(name)
      modifies this`stats, cs`top, cs`bottom, cs.table, cs.ring, pit`bottom, pit.table, pit.ring
      modifies tx, tx.txMbufs, tx.pool
      ensures e.Receive? && e == Receive(m, frame, port, now, e.hit, e.at, acc) && Handles(s, e)
      ensures Is(c, React(c, s, e))
    {
      hide Pit.Pit.Valid, Pit.Pit.Log, Cs.Cs.Valid, Cs.Cs.Queue, FibHashTable.FibHashTable.Valid,
           FibHashTable.FibHashTable.Entries, Transmitter.PortsOf, Transmit.NoneFull, Refcounts.Owned,
           Router.Served, Router.React, Router.Handles, Router.Classify, Router.WellFormed;
      e := Receive(m, frame, port, now, 0, 0, acc);
      HandlesOther(s, e);
      OnData(c, s, m, name, acc, crc);
      ReactData(c, s, e, name, cs.Queue(), pit.Log(), tx.View(), stats);
    }

    /** Drops and counts a packet that is neither. */
    method HandleMalformed(ghost c: Router.Config, ghost s: Router.State, ghost frame: Frame, m: Mbuf, ghost port: nat,
                           ghost now: nat, ghost acc: seq<nat>)
      returns (ghost e: Event)
      requires Is(c, s) && Sane(c, s) && tx.Owns(s.cs, multiset{m})
      requires port < APP_MAX_ETH_PORTS && Transmit.AccOk(acc) && WellFormed(frame)
      requires Classify(frame) == Malformed
      modifies this`stats, tx.pool
      ensures e.Receive? && e == Receive(m, frame, port, now, e.hit, e.at, acc) && Handles(s, e)
      ensures Is(c, React(c, s, e))
    {
      hide Pit.Pit.Valid, Pit.Pit.Log, Cs.Cs.Valid, Cs.Cs.Queue, FibHashTable.FibHashTable.Valid,
           FibHashTable.FibHashTable.Entries, Transmitter.PortsOf, Transmit.NoneFull, Refcounts.Owned,
           Transmit.Free, Router.React, Router.Handles, Router.Classify, Router.WellFormed, CsSpec.Valid, PitSpec.Valid,
           FibSpec.Valid, FacesOk;
      e := Receive(m, frame, port, now, 0, 0, acc);
      HandlesOther(s, e);
      ReactMalformed(c, s, e);
      tx.Drop(s.cs, m);
      stats := stats.(malformed := stats.malformed + 1);
    }

    /** Handles a packet that has arrived. */
    method Handle(ghost c: Router.Config, ghost s: Router.State, m: Mbuf, frame: Frame, port: nat, now: nat, rnd: nat,
                  acc: seq<nat>)
      returns (ghost e: Event)
      requires Is(c, s) && Sane(c, s) && tx.Owns(s.cs, multiset{m})
      requires port < APP_MAX_ETH_PORTS && Transmit.AccOk(acc) && WellFormed(frame)
      modifies this`stats, cs`top, cs`bottom, cs.table, cs.ring, pit`top, pit`bottom, pit.table, pit.ring
      modifies tx, tx.txMbufs, tx.pool
      ensures e.Receive? && e == Receive(m, frame, port, now, e.hit, e.at, acc) && Handles(s, e)
      ensures Is(c, React(c, s, e))
    {
      if frame.etherType != ETHER_TYPE_IPv4_BE {
        e := HandleMalformed(c, s, frame, m, port, now, acc);
        return;
      }
      if frame.proto != IPPROTO_ICN {
        e := HandleMalformed(c, s, frame, m, port, now, acc);
        return;
      }
      hide Is, Router.React, Router.Handles, Router.WellFormed, Router.Sane;
      var icn, crc := Read(frame);
      if icn.kind == TYPE_INTEREST {
        e := HandleInterest(c, s, frame, m, icn, port, now, rnd, acc, crc);
      } else if icn.kind == TYPE_DATA {
        e := HandleData(c, s, frame, m, icn.name, port, now, acc, crc);
      } else {
        e := HandleMalformed(c, s, frame, m, port, now, acc);
      }
    }

    /** The driver fills a free buffer. */
    method Arrival(ghost c: Router.Config, ghost s: Router.State, m: Mbuf, frame: Frame, now: nat)
      requires Is(c, s) && Sane(c, s) && Refcounts.Owned(s.cs, s.tx, multiset{}) && m !in s.tx.mem.refs
      modifies this`clock, tx.pool
      ensures Is(c, Arrive(s, m, frame, now)) && Sane(c, Arrive(s, m, frame, now))
      ensures tx.Owns(s.cs, multiset{m}) && clock == now
    {
      hide Pit.Pit.Valid, Pit.Pit.Log, Cs.Cs.Valid, Cs.Cs.Queue, FibHashTable.FibHashTable.Valid,
           FibHashTable.FibHashTable.Entries, Transmitter.PortsOf, Refcounts.Owned, CsSpec.Valid, PitSpec.Valid,
           FibSpec.Valid, FacesOk, Router.Sane, Transmit.NoneFull;
      Held(c, s);
      Runs.ArriveSane(c, s, m, frame, now);
      tx.Receive(s.cs, m, frame);
      clock := now;
    }

    /** Receives a packet into a free buffer and handles it, after a run. */
    method Process(ghost c: Router.Config, ghost run: seq<Event>, m: Mbuf, frame: Frame, port: nat, now: nat, rnd: nat,
                   acc: seq<nat>)
      returns (ghost e: Event)
      requires ConfigOk(c) && Runs.ValidRun(c, run) && Is(c, Runs.Exec(c, run))
      requires m !in Runs.Exec(c, run).tx.mem.refs && Runs.Exec(c, run).clock <= now
      requires port < APP_MAX_ETH_PORTS && Transmit.AccOk(acc) && WellFormed(frame)
      modifies this`stats, this`clock
      modifies cs`top, cs`bottom, cs.table, cs.ring, pit`top, pit`bottom, pit.table, pit.ring
      modifies tx, tx.txMbufs, tx.pool
      ensures e.Receive? && e == Receive(m, frame, port, now, e.hit, e.at, acc)
      ensures Runs.ValidRun(c, run + [e]) && Is(c, Runs.Exec(c, run + [e]))
      ensures Runs.Exec(c, run + [e]).clock == now
      ensures forall x :: x in Runs.Exec(c, run + [e]).tx.mem.refs ==> x in Runs.Exec(c, run).tx.mem.refs || x == m
    {
      hide Is, Router.Sane, Router.Handles, Router.React, Router.Step, Refcounts.Owned, Router.WellFormed,
           Runs.ValidRun, Runs.Exec;
      ghost var s := Runs.Exec(c, run);
      Runs.RefcountsExact(c, run);
      Arrival(c, s, m, frame, now);
      e := Handle(c, Arrive(s, m, frame, now), m, frame, port, now, rnd, acc);
      Runs.Received(c, run, e);
    }

    /** Receives a packet into a free buffer and handles it: one step of the run. */
    method IcnFwd(m: Mbuf, frame: Frame, port: nat, now: nat, rnd: nat, acc: seq<nat>) returns (ghost e: Event)
      requires Valid() && m !in tx.pool.refs && clock <= now
      requires port < APP_MAX_ETH_PORTS && Transmit.AccOk(acc) && WellFormed(frame)
      modifies this`stats, this`clock, this`history
      modifies cs`top, cs`bottom, cs.table, cs.ring, pit`top, pit`bottom, pit.table, pit.ring
      modifies tx, tx.txMbufs, tx.pool
      ensures Valid() && Config() == old(Config()) && history == old(history) + [e] && clock == now
      ensures e.Receive? && e == Receive(m, frame, port, now, e.hit, e.at, acc)
      ensures forall x :: x in tx.pool.refs ==> x in old(tx.pool.refs) || x == m
    {
      hide Is, Router.Step, Router.WellFormed, Runs.ValidRun, Runs.Exec;
      ghost var c := Config();
      Seen(c, Runs.Exec(c, history));
      e := Process(c, history, m, frame, port, now, rnd, acc);
      history := history + [e];
      Seen(c, Runs.Exec(c, history));
    }

    // ----- The polling loop -----

    /** Empties the transmit buffers; taken is how much the card takes of what it is offered. */
    method DrainPorts(ghost c: Router.Config, ghost s: Router.State, acc: seq<nat>) returns (taken: seq<nat>)
      requires Is(c, s) && Sane(c, s) && Refcounts.Owned(s.cs, s.tx, multiset{}) && |acc| == APP_MAX_ETH_PORTS
      modifies tx, tx.txMbufs, tx.pool
      ensures Transmit.Acceptable(s.tx, taken) && |taken| == APP_MAX_ETH_PORTS
      ensures Is(c, s.(tx := Transmit.Drained(s.tx, APP_MAX_ETH_PORTS, taken)))
      ensures forall p :: 0 <= p < APP_MAX_ETH_PORTS ==>
                taken[p] == if acc[p] < old(tx.txMbufs[p].len) then acc[p] else old(tx.txMbufs[p].len)
    {
      hide Pit.Pit.Valid, Pit.Pit.Log, Cs.Cs.Valid, Cs.Cs.Queue, FibHashTable.FibHashTable.Valid,
           FibHashTable.FibHashTable.Entries, Transmitter.PortsOf, Refcounts.Owned, Transmit.Drained;
      taken := tx.Accepted(acc);
      tx.Drain(s.cs, taken);
    }

    /** Purges the PIT at a given time. */
    method PurgePit(ghost c: Router.Config, ghost s: Router.State, now: nat)
      requires Is(c, s)
      modifies this`clock, pit`bottom, pit.table, pit.ring
      ensures Is(c, s.(pit := PitSpec.Purge(s.pit, now), clock := now)) && clock == now
    {
      hide Pit.Pit.Valid, Pit.Pit.Log, Cs.Cs.Valid, Cs.Cs.Queue, FibHashTable.FibHashTable.Valid,
           FibHashTable.FibHashTable.Entries, Transmitter.PortsOf, PitSpec.Purge;
      var _ := pit.PurgeExpired(now);
      clock := now;
    }

    /** The work at the start of a round. */
    method Upkeep(cur: nat, acc: seq<nat>, drainTsc: nat, purgeTsc: nat, prevDrain: nat, prevPurge: nat)
      returns (drained: nat, purged: nat)
      requires Valid() && clock <= cur && prevDrain <= cur && prevPurge <= cur && |acc| == APP_MAX_ETH_PORTS
      modifies this`clock, this`history, pit`bottom, pit.table, pit.ring, tx, tx.txMbufs, tx.pool
      ensures Valid() && Config() == old(Config()) && clock <= cur
      ensures Trace(history) == Trace(old(history)) + Polling.Upkeep(cur, prevDrain, prevPurge, drainTsc, purgeTsc)
      ensures old(history) <= history
      ensures if cur - prevDrain > drainTsc then
                && |history| == |old(history)| + 1
                && var e := history[|old(history)|];
                   && e.Drain? && e.now == cur && |e.acc| == APP_MAX_ETH_PORTS
                   && forall p :: 0 <= p < APP_MAX_ETH_PORTS ==>
                        e.acc[p] == if acc[p] < old(tx.txMbufs[p].len) then acc[p] else old(tx.txMbufs[p].len)
              else if cur - prevPurge > purgeTsc then history == old(history) + [Event.Purge(cur)]
              else history == old(history)
      ensures drained == if cur - prevDrain > drainTsc then cur else prevDrain
      ensures purged == if cur - prevDrain > drainTsc || cur - prevPurge > purgeTsc then cur else prevPurge
    {
      hide Is, Router.Sane, Router.Handles, Runs.ValidRun, Runs.Exec, Refcounts.Owned, Transmit.Drained, PitSpec.Purge,
           Router.React, Polling.Trace;
      ghost var c := Config();
      drained, purged := prevDrain, prevPurge;
      if cur - prevDrain > drainTsc {
        ghost var s := Runs.Exec(c, history);
        Runs.RefcountsExact(c, history);
        Seen(c, s);
        drained := cur;
        ghost var taken := DrainPorts(c, s, acc);
        PurgePit(c, s.(tx := Transmit.Drained(s.tx, APP_MAX_ETH_PORTS, taken)), cur);
        purged := cur;
        TraceAppend(history, Event.Drain(cur, taken));
        Note(c, Event.Drain(cur, taken));
        Seen(c, Runs.Exec(c, history));
      }
      if cur - purged > purgeTsc {
        ghost var s := Runs.Exec(c, history);
        Seen(c, s);
        PurgePit(c, s, cur);
        purged := cur;
        TraceAppend(history, Event.Purge(cur));
        Note(c, Event.Purge(cur));
        Seen(c, Runs.Exec(c, history));
      }
    }

    /** Records a step that has been taken. */
    ghost method Note(c: Router.Config, e: Event)
      requires ConfigOk(c) && Runs.ValidRun(c, history) && Enabled(Runs.Exec(c, history), e)
      requires Is(c, Step(c, Runs.Exec(c, history), e))
      modifies this`history
      ensures Valid() && c == Config() && history == old(history) + [e]
    {
      hide Router.Step, Router.Enabled, Pit.Pit.Valid, Pit.Pit.Log, Cs.Cs.Valid, Cs.Cs.Queue,
           FibHashTable.FibHashTable.Valid, FibHashTable.FibHashTable.Entries, Transmitter.PortsOf;
      Runs.Extend(c, history, e);
      history := history + [e];
    }

    /** Reads a burst from a receive queue and handles its packets in order. The first loop is the
        one that prefetches ahead. */
    method ReadBurst(burst: seq<Rx>, port: nat, ghost t: nat)
      requires Valid() && clock <= t && BurstOk(burst, t) && port < APP_MAX_ETH_PORTS
      modifies this`stats, this`clock, this`history
      modifies cs`top, cs`bottom, cs.table, cs.ring, pit`top, pit`bottom, pit.table, pit.ring
      modifies tx, tx.txMbufs, tx.pool
      ensures Valid() && Config() == old(Config()) && clock <= EndOf(burst, t)
      ensures Trace(history) == Trace(old(history)) + Packets(burst, port)
      ensures old(history) <= history
      ensures var es := history[|old(history)|..];
              && |es| == |burst|
              && forall i :: 0 <= i < |es| ==>
                   && es[i].Receive? && es[i].frame == burst[i].frame && es[i].port == port
                   && es[i].now == burst[i].now && es[i].acc == burst[i].acc
    {
      hide Valid, HandledSoFar, Router.WellFormed, Polling.Trace, Packets;
      var nbRx := |burst|;
      if nbRx == 0 {
        return;
      }
      var pkts := tx.pool.Alloc(nbRx);
      var j := 0;
      ghost var done: seq<Event> := [];
      HandledNone(burst, port);
      while j < nbRx - PREFETCH_OFFSET
        invariant 0 <= j <= nbRx
        invariant Valid() && Config() == old(Config())
        invariant if j < nbRx then clock <= burst[j].now else clock <= EndOf(burst, t)
        invariant forall i :: j <= i < nbRx ==> pkts[i] !in tx.pool.refs
        invariant Trace(history) == Trace(old(history)) + Packets(burst, port)[..j]
        invariant history == old(history) + done && |done| == j && HandledSoFar(done, burst, port)
      {
        ghost var e := Forward(pkts[j], burst, j, port);
        HandledNext(done, burst, port, e);
        done := done + [e];
        j := j + 1;
      }
      while j < nbRx
        invariant 0 <= j <= nbRx
        invariant Valid() && Config() == old(Config())
        invariant if j < nbRx then clock <= burst[j].now else clock <= EndOf(burst, t)
        invariant forall i :: j <= i < nbRx ==> pkts[i] !in tx.pool.refs
        invariant Trace(history) == Trace(old(history)) + Packets(burst, port)[..j]
        invariant history == old(history) + done && |done| == j && HandledSoFar(done, burst, port)
      {
        ghost var e := Forward(pkts[j], burst, j, port);
        HandledNext(done, burst, port, e);
        done := done + [e];
        j := j + 1;
      }
      HandledAll(done, burst, port);
      assert history[|old(history)|..] == done;
    }

    /** Handles the j-th packet of a burst. */
    method Forward(m: Mbuf, burst: seq<Rx>, j: nat, port: nat) returns (ghost e: Event)
      requires Valid() && m !in tx.pool.refs && port < APP_MAX_ETH_PORTS
      requires j < |burst| && Fine(burst[j]) && clock <= burst[j].now
      modifies this`stats, this`clock, this`history
      modifies cs`top, cs`bottom, cs.table, cs.ring, pit`top, pit`bottom, pit.table, pit.ring
      modifies tx, tx.txMbufs, tx.pool
      ensures Valid() && Config() == old(Config()) && clock == burst[j].now
      ensures forall x :: x in tx.pool.refs ==> x in old(tx.pool.refs) || x == m
      ensures Trace(history) == Trace(old(history)) + [Packets(burst, port)[j]]
      ensures history == old(history) + [e]
      ensures e.Receive? && e.frame == burst[j].frame && e.port == port
      ensures e.now == burst[j].now && e.acc == burst[j].acc
    {
      hide Valid, Router.WellFormed, Polling.Trace;
      e := IcnFwd(m, burst[j].frame, port, burst[j].now, burst[j].rnd, burst[j].acc);
      TraceAppend(old(history), e);
    }

    /** One round of the loop: upkeep, and then a burst from each receive queue. */
    method Poll(tick: Tick, ports: seq<nat>, drainTsc: nat, purgeTsc: nat, prevDrain: nat, prevPurge: nat)
      returns (drained: nat, purged: nat)
      requires Valid() && clock <= tick.cur && prevDrain <= tick.cur && prevPurge <= tick.cur && TickOk(tick, ports)
      requires forall n :: 0 <= n < |ports| ==> ports[n] < APP_MAX_ETH_PORTS
      modifies this`stats, this`clock, this`history
      modifies cs`top, cs`bottom, cs.table, cs.ring, pit`top, pit`bottom, pit.table, pit.ring
      modifies tx, tx.txMbufs, tx.pool
      ensures Valid() && Config() == old(Config()) && clock <= After(tick.bursts, tick.cur, |ports|)
      ensures Trace(history) == Trace(old(history))
                                + (Polling.Upkeep(tick.cur, prevDrain, prevPurge, drainTsc, purgeTsc)
                                   + Round(tick.bursts, ports, |ports|))
      ensures var due := tick.cur - prevDrain > drainTsc || tick.cur - prevPurge > purgeTsc;
              var first := |old(history)| + if due then 1 else 0;
              && first <= |history| && old(history) <= history
              && RoundHandled(history[first..], tick.bursts, ports, |ports|)
      ensures drained == if tick.cur - prevDrain > drainTsc then tick.cur else prevDrain
      ensures purged == if tick.cur - prevDrain > drainTsc || tick.cur - prevPurge > purgeTsc then tick.cur
                        else prevPurge
    {
      hide Valid, Router.WellFormed, Polling.Trace, Polling.Upkeep, RoundHandled, Packets;
      RoundHandledNone(tick.bursts, ports);
      drained, purged := Upkeep(tick.cur, tick.acc, drainTsc, purgeTsc, prevDrain, prevPurge);
      ghost var upkeep := Polling.Upkeep(tick.cur, prevDrain, prevPurge, drainTsc, purgeTsc);
      ghost var sofar, done: seq<Event> := history, [];
      for n := 0 to |ports|
        invariant Valid() && Config() == old(Config()) && clock <= After(tick.bursts, tick.cur, n)
        invariant Trace(history) == Trace(old(history)) + (upkeep + Round(tick.bursts, ports, n))
        invariant history == sofar + done && RoundHandled(done, tick.bursts, ports, n)
      {
        assert InTurn(tick, n);
        ghost var before := history;
        ReadBurst(tick.bursts[n], ports[n], After(tick.bursts, tick.cur, n));
        ghost var more := history[|before|..];
        assert history == sofar + (done + more);
        RoundHandledNext(done, tick.bursts, ports, n, more);
        done := done + more;
        Assoc(Trace(old(history)), upkeep + Round(tick.bursts, ports, n), Packets(tick.bursts[n], ports[n]));
        Assoc(upkeep, Round(tick.bursts, ports, n), Packets(tick.bursts[n], ports[n]));
      }
      assert history[|sofar|..] == done;
    }

    lemma AllPrompt(before: seq<Stamp>, ticks: seq<Tick>, ports: seq<nat>, drainTsc: nat, purgeTsc: nat)
      requires Valid() && forall k :: 0 <= k < |ticks| ==> |ticks[k].bursts| == |ports|
      requires Trace(history) == before + Schedule(ticks, ports, drainTsc, purgeTsc, |ticks|)
      ensures forall n | 0 <= n < |ticks| ::
                Delay.RoundPrompt(Config(), history, before, ticks, ports, drainTsc, purgeTsc, n)
    {
      hide Is, Polling.Trace, Delay.RoundPrompt, Runs.ValidRun, Runs.Exec;
      forall n | 0 <= n < |ticks|
        ensures Delay.RoundPrompt(Config(), history, before, ticks, ports, drainTsc, purgeTsc, n)
      {
        Delay.EveryRoundPrompt(Config(), history, before, ticks, ports, drainTsc, purgeTsc, n);
      }
    }

    /** The loop of a core, from the start of its clocks and for as many rounds as there are. What
        it does follows the schedule, and after the upkeep of each round nothing has waited for longer
        than the intervals allow. */
    method PktFwdLoop(ticks: seq<Tick>, ports: seq<nat>, drainTsc: nat, purgeTsc: nat) returns (code: int)
      requires Valid() && InputOk(ticks, ports, clock)
      modifies this`stats, this`clock, this`history
      modifies cs`top, cs`bottom, cs.table, cs.ring, pit`top, pit`bottom, pit.table, pit.ring
      modifies tx, tx.txMbufs, tx.pool
      ensures Valid() && Config() == old(Config())
      ensures ports == [] ==> code == -1 && history == old(history)
      ensures ports != [] ==>
                code == 0 && Trace(history) == Trace(old(history)) + Schedule(ticks, ports, drainTsc, purgeTsc, |ticks|)
      ensures forall n | 0 <= n < |ticks| && ports != [] ::
                Delay.RoundPrompt(Config(), history, Trace(old(history)), ticks, ports, drainTsc, purgeTsc, n)
    {
      hide Valid, Delay.RoundPrompt, Polling.BurstOk, Polling.Trace, Polling.Upkeep, Polling.Round;
      var prevDrainTsc, prevPitPurgeTsc := 0, 0;
      if |ports| == 0 {
        return -1;
      }
      for k := 0 to |ticks|
        invariant Valid() && Config() == old(Config())
        invariant prevDrainTsc == LastDrain(ticks, drainTsc, k)
        invariant prevPitPurgeTsc == LastPurge(ticks, drainTsc, purgeTsc, k)
        invariant k < |ticks| ==> prevDrainTsc <= ticks[k].cur && prevPitPurgeTsc <= ticks[k].cur
        invariant k < |ticks| ==> clock <= ticks[k].cur
        invariant Trace(history) == Trace(old(history)) + Schedule(ticks, ports, drainTsc, purgeTsc, k)
      {
        RoundTakesTime(ticks[k], ports, |ports|);
        ghost var round := UpkeepAt(ticks, drainTsc, purgeTsc, k) + Round(ticks[k].bursts, ports, |ports|);
        Assoc(Trace(old(history)), Schedule(ticks, ports, drainTsc, purgeTsc, k), round);
        prevDrainTsc, prevPitPurgeTsc := Poll(ticks[k], ports, drainTsc, purgeTsc, prevDrainTsc, prevPitPurgeTsc);
      }
      AllPrompt(Trace(old(history)), ticks, ports, drainTsc, purgeTsc);
      return 0;
    }

    // ----- What others do between packets -----

    /** A route is added. */
    method FibAdd(name: Name, face: nat) returns (r: Fib.UpdateResult)
      requires Valid() && |name| <= MAX_NAME_LEN && face < APP_MAX_ETH_PORTS
      modifies this`history, fib.table, fib.table.htbl, fib.table.fwdTable
      ensures Valid() && Config() == old(Config()) && history == old(history) + [AddRoute(name, face)]
      ensures r.Invalid? <==> name == [] || name[0] == 0
      ensures r.Done? <==> name != [] && name[0] != 0 && FibSpec.Add(Config().fib, old(State()).fib, name, face).1
      ensures FibSpec.Routes(fib.table.Entries())
           == FibSpec.Routes(old(fib.table.Entries())) + if r.Done? then multiset{(name, face)} else multiset{}
    {
      hide Pit.Pit.Valid, Pit.Pit.Log, Cs.Cs.Valid, Cs.Cs.Queue, FibHashTable.FibHashTable.Valid,
           FibHashTable.FibHashTable.Entries, Transmitter.PortsOf, Runs.ValidRun, Runs.Exec,
           Router.React, Router.Step, Router.Enabled, FibSpec.Add, FibSpec.Routes;
      ghost var c := Config();
      ghost var s := Runs.Exec(c, history);
      FibSpec.AddedRoutes(c.fib, s.fib, name, face);
      r := fib.Add(name, face);
      assert Is(c, s.(fib := fib.table.Entries()));
      hide Is;
      AddsRoute(c, s, name, face, fib.table.Entries());
      Note(c, AddRoute(name, face));
    }

    /** A route is deleted, if there is one; which of several equal ones is left open. */
    method FibDel(name: Name, face: nat) returns (r: Fib.UpdateResult, ghost pick: nat)
      requires Valid() && |name| <= MAX_NAME_LEN
      modifies this`history, fib.table`places, fib.table.htbl
      ensures Valid() && Config() == old(Config()) && history == old(history) + [DelRoute(name, face, pick)]
      ensures r.Invalid? <==> name == [] || name[0] == 0
      ensures r.Done? <==> name != [] && name[0] != 0 && FibSpec.Route(name, face) in old(State()).fib
      ensures FibSpec.Routes(fib.table.Entries())
           == FibSpec.Routes(old(fib.table.Entries())) - if r.Done? then multiset{(name, face)} else multiset{}
    {
      hide Pit.Pit.Valid, Pit.Pit.Log, Cs.Cs.Valid, Cs.Cs.Queue, FibHashTable.FibHashTable.Valid,
           FibHashTable.FibHashTable.Entries, Transmitter.PortsOf, Runs.ValidRun, Runs.Exec,
           Router.React, Router.Step, Router.Enabled, Router.Sane, Refcounts.Owned, FibSpec.Routes, FibSpec.DeleteAt;
      ghost var c := Config();
      ghost var s := Runs.Exec(c, history);
      r, pick := fib.Del(name, face);
      FibSpec.DeletedRoutes(s.fib, name, face, pick, fib.table.Entries(), r.Done?);
      assert Is(c, s.(fib := fib.table.Entries()));
      hide Is;
      DeletesRoute(c, s, name, face, pick, fib.table.Entries(), r.Done?);
      Note(c, DelRoute(name, face, pick));
    }

    /** The network card has sent a packet. */
    method TxDone(m: Mbuf)
      requires Valid() && m in tx.pool.nic
      modifies this`history, tx.pool
      ensures Valid() && Config() == old(Config()) && history == old(history) + [Transmitted(m)]
    {
      hide Is, Runs.ValidRun, Runs.Exec, Router.React, Router.Handles, Router.Sane, Refcounts.Owned, FibSpec.Add,
           FibSpec.Step, PitSpec.Purge, Transmit.Drained, Transmit.Sent;
      ghost var c := Config();
      ghost var s := Runs.Exec(c, history);
      Runs.RefcountsExact(c, history);
      Seen(c, s);
      Held(c, s);
      GiveBack(c, s, m);
      Note(c, Transmitted(m));
    }

    /** The card gives back the reference of a packet it has sent. */
    method GiveBack(ghost c: Router.Config, ghost s: Router.State, m: Mbuf)
      requires Is(c, s) && tx.Owns(s.cs, multiset{}) && m in s.tx.mem.nic
      modifies tx.pool
      ensures Is(c, s.(tx := Transmit.Sent(s.tx, m)))
    {
      hide Pit.Pit.Valid, Pit.Pit.Log, Cs.Cs.Valid, Cs.Cs.Queue, FibHashTable.FibHashTable.Valid,
           FibHashTable.FibHashTable.Entries, Transmitter.PortsOf, Refcounts.Owned, Transmit.Sent;
      tx.GiveBack(s.cs, m);
    }
  }

  /** A parsed packet that fits the fixed-size tables. */
  ghost predicate Small(icn: IcnPacket)
    reads icn
  {
    && |icn.name| <= MAX_NAME_LEN
    && icn.componentNr == |GetAll(icn.componentOffsets)| < MAX_NAME_COMPONENTS == icn.crc.Length
    && FibSpec.Inside(icn.name, GetAll(icn.componentOffsets))
  }
}
