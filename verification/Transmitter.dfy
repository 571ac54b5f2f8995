/** The transmit buffers of a core, one per port, and the calls that empty them. */
module Transmitter {
  import opened Defs
  import opened Mbufs
  import CsSpec
  import FaceMask
  import Refcounts
  import Spec = Transmit

  /** The packets that wait for a port: the first len of mTable. */
  datatype MbufTable = MbufTable(len: nat, mTable: seq<Mbuf>)

  function PortsOf(tables: seq<MbufTable>, bursts: seq<seq<Spec.Burst>>): (ports: seq<Spec.Port>)
    requires |bursts| == |tables| && forall p :: 0 <= p < |tables| ==> tables[p].len <= |tables[p].mTable|
    ensures |ports| == |tables|
  {
    seq(|tables|, p requires 0 <= p < |tables| => Spec.Port(bursts[p], tables[p].mTable[..tables[p].len]))
  }

  /** The references that are left once those of a range are given up. */
  function Left(refs: multiset<Mbuf>, ms: seq<Mbuf>, from: nat, to: nat): multiset<Mbuf>
    requires from <= to <= |ms|
  {
    refs - multiset(ms[from..to])
  }

  lemma LeftAll(refs: multiset<Mbuf>, ms: seq<Mbuf>, from: nat, to: nat)
    requires from <= to <= |ms|
    ensures Left(refs, ms, from, from) == refs
    ensures Left(refs, ms, from, to) == refs - multiset(ms[from..to])
  {
    assert ms[from..from] == [];
  }

  /** Freeing a range one by one is freeing it at once. */
  lemma FreeOne(refs: multiset<Mbuf>, ms: seq<Mbuf>, from: nat, i: nat, n: nat)
    requires from <= i < n <= |ms| && multiset(ms[from..n]) <= refs
    ensures ms[i] in Left(refs, ms, from, i)
    ensures Left(refs, ms, from, i + 1) == Left(refs, ms, from, i) - multiset{ms[i]}
  {
    assert ms[from..n] == ms[from..i] + ([ms[i]] + ms[i + 1..n]);
    assert ms[from..i + 1] == ms[from..i] + [ms[i]];
  }

  class Transmitter {
    const pool: Pool
    const txMbufs: array<MbufTable>
    var nicPktDrop: nat
    ghost var bursts: seq<seq<Spec.Burst>>
    ghost var out: seq<Spec.Out>
    ghost var lost: multiset<Mbuf>

    ghost predicate Shaped()
      reads this, txMbufs
    {
      && txMbufs.Length == |bursts| == APP_MAX_ETH_PORTS
      && forall p :: 0 <= p < txMbufs.Length ==> |txMbufs[p].mTable| == MAX_PKT_BURST && txMbufs[p].len <= MAX_PKT_BURST
    }

    ghost function View(): Spec.Tx
      requires Shaped()
      reads this, txMbufs, pool
    {
      Spec.Tx(PortsOf(txMbufs[..], bursts), pool.View(), out, nicPktDrop, lost)
    }

    constructor ()
      ensures fresh(pool) && fresh(txMbufs)
      ensures Shaped() && View() == Spec.Init()
    {
      pool := new Pool();
      txMbufs := new MbufTable[APP_MAX_ETH_PORTS](_ => MbufTable(0, seq(MAX_PKT_BURST, _ => 0)));
      nicPktDrop := 0;
      bursts := seq(APP_MAX_ETH_PORTS, _ => []);
      out := [];
      lost := multiset{};
    }

    /** Offers the first n packets of a port to the network card, which accepts ret of them,
        and frees the others. */
    method SendBurst(p: nat, n: nat, ret: nat)
      requires Shaped() && p < APP_MAX_ETH_PORTS && n == txMbufs[p].len && ret <= n
      requires multiset(txMbufs[p].mTable[ret..n]) <= pool.refs
      modifies this`nicPktDrop, this`bursts, pool`refs, pool`nic
      ensures Shaped() && |bursts| == |old(bursts)|
      ensures nicPktDrop == old(nicPktDrop) + n - ret
      ensures pool.refs == old(pool.refs) - multiset(txMbufs[p].mTable[ret..n])
      ensures pool.nic == old(pool.nic) + multiset(txMbufs[p].mTable[..ret])
      ensures var burst := Spec.Burst(Spec.Tag(txMbufs[p].mTable[..ret], pool.frames),
                                      Spec.Tag(txMbufs[p].mTable[ret..n], pool.frames));
              bursts == old(bursts)[p := old(bursts)[p] + [burst]]
    {
      var mTable := txMbufs[p].mTable;
      pool.HandOver(mTable[..ret]);
      if ret < n {
        nicPktDrop := nicPktDrop + (n - ret);
        FreeFrom(mTable, ret, n);
      }
      bursts := bursts[p := bursts[p] + [Spec.Burst(Spec.Tag(mTable[..ret], pool.frames),
                                                    Spec.Tag(mTable[ret..n], pool.frames))]];
    }

    method FreeFrom(mTable: seq<Mbuf>, ret: nat, n: nat)
      requires ret <= n <= |mTable| && multiset(mTable[ret..n]) <= pool.refs
      modifies pool`refs
      ensures pool.refs == old(pool.refs) - multiset(mTable[ret..n])
    {
      var i := ret;
      ghost var refs := pool.refs;
      hide Left;
      LeftAll(refs, mTable, ret, n);
      while i < n
        invariant ret <= i <= n
        invariant pool.refs == Left(refs, mTable, ret, i)
      {
        FreeOne(refs, mTable, ret, i, n);
        pool.Free(mTable[i]);
        i := i + 1;
      }
    }

    /** Sends what a port has, if anything. */
    method Flush(p: nat, ret: nat)
      requires Shaped() && p < APP_MAX_ETH_PORTS && ret <= txMbufs[p].len
      requires multiset(View().ports[p].buf[ret..]) <= pool.refs
      modifies this`nicPktDrop, this`bursts, txMbufs, pool`refs, pool`nic
      ensures Shaped() && View() == Spec.Flush(old(View()), p, ret)
      ensures nicPktDrop == old(nicPktDrop) + old(txMbufs[p].len) - ret && txMbufs[p].len == 0
      ensures var waiting := old(txMbufs[p].mTable[..txMbufs[p].len]);
              && pool.nic == old(pool.nic) + multiset(waiting[..ret])
              && pool.refs == old(pool.refs) - multiset(waiting[ret..])
    {
      hide Spec.Tag, Spec.FrameOf;
      if txMbufs[p].len == 0 {
        return;
      }
      ghost var t := View();
      assert t.ports[p].buf[ret..] == txMbufs[p].mTable[ret..txMbufs[p].len];
      assert t.ports[p].buf[..ret] == txMbufs[p].mTable[..ret];
      SendBurst(p, txMbufs[p].len, ret);
      txMbufs[p] := txMbufs[p].(len := 0);
      assert View().ports == Spec.SendBurst(t, p, ret).ports;
    }

    /** Appends a packet to the buffer of a port and sends the buffer once it is full. */
    method SendSingle(m: Mbuf, p: nat, ret: nat)
      requires Shaped() && p < APP_MAX_ETH_PORTS && txMbufs[p].len < MAX_PKT_BURST && ret <= MAX_PKT_BURST
      requires multiset(View().ports[p].buf + [m]) <= pool.refs
      modifies this`nicPktDrop, this`bursts, this`out, txMbufs, pool`refs, pool`nic
      ensures Shaped() && View() == Spec.SendSingle(old(View()), m, p, ret)
      ensures var waiting := old(txMbufs[p].mTable[..txMbufs[p].len]) + [m];
              if |waiting| == 32 then
                && txMbufs[p].len == 0 && nicPktDrop == old(nicPktDrop) + 32 - ret
                && pool.nic == old(pool.nic) + multiset(waiting[..ret])
                && pool.refs == old(pool.refs) - multiset(waiting[ret..])
              else
                && txMbufs[p].mTable[..txMbufs[p].len] == waiting && nicPktDrop == old(nicPktDrop)
                && pool.nic == old(pool.nic) && pool.refs == old(pool.refs)
    {
      hide Spec.Tag, Spec.FrameOf;
      ghost var t := View();
      var len := txMbufs[p].len;
      txMbufs[p] := MbufTable(len + 1, txMbufs[p].mTable[len := m]);
      out := out + [Spec.Out(p, Spec.Pkt(m, Spec.FrameOf(pool.frames, m)))];
      assert txMbufs[p].mTable[..len + 1] == t.ports[p].buf + [m];
      assert View().ports == Spec.Enqueue(t, m, p).ports;
      if len + 1 == MAX_PKT_BURST {
        ghost var buf := t.ports[p].buf + [m];
        assert buf == buf[..ret] + buf[ret..];
        Flush(p, ret);
      }
    }

    // ----- With the references that go along; q is what the content store holds -----

    ghost predicate Owns(q: CsSpec.Queue, hand: multiset<Mbuf>)
      reads this, txMbufs, pool
    {
      Shaped() && Spec.NoneFull(View().ports) && Refcounts.Owned(q, View(), hand)
    }

    /** Sends a packet whose reference is in hand. */
    method Forward(ghost q: CsSpec.Queue, m: Mbuf, p: nat, ret: nat, ghost hand: multiset<Mbuf>)
      requires Owns(q, hand + multiset{m}) && p < APP_MAX_ETH_PORTS && ret <= MAX_PKT_BURST
      modifies this, txMbufs, pool
      ensures Owns(q, hand) && View() == Spec.SendSingle(old(View()), m, p, ret)
    {
      Refcounts.SafeToSend(q, View(), m, p, ret, hand);
      Refcounts.SingleOwned(q, View(), m, p, ret, hand);
      Spec.SingleEffect(View(), m, p, ret);
      assert View().ports[p].buf == txMbufs[p].mTable[..txMbufs[p].len];
      SendSingle(m, p, ret);
    }

    /** Gives up a reference in hand. */
    method Drop(ghost q: CsSpec.Queue, m: Mbuf)
      requires Owns(q, multiset{m})
      modifies pool
      ensures Owns(q, multiset{}) && View() == Spec.Free(old(View()), m)
    {
      assert multiset{} + multiset{m} == multiset{m};
      Refcounts.FreeOwned(q, View(), m, multiset{});
      pool.Free(m);
      assert View() == Spec.Free(old(View()), m);
    }

    /** The driver fills a free buffer. */
    method Receive(ghost q: CsSpec.Queue, m: Mbuf, f: Frame)
      requires Owns(q, multiset{}) && m !in pool.refs
      modifies pool
      ensures Owns(q, multiset{m}) && View() == Spec.Receive(old(View()), m, f)
    {
      assert multiset{} + multiset{m} == multiset{m};
      Refcounts.RetainOwned(q, View(), m, multiset{});
      pool.Receive(m, f);
      assert View() == Spec.Receive(old(View()), m, f);
    }

    /** The network card gives back the reference of a packet that it has sent. */
    method GiveBack(ghost q: CsSpec.Queue, m: Mbuf)
      requires Owns(q, multiset{}) && m in pool.nic
      modifies pool
      ensures Owns(q, multiset{}) && View() == Spec.Sent(old(View()), m)
    {
      Refcounts.SentOwned(q, View(), m);
      pool.Sent(m);
      assert View() == Spec.Sent(old(View()), m);
    }

    /** Notes a reference in hand that nobody will ever give up. */
    ghost method Lose(m: Mbuf)
      requires Shaped()
      modifies this`lost
      ensures Shaped() && View() == old(View()).(lost := old(View()).lost + multiset{m})
    {
      lost := lost + multiset{m};
    }

    /** Sends one more copy of a packet: from the store, with some reference in hand, or of the
        Data just received. */
    method SendCopy(ghost q: CsSpec.Queue, m: Mbuf, p: nat, ret: nat, ghost hand: multiset<Mbuf>)
      requires Owns(q, hand) && m in pool.refs && p < APP_MAX_ETH_PORTS && ret <= MAX_PKT_BURST
      modifies this, txMbufs, pool
      ensures Owns(q, hand) && View() == Spec.SendSingle(Spec.Retain(old(View()), m), m, p, ret)
    {
      ghost var t := View();
      Refcounts.RetainOwned(q, t, m, hand);
      pool.Retain(m);
      assert View() == Spec.Retain(t, m);
      Forward(q, m, p, ret, hand);
    }

    /** Sends a copy of a packet to every port whose bit is set, from the lowest bit up. The packet
        keeps a reference of its own, in the store or lost. */
    method SendCopies(ghost q: CsSpec.Queue, m: Mbuf, mask: nat, acc: seq<nat>) returns (sent: nat)
      requires Owns(q, multiset{}) && (m in Refcounts.CsRefs(q) || m in lost) && Spec.AccOk(acc)
      modifies this, txMbufs, pool
      ensures Owns(q, multiset{})
      ensures View() == Spec.Copies(old(View()), m, FaceMask.Faces(mask), APP_MAX_ETH_PORTS, acc)
      ensures sent == Spec.PortsIn(FaceMask.Faces(mask), APP_MAX_ETH_PORTS)
    {
      hide FaceMask.Shifted, FaceMask.Bit, PortsOf, Refcounts.Owned, Spec.NoneFull, Spec.Copies, Spec.PortsIn,
           Spec.SendSingle;
      ghost var t := View();
      var portmask := mask;
      FaceMask.NotShifted(mask);
      Spec.NoCopies(t, m, FaceMask.Faces(mask), acc);
      sent := 0;
      for p := 0 to APP_MAX_ETH_PORTS
        invariant Shaped() && View() == Spec.Copies(t, m, FaceMask.Faces(mask), p, acc)
        invariant sent == Spec.PortsIn(FaceMask.Faces(mask), p)
        invariant FaceMask.Shifted(portmask, mask, p)
      {
        FaceMask.ShiftOnce(portmask, mask, p);
        Spec.CopiesNext(t, m, FaceMask.Faces(mask), p, acc);
        if portmask % 2 == 1 {
          CopyNext(q, t, m, FaceMask.Faces(mask), p, acc);
          sent := sent + 1;
        }
        portmask := portmask / 2;
      }
      CopiesOwn(q, t, m, FaceMask.Faces(mask), APP_MAX_ETH_PORTS, acc);
    }

    method CopyNext(ghost q: CsSpec.Queue, ghost t: Spec.Tx, m: Mbuf, ghost faces: set<nat>, p: nat, acc: seq<nat>)
      requires Spec.NoneFull(t.ports) && Refcounts.Owned(q, t, multiset{})
      requires (m in Refcounts.CsRefs(q) || m in t.lost) && p < APP_MAX_ETH_PORTS && p in faces && Spec.AccOk(acc)
      requires Shaped() && View() == Spec.Copies(t, m, faces, p, acc)
      modifies this, txMbufs, pool
      ensures Shaped() && View() == Spec.Copies(t, m, faces, p + 1, acc)
    {
      CopiesOwn(q, t, m, faces, p, acc);
      SendCopy(q, m, p, acc[p], multiset{});
    }

    /** Copying leaves reference counts exact and buffers not full, and the packet in memory. */
    lemma CopiesOwn(q: CsSpec.Queue, t: Spec.Tx, m: Mbuf, faces: set<nat>, n: nat, acc: seq<nat>)
      requires Spec.NoneFull(t.ports) && Refcounts.Owned(q, t, multiset{})
      requires (m in Refcounts.CsRefs(q) || m in t.lost) && n <= APP_MAX_ETH_PORTS && Spec.AccOk(acc)
      ensures var t' := Spec.Copies(t, m, faces, n, acc);
              Spec.NoneFull(t'.ports) && Refcounts.Owned(q, t', multiset{}) && m in t'.mem.refs
    {
      Spec.CopiesEffect(t, m, faces, n, acc);
      Refcounts.CopiesOwned(q, t, m, faces, n, acc);
      Refcounts.KeptNotFree(q, Spec.Copies(t, m, faces, n, acc), m, multiset{});
    }

    /** Empties the buffer of a port. */
    method DrainPort(ghost q: CsSpec.Queue, p: nat, ret: nat)
      requires Owns(q, multiset{}) && p < APP_MAX_ETH_PORTS && ret <= txMbufs[p].len
      modifies this, txMbufs, pool
      ensures Owns(q, multiset{}) && View() == Spec.Flush(old(View()), p, ret)
    {
      Refcounts.BurstOwned(q, View(), p, ret, multiset{});
      Refcounts.FlushOwned(q, View(), p, ret);
      Spec.FlushEffect(View(), p, ret);
      Flush(p, ret);
    }

    lemma DrainedOwn(q: CsSpec.Queue, t: Spec.Tx, n: nat, acc: seq<nat>)
      requires Spec.NoneFull(t.ports) && Refcounts.Owned(q, t, multiset{})
      requires n <= APP_MAX_ETH_PORTS && Spec.Acceptable(t, acc)
      ensures Spec.NoneFull(Spec.Drained(t, n, acc).ports) && Refcounts.Owned(q, Spec.Drained(t, n, acc), multiset{})
    {
      Spec.DrainedEffect(t, n, acc);
      Refcounts.DrainedOwned(q, t, n, acc);
    }

    /** What the card takes from every port when all it is offered is what waits there. */
    method Accepted(acc: seq<nat>) returns (taken: seq<nat>)
      requires Shaped() && |acc| == APP_MAX_ETH_PORTS
      ensures Spec.Acceptable(View(), taken)
      ensures forall p :: 0 <= p < APP_MAX_ETH_PORTS ==>
                taken[p] == if acc[p] < txMbufs[p].len then acc[p] else txMbufs[p].len
    {
      taken := [];
      for p := 0 to APP_MAX_ETH_PORTS
        invariant |taken| == p
        invariant forall k :: 0 <= k < p ==> taken[k] == if acc[k] < txMbufs[k].len then acc[k] else txMbufs[k].len
      {
        taken := taken + [if acc[p] < txMbufs[p].len then acc[p] else txMbufs[p].len];
      }
      forall k | 0 <= k < APP_MAX_ETH_PORTS ensures taken[k] <= |View().ports[k].buf| {
        assert View().ports[k].buf == txMbufs[k].mTable[..txMbufs[k].len];
      }
    }

    /** Empties the buffer of every port. */
    method Drain(ghost q: CsSpec.Queue, acc: seq<nat>)
      requires Owns(q, multiset{}) && Spec.Acceptable(View(), acc)
      modifies this, txMbufs, pool
      ensures Owns(q, multiset{}) && View() == Spec.Drained(old(View()), APP_MAX_ETH_PORTS, acc)
    {
      ghost var t := View();
      for p := 0 to APP_MAX_ETH_PORTS
        invariant Shaped() && View() == Spec.Drained(t, p, acc)
      {
        assert View().ports[p] == t.ports[p];
        DrainedOwn(q, t, p, acc);
        DrainPort(q, p, acc[p]);
      }
      DrainedOwn(q, t, APP_MAX_ETH_PORTS, acc);
    }
  }
}
