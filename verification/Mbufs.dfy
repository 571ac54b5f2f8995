/** Packet buffers, their contents and their reference counts. */
module Mbufs {
  import opened Defs

  /** A received frame: the EtherType and IP protocol fields as the data plane compares
      them, and the bytes that follow the IP header. */
  datatype Frame = Frame(etherType: nat, proto: nat, icn: seq<byte>)

  /** refs[m] is the reference count of m and nic[m] how many of these references the
      network card holds while it transmits. A buffer without references is free to be
      handed out again with new contents. */
  datatype Mem = Mem(refs: multiset<Mbuf>, nic: multiset<Mbuf>, frames: map<Mbuf, Frame>)

  class Pool {
    var refs: multiset<Mbuf>
    var nic: multiset<Mbuf>
    var frames: map<Mbuf, Frame>

    ghost function View(): Mem
      reads this
    {
      Mem(refs, nic, frames)
    }

    constructor ()
      ensures View() == Mem(multiset{}, multiset{}, map[])
    {
      refs, nic, frames := multiset{}, multiset{}, map[];
    }

    /** Free buffers for a burst, none of them twice. */
    method Alloc(n: nat) returns (ms: seq<Mbuf>)
      ensures |ms| == n && forall i :: 0 <= i < n ==> ms[i] !in refs
      ensures forall i, j :: 0 <= i < j < n ==> ms[i] != ms[j]
    {
      var used: set<Mbuf> := set m | m in refs;
      var next: nat := 0;
      while used != {}
        invariant forall m :: m in refs ==> m in used || m < next
        decreases |used|
      {
        var m :| m in used;
        next := if m < next then next else m + 1;
        used := used - {m};
      }
      ms := seq(n, i requires 0 <= i => next + i);
    }

    /** The driver fills a free buffer with a received frame. */
    method Receive(m: Mbuf, f: Frame)
      requires m !in refs
      modifies this
      ensures View() == old(View()).(refs := old(refs) + multiset{m}, frames := old(frames)[m := f])
    {
      refs := refs + multiset{m};
      frames := frames[m := f];
    }

    method Retain(m: Mbuf)
      requires m in refs
      modifies this`refs
      ensures View() == old(View()).(refs := old(refs) + multiset{m})
    {
      refs := refs + multiset{m};
    }

    /** Gives up one reference. Giving up more than there are is an error of the caller. */
    method Free(m: Mbuf)
      requires m in refs
      modifies this`refs
      ensures View() == old(View()).(refs := old(refs) - multiset{m})
    {
      refs := refs - multiset{m};
    }

    /** The network card takes over the references of the packets it accepts. */
    method HandOver(ms: seq<Mbuf>)
      modifies this`nic
      ensures View() == old(View()).(nic := old(nic) + multiset(ms))
    {
      nic := nic + multiset(ms);
    }

    /** The network card has sent a frame and gives its reference up. */
    method Sent(m: Mbuf)
      requires m in nic && m in refs
      modifies this`nic, this`refs
      ensures View() == old(View()).(nic := old(nic) - multiset{m}, refs := old(refs) - multiset{m})
    {
      nic := nic - multiset{m};
      refs := refs - multiset{m};
    }
  }
}
