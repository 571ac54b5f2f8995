/** Reference counting: every reference to a packet buffer has exactly one holder. */
module Refcounts {
  import opened Defs
  import opened Transmit
  import Cs = CsSpec

  function MbufsOf(q: Cs.Queue): (ms: seq<Mbuf>)
    ensures |ms| == |q|
  {
    seq(|q|, k requires 0 <= k < |q| => q[k].mbuf)
  }

  /** What the content store holds. */
  function CsRefs(q: Cs.Queue): multiset<Mbuf> {
    multiset(MbufsOf(q))
  }

  /** What the transmit buffers hold. */
  function TxRefs(ports: seq<Port>): multiset<Mbuf> {
    if ports == [] then multiset{}
    else TxRefs(ports[..|ports| - 1]) + multiset(ports[|ports| - 1].buf)
  }

  /** Reference counts are exact: a buffer has as many references as it has places in the store
      and in the transmit buffers, plus what the network card holds of it, what was lost, and
      what is in hand in the middle of a step. */
  predicate Owned(q: Cs.Queue, t: Tx, hand: multiset<Mbuf>) {
    t.mem.refs == CsRefs(q) + TxRefs(t.ports) + t.mem.nic + t.lost + hand
  }

  // ----- Sums of multisets -----

  lemma Aside<T>(a: multiset<T>, a': multiset<T>, x: multiset<T>, y: multiset<T>, q: multiset<T>)
    requires a' + x == a + y
    ensures (a' + q) + x == (a + q) + y
  {
    forall v ensures ((a' + q) + x)[v] == ((a + q) + y)[v] {
      assert (a' + x)[v] == (a + y)[v];
    }
  }

  lemma Regroup<T>(refs: multiset<T>, cs: multiset<T>, tx': multiset<T>, tx: multiset<T>, nic: multiset<T>,
                   lost: multiset<T>, sent: multiset<T>, refused: multiset<T>, hand: multiset<T>)
    requires tx' + (sent + refused) == tx && refs == cs + tx + nic + lost + hand
    ensures refused <= refs && refs - refused == cs + tx' + (nic + sent) + lost + hand
  {
  }

  lemma Moved<T>(cs: multiset<T>, tx': multiset<T>, tx: multiset<T>, nic: multiset<T>, lost: multiset<T>,
                 buf: multiset<T>, x: multiset<T>, hand: multiset<T>)
    requires tx' + buf == tx + (buf + x)
    ensures cs + tx + nic + lost + (hand + x) == cs + tx' + nic + lost + hand
  {
    forall v ensures (cs + tx + nic + lost + (hand + x))[v] == (cs + tx' + nic + lost + hand)[v] {
      assert (tx' + buf)[v] == (tx + (buf + x))[v];
    }
  }

  lemma GiveUp<T>(refs: multiset<T>, held: multiset<T>, x: multiset<T>, hand: multiset<T>)
    requires refs == held + (hand + x)
    ensures x <= refs && refs - x == held + hand
  {
  }

  lemma Replaced<T>(refs: multiset<T>, cs: multiset<T>, cs': multiset<T>, x: multiset<T>, gone: multiset<T>,
                    tx: multiset<T>, nic: multiset<T>, lost: multiset<T>)
    requires cs' + gone == cs + x && refs == cs + tx + nic + lost + x
    ensures gone <= refs && refs - gone == cs' + tx + nic + lost + multiset{}
  {
    forall v
      ensures (refs - gone)[v] == (cs' + tx + nic + lost + multiset{})[v]
      ensures gone[v] <= refs[v]
    {
      assert (cs' + gone)[v] == (cs + x)[v];
    }
  }

  lemma Released<T>(refs: multiset<T>, cs: multiset<T>, tx: multiset<T>, nic: multiset<T>, lost: multiset<T>, x: T)
    requires x in nic && refs == cs + tx + nic + lost + multiset{}
    ensures x in refs && refs - multiset{x} == cs + tx + (nic - multiset{x}) + lost + multiset{}
  {
  }

  // ----- The holders change one at a time -----

  lemma {:induction false} TxUpdate(ports: seq<Port>, p: nat, x: Port)
    requires p < |ports|
    ensures TxRefs(ports[p := x]) + multiset(ports[p].buf) == TxRefs(ports) + multiset(x.buf)
  {
    var n := |ports| - 1;
    if p < n {
      TxUpdate(ports[..n], p, x);
      assert ports[p := x][..n] == ports[..n][p := x];
      Aside(TxRefs(ports[..n]), TxRefs(ports[..n][p := x]), multiset(ports[p].buf), multiset(x.buf),
            multiset(ports[n].buf));
    } else {
      assert ports[p := x][..n] == ports[..n];
    }
  }

  /** A burst hands the packets sent over to the card and gives up one reference, that of the
      transmit buffer, for each packet refused. */
  lemma BurstOwned(q: Cs.Queue, t: Tx, p: nat, k: nat, hand: multiset<Mbuf>)
    requires p < |t.ports| && k <= |t.ports[p].buf| && Owned(q, t, hand)
    ensures Owned(q, SendBurst(t, p, k), hand)
    ensures multiset(t.ports[p].buf[k..]) <= t.mem.refs
  {
    var b := t.ports[p].buf;
    var t' := SendBurst(t, p, k);
    assert b == b[..k] + b[k..];
    TxUpdate(t.ports, p, t'.ports[p]);
    Regroup(t.mem.refs, CsRefs(q), TxRefs(t'.ports), TxRefs(t.ports), t.mem.nic, t.lost, multiset(b[..k]),
            multiset(b[k..]), hand);
  }

  lemma EnqueueOwned(q: Cs.Queue, t: Tx, x: Mbuf, p: nat, hand: multiset<Mbuf>)
    requires p < |t.ports| && Owned(q, t, hand + multiset{x})
    ensures Owned(q, Enqueue(t, x, p), hand)
  {
    var t' := Enqueue(t, x, p);
    TxUpdate(t.ports, p, t'.ports[p]);
    Moved(CsRefs(q), TxRefs(t'.ports), TxRefs(t.ports), t.mem.nic, t.lost, multiset(t.ports[p].buf), multiset{x}, hand);
  }

  /** Sending takes over a reference that was in hand. */
  lemma SingleOwned(q: Cs.Queue, t: Tx, x: Mbuf, p: nat, k: nat, hand: multiset<Mbuf>)
    requires p < |t.ports| && k <= MAX_PKT_BURST && Owned(q, t, hand + multiset{x})
    ensures Owned(q, SendSingle(t, x, p, k), hand)
    ensures Owned(q, Enqueue(t, x, p), hand)
  {
    EnqueueOwned(q, t, x, p, hand);
    if |Enqueue(t, x, p).ports[p].buf| == MAX_PKT_BURST {
      BurstOwned(q, Enqueue(t, x, p), p, k, hand);
    }
  }

  lemma {:induction false} TxPart(ports: seq<Port>, p: nat)
    requires p < |ports|
    ensures multiset(ports[p].buf) <= TxRefs(ports)
  {
    if p < |ports| - 1 {
      TxPart(ports[..|ports| - 1], p);
    }
  }

  /** The buffer that a packet joins has a reference for each of its packets and the new one, so
      whatever part of it the card refuses can be freed; and afterwards what is still in hand
      has its reference too. */
  lemma SafeToSend(q: Cs.Queue, t: Tx, x: Mbuf, p: nat, k: nat, hand: multiset<Mbuf>)
    requires p < |t.ports| && k <= MAX_PKT_BURST && Owned(q, t, hand + multiset{x})
    ensures multiset(t.ports[p].buf + [x]) <= t.mem.refs
    ensures hand <= SendSingle(t, x, p, k).mem.refs
  {
    SingleOwned(q, t, x, p, k, hand);
    var t' := Enqueue(t, x, p);
    TxPart(t'.ports, p);
    assert t'.ports[p].buf == t.ports[p].buf + [x];
  }

  lemma RetainOwned(q: Cs.Queue, t: Tx, x: Mbuf, hand: multiset<Mbuf>)
    requires Owned(q, t, hand)
    ensures Owned(q, Retain(t, x), hand + multiset{x})
  {
  }

  /** A packet that the store keeps, or that is lost, is not free. */
  lemma KeptNotFree(q: Cs.Queue, t: Tx, x: Mbuf, hand: multiset<Mbuf>)
    requires Owned(q, t, hand) && (x in CsRefs(q) || x in t.lost)
    ensures x in t.mem.refs
  {
  }

  lemma FreeOwned(q: Cs.Queue, t: Tx, x: Mbuf, hand: multiset<Mbuf>)
    requires Owned(q, t, hand + multiset{x})
    ensures x in t.mem.refs && Owned(q, Free(t, x), hand)
  {
    GiveUp(t.mem.refs, CsRefs(q) + TxRefs(t.ports) + t.mem.nic + t.lost, multiset{x}, hand);
  }

  lemma {:induction false} CopiesOwned(q: Cs.Queue, t: Tx, x: Mbuf, faces: set<nat>, n: nat, acc: seq<nat>)
    requires n <= |t.ports| == APP_MAX_ETH_PORTS && AccOk(acc) && Owned(q, t, multiset{})
    ensures Owned(q, Copies(t, x, faces, n, acc), multiset{})
  {
    hide Owned, SendSingle;
    if n > 0 {
      CopiesOwned(q, t, x, faces, n - 1, acc);
      var t' := Copies(t, x, faces, n - 1, acc);
      if n - 1 in faces {
        RetainOwned(q, t', x, multiset{});
        SingleOwned(q, Retain(t', x), x, n - 1, acc[n - 1], multiset{});
      }
    }
  }

  lemma FlushOwned(q: Cs.Queue, t: Tx, p: nat, k: nat)
    requires p < |t.ports| && k <= |t.ports[p].buf| && Owned(q, t, multiset{})
    ensures Owned(q, Flush(t, p, k), multiset{})
  {
    if t.ports[p].buf != [] {
      BurstOwned(q, t, p, k, multiset{});
    }
  }

  lemma {:induction false} DrainedOwned(q: Cs.Queue, t: Tx, n: nat, acc: seq<nat>)
    requires n <= |t.ports| == |acc| && Acceptable(t, acc) && Owned(q, t, multiset{})
    ensures Owned(q, Drained(t, n, acc), multiset{})
  {
    hide Owned, Flush;
    if n > 0 {
      DrainedOwned(q, t, n - 1, acc);
      FlushOwned(q, Drained(t, n - 1, acc), n - 1, acc[n - 1]);
    }
  }

  /** What the queue loses by making room is what is evicted. */
  lemma RoomRefs(d: Cs.Dim, q: Cs.Queue, item: Cs.Item)
    ensures CsRefs(Cs.Room(d, q) + [item]) + Cs.Gone(d, q) == CsRefs(q) + multiset{item.mbuf}
  {
    var room := Cs.Room(d, q);
    assert MbufsOf(room + [item]) == MbufsOf(room) + [item.mbuf];
    if Cs.Evicted(d, q).Some? {
      assert MbufsOf(q) == [q[0].mbuf] + MbufsOf(room);
    }
  }

  /** The store takes over a reference in hand; what it evicts gives its reference up. */
  lemma StoreOwned(d: Cs.Dim, q: Cs.Queue, t: Tx, item: Cs.Item)
    requires Owned(q, t, multiset{item.mbuf})
    ensures Cs.Gone(d, q) <= t.mem.refs
    ensures Owned(Cs.Room(d, q) + [item], t.(mem := t.mem.(refs := t.mem.refs - Cs.Gone(d, q))), multiset{})
  {
    RoomRefs(d, q, item);
    Replaced(t.mem.refs, CsRefs(q), CsRefs(Cs.Room(d, q) + [item]), multiset{item.mbuf}, Cs.Gone(d, q), TxRefs(t.ports),
             t.mem.nic, t.lost);
  }

  lemma StoredKept(d: Cs.Dim, q: Cs.Queue, item: Cs.Item)
    requires d.buckets > 0
    ensures Cs.Insert(d, q, item).1 ==> item.mbuf in CsRefs(Cs.Insert(d, q, item).0)
    ensures !Cs.Insert(d, q, item).1 ==> Cs.Insert(d, q, item).0 == q
  {
    var q' := Cs.Insert(d, q, item).0;
    if Cs.Insert(d, q, item).1 {
      assert MbufsOf(q')[|q'| - 1] == item.mbuf;
    }
  }

  lemma SentOwned(q: Cs.Queue, t: Tx, m: Mbuf)
    requires m in t.mem.nic && Owned(q, t, multiset{})
    ensures Owned(q, Sent(t, m), multiset{}) && m in t.mem.refs
  {
    Released(t.mem.refs, CsRefs(q), TxRefs(t.ports), t.mem.nic, t.lost, m);
  }

  lemma {:induction false} NothingHeld(n: nat)
    ensures TxRefs(seq(n, _ => Port([], []))) == multiset{}
  {
    if n > 0 {
      NothingHeld(n - 1);
      assert seq(n, _ => Port([], []))[..n - 1] == seq(n - 1, _ => Port([], []));
    }
  }

  lemma {:induction false} TxHolds(ports: seq<Port>, p: nat, m: Mbuf)
    requires p < |ports| && m in ports[p].buf
    ensures m in TxRefs(ports)
  {
    if p < |ports| - 1 {
      TxHolds(ports[..|ports| - 1], p, m);
    }
  }

  /** Some holder refers to a buffer. */
  predicate Reachable(q: Cs.Queue, t: Tx, m: Mbuf) {
    || (exists k :: 0 <= k < |q| && q[k].mbuf == m)
    || (exists p :: 0 <= p < |t.ports| && m in t.ports[p].buf)
    || m in t.mem.nic
  }

  /** What any holder refers to is not free. */
  lemma ReachableNotFree(q: Cs.Queue, t: Tx, m: Mbuf)
    requires Owned(q, t, multiset{}) && Reachable(q, t, m)
    ensures m in t.mem.refs
  {
    if k :| 0 <= k < |q| && q[k].mbuf == m {
      assert MbufsOf(q)[k] == m;
    } else if p :| 0 <= p < |t.ports| && m in t.ports[p].buf {
      TxHolds(t.ports, p, m);
    }
  }
}
