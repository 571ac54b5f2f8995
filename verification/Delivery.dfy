/** What leaves through a port is what was queued for it, in order and unaltered. */
module Delivery {
  import opened Defs
  import opened Mbufs
  import opened Transmit
  import Refcounts
  import Cs = CsSpec

  /** The packets queued for a port over a whole run, in order, as they were at the time. */
  function Queued(out: seq<Out>, p: nat): seq<Pkt> {
    if out == [] then []
    else
      var last := out[|out| - 1];
      Queued(out[..|out| - 1], p) + if last.port == p then [last.pkt] else []
  }

  /** The packets offered to the network card, burst by burst: those it took, then those it
      refused. */
  function Offered(bursts: seq<Burst>): seq<Pkt> {
    if bursts == [] then []
    else
      var last := bursts[|bursts| - 1];
      Offered(bursts[..|bursts| - 1]) + (last.sent + last.refused)
  }

  function Refusals(bursts: seq<Burst>): nat {
    if bursts == [] then 0
    else Refusals(bursts[..|bursts| - 1]) + |bursts[|bursts| - 1].refused|
  }

  function AllRefusals(ports: seq<Port>): nat {
    if ports == [] then 0
    else AllRefusals(ports[..|ports| - 1]) + Refusals(ports[|ports| - 1].bursts)
  }

  predicate PortInOrder(out: seq<Out>, ports: seq<Port>, frames: map<Mbuf, Frame>, p: nat)
    requires p < |ports|
  {
    Queued(out, p) == Offered(ports[p].bursts) + Tag(ports[p].buf, frames)
  }

  /** Each port is a first-in first-out queue that loses and alters nothing: what was queued is
      what was offered, followed by what still waits, with the contents it had when queued. The
      drop counter is the number of packets refused. */
  predicate Delivers(t: Tx) {
    && (forall p :: 0 <= p < |t.ports| ==> PortInOrder(t.out, t.ports, t.mem.frames, p))
    && t.drops == AllRefusals(t.ports)
  }

  lemma {:induction false} RefusalsUpdate(ports: seq<Port>, p: nat, x: Port)
    requires p < |ports|
    ensures AllRefusals(ports[p := x]) + Refusals(ports[p].bursts) == AllRefusals(ports) + Refusals(x.bursts)
  {
    var n := |ports| - 1;
    if p < n {
      RefusalsUpdate(ports[..n], p, x);
      assert ports[p := x][..n] == ports[..n][p := x];
    } else {
      assert ports[p := x][..n] == ports[..n];
    }
  }

  lemma TagSplit(b: seq<Mbuf>, k: nat, frames: map<Mbuf, Frame>)
    requires k <= |b|
    ensures Tag(b[..k], frames) + Tag(b[k..], frames) == Tag(b, frames)
  {
  }

  lemma BurstDelivers(t: Tx, p: nat, k: nat)
    requires p < |t.ports| && k <= |t.ports[p].buf| && Delivers(t)
    ensures Delivers(SendBurst(t, p, k))
  {
    var t' := SendBurst(t, p, k);
    TagSplit(t.ports[p].buf, k, t.mem.frames);
    RefusalsUpdate(t.ports, p, t'.ports[p]);
    var bursts := t.ports[p].bursts;
    assert t'.ports[p].bursts[..|bursts|] == bursts;
    forall q | 0 <= q < |t'.ports| ensures PortInOrder(t'.out, t'.ports, t'.mem.frames, q) {
      assert PortInOrder(t.out, t.ports, t.mem.frames, q);
    }
  }

  lemma EnqueueDelivers(t: Tx, m: Mbuf, p: nat)
    requires p < |t.ports| && Delivers(t)
    ensures Delivers(Enqueue(t, m, p))
  {
    var t' := Enqueue(t, m, p);
    RefusalsUpdate(t.ports, p, t'.ports[p]);
    assert t'.out[..|t.out|] == t.out;
    assert Tag(t.ports[p].buf + [m], t.mem.frames)
        == Tag(t.ports[p].buf, t.mem.frames) + [Pkt(m, FrameOf(t.mem.frames, m))];
    forall q | 0 <= q < |t'.ports| ensures PortInOrder(t'.out, t'.ports, t'.mem.frames, q) {
      assert PortInOrder(t.out, t.ports, t.mem.frames, q);
    }
  }

  lemma SingleDelivers(t: Tx, m: Mbuf, p: nat, k: nat)
    requires p < |t.ports| && k <= MAX_PKT_BURST && Delivers(t)
    ensures Delivers(SendSingle(t, m, p, k))
  {
    EnqueueDelivers(t, m, p);
    if |Enqueue(t, m, p).ports[p].buf| == MAX_PKT_BURST {
      BurstDelivers(Enqueue(t, m, p), p, k);
    }
  }

  lemma {:induction false} CopiesDeliver(t: Tx, m: Mbuf, faces: set<nat>, n: nat, acc: seq<nat>)
    requires n <= |t.ports| == APP_MAX_ETH_PORTS && AccOk(acc) && Delivers(t)
    ensures Delivers(Copies(t, m, faces, n, acc))
  {
    if n > 0 {
      CopiesDeliver(t, m, faces, n - 1, acc);
      if n - 1 in faces {
        SingleDelivers(Retain(Copies(t, m, faces, n - 1, acc), m), m, n - 1, acc[n - 1]);
      }
    }
  }

  lemma FlushDelivers(t: Tx, p: nat, k: nat)
    requires p < |t.ports| && k <= |t.ports[p].buf| && Delivers(t)
    ensures Delivers(Flush(t, p, k))
  {
    if t.ports[p].buf != [] {
      BurstDelivers(t, p, k);
    }
  }

  lemma {:induction false} DrainedDelivers(t: Tx, n: nat, acc: seq<nat>)
    requires n <= |t.ports| == |acc| && Acceptable(t, acc) && Delivers(t)
    ensures Delivers(Drained(t, n, acc))
  {
    if n > 0 {
      DrainedDelivers(t, n - 1, acc);
      FlushDelivers(Drained(t, n - 1, acc), n - 1, acc[n - 1]);
    }
  }

  /** Filling a free buffer changes nothing that waits for transmission. */
  lemma ReceiveDelivers(q: Cs.Queue, t: Tx, m: Mbuf, frame: Frame)
    requires Delivers(t) && Refcounts.Owned(q, t, multiset{}) && m !in t.mem.refs
    ensures Delivers(Receive(t, m, frame))
  {
    var t' := Receive(t, m, frame);
    forall p | 0 <= p < |t.ports|
      ensures PortInOrder(t'.out, t'.ports, t'.mem.frames, p)
    {
      if m in t.ports[p].buf {
        Refcounts.ReachableNotFree(q, t, m);
      }
      assert Tag(t.ports[p].buf, t'.mem.frames) == Tag(t.ports[p].buf, t.mem.frames);
      assert PortInOrder(t.out, t.ports, t.mem.frames, p);
    }
  }

  // ----- Waiting -----

  /** Only packets that are queued now join those that wait. */
  predicate OnlyQueued(t: Tx, t': Tx) {
    && |t'.ports| == |t.ports|
    && forall p :: 0 <= p < |t.ports| ==>
         && |Queued(t'.out, p)| >= |Queued(t.out, p)|
         && |t'.ports[p].buf| + |Queued(t.out, p)| <= |t.ports[p].buf| + |Queued(t'.out, p)|
  }

  lemma SingleQueues(t: Tx, m: Mbuf, p: nat, k: nat)
    requires p < |t.ports| && k <= MAX_PKT_BURST
    ensures OnlyQueued(t, SendSingle(t, m, p, k))
  {
    var t' := Enqueue(t, m, p);
    assert t'.out[..|t.out|] == t.out;
  }

  lemma {:induction false} CopiesQueue(t: Tx, m: Mbuf, faces: set<nat>, n: nat, acc: seq<nat>)
    requires n <= |t.ports| == APP_MAX_ETH_PORTS && AccOk(acc)
    ensures OnlyQueued(t, Copies(t, m, faces, n, acc))
  {
    hide SendSingle, Queued;
    if n > 0 {
      var t' := Copies(t, m, faces, n - 1, acc);
      CopiesQueue(t, m, faces, n - 1, acc);
      if n - 1 in faces {
        SingleQueues(Retain(t', m), m, n - 1, acc[n - 1]);
      }
    }
  }

  // ----- Bursts -----

  /** How an event moves the packets of a port. What waits, with what is queued now, is offered to
      the card when it makes a full burst, and in a drain when there is any; the card takes the
      first k packets. Otherwise it goes on waiting. */
  predicate PortMoves(t: Tx, t': Tx, p: nat, k: nat, drain: bool)
    requires p < |t.ports| == |t'.ports|
  {
    var before, after := Queued(t.out, p), Queued(t'.out, p);
    && before <= after && |after| <= |before| + 1
    && var w := Tag(t.ports[p].buf, t.mem.frames) + after[|before|..];
       if |w| == MAX_PKT_BURST || (drain && w != []) then
         && k <= |w| && t'.ports[p].buf == []
         && t'.ports[p].bursts == t.ports[p].bursts + [Burst(w[..k], w[k..])]
       else Tag(t'.ports[p].buf, t'.mem.frames) == w && t'.ports[p].bursts == t.ports[p].bursts
  }

  /** Nothing happens to a port. */
  predicate PortRests(t: Tx, t': Tx, p: nat)
    requires p < |t.ports| == |t'.ports|
  {
    t'.ports[p] == t.ports[p] && Queued(t'.out, p) == Queued(t.out, p) && t'.mem.frames == t.mem.frames
  }

  lemma RestMoves(t: Tx, t': Tx, p: nat, k: nat)
    requires p < |t.ports| == |t'.ports| && |t.ports[p].buf| < MAX_PKT_BURST && PortRests(t, t', p)
    ensures PortMoves(t, t', p, k, false)
  {
  }

  lemma TagBurst(buf: seq<Mbuf>, k: nat, frames: map<Mbuf, Frame>)
    requires k <= |buf|
    ensures Tag(buf[..k], frames) == Tag(buf, frames)[..k] && Tag(buf[k..], frames) == Tag(buf, frames)[k..]
  {
  }

  lemma SingleMoves(t: Tx, m: Mbuf, q: nat, k: nat)
    requires q < |t.ports| && k <= MAX_PKT_BURST && |t.ports[q].buf| < MAX_PKT_BURST
    ensures var t' := SendSingle(t, m, q, k);
            && |t'.ports| == |t.ports| && PortMoves(t, t', q, k, false)
            && forall p :: 0 <= p < |t.ports| && p != q ==> PortRests(t, t', p)
  {
    var t1 := Enqueue(t, m, q);
    assert t1.out[..|t.out|] == t.out;
    var buf, frames := t1.ports[q].buf, t.mem.frames;
    assert Tag(buf, frames) == Tag(t.ports[q].buf, frames) + [Pkt(m, FrameOf(frames, m))];
    if |buf| == MAX_PKT_BURST {
      TagBurst(buf, k, frames);
    }
  }

  /** A port that moves in one of two stretches and rests in the other moves as in that one. */
  lemma MovesOnce(t: Tx, t1: Tx, t': Tx, p: nat, k: nat, drain: bool)
    requires p < |t.ports| == |t1.ports| == |t'.ports|
    requires || (PortRests(t, t1, p) && PortMoves(t1, t', p, k, drain))
             || (PortMoves(t, t1, p, k, drain) && PortRests(t1, t', p))
    ensures PortMoves(t, t', p, k, drain)
  {
  }

  /** What happens to a port in one stretch, when neither before nor after it anything does. */
  lemma SameMoves(t: Tx, t1: Tx, t2: Tx, t': Tx, p: nat, k: nat)
    requires p < |t.ports| == |t1.ports| == |t2.ports| == |t'.ports| && |t.ports[p].buf| < MAX_PKT_BURST
    requires t1.ports == t.ports && t1.out == t.out && t1.mem.frames == t.mem.frames
    requires t'.ports == t2.ports && t'.out == t2.out && t'.mem.frames == t2.mem.frames
    requires PortMoves(t1, t2, p, k, false) || PortRests(t1, t2, p)
    ensures PortMoves(t, t', p, k, false)
  {
  }

  lemma {:induction false} CopiesMove(t: Tx, m: Mbuf, faces: set<nat>, n: nat, acc: seq<nat>)
    requires n <= |t.ports| == APP_MAX_ETH_PORTS && AccOk(acc) && NoneFull(t.ports)
    ensures var t' := Copies(t, m, faces, n, acc);
            && (forall p :: 0 <= p < n ==> PortMoves(t, t', p, acc[p], false))
            && (forall p :: n <= p < |t.ports| ==> PortRests(t, t', p))
  {
    hide SendSingle, Queued, PortMoves;
    if n > 0 {
      var t1, t' := Copies(t, m, faces, n - 1, acc), Copies(t, m, faces, n, acc);
      CopiesMove(t, m, faces, n - 1, acc);
      assert PortRests(t, Copies(t, m, faces, n - 1, acc), n - 1);
      if n - 1 in faces {
        var t2 := Retain(t1, m);
        SingleMoves(t2, m, n - 1, acc[n - 1]);
        forall p | 0 <= p < |t.ports|
          ensures p < n ==> PortMoves(t, t', p, acc[p], false)
          ensures p >= n ==> PortRests(t, t', p)
        {
          assert PortRests(t1, t2, p);
          if p == n - 1 {
            MovesOnce(t1, t2, t', p, acc[p], false);
          } else {
            assert PortRests(t2, t', p) && PortRests(t1, t', p);
          }
          if p < n {
            MovesOnce(t, t1, t', p, acc[p], false);
          } else {
            assert PortRests(t, Copies(t, m, faces, n - 1, acc), p);
          }
        }
      } else {
        RestMoves(t, t', n - 1, acc[n - 1]);
      }
    }
  }

  lemma FlushMoves(t: Tx, q: nat, k: nat)
    requires q < |t.ports| && k <= |t.ports[q].buf| < MAX_PKT_BURST
    ensures var t' := Flush(t, q, k);
            && |t'.ports| == |t.ports| && PortMoves(t, t', q, k, true)
            && forall p :: 0 <= p < |t.ports| && p != q ==> PortRests(t, t', p)
  {
    var w := Tag(t.ports[q].buf, t.mem.frames);
    TagBurst(t.ports[q].buf, k, t.mem.frames);
    var queued := Queued(t.out, q);
    assert queued[|queued|..] == [] && w + [] == w;
  }

  lemma {:induction false} DrainedMoves(t: Tx, n: nat, acc: seq<nat>)
    requires n <= |t.ports| == |acc| && Acceptable(t, acc) && NoneFull(t.ports)
    ensures var t' := Drained(t, n, acc);
            forall p :: 0 <= p < |t.ports| ==> if p < n then PortMoves(t, t', p, acc[p], true) else PortRests(t, t', p)
  {
    hide Flush, Queued, PortMoves;
    if n > 0 {
      var t1, t' := Drained(t, n - 1, acc), Drained(t, n, acc);
      DrainedMoves(t, n - 1, acc);
      assert PortRests(t, t1, n - 1);
      FlushMoves(t1, n - 1, acc[n - 1]);
      forall p | 0 <= p < |t.ports| ensures if p < n then PortMoves(t, t', p, acc[p], true) else PortRests(t, t', p) {
        if p != n - 1 {
          assert PortRests(t1, t', p);
        }
        if p < n {
          MovesOnce(t, t1, t', p, acc[p], true);
        }
      }
    }
  }

  lemma {:induction false} NothingRefused(n: nat)
    ensures AllRefusals(seq(n, _ => Port([], []))) == 0
  {
    if n > 0 {
      NothingRefused(n - 1);
      assert seq(n, _ => Port([], []))[..n - 1] == seq(n - 1, _ => Port([], []));
    }
  }
}
