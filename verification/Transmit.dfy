/**
 Transmission: the per-port buffers that packets wait in, the bursts offered to the network
 card, and the references that go with them. How many packets the card accepts is an input.
 The histories out and bursts and the multiset lost exist for the proofs only.
 */
module Transmit {
  import opened Defs
  import opened Mbufs

  /** A buffer with the frame it held at some moment. */
  datatype Pkt = Pkt(mbuf: Mbuf, frame: Frame)

  /** One call to the network card: what it took and what it refused. */
  datatype Burst = Burst(sent: seq<Pkt>, refused: seq<Pkt>)

  datatype Port = Port(bursts: seq<Burst>, buf: seq<Mbuf>)

  /** A packet entering the transmit buffer of a port. */
  datatype Out = Out(port: nat, pkt: Pkt)

  /** lost holds the references that nobody will ever give up. */
  datatype Tx = Tx(ports: seq<Port>, mem: Mem, out: seq<Out>, drops: nat, lost: multiset<Mbuf>)

  function Init(): Tx {
    Tx(seq(APP_MAX_ETH_PORTS, _ => Port([], [])), Mem(multiset{}, multiset{}, map[]), [], 0, multiset{})
  }

  function FrameOf(frames: map<Mbuf, Frame>, m: Mbuf): Frame {
    if m in frames then frames[m] else Frame(0, 0, [])
  }

  function Tag(ms: seq<Mbuf>, frames: map<Mbuf, Frame>): (ps: seq<Pkt>)
    ensures |ps| == |ms|
  {
    seq(|ms|, i requires 0 <= i < |ms| => Pkt(ms[i], FrameOf(frames, ms[i])))
  }

  /** Offers the buffer of a port to the network card, which takes the first k packets; the
      others are freed. */
  function SendBurst(t: Tx, p: nat, k: nat): Tx
    requires p < |t.ports| && k <= |t.ports[p].buf|
  {
    var buf := t.ports[p].buf;
    var burst := Burst(Tag(buf[..k], t.mem.frames), Tag(buf[k..], t.mem.frames));
    t.(ports := t.ports[p := Port(t.ports[p].bursts + [burst], [])],
       mem := Mem(t.mem.refs - multiset(buf[k..]), t.mem.nic + multiset(buf[..k]), t.mem.frames),
       drops := t.drops + |buf| - k)
  }

  function Enqueue(t: Tx, m: Mbuf, p: nat): Tx
    requires p < |t.ports|
  {
    t.(ports := t.ports[p := t.ports[p].(buf := t.ports[p].buf + [m])],
       out := t.out + [Out(p, Pkt(m, FrameOf(t.mem.frames, m)))])
  }

  /** Buffers a packet for a port and sends the whole buffer once it is full. */
  function SendSingle(t: Tx, m: Mbuf, p: nat, k: nat): Tx
    requires p < |t.ports| && k <= MAX_PKT_BURST
  {
    var t' := Enqueue(t, m, p);
    if |t'.ports[p].buf| == MAX_PKT_BURST then SendBurst(t', p, k) else t'
  }

  function Receive(t: Tx, m: Mbuf, frame: Frame): Tx {
    t.(mem := Mem(t.mem.refs + multiset{m}, t.mem.nic, t.mem.frames[m := frame]))
  }

  function Retain(t: Tx, m: Mbuf): Tx {
    t.(mem := t.mem.(refs := t.mem.refs + multiset{m}))
  }

  function Free(t: Tx, m: Mbuf): Tx {
    t.(mem := t.mem.(refs := t.mem.refs - multiset{m}))
  }

  /** The network card is done with a packet. */
  function Sent(t: Tx, m: Mbuf): Tx {
    t.(mem := Mem(t.mem.refs - multiset{m}, t.mem.nic - multiset{m}, t.mem.frames))
  }

  /** Copies for the ports below n that are in a set; each takes a reference of its own. */
  function Copies(t: Tx, m: Mbuf, faces: set<nat>, n: nat, acc: seq<nat>): (t': Tx)
    requires n <= |t.ports| == APP_MAX_ETH_PORTS && AccOk(acc)
    ensures |t'.ports| == APP_MAX_ETH_PORTS
  {
    if n == 0 then t
    else
      var t' := Copies(t, m, faces, n - 1, acc);
      if n - 1 in faces then SendSingle(Retain(t', m), m, n - 1, acc[n - 1]) else t'
  }

  /** How many of the ports below n are in a set. */
  function PortsIn(faces: set<nat>, n: nat): nat {
    if n == 0 then 0 else PortsIn(faces, n - 1) + if n - 1 in faces then 1 else 0
  }

  /** Sends what a port has, if anything. */
  function Flush(t: Tx, p: nat, k: nat): (t': Tx)
    requires p < |t.ports| && k <= |t.ports[p].buf|
    ensures |t'.ports| == |t.ports| && t'.ports[p].buf == []
  {
    if t.ports[p].buf == [] then t else SendBurst(t, p, k)
  }

  /** Flushes the ports below n. */
  function Drained(t: Tx, n: nat, acc: seq<nat>): (t': Tx)
    requires n <= |t.ports| == |acc| && Acceptable(t, acc)
    ensures |t'.ports| == |t.ports| && forall p :: n <= p < |t.ports| ==> t'.ports[p] == t.ports[p]
  {
    if n == 0 then t
    else Flush(Drained(t, n - 1, acc), n - 1, acc[n - 1])
  }

  /** The card accepts no more than a full burst from any port. */
  predicate AccOk(acc: seq<nat>) {
    |acc| == APP_MAX_ETH_PORTS && forall p :: 0 <= p < |acc| ==> acc[p] <= MAX_PKT_BURST
  }

  /** The card accepts no more than is there. */
  predicate Acceptable(t: Tx, acc: seq<nat>) {
    |acc| == |t.ports| && forall p :: 0 <= p < |acc| ==> acc[p] <= |t.ports[p].buf|
  }

  predicate NoneFull(ports: seq<Port>) {
    |ports| == APP_MAX_ETH_PORTS && forall p :: 0 <= p < |ports| ==> |ports[p].buf| < MAX_PKT_BURST
  }

  // ----- What transmission leaves alone -----

  lemma SingleEffect(t: Tx, m: Mbuf, p: nat, k: nat)
    requires p < |t.ports| && k <= MAX_PKT_BURST && NoneFull(t.ports)
    ensures var t' := SendSingle(t, m, p, k);
            && NoneFull(t'.ports) && t'.mem.frames == t.mem.frames && t'.lost == t.lost
            && t'.out == t.out + [Out(p, Pkt(m, FrameOf(t.mem.frames, m)))]
  {
  }

  /** The packets for the ports below n that are in a set, in port order. */
  function CopiesOut(faces: set<nat>, n: nat, x: Pkt): seq<Out> {
    if n == 0 then []
    else CopiesOut(faces, n - 1, x) + if n - 1 in faces then [Out(n - 1, x)] else []
  }

  lemma NoCopies(t: Tx, m: Mbuf, faces: set<nat>, acc: seq<nat>)
    requires |t.ports| == APP_MAX_ETH_PORTS && AccOk(acc)
    ensures Copies(t, m, faces, 0, acc) == t && PortsIn(faces, 0) == 0
  {
  }

  /** One more port. */
  lemma CopiesNext(t: Tx, m: Mbuf, faces: set<nat>, n: nat, acc: seq<nat>)
    requires n < |t.ports| == APP_MAX_ETH_PORTS && AccOk(acc)
    ensures n !in faces ==> Copies(t, m, faces, n + 1, acc) == Copies(t, m, faces, n, acc)
    ensures PortsIn(faces, n + 1) == PortsIn(faces, n) + if n in faces then 1 else 0
  {
  }

  lemma {:induction false} CopiesEffect(t: Tx, m: Mbuf, faces: set<nat>, n: nat, acc: seq<nat>)
    requires n <= |t.ports| == APP_MAX_ETH_PORTS && AccOk(acc) && NoneFull(t.ports)
    ensures var t' := Copies(t, m, faces, n, acc);
            && NoneFull(t'.ports) && t'.mem.frames == t.mem.frames && t'.lost == t.lost
            && t'.out == t.out + CopiesOut(faces, n, Pkt(m, FrameOf(t.mem.frames, m)))
  {
    hide SendSingle;
    if n > 0 {
      CopiesEffect(t, m, faces, n - 1, acc);
      if n - 1 in faces {
        SingleEffect(Retain(Copies(t, m, faces, n - 1, acc), m), m, n - 1, acc[n - 1]);
      }
    }
  }

  lemma FlushEffect(t: Tx, p: nat, k: nat)
    requires p < |t.ports| && k <= |t.ports[p].buf| && NoneFull(t.ports)
    ensures var t' := Flush(t, p, k);
            && NoneFull(t'.ports) && t'.mem.frames == t.mem.frames && t'.lost == t.lost && t'.out == t.out
            && t'.ports == t.ports[p := t'.ports[p]]
  {
  }

  lemma {:induction false} DrainedEffect(t: Tx, n: nat, acc: seq<nat>)
    requires n <= |t.ports| == |acc| && Acceptable(t, acc) && NoneFull(t.ports)
    ensures var t' := Drained(t, n, acc);
            && NoneFull(t'.ports) && t'.mem.frames == t.mem.frames && t'.lost == t.lost && t'.out == t.out
            && (forall p :: 0 <= p < n ==> t'.ports[p].buf == [])
  {
    hide Flush;
    if n > 0 {
      DrainedEffect(t, n - 1, acc);
      FlushEffect(Drained(t, n - 1, acc), n - 1, acc[n - 1]);
    }
  }
}
