/** How a router loses packet buffers: a run that leads to it, and that it is for good. */
module Leaks {
  import opened Defs
  import opened Mbufs
  import opened Router
  import opened Runs
  import Bucket
  import Cs = CsSpec
  import Refcounts
  import Tables
  import Wire

  /** A frame that carries Data whose name falls in a bucket of the store. */
  predicate DataIn(d: Cs.Dim, f: Frame, b: nat)
    requires d.buckets > 0
  {
    WellFormed(f) && Classify(f).Data? && Bucket.Of(d.h, Classify(f).name, d.buckets) == b
  }

  function Arrival(f: Frame, m: Mbuf): Event {
    Receive(m, f, 0, 0, 0, 0, seq(APP_MAX_ETH_PORTS, _ => 0))
  }

  /** Frames received one after the other, the k-th into buffer k. */
  function Arrivals(frames: seq<Frame>): seq<Event> {
    if frames == [] then []
    else Arrivals(frames[..|frames| - 1]) + [Arrival(frames[|frames| - 1], |frames| - 1)]
  }

  lemma {:induction false} ArrivalsData(d: Cs.Dim, frames: seq<Frame>, b: nat)
    requires d.buckets > 0 && forall k :: 0 <= k < |frames| ==> DataIn(d, frames[k], b)
    ensures |Arrivals(frames)| == |frames| == |Tables.DataOf(Arrivals(frames))|
    ensures Cs.InBucket(d, Tables.DataOf(Arrivals(frames)), b)
  {
    hide WellFormed, Classify;
    if frames != [] {
      var prev := frames[..|frames| - 1];
      ArrivalsData(d, prev, b);
      assert Arrivals(frames)[..|prev|] == Arrivals(prev);
      assert DataIn(d, frames[|prev|], b);
    }
  }

  lemma ArrivalHandled(d: Cs.Dim, s: State, f: Frame, m: Mbuf, b: nat)
    requires d.buckets > 0 && DataIn(d, f, b)
    ensures Handles(Arrive(s, m, f, 0), Arrival(f, m))
  {
    HandlesOther(Arrive(s, m, f, 0), Arrival(f, m));
  }

  /** The clock has not moved, and all buffers from m on are free. */
  predicate FreeFrom(s: State, m: Mbuf) {
    s.clock == 0 && forall x :: x in s.tx.mem.refs ==> x < m
  }

  lemma ArrivalNext(c: Config, run: seq<Event>, f: Frame, m: Mbuf, b: nat)
    requires ConfigOk(c) && ValidRun(c, run) && FreeFrom(Exec(c, run), m) && DataIn(c.cs, f, b)
    ensures ValidRun(c, run + [Arrival(f, m)]) && FreeFrom(Exec(c, run + [Arrival(f, m)]), m + 1)
  {
    hide Exec, ValidRun, Arrive, Handles, React, DataIn;
    ArrivalHandled(c.cs, Exec(c, run), f, m, b);
    Received(c, run, Arrival(f, m));
  }

  /** Such a run is one that the router can go through. */
  lemma {:induction false} ArrivalsRun(c: Config, frames: seq<Frame>, b: nat)
    requires ConfigOk(c) && forall k :: 0 <= k < |frames| ==> DataIn(c.cs, frames[k], b)
    ensures ValidRun(c, Arrivals(frames)) && FreeFrom(Exec(c, Arrivals(frames)), |frames|)
  {
    hide DataIn, FreeFrom, Exec, ValidRun;
    if frames == [] {
      NothingYet(c);
    } else {
      var n := |frames| - 1;
      ArrivalsRun(c, frames[..n], b);
      ArrivalNext(c, Arrivals(frames[..n]), frames[n], n, b);
    }
  }

  lemma NothingYet(c: Config)
    requires ConfigOk(c)
    ensures ValidRun(c, []) && FreeFrom(Exec(c, []), 0)
  {
    Start(c);
  }

  /** After any eight Data packets of one bucket, a reference to the last of them is lost. */
  lemma RefusalHappens(c: Config, frames: seq<Frame>, b: nat)
    requires ConfigOk(c) && c.cs.capacity >= BUCKET_SIZE && |frames| == BUCKET_SIZE + 1
    requires forall k :: 0 <= k < |frames| ==> DataIn(c.cs, frames[k], b)
    ensures ValidRun(c, Arrivals(frames)) && BUCKET_SIZE in Exec(c, Arrivals(frames)).tx.lost
  {
    hide Exec, ValidRun, FreeFrom, WellFormed;
    var prev, e := Arrivals(frames[..BUCKET_SIZE]), Arrival(frames[BUCKET_SIZE], BUCKET_SIZE);
    ArrivalsRun(c, frames, b);
    ArrivalsRun(c, frames[..BUCKET_SIZE], b);
    ArrivalsData(c.cs, frames[..BUCKET_SIZE], b);
    var held := Tables.DataOf(prev);
    Tables.StoreHoldsNewest(c, prev);
    assert DataIn(c.cs, frames[BUCKET_SIZE], b);
    Cs.RefusedAlthoughEvicting(c.cs, held, Cs.Item(Classify(e.frame).name, e.m));
    assert Refuses(c.cs, Exec(c, prev).cs, e);
    assert Arrivals(frames) == prev + [e] && (prev + [e])[..|prev|] == prev;
    LeaksAreRefusals(c, Arrivals(frames));
  }

  /** A Data packet that the Scapy layer prints, with a name that the tables have room for. */
  predicate Printed(l: Wire.Layer, payload: seq<byte>, f: Frame) {
    && |l.name| <= MAX_NAME_LEN && |Wire.Separators(l.name)| < MAX_NAME_COMPONENTS && l.kind == Wire.TYPE_DATA
    && l.offsets == Wire.ComputeOffset(l.name) && Wire.Fits(l, payload) && l.pktLen == 0
    && IsIcn(f) && f.icn == Wire.Packet(l, payload)
  }

  lemma PrintedIn(d: Cs.Dim, l: Wire.Layer, payload: seq<byte>, f: Frame)
    requires d.buckets > 0 && Printed(l, payload, f)
    ensures DataIn(d, f, Bucket.Of(d.h, l.name, d.buckets))
  {
    PrintedPacket(l, payload, f);
  }

  /** So a router that receives one and the same printed packet eight times loses a buffer to it. */
  lemma EightTimesLost(c: Config, l: Wire.Layer, payload: seq<byte>, f: Frame)
    requires ConfigOk(c) && c.cs.capacity >= BUCKET_SIZE && Printed(l, payload, f)
    ensures var run := Arrivals(seq(BUCKET_SIZE + 1, _ => f));
            ValidRun(c, run) && BUCKET_SIZE in Exec(c, run).tx.lost
  {
    hide Printed, DataIn, Exec, ValidRun;
    PrintedIn(c.cs, l, payload, f);
    RefusalHappens(c, seq(BUCKET_SIZE + 1, _ => f), Bucket.Of(c.cs.h, l.name, c.cs.buckets));
  }

  /** Nothing that happens later gives a lost reference back: the buffer is never free again. */
  lemma {:induction false} NeverFree(c: Config, run: seq<Event>, more: seq<Event>, m: Mbuf)
    requires ConfigOk(c) && ValidRun(c, run) && ValidRun(c, run + more) && m in Exec(c, run).tx.lost
    ensures m in Exec(c, run + more).tx.lost
    ensures forall e: Event :: e.Receive? && e.m == m ==> !Enabled(Exec(c, run + more), e)
  {
    hide Exec, ValidRun, Step, Sane, Enabled;
    if more == [] {
      assert run + more == run;
    } else {
      var whole := run + more;
      Unroll(c, whole);
      assert whole[..|whole| - 1] == run + more[..|more| - 1];
      NeverFree(c, run, more[..|more| - 1], m);
      LostStep(c, Exec(c, whole[..|whole| - 1]), whole[|whole| - 1]);
    }
    LostNotFree(c, run + more, m);
  }

  lemma LostNotFree(c: Config, run: seq<Event>, m: Mbuf)
    requires ConfigOk(c) && ValidRun(c, run) && m in Exec(c, run).tx.lost
    ensures forall e: Event :: e.Receive? && e.m == m ==> !Enabled(Exec(c, run), e)
  {
    hide Exec, ValidRun, Handles;
    RefcountsExact(c, run);
  }
}
