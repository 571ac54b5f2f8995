/** What the Content Store means: a bounded first-in first-out queue of named packets. */
module CsSpec {
  import opened Defs
  import Bucket

  datatype Item = Item(name: Name, mbuf: Mbuf)
  type Queue = seq<Item>

  datatype Dim = Dim(h: Hash, buckets: nat, capacity: nat)

  function Occupants(d: Dim, q: Queue, b: nat): set<nat>
    requires d.buckets > 0
  {
    set k: nat | k < |q| && Bucket.Of(d.h, q[k].name, d.buckets) == b
  }

  predicate BucketFull(d: Dim, q: Queue, name: Name)
    requires d.buckets > 0
  {
    |Occupants(d, q, Bucket.Of(d.h, name, d.buckets))| == BUCKET_SIZE
  }

  predicate Valid(d: Dim, q: Queue) {
    d.buckets > 0 && d.capacity > 0 && |q| <= d.capacity
  }

  /** Whether the queue has an item of a name. */
  predicate Holds(q: Queue, name: Name) {
    exists k :: 0 <= k < |q| && q[k].name == name
  }

  /** What the queue loses to make room. */
  function Evicted(d: Dim, q: Queue): Option<Mbuf> {
    if |q| == d.capacity && q != [] then Some(q[0].mbuf) else None
  }

  /** The reference that an insertion gives up. */
  function Gone(d: Dim, q: Queue): multiset<Mbuf> {
    match Evicted(d, q)
    case Some(m) => multiset{m}
    case None => multiset{}
  }

  function Room(d: Dim, q: Queue): Queue {
    if |q| == d.capacity && q != [] then q[1..] else q
  }

  /** A full bucket refuses the item before anything is evicted. */
  function Insert(d: Dim, q: Queue, item: Item): (Queue, bool)
    requires d.buckets > 0
  {
    if BucketFull(d, q, item.name) then (q, false) else (Room(d, q) + [item], true)
  }

  // ----- Whole runs of insertions, from the empty store -----

  function Run(d: Dim, items: seq<Item>): (q: Queue)
    requires d.buckets > 0 && d.capacity > 0
    ensures Valid(d, q)
  {
    if items == [] then []
    else Insert(d, Run(d, items[..|items| - 1]), items[|items| - 1]).0
  }

  /** The items that were accepted, in order. */
  function Accepted(d: Dim, items: seq<Item>): seq<Item>
    requires d.buckets > 0 && d.capacity > 0
  {
    if items == [] then []
    else
      var prev := items[..|items| - 1];
      var last := items[|items| - 1];
      if Insert(d, Run(d, prev), last).1 then Accepted(d, prev) + [last] else Accepted(d, prev)
  }

  function Newest<T>(s: seq<T>, n: nat): seq<T> {
    if |s| <= n then s else s[|s| - n..]
  }

  /** The store always holds the newest accepted items, oldest first, and no others. */
  lemma {:induction false} RunIsNewest(d: Dim, items: seq<Item>)
    requires d.buckets > 0 && d.capacity > 0
    ensures Run(d, items) == Newest(Accepted(d, items), d.capacity)
  {
    if items != [] {
      var prev := items[..|items| - 1];
      var last := items[|items| - 1];
      RunIsNewest(d, prev);
      if Insert(d, Run(d, prev), last).1 {
        NewestAppend(Accepted(d, prev), last, d);
      }
    }
  }

  lemma NewestAppend(s: seq<Item>, item: Item, d: Dim)
    requires d.capacity > 0
    ensures Newest(s + [item], d.capacity) == Room(d, Newest(s, d.capacity)) + [item]
  {
  }

  /** Eviction is in order of acceptance: when an item is accepted after n others, the one
      that leaves is the one accepted capacity places before it. */
  lemma EvictionOrder(d: Dim, items: seq<Item>, item: Item)
    requires d.buckets > 0 && d.capacity > 0
    requires Insert(d, Run(d, items), item).1
    ensures var accepted := Accepted(d, items);
            && Accepted(d, items + [item]) == accepted + [item]
            && Evicted(d, Run(d, items)) == if |accepted| < d.capacity then None
                                            else Some(accepted[|accepted| - d.capacity].mbuf)
  {
    RunIsNewest(d, items);
    assert (items + [item])[..|items|] == items;
  }

  /** An item is refused exactly when its bucket already holds BUCKET_SIZE of the newest
      accepted items; the store can refuse although the queue has room, or is about to
      evict from that very bucket. */
  lemma RefusedIff(d: Dim, items: seq<Item>, item: Item)
    requires d.buckets > 0 && d.capacity > 0
    ensures Accepted(d, items + [item]) == Accepted(d, items) <==>
            var q := Newest(Accepted(d, items), d.capacity);
            |set k: nat | k < |q| && d.h(q[k].name) % d.buckets == d.h(item.name) % d.buckets| == 7
  {
    hide Run, BucketFull, Newest, Room;
    RunIsNewest(d, items);
    FullIs(d, Newest(Accepted(d, items), d.capacity), item.name);
    assert (items + [item])[..|items|] == items;
  }

  /** A bucket is full when seven items are in it. */
  lemma FullIs(d: Dim, q: Queue, name: Name)
    requires d.buckets > 0
    ensures BucketFull(d, q, name) <==>
            |set k: nat | k < |q| && d.h(q[k].name) % d.buckets == d.h(name) % d.buckets| == 7
  {
    assert Occupants(d, q, Bucket.Of(d.h, name, d.buckets))
        == set k: nat | k < |q| && d.h(q[k].name) % d.buckets == d.h(name) % d.buckets;
  }

  /** Items whose names fall in one bucket. */
  predicate InBucket(d: Dim, items: seq<Item>, b: nat)
    requires d.buckets > 0
  {
    forall k :: 0 <= k < |items| ==> Bucket.Of(d.h, items[k].name, d.buckets) == b
  }

  lemma InBucketLoad(d: Dim, items: seq<Item>, b: nat)
    requires d.buckets > 0 && InBucket(d, items, b)
    ensures |Occupants(d, items, b)| == |items|
  {
    var occupants := Occupants(d, items, b);
    assert forall k: nat :: k < |items| ==> k in occupants;
    Bucket.Below(occupants, |items|);
  }

  lemma {:induction false} InBucketRun(d: Dim, items: seq<Item>, b: nat)
    requires d.buckets > 0 && InBucket(d, items, b) && |items| <= BUCKET_SIZE && |items| <= d.capacity && d.capacity > 0
    ensures Run(d, items) == items
  {
    hide Occupants;
    if items != [] {
      var prev := items[..|items| - 1];
      InBucketRun(d, prev, b);
      InBucketLoad(d, prev, b);
      assert items == prev + [items[|items| - 1]];
    }
  }

  /** Any BUCKET_SIZE packets of one bucket fill it, and the next one of that bucket is refused: with
      more room than that although the queue has room, and with just that much room even though
      the packet about to be evicted is in the very bucket that is full. */
  lemma RefusedAlthoughEvicting(d: Dim, items: seq<Item>, item: Item)
    requires d.buckets > 0 && d.capacity >= BUCKET_SIZE == |items|
    requires InBucket(d, items, Bucket.Of(d.h, item.name, d.buckets))
    ensures Run(d, items) == items && Insert(d, items, item) == (items, false)
    ensures Evicted(d, items) == if d.capacity == BUCKET_SIZE then Some(items[0].mbuf) else None
  {
    InBucketRun(d, items, Bucket.Of(d.h, item.name, d.buckets));
    InBucketLoad(d, items, Bucket.Of(d.h, item.name, d.buckets));
  }
}
