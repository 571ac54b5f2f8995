/** The Content Store: the same table and ring shape as the PIT, without holes. */
module Cs {
  import opened Defs
  import opened Mbufs
  import Index
  import Ring
  import Spec = CsSpec

  datatype CsEntry = CsEntry(active: bool, bucket: nat, tab: nat, name: Name, mbuf: Mbuf)

  const UNUSED := CsEntry(false, 0, 0, [], 0)

  datatype Store = Store(h: Hash, table: Index.Table, ring: seq<CsEntry>, bottom: nat, top: nat)

  function PlaceOf(e: CsEntry): Index.Place {
    if e.active then Index.Used(e.name, e.bucket, e.tab) else Index.Free
  }

  function Places(ring: seq<CsEntry>): (ps: seq<Index.Place>)
    ensures |ps| == |ring|
  {
    seq(|ring|, i requires 0 <= i < |ring| => PlaceOf(ring[i]))
  }

  function Items(es: seq<CsEntry>): (q: Spec.Queue)
    ensures |q| == |es|
  {
    seq(|es|, i requires 0 <= i < |es| => Spec.Item(es[i].name, es[i].mbuf))
  }

  predicate Fits(s: Store) {
    Index.Shaped(s.table) && |s.ring| > 1 && s.bottom < |s.ring| && s.top < |s.ring|
  }

  /** The queue: the window of the ring from bottom to top. */
  function QueueOf(s: Store): (q: Spec.Queue)
    requires Fits(s)
  {
    Items(Ring.Window(s.ring, s.bottom, s.top))
  }

  function DimOf(s: Store): Spec.Dim
    requires Fits(s)
  {
    Spec.Dim(s.h, |s.table|, |s.ring| - 1)
  }

  /** The window has no holes. */
  predicate Packed(s: Store)
    requires Fits(s)
  {
    forall i :: 0 <= i < |s.ring| && Ring.InWindow(i, s.bottom, s.top, |s.ring|) ==> s.ring[i].active
  }

  /** What table, ring, bottom and top keep between calls: busy slots and the entries of the
      window point at one another, and nothing else is in use. */
  ghost predicate Consistent(s: Store) {
    && Fits(s)
    && Index.Linked(s.h, s.table, Places(s.ring))
    && Index.Contained(Places(s.ring), s.bottom, s.top)
    && Packed(s)
  }

  // ----- Looking up -----

  /** A slot that leads to a name leads to an item of that name in the queue. */
  lemma SlotFinds(s: Store, name: Name, t: nat)
    requires Consistent(s) && t < BUCKET_SIZE
    requires Index.Matches(s.h, s.table, Places(s.ring), name, t)
    ensures var i := s.table[Index.Home(s.h, s.table, name)][t].index;
            && i < |s.ring| && Ring.InWindow(i, s.bottom, s.top, |s.ring|)
            && QueueOf(s)[Ring.Offset(s.bottom, i, |s.ring|)] == Spec.Item(name, s.ring[i].mbuf)
  {
    var i := s.table[Index.Home(s.h, s.table, name)][t].index;
    assert Places(s.ring)[i].Used?;
  }

  lemma NoSlotNotHeld(s: Store, name: Name)
    requires Consistent(s)
    requires forall t: nat :: t < BUCKET_SIZE ==> !Index.Matches(s.h, s.table, Places(s.ring), name, t)
    ensures !Spec.Holds(QueueOf(s), name)
  {
    Index.NotFound(s.h, s.table, Places(s.ring), name);
    forall k | 0 <= k < |QueueOf(s)| ensures QueueOf(s)[k].name != name {
      var i := Ring.At(s.bottom, k, |s.ring|);
      assert s.ring[i].active;
      assert Places(s.ring)[i] == PlaceOf(s.ring[i]);
    }
  }

  /** A bucket has no free slot exactly when BUCKET_SIZE queued items fall in it. */
  lemma NoFreeSlot(s: Store, name: Name)
    requires Consistent(s)
    ensures Spec.BucketFull(DimOf(s), QueueOf(s), name) <==>
            forall t: nat :: t < BUCKET_SIZE ==> s.table[Index.Home(s.h, s.table, name)][t].busy
  {
    var b := Index.Home(s.h, s.table, name);
    var places := Places(s.ring);
    Index.NoFreeSlot(s.h, s.table, places, b);
    Index.CountAlongLog(places, s.bottom, s.top, b);
    assert Spec.Occupants(DimOf(s), QueueOf(s), b) == Index.Along(places, s.bottom, s.top, b) by {
      forall k: nat | k < |QueueOf(s)|
        ensures Ring.Window(places, s.bottom, s.top)[k].Used?
        ensures Ring.Window(places, s.bottom, s.top)[k].bucket == Index.Home(s.h, s.table, QueueOf(s)[k].name)
      {
        var i := Ring.At(s.bottom, k, |s.ring|);
        assert s.ring[i].active;
        assert Index.PlaceOk(s.h, s.table, places, i);
      }
    }
  }

  // ----- Eviction and insertion -----

  /** The oldest entry goes, and with it the slot it points at. */
  function Evicted(s: Store): Store
    requires Fits(s) && s.ring[s.bottom].bucket < |s.table| && s.ring[s.bottom].tab < BUCKET_SIZE
  {
    var b, t := s.ring[s.bottom].bucket, s.ring[s.bottom].tab;
    s.(table := Index.SetSlot(s.table, b, t, s.table[b][t].(busy := false)),
       ring := s.ring[s.bottom := s.ring[s.bottom].(active := false)],
       bottom := (s.bottom + 1) % |s.ring|)
  }

  /** Whether an entry is in use does not change what it says. */
  lemma SameItems(ring: seq<CsEntry>, i: nat, bottom: nat, top: nat)
    requires i < |ring| && bottom < |ring| && top < |ring|
    ensures Items(Ring.Window(ring[i := ring[i].(active := false)], bottom, top))
         == Items(Ring.Window(ring, bottom, top))
  {
  }

  lemma EvictLog(s: Store)
    requires Fits(s) && s.ring[s.bottom].bucket < |s.table| && s.ring[s.bottom].tab < BUCKET_SIZE
    requires s.bottom != s.top
    ensures Fits(Evicted(s))
    ensures QueueOf(s) != [] && QueueOf(s)[0].mbuf == s.ring[s.bottom].mbuf
    ensures QueueOf(Evicted(s)) == QueueOf(s)[1..]
  {
    hide Items, Ring.Window;
    Ring.SuccMod(s.bottom, |s.ring|);
    SameItems(s.ring, s.bottom, s.bottom, s.top);
    var ring' := Evicted(s).ring;
    Ring.Pop(ring', s.bottom, s.top);
    ItemsPop(Ring.Window(ring', s.bottom, s.top));
  }

  lemma ItemsPop(es: seq<CsEntry>)
    requires es != []
    ensures Items(es)[0].mbuf == es[0].mbuf && Items(es[1..]) == Items(es)[1..]
  {
  }

  lemma EvictLinks(s: Store)
    requires Consistent(s) && s.bottom != s.top
    ensures s.ring[s.bottom].bucket < |s.table| && s.ring[s.bottom].tab < BUCKET_SIZE
    ensures Index.Linked(s.h, Evicted(s).table, Places(Evicted(s).ring))
    ensures Places(Evicted(s).ring) == Places(s.ring)[s.bottom := Index.Free]
  {
    assert s.ring[s.bottom].active;
    var places := Places(s.ring);
    assert Index.PlaceOk(s.h, s.table, places, s.bottom);
    Index.Unlink(s.h, s.table, places, s.bottom,
                 s.table[places[s.bottom].bucket][places[s.bottom].tab].(busy := false));
    assert Places(Evicted(s).ring) == places[s.bottom := Index.Free];
  }

  lemma EvictStep(s: Store)
    requires Consistent(s) && s.bottom != s.top
    ensures s.ring[s.bottom].bucket < |s.table| && s.ring[s.bottom].tab < BUCKET_SIZE
    ensures Consistent(Evicted(s)) && DimOf(Evicted(s)) == DimOf(s)
    ensures QueueOf(s) != [] && QueueOf(s)[0].mbuf == s.ring[s.bottom].mbuf
    ensures QueueOf(Evicted(s)) == QueueOf(s)[1..]
  {
    hide QueueOf, Index.Linked;
    EvictLinks(s);
    EvictLog(s);
    Index.ShrinkContained(Places(Evicted(s).ring), s.bottom, s.top);
    Ring.SuccMod(s.bottom, |s.ring|);
  }

  function Inserted(s: Store, name: Name, b: nat, t: nat, crc: nat, mbuf: Mbuf): Store
    requires Fits(s) && b < |s.table| && t < BUCKET_SIZE
  {
    s.(table := Index.SetSlot(s.table, b, t, Slot(true, crc, s.top)),
       ring := s.ring[s.top := CsEntry(true, b, t, name, mbuf)],
       top := (s.top + 1) % |s.ring|)
  }

  lemma InsertLog(s: Store, name: Name, b: nat, t: nat, crc: nat, mbuf: Mbuf)
    requires Fits(s) && b < |s.table| && t < BUCKET_SIZE
    requires (s.top + 1) % |s.ring| != s.bottom
    ensures var s' := Inserted(s, name, b, t, crc, mbuf);
            Fits(s') && QueueOf(s') == QueueOf(s) + [Spec.Item(name, mbuf)]
  {
    var s' := Inserted(s, name, b, t, crc, mbuf);
    Ring.Push(s.ring, s.bottom, s.top, s'.ring[s.top]);
    assert QueueOf(s') == QueueOf(s) + [Spec.Item(name, mbuf)];
  }

  lemma InsertStep(s: Store, name: Name, t: nat, mbuf: Mbuf)
    requires Consistent(s)
    requires t < BUCKET_SIZE && !s.table[Index.Home(s.h, s.table, name)][t].busy
    requires (s.top + 1) % |s.ring| != s.bottom
    ensures var s' := Inserted(s, name, Index.Home(s.h, s.table, name), t, s.h(name), mbuf);
            && Consistent(s') && DimOf(s') == DimOf(s)
            && QueueOf(s') == QueueOf(s) + [Spec.Item(name, mbuf)]
  {
    var b := Index.Home(s.h, s.table, name);
    var s' := Inserted(s, name, b, t, s.h(name), mbuf);
    InsertLog(s, name, b, t, s.h(name), mbuf);
    Index.GrowContained(Places(s.ring), s.bottom, s.top, Index.Used(name, b, t));
    assert Places(s.ring)[s.top].Free?;
    Index.Link(s.h, s.table, Places(s.ring), s.top, name, t);
    assert Places(s'.ring) == Places(s.ring)[s.top := Index.Used(name, b, t)];
    Ring.SuccMod(s.top, |s.ring|);
  }

  class Cs {
    const hash: Hash
    const numBuckets: nat
    const maxElements: nat
    const table: array<seq<Slot>>
    const ring: array<CsEntry>
    var top: nat
    var bottom: nat

    ghost function Repr(): Store
      reads this, table, ring
    {
      Store(hash, table[..], ring[..], bottom, top)
    }

    ghost predicate Valid()
      reads this, table, ring
    {
      table.Length == numBuckets && ring.Length == maxElements && Consistent(Repr())
    }

    ghost function Dim(): Spec.Dim {
      Spec.Dim(hash, numBuckets, if maxElements > 0 then maxElements - 1 else 0)
    }

    ghost function Queue(): Spec.Queue
      requires Valid()
      reads this, table, ring
    {
      QueueOf(Repr())
    }

    constructor (hash: Hash, numBuckets: nat, maxElements: nat)
      requires numBuckets > 0 && maxElements > 0
      ensures Valid() && fresh(table) && fresh(ring)
      ensures Dim() == Spec.Dim(hash, numBuckets, maxElements)
      ensures Queue() == []
    {
      this.hash := hash;
      this.numBuckets := numBuckets;
      this.maxElements := maxElements + 1;
      this.table := new seq<Slot>[numBuckets](_ => seq(BUCKET_SIZE, _ => FREE_SLOT));
      this.ring := new CsEntry[maxElements + 1](_ => UNUSED);
      this.top, this.bottom := 0, 0;
    }

    method Occupancy() returns (n: nat)
      requires Valid()
      ensures n == |Queue()|
    {
      Ring.OccupancyIsLength(bottom, top, maxElements);
      n := (top + maxElements - bottom) % maxElements;
    }

    method IsFull() returns (full: bool)
      requires Valid()
      ensures full <==> |Queue()| == Dim().capacity
      ensures full <==> (top + 1) % maxElements == bottom
    {
      Ring.FullIsCapacity(bottom, top, maxElements);
      full := (top + 1) % maxElements == bottom;
    }

    method Lookup(name: Name, crc: nat) returns (found: Option<Mbuf>)
      requires Valid() && crc == hash(name)
      ensures found.Some? <==> Spec.Holds(Queue(), name)
      ensures found.Some? ==> Spec.Item(name, found.value) in Queue()
    {
      var b := crc % numBuckets;
      for t := 0 to BUCKET_SIZE
        invariant forall u: nat :: u < t ==> !Index.Matches(hash, table[..], Places(ring[..]), name, u)
      {
        assert Index.SlotOk(hash, table[..], Places(ring[..]), b, t);
        if !table[b][t].busy {
          continue;
        }
        if table[b][t].crc != crc {
          continue;
        }
        if |name| != |ring[table[b][t].index].name| {
          continue;
        }
        if name != ring[table[b][t].index].name {
          continue;
        }
        SlotFinds(Repr(), name, t);
        return Some(ring[table[b][t].index].mbuf);
      }
      NoSlotNotHeld(Repr(), name);
      return None;
    }

    /** Queues a packet under a name, dropping the oldest one when the ring is full. */
    method Insert(pool: Pool, name: Name, mbuf: Mbuf, crc: nat) returns (inserted: bool)
      requires Valid() && crc == hash(name) && |name| <= MAX_NAME_LEN
      requires Spec.Evicted(Dim(), Queue()).Some? ==> Spec.Evicted(Dim(), Queue()).value in pool.refs
      modifies this`top, this`bottom, table, ring, pool`refs
      ensures Valid()
      ensures (Queue(), inserted) == Spec.Insert(Dim(), old(Queue()), Spec.Item(name, mbuf))
      ensures pool.View() == if inserted && Spec.Evicted(Dim(), old(Queue())).Some?
                             then var gone := Spec.Evicted(Dim(), old(Queue())).value;
                                  old(pool.View()).(refs := old(pool.refs) - multiset{gone})
                             else old(pool.View())
    {
      var b := crc % numBuckets;
      for t := 0 to BUCKET_SIZE
        invariant forall u: nat :: u < t ==> table[b][u].busy
      {
        if !table[b][t].busy {
          NoFreeSlot(Repr(), name);
          assert !Repr().table[Index.Home(hash, Repr().table, name)][t].busy;
          InsertAt(pool, name, t, mbuf, crc);
          return true;
        }
      }
      NoFreeSlot(Repr(), name);
      return false;
    }

    method InsertAt(pool: Pool, name: Name, tab: nat, mbuf: Mbuf, crc: nat)
      requires Valid() && crc == hash(name) && tab < BUCKET_SIZE && !table[crc % numBuckets][tab].busy
      requires Spec.Evicted(Dim(), Queue()).Some? ==> Spec.Evicted(Dim(), Queue()).value in pool.refs
      modifies this`top, this`bottom, table, ring, pool`refs
      ensures Valid()
      ensures Queue() == Spec.Room(Dim(), old(Queue())) + [Spec.Item(name, mbuf)]
      ensures pool.View() == if Spec.Evicted(Dim(), old(Queue())).Some?
                             then var gone := Spec.Evicted(Dim(), old(Queue())).value;
                                  old(pool.View()).(refs := old(pool.refs) - multiset{gone})
                             else old(pool.View())
    {
      var full := IsFull();
      if full {
        Evict(pool);
      }
      Enqueue(name, tab, mbuf, crc);
    }

    method Evict(pool: Pool)
      requires Valid() && (top + 1) % maxElements == bottom
      requires Queue() != [] ==> Queue()[0].mbuf in pool.refs
      modifies this`bottom, table, ring, pool`refs
      ensures Valid() && (top + 1) % maxElements != bottom
      ensures old(Queue()) != [] && Queue() == old(Queue())[1..]
      ensures pool.View() == old(pool.View()).(refs := old(pool.refs) - multiset{old(Queue())[0].mbuf})
      ensures forall b, t :: 0 <= b < numBuckets && 0 <= t < BUCKET_SIZE && !old(table[b])[t].busy ==> !table[b][t].busy
    {
      hide Index.Linked, Index.Contained, QueueOf;
      ghost var s := Repr();
      EvictStep(s);
      var b, t := ring[bottom].bucket, ring[bottom].tab;
      table[b] := table[b][t := table[b][t].(busy := false)];
      ring[bottom] := ring[bottom].(active := false);
      pool.Free(ring[bottom].mbuf);
      Ring.SuccMod(bottom, maxElements);
      Ring.SuccMod(top, maxElements);
      if bottom == maxElements - 1 {
        bottom := 0;
      } else {
        bottom := bottom + 1;
      }
      assert Repr() == Evicted(s);
    }

    method Enqueue(name: Name, tab: nat, mbuf: Mbuf, crc: nat)
      requires Valid() && crc == hash(name) && tab < BUCKET_SIZE
      requires !table[crc % numBuckets][tab].busy && (top + 1) % maxElements != bottom
      modifies this`top, table, ring
      ensures Valid()
      ensures Queue() == old(Queue()) + [Spec.Item(name, mbuf)]
    {
      ghost var s := Repr();
      InsertStep(s, name, tab, mbuf);
      var b := crc % numBuckets;
      table[b] := table[b][tab := Slot(true, crc, top)];
      ring[top] := CsEntry(true, b, tab, name, mbuf);
      top := (top + 1) % maxElements;
      assert Repr() == Inserted(s, name, Index.Home(hash, s.table, name), tab, crc, mbuf);
    }
  }
}
