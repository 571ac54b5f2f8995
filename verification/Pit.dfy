/** The Pending Interest Table: a bucket table whose slots point into a circular log. */
module Pit {
  import opened Defs
  import opened FaceMask
  import Index
  import Ring
  import Spec = PitSpec

  /** One element of the ring. The name length is the length of name. */
  datatype PitEntry = PitEntry(active: bool, bucket: nat, tab: nat, expiry: nat, name: Name, faceBitmask: nat)

  const UNUSED := PitEntry(false, 0, 0, 0, [], 0)

  /** The contents of the memory of a PIT. */
  datatype Store = Store(h: Hash, table: Index.Table, ring: seq<PitEntry>, bottom: nat, top: nat)

  function PlaceOf(e: PitEntry): Index.Place {
    if e.active then Index.Used(e.name, e.bucket, e.tab) else Index.Free
  }

  function Places(ring: seq<PitEntry>): (ps: seq<Index.Place>)
    ensures |ps| == |ring|
  {
    seq(|ring|, i requires 0 <= i < |ring| => PlaceOf(ring[i]))
  }

  function Meaning(e: PitEntry): Spec.LogEntry {
    if e.active then Spec.Live(e.name, Faces(e.faceBitmask), e.expiry) else Spec.Hole
  }

  function Meanings(es: seq<PitEntry>): (log: Spec.Log)
    ensures |log| == |es|
  {
    seq(|es|, i requires 0 <= i < |es| => Meaning(es[i]))
  }

  predicate Fits(s: Store) {
    Index.Shaped(s.table) && |s.ring| > 1 && s.bottom < |s.ring| && s.top < |s.ring|
  }

  /** The abstract log: the window of the ring from bottom to top. */
  function LogOf(s: Store): (log: Spec.Log)
    requires Fits(s)
  {
    Meanings(Ring.Window(s.ring, s.bottom, s.top))
  }

  function DimOf(s: Store): Spec.Dim
    requires Fits(s)
  {
    Spec.Dim(s.h, |s.table|, |s.ring| - 1)
  }

  /** What table, ring, bottom and top keep between calls. */
  ghost predicate Consistent(s: Store) {
    && Fits(s)
    && Index.Linked(s.h, s.table, Places(s.ring))
    && Index.Contained(Places(s.ring), s.bottom, s.top)
    && (forall i :: 0 <= i < |s.ring| ==> Clean(s.ring[i].faceBitmask))
    && Spec.Valid(DimOf(s), LogOf(s))
  }

  // ----- Looking up -----

  /** A slot that leads to a name finds the one live entry of the name. */
  lemma SlotFinds(s: Store, name: Name, t: nat)
    requires Consistent(s) && t < BUCKET_SIZE
    requires Index.Matches(s.h, s.table, Places(s.ring), name, t)
    ensures var i := s.table[Index.Home(s.h, s.table, name)][t].index;
            && i < |s.ring| && s.ring[i].active
            && Ring.InWindow(i, s.bottom, s.top, |s.ring|)
            && Spec.Find(LogOf(s), name) == Ring.Offset(s.bottom, i, |s.ring|)
  {
    var i := s.table[Index.Home(s.h, s.table, name)][t].index;
    assert Places(s.ring)[i].Used?;
    Spec.FindUnique(LogOf(s), Ring.Offset(s.bottom, i, |s.ring|), name);
  }

  /** How a slot is seen to lead to a name: by its CRC first, then by the name itself. */
  lemma SlotMatches(s: Store, name: Name, t: nat)
    requires Consistent(s) && t < BUCKET_SIZE
    ensures var slot := s.table[Index.Home(s.h, s.table, name)][t];
            && (slot.busy ==> slot.index < |s.ring|)
            && (Index.Matches(s.h, s.table, Places(s.ring), name, t)
                <==> slot.busy && slot.crc == s.h(name) && s.ring[slot.index].name == name)
  {
    hide LogOf, Index.Contained, Spec.Valid, Clean;
    assert Index.SlotOk(s.h, s.table, Places(s.ring), Index.Home(s.h, s.table, name), t);
  }

  /** A name that no slot of its bucket leads to is not pending. */
  lemma NoSlotNotPending(s: Store, name: Name)
    requires Consistent(s)
    requires forall t: nat :: t < BUCKET_SIZE ==> !Index.Matches(s.h, s.table, Places(s.ring), name, t)
    ensures Spec.Find(LogOf(s), name) == -1
  {
    Index.NotFound(s.h, s.table, Places(s.ring), name);
    forall k ensures !Spec.IsLive(LogOf(s), k, name) {
      if 0 <= k < |LogOf(s)| {
        var i := Ring.At(s.bottom, k, |s.ring|);
        assert LogOf(s)[k] == Meaning(s.ring[i]);
        assert Places(s.ring)[i] == PlaceOf(s.ring[i]);
      }
    }
  }

  /** A bucket has no free slot exactly when it is full of pending names. */
  lemma NoFreeSlot(s: Store, name: Name)
    requires Consistent(s)
    ensures Spec.BucketFull(DimOf(s), LogOf(s), name) <==>
            forall t: nat :: t < BUCKET_SIZE ==> s.table[Index.Home(s.h, s.table, name)][t].busy
  {
    var b := Index.Home(s.h, s.table, name);
    var places := Places(s.ring);
    var log := LogOf(s);
    Index.NoFreeSlot(s.h, s.table, places, b);
    Index.CountAlongLog(places, s.bottom, s.top, b);
    assert Spec.Occupants(DimOf(s), log, b) == Index.Along(places, s.bottom, s.top, b) by {
      forall k: nat | k < |log|
        ensures log[k].Live? && Index.Home(s.h, s.table, log[k].name) == b <==>
                Ring.Window(places, s.bottom, s.top)[k].Used? && Ring.Window(places, s.bottom, s.top)[k].bucket == b
      {
        var i := Ring.At(s.bottom, k, |s.ring|);
        assert Index.PlaceOk(s.h, s.table, places, i);
      }
    }
  }

  // ----- Single steps on table and ring, and what they do to the log -----

  function SetMask(s: Store, i: nat, mask: nat): Store
    requires i < |s.ring|
  {
    s.(ring := s.ring[i := s.ring[i].(faceBitmask := mask)])
  }

  lemma SetMaskLog(s: Store, i: nat, mask: nat)
    requires Fits(s) && i < |s.ring| && Ring.InWindow(i, s.bottom, s.top, |s.ring|) && s.ring[i].active
    ensures var k := Ring.Offset(s.bottom, i, |s.ring|);
            && k < |LogOf(s)| && LogOf(s)[k].Live? && LogOf(s)[k].faces == Faces(s.ring[i].faceBitmask)
            && LogOf(SetMask(s, i, mask)) == LogOf(s)[k := LogOf(s)[k].(faces := Faces(mask))]
  {
    var s' := SetMask(s, i, mask);
    Ring.Write(s.ring, s.bottom, s.top, i, s'.ring[i]);
    var k := Ring.Offset(s.bottom, i, |s.ring|);
    assert LogOf(s)[k] == Meaning(s.ring[i]);
    assert LogOf(s') == LogOf(s)[k := LogOf(s)[k].(faces := Faces(mask))];
  }

  lemma SetMaskStep(s: Store, i: nat, mask: nat)
    requires Consistent(s)
    requires i < |s.ring| && s.ring[i].active && Clean(mask) && Faces(mask) != {}
    ensures var s' := SetMask(s, i, mask);
            var k := Ring.Offset(s.bottom, i, |s.ring|);
            && Consistent(s') && DimOf(s') == DimOf(s)
            && k < |LogOf(s)| && LogOf(s)[k].Live? && LogOf(s)[k].faces == Faces(s.ring[i].faceBitmask)
            && LogOf(s') == LogOf(s)[k := LogOf(s)[k].(faces := Faces(mask))]
  {
    assert Places(s.ring)[i].Used?;
    SetMaskLog(s, i, mask);
    assert Places(SetMask(s, i, mask).ring) == Places(s.ring);
    Spec.SetFacesValid(DimOf(s), LogOf(s), Ring.Offset(s.bottom, i, |s.ring|), Faces(mask));
  }

  lemma AggregateStep(s: Store, name: Name, t: nat, face: nat, expiry: nat)
    requires Consistent(s) && t < BUCKET_SIZE && face < APP_MAX_ETH_PORTS
    requires Index.Matches(s.h, s.table, Places(s.ring), name, t)
    ensures var i := s.table[Index.Home(s.h, s.table, name)][t].index;
            var s' := SetMask(s, i, WithFace(s.ring[i].faceBitmask, face));
            && Consistent(s') && DimOf(s') == DimOf(s)
            && (LogOf(s'), Spec.Aggregated) == Spec.Update(DimOf(s), LogOf(s), name, face, expiry)
  {
    var i := s.table[Index.Home(s.h, s.table, name)][t].index;
    SlotFinds(s, name, t);
    WithFaceAdds(s.ring[i].faceBitmask, face);
    SetMaskStep(s, i, WithFace(s.ring[i].faceBitmask, face));
  }

  function Inserted(s: Store, name: Name, b: nat, t: nat, crc: nat, mask: nat, expiry: nat): Store
    requires Fits(s) && b < |s.table| && t < BUCKET_SIZE
  {
    s.(table := Index.SetSlot(s.table, b, t, Slot(true, crc, s.top)),
       ring := s.ring[s.top := PitEntry(true, b, t, expiry, name, mask)],
       top := (s.top + 1) % |s.ring|)
  }

  lemma InsertLog(s: Store, name: Name, b: nat, t: nat, crc: nat, mask: nat, expiry: nat)
    requires Fits(s) && b < |s.table| && t < BUCKET_SIZE
    requires (s.top + 1) % |s.ring| != s.bottom
    ensures var s' := Inserted(s, name, b, t, crc, mask, expiry);
            && Fits(s')
            && LogOf(s') == LogOf(s) + [Spec.Live(name, Faces(mask), expiry)]
            && |LogOf(s)| < |s.ring| - 1
  {
    var s' := Inserted(s, name, b, t, crc, mask, expiry);
    Ring.Push(s.ring, s.bottom, s.top, s'.ring[s.top]);
    Ring.FullIsCapacity(s.bottom, s.top, |s.ring|);
    MeaningsAppend(Ring.Window(s.ring, s.bottom, s.top), s'.ring[s.top]);
  }

  lemma MeaningsAppend(es: seq<PitEntry>, e: PitEntry)
    ensures Meanings(es + [e]) == Meanings(es) + [Meaning(e)]
  {
  }

  lemma InsertStep(s: Store, name: Name, t: nat, mask: nat, face: nat, expiry: nat)
    requires Consistent(s) && Clean(mask) && Faces(mask) == {face}
    requires t < BUCKET_SIZE && !s.table[Index.Home(s.h, s.table, name)][t].busy
    requires Spec.Find(LogOf(s), name) == -1 && (s.top + 1) % |s.ring| != s.bottom
    ensures var s' := Inserted(s, name, Index.Home(s.h, s.table, name), t, s.h(name), mask, expiry);
            && Consistent(s') && DimOf(s') == DimOf(s)
            && LogOf(s') == LogOf(s) + [Spec.Live(name, {face}, expiry)]
  {
    var b := Index.Home(s.h, s.table, name);
    var s' := Inserted(s, name, b, t, s.h(name), mask, expiry);
    InsertLog(s, name, b, t, s.h(name), mask, expiry);
    Spec.AppendValid(DimOf(s), LogOf(s), name, face, expiry);
    Index.GrowContained(Places(s.ring), s.bottom, s.top, Index.Used(name, b, t));
    assert Places(s.ring)[s.top].Free?;
    Index.Link(s.h, s.table, Places(s.ring), s.top, name, t);
    assert Places(s'.ring) == Places(s.ring)[s.top := Index.Used(name, b, t)];
  }

  function Deactivated(s: Store, i: nat, b: nat, t: nat): Store
    requires Fits(s) && i < |s.ring| && b < |s.table| && t < BUCKET_SIZE
  {
    s.(table := Index.SetSlot(s.table, b, t, s.table[b][t].(busy := false)),
       ring := s.ring[i := s.ring[i].(active := false)])
  }

  lemma DeactivateStep(s: Store, i: nat)
    requires Consistent(s)
    requires i < |s.ring| && s.ring[i].active
    ensures s.ring[i].bucket < |s.table| && s.ring[i].tab < BUCKET_SIZE
    ensures var s' := Deactivated(s, i, s.ring[i].bucket, s.ring[i].tab);
            var k := Ring.Offset(s.bottom, i, |s.ring|);
            && Consistent(s') && DimOf(s') == DimOf(s)
            && k < |LogOf(s)| && LogOf(s') == LogOf(s)[k := Spec.Hole]
  {
    assert Places(s.ring)[i].Used?;
    assert Index.PlaceOk(s.h, s.table, Places(s.ring), i);
    var s' := Deactivated(s, i, s.ring[i].bucket, s.ring[i].tab);
    var k := Ring.Offset(s.bottom, i, |s.ring|);
    Index.Unlink(s.h, s.table, Places(s.ring), i, s.table[s.ring[i].bucket][s.ring[i].tab].(busy := false));
    assert Places(s'.ring) == Places(s.ring)[i := Index.Free];
    Ring.Write(s.ring, s.bottom, s.top, i, s'.ring[i]);
    assert LogOf(s') == LogOf(s)[k := Spec.Hole];
  }

  function Advanced(s: Store): Store
    requires Fits(s)
  {
    s.(bottom := (s.bottom + 1) % |s.ring|)
  }

  lemma AdvanceLog(s: Store)
    requires Fits(s) && s.bottom != s.top
    ensures Fits(Advanced(s))
    ensures LogOf(s) != [] && LogOf(Advanced(s)) == LogOf(s)[1..]
  {
    Ring.SuccMod(s.bottom, |s.ring|);
    Ring.Pop(s.ring, s.bottom, s.top);
    MeaningsDrop(Ring.Window(s.ring, s.bottom, s.top));
  }

  lemma MeaningsDrop(es: seq<PitEntry>)
    requires es != []
    ensures Meanings(es[1..]) == Meanings(es)[1..]
  {
  }

  /** Moving bottom past a hole frees its place. */
  lemma AdvanceStep(s: Store)
    requires Consistent(s) && s.bottom != s.top && !s.ring[s.bottom].active
    ensures var s' := Advanced(s);
            && Consistent(s') && DimOf(s') == DimOf(s)
            && LogOf(s) != [] && LogOf(s') == LogOf(s)[1..]
  {
    hide LogOf, Index.Linked, Index.Contained, Spec.Valid;
    AdvanceLog(s);
    Index.ShrinkContained(Places(s.ring), s.bottom, s.top);
    Spec.DropValid(DimOf(s), LogOf(s));
  }

  /** Removing an entry: its slot is freed, and its place too when it is at the bottom. */
  function Cleared(s: Store, i: nat, b: nat, t: nat): Store
    requires Fits(s) && i < |s.ring| && b < |s.table| && t < BUCKET_SIZE
  {
    var s' := Deactivated(s, i, b, t);
    if s.bottom == i then Advanced(s') else s'
  }

  lemma ClearStep(s: Store, name: Name, t: nat)
    requires Consistent(s) && t < BUCKET_SIZE
    requires Index.Matches(s.h, s.table, Places(s.ring), name, t)
    ensures var b := Index.Home(s.h, s.table, name);
            var i := s.table[b][t].index;
            var s' := Cleared(s, i, b, t);
            && Consistent(s') && DimOf(s') == DimOf(s)
            && (LogOf(s'), Faces(s.ring[i].faceBitmask)) == Spec.Remove(LogOf(s), name)
  {
    var b := Index.Home(s.h, s.table, name);
    var i := s.table[b][t].index;
    SlotFinds(s, name, t);
    assert Index.SlotOk(s.h, s.table, Places(s.ring), b, t);
    DeactivateStep(s, i);
    if s.bottom == i {
      AdvanceStep(Deactivated(s, i, b, t));
    }
  }

  // ----- The TTL -----

  const US_PER_S := 1000000

  /** Clock cycles in a microsecond, rounded up. */
  function CyclesPerUs(hz: nat): (q: nat)
    ensures hz <= q * US_PER_S < hz + US_PER_S
  {
    (hz + US_PER_S - 1) / US_PER_S
  }

  /** A number of cycles as microseconds, in whole seconds. */
  function ToUs(cycles: nat, hz: nat): nat
    requires hz > 0
  {
    cycles / hz * US_PER_S
  }

  lemma ToUsSeconds(cycles: nat, hz: nat)
    requires hz > 0
    ensures var s := cycles / hz;
            && s * hz <= cycles < (s + 1) * hz
            && ToUs(cycles, hz) % US_PER_S == 0 && ToUs(cycles, hz) / US_PER_S == s
  {
    var s := cycles / hz;
    assert cycles == s * hz + cycles % hz;
  }

  lemma Multiples(k: int, d: int)
    requires d > 0
    ensures k >= 1 ==> k * d >= d
    ensures k <= -1 ==> k * d <= -d
  {
  }

  lemma Quotient(n: nat, q: nat, r: nat, d: nat)
    requires d > 0 && n == q * d + r && r < d
    ensures n / d == q
  {
    Multiples(n / d - q, d);
    assert (n / d - q) * d == r - n % d;
  }

  lemma QuotientOf(s: nat, x: nat, d: nat)
    requires d > 0
    ensures (s * d + x) / d == s + x / d
  {
    assert s * d + x == (s + x / d) * d + x % d;
    Quotient(s * d + x, s + x / d, x % d, d);
  }

  lemma Small(x: nat, d: nat)
    requires d > 0
    ensures x / d == 0 <==> x < d
  {
  }

  /** Reading the TTL gives back what was set exactly for whole seconds, and only as long as the
      rounding of the clock rate, over that many seconds, stays below one second: what is
      documented as a value in microseconds is one in whole seconds. */
  lemma TtlRoundTrip(us: nat, hz: nat)
    requires hz > 0
    ensures ToUs(CyclesPerUs(hz) * us, hz) == us <==>
            us % US_PER_S == 0 && us / US_PER_S * (CyclesPerUs(hz) * US_PER_S - hz) < hz
  {
    hide CyclesPerUs;
    var q, s := CyclesPerUs(hz), us / US_PER_S;
    var e: nat := q * US_PER_S - hz;
    if us % US_PER_S == 0 {
      assert q * us == s * hz + s * e by {
        assert us == s * US_PER_S;
        assert q * (s * US_PER_S) == s * (q * US_PER_S);
      }
      QuotientOf(s, s * e, hz);
      Small(s * e, hz);
    }
  }

  /** Both conditions are needed. A TTL of one microsecond reads back as zero on every clock of more
      than one cycle a second; and where a microsecond is rounded up from 1.000001 to 2 cycles, two
      seconds read back as three. */
  lemma TtlNotKept(hz: nat)
    requires hz >= 2
    ensures ToUs(CyclesPerUs(hz) * 1, hz) == 0
    ensures ToUs(CyclesPerUs(1_000_001) * 2_000_000, 1_000_001) == 3_000_000
  {
    var q := CyclesPerUs(hz);
    assert q < hz;
    Small(q, hz);
    Quotient(4 * US_PER_S, 3, US_PER_S - 3, US_PER_S + 1);
  }

  class Pit {
    const hash: Hash
    const numBuckets: nat
    const maxElements: nat
    const table: array<seq<Slot>>
    const ring: array<PitEntry>
    var top: nat
    var bottom: nat
    var ttl: nat

    ghost function Repr(): Store
      reads this, table, ring
    {
      Store(hash, table[..], ring[..], bottom, top)
    }

    ghost predicate Sized()
      reads this, table, ring
    {
      table.Length == numBuckets && ring.Length == maxElements && Fits(Repr())
    }

    ghost predicate Valid()
      reads this, table, ring
    {
      Sized() && Consistent(Repr())
    }

    ghost function Dim(): Spec.Dim {
      Spec.Dim(hash, numBuckets, if maxElements > 0 then maxElements - 1 else 0)
    }

    ghost function Log(): Spec.Log
      requires Valid()
      reads this, table, ring
    {
      LogOf(Repr())
    }

    /** The ring gets one element more than asked for, so that full and empty differ. */
    constructor (hash: Hash, numBuckets: nat, maxElements: nat, ttl: nat)
      requires numBuckets > 0 && maxElements > 0
      ensures Valid() && fresh(table) && fresh(ring)
      ensures Dim() == Spec.Dim(hash, numBuckets, maxElements) && this.ttl == ttl
      ensures Log() == []
    {
      this.hash := hash;
      this.numBuckets := numBuckets;
      this.maxElements := maxElements + 1;
      this.table := new seq<Slot>[numBuckets](_ => seq(BUCKET_SIZE, _ => FREE_SLOT));
      this.ring := new PitEntry[maxElements + 1](_ => UNUSED);
      this.top, this.bottom, this.ttl := 0, 0, ttl;
    }

    method SetTtlUs(us: nat, hz: nat)
      requires Valid()
      modifies this`ttl
      ensures Valid() && Log() == old(Log()) && ttl == CyclesPerUs(hz) * us
    {
      ttl := (hz + US_PER_S - 1) / US_PER_S * us;
    }

    /** Whole seconds that the TTL lasts at a clock rate, in microseconds. */
    method GetTtlUs(hz: nat) returns (us: nat)
      requires hz > 0
      ensures us == ToUs(ttl, hz)
      ensures us % US_PER_S == 0 && us / US_PER_S * hz <= ttl < (us / US_PER_S + 1) * hz
    {
      ToUsSeconds(ttl, hz);
      us := ttl / hz * US_PER_S;
    }

    method Occupancy() returns (n: nat)
      requires Valid()
      ensures n == |Log()|
    {
      Ring.OccupancyIsLength(bottom, top, maxElements);
      n := (top + maxElements - bottom) % maxElements;
    }

    method IsFull() returns (full: bool)
      requires Valid()
      ensures full <==> |Log()| == Dim().capacity
      ensures full <==> (top + 1) % maxElements == bottom
    {
      Ring.FullIsCapacity(bottom, top, maxElements);
      full := (top + 1) % maxElements == bottom;
    }

    method IsEmpty() returns (empty: bool)
      requires Valid()
      ensures empty <==> top == bottom
      ensures empty <==> Log() == []
    {
      empty := top == bottom;
    }

    /** Scans the bucket of a name for the slot that leads to it; also reports the first
        free slot met on the way. Absent slots are reported as 0xFF. */
    method Scan(name: Name, crc: nat) returns (tab: nat, freeTab: nat)
      requires Valid() && crc == hash(name)
      ensures tab != 0xFF ==> tab < BUCKET_SIZE && Index.Matches(hash, table[..], Places(ring[..]), name, tab)
      ensures tab == 0xFF ==> Spec.Find(Log(), name) == -1
      ensures tab == 0xFF && freeTab != 0xFF ==> freeTab < BUCKET_SIZE && !table[crc % numBuckets][freeTab].busy
      ensures tab == 0xFF ==> (freeTab == 0xFF <==> Spec.BucketFull(Dim(), Log(), name))
    {
      hide LogOf, Index.Contained, Index.Linked, Index.Matches, Spec.Valid, Spec.BucketFull, Spec.Find;
      var b := crc % numBuckets;
      ghost var slots, places := table[..], Places(ring[..]);
      freeTab := 0xFF;
      for t := 0 to BUCKET_SIZE
        invariant freeTab == 0xFF || (freeTab < t && !table[b][freeTab].busy)
        invariant freeTab == 0xFF ==> forall u: nat :: u < t ==> table[b][u].busy
        invariant forall u: nat :: u < t ==> !Index.Matches(hash, slots, places, name, u)
      {
        SlotMatches(Repr(), name, t);
        if !table[b][t].busy {
          if t < freeTab {
            freeTab := t;
          }
          continue;
        }
        if table[b][t].crc != crc {
          continue;
        }
        if |name| != |ring[table[b][t].index].name| {
          continue;
        }
        if name != ring[table[b][t].index].name {
          continue;
        }
        return t, freeTab;
      }
      NoSlotNotPending(Repr(), name);
      NoFreeSlot(Repr(), name);
      assert b == Index.Home(hash, table[..], name);
      assert forall u: nat :: u < BUCKET_SIZE ==> table[..][b][u] == table[b][u];
      tab := 0xFF;
    }

    method Lookup(name: Name, crc: nat) returns (found: Option<PitEntry>)
      requires Valid() && crc == hash(name)
      ensures found.None? <==> Spec.Find(Log(), name) == -1
      ensures found.Some? ==> Meaning(found.value) == Log()[Spec.Find(Log(), name)]
    {
      var tab, _ := Scan(name, crc);
      if tab == 0xFF {
        return None;
      }
      SlotFinds(Repr(), name, tab);
      return Some(ring[table[crc % numBuckets][tab].index]);
    }

    /** Adds a face to the entry of a name, or enters the name as a new one. */
    method LookupAndUpdate(name: Name, face: nat, now: nat, crc: nat) returns (r: Spec.UpdateResult)
      requires Valid() && crc == hash(name)
      requires |name| <= MAX_NAME_LEN && face < APP_MAX_ETH_PORTS
      modifies this`top, table, ring
      ensures Valid()
      ensures (Log(), r) == Spec.Update(Dim(), old(Log()), name, face, now + ttl)
    {
      hide Index.Linked, Index.Contained, Index.Matches, Spec.Update, LogOf, Meanings;
      var tab, freeTab := Scan(name, crc);
      if tab != 0xFF {
        AddFaceVia(name, tab, face, crc, now + ttl);
        return Spec.Aggregated;
      }
      var full := IsFull();
      Spec.UpdateAbsent(Dim(), Log(), name, face, now + ttl);
      if freeTab == 0xFF || full {
        return Spec.NoSpace;
      }
      SingleFace(face);
      Insert(name, freeTab, Pow2(face), face, now, crc);
      return Spec.Inserted;
    }

    method AddFaceVia(name: Name, tab: nat, face: nat, crc: nat, ghost expiry: nat)
      requires Valid() && crc == hash(name) && tab < BUCKET_SIZE && face < APP_MAX_ETH_PORTS
      requires Index.Matches(hash, table[..], Places(ring[..]), name, tab)
      modifies ring
      ensures Valid()
      ensures (Log(), Spec.Aggregated) == Spec.Update(Dim(), old(Log()), name, face, expiry)
    {
      hide Index.Contained, Spec.Update, LogOf;
      ghost var s := Repr();
      AggregateStep(s, name, tab, face, expiry);
      var i := table[crc % numBuckets][tab].index;
      ring[i] := ring[i].(faceBitmask := WithFace(ring[i].faceBitmask, face));
      assert Repr() == SetMask(s, i, WithFace(s.ring[i].faceBitmask, face));
    }

    method Insert(name: Name, tab: nat, mask: nat, ghost face: nat, now: nat, crc: nat)
      requires Valid() && crc == hash(name) && tab < BUCKET_SIZE && Clean(mask) && Faces(mask) == {face}
      requires !table[crc % numBuckets][tab].busy
      requires Spec.Find(Log(), name) == -1 && (top + 1) % maxElements != bottom
      modifies this`top, table, ring
      ensures Valid()
      ensures Log() == old(Log()) + [Spec.Live(name, {face}, now + ttl)]
    {
      hide Index.Linked, Index.Contained, LogOf;
      ghost var s := Repr();
      var b := crc % numBuckets;
      InsertStep(s, name, tab, mask, face, now + ttl);
      table[b] := table[b][tab := Slot(true, crc, top)];
      ring[top] := PitEntry(true, b, tab, now + ttl, name, mask);
      top := (top + 1) % maxElements;
      assert table[..] == Index.SetSlot(s.table, b, tab, Slot(true, crc, s.top));
      assert Repr() == Inserted(s, name, Index.Home(hash, s.table, name), tab, crc, mask, now + ttl);
    }

    /** Deletes the entry of a name and returns its face mask, 0 when there is none. */
    method LookupAndRemove(name: Name, crc: nat) returns (mask: nat)
      requires Valid() && crc == hash(name)
      modifies this`bottom, table, ring
      ensures Valid() && Clean(mask)
      ensures (Log(), Faces(mask)) == Spec.Remove(old(Log()), name)
    {
      var tab, _ := Scan(name, crc);
      if tab == 0xFF {
        ZeroIsEmpty(0);
        return 0;
      }
      ClearStep(Repr(), name, tab);
      Clear(crc % numBuckets, tab);
      return ring[table[crc % numBuckets][tab].index].faceBitmask;
    }

    /** Frees a slot and its entry. The slot keeps its index and the entry its mask. */
    method Clear(b: nat, t: nat)
      requires Sized() && b < numBuckets && t < BUCKET_SIZE && table[b][t].index < maxElements
      modifies this`bottom, table, ring
      ensures Sized()
      ensures Repr() == Cleared(old(Repr()), old(table[b][t].index), b, t)
    {
      table[b] := table[b][t := table[b][t].(busy := false)];
      ring[table[b][t].index] := ring[table[b][t].index].(active := false);
      if bottom == table[b][t].index {
        bottom := (bottom + 1) % maxElements;
      }
    }

    /** Reclaims the expired entries and the holes at the bottom of the log. */
    method PurgeExpired(now: nat) returns (purged: nat)
      requires Valid()
      modifies this`bottom, table, ring
      ensures Valid()
      ensures Log() == Spec.Purge(old(Log()), now)
      ensures purged == |old(Log())| - |Log()|
    {
      purged := 0;
      while top != bottom
        invariant Valid()
        invariant Spec.Purge(Log(), now) == Spec.Purge(old(Log()), now)
        invariant purged == |old(Log())| - |Log()|
        decreases |Log()|
      {
        assert Log()[0] == Meaning(ring[bottom]);
        if ring[bottom].active {
          if ring[bottom].expiry > now {
            return;
          }
          DeactivateStep(Repr(), bottom);
          Deactivate(bottom);
        }
        AdvanceStep(Repr());
        Advance();
        purged := purged + 1;
      }
    }

    method Deactivate(i: nat)
      requires Sized() && i < maxElements && ring[i].bucket < numBuckets && ring[i].tab < BUCKET_SIZE
      modifies table, ring
      ensures Sized()
      ensures Repr() == Deactivated(old(Repr()), i, old(ring[i].bucket), old(ring[i].tab))
    {
      var b, t := ring[i].bucket, ring[i].tab;
      ring[i] := ring[i].(active := false);
      table[b] := table[b][t := table[b][t].(busy := false)];
    }

    method Advance()
      requires Sized()
      modifies this`bottom
      ensures Sized()
      ensures Repr() == Advanced(old(Repr()))
    {
      Ring.SuccMod(bottom, maxElements);
      if bottom == maxElements - 1 {
        bottom := 0;
      } else {
        bottom := bottom + 1;
      }
    }
  }
}
