/**
 The two-way index between a bucket table and the entries it points at. A busy slot names
 an entry in use; an entry in use names, through its bucket and tab, the slot that leads
 back to it. A hole keeps the bucket and tab it once had, but it owns no slot, so whoever
 took the slot over is safe from it.
 */
module Index {
  import opened Defs
  import Bucket
  import Ring

  /** What the index needs to know of an entry. */
  datatype Place = Free | Used(name: Name, bucket: nat, tab: nat)

  type Table = seq<seq<Slot>>

  predicate Shaped(table: Table) {
    |table| > 0 && forall b :: 0 <= b < |table| ==> |table[b]| == BUCKET_SIZE
  }

  function Home(h: Hash, table: Table, name: Name): (b: nat)
    requires Shaped(table)
    ensures b < |table|
  {
    Bucket.Of(h, name, |table|)
  }

  predicate SlotOk(h: Hash, table: Table, places: seq<Place>, b: nat, t: nat)
    requires Shaped(table) && b < |table| && t < BUCKET_SIZE
  {
    table[b][t].busy ==>
      && table[b][t].index < |places|
      && places[table[b][t].index].Used?
      && places[table[b][t].index].bucket == b
      && places[table[b][t].index].tab == t
      && table[b][t].crc == h(places[table[b][t].index].name)
  }

  predicate PlaceOk(h: Hash, table: Table, places: seq<Place>, i: nat)
    requires Shaped(table) && i < |places|
  {
    places[i].Used? ==>
      && places[i].bucket == Home(h, table, places[i].name)
      && places[i].tab < BUCKET_SIZE
      && table[places[i].bucket][places[i].tab].busy
      && table[places[i].bucket][places[i].tab].index == i
  }

  ghost predicate Linked(h: Hash, table: Table, places: seq<Place>) {
    && Shaped(table)
    && (forall b: nat, t: nat :: b < |table| && t < BUCKET_SIZE ==> SlotOk(h, table, places, b, t))
    && (forall i: nat :: i < |places| ==> PlaceOk(h, table, places, i))
  }

  function SetSlot(table: Table, b: nat, t: nat, s: Slot): (table': Table)
    requires Shaped(table) && b < |table| && t < BUCKET_SIZE
    ensures Shaped(table') && |table'| == |table|
  {
    table[b := table[b][t := s]]
  }

  /** Handing a free slot to a free entry, whoever owned the two before. */
  lemma Link(h: Hash, table: Table, places: seq<Place>, i: nat, name: Name, t: nat)
    requires Linked(h, table, places)
    requires i < |places| && places[i].Free? && t < BUCKET_SIZE
    requires !table[Home(h, table, name)][t].busy
    ensures var b := Home(h, table, name);
            Linked(h, SetSlot(table, b, t, Slot(true, h(name), i)), places[i := Used(name, b, t)])
  {
    var b := Home(h, table, name);
    var table' := SetSlot(table, b, t, Slot(true, h(name), i));
    var places' := places[i := Used(name, b, t)];
    forall c: nat, u: nat | c < |table'| && u < BUCKET_SIZE
      ensures SlotOk(h, table', places', c, u)
    {
      assert SlotOk(h, table, places, c, u);
    }
    forall j: nat | j < |places'| ensures PlaceOk(h, table', places', j) {
      assert PlaceOk(h, table, places, j);
    }
  }

  /** Taking an entry out of use frees exactly its own slot. */
  lemma Unlink(h: Hash, table: Table, places: seq<Place>, i: nat, s: Slot)
    requires Linked(h, table, places)
    requires i < |places| && places[i].Used? && !s.busy
    ensures PlaceOk(h, table, places, i)
    ensures Linked(h, SetSlot(table, places[i].bucket, places[i].tab, s), places[i := Free])
  {
    assert PlaceOk(h, table, places, i);
    var table' := SetSlot(table, places[i].bucket, places[i].tab, s);
    var places' := places[i := Free];
    forall c: nat, u: nat | c < |table'| && u < BUCKET_SIZE
      ensures SlotOk(h, table', places', c, u)
    {
      assert SlotOk(h, table, places, c, u);
    }
    forall j: nat | j < |places'| ensures PlaceOk(h, table', places', j) {
      assert PlaceOk(h, table, places, j);
    }
  }

  /** A name that no busy slot of its bucket leads to is the name of no entry in use. */
  lemma NotFound(h: Hash, table: Table, places: seq<Place>, name: Name)
    requires Linked(h, table, places)
    requires forall t: nat :: t < BUCKET_SIZE ==> !Matches(h, table, places, name, t)
    ensures forall i :: 0 <= i < |places| && places[i].Used? ==> places[i].name != name
  {
    forall i: nat | i < |places| && places[i].Used? ensures places[i].name != name {
      assert PlaceOk(h, table, places, i);
      assert !Matches(h, table, places, name, places[i].tab);
    }
  }

  /** The t-th slot of the bucket of a name leads to an entry of that name. */
  predicate Matches(h: Hash, table: Table, places: seq<Place>, name: Name, t: nat)
    requires Shaped(table) && t < BUCKET_SIZE
  {
    var s := table[Home(h, table, name)][t];
    s.busy && s.index < |places| && places[s.index].Used? && places[s.index].name == name
  }

  /** The entries that a bucket leads to. */
  function Entries(places: seq<Place>, b: nat): set<nat> {
    set i: nat | i < |places| && places[i].Used? && places[i].bucket == b
  }

  /** A bucket has no free slot exactly when BUCKET_SIZE entries in use fall in it. */
  lemma NoFreeSlot(h: Hash, table: Table, places: seq<Place>, b: nat)
    requires Linked(h, table, places) && b < |table|
    ensures |Entries(places, b)| == BUCKET_SIZE <==>
            forall t: nat :: t < BUCKET_SIZE ==> table[b][t].busy
  {
    var es := Entries(places, b);
    var busy := set t: nat | t < BUCKET_SIZE && table[b][t].busy;
    var slotOf := map i | i in es :: places[i].tab;
    forall i | i in es ensures slotOf[i] in busy && table[b][slotOf[i]].index == i {
      assert PlaceOk(h, table, places, i);
    }
    assert slotOf.Values == busy by {
      forall t | t in busy ensures t in slotOf.Values {
        assert SlotOk(h, table, places, b, t);
        assert table[b][t].index in slotOf;
      }
    }
    assert slotOf.Keys == es;
    Bucket.FullWhen(slotOf, busy);
    assert forall t: nat :: t < BUCKET_SIZE ==> (t in busy <==> table[b][t].busy);
  }

  // ----- An index over a circular log -----

  /** Every entry in use lies between bottom and top. */
  predicate Contained(places: seq<Place>, bottom: nat, top: nat)
    requires bottom < |places| && top < |places|
  {
    forall i :: 0 <= i < |places| && places[i].Used? ==> Ring.InWindow(i, bottom, top, |places|)
  }

  lemma GrowContained(places: seq<Place>, bottom: nat, top: nat, p: Place)
    requires bottom < |places| && top < |places| && Contained(places, bottom, top)
    requires (top + 1) % |places| != bottom
    ensures Contained(places[top := p], bottom, (top + 1) % |places|)
  {
    Ring.SuccMod(top, |places|);
  }

  lemma ShrinkContained(places: seq<Place>, bottom: nat, top: nat)
    requires bottom < |places| && top < |places| && Contained(places, bottom, top)
    requires bottom != top && places[bottom].Free?
    ensures Contained(places, (bottom + 1) % |places|, top)
  {
    Ring.SuccMod(bottom, |places|);
  }

  /** Counting the entries of a bucket along the log counts them all. */
  lemma CountAlongLog(places: seq<Place>, bottom: nat, top: nat, b: nat)
    requires bottom < |places| && top < |places| && Contained(places, bottom, top)
    ensures |Along(places, bottom, top, b)| == |Entries(places, b)|
  {
    var ks := Along(places, bottom, top, b);
    var w := Ring.Window(places, bottom, top);
    var at := map k | k in ks :: Ring.At(bottom, k, |places|);
    assert at.Values == Entries(places, b) by {
      forall i | i in Entries(places, b) ensures i in at.Values {
        var k := Ring.Offset(bottom, i, |places|);
        assert w[k] == places[i];
        assert k in at && at[k] == i;
      }
    }
    assert at.Keys == ks;
    Bucket.SameSize(at);
  }

  /** The positions along the log of the entries that fall in a bucket. */
  function Along(places: seq<Place>, bottom: nat, top: nat, b: nat): set<nat>
    requires bottom < |places| && top < |places|
  {
    var w := Ring.Window(places, bottom, top);
    set k: nat | k < |w| && w[k].Used? && w[k].bucket == b
  }
}
