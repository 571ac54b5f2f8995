/** The hash table of the FIB: buckets whose slots point into a table that only grows. */
module FibHashTable {
  import opened Defs
  import Index
  import Spec = FibSpec

  datatype FwdEntry = FwdEntry(face: nat, name: Name)

  const UNUSED := FwdEntry(0, [])

  /** places says which forwarding entries are reachable, and from which slot; the source
      keeps no such record. */
  datatype Store = Store(h: Hash, table: Index.Table, fwd: seq<FwdEntry>, next: nat, places: seq<Index.Place>)

  predicate Fits(s: Store) {
    Index.Shaped(s.table) && s.next <= |s.fwd| == |s.places|
  }

  function EntriesOf(s: Store): (es: Spec.Entries)
    requires Fits(s)
    ensures |es| == s.next
  {
    seq(s.next, i requires 0 <= i < s.next =>
      if s.places[i].Used? then Spec.Route(s.fwd[i].name, s.fwd[i].face) else Spec.Gone)
  }

  function DimOf(s: Store): Spec.Dim
    requires Fits(s)
  {
    Spec.Dim(s.h, |s.table|, |s.fwd|)
  }

  ghost predicate Consistent(s: Store) {
    && Fits(s)
    && Index.Linked(s.h, s.table, s.places)
    && (forall i :: 0 <= i < |s.places| && s.places[i].Used? ==> i < s.next && s.places[i].name == s.fwd[i].name)
  }

  lemma SlotFinds(s: Store, name: Name, t: nat)
    requires Consistent(s) && t < BUCKET_SIZE
    requires Index.Matches(s.h, s.table, s.places, name, t)
    ensures var i := s.table[Index.Home(s.h, s.table, name)][t].index;
            && i < s.next && s.fwd[i].name == name
            && EntriesOf(s)[i] == Spec.Route(name, s.fwd[i].face)
  {
    var i := s.table[Index.Home(s.h, s.table, name)][t].index;
    assert s.places[i].Used?;
  }

  /** Every route of a name is reached from some slot of its bucket. */
  lemma RouteHasSlot(s: Store, name: Name, k: nat)
    requires Consistent(s) && Spec.IsRoute(EntriesOf(s), k, name)
    ensures s.places[k].Used? && s.places[k].tab < BUCKET_SIZE
    ensures Index.Matches(s.h, s.table, s.places, name, s.places[k].tab)
    ensures s.table[Index.Home(s.h, s.table, name)][s.places[k].tab].index == k
  {
    assert s.places[k].Used?;
    assert Index.PlaceOk(s.h, s.table, s.places, k);
  }

  lemma NoFreeSlot(s: Store, name: Name)
    requires Consistent(s)
    ensures Spec.BucketFull(DimOf(s), EntriesOf(s), name) <==>
            forall t: nat :: t < BUCKET_SIZE ==> s.table[Index.Home(s.h, s.table, name)][t].busy
  {
    var b := Index.Home(s.h, s.table, name);
    Index.NoFreeSlot(s.h, s.table, s.places, b);
    assert Spec.Occupants(DimOf(s), EntriesOf(s), b) == Index.Entries(s.places, b) by {
      forall i: nat | i < |s.places| && s.places[i].Used?
        ensures s.places[i].bucket == Index.Home(s.h, s.table, s.places[i].name)
      {
        assert Index.PlaceOk(s.h, s.table, s.places, i);
      }
    }
  }

  function Added(s: Store, name: Name, b: nat, t: nat, crc: nat, face: nat): Store
    requires Fits(s) && s.next < |s.fwd| && b < |s.table| && t < BUCKET_SIZE
  {
    s.(table := Index.SetSlot(s.table, b, t, Slot(true, crc, s.next)),
       fwd := s.fwd[s.next := FwdEntry(face, name)],
       places := s.places[s.next := Index.Used(name, b, t)],
       next := s.next + 1)
  }

  lemma AddStep(s: Store, name: Name, t: nat, face: nat)
    requires Consistent(s) && s.next < |s.fwd| && t < BUCKET_SIZE
    requires !s.table[Index.Home(s.h, s.table, name)][t].busy
    ensures var s' := Added(s, name, Index.Home(s.h, s.table, name), t, s.h(name), face);
            && Consistent(s') && DimOf(s') == DimOf(s)
            && EntriesOf(s') == EntriesOf(s) + [Spec.Route(name, face)]
  {
    assert s.places[s.next].Free?;
    Index.Link(s.h, s.table, s.places, s.next, name, t);
  }

  function Removed(s: Store, b: nat, t: nat): Store
    requires Fits(s) && b < |s.table| && t < BUCKET_SIZE && s.table[b][t].index < |s.places|
  {
    s.(table := Index.SetSlot(s.table, b, t, s.table[b][t].(busy := false)),
       places := s.places[s.table[b][t].index := Index.Free])
  }

  lemma RemoveStep(s: Store, name: Name, t: nat)
    requires Consistent(s) && t < BUCKET_SIZE
    requires Index.Matches(s.h, s.table, s.places, name, t)
    ensures var b := Index.Home(s.h, s.table, name);
            var s' := Removed(s, b, t);
            && Consistent(s') && DimOf(s') == DimOf(s)
            && s.table[b][t].index < s.next
            && EntriesOf(s') == Spec.DeleteAt(EntriesOf(s), s.table[b][t].index)
  {
    var b := Index.Home(s.h, s.table, name);
    var i := s.table[b][t].index;
    assert Index.SlotOk(s.h, s.table, s.places, b, t);
    Index.Unlink(s.h, s.table, s.places, i, s.table[b][t].(busy := false));
    assert EntriesOf(Removed(s, b, t)) == Spec.DeleteAt(EntriesOf(s), i);
  }

  class FibHashTable {
    const hash: Hash
    const numBuckets: nat
    const maxElements: nat
    const htbl: array<seq<Slot>>
    const fwdTable: array<FwdEntry>
    var nextFreeElement: nat
    ghost var places: seq<Index.Place>

    ghost function Repr(): Store
      reads this, htbl, fwdTable
    {
      Store(hash, htbl[..], fwdTable[..], nextFreeElement, places)
    }

    ghost predicate Valid()
      reads this, htbl, fwdTable
    {
      htbl.Length == numBuckets && fwdTable.Length == maxElements && Consistent(Repr())
    }

    ghost function Dim(): Spec.Dim {
      Spec.Dim(hash, numBuckets, maxElements)
    }

    ghost function Entries(): Spec.Entries
      requires Valid()
      reads this, htbl, fwdTable
    {
      EntriesOf(Repr())
    }

    constructor (hash: Hash, numBuckets: nat, maxElements: nat)
      requires numBuckets > 0
      ensures Valid() && fresh(htbl) && fresh(fwdTable)
      ensures Dim() == Spec.Dim(hash, numBuckets, maxElements)
      ensures Entries() == []
    {
      this.hash := hash;
      this.numBuckets := numBuckets;
      this.maxElements := maxElements;
      this.htbl := new seq<Slot>[numBuckets](_ => seq(BUCKET_SIZE, _ => FREE_SLOT));
      this.fwdTable := new FwdEntry[maxElements](_ => UNUSED);
      this.nextFreeElement := 0;
      this.places := seq(maxElements, _ => Index.Free);
    }

    method AddKey(name: Name, face: nat, crc: nat) returns (added: bool)
      requires Valid() && crc == hash(name) && |name| <= MAX_NAME_LEN
      modifies this, htbl, fwdTable
      ensures Valid()
      ensures (Entries(), added) == Spec.Add(Dim(), old(Entries()), name, face)
    {
      if nextFreeElement == maxElements {
        return false;
      }
      var b := crc % numBuckets;
      for t := 0 to BUCKET_SIZE
        invariant forall u: nat :: u < t ==> htbl[b][u].busy
      {
        if !htbl[b][t].busy {
          NoFreeSlot(Repr(), name);
          assert !Repr().table[Index.Home(hash, Repr().table, name)][t].busy;
          Fill(name, t, face, crc);
          return true;
        }
      }
      NoFreeSlot(Repr(), name);
      return false;
    }

    method Fill(name: Name, tab: nat, face: nat, crc: nat)
      requires Valid() && crc == hash(name) && nextFreeElement < maxElements
      requires tab < BUCKET_SIZE && !htbl[crc % numBuckets][tab].busy
      modifies this, htbl, fwdTable
      ensures Valid()
      ensures Entries() == old(Entries()) + [Spec.Route(name, face)]
    {
      ghost var s := Repr();
      AddStep(s, name, tab, face);
      var b := crc % numBuckets;
      htbl[b] := htbl[b][tab := Slot(true, crc, nextFreeElement)];
      fwdTable[nextFreeElement] := FwdEntry(face, name);
      places := places[nextFreeElement := Index.Used(name, b, tab)];
      nextFreeElement := nextFreeElement + 1;
      assert Repr() == Added(s, name, Index.Home(hash, s.table, name), tab, crc, face);
    }

    /** Returns one of the faces of a name, chosen by rnd when there are several. The matches
        are collected in an array sized for ports, of which a bucket cannot fill more. */
    method LookupKey(name: Name, crc: nat, rnd: nat) returns (found: Option<nat>, ghost at: nat)
      requires Valid() && crc == hash(name)
      ensures found.None? <==> !Spec.HasRoute(Entries(), name)
      ensures found.Some? ==> at < |Entries()| && Entries()[at] == Spec.Route(name, found.value)
    {
      var match_ := new nat[APP_MAX_ETH_PORTS];
      var nmatch := 0;
      ghost var ats: seq<nat> := [];
      var b := crc % numBuckets;
      for t := 0 to BUCKET_SIZE
        invariant nmatch == |ats| <= t
        invariant forall k :: 0 <= k < nmatch ==>
                    ats[k] < nextFreeElement && Entries()[ats[k]] == Spec.Route(name, match_[k])
        invariant nmatch == 0 ==> forall u: nat :: u < t ==> !Index.Matches(hash, htbl[..], places, name, u)
      {
        assert Index.SlotOk(hash, htbl[..], places, b, t);
        if !htbl[b][t].busy {
          continue;
        }
        if htbl[b][t].crc != crc {
          continue;
        }
        if |name| == |fwdTable[htbl[b][t].index].name| {
          if name == fwdTable[htbl[b][t].index].name {
            SlotFinds(Repr(), name, t);
            match_[nmatch] := fwdTable[htbl[b][t].index].face;
            ats := ats + [htbl[b][t].index];
            nmatch := nmatch + 1;
          }
        }
      }
      if nmatch == 0 {
        forall k ensures !Spec.IsRoute(Entries(), k, name) {
          if Spec.IsRoute(Entries(), k, name) {
            RouteHasSlot(Repr(), name, k);
          }
        }
        return None, 0;
      }
      var res := 0;
      if nmatch > 1 {
        res := rnd % nmatch;
      }
      assert Spec.IsRoute(Entries(), ats[res], name);
      return Some(match_[res]), ats[res];
    }

    /** Frees the slot of one route with the given name and face, if there is one. */
    method DelKey(name: Name, crc: nat, face: nat) returns (deleted: bool, ghost at: nat)
      requires Valid() && crc == hash(name)
      modifies this`places, htbl
      ensures Valid()
      ensures deleted <==> Spec.Route(name, face) in old(Entries())
      ensures if deleted
              then at < |old(Entries())| && old(Entries())[at] == Spec.Route(name, face)
                   && Entries() == Spec.DeleteAt(old(Entries()), at)
              else Entries() == old(Entries())
    {
      var b := crc % numBuckets;
      for t := 0 to BUCKET_SIZE
        invariant forall u: nat :: u < t && Index.Matches(hash, htbl[..], places, name, u) ==>
                    fwdTable[htbl[b][u].index].face != face
      {
        assert Index.SlotOk(hash, htbl[..], places, b, t);
        if !htbl[b][t].busy {
          continue;
        }
        if htbl[b][t].crc != crc {
          continue;
        }
        if |name| == |fwdTable[htbl[b][t].index].name| && name == fwdTable[htbl[b][t].index].name
           && fwdTable[htbl[b][t].index].face == face {
          SlotFinds(Repr(), name, t);
          at := htbl[b][t].index;
          Release(name, t, crc);
          return true, at;
        }
      }
      forall k | 0 <= k < |Entries()| ensures Entries()[k] != Spec.Route(name, face) {
        if Spec.IsRoute(Entries(), k, name) {
          RouteHasSlot(Repr(), name, k);
          SlotFinds(Repr(), name, places[k].tab);
        }
      }
      return false, 0;
    }

    method Release(name: Name, tab: nat, crc: nat)
      requires Valid() && crc == hash(name) && tab < BUCKET_SIZE
      requires Index.Matches(hash, htbl[..], places, name, tab)
      modifies this`places, htbl
      ensures Valid()
      ensures old(htbl[crc % numBuckets][tab].index) < |old(Entries())|
      ensures Entries() == Spec.DeleteAt(old(Entries()), old(htbl[crc % numBuckets][tab].index))
    {
      ghost var s := Repr();
      RemoveStep(s, name, tab);
      var b := crc % numBuckets;
      htbl[b] := htbl[b][tab := htbl[b][tab].(busy := false)];
      places := places[htbl[b][tab].index := Index.Free];
      assert Repr() == Removed(s, b, tab);
    }
  }
}
