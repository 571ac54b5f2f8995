/** The Forwarding Information Base: routes by name prefix, looked up longest first. */
module Fib {
  import opened Defs
  import opened Wire
  import FibHashTable
  import Spec = FibSpec

  datatype UpdateResult = Done | NoSpace | NoEntry | Invalid

  class Fib {
    const hash: Hash
    const table: FibHashTable.FibHashTable

    ghost predicate Valid()
      reads this, table, table.htbl, table.fwdTable
    {
      table.Valid() && table.hash == hash
    }

    constructor (hash: Hash, numBuckets: nat, maxElements: nat)
      requires numBuckets > 0
      ensures Valid() && fresh(table) && fresh(table.htbl) && fresh(table.fwdTable)
      ensures table.Dim() == Spec.Dim(hash, numBuckets, maxElements) && table.Entries() == []
    {
      this.hash := hash;
      table := new FibHashTable.FibHashTable(hash, numBuckets, maxElements);
    }

    /** Rejects names that are empty or start with a zero byte. */
    method Add(name: Name, face: nat) returns (r: UpdateResult)
      requires Valid() && |name| <= MAX_NAME_LEN
      modifies table, table.htbl, table.fwdTable
      ensures Valid()
      ensures r.Invalid? <==> name == [] || name[0] == 0
      ensures r.Invalid? ==> table.Entries() == old(table.Entries())
      ensures !r.Invalid? ==> (table.Entries(), r.Done?) == Spec.Add(table.Dim(), old(table.Entries()), name, face)
      ensures !r.NoEntry?
    {
      if Spec.BadName(name) {
        return Invalid;
      }
      var added := table.AddKey(name, face, hash(name));
      return if added then Done else NoSpace;
    }

    method Del(name: Name, face: nat) returns (r: UpdateResult, ghost at: nat)
      requires Valid() && |name| <= MAX_NAME_LEN
      modifies table`places, table.htbl
      ensures Valid()
      ensures r.Invalid? <==> name == [] || name[0] == 0
      ensures r.Done? ==> Spec.Route(name, face) in old(table.Entries())
      ensures r.NoEntry? ==> Spec.Route(name, face) !in old(table.Entries())
      ensures if r.Done?
              then at < |old(table.Entries())| && old(table.Entries())[at] == Spec.Route(name, face)
                   && table.Entries() == Spec.DeleteAt(old(table.Entries()), at)
              else table.Entries() == old(table.Entries())
      ensures !r.NoSpace?
    {
      if Spec.BadName(name) {
        return Invalid, 0;
      }
      var deleted;
      deleted, at := table.DelKey(name, hash(name), face);
      r := if deleted then Done else NoEntry;
    }

    /** Probes the prefixes of the packet's name from the last component offset to the first,
        and remembers their hashes in the packet. rnd settles ties. */
    method Lookup(icn: IcnPacket, rnd: nat) returns (found: Option<nat>, ghost at: nat)
      requires Valid()
      requires icn.componentNr == |GetAll(icn.componentOffsets)| <= icn.crc.Length
      requires Spec.Inside(icn.name, GetAll(icn.componentOffsets))
      modifies icn.crc
      ensures Spec.Answers(table.Entries(), icn.name, GetAll(icn.componentOffsets), found, at)
      ensures var offsets := GetAll(icn.componentOffsets);
              Cached(hash, icn.crc[..], icn.name, offsets, Spec.Best(table.Entries(), icn.name, offsets, |offsets|))
    {
      ghost var es := table.Entries();
      ghost var offsets := GetAll(icn.componentOffsets);
      var comp := icn.componentNr - 1;
      while comp >= 0
        invariant -1 <= comp < icn.componentNr
        invariant Spec.Best(es, icn.name, offsets, |offsets|) == Spec.Best(es, icn.name, offsets, comp + 1)
        invariant Cached(hash, icn.crc[..], icn.name, offsets, comp + 1)
      {
        var length := Get16(icn.componentOffsets, 2 * comp) + 1;
        var prefix := icn.name[..length];
        assert prefix == Spec.Prefix(icn.name, offsets[comp]);
        icn.crc[comp] := hash(prefix);
        assert Cached(hash, icn.crc[..], icn.name, offsets, comp);
        found, at := table.LookupKey(prefix, icn.crc[comp], rnd);
        if found.Some? {
          assert Spec.IsRoute(es, at, prefix);
          return;
        }
        comp := comp - 1;
      }
      return None, 0;
    }
  }

  /** The hashes of the prefixes from the lo-th on are in the packet. */
  predicate Cached(h: Hash, crc: seq<nat>, name: Name, offsets: seq<nat>, lo: int)
    requires Spec.Inside(name, offsets) && |offsets| <= |crc|
  {
    forall c :: 0 <= c < |offsets| && lo <= c ==> crc[c] == h(Spec.Prefix(name, offsets[c]))
  }

  /** A layer as interest_over_ip and data_over_ip make it. */
  predicate Printed(l: Layer, payload: seq<byte>) {
    |l.name| < 0x1_0000 && l.offsets == ComputeOffset(l.name) && Wire.Fits(l, payload) && l.pktLen == 0
  }

  /** What the router makes of the printed packet. */
  function Received(l: Layer, payload: seq<byte>): (icn: Icn)
    requires Printed(l, payload)
    ensures Spec.Inside(icn.name, icn.offsets)
  {
    ChunkRoundTrip(l, payload);
    Parse(Packet(l, payload)).value
  }

  /** A chunk name that the Scapy layer prints and the router parses is forwarded to a face
      registered for the longest of its separator-terminated prefixes in the FIB, and finds
      no route exactly when none of these is registered. */
  lemma EndToEnd(l: Layer, payload: seq<byte>, es: Spec.Entries, answer: Option<nat>, at: nat)
    requires Printed(l, payload)
    requires Spec.Answers(es, Received(l, payload).name, Received(l, payload).offsets, answer, at)
    ensures Spec.LongestMatch(es, l.name, answer)
  {
    ChunkRoundTrip(l, payload);
    var icn := Received(l, payload);
    Spec.BestIsLongest(es, icn.name, icn.offsets, answer, at);
  }
}
