/** The ICN packet format: how the Scapy layer prints it and how the router parses it. */
module Wire {
  import opened Defs
  import FibSpec

  const TYPE_INTEREST := 0
  const TYPE_DATA := 1
  const TLV_TYPE_NAME_COMPONENTS_OFFSET := 1

  /** Sizes of the fixed header and of the header with the name length. */
  const ICN_HDR_LEN := 9
  const ICN_HDR_NAME_OFFSET := 11

  type u16 = x: int | 0 <= x < 0x1_0000

  // ----- 16-bit big-endian numbers -----

  function Put16(x: u16): (bs: seq<byte>)
    ensures |bs| == 2
  {
    [x / 256, x % 256]
  }

  function Get16(bs: seq<byte>, i: nat): (x: nat)
    requires i + 2 <= |bs|
    ensures x < 0x1_0000
  {
    var hi: int := bs[i];
    hi * 256 + bs[i + 1]
  }

  function PutAll(xs: seq<u16>): (bs: seq<byte>)
    ensures |bs| == 2 * |xs|
  {
    if xs == [] then [] else PutAll(xs[..|xs| - 1]) + Put16(xs[|xs| - 1])
  }

  function GetAll(bs: seq<byte>): (xs: seq<nat>)
    ensures |xs| == |bs| / 2
    ensures forall k :: 0 <= k < |xs| ==> xs[k] == Get16(bs, 2 * k)
  {
    seq(|bs| / 2, k requires 0 <= k < |bs| / 2 => Get16(bs, 2 * k))
  }

  lemma {:induction false} PutAllAt(xs: seq<u16>, k: nat)
    requires k < |xs|
    ensures Get16(PutAll(xs), 2 * k) == xs[k]
  {
    var n := |xs| - 1;
    if k < n {
      PutAllAt(xs[..n], k);
      assert PutAll(xs)[2 * k] == PutAll(xs[..n])[2 * k];
      assert PutAll(xs)[2 * k + 1] == PutAll(xs[..n])[2 * k + 1];
    }
  }

  lemma GetPutAll(xs: seq<u16>)
    ensures GetAll(PutAll(xs)) == xs
  {
    forall k | 0 <= k < |xs| ensures GetAll(PutAll(xs))[k] == xs[k] {
      PutAllAt(xs, k);
    }
  }

  // ----- The printer -----

  /** Positions of the separators of a name. */
  function Separators(name: Name): (offsets: seq<nat>) {
    if name == [] then []
    else
      var n := |name| - 1;
      Separators(name[..n]) + if name[n] == SLASH then [n] else []
  }

  /** The list is exactly the separators, each once, in increasing order. */
  lemma {:induction false} SeparatorsExact(name: Name)
    ensures FibSpec.SeparatorsOf(name, Separators(name))
    ensures |Separators(name)| <= |name|
  {
    if name != [] {
      var n := |name| - 1;
      SeparatorsExact(name[..n]);
      var before := Separators(name[..n]);
      assert forall p :: 0 <= p < n ==> name[..n][p] == name[p];
    }
  }

  function AsU16(xs: seq<nat>): (us: seq<u16>)
    requires forall k :: 0 <= k < |xs| ==> xs[k] < 0x1_0000
    ensures us == xs
  {
    seq(|xs|, k requires 0 <= k < |xs| => xs[k])
  }

  /** The offsets of the separators as two bytes each. */
  function ComputeOffset(name: Name): seq<byte>
    requires |name| < 0x1_0000
  {
    SeparatorsExact(name);
    PutAll(AsU16(Separators(name)))
  }

  /** They are the separators in order, the high byte of each first. */
  lemma OffsetBytes(name: Name)
    requires |name| < 0x1_0000
    ensures var bs, offsets := ComputeOffset(name), Separators(name);
            && |bs| == 2 * |offsets|
            && forall k :: 0 <= k < |offsets| ==>
                 bs[2 * k] == offsets[k] / 256 && bs[2 * k + 1] == offsets[k] % 256
  {
    SeparatorsExact(name);
    var us := AsU16(Separators(name));
    forall k | 0 <= k < |us| ensures PutAll(us)[2 * k] == us[k] / 256 && PutAll(us)[2 * k + 1] == us[k] % 256 {
      PutAllBytes(us, k);
    }
  }

  lemma {:induction false} PutAllBytes(xs: seq<u16>, k: nat)
    requires k < |xs|
    ensures PutAll(xs)[2 * k] == xs[k] / 256 && PutAll(xs)[2 * k + 1] == xs[k] % 256
  {
    var n := |xs| - 1;
    if k < n {
      PutAllBytes(xs[..n], k);
      assert PutAll(xs)[2 * k] == PutAll(xs[..n])[2 * k];
      assert PutAll(xs)[2 * k + 1] == PutAll(xs[..n])[2 * k + 1];
    }
  }

  /** An object name, closed with a separator if it has none, and the chunk number. */
  function ChunkName(name: Name, chunkId: nat): Name
    requires name != [] && chunkId < 0x1_0000_0000
  {
    (if name[|name| - 1] != SLASH then name + [SLASH] else name)
    + Put16(chunkId / 0x1_0000) + Put16(chunkId % 0x1_0000)
  }

  /** The chunk number can be read off a chunk name, what precedes it is the object name closed
      with a separator, and that separator is among those whose offsets the packet carries,
      whatever bytes the chunk number consists of. So the object name is always a prefix that
      the FIB is probed for. */
  lemma ChunkNameParts(name: Name, chunkId: nat)
    requires name != [] && chunkId < 0x1_0000_0000
    ensures var c := ChunkName(name, chunkId);
            var n := |c| - 4;
            && n > 0 && chunkId == 0x100_0000 * (c[n] as int) + 0x1_0000 * (c[n + 1] as int)
                        + 256 * (c[n + 2] as int) + (c[n + 3] as int)
            && c[..n] == (if name[|name| - 1] == SLASH then name else name + [SLASH])
            && c[n - 1] == SLASH && n - 1 in Separators(c)
  {
    var c := ChunkName(name, chunkId);
    var hi: u16, lo: u16 := chunkId / 0x1_0000, chunkId % 0x1_0000;
    var obj := if name[|name| - 1] != SLASH then name + [SLASH] else name;
    assert c == obj + (Put16(hi) + Put16(lo));
    assert c[|obj|] == Put16(hi)[0] && c[|obj| + 1] == Put16(hi)[1];
    assert c[|obj| + 2] == Put16(lo)[0] && c[|obj| + 3] == Put16(lo)[1];
    SeparatorsExact(c);
  }

  /** The fields of an Interest or Data layer; pktLen and hdrLen are 0 when not given. */
  datatype Layer = Layer(kind: u16, pktLen: u16, hopLimit: byte, flags: u16, hdrLen: u16, name: Name,
                         offsets: seq<byte>)

  predicate Fits(l: Layer, payload: seq<byte>) {
    ICN_HDR_NAME_OFFSET + |l.name| + 4 + |l.offsets| + |payload| < 0x1_0000
  }

  /** The layer before the lengths are filled in. */
  function Fields(l: Layer): (bytes: seq<byte>)
    requires |l.name| < 0x1_0000 && |l.offsets| < 0x1_0000
    ensures |bytes| == 15 + |l.name| + |l.offsets|
  {
    Put16(l.kind) + Put16(l.pktLen) + [l.hopLimit] + Put16(l.flags) + Put16(l.hdrLen)
    + Put16(|l.name|) + l.name + Put16(TLV_TYPE_NAME_COMPONENTS_OFFSET) + Put16(|l.offsets|) + l.offsets
  }

  /** The layer byte by byte, with the high byte of every number first. */
  lemma FieldBytes(l: Layer)
    requires |l.name| < 0x1_0000 && |l.offsets| < 0x1_0000
    ensures var p, n := Fields(l), |l.name|;
            && |p| == 15 + n + |l.offsets|
            && p[0] == l.kind / 256 && p[1] == l.kind % 256 && p[2] == l.pktLen / 256 && p[3] == l.pktLen % 256
            && p[4] == l.hopLimit && p[5] == l.flags / 256 && p[6] == l.flags % 256
            && p[7] == l.hdrLen / 256 && p[8] == l.hdrLen % 256 && p[9] == n / 256 && p[10] == n % 256
            && p[11..11 + n] == l.name && p[11 + n] == 0 && p[12 + n] == 1
            && p[13 + n] == |l.offsets| / 256 && p[14 + n] == |l.offsets| % 256 && p[15 + n..] == l.offsets
  {
    var head := Put16(l.kind) + Put16(l.pktLen) + [l.hopLimit] + Put16(l.flags) + Put16(l.hdrLen) + Put16(|l.name|);
    var tail := Put16(TLV_TYPE_NAME_COMPONENTS_OFFSET) + Put16(|l.offsets|);
    var p, n := Fields(l), |l.name|;
    assert p == head + (l.name + (tail + l.offsets));
    assert forall k :: 0 <= k < 11 ==> p[k] == head[k];
    assert forall k :: 0 <= k < 4 ==> p[11 + n + k] == tail[k];
    assert p[11..11 + n] == l.name && p[15 + n..] == l.offsets;
  }

  lemma PatchHdrLen(l: Layer, len: u16)
    requires |l.name| < 0x1_0000 && |l.offsets| < 0x1_0000
    ensures |Fields(l)| == ICN_HDR_NAME_OFFSET + |l.name| + 4 + |l.offsets|
    ensures Fields(l)[..7] + Put16(len) + Fields(l)[9..] == Fields(l.(hdrLen := len))
  {
    hide Put16;
    var a := Put16(l.kind) + Put16(l.pktLen) + [l.hopLimit] + Put16(l.flags);
    var c := Put16(|l.name|) + l.name + Put16(TLV_TYPE_NAME_COMPONENTS_OFFSET) + Put16(|l.offsets|) + l.offsets;
    assert Fields(l) == a + Put16(l.hdrLen) + c;
    assert Fields(l.(hdrLen := len)) == a + Put16(len) + c;
  }

  lemma PatchPktLen(l: Layer, len: u16)
    requires |l.name| < 0x1_0000 && |l.offsets| < 0x1_0000
    ensures |Fields(l)| == ICN_HDR_NAME_OFFSET + |l.name| + 4 + |l.offsets|
    ensures Fields(l)[..2] + Put16(len) + Fields(l)[4..] == Fields(l.(pktLen := len))
  {
    hide Put16;
    var c := [l.hopLimit] + Put16(l.flags) + Put16(l.hdrLen)
             + Put16(|l.name|) + l.name + Put16(TLV_TYPE_NAME_COMPONENTS_OFFSET) + Put16(|l.offsets|) + l.offsets;
    assert Fields(l) == Put16(l.kind) + Put16(l.pktLen) + c;
    assert Fields(l.(pktLen := len)) == Put16(l.kind) + Put16(len) + c;
  }

  /** Writes the lengths that were not given into the bytes of the layer. */
  method PostBuild(l: Layer, p0: seq<byte>, payload: seq<byte>) returns (bytes: seq<byte>)
    requires Fits(l, payload) && p0 == Fields(l)
    ensures bytes == Packet(l, payload)
    ensures |bytes| == |p0| + |payload| && bytes[|p0|..] == payload
    ensures forall i :: 0 <= i < |p0| && i != 2 && i != 3 && i != 7 && i != 8 ==> bytes[i] == p0[i]
    ensures if l.pktLen == 0 then bytes[2] == |bytes| / 256 && bytes[3] == |bytes| % 256
            else bytes[2] == l.pktLen / 256 && bytes[3] == l.pktLen % 256
    ensures if l.hdrLen == 0 then bytes[7] == |p0| / 256 && bytes[8] == |p0| % 256
            else bytes[7] == l.hdrLen / 256 && bytes[8] == l.hdrLen % 256
  {
    hide Put16, Fields, Packet;
    var p := p0;
    ghost var now := l;
    var hdrLen: u16 := l.hdrLen;
    var pktLen: u16 := l.pktLen;
    if hdrLen == 0 {
      PatchHdrLen(now, |p|);
      hdrLen := |p|;
      p := p[..7] + Put16(hdrLen) + p[9..];
      now := now.(hdrLen := hdrLen);
    }
    if pktLen == 0 {
      PatchPktLen(now, |p| + |payload|);
      pktLen := |p| + |payload|;
      p := p[..2] + Put16(pktLen) + p[4..];
      now := now.(pktLen := pktLen);
    }
    assert p == Fields(now) && now == Filled(l, payload);
    bytes := p + payload;
    PacketIs(l, payload);
    PacketBytes(l, payload);
  }

  /** The lengths as sent: the header length counts the layer, the packet length the payload too. */
  function Filled(l: Layer, payload: seq<byte>): Layer
    requires Fits(l, payload)
  {
    var len := ICN_HDR_NAME_OFFSET + |l.name| + 4 + |l.offsets|;
    l.(hdrLen := if l.hdrLen == 0 then len else l.hdrLen,
       pktLen := if l.pktLen == 0 then len + |payload| else l.pktLen)
  }

  /** The packet as sent: the layer printed with its lengths filled in. */
  function Packet(l: Layer, payload: seq<byte>): seq<byte>
    requires Fits(l, payload)
  {
    Fields(Filled(l, payload)) + payload
  }

  lemma PacketIs(l: Layer, payload: seq<byte>)
    requires Fits(l, payload)
    ensures Packet(l, payload) == Fields(Filled(l, payload)) + payload
  {
  }

  /** What filling in the lengths changes: bytes 2 and 3 for the packet length, and 7 and 8 for that
      of the layer, unless they were given. */
  lemma PacketBytes(l: Layer, payload: seq<byte>)
    requires Fits(l, payload)
    ensures var bytes, p0 := Packet(l, payload), Fields(l);
            && |bytes| == |p0| + |payload| && bytes[|p0|..] == payload && |p0| >= 15
            && (forall i :: 0 <= i < |p0| && i != 2 && i != 3 && i != 7 && i != 8 ==> bytes[i] == p0[i])
            && bytes[2] == (if l.pktLen == 0 then |bytes| else l.pktLen) / 256
            && bytes[3] == (if l.pktLen == 0 then |bytes| else l.pktLen) % 256
            && bytes[7] == (if l.hdrLen == 0 then |p0| else l.hdrLen) / 256
            && bytes[8] == (if l.hdrLen == 0 then |p0| else l.hdrLen) % 256
  {
    hide Fields;
    var l' := Filled(l, payload);
    FieldBytes(l);
    FieldBytes(l');
    var p, p' := Fields(l), Fields(l');
    forall i | 0 <= i < |p| && i != 2 && i != 3 && i != 7 && i != 8 ensures p'[i] == p[i] {
      if 11 <= i < 11 + |l.name| {
        assert p[i] == p[11..11 + |l.name|][i - 11] && p'[i] == p'[11..11 + |l.name|][i - 11];
      } else if i >= 15 + |l.name| {
        assert p[i] == p[15 + |l.name|..][i - 15 - |l.name|] && p'[i] == p'[15 + |l.name|..][i - 15 - |l.name|];
      }
    }
  }

  // ----- The parser -----

  datatype Icn = Icn(kind: nat, name: Name, offsets: seq<nat>)

  /** Every byte that parsing looks at is there: the router does not check it. */
  predicate Readable(pkt: seq<byte>) {
    && |pkt| >= ICN_HDR_NAME_OFFSET
    && var end := ICN_HDR_NAME_OFFSET + Get16(pkt, ICN_HDR_LEN);
       && end <= |pkt|
       && (end < Get16(pkt, 2) ==>
             && end + 4 <= |pkt|
             && (Get16(pkt, end) == TLV_TYPE_NAME_COMPONENTS_OFFSET ==> end + 4 + Get16(pkt, end + 2) <= |pkt|))
  }

  /** What a packet says, unless it stops at its name or lacks the component offsets. */
  function Parse(pkt: seq<byte>): Option<Icn>
    requires Readable(pkt)
  {
    var end := ICN_HDR_NAME_OFFSET + Get16(pkt, ICN_HDR_LEN);
    if end >= Get16(pkt, 2) || Get16(pkt, end) != TLV_TYPE_NAME_COMPONENTS_OFFSET then None
    else Some(Icn(Get16(pkt, 0), pkt[ICN_HDR_NAME_OFFSET..end], GetAll(pkt[end + 4..end + 4 + Get16(pkt, end + 2)])))
  }

  /** Parsing in terms of the bytes: what each number is, and when it fails. */
  lemma ParseBytes(pkt: seq<byte>)
    requires Readable(pkt)
    ensures |pkt| >= 11
    ensures var end := 11 + 256 * (pkt[9] as int) + (pkt[10] as int);
            Parse(pkt).Some? <==> end < 256 * (pkt[2] as int) + (pkt[3] as int) && pkt[end] == 0 && pkt[end + 1] == 1
    ensures Parse(pkt).Some? ==>
              var icn, end := Parse(pkt).value, 11 + 256 * (pkt[9] as int) + (pkt[10] as int);
              var start, size := end + 4, 256 * (pkt[end + 2] as int) + (pkt[end + 3] as int);
              && start + size <= |pkt| && |icn.offsets| == size / 2
              && icn.kind == 256 * (pkt[0] as int) + (pkt[1] as int) && icn.name == pkt[11..end]
              && forall k :: 0 <= k < |icn.offsets| ==>
                   icn.offsets[k] == 256 * (pkt[start + 2 * k] as int) + (pkt[start + 2 * k + 1] as int)
  {
    if Parse(pkt).Some? {
      var start := 15 + 256 * (pkt[9] as int) + (pkt[10] as int);
      var bs := pkt[start..start + 256 * (pkt[start - 2] as int) + (pkt[start - 1] as int)];
      assert forall i :: 0 <= i < |bs| ==> bs[i] == pkt[start + i];
    }
  }

  /** The parsed view of a packet; crc caches the hashes of its prefixes. */
  class IcnPacket {
    var kind: nat
    var name: Name
    var componentOffsets: seq<byte>
    var componentNr: nat
    const crc: array<nat>

    constructor ()
      ensures fresh(crc) && crc.Length == MAX_NAME_COMPONENTS
    {
      kind, name, componentOffsets, componentNr := 0, [], [], 0;
      crc := new nat[MAX_NAME_COMPONENTS](_ => 0);
    }

    /** True on success. Kind and name are filled in even on failure. */
    method ParsePacket(pkt: seq<byte>) returns (ok: bool)
      requires Readable(pkt)
      modifies this
      ensures kind == 256 * (pkt[0] as int) + (pkt[1] as int)
      ensures name == pkt[11..11 + 256 * (pkt[9] as int) + (pkt[10] as int)]
      ensures ok <==> var end := 11 + |name|;
                      end < 256 * (pkt[2] as int) + (pkt[3] as int) && pkt[end] == 0 && pkt[end + 1] == 1
      ensures ok ==> var start := 15 + |name|;
                     componentOffsets == pkt[start..start + 256 * (pkt[start - 2] as int) + (pkt[start - 1] as int)]
      ensures ok ==> componentNr == |GetAll(componentOffsets)| == |componentOffsets| / 2
      ensures ok ==> forall k :: 0 <= k < componentNr ==>
                GetAll(componentOffsets)[k]
                == 256 * (componentOffsets[2 * k] as int) + (componentOffsets[2 * k + 1] as int)
      ensures Parse(pkt) == if ok then Some(Icn(kind, name, GetAll(componentOffsets))) else None
    {
      var ptr := ICN_HDR_LEN;
      kind := Get16(pkt, 0);
      var nameLen := Get16(pkt, ptr);
      ptr := ptr + 2;
      name := pkt[ICN_HDR_NAME_OFFSET..ICN_HDR_NAME_OFFSET + nameLen];
      ptr := ICN_HDR_NAME_OFFSET + nameLen;
      if ptr >= Get16(pkt, 2) {
        return false;
      }
      var tlv := Get16(pkt, ptr);
      ptr := ptr + 2;
      var length := Get16(pkt, ptr);
      ptr := ptr + 2;
      if tlv != TLV_TYPE_NAME_COMPONENTS_OFFSET {
        return false;
      }
      componentOffsets := pkt[ptr..ptr + length];
      componentNr := length / 2;
      return true;
    }
  }

  // ----- Parsing undoes printing -----

  /** Where the fields of a printed layer are. */
  lemma Layout(l: Layer, payload: seq<byte>)
    requires Fits(l, payload)
    ensures var p := Fields(l) + payload;
            var end := ICN_HDR_NAME_OFFSET + |l.name|;
            && end + 4 + |l.offsets| <= |p|
            && Get16(p, 0) == l.kind && Get16(p, 2) == l.pktLen && Get16(p, 7) == l.hdrLen
            && Get16(p, ICN_HDR_LEN) == |l.name| && p[ICN_HDR_NAME_OFFSET..end] == l.name
            && Get16(p, end) == TLV_TYPE_NAME_COMPONENTS_OFFSET && Get16(p, end + 2) == |l.offsets|
            && p[end + 4..end + 4 + |l.offsets|] == l.offsets
  {
    var head := Put16(l.kind) + Put16(l.pktLen) + [l.hopLimit] + Put16(l.flags) + Put16(l.hdrLen) + Put16(|l.name|);
    var p := Fields(l) + payload;
    var end := ICN_HDR_NAME_OFFSET + |l.name|;
    assert p[..ICN_HDR_NAME_OFFSET] == head;
    assert p[0] == head[0] && p[1] == head[1] && p[2] == head[2] && p[3] == head[3];
    assert p[7] == head[7] && p[8] == head[8] && p[9] == head[9] && p[10] == head[10];
    var tail := Put16(TLV_TYPE_NAME_COMPONENTS_OFFSET) + Put16(|l.offsets|);
    assert p == (head + l.name) + (tail + (l.offsets + payload));
    assert p[end..end + 4] == tail;
    assert p[end] == tail[0] && p[end + 1] == tail[1] && p[end + 2] == tail[2] && p[end + 3] == tail[3];
  }

  /** A printed packet is parsed back to its kind, name and offsets exactly when its packet
      length reaches past the name, as the length that post_build computes always does. */
  lemma RoundTrip(l: Layer, payload: seq<byte>, offsets: seq<u16>)
    requires Fits(l, payload) && l.offsets == PutAll(offsets)
    ensures var pkt := Packet(l, payload);
            && Readable(pkt)
            && (Parse(pkt) == Some(Icn(l.kind, l.name, offsets))
                <==> l.pktLen == 0 || l.pktLen > ICN_HDR_NAME_OFFSET + |l.name|)
            && (Parse(pkt).None? <==> 0 < l.pktLen <= ICN_HDR_NAME_OFFSET + |l.name|)
  {
    Layout(Filled(l, payload), payload);
    GetPutAll(offsets);
  }

  /** Printing and parsing a chunk name yields as many components as it has separators, and
      their offsets, whatever bytes the chunk number consists of. */
  lemma ChunkRoundTrip(l: Layer, payload: seq<byte>)
    requires |l.name| < 0x1_0000 && l.offsets == ComputeOffset(l.name)
    requires Fits(l, payload) && l.pktLen == 0
    ensures var pkt := Packet(l, payload);
            && Readable(pkt) && Parse(pkt).Some?
            && Parse(pkt).value.kind == l.kind
            && Parse(pkt).value.name == l.name
            && FibSpec.SeparatorsOf(l.name, Parse(pkt).value.offsets)
  {
    SeparatorsExact(l.name);
    RoundTrip(l, payload, AsU16(Separators(l.name)));
  }
}
