/** The Internet checksum of section 2 of RFC 1071, as computed over IPv4 headers. */
module Checksum {
  import opened Defs

  const ONES := 0xFFFF
  const IPV4_HDR_LEN := 20

  /** Which byte of a 16-bit word comes first in memory. */
  datatype Order = Little | Big

  function Word(lo: byte, hi: byte, order: Order): (w: nat)
    ensures w <= ONES
  {
    var a: int, b: int := lo, hi;
    if order.Little? then a + 256 * b else 256 * a + b
  }

  /** The sum of the words of a buffer; an odd last byte counts as it stands. */
  function Total(buf: seq<byte>, order: Order): nat {
    if |buf| == 0 then 0
    else if |buf| == 1 then buf[0]
    else Word(buf[0], buf[1], order) + Total(buf[2..], order)
  }

  predicate Congruent(a: int, b: int) {
    (a - b) % ONES == 0
  }

  /** r is the one's complement sum for a total: the 16-bit number congruent to it that is
      zero only for a zero total. */
  predicate IsSum(r: nat, total: nat) {
    r <= ONES && Congruent(r, total) && (r == 0 <==> total == 0)
  }

  lemma Multiple(k: int)
    ensures ONES * k % ONES == 0
  {
  }

  /** There is only one such number. */
  lemma SumUnique(r: nat, s: nat, total: nat)
    requires IsSum(r, total) && IsSum(s, total)
    ensures r == s
  {
    CongruentTrans(r, total, s);
  }

  lemma CongruentTrans(a: int, b: int, c: int)
    requires Congruent(a, b) && Congruent(c, b)
    ensures Congruent(a, c)
  {
    var k, m := (a - b) / ONES, (c - b) / ONES;
    assert a - c == ONES * (k - m);
    Multiple(k - m);
  }

  /** Adding a word and taking 0xFFFF off when the sum does not fit keeps a sum a sum. */
  lemma AddWord(r: nat, total: nat, w: nat)
    requires IsSum(r, total) && w <= ONES
    ensures IsSum(if r + w > ONES then r + w - ONES else r + w, total + w)
  {
    var k := (r - total) / ONES;
    assert r + w - (total + w) == ONES * k;
    assert r + w - ONES - (total + w) == ONES * (k - 1);
    Multiple(k - 1);
  }

  /** Adds the upper half of a 32-bit number to the lower one, keeping 16 bits. */
  function Folded(sum: nat): nat {
    (sum / 0x1_0000 + sum % 0x1_0000) % 0x1_0000
  }

  /** Folding takes 0xFFFF off a sum that went over 16 bits, and leaves others alone. */
  lemma Fold(r: nat, last: nat)
    requires r <= ONES && last < 256
    ensures Folded(r + last) == if r + last > ONES then r + last - ONES else r + last
  {
  }

  /** The total of what follows a place in a buffer. */
  function Rest(buf: seq<byte>, i: nat, order: Order): nat
    requires i <= |buf|
  {
    Total(buf[i..], order)
  }

  /** It is another word and the rest, or an odd byte, or nothing. */
  lemma RestFrom(buf: seq<byte>, i: nat, order: Order)
    requires i <= |buf|
    ensures i + 1 < |buf| ==> Rest(buf, i, order) == Word(buf[i], buf[i + 1], order) + Rest(buf, i + 2, order)
    ensures i + 1 == |buf| ==> Rest(buf, i, order) == buf[i]
    ensures i == |buf| ==> Rest(buf, i, order) == 0
    ensures Rest(buf, 0, order) == Total(buf, order)
  {
    assert buf[0..] == buf;
    if i + 1 < |buf| {
      assert buf[i..][2..] == buf[i + 2..];
    }
  }

  /** The sum of every second byte from a place on. */
  function Stride(buf: seq<byte>, i: nat): nat
    decreases |buf| - i
  {
    if i >= |buf| then 0 else buf[i] + Stride(buf, i + 2)
  }

  /** The total in terms of the bytes: of each word the first byte in memory is the low one for a
      little-endian machine and the high one for a big-endian one. */
  lemma {:induction false} TotalBytes(buf: seq<byte>, i: nat)
    requires i <= |buf|
    ensures Rest(buf, i, Little) == Stride(buf, i) + 256 * Stride(buf, i + 1)
    ensures (|buf| - i) % 2 == 0 ==> Rest(buf, i, Big) == 256 * Stride(buf, i) + Stride(buf, i + 1)
    decreases |buf| - i
  {
    RestFrom(buf, i, Little);
    RestFrom(buf, i, Big);
    if i + 1 < |buf| {
      hide Rest;
      TotalBytes(buf, i + 2);
    }
  }

  /** The words add up to zero only if all bytes are zero. */
  lemma {:induction false} TotalZero(buf: seq<byte>, order: Order)
    ensures Total(buf, order) == 0 <==> forall i :: 0 <= i < |buf| ==> buf[i] == 0
  {
    if |buf| >= 2 {
      TotalZero(buf[2..], order);
      assert buf == [buf[0], buf[1]] + buf[2..];
    }
  }

  lemma ZeroSum(r: nat, buf: seq<byte>, order: Order)
    requires IsSum(r, Total(buf, order))
    ensures r <= 0xFFFF && (r == 0 <==> forall i :: 0 <= i < |buf| ==> buf[i] == 0)
  {
    TotalZero(buf, order);
  }

  /** What a sum is in terms of the bytes. */
  lemma SumBytes(r: nat, buf: seq<byte>, order: Order)
    requires IsSum(r, Total(buf, order))
    ensures r <= 0xFFFF && (r == 0 <==> forall i :: 0 <= i < |buf| ==> buf[i] == 0)
    ensures order.Little? ==> (r - Stride(buf, 0) - 256 * Stride(buf, 1)) % 0xFFFF == 0
    ensures order.Big? && |buf| % 2 == 0 ==> (r - 256 * Stride(buf, 0) - Stride(buf, 1)) % 0xFFFF == 0
  {
    ZeroSum(r, buf, order);
    RestFrom(buf, 0, order);
    TotalBytes(buf, 0);
    hide Total, Stride, Rest;
  }

  /** Computes the sum word by word in 32 bits, folding at most once at the end. */
  method Get16bSum(buf: seq<byte>, order: Order) returns (r: nat)
    ensures IsSum(r, Total(buf, order))
    ensures r == 0 <==> forall i :: 0 <= i < |buf| ==> buf[i] == 0
  {
    assert IsSum(0, 0);
    TotalZero(buf, order);
    RestFrom(buf, 0, order);
    hide IsSum, Folded, Word, Total, Rest, Stride;
    var sum: nat := 0;
    var i := 0;
    ghost var total: nat := 0;
    while |buf| - i > 1
      invariant 0 <= i <= |buf|
      invariant sum <= ONES && IsSum(sum, total)
      invariant Total(buf, order) == total + Rest(buf, i, order)
      decreases |buf| - i
    {
      var w := Word(buf[i], buf[i + 1], order);
      AddWord(sum, total, w);
      RestFrom(buf, i, order);
      sum := sum + w;
      i := i + 2;
      if sum > 0xFFFF {
        sum := sum - 0xFFFF;
      }
      total := total + w;
    }
    RestFrom(buf, i, order);
    if |buf| - i > 0 {
      AddWord(sum, total, buf[i]);
      var last: nat := buf[i];
      total := total + last;
      Fold(sum, last);
      sum := sum + last;
    } else {
      Fold(sum, 0);
    }
    r := Folded(sum);
  }

  // ----- The header checksum -----

  /** The words of two buffers one after the other add up, if the first has even length. */
  lemma {:induction false} TotalConcat(a: seq<byte>, b: seq<byte>, order: Order)
    requires |a| % 2 == 0
    ensures Total(a + b, order) == Total(a, order) + Total(b, order)
  {
    if a == [] {
      assert a + b == b;
    } else {
      assert (a + b)[2..] == a[2..] + b;
      TotalConcat(a[2..], b, order);
    }
  }

  /** A header with a word in its checksum field (bytes 10 and 11). */
  function WithField(hdr: seq<byte>, c: nat, order: Order): seq<byte>
    requires |hdr| == IPV4_HDR_LEN && c <= ONES
  {
    if order.Little? then hdr[10 := c % 256][11 := c / 256] else hdr[10 := c / 256][11 := c % 256]
  }

  lemma FieldTotal(hdr: seq<byte>, c: nat, order: Order)
    requires |hdr| == IPV4_HDR_LEN && c <= ONES
    ensures Total(WithField(hdr, c, order), order) == Total(WithField(hdr, 0, order), order) + c
  {
    var before, after := hdr[..10], hdr[12..];
    var field := WithField(hdr, c, order)[10..12];
    var zero: seq<byte> := [0, 0];
    assert WithField(hdr, c, order) == before + (field + after);
    assert WithField(hdr, 0, order) == before + (zero + after);
    TotalConcat(before, field + after, order);
    TotalConcat(before, zero + after, order);
    TotalConcat(field, after, order);
    TotalConcat(zero, after, order);
    assert Total(field, order) == Word(field[0], field[1], order) + Total(field[2..], order);
  }

  /** What goes into the field for a sum: its complement, except that 0xFFFF stays. */
  function FieldFor(sum: nat): nat
    requires sum <= ONES
  {
    if sum == ONES then sum else ONES - sum
  }

  lemma Complement(sum: nat, total: nat)
    requires sum <= ONES && Congruent(sum, total)
    ensures Congruent(ONES, total + FieldFor(sum))
  {
    var k := (sum - total) / ONES;
    assert sum - total == ONES * k;
    assert ONES - (total + FieldFor(sum)) == ONES * (if sum == ONES then k - 1 else k);
  }

  /** Summing a header again, checksum included, gives exactly 0xFFFF: what section 3.1 of
      RFC 791 has every receiver check. */
  lemma Verifies(hdr: seq<byte>, sum: nat, order: Order)
    requires |hdr| == IPV4_HDR_LEN && IsSum(sum, Total(WithField(hdr, 0, order), order))
    ensures IsSum(ONES, Total(WithField(hdr, FieldFor(sum), order), order))
  {
    hide Total, WithField, Congruent;
    FieldTotal(hdr, FieldFor(sum), order);
    Complement(sum, Total(WithField(hdr, 0, order), order));
  }

  /** Writes the checksum of a header into it. */
  method SetIpv4Cksum(hdr: array<byte>, order: Order)
    requires hdr.Length == IPV4_HDR_LEN
    modifies hdr
    ensures forall i :: 0 <= i < 20 && i != 10 && i != 11 ==> hdr[i] == old(hdr[i])
    ensures hdr[10] != 0 || hdr[11] != 0
    ensures IsSum(ONES, Total(hdr[..], order))
  {
    ghost var was := hdr[..];
    hdr[10], hdr[11] := 0, 0;
    assert hdr[..] == WithField(was, 0, order);
    var sum := Get16bSum(hdr[..], order);
    var c := FieldFor(sum);
    Verifies(was, sum, order);
    if order.Little? {
      hdr[10], hdr[11] := c % 256, c / 256;
    } else {
      hdr[10], hdr[11] := c / 256, c % 256;
    }
    assert hdr[..] == WithField(was, c, order);
  }

  // ----- Byte order -----

  function Swap(x: nat): (y: nat)
    requires x <= ONES
    ensures y <= ONES
  {
    256 * (x % 256) + x / 256
  }

  lemma SwapTimes256(x: nat)
    requires x <= ONES
    ensures Congruent(Swap(x), 256 * x)
  {
    assert Swap(x) - 256 * x == ONES * -(x / 256);
    Multiple(-(x / 256));
  }

  lemma SwapZero(x: nat)
    requires x <= ONES
    ensures Swap(x) == 0 <==> x == 0
  {
  }

  lemma CongruentScaled(r: int, t: int)
    requires Congruent(r, t)
    ensures Congruent(256 * t, 256 * r)
  {
    var k := (r - t) / ONES;
    assert r - t == ONES * k;
    assert 256 * t - 256 * r == ONES * (-256 * k);
    Multiple(-256 * k);
  }

  lemma CongruentSum(a: int, b: int, c: int, d: int)
    requires Congruent(a, b) && Congruent(c, d)
    ensures Congruent(a + c, b + d)
  {
    var k, m := (a - b) / ONES, (c - d) / ONES;
    assert a + c - (b + d) == ONES * (k + m);
    Multiple(k + m);
  }

  lemma WordSwaps(lo: byte, hi: byte)
    ensures Word(lo, hi, Big) == Swap(Word(lo, hi, Little))
  {
  }

  lemma {:induction false} BigTotal(buf: seq<byte>)
    requires |buf| % 2 == 0
    ensures Congruent(Total(buf, Big), 256 * Total(buf, Little))
    ensures Total(buf, Big) == 0 <==> Total(buf, Little) == 0
  {
    if buf != [] {
      var little := Word(buf[0], buf[1], Little);
      var rest := Total(buf[2..], Little);
      hide Congruent, Swap, Word;
      BigTotal(buf[2..]);
      WordSwaps(buf[0], buf[1]);
      SwapTimes256(little);
      SwapZero(little);
      CongruentSum(Swap(little), 256 * little, Total(buf[2..], Big), 256 * rest);
      assert 256 * Total(buf, Little) == 256 * little + 256 * rest;
    }
  }

  /** The sum does not depend on byte order: over an even number of bytes, summing words in
      one order gives the byte swap of summing them in the other (section 2 of RFC 1071). */
  lemma ByteOrderIndependent(buf: seq<byte>, r: nat)
    requires |buf| % 2 == 0 && IsSum(r, Total(buf, Little))
    ensures IsSum(Swap(r), Total(buf, Big))
  {
    hide Total, Congruent, Swap;
    BigTotal(buf);
    SwapTimes256(r);
    var t, u := Total(buf, Little), Total(buf, Big);
    CongruentScaled(r, t);
    CongruentTrans(Swap(r), 256 * r, 256 * t);
    CongruentTrans(Swap(r), 256 * t, u);
    SwapZero(r);
  }

  /** So a header whose checksum was set by a little-endian machine verifies on a big-endian one. */
  lemma VerifiesOnTheWire(hdr: seq<byte>)
    requires |hdr| == IPV4_HDR_LEN && IsSum(ONES, Total(hdr, Little))
    ensures IsSum(ONES, Total(hdr, Big))
  {
    ByteOrderIndependent(hdr, ONES);
  }
}
