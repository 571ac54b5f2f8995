/** The circular logs of the PIT and of the CS, as windows of a fixed buffer. */
module Ring {

  /** Number of steps from bottom up to i, going round the end of the buffer. */
  function Offset(bottom: nat, i: nat, max: nat): (k: nat)
    requires bottom < max && i < max
    ensures k < max
  {
    if bottom <= i then i - bottom else i + max - bottom
  }

  /** The inverse of Offset: the k-th position at or after bottom. */
  function At(bottom: nat, k: nat, max: nat): (i: nat)
    requires bottom < max && k < max
    ensures i < max && Offset(bottom, i, max) == k
  {
    if bottom + k < max then bottom + k else bottom + k - max
  }

  /** The elements in use, oldest first; top is one past the newest. */
  function Window<T>(s: seq<T>, bottom: nat, top: nat): (w: seq<T>)
    requires bottom < |s| && top < |s|
    ensures |w| == Offset(bottom, top, |s|)
    ensures forall k :: 0 <= k < |w| ==> w[k] == s[At(bottom, k, |s|)]
  {
    if bottom <= top then s[bottom..top] else s[bottom..] + s[..top]
  }

  predicate InWindow(i: nat, bottom: nat, top: nat, max: nat)
    requires bottom < max && top < max && i < max
  {
    Offset(bottom, i, max) < Offset(bottom, top, max)
  }

  lemma SuccMod(i: nat, max: nat)
    requires i < max
    ensures (i + 1) % max == if i + 1 == max then 0 else i + 1
  {
    if i + 1 < max {
      assert (i + 1) % max == i + 1;
    }
  }

  /** The occupancy formula of the source is the length of the window. */
  lemma OccupancyIsLength(bottom: nat, top: nat, max: nat)
    requires bottom < max && top < max
    ensures (top + max - bottom) % max == Offset(bottom, top, max)
  {
    if bottom <= top {
      assert (top + max - bottom) % max == top - bottom by {
        ModShift(top - bottom, max);
      }
    }
  }

  lemma ModShift(x: nat, max: nat)
    requires x < max
    ensures (x + max) % max == x
  {
  }

  /** The fullness test of the source: one position always stays unused. */
  lemma FullIsCapacity(bottom: nat, top: nat, max: nat)
    requires bottom < max && top < max
    ensures (top + 1) % max == bottom <==> Offset(bottom, top, max) == max - 1
  {
    SuccMod(top, max);
  }

  function Next(i: nat, max: nat): (j: nat)
    requires i < max
    ensures j < max
  {
    if i + 1 == max then 0 else i + 1
  }

  lemma PushNext<T>(s: seq<T>, bottom: nat, top: nat, x: T)
    requires bottom < |s| && top < |s| && Next(top, |s|) != bottom
    ensures Window(s[top := x], bottom, Next(top, |s|)) == Window(s, bottom, top) + [x]
  {
    hide Window;
    var w, w' := Window(s, bottom, top), Window(s[top := x], bottom, Next(top, |s|));
    assert At(bottom, |w|, |s|) == top;
    forall k: nat | k < |w'| ensures w'[k] == (w + [x])[k] {
      if k < |w| {
        assert At(bottom, k, |s|) != top;
      }
    }
  }

  /** Writing at top and advancing it appends to the window. */
  lemma Push<T>(s: seq<T>, bottom: nat, top: nat, x: T)
    requires bottom < |s| && top < |s|
    requires (top + 1) % |s| != bottom
    ensures (top + 1) % |s| < |s|
    ensures Window(s[top := x], bottom, (top + 1) % |s|) == Window(s, bottom, top) + [x]
  {
    hide Window;
    SuccMod(top, |s|);
    PushNext(s, bottom, top, x);
  }

  lemma PopNext<T>(s: seq<T>, bottom: nat, top: nat)
    requires bottom < |s| && top < |s| && bottom != top
    ensures Window(s, Next(bottom, |s|), top) == Window(s, bottom, top)[1..]
  {
    hide Window;
    var w, w' := Window(s, bottom, top), Window(s, Next(bottom, |s|), top);
    forall k: nat | k < |w'| ensures w'[k] == w[k + 1] {
      assert At(Next(bottom, |s|), k, |s|) == At(bottom, k + 1, |s|);
    }
  }

  /** Advancing bottom drops the oldest element. */
  lemma Pop<T>(s: seq<T>, bottom: nat, top: nat)
    requires bottom < |s| && top < |s| && bottom != top
    ensures (bottom + 1) % |s| < |s|
    ensures Window(s, (bottom + 1) % |s|, top) == Window(s, bottom, top)[1..]
  {
    hide Window;
    SuccMod(bottom, |s|);
    PopNext(s, bottom, top);
  }

  /** Writing inside the window updates one element of it. */
  lemma Write<T>(s: seq<T>, bottom: nat, top: nat, i: nat, x: T)
    requires bottom < |s| && top < |s| && i < |s|
    requires InWindow(i, bottom, top, |s|)
    ensures Window(s[i := x], bottom, top) == Window(s, bottom, top)[Offset(bottom, i, |s|) := x]
  {
    assert Window(s[i := x], bottom, top) == Window(s, bottom, top)[Offset(bottom, i, |s|) := x];
  }
}
