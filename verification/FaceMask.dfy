/**
 Sets of faces kept as bit masks. A mask is a number and its bits are its binary digits: a
 right shift by one is a division by two, and setting a clear bit adds a power of two.
 */
module FaceMask {
  import opened Defs

  /** 1 << face */
  function Pow2(face: nat): (b: nat)
    ensures b > 0
  {
    if face == 0 then 1 else 2 * Pow2(face - 1)
  }

  /** (mask >> face) & 1 */
  predicate Bit(mask: nat, face: nat) {
    if face == 0 then mask % 2 == 1 else Bit(mask / 2, face - 1)
  }

  function Faces(mask: nat): set<nat> {
    set f: nat | f < APP_MAX_ETH_PORTS && Bit(mask, f)
  }

  /** No bit is set from the last face on. */
  predicate Clean(mask: nat) {
    mask < Pow2(APP_MAX_ETH_PORTS)
  }

  /** mask | (1 << face), for a bit that is clear; a set bit is left as it is. */
  function WithFace(mask: nat, face: nat): nat {
    if !Bit(mask, face) then mask + Pow2(face) else mask
  }

  /** Setting a bit sets that bit and no other. */
  lemma {:induction false} AddBit(mask: nat, face: nat, f: nat)
    requires !Bit(mask, face)
    ensures Bit(mask + Pow2(face), f) <==> Bit(mask, f) || f == face
  {
    if face > 0 {
      assert (mask + Pow2(face)) / 2 == mask / 2 + Pow2(face - 1);
      assert (mask + Pow2(face)) % 2 == mask % 2;
      if f > 0 {
        AddBit(mask / 2, face - 1, f - 1);
      }
    } else {
      assert (mask + 1) / 2 == mask / 2;
    }
  }

  /** Setting a clear bit below n keeps a number below 2 to the n. */
  lemma {:induction false} AddBound(mask: nat, face: nat, n: nat)
    requires !Bit(mask, face) && face < n && mask < Pow2(n)
    ensures mask + Pow2(face) < Pow2(n)
  {
    var half, odd, q := mask / 2, mask % 2, Pow2(n - 1);
    assert mask == 2 * half + odd && Pow2(n) == 2 * q;
    if face == 0 {
      assert odd == 0;
    } else {
      assert half < q;
      AddBound(half, face - 1, n - 1);
      assert half + Pow2(face - 1) < q;
    }
  }

  lemma WithFaceAdds(mask: nat, face: nat)
    requires face < APP_MAX_ETH_PORTS && Clean(mask)
    ensures Faces(WithFace(mask, face)) == Faces(mask) + {face}
    ensures Clean(WithFace(mask, face))
  {
    if !Bit(mask, face) {
      AddBound(mask, face, APP_MAX_ETH_PORTS);
      forall f: nat ensures Bit(mask + Pow2(face), f) <==> Bit(mask, f) || f == face {
        AddBit(mask, face, f);
      }
    }
  }

  lemma {:induction false} NoBits(face: nat)
    ensures !Bit(0, face)
  {
    if face > 0 {
      NoBits(face - 1);
    }
  }

  lemma SingleFace(face: nat)
    requires face < APP_MAX_ETH_PORTS
    ensures Faces(Pow2(face)) == {face} && Clean(Pow2(face))
  {
    forall f: nat ensures !Bit(0, f) {
      NoBits(f);
    }
    WithFaceAdds(0, face);
  }

  /** A number below 2 to the n without any of the first n bits is zero. */
  lemma {:induction false} AllClear(mask: nat, n: nat)
    requires mask < Pow2(n) && forall f: nat :: f < n ==> !Bit(mask, f)
    ensures mask == 0
  {
    if n > 0 {
      forall f: nat | f < n - 1 ensures !Bit(mask / 2, f) {
        assert !Bit(mask, f + 1);
      }
      AllClear(mask / 2, n - 1);
      assert !Bit(mask, 0);
    }
  }

  /** The mask 0 stands for no face, and no other mask does. */
  lemma ZeroIsEmpty(mask: nat)
    requires Clean(mask)
    ensures mask == 0 <==> Faces(mask) == {}
  {
    if mask == 0 {
      forall f: nat ensures !Bit(0, f) {
        NoBits(f);
      }
    }
    if Faces(mask) == {} {
      forall f: nat | f < APP_MAX_ETH_PORTS ensures !Bit(mask, f) {
        assert f !in Faces(mask);
      }
      AllClear(mask, APP_MAX_ETH_PORTS);
    }
  }

  /** What is left of a mask after shifting it right p times. */
  ghost predicate Shifted(rest: nat, mask: nat, p: nat) {
    forall k: nat :: Bit(rest, k) <==> Bit(mask, p + k)
  }

  lemma NotShifted(mask: nat)
    ensures Shifted(mask, mask, 0)
  {
  }

  lemma ShiftOnce(rest: nat, mask: nat, p: nat)
    requires Shifted(rest, mask, p)
    ensures rest % 2 == 1 <==> Bit(mask, p)
    ensures Shifted(rest / 2, mask, p + 1)
  {
    assert Bit(rest, 0) <==> Bit(mask, p + 0);
    forall k: nat ensures Bit(rest / 2, k) <==> Bit(mask, p + 1 + k) {
      assert Bit(rest, k + 1) <==> Bit(mask, p + (k + 1));
    }
  }
}
