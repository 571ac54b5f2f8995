/** Buckets of the three hash tables, and how many slots of one are taken. */
module Bucket {
  import opened Defs

  function Of(h: Hash, name: Name, buckets: nat): (b: nat)
    requires buckets > 0
    ensures b < buckets
  {
    h(name) % buckets
  }

  /** An injective finite map has as many values as keys. */
  lemma {:induction false} SameSize<X, Y>(m: map<X, Y>)
    requires forall a, b :: a in m && b in m && m[a] == m[b] ==> a == b
    ensures |m.Keys| == |m.Values|
  {
    if m.Keys != {} {
      var a :| a in m;
      var rest := m - {a};
      assert rest.Keys == m.Keys - {a};
      assert rest.Values == m.Values - {m[a]} by {
        forall y ensures y in rest.Values <==> y in m.Values - {m[a]} {
          if y in m.Values && y != m[a] {
            var b :| b in m && m[b] == y;
            assert b in rest && rest[b] == y;
          }
          if y in rest.Values {
            var b :| b in rest && rest[b] == y;
          }
        }
      }
      SameSize(rest);
    } else {
      assert m.Values == {};
    }
  }

  /** A set of numbers below n has n elements exactly when it has them all. */
  lemma {:induction false} Below(t: set<nat>, n: nat)
    requires forall x :: x in t ==> x < n
    ensures |t| <= n
    ensures |t| == n <==> forall x: nat :: x < n ==> x in t
  {
    if n > 0 {
      var rest := t - {n - 1};
      Below(rest, n - 1);
      if n - 1 in t {
        assert |t| == |rest| + 1;
      } else {
        assert t == rest;
      }
    } else {
      assert t == {};
    }
  }

  /** Items spread injectively over the slots of a bucket leave none free
      exactly when there are BUCKET_SIZE of them. */
  lemma FullWhen(slotOf: map<nat, nat>, busy: set<nat>)
    requires forall a, b :: a in slotOf && b in slotOf && slotOf[a] == slotOf[b] ==> a == b
    requires slotOf.Values == busy
    requires forall t :: t in busy ==> t < BUCKET_SIZE
    ensures |slotOf.Keys| <= BUCKET_SIZE
    ensures |slotOf.Keys| == BUCKET_SIZE <==> forall t: nat :: t < BUCKET_SIZE ==> t in busy
  {
    SameSize(slotOf);
    Below(busy, BUCKET_SIZE);
  }
}
