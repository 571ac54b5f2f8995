/**
 What the Forwarding Information Base means: an append-only list of routes, some of them
 deleted, and the multiset of (name, face) pairs that it stands for.
 */
module FibSpec {
  import opened Defs
  import Bucket

  datatype Entry = Gone | Route(name: Name, face: nat)
  type Entries = seq<Entry>

  datatype Dim = Dim(h: Hash, buckets: nat, maxElements: nat)

  function Occupants(d: Dim, es: Entries, b: nat): set<nat>
    requires d.buckets > 0
  {
    set k: nat | k < |es| && es[k].Route? && Bucket.Of(d.h, es[k].name, d.buckets) == b
  }

  predicate BucketFull(d: Dim, es: Entries, name: Name)
    requires d.buckets > 0
  {
    |Occupants(d, es, Bucket.Of(d.h, name, d.buckets))| == BUCKET_SIZE
  }

  predicate Valid(d: Dim, es: Entries) {
    d.buckets > 0 && |es| <= d.maxElements
  }

  predicate HasRoute(es: Entries, name: Name) {
    exists k :: 0 <= k < |es| && IsRoute(es, k, name)
  }

  predicate IsRoute(es: Entries, k: int, name: Name) {
    0 <= k < |es| && es[k].Route? && es[k].name == name
  }

  /** An empty name or one that starts with a zero byte is rejected. */
  predicate BadName(name: Name) {
    name == [] || name[0] == 0
  }

  /** Adding fails when the list or the bucket is full; the place of a deleted route is
      never used again. */
  function Add(d: Dim, es: Entries, name: Name, face: nat): (Entries, bool)
    requires d.buckets > 0
  {
    if |es| == d.maxElements || BucketFull(d, es, name) then (es, false)
    else (es + [Route(name, face)], true)
  }

  /** Deletion of the entry at k, when that is what was asked for. Which of several equal
      entries goes is left open. */
  function DeleteAt(es: Entries, k: nat): Entries
    requires k < |es|
  {
    es[k := Gone]
  }

  // ----- The multiset of routes -----

  function Routes(es: Entries): multiset<(Name, nat)> {
    if es == [] then multiset{}
    else
      var e := es[|es| - 1];
      Routes(es[..|es| - 1]) + (if e.Route? then multiset{(e.name, e.face)} else multiset{})
  }

  lemma AddRoutes(es: Entries, e: Entry)
    requires e.Route?
    ensures Routes(es + [e]) == Routes(es) + multiset{(e.name, e.face)}
  {
    assert (es + [e])[..|es|] == es;
  }

  /** A pair is in the multiset exactly when some entry holds it. */
  lemma {:induction false} RoutesHas(es: Entries, name: Name, face: nat)
    ensures (name, face) in Routes(es) <==> Route(name, face) in es
  {
    if es != [] {
      var prev := es[..|es| - 1];
      RoutesHas(prev, name, face);
      assert es == prev + [es[|es| - 1]];
    }
  }

  lemma TakeOut<T>(a: multiset<T>, b: multiset<T>, x: T)
    requires x in a
    ensures x in a + b && (a + b) - multiset{x} == (a - multiset{x}) + b
  {
  }

  /** Deleting one entry takes exactly one copy of its pair away. */
  lemma {:induction false} DeleteRoutes(es: Entries, k: nat)
    requires k < |es| && es[k].Route?
    ensures (es[k].name, es[k].face) in Routes(es)
    ensures Routes(DeleteAt(es, k)) == Routes(es) - multiset{(es[k].name, es[k].face)}
  {
    var n := |es| - 1;
    var es' := DeleteAt(es, k);
    if k < n {
      DeleteRoutes(es[..n], k);
      assert es'[..n] == DeleteAt(es[..n], k);
      var last := if es[n].Route? then multiset{(es[n].name, es[n].face)} else multiset{};
      TakeOut(Routes(es[..n]), last, (es[k].name, es[k].face));
    } else {
      assert es'[..n] == es[..n];
    }
  }

  /** Addition puts one copy of the pair in, if there is room. */
  lemma AddedRoutes(d: Dim, es: Entries, name: Name, face: nat)
    requires d.buckets > 0
    ensures var (es', added) := Add(d, es, name, face);
            Routes(es') == Routes(es) + if added then multiset{(name, face)} else multiset{}
  {
    AddRoutes(es, Route(name, face));
  }

  /** Deletion takes one copy of the pair out, if it finds one. */
  lemma DeletedRoutes(es: Entries, name: Name, face: nat, k: nat, es': Entries, done: bool)
    requires if done then k < |es| && es[k] == Route(name, face) && es' == DeleteAt(es, k) else es' == es
    ensures Routes(es') == Routes(es) - if done then multiset{(name, face)} else multiset{}
  {
    if done {
      DeleteRoutes(es, k);
    }
  }

  // ----- Whole runs of updates, from the empty table -----

  /** pick says which of several equal routes a deletion finds. */
  datatype Op = Insert(name: Name, face: nat) | Delete(name: Name, face: nat, pick: nat)

  function Step(d: Dim, es: Entries, op: Op): (Entries, bool)
    requires d.buckets > 0
  {
    match op
    case Insert(name, face) => Add(d, es, name, face)
    case Delete(name, face, pick) =>
      if pick < |es| && es[pick] == Route(name, face) then (DeleteAt(es, pick), true) else (es, false)
  }

  /** A deletion picks a route with the right name and face whenever there is one. */
  predicate Picks(es: Entries, op: Op) {
    op.Delete? && Route(op.name, op.face) in es ==> op.pick < |es| && es[op.pick] == Route(op.name, op.face)
  }

  function Run(d: Dim, ops: seq<Op>): (es: Entries)
    requires d.buckets > 0
    ensures Valid(d, es)
  {
    if ops == [] then [] else Step(d, Run(d, ops[..|ops| - 1]), ops[|ops| - 1]).0
  }

  /** The same run on multisets: additions that succeed, deletions of pairs that are there. */
  function RunRoutes(d: Dim, ops: seq<Op>): multiset<(Name, nat)>
    requires d.buckets > 0
  {
    if ops == [] then multiset{}
    else
      var prev := ops[..|ops| - 1];
      var op := ops[|ops| - 1];
      match op
      case Insert(name, face) =>
        if Add(d, Run(d, prev), name, face).1 then RunRoutes(d, prev) + multiset{(name, face)} else RunRoutes(d, prev)
      case Delete(name, face, _) => RunRoutes(d, prev) - multiset{(name, face)}
  }

  /** How many additions have ever succeeded. */
  function Additions(d: Dim, ops: seq<Op>): nat
    requires d.buckets > 0
  {
    if ops == [] then 0
    else
      var prev := ops[..|ops| - 1];
      var op := ops[|ops| - 1];
      Additions(d, prev) + if op.Insert? && Add(d, Run(d, prev), op.name, op.face).1 then 1 else 0
  }

  predicate WellPicked(d: Dim, ops: seq<Op>)
    requires d.buckets > 0
  {
    ops != [] ==> WellPicked(d, ops[..|ops| - 1]) && Picks(Run(d, ops[..|ops| - 1]), ops[|ops| - 1])
  }

  /** The table refines a multiset of pairs, and the places used up are the additions that
      ever succeeded, so a table of max_elements takes at most that many in its lifetime. */
  lemma {:induction false} RunRefinesMultiset(d: Dim, ops: seq<Op>)
    requires d.buckets > 0 && WellPicked(d, ops)
    ensures Routes(Run(d, ops)) == RunRoutes(d, ops)
    ensures |Run(d, ops)| == Additions(d, ops) <= d.maxElements
  {
    if ops != [] {
      var prev := ops[..|ops| - 1];
      var op := ops[|ops| - 1];
      RunRefinesMultiset(d, prev);
      var es := Run(d, prev);
      match op
      case Insert(name, face) =>
        AddRoutes(es, Route(name, face));
      case Delete(name, face, pick) =>
        RoutesHas(es, name, face);
        if Route(name, face) in es {
          DeleteRoutes(es, pick);
        }
    }
  }

  /** After any run, an addition is refused if and only if as many as the table has places have
      succeeded before it, routes left or not, or its bucket is full. */
  lemma RefusedIff(d: Dim, ops: seq<Op>, name: Name, face: nat)
    requires d.buckets > 0 && WellPicked(d, ops)
    ensures !Add(d, Run(d, ops), name, face).1 <==>
            || Additions(d, ops) == d.maxElements
            || var es := Run(d, ops);
               |set k: nat | k < |es| && es[k].Route? && d.h(es[k].name) % d.buckets == d.h(name) % d.buckets| == 7
  {
    RunRefinesMultiset(d, ops);
    hide Run, Additions, BucketFull;
    FullIs(d, Run(d, ops), name);
  }

  /** A bucket is full when it has seven routes. */
  lemma FullIs(d: Dim, es: Entries, name: Name)
    requires d.buckets > 0
    ensures BucketFull(d, es, name) <==>
            |set k: nat | k < |es| && es[k].Route? && d.h(es[k].name) % d.buckets == d.h(name) % d.buckets| == 7
  {
    assert Occupants(d, es, Bucket.Of(d.h, name, d.buckets))
        == set k: nat | k < |es| && es[k].Route? && d.h(es[k].name) % d.buckets == d.h(name) % d.buckets;
  }

  /** A route added and deleted again, n times over. */
  function Churn(name: Name, face: nat, n: nat): seq<Op> {
    if n == 0 then [] else Churn(name, face, n - 1) + [Insert(name, face), Delete(name, face, n - 1)]
  }

  lemma OneMore(d: Dim, ops: seq<Op>, op: Op)
    requires d.buckets > 0
    ensures Run(d, ops + [op]) == Step(d, Run(d, ops), op).0
    ensures WellPicked(d, ops + [op]) <==> WellPicked(d, ops) && Picks(Run(d, ops), op)
  {
    assert (ops + [op])[..|ops|] == ops;
  }

  lemma NoLoad(d: Dim, n: nat, name: Name)
    requires d.buckets > 0
    ensures !BucketFull(d, seq(n, _ => Gone), name)
  {
    assert Occupants(d, seq(n, _ => Gone), Bucket.Of(d.h, name, d.buckets)) == {};
  }

  lemma {:induction false} ChurnRun(d: Dim, name: Name, face: nat, n: nat)
    requires d.buckets > 0 && n <= d.maxElements
    ensures Run(d, Churn(name, face, n)) == seq(n, _ => Gone)
    ensures WellPicked(d, Churn(name, face, n))
  {
    if n > 0 {
      hide Run, WellPicked, BucketFull;
      var prev, es := Churn(name, face, n - 1), seq(n - 1, _ => Gone);
      var add, delete := Insert(name, face), Delete(name, face, n - 1);
      ChurnRun(d, name, face, n - 1);
      NoLoad(d, n - 1, name);
      OneMore(d, prev, add);
      OneMore(d, prev + [add], delete);
      assert prev + [add] + [delete] == Churn(name, face, n);
      assert (es + [Route(name, face)])[n - 1 := Gone] == seq(n, _ => Gone);
    } else {
      assert Churn(name, face, 0) == [];
    }
  }

  lemma {:induction false} NoRoutes(n: nat)
    ensures Routes(seq(n, _ => Gone)) == multiset{}
  {
    if n > 0 {
      NoRoutes(n - 1);
      assert seq(n, _ => Gone)[..n - 1] == seq(n - 1, _ => Gone);
    }
  }

  /** Deleted places are never used again: adding and deleting one route as often as the table has
      places leaves a table without routes that refuses every route from then on. */
  lemma WornOut(d: Dim, name: Name, face: nat, other: Name, port: nat)
    requires d.buckets > 0
    ensures var es := Run(d, Churn(name, face, d.maxElements));
            && WellPicked(d, Churn(name, face, d.maxElements))
            && Routes(es) == multiset{} && Add(d, es, other, port) == (es, false)
  {
    ChurnRun(d, name, face, d.maxElements);
    NoRoutes(d.maxElements);
  }

  // ----- Longest-prefix match -----

  /** The prefix of a name that ends with the component separator at an offset. */
  function Prefix(name: Name, offset: nat): Name
    requires offset < |name|
  {
    name[..offset + 1]
  }

  predicate Inside(name: Name, offsets: seq<nat>) {
    forall k :: 0 <= k < |offsets| ==> offsets[k] < |name|
  }

  /** The last of the first n offsets whose prefix has a route, or -1. */
  function Best(es: Entries, name: Name, offsets: seq<nat>, n: nat): (c: int)
    requires Inside(name, offsets) && n <= |offsets|
    ensures -1 <= c < n
    ensures c >= 0 ==> HasRoute(es, Prefix(name, offsets[c]))
    ensures forall k :: c < k < n ==> !HasRoute(es, Prefix(name, offsets[k]))
  {
    if n == 0 then -1
    else if HasRoute(es, Prefix(name, offsets[n - 1])) then n - 1
    else Best(es, name, offsets, n - 1)
  }

  /** What a lookup promises of its answer: the entry at which it found it, under the longest
      prefix probed that has any route. */
  predicate Answers(es: Entries, name: Name, offsets: seq<nat>, answer: Option<nat>, at: nat)
    requires Inside(name, offsets)
  {
    var best := Best(es, name, offsets, |offsets|);
    match answer
    case None => best < 0
    case Some(face) => best >= 0 && at < |es| && es[at] == Route(Prefix(name, offsets[best]), face)
  }

  /** p is a prefix of name that ends with a separator. */
  predicate ComponentPrefix(p: Name, name: Name) {
    0 < |p| <= |name| && p == name[..|p|] && p[|p| - 1] == SLASH
  }

  /** The answer that longest-prefix match asks for, said without reference to how it is
      found: a face of a route whose name is the longest component prefix with any route. */
  ghost predicate LongestMatch(es: Entries, name: Name, answer: Option<nat>) {
    match answer
    case Some(face) =>
      exists p :: ComponentPrefix(p, name) && Route(p, face) in es
                  && forall q, other :: ComponentPrefix(q, name) && Route(q, other) in es ==> |q| <= |p|
    case None =>
      forall q, other :: ComponentPrefix(q, name) ==> Route(q, other) !in es
  }

  /** The offsets are those of all the separators of the name, in increasing order. */
  ghost predicate SeparatorsOf(name: Name, offsets: seq<nat>) {
    && (forall k :: 0 <= k < |offsets| ==> offsets[k] < |name| && name[offsets[k]] == SLASH)
    && (forall i, j :: 0 <= i < j < |offsets| ==> offsets[i] < offsets[j])
    && (forall p :: 0 <= p < |name| && name[p] == SLASH ==> p in offsets)
  }

  /** Probing from the last separator down meets the component prefixes from the longest
      down, so the first one with a route is the longest match. */
  lemma BestIsLongest(es: Entries, name: Name, offsets: seq<nat>, answer: Option<nat>, at: nat)
    requires SeparatorsOf(name, offsets)
    requires Answers(es, name, offsets, answer, at)
    ensures LongestMatch(es, name, answer)
  {
    var c := Best(es, name, offsets, |offsets|);
    forall q, other | ComponentPrefix(q, name) && Route(q, other) in es
      ensures c >= 0 && |q| <= offsets[c] + 1
    {
      var j :| 0 <= j < |es| && es[j] == Route(q, other);
      assert IsRoute(es, j, q);
      assert name[|q| - 1] == SLASH;
      assert |q| - 1 in offsets;
      var k :| 0 <= k < |offsets| && offsets[k] == |q| - 1;
      assert Prefix(name, offsets[k]) == q;
    }
    if answer.Some? {
      var p := Prefix(name, offsets[c]);
      assert ComponentPrefix(p, name);
      assert Route(p, answer.value) in es;
    }
  }
}
