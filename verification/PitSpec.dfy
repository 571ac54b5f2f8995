/**
 What the Pending Interest Table means: a log of pending names, oldest first, in which
 removals leave holes, and the map from names to pending faces that the log stands for.
 */
module PitSpec {
  import opened Defs
  import Bucket

  datatype LogEntry = Hole | Live(name: Name, faces: set<nat>, expiry: nat)
  type Log = seq<LogEntry>

  /** The fixed parameters of a PIT. */
  datatype Dim = Dim(h: Hash, buckets: nat, capacity: nat)

  datatype UpdateResult = Aggregated | Inserted | NoSpace

  predicate IsLive(log: Log, k: int, name: Name) {
    0 <= k < |log| && log[k].Live? && log[k].name == name
  }

  /** Position of the newest live entry of a name, or -1. */
  function Find(log: Log, name: Name): (k: int)
    ensures -1 <= k < |log|
    ensures k >= 0 ==> IsLive(log, k, name)
    ensures k < 0 ==> forall j :: !IsLive(log, j, name)
  {
    if log == [] then -1
    else if IsLive(log, |log| - 1, name) then |log| - 1
    else
      var k := Find(log[..|log| - 1], name);
      assert forall j :: j != |log| - 1 ==> (IsLive(log, j, name) <==> IsLive(log[..|log| - 1], j, name));
      k
  }

  /** Positions of the live entries whose name falls in a bucket. */
  function Occupants(d: Dim, log: Log, b: nat): set<nat>
    requires d.buckets > 0
  {
    set k: nat | k < |log| && log[k].Live? && Bucket.Of(d.h, log[k].name, d.buckets) == b
  }

  predicate BucketFull(d: Dim, log: Log, name: Name)
    requires d.buckets > 0
  {
    |Occupants(d, log, Bucket.Of(d.h, name, d.buckets))| == BUCKET_SIZE
  }

  // ----- The four operations -----

  function Update(d: Dim, log: Log, name: Name, face: nat, expiry: nat): (Log, UpdateResult)
    requires d.buckets > 0
  {
    var k := Find(log, name);
    if k >= 0 then (log[k := log[k].(faces := log[k].faces + {face})], Aggregated)
    else if BucketFull(d, log, name) || |log| == d.capacity then (log, NoSpace)
    else (log + [Live(name, {face}, expiry)], Inserted)
  }

  /** The two outcomes for a name that is not pending. */
  lemma UpdateAbsent(d: Dim, log: Log, name: Name, face: nat, expiry: nat)
    requires d.buckets > 0 && Find(log, name) == -1
    ensures Update(d, log, name, face, expiry)
         == if BucketFull(d, log, name) || |log| == d.capacity then (log, NoSpace)
            else (log + [Live(name, {face}, expiry)], Inserted)
  {
  }

  /** Without room nothing changes. */
  lemma NoSpaceKeeps(d: Dim, log: Log, name: Name, face: nat, expiry: nat)
    requires d.buckets > 0
    ensures Update(d, log, name, face, expiry).1.NoSpace? ==> Update(d, log, name, face, expiry).0 == log
  {
  }

  /** Removal at the bottom of the log frees its place; anywhere else it leaves a hole. */
  function RemoveAt(log: Log, k: nat): Log
    requires k < |log|
  {
    if k == 0 then log[1..] else log[k := Hole]
  }

  function Remove(log: Log, name: Name): (Log, set<nat>) {
    var k := Find(log, name);
    if k >= 0 then (RemoveAt(log, k), log[k].faces) else (log, {})
  }

  function Purge(log: Log, now: nat): Log {
    if log != [] && (log[0].Hole? || log[0].expiry <= now) then Purge(log[1..], now) else log
  }

  // ----- The map that a log stands for -----

  datatype Pending = Pending(faces: set<nat>, expiry: nat)

  predicate Unique(log: Log) {
    forall i, j :: 0 <= i < j < |log| && log[i].Live? && log[j].Live? ==> log[i].name != log[j].name
  }

  predicate FacesNonEmpty(log: Log) {
    forall i :: 0 <= i < |log| && log[i].Live? ==> log[i].faces != {}
  }

  predicate Valid(d: Dim, log: Log) {
    d.buckets > 0 && Unique(log) && FacesNonEmpty(log) && |log| <= d.capacity
  }

  function Names(log: Log): set<Name> {
    set k: nat | k < |log| && log[k].Live? :: log[k].name
  }

  function View(log: Log): map<Name, Pending> {
    map n | n in Names(log) && Find(log, n) >= 0 :: PendingAt(log, Find(log, n))
  }

  function PendingAt(log: Log, k: nat): Pending
    requires k < |log|
  {
    if log[k].Live? then Pending(log[k].faces, log[k].expiry) else Pending({}, 0)
  }

  /** The view, entry by entry. */
  lemma ViewAt(log: Log, name: Name)
    ensures name in View(log) <==> Find(log, name) >= 0
    ensures name in View(log) ==> View(log)[name] == PendingAt(log, Find(log, name))
  {
    if Find(log, name) >= 0 {
      assert log[Find(log, name)].name == name;
    }
  }

  /** In a log without duplicates the live entry of a name is where Find says. */
  lemma FindUnique(log: Log, k: nat, name: Name)
    requires Unique(log) && IsLive(log, k, name)
    ensures Find(log, name) == k
  {
  }

  lemma SetFacesValid(d: Dim, log: Log, k: nat, faces: set<nat>)
    requires Valid(d, log) && k < |log| && log[k].Live? && faces != {}
    ensures Valid(d, log[k := log[k].(faces := faces)])
  {
  }

  lemma AppendValid(d: Dim, log: Log, name: Name, face: nat, expiry: nat)
    requires Valid(d, log) && Find(log, name) == -1 && |log| < d.capacity
    ensures Valid(d, log + [Live(name, {face}, expiry)])
  {
    forall k | 0 <= k < |log| && log[k].Live? ensures log[k].name != name {
      assert !IsLive(log, k, name);
    }
  }

  lemma DropValid(d: Dim, log: Log)
    requires Valid(d, log) && log != []
    ensures Valid(d, log[1..])
  {
  }

  // ----- The operations act on the map as their documentation says -----

  lemma UpdateFind(d: Dim, log: Log, name: Name, face: nat, expiry: nat, n: Name)
    requires Valid(d, log)
    ensures var log' := Update(d, log, name, face, expiry).0;
            Valid(d, log') &&
            Find(log', n) == if n == name && Update(d, log, name, face, expiry).1.Inserted? then |log| else Find(log, n)
  {
    var (log', r) := Update(d, log, name, face, expiry);
    var k := Find(log, n);
    if r.Inserted? {
      AppendValid(d, log, name, face, expiry);
    }
    if k >= 0 {
      assert IsLive(log', k, n);
      FindUnique(log', k, n);
    } else if r.Inserted? && n == name {
      FindUnique(log', |log|, n);
    } else {
      forall j ensures !IsLive(log', j, n) {
        assert !IsLive(log, j, n);
      }
    }
  }

  lemma UpdateValid(d: Dim, log: Log, name: Name, face: nat, expiry: nat)
    requires Valid(d, log)
    ensures Valid(d, Update(d, log, name, face, expiry).0)
  {
    UpdateFind(d, log, name, face, expiry, name);
  }

  /** Seven pending names share the bucket of a name. */
  predicate Crowded(d: Dim, view: map<Name, Pending>, name: Name)
    requires d.buckets > 0
  {
    |set n | n in view && d.h(n) % d.buckets == d.h(name) % d.buckets| == 7
  }

  /** Update is lookup-or-insert on the map: it reports the name present exactly when it is,
      and gives up exactly when the bucket or the log is full, changing nothing. */
  lemma UpdateView(d: Dim, log: Log, name: Name, face: nat, expiry: nat)
    requires Valid(d, log)
    ensures var (log', r) := Update(d, log, name, face, expiry);
            && Valid(d, log')
            && (r.Aggregated? <==> name in View(log))
            && (r.NoSpace? <==> name !in View(log) && (|log| == d.capacity || Crowded(d, View(log), name)))
            && View(log') == match r
                             case Aggregated =>
                               View(log)[name := View(log)[name].(faces := View(log)[name].faces + {face})]
                             case Inserted => View(log)[name := Pending({face}, expiry)]
                             case NoSpace => View(log)
  {
    hide View, Find;
    var (log', r) := Update(d, log, name, face, expiry);
    ViewAt(log, name);
    LoadCountsNames(d, log, Bucket.Of(d.h, name, d.buckets));
    assert Crowded(d, View(log), name) <==> BucketFull(d, log, name) by {
      assert (set n | n in View(log) && d.h(n) % d.buckets == d.h(name) % d.buckets)
          == set n | n in View(log) && Bucket.Of(d.h, n, d.buckets) == Bucket.Of(d.h, name, d.buckets);
    }
    var want := match r
      case Aggregated => View(log)[name := View(log)[name].(faces := View(log)[name].faces + {face})]
      case Inserted => View(log)[name := Pending({face}, expiry)]
      case NoSpace => View(log);
    forall n
      ensures n in View(log') <==> n in want
      ensures n in want ==> View(log')[n] == want[n]
    {
      UpdateFind(d, log, name, face, expiry, n);
      ViewAt(log, n);
      ViewAt(log', n);
    }
    UpdateFind(d, log, name, face, expiry, name);
    assert View(log') == want;
  }

  /** Removal deletes the key and hands back its whole face set, never empty for a key that
      was there. */
  lemma RemoveView(d: Dim, log: Log, name: Name)
    requires Valid(d, log)
    ensures var (log', faces) := Remove(log, name);
            && Valid(d, log')
            && View(log') == View(log) - {name}
            && (faces == {} <==> name !in View(log))
            && (name in View(log) ==> faces == View(log)[name].faces)
  {
    hide View, Find;
    var (log', faces) := Remove(log, name);
    forall n
      ensures n in View(log') <==> n in View(log) && n != name
      ensures n in View(log') ==> View(log')[n] == View(log)[n]
    {
      ViewAt(log, n);
      ViewAt(log', n);
      RemoveFind(log, name, n);
    }
    ViewAt(log, name);
    assert View(log') == View(log) - {name};
  }

  lemma RemoveFind(log: Log, name: Name, n: Name)
    requires Unique(log)
    ensures var log' := Remove(log, name).0;
            var k := Find(log, n);
            && Unique(log')
            && (Find(log', n) >= 0 <==> k >= 0 && n != name)
            && (Find(log', n) >= 0 ==> log'[Find(log', n)] == log[k])
  {
    hide Find;
    var log' := Remove(log, name).0;
    var r := Find(log, name);
    if r >= 0 {
      var shift := if r == 0 then 1 else 0;
      assert forall j :: 0 <= j < |log'| ==> j + shift == r || log'[j] == log[j + shift];
      var k := Find(log, n);
      if k >= 0 && n != name {
        assert IsLive(log', k - shift, n);
        FindUnique(log', k - shift, n);
      }
      if Find(log', n) >= 0 {
        var j := Find(log', n);
        assert j + shift != r;
        assert IsLive(log, j + shift, n);
        FindUnique(log, j + shift, n);
      }
    }
  }

  /** The number of entries that fill a bucket is the number of pending names that hash to it. */
  lemma LoadCountsNames(d: Dim, log: Log, b: nat)
    requires Valid(d, log)
    ensures |Occupants(d, log, b)| == |set n | n in View(log) && Bucket.Of(d.h, n, d.buckets) == b|
  {
    var occ := Occupants(d, log, b);
    var names := set n | n in View(log) && Bucket.Of(d.h, n, d.buckets) == b;
    var nameOf := map k | k in occ :: log[k].name;
    assert nameOf.Keys == occ;
    assert nameOf.Values == names by {
      forall n ensures n in nameOf.Values <==> n in names {
        ViewAt(log, n);
        if n in names {
          var k := Find(log, n);
          assert k in occ && nameOf[k] == n;
        }
        if n in nameOf.Values {
          var k :| k in occ && nameOf[k] == n;
          FindUnique(log, k, n);
        }
      }
    }
    Bucket.SameSize(nameOf);
  }

  // ----- Purging -----

  predicate Expired(e: LogEntry, now: nat) {
    e.Live? && e.expiry <= now
  }

  /** Above a live entry that expires after some instant, none expires before it. From 0 on, this
      means that expiries do not decrease from the bottom to the top. */
  predicate Sorted(log: Log, from: nat) {
    forall i, j :: 0 <= i < j < |log| && log[i].Live? && log[j].Live? && log[i].expiry > from ==>
      log[i].expiry <= log[j].expiry
  }

  /** Purge drops the longest run of holes and expired entries at the bottom, and only that. */
  lemma {:induction false} PurgeIsDrop(log: Log, now: nat)
    ensures var log' := Purge(log, now);
            var k := |log| - |log'|;
            && 0 <= k
            && log' == log[k..]
            && (forall i :: 0 <= i < k ==> log[i].Hole? || Expired(log[i], now))
            && (log' != [] ==> log'[0].Live? && log'[0].expiry > now)
  {
    if log != [] && (log[0].Hole? || log[0].expiry <= now) {
      PurgeIsDrop(log[1..], now);
      var k := |log[1..]| - |Purge(log[1..], now)|;
      forall i | 0 <= i < k + 1
        ensures log[i].Hole? || Expired(log[i], now)
      {
        if i > 0 {
          assert log[i] == log[1..][i - 1];
        }
      }
    }
  }

  predicate Complete(log: Log, now: nat) {
    forall k :: 0 <= k < |Purge(log, now)| ==> !Expired(Purge(log, now)[k], now)
  }

  /** One purge leaves no expired entry behind exactly when no expired entry lies above a
      live one that has not expired. */
  lemma PurgeCompleteIff(log: Log, now: nat)
    ensures Complete(log, now) <==>
            forall i, j :: 0 <= i < j < |log| && log[i].Live? && !Expired(log[i], now) ==> !Expired(log[j], now)
  {
    PurgeIsDrop(log, now);
    var log' := Purge(log, now);
    var k := |log| - |log'|;
    if Complete(log, now) {
      forall i, j | 0 <= i < j < |log| && log[i].Live? && !Expired(log[i], now)
        ensures !Expired(log[j], now)
      {
        assert i >= k;
        assert log'[j - k] == log[j];
      }
    }
    if log' != []
      && forall i, j :: 0 <= i < j < |log| && log[i].Live? && !Expired(log[i], now) ==> !Expired(log[j], now)
    {
      forall j | 0 <= j < |log'| ensures !Expired(log'[j], now) {
        assert log'[0] == log[k] && log'[j] == log[k + j];
      }
    }
  }

  /** Purging is complete at every instant from some instant on exactly when expiries are sorted
      from there on. */
  lemma SortedIffAlwaysComplete(log: Log, from: nat)
    ensures Sorted(log, from) <==> forall now: nat | from <= now :: Complete(log, now)
  {
    if forall now: nat | from <= now :: Complete(log, now) {
      forall i, j | 0 <= i < j < |log| && log[i].Live? && log[j].Live? && log[i].expiry > from
        ensures log[i].expiry <= log[j].expiry
      {
        if log[j].expiry < log[i].expiry {
          var now := if from <= log[j].expiry then log[j].expiry else from;
          PurgeCompleteIff(log, now);
          assert Complete(log, now);
          assert !Expired(log[i], now);
          assert Expired(log[j], now);
        }
      }
    }
    if Sorted(log, from) {
      forall now: nat | from <= now ensures Complete(log, now) {
        PurgeCompleteIff(log, now);
      }
    }
  }

  lemma PurgeValid(d: Dim, log: Log, now: nat)
    requires Valid(d, log)
    ensures Valid(d, Purge(log, now))
  {
    PurgeIsDrop(log, now);
  }

  /** On a log that is sorted from now on, purging removes precisely the entries that have expired. */
  lemma PurgeView(d: Dim, log: Log, now: nat)
    requires Valid(d, log) && Sorted(log, now)
    ensures var log' := Purge(log, now);
            && Valid(d, log')
            && View(log') == map n | n in View(log) && View(log)[n].expiry > now :: View(log)[n]
  {
    hide View, Find, Purge;
    PurgeIsDrop(log, now);
    SortedIffAlwaysComplete(log, now);
    var log' := Purge(log, now);
    var k := |log| - |log'|;
    assert Complete(log, now);
    forall n
      ensures n in View(log') <==> n in View(log) && View(log)[n].expiry > now
      ensures n in View(log') ==> View(log')[n] == View(log)[n]
    {
      ViewAt(log, n);
      ViewAt(log', n);
      if n in View(log') {
        var j := Find(log', n);
        assert log'[j] == log[k + j];
        FindUnique(log, k + j, n);
        assert !Expired(log'[j], now);
      }
      if n in View(log) && View(log)[n].expiry > now {
        var i := Find(log, n);
        assert i >= k;
        assert IsLive(log', i - k, n);
      }
    }
  }

  /** No live entry expires after both of two instants. */
  predicate NoneLater(log: Log, from: nat, expiry: nat) {
    forall k :: 0 <= k < |log| && log[k].Live? && log[k].expiry > from ==> log[k].expiry <= expiry
  }

  /** Insertion with an expiry no earlier than those that count keeps the log sorted; the other
      operations always do. */
  lemma KeepsSorted(d: Dim, log: Log, from: nat, name: Name, face: nat, expiry: nat, now: nat)
    requires Valid(d, log) && Sorted(log, from)
    ensures NoneLater(log, from, expiry) ==> Sorted(Update(d, log, name, face, expiry).0, from)
    ensures Sorted(Remove(log, name).0, from)
    ensures Sorted(Purge(log, now), from)
  {
    hide Find, BucketFull, Purge;
    PurgeIsDrop(log, now);
  }

  // ----- Whole runs, with a TTL that may change -----

  datatype Op = Enter(name: Name, face: nat, now: nat, ttl: nat) | Leave(name: Name) | Sweep(now: nat)

  function Apply(d: Dim, log: Log, op: Op): Log
    requires d.buckets > 0
  {
    match op
    case Enter(name, face, now, ttl) => Update(d, log, name, face, now + ttl).0
    case Leave(name) => Remove(log, name).0
    case Sweep(now) => Purge(log, now)
  }

  function Run(d: Dim, ops: seq<Op>): Log
    requires d.buckets > 0
  {
    if ops == [] then [] else Apply(d, Run(d, ops[..|ops| - 1]), ops[|ops| - 1])
  }

  function ExpiryOf(op: Op): nat
    requires op.Enter?
  {
    op.now + op.ttl
  }

  /** No insertion expires before an earlier one that expires after some instant. From 0 on this
      means that later insertions do not expire earlier, as with a clock and a TTL that never go
      back, or with a TTL that drops no faster than the clock advances. */
  predicate InOrder(ops: seq<Op>, from: nat) {
    forall i, j :: 0 <= i < j < |ops| && ops[i].Enter? && ops[j].Enter? && ExpiryOf(ops[i]) > from ==>
      ExpiryOf(ops[i]) <= ExpiryOf(ops[j])
  }

  predicate EnteredBy(e: LogEntry, ops: seq<Op>) {
    exists i :: 0 <= i < |ops| && ops[i].Enter? && e.Live? && e.expiry == ExpiryOf(ops[i])
  }

  predicate AllEntered(log: Log, ops: seq<Op>) {
    forall k :: 0 <= k < |log| && log[k].Live? ==> EnteredBy(log[k], ops)
  }

  lemma EnteredLater(e: LogEntry, ops: seq<Op>, op: Op)
    requires EnteredBy(e, ops)
    ensures EnteredBy(e, ops + [op])
  {
    var i :| 0 <= i < |ops| && ops[i].Enter? && e.Live? && e.expiry == ExpiryOf(ops[i]);
    assert (ops + [op])[i] == ops[i];
  }

  /** Every expiry is one that some insertion gave. */
  lemma RunEntered(d: Dim, log: Log, ops: seq<Op>, op: Op)
    requires Valid(d, log) && AllEntered(log, ops)
    ensures AllEntered(Apply(d, log, op), ops + [op])
  {
    forall k | 0 <= k < |log| && log[k].Live? ensures EnteredBy(log[k], ops + [op]) {
      EnteredLater(log[k], ops, op);
    }
    match op
    case Enter(name, face, now, ttl) =>
      assert (ops + [op])[|ops|] == op;
    case Leave(_) =>
    case Sweep(now) => PurgeIsDrop(log, now);
  }

  lemma EarlierEntered(log: Log, ops: seq<Op>, from: nat, op: Op)
    requires AllEntered(log, ops) && InOrder(ops + [op], from) && op.Enter?
    ensures NoneLater(log, from, ExpiryOf(op))
  {
    forall k | 0 <= k < |log| && log[k].Live? && log[k].expiry > from ensures log[k].expiry <= ExpiryOf(op) {
      assert EnteredBy(log[k], ops);
      var i :| 0 <= i < |ops| && ops[i].Enter? && log[k].expiry == ExpiryOf(ops[i]);
      assert (ops + [op])[i] == ops[i] && (ops + [op])[|ops|] == op;
    }
  }

  lemma ApplySorted(d: Dim, log: Log, from: nat, op: Op)
    requires Valid(d, log) && Sorted(log, from) && (op.Enter? ==> NoneLater(log, from, ExpiryOf(op)))
    ensures Valid(d, Apply(d, log, op)) && Sorted(Apply(d, log, op), from)
  {
    hide Update, Remove, Purge, Sorted, View;
    match op
    case Enter(name, face, now, ttl) =>
      UpdateValid(d, log, name, face, now + ttl);
      KeepsSorted(d, log, from, name, face, now + ttl, 0);
    case Leave(name) =>
      RemoveView(d, log, name);
      KeepsSorted(d, log, from, name, 0, 0, 0);
    case Sweep(now) =>
      PurgeValid(d, log, now);
      KeepsSorted(d, log, from, [], 0, 0, now);
  }

  lemma {:induction false} RunSorted(d: Dim, ops: seq<Op>, from: nat)
    requires d.buckets > 0 && InOrder(ops, from)
    ensures Valid(d, Run(d, ops)) && Sorted(Run(d, ops), from) && AllEntered(Run(d, ops), ops)
  {
    hide Apply;
    if ops != [] {
      var prev, op := ops[..|ops| - 1], ops[|ops| - 1];
      RunSorted(d, prev, from);
      RunEntered(d, Run(d, prev), prev, op);
      assert prev + [op] == ops;
      if op.Enter? {
        EarlierEntered(Run(d, prev), prev, from, op);
      }
      ApplySorted(d, Run(d, prev), from, op);
    }
  }

  /** If no insertion expires before an earlier one that expires after some instant, every purge of
      the run from that instant on removes from the map exactly the names that have expired,
      whatever the other operations are. From 0 on, these are all its purges. */
  lemma EveryPurgeExact(d: Dim, ops: seq<Op>, from: nat, k: nat)
    requires d.buckets > 0 && InOrder(ops, from) && k < |ops| && ops[k].Sweep? && from <= ops[k].now
    ensures var view := View(Run(d, ops[..k]));
            View(Run(d, ops[..k + 1])) == map n | n in view && view[n].expiry > ops[k].now :: view[n]
  {
    RunSorted(d, ops[..k], from);
    PurgeView(d, Run(d, ops[..k]), ops[k].now);
    assert ops[..k + 1][..k] == ops[..k];
  }

  /** A run in which insertions come in order of time, the first ones with one TTL, up to a given
      instant, and the rest with another. */
  predicate Changed(ops: seq<Op>, first: nat, before: nat, until: nat, after: nat) {
    && (forall i :: 0 <= i < |ops| && ops[i].Enter? ==>
          if i < first then ops[i].ttl == before && ops[i].now <= until else ops[i].ttl == after)
    && (forall i, j :: 0 <= i < j < |ops| && ops[i].Enter? && ops[j].Enter? ==> ops[i].now <= ops[j].now)
  }

  /** The trouble with a TTL that is lowered is transient: once the old TTL has gone by since the
      change, every purge is exact again, for good. */
  lemma TransientEnds(d: Dim, ops: seq<Op>, first: nat, before: nat, until: nat, after: nat, k: nat)
    requires d.buckets > 0 && Changed(ops, first, before, until, after)
    requires k < |ops| && ops[k].Sweep? && until + before <= ops[k].now
    ensures var view := View(Run(d, ops[..k]));
            View(Run(d, ops[..k + 1])) == map n | n in view && view[n].expiry > ops[k].now :: view[n]
  {
    EveryPurgeExact(d, ops, until + before, k);
  }

  /** Two insertions and a purge. */
  function Pair(a: Op, b: Op, now: nat): seq<Op> {
    [a, b, Sweep(now)]
  }

  lemma RunOneMore(d: Dim, ops: seq<Op>, op: Op)
    requires d.buckets > 0
    ensures Run(d, ops + [op]) == Apply(d, Run(d, ops), op)
  {
    assert (ops + [op])[..|ops|] == ops;
  }

  /** A name enters a log with at most one entry, of another name. */
  lemma EntersShort(d: Dim, log: Log, op: Op)
    requires d.buckets > 0 && d.capacity >= 2 && op.Enter? && |log| <= 1
    requires log != [] ==> log[0].Live? && log[0].name != op.name
    ensures Apply(d, log, op) == log + [Live(op.name, {op.face}, ExpiryOf(op))]
  {
    var o := Occupants(d, log, Bucket.Of(d.h, op.name, d.buckets));
    assert o == {} || o == {0};
    assert Find(log, op.name) == -1;
  }

  lemma RunPair(d: Dim, a: Op, b: Op, now: nat)
    requires d.buckets > 0 && d.capacity >= 2 && a.Enter? && b.Enter? && a.name != b.name
    ensures Run(d, Pair(a, b, now))
         == Purge([Live(a.name, {a.face}, a.now + a.ttl), Live(b.name, {b.face}, b.now + b.ttl)], now)
  {
    RunOneMore(d, [], a);
    RunOneMore(d, [a], b);
    RunOneMore(d, [a, b], Sweep(now));
    EntersShort(d, [], a);
    EntersShort(d, [Live(a.name, {a.face}, ExpiryOf(a))], b);
    hide Run, Update;
    assert [] + [a] == [a] && [a] + [b] == [a, b] && [a, b] + [Sweep(now)] == Pair(a, b, now);
    Empty(d);
  }

  lemma Empty(d: Dim)
    requires d.buckets > 0
    ensures Run(d, []) == []
  {
  }

  /** Of two names entered one after the other, a purge leaves the second behind although it has
      expired if and only if it falls after the second and before the first expiry. */
  lemma StuckIff(d: Dim, a: Op, b: Op, now: nat)
    requires d.buckets > 0 && d.capacity >= 2 && a.Enter? && b.Enter? && a.name != b.name
    ensures var view := View(Run(d, Pair(a, b, now)));
            b.name in view && view[b.name].expiry <= now <==> b.now + b.ttl <= now < a.now + a.ttl
  {
    RunPair(d, a, b, now);
    var log := [Live(a.name, {a.face}, a.now + a.ttl), Live(b.name, {b.face}, b.now + b.ttl)];
    var log' := Purge(log, now);
    ViewAt(log', b.name);
    if now < a.now + a.ttl {
      FindUnique(log, 1, b.name);
    } else {
      assert log[1..] == [log[1]];
      if now < b.now + b.ttl {
        FindUnique([log[1]], 0, b.name);
      } else {
        assert [log[1]][1..] == [];
        assert Purge([log[1]], now) == [];
      }
    }
  }

  /** So lowering the TTL can make a purge miss entries: here it drops from 100 to 40 between two
      insertions, and the second entry is still there ten ticks after it expired. */
  lemma ShorterTtlBlocksPurge(d: Dim, a: Name, b: Name)
    requires d.buckets > 0 && d.capacity >= 2 && a != b
    ensures var view := View(Run(d, [Enter(a, 0, 0, 100), Enter(b, 0, 10, 40), Sweep(60)]));
            b in view && view[b].expiry == 50
  {
    RunPair(d, Enter(a, 0, 0, 100), Enter(b, 0, 10, 40), 60);
    StuckIff(d, Enter(a, 0, 0, 100), Enter(b, 0, 10, 40), 60);
    var log := [Live(a, {0}, 100), Live(b, {0}, 50)];
    ViewAt(log, b);
    FindUnique(log, 1, b);
  }

  /** How many places a purge gives back: the holes and expired entries at the bottom. */
  function Leading(log: Log, now: nat): nat {
    if log != [] && (log[0].Hole? || log[0].expiry <= now) then 1 + Leading(log[1..], now) else 0
  }

  /** Places of the log that a run takes, one for each new name. */
  function Taken(d: Dim, ops: seq<Op>): nat
    requires d.buckets > 0
  {
    if ops == [] then 0
    else
      var log, op := Run(d, ops[..|ops| - 1]), ops[|ops| - 1];
      Taken(d, ops[..|ops| - 1])
      + if op.Enter? && Update(d, log, op.name, op.face, op.now + op.ttl).1.Inserted? then 1 else 0
  }

  /** Places that a run gives back: by removals at the bottom, and by purges. */
  function GivenBack(d: Dim, ops: seq<Op>): nat
    requires d.buckets > 0
  {
    if ops == [] then 0
    else
      var log := Run(d, ops[..|ops| - 1]);
      GivenBack(d, ops[..|ops| - 1])
      + match ops[|ops| - 1]
        case Enter(_, _, _, _) => 0
        case Leave(name) => if Find(log, name) == 0 then 1 else 0
        case Sweep(now) => Leading(log, now)
  }

  lemma {:induction false} PurgeLength(log: Log, now: nat)
    ensures |Purge(log, now)| + Leading(log, now) == |log|
  {
    if log != [] && (log[0].Hole? || log[0].expiry <= now) {
      PurgeLength(log[1..], now);
    }
  }

  /** Over every run, the places taken are those given back and those still in use. */
  lemma {:induction false} PlacesConserved(d: Dim, ops: seq<Op>)
    requires d.buckets > 0
    ensures Taken(d, ops) == GivenBack(d, ops) + |Run(d, ops)|
  {
    if ops != [] {
      var prev := ops[..|ops| - 1];
      PlacesConserved(d, prev);
      match ops[|ops| - 1]
      case Enter(_, _, _, _) =>
      case Leave(_) =>
      case Sweep(now) => PurgeLength(Run(d, prev), now);
    }
  }

  /** An Interest that is entered and then withdrawn, for want of a route, leaves the map as
      it was and costs at most one place in the log. */
  lemma InsertThenRemove(d: Dim, log: Log, name: Name, face: nat, expiry: nat)
    requires Valid(d, log)
    requires Update(d, log, name, face, expiry).1.Inserted?
    ensures var log' := Remove(Update(d, log, name, face, expiry).0, name).0;
            && View(log') == View(log)
            && log' == if log == [] then [] else log + [Hole]
  {
    hide View, Crowded, Update, Remove;
    var log1 := Update(d, log, name, face, expiry).0;
    UpdateView(d, log, name, face, expiry);
    RemoveView(d, log1, name);
    assert View(log1) - {name} == View(log);
    TakenBack(d, log, name, face, expiry);
  }

  lemma TakenBack(d: Dim, log: Log, name: Name, face: nat, expiry: nat)
    requires Valid(d, log) && Update(d, log, name, face, expiry).1.Inserted?
    ensures Remove(Update(d, log, name, face, expiry).0, name).0 == if log == [] then [] else log + [Hole]
  {
    hide BucketFull;
    UpdateFind(d, log, name, face, expiry, name);
    assert Update(d, log, name, face, expiry).0[|log| := Hole] == log + [Hole];
  }

  /** Live entries never exceed the places in use, nor these the requested capacity; and the
      places in use are the number of pending names exactly when the log has no holes. */
  lemma LiveWithinCapacity(d: Dim, log: Log)
    requires Valid(d, log)
    ensures |View(log)| <= |log| <= d.capacity
    ensures |View(log)| == |log| <==> forall k :: 0 <= k < |log| ==> log[k].Live?
  {
    var at := map n | n in View(log) && Find(log, n) >= 0 :: Find(log, n) as nat;
    forall n ensures n in at <==> n in View(log) {
      ViewAt(log, n);
    }
    assert at.Keys == View(log).Keys;
    Bucket.SameSize(at);
    Bucket.Below(at.Values, |log|);
    forall k: nat | k < |log| ensures k in at.Values <==> log[k].Live? {
      if log[k].Live? {
        FindUnique(log, k, log[k].name);
        assert at[log[k].name] == k;
      }
    }
  }
}
