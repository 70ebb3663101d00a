/** Content-addressed chunk stores and their pairwise reconciliation. */
module Replication {
  import opened Base

  type ChunkMap = map<Digest, Bytes>

  ghost predicate Addressed(hash: Bytes -> Digest, store: ChunkMap) {
    forall h :: h in store ==> hash(store[h]) == h
  }

  /** What remains to be fetched: the remote hashes not held here, in the order they were listed. */
  function Plan(local: ChunkMap, remote: seq<Digest>): seq<Digest> {
    if remote == [] then []
    else if remote[0] !in local then [remote[0]] + Plan(local, remote[1..])
    else Plan(local, remote[1..])
  }

  lemma {:induction false} PlanMembers(local: ChunkMap, remote: seq<Digest>)
    ensures forall h :: h in Plan(local, remote) <==> h in remote && h !in local
  {
    if remote != [] { PlanMembers(local, remote[1..]); }
  }

  /** Copying `taken` from one store into another. */
  function Merge(local: ChunkMap, source: ChunkMap, taken: set<Digest>): ChunkMap {
    map h | h in local.Keys + (source.Keys * taken) :: if h in local then local[h] else source[h]
  }

  lemma {:induction false} MergeOne(local: ChunkMap, source: ChunkMap, taken: set<Digest>, h: Digest)
    requires h in source && h !in local
    ensures var merged := Merge(local, source, taken);
      Merge(local, source, taken + {h}) == if h in merged then merged else merged[h := source[h]]
  {
  }

  lemma {:induction false} MergeNone(local: ChunkMap, source: ChunkMap)
    ensures Merge(local, source, {}) == local
  {
  }

  lemma {:induction false} Merged(local: ChunkMap, source: ChunkMap, taken: seq<Digest>)
    ensures var after := Merge(local, source, Elements(taken));
      && (forall h :: h in after <==> h in local || (h in source && h in taken))
      && (forall h :: h in after ==> after[h] == if h in local then local[h] else source[h])
  {
  }

  class ChunkIndex {
    const hash: Bytes -> Digest
    var chunks: ChunkMap

    ghost predicate Valid()
      reads this
    {
      Addressed(hash, chunks)
    }

    constructor (hash: Bytes -> Digest)
      ensures Valid() && this.hash == hash && chunks == map[]
    {
      this.hash := hash;
      chunks := map[];
    }

    /** Refuses data that does not hash to its address; never replaces what is there. */
    method Insert(h: Digest, data: Bytes) returns (ok: bool)
      requires Valid()
      modifies this
      ensures Valid()
      ensures ok <==> hash(data) == h
      ensures chunks == if ok && h !in old(chunks) then old(chunks)[h := data] else old(chunks)
    {
      if hash(data) != h {
        return false;
      }
      if h !in chunks {
        chunks := chunks[h := data];
      }
      return true;
    }

    method MakePlan(remote: seq<Digest>) returns (missing: seq<Digest>)
      ensures missing == Plan(chunks, remote)
    {
      missing := [];
      for i := 0 to |remote|
        invariant missing + Plan(chunks, remote[i..]) == Plan(chunks, remote)
      {
        SuffixStep(remote, i);
        if remote[i] !in chunks {
          missing := missing + [remote[i]];
        }
      }
      assert remote[|remote|..] == [] && missing + [] == missing;
    }

    /** Plan against a replica, then insert the first `budget` missing chunks it serves. */
    method SyncFrom(other: ChunkIndex, listing: seq<Digest>, budget: nat) returns (plan: seq<Digest>)
      requires Valid() && other.Valid() && other != this && other.hash == hash
      requires Elements(listing) == other.chunks.Keys
      modifies this
      ensures Valid()
      ensures plan == Plan(old(chunks), listing)
      ensures chunks == Merge(old(chunks), other.chunks, Elements(plan[..if budget < |plan| then budget else |plan|]))
      ensures forall h :: h in plan <==> h in other.chunks && h !in old(chunks)
      ensures var n := if budget < |plan| then budget else |plan|;
        && (forall h :: h in chunks <==> h in old(chunks) || h in plan[..n])
        && (forall h :: h in old(chunks) ==> chunks[h] == old(chunks)[h])
        && (forall h :: h in chunks && h !in old(chunks) ==> h in other.chunks && chunks[h] == other.chunks[h])
    {
      hide Merge;
      plan := MakePlan(listing);
      PlanMembers(chunks, listing);
      var n := if budget < |plan| then budget else |plan|;
      MergeNone(chunks, other.chunks);
      assert Elements(plan[..0]) == {};
      for i := 0 to n
        invariant Valid() && other.Valid() && other.chunks == old(other.chunks)
        invariant chunks == Merge(old(chunks), other.chunks, Elements(plan[..i]))
      {
        assert plan[i] in plan && plan[i] in Elements(listing);
        assert Elements(plan[..i + 1]) == Elements(plan[..i]) + {plan[i]};
        MergeOne(old(chunks), other.chunks, Elements(plan[..i]), plan[i]);
        assert hash(other.chunks[plan[i]]) == plan[i];
        var ok := Insert(plan[i], other.chunks[plan[i]]);
      }
      Merged(old(chunks), other.chunks, plan[..n]);
      forall h ensures h in plan <==> h in other.chunks && h !in old(chunks) {
        assert h in listing <==> h in Elements(listing);
      }
    }
  }

  // A group of replicas, and any schedule of pairwise exchanges.

  type Replicas = seq<ChunkMap>

  datatype Exchange = Exchange(to: nat, from: nat, taken: set<Digest>)

  /** Replica `to` plans against replica `from` and inserts what it took of the plan. */
  function Step(stores: Replicas, e: Exchange): Replicas {
    if e.to < |stores| && e.from < |stores| then
      stores[e.to := Merge(stores[e.to], stores[e.from], e.taken)]
    else stores
  }

  /** The plan of `to` against `from` as a set. */
  function PlanSet(stores: Replicas, to: nat, from: nat): set<Digest>
    requires to < |stores| && from < |stores|
  {
    stores[from].Keys - stores[to].Keys
  }

  function Run(stores: Replicas, schedule: seq<Exchange>): Replicas
    decreases |schedule|
  {
    if schedule == [] then stores else Run(Step(stores, schedule[0]), schedule[1..])
  }

  function AllKeys(stores: Replicas): set<Digest> {
    if stores == [] then {} else stores[0].Keys + AllKeys(stores[1..])
  }

  lemma {:induction false} AllKeysMembers(stores: Replicas)
    ensures forall h :: h in AllKeys(stores) <==> exists i :: 0 <= i < |stores| && h in stores[i].Keys
  {
    if stores != [] {
      AllKeysMembers(stores[1..]);
      forall h ensures h in AllKeys(stores) <==> exists i :: 0 <= i < |stores| && h in stores[i].Keys {
        if i :| 0 <= i < |stores| && h in stores[i].Keys {
          assert i > 0 ==> h in stores[1..][i - 1].Keys;
        }
        if i :| 0 <= i < |stores[1..]| && h in stores[1..][i].Keys {
          assert h in stores[i + 1].Keys;
        }
      }
    }
  }

  ghost predicate AllAddressed(hash: Bytes -> Digest, stores: Replicas) {
    forall i :: 0 <= i < |stores| ==> Addressed(hash, stores[i])
  }

  /** Nothing is lost or changed at any replica, and nothing appears that no replica had. */
  ghost predicate Grows(before: Replicas, after: Replicas) {
    && |before| == |after|
    && (forall i, h :: 0 <= i < |before| && h in before[i] ==> h in after[i] && after[i][h] == before[i][h])
    && (forall i, h :: 0 <= i < |after| && h in after[i] ==> exists j :: 0 <= j < |before| && h in before[j])
  }

  lemma {:induction false} StepGrows(hash: Bytes -> Digest, stores: Replicas, e: Exchange)
    requires AllAddressed(hash, stores)
    ensures AllAddressed(hash, Step(stores, e)) && Grows(stores, Step(stores, e))
  {
    if e.to < |stores| && e.from < |stores| {
      var merged := Merge(stores[e.to], stores[e.from], e.taken);
      forall h | h in merged && h !in stores[e.to] ensures exists j :: 0 <= j < |stores| && h in stores[j] {
        assert h in stores[e.from];
      }
    }
  }

  lemma {:induction false} RunGrows(hash: Bytes -> Digest, stores: Replicas, schedule: seq<Exchange>)
    requires AllAddressed(hash, stores)
    ensures AllAddressed(hash, Run(stores, schedule)) && Grows(stores, Run(stores, schedule))
    decreases |schedule|
  {
    if schedule != [] {
      var next := Step(stores, schedule[0]);
      StepGrows(hash, stores, schedule[0]);
      RunGrows(hash, next, schedule[1..]);
      GrowsTransitive(stores, next, Run(next, schedule[1..]));
    }
  }

  lemma {:induction false} GrowsTransitive(a: Replicas, b: Replicas, c: Replicas)
    requires Grows(a, b) && Grows(b, c)
    ensures Grows(a, c)
  {
  }

  /** How many (replica, chunk) pairs are still missing from the whole. */
  function Deficit(stores: Replicas, all: set<Digest>): nat {
    if stores == [] then 0 else |all - stores[0].Keys| + Deficit(stores[1..], all)
  }

  lemma {:induction false} MissingSplits(all: set<Digest>, before: set<Digest>, after: set<Digest>)
    requires before <= after
    ensures |all - after| + |(after - before) * all| == |all - before|
  {
    assert all - before == (all - after) + (after - before) * all;
    assert (all - after) !! (after - before) * all;
  }

  lemma {:induction false} DeficitUpdate(stores: Replicas, all: set<Digest>, i: nat, store: ChunkMap)
    requires i < |stores| && stores[i].Keys <= store.Keys
    ensures Deficit(stores[i := store], all) + |(store.Keys - stores[i].Keys) * all| == Deficit(stores, all)
  {
    TailOfUpdate(stores, i, store);
    if i == 0 {
      MissingSplits(all, stores[0].Keys, store.Keys);
    } else {
      DeficitUpdate(stores[1..], all, i - 1, store);
    }
  }

  lemma {:induction false} TailOfUpdate<T>(s: seq<T>, i: nat, x: T)
    requires i < |s|
    ensures s[i := x][0] == (if i == 0 then x else s[0])
    ensures s[i := x][1..] == if i == 0 then s[1..] else s[1..][i - 1 := x]
  {
  }

  lemma {:induction false} MergeKeys(local: ChunkMap, source: ChunkMap, taken: set<Digest>)
    ensures Merge(local, source, taken).Keys == local.Keys + source.Keys * taken
  {
  }

  lemma {:induction false} StepKeepsAllKeys(stores: Replicas, e: Exchange)
    ensures AllKeys(Step(stores, e)) == AllKeys(stores)
  {
    var after := Step(stores, e);
    AllKeysMembers(stores);
    AllKeysMembers(after);
    forall h ensures h in AllKeys(after) <==> h in AllKeys(stores) {
      if i :| 0 <= i < |stores| && h in stores[i].Keys {
        assert h in after[i].Keys;
      }
      if i :| 0 <= i < |after| && h in after[i].Keys {
        assert h in stores[i].Keys || h in stores[e.from].Keys;
      }
    }
  }

  /** An exchange lowers the deficit by exactly the number of planned chunks it took. */
  lemma {:induction false} StepLowersDeficit(stores: Replicas, e: Exchange)
    requires e.to < |stores| && e.from < |stores|
    ensures Deficit(Step(stores, e), AllKeys(stores)) + |PlanSet(stores, e.to, e.from) * e.taken| ==
      Deficit(stores, AllKeys(stores))
  {
    var all := AllKeys(stores);
    var merged := Merge(stores[e.to], stores[e.from], e.taken);
    AllKeysMembers(stores);
    MergeKeys(stores[e.to], stores[e.from], e.taken);
    DeficitUpdate(stores, all, e.to, merged);
    assert stores[e.from].Keys <= all;
    assert (merged.Keys - stores[e.to].Keys) * all == PlanSet(stores, e.to, e.from) * e.taken;
  }

  /** Number of exchanges in a schedule that took something they had planned. */
  function Productive(stores: Replicas, schedule: seq<Exchange>): nat
    decreases |schedule|
  {
    if schedule == [] then 0
    else
      var e := schedule[0];
      (if e.to < |stores| && e.from < |stores| && PlanSet(stores, e.to, e.from) * e.taken != {} then 1 else 0)
        + Productive(Step(stores, e), schedule[1..])
  }

  /** However long the schedule, there are no more productive exchanges than chunks missing at the start. */
  lemma {:induction false} ProductiveExchangesBounded(stores: Replicas, schedule: seq<Exchange>)
    ensures var all := AllKeys(stores);
      Productive(stores, schedule) + Deficit(Run(stores, schedule), all) <= Deficit(stores, all)
    decreases |schedule|
  {
    if schedule != [] {
      var e := schedule[0];
      StepKeepsAllKeys(stores, e);
      ProductiveExchangesBounded(Step(stores, e), schedule[1..]);
      if e.to < |stores| && e.from < |stores| {
        StepLowersDeficit(stores, e);
      }
    }
  }

  /** `path` leads from a to b, each replica on it having an empty plan against the next. */
  ghost predicate QuietPath(stores: Replicas, path: seq<nat>) {
    && path != []
    && (forall k :: 0 <= k < |path| ==> path[k] < |stores|)
    && forall k, l :: 0 <= k && l == k + 1 < |path| ==> PlanSet(stores, path[k], path[l]) == {}
  }

  ghost predicate Joined(stores: Replicas, a: nat, b: nat) {
    exists path :: QuietPath(stores, path) && path[0] == a && path[|path| - 1] == b
  }

  /** Every two replicas are joined by a path of pairs whose plans are all empty. */
  ghost predicate QuietlyConnected(stores: Replicas) {
    forall a: nat, b: nat :: a < |stores| && b < |stores| ==> Joined(stores, a, b)
  }

  lemma {:induction false} QuietPathContains(stores: Replicas, path: seq<nat>)
    requires QuietPath(stores, path)
    ensures stores[path[|path| - 1]].Keys <= stores[path[0]].Keys
    decreases |path|
  {
    if |path| > 1 {
      var tail := path[1..];
      assert PlanSet(stores, path[0], path[1]) == {};
      assert QuietPath(stores, tail) by {
        forall k, l | 0 <= k && l == k + 1 < |tail| ensures PlanSet(stores, tail[k], tail[l]) == {} {
          assert PlanSet(stores, path[k + 1], path[l + 1]) == {};
        }
      }
      QuietPathContains(stores, tail);
      assert stores[path[1]].Keys <= stores[path[0]].Keys by {
        forall h | h in stores[path[1]].Keys ensures h in stores[path[0]].Keys {
          assert h !in PlanSet(stores, path[0], path[1]);
        }
      }
    }
  }

  /** Quiescent and strongly connected means converged: all replicas hold the same chunks. */
  lemma {:induction false} QuietMeansEqual(hash: Bytes -> Digest, stores: Replicas)
    requires Injective(hash) && AllAddressed(hash, stores)
    requires QuietlyConnected(stores)
    ensures forall i, j :: 0 <= i < |stores| && 0 <= j < |stores| ==> stores[i] == stores[j]
  {
    forall i: nat, j: nat | i < |stores| && j < |stores| ensures stores[i] == stores[j] {
      assert Joined(stores, i, j) && Joined(stores, j, i);
      var p :| QuietPath(stores, p) && p[0] == i && p[|p| - 1] == j;
      var q :| QuietPath(stores, q) && q[0] == j && q[|q| - 1] == i;
      QuietPathContains(stores, p);
      QuietPathContains(stores, q);
      assert stores[i].Keys == stores[j].Keys;
      forall h | h in stores[i] ensures stores[i][h] == stores[j][h] {
        assert hash(stores[i][h]) == h == hash(stores[j][h]);
      }
    }
  }
}
