/** Searches over sharded vertices, with one bounded queue for everything or one per shard, merged. */
module ShardSearch {
  import opened HeapOrder
  import opened TopK
  import opened BoundedQueues

  datatype Neighbor<I, M> = Neighbor(id: I, metadata: M, score: real)

  datatype Node<V, M> = Node(vector: V, metadata: M)

  type Found<I, M> = Item<Neighbor<I, M>>

  function Scored<I, V, M>(id: I, node: Node<V, M>, score: V -> real): Found<I, M> {
    Item(score(node.vector), Neighbor(id, node.metadata, score(node.vector)))
  }

  /** What a set of ids of a shard contributes to a search. */
  ghost function FoundIn<I, V, M>(shard: map<I, Node<V, M>>, ids: set<I>, score: V -> real): set<Found<I, M>>
    requires ids <= shard.Keys
  {
    set id | id in ids :: Scored(id, shard[id], score)
  }

  ghost function ShardItems<I, V, M>(shard: map<I, Node<V, M>>, score: V -> real): multiset<Found<I, M>> {
    multiset(FoundIn(shard, shard.Keys, score))
  }

  /** The items of several parts together. */
  ghost function SumOf<T>(parts: seq<multiset<Item<T>>>): multiset<Item<T>> {
    if parts == [] then multiset{} else SumOf(parts[..|parts| - 1]) + parts[|parts| - 1]
  }

  ghost function Parts<I, V, M>(shards: seq<map<I, Node<V, M>>>, score: V -> real): seq<multiset<Found<I, M>>> {
    seq(|shards|, i requires 0 <= i < |shards| => ShardItems(shards[i], score))
  }

  ghost function AllItems<I, V, M>(shards: seq<map<I, Node<V, M>>>, score: V -> real): multiset<Found<I, M>> {
    SumOf(Parts(shards, score))
  }

  lemma FoundOneMore<I, V, M>(shard: map<I, Node<V, M>>, ids: set<I>, id: I, score: V -> real)
    requires ids <= shard.Keys && id in shard && id !in ids
    ensures multiset(FoundIn(shard, ids + {id}, score)) == multiset(FoundIn(shard, ids, score)) + multiset{Scored(id, shard[id], score)}
  {
    var a, x := FoundIn(shard, ids, score), Scored(id, shard[id], score);
    assert FoundIn(shard, ids + {id}, score) == a + {x};
    assert x !in a;
  }

  /** The loop over one shard, in whatever order the map is iterated. */
  method AddShard<I(==), V, M>(pq: BoundedQueue<Neighbor<I, M>>, shard: map<I, Node<V, M>>, score: V -> real,
                               ghost all: multiset<Found<I, M>>)
    requires pq.Valid() && pq.KeepsBestOf(all)
    modifies pq.queue, pq.queue.buf
    ensures pq.Valid() && pq.KeepsBestOf(all + ShardItems(shard, score))
    ensures pq.queue.buf == old(pq.queue.buf) || fresh(pq.queue.buf)
  {
    hide Kept, HeapOk, FoundIn, pq.KeepsBestOf;
    var rest := shard.Keys;
    ghost var done: set<I> := {};
    FoundNone(shard, score);
    assert all + multiset(FoundIn(shard, done, score)) == all;
    while rest != {}
      invariant rest !! done && rest + done == shard.Keys
      invariant pq.Valid() && pq.KeepsBestOf(all + multiset(FoundIn(shard, done, score)))
      invariant pq.queue.buf == old(pq.queue.buf) || fresh(pq.queue.buf)
      decreases |rest|
    {
      var id :| id in rest;
      FoundOneMore(shard, done, id, score);
      ghost var before := all + multiset(FoundIn(shard, done, score));
      var sim := score(shard[id].vector);
      pq.Add(Item(sim, Neighbor(id, shard[id].metadata, sim)), before);
      Regroup(all, multiset(FoundIn(shard, done, score)), multiset{Scored(id, shard[id], score)});
      rest, done := rest - {id}, done + {id};
    }
    assert done == shard.Keys;
  }

  lemma Regroup<T>(a: multiset<T>, b: multiset<T>, c: multiset<T>)
    ensures a + b + c == a + (b + c)
  {
  }

  lemma FoundNone<I, V, M>(shard: map<I, Node<V, M>>, score: V -> real)
    ensures FoundIn(shard, {}, score) == {}
  {
  }

  /** The loop that puts a list of results in a queue. */
  method AddAll<T>(pq: BoundedQueue<T>, items: seq<Item<T>>, ghost all: multiset<Item<T>>)
    requires pq.Valid() && pq.KeepsBestOf(all)
    modifies pq.queue, pq.queue.buf
    ensures pq.Valid() && pq.KeepsBestOf(all + multiset(items))
    ensures pq.queue.buf == old(pq.queue.buf) || fresh(pq.queue.buf)
  {
    hide Kept, HeapOk, pq.KeepsBestOf;
    assert all + multiset(items[..0]) == all;
    for i := 0 to |items|
      invariant pq.Valid() && pq.KeepsBestOf(all + multiset(items[..i]))
      invariant pq.queue.buf == old(pq.queue.buf) || fresh(pq.queue.buf)
    {
      assert items[..i + 1] == items[..i] + [items[i]];
      assert all + multiset(items[..i]) + multiset{items[i]} == all + multiset(items[..i + 1]);
      pq.Add(items[i], all + multiset(items[..i]));
    }
    assert items[..|items|] == items;
  }

  /** What a search promises: the best scores of everything, in order of score. */
  ghost predicate BestOf<T>(all: multiset<Item<T>>, result: seq<Item<T>>, topK: int, descending: bool) {
    Kept(all, multiset(result), if topK < 0 then 0 else topK, false) && SortedByScore(result, descending)
  }

  /** One queue for all shards, one shard after the other. */
  method SearchInTurn<I(==), V, M>(shards: seq<map<I, Node<V, M>>>, score: V -> real, topK: int, descending: bool)
    returns (result: seq<Found<I, M>>)
    ensures BestOf(AllItems(shards, score), result, topK, descending)
  {
    hide Kept, HeapOk, ShardItems;
    var pq := new BoundedQueue<Neighbor<I, M>>(topK, descending);
    ghost var parts := Parts(shards, score);
    for i := 0 to |shards|
      invariant fresh(pq) && fresh(pq.queue) && fresh(pq.queue.buf) && pq.Valid() && pq.KeepsBestOf(SumOf(parts[..i]))
    {
      assert parts[..i + 1][..i] == parts[..i];
      AddShard(pq, shards[i], score, SumOf(parts[..i]));
    }
    assert parts[..|parts|] == parts;
    result := pq.ToSlice();
  }

  /** What the goroutines of a fan-out leave behind: the best of each part. */
  ghost predicate PartsSearched<T>(parts: seq<multiset<Item<T>>>, results: seq<seq<Item<T>>>, topK: int) {
    |results| == |parts|
    && forall i :: 0 <= i < |parts| ==> Kept(parts[i], multiset(results[i]), Capacity(topK), false)
  }

  /** A queue per shard; the goroutines share nothing, so their order does not matter. */
  method SearchShards<I(==), V, M>(shards: seq<map<I, Node<V, M>>>, score: V -> real, topK: int, descending: bool)
    returns (results: seq<seq<Found<I, M>>>)
    ensures PartsSearched(Parts(shards, score), results, topK)
  {
    hide Kept, HeapOk, ShardItems;
    results := [];
    ghost var parts := Parts(shards, score);
    for i := 0 to |shards|
      invariant PartsSearched(parts[..i], results, topK)
    {
      var localpq := new BoundedQueue<Neighbor<I, M>>(topK, descending);
      AddShard(localpq, shards[i], score, multiset{});
      assert multiset{} + ShardItems(shards[i], score) == parts[i];
      var items := localpq.ToSlice();
      results := results + [items];
    }
    assert parts[..|parts|] == parts;
  }

  /** The global queue over the results of the parts holds the best of everything. */
  method Merge<T>(results: seq<seq<Item<T>>>, topK: int, descending: bool, ghost parts: seq<multiset<Item<T>>>)
    returns (result: seq<Item<T>>)
    requires PartsSearched(parts, results, topK)
    ensures BestOf(SumOf(parts), result, topK, descending)
  {
    hide Kept, HeapOk;
    var pq := new BoundedQueue<T>(topK, descending);
    for i := 0 to |results|
      invariant fresh(pq) && fresh(pq.queue) && fresh(pq.queue.buf) && pq.Valid() && pq.KeepsBestOf(SumOf(parts[..i]))
      invariant pq.maxSize == topK && pq.descending == descending
    {
      assert parts[..i + 1][..i] == parts[..i];
      ghost var before := SumOf(parts[..i]);
      AddAll(pq, results[i], before);
      assert before + multiset(results[i]) == multiset(results[i]) + before;
      assert SumOf(parts[..i + 1]) == parts[i] + before;
      KeepPartFirst(parts[i], multiset(results[i]), before, pq.queue.Contents(), Capacity(topK), false);
    }
    assert parts[..|parts|] == parts;
    result := pq.ToSlice();
  }

  lemma {:induction false} SumGrows<T>(parts: seq<multiset<Item<T>>>, s: nat, x: multiset<Item<T>>)
    requires s < |parts|
    ensures SumOf(parts[s := parts[s] + x]) == SumOf(parts) + x
  {
    var n := |parts| - 1;
    var parts' := parts[s := parts[s] + x];
    if s == n {
      assert parts'[..n] == parts[..n];
    } else {
      SumGrows(parts[..n], s, x);
      assert parts'[..n] == parts[..n][s := parts[s] + x];
    }
  }

  lemma {:induction false} NothingYet<T>(parts: seq<multiset<Item<T>>>)
    requires forall i :: 0 <= i < |parts| ==> parts[i] == multiset{}
    ensures SumOf(parts) == multiset{}
  {
    if parts != [] {
      NothingYet(parts[..|parts| - 1]);
    }
  }

  // ---------- candidates of a filter ----------

  type Shards<V, M> = seq<map<nat, Node<V, M>>>

  /** `sharding.ShardVertex`. */
  function ShardOf(id: nat, hash: nat -> nat, n: nat): (s: nat)
    requires n > 0
    ensures s < n
  {
    hash(id) % n
  }

  /** What one candidate contributes: nothing if it is not stored. */
  ghost function Candidate<V, M>(vertices: Shards<V, M>, hash: nat -> nat, id: nat, score: V -> real): multiset<Found<nat, M>>
    requires |vertices| > 0
  {
    var shard := vertices[ShardOf(id, hash, |vertices|)];
    if id in shard then multiset{Scored(id, shard[id], score)} else multiset{}
  }

  /** Every vertex is in the shard its id hashes to. */
  ghost predicate Placed<V, M>(vertices: Shards<V, M>, hash: nat -> nat)
    requires |vertices| > 0
  {
    forall s, id :: 0 <= s < |vertices| && id in vertices[s] ==> s == hash(id) % |vertices|
  }

  /** With every vertex in its place no stored candidate is missed. */
  lemma CandidateFound<V, M>(vertices: Shards<V, M>, hash: nat -> nat, id: nat, score: V -> real)
    requires |vertices| > 0 && Placed(vertices, hash)
    ensures forall s :: 0 <= s < |vertices| && id in vertices[s] ==>
              Candidate(vertices, hash, id, score) == multiset{Scored(id, vertices[s][id], score)}
    ensures (forall s :: 0 <= s < |vertices| ==> id !in vertices[s]) ==> Candidate(vertices, hash, id, score) == multiset{}
  {
  }

  ghost function Candidates<V, M>(vertices: Shards<V, M>, hash: nat -> nat, ids: seq<nat>, score: V -> real): multiset<Found<nat, M>>
    requires |vertices| > 0
  {
    if ids == [] then multiset{}
    else Candidates(vertices, hash, ids[..|ids| - 1], score) + Candidate(vertices, hash, ids[|ids| - 1], score)
  }

  lemma CandidatesSnoc<V, M>(vertices: Shards<V, M>, hash: nat -> nat, ids: seq<nat>, id: nat, score: V -> real)
    requires |vertices| > 0
    ensures Candidates(vertices, hash, ids + [id], score)
         == Candidates(vertices, hash, ids, score) + Candidate(vertices, hash, id, score)
  {
    assert (ids + [id])[..|ids|] == ids;
  }

  ghost function CandidateParts<V, M>(vertices: Shards<V, M>, hash: nat -> nat, parts: seq<seq<nat>>, score: V -> real)
    : seq<multiset<Found<nat, M>>>
    requires |vertices| > 0
  {
    seq(|parts|, i requires 0 <= i < |parts| => Candidates(vertices, hash, parts[i], score))
  }

  ghost predicate AllIn(ids: seq<nat>, hash: nat -> nat, n: nat, s: nat)
    requires n > 0
  {
    forall j :: 0 <= j < |ids| ==> ShardOf(ids[j], hash, n) == s
  }

  ghost predicate Sharded(parts: seq<seq<nat>>, hash: nat -> nat, n: nat)
    requires n > 0
  {
    |parts| == n && forall i :: 0 <= i < n ==> AllIn(parts[i], hash, n, i)
  }

  /** One more candidate in its shard's list. */
  lemma ShardOneMore<V, M>(vertices: Shards<V, M>, hash: nat -> nat, parts: seq<seq<nat>>, id: nat, score: V -> real)
    requires |vertices| > 0 && Sharded(parts, hash, |vertices|)
    ensures var s := ShardOf(id, hash, |vertices|);
            var parts' := parts[s := parts[s] + [id]];
            Sharded(parts', hash, |vertices|)
            && (SumOf(CandidateParts(vertices, hash, parts', score))
                == SumOf(CandidateParts(vertices, hash, parts, score)) + Candidate(vertices, hash, id, score))
  {
    hide Candidates, Candidate;
    var s := ShardOf(id, hash, |vertices|);
    var parts' := parts[s := parts[s] + [id]];
    var was := CandidateParts(vertices, hash, parts, score);
    CandidatesSnoc(vertices, hash, parts[s], id, score);
    SumGrows(was, s, Candidate(vertices, hash, id, score));
    assert CandidateParts(vertices, hash, parts', score) == was[s := was[s] + Candidate(vertices, hash, id, score)];
  }

  /** The candidates sorted into their shards. */
  method ShardCandidates<V, M>(vertices: Shards<V, M>, hash: nat -> nat, candidates: seq<nat>, ghost score: V -> real)
    returns (parts: seq<seq<nat>>)
    requires |vertices| > 0
    ensures Sharded(parts, hash, |vertices|)
    ensures SumOf(CandidateParts(vertices, hash, parts, score)) == Candidates(vertices, hash, candidates, score)
  {
    hide Sharded, Candidate, Candidates, CandidateParts, SumOf;
    parts := seq(|vertices|, _ => []);
    NoCandidates(vertices, hash, parts, score);
    assert candidates[..0] == [];
    for i := 0 to |candidates|
      invariant |parts| == |vertices| && Sharded(parts, hash, |vertices|)
      invariant SumOf(CandidateParts(vertices, hash, parts, score)) == Candidates(vertices, hash, candidates[..i], score)
    {
      ShardOneMore(vertices, hash, parts, candidates[i], score);
      CandidatesSnoc(vertices, hash, candidates[..i], candidates[i], score);
      assert candidates[..i + 1] == candidates[..i] + [candidates[i]];
      var s := ShardOf(candidates[i], hash, |vertices|);
      parts := parts[s := parts[s] + [candidates[i]]];
    }
    assert candidates[..|candidates|] == candidates;
  }

  lemma NoCandidates<V, M>(vertices: Shards<V, M>, hash: nat -> nat, parts: seq<seq<nat>>, score: V -> real)
    requires |vertices| > 0 && |parts| == |vertices| && forall i :: 0 <= i < |parts| ==> parts[i] == []
    ensures Sharded(parts, hash, |vertices|) && SumOf(CandidateParts(vertices, hash, parts, score)) == multiset{}
    ensures Candidates(vertices, hash, [], score) == multiset{}
  {
    NothingYet(CandidateParts(vertices, hash, parts, score));
  }

  /** The loop over the candidates of one shard. */
  method AddCandidates<V, M>(pq: BoundedQueue<Neighbor<nat, M>>, vertices: Shards<V, M>, hash: nat -> nat, s: nat, ids: seq<nat>,
                             score: V -> real, ghost all: multiset<Found<nat, M>>)
    requires s < |vertices| && AllIn(ids, hash, |vertices|, s)
    requires pq.Valid() && pq.KeepsBestOf(all)
    modifies pq.queue, pq.queue.buf
    ensures pq.Valid() && pq.KeepsBestOf(all + Candidates(vertices, hash, ids, score))
    ensures pq.queue.buf == old(pq.queue.buf) || fresh(pq.queue.buf)
  {
    hide Kept, HeapOk, pq.KeepsBestOf, Candidates;
    assert ids[..0] == [];
    assert all + Candidates(vertices, hash, [], score) == all by { EmptyCandidates(vertices, hash, score); }
    for i := 0 to |ids|
      invariant pq.Valid() && pq.KeepsBestOf(all + Candidates(vertices, hash, ids[..i], score))
      invariant pq.queue.buf == old(pq.queue.buf) || fresh(pq.queue.buf)
    {
      ghost var before := all + Candidates(vertices, hash, ids[..i], score);
      CandidatesSnoc(vertices, hash, ids[..i], ids[i], score);
      assert ids[..i + 1] == ids[..i] + [ids[i]];
      assert before + Candidate(vertices, hash, ids[i], score) == all + Candidates(vertices, hash, ids[..i + 1], score);
      if ids[i] in vertices[s] {
        var sim := score(vertices[s][ids[i]].vector);
        pq.Add(Item(sim, Neighbor(ids[i], vertices[s][ids[i]].metadata, sim)), before);
      } else {
        assert before + multiset{} == before;
      }
    }
    assert ids[..|ids|] == ids;
  }

  lemma EmptyCandidates<V, M>(vertices: Shards<V, M>, hash: nat -> nat, score: V -> real)
    requires |vertices| > 0
    ensures Candidates(vertices, hash, [], score) == multiset{}
  {
  }

  method FilterInTurn<V, M>(vertices: Shards<V, M>, hash: nat -> nat, parts: seq<seq<nat>>, score: V -> real, topK: int)
    returns (result: seq<Found<nat, M>>)
    requires |vertices| > 0 && Sharded(parts, hash, |vertices|)
    ensures BestOf(SumOf(CandidateParts(vertices, hash, parts, score)), result, topK, false)
  {
    hide Kept, HeapOk, Candidates, AllIn;
    var globalPQ := new BoundedQueue<Neighbor<nat, M>>(topK, false);
    ghost var sums := CandidateParts(vertices, hash, parts, score);
    EmptyCandidates(vertices, hash, score);
    for i := 0 to |parts|
      invariant fresh(globalPQ) && fresh(globalPQ.queue) && fresh(globalPQ.queue.buf) && globalPQ.Valid()
      invariant globalPQ.KeepsBestOf(SumOf(sums[..i]))
    {
      assert sums[..i + 1][..i] == sums[..i];
      if |parts[i]| == 0 {
        assert SumOf(sums[..i]) + multiset{} == SumOf(sums[..i]);
        continue;
      }
      AddCandidates(globalPQ, vertices, hash, i, parts[i], score, SumOf(sums[..i]));
    }
    assert sums[..|sums|] == sums;
    result := globalPQ.ToSlice();
  }

  method FilterShards<V, M>(vertices: Shards<V, M>, hash: nat -> nat, parts: seq<seq<nat>>, score: V -> real, topK: int)
    returns (results: seq<seq<Found<nat, M>>>)
    requires |vertices| > 0 && Sharded(parts, hash, |vertices|)
    ensures PartsSearched(CandidateParts(vertices, hash, parts, score), results, topK)
  {
    hide Kept, HeapOk, Candidates, AllIn;
    results := [];
    ghost var sums := CandidateParts(vertices, hash, parts, score);
    EmptyCandidates(vertices, hash, score);
    for i := 0 to |parts|
      invariant PartsSearched(sums[..i], results, topK)
    {
      var localPQ := new BoundedQueue<Neighbor<nat, M>>(topK, false);
      if |parts[i]| == 0 {
        KeptNone<Neighbor<nat, M>>(Capacity(topK), false);
        results := results + [[]];
        continue;
      }
      AddCandidates(localPQ, vertices, hash, i, parts[i], score, multiset{});
      assert multiset{} + sums[i] == sums[i];
      var items := localPQ.ToSlice();
      results := results + [items];
    }
    assert sums[..|sums|] == sums;
  }

  // ---------- edge/none_vectorstore.go ----------

  class EdgeSpace<V, M> {
    var vertices: seq<map<nat, Node<V, M>>>
    const similarity: (V, V) -> real
    const cosine: bool
    const normalize: V -> V
    /** The hash behind `sharding.ShardVertex`. */
    const hash: nat -> nat

    constructor (vertices: seq<map<nat, Node<V, M>>>, similarity: (V, V) -> real, cosine: bool, normalize: V -> V, hash: nat -> nat)
      ensures this.vertices == vertices && this.similarity == similarity && this.cosine == cosine && this.normalize == normalize
      ensures this.hash == hash
    {
      this.hash := hash;
      this.vertices := vertices;
      this.similarity := similarity;
      this.cosine := cosine;
      this.normalize := normalize;
    }

    function From(t: V): V -> real {
      v => similarity(t, v)
    }

    function Score(target: V): V -> real {
      From(if cosine then normalize(target) else target)
    }

    /** `VertexSearch`: the sequential and the fan-out branch promise the same. For the cosine distance the stored vectors
        are compared with the normalized target, otherwise with the target itself. */
    method VertexSearch(target: V, topK: int, highCpu: bool) returns (result: seq<Found<nat, M>>)
      ensures BestOf(AllItems(vertices, From(if cosine then normalize(target) else target)), result, topK, false)
    {
      if !highCpu {
        result := SearchInTurn(vertices, Score(target), topK, false);
      } else {
        var results := SearchShards(vertices, Score(target), topK, false);
        result := Merge(results, topK, false, Parts(vertices, Score(target)));
      }
    }

    /** For the same target both branches return the same scores in the same order. */
    lemma BranchesAgree(target: V, topK: int, a: seq<Found<nat, M>>, b: seq<Found<nat, M>>)
      requires BestOf(AllItems(vertices, Score(target)), a, topK, false)
      requires BestOf(AllItems(vertices, Score(target)), b, topK, false)
      ensures Scores(a) == Scores(b)
    {
      TopScoresAgree(AllItems(vertices, Score(target)), a, b, Capacity(topK), false, false);
    }

    /** `FilterableVertexSearch`, with the ids the filter selected. */
    method FilterableVertexSearch(candidates: seq<nat>, target: V, topK: int, highCpu: bool) returns (result: seq<Found<nat, M>>)
      requires |vertices| > 0
      ensures BestOf(Candidates(vertices, hash, candidates, From(if cosine then normalize(target) else target)), result, topK, false)
    {
      var score := Score(target);
      var parts := ShardCandidates(vertices, hash, candidates, score);
      if !highCpu {
        result := FilterInTurn(vertices, hash, parts, score, topK);
      } else {
        var results := FilterShards(vertices, hash, parts, score, topK);
        result := Merge(results, topK, false, CandidateParts(vertices, hash, parts, score));
      }
    }
  }
}
