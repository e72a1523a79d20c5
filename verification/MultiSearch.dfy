/** The search over several named vectors at once, and what its weighted score means. */
module MultiSearch {
  import opened Common
  import opened HeapOrder
  import opened TopK
  import opened BoundedQueues
  import opened ShardSearch

  datatype Query<V> = Query(indexName: string, vector: V, dimension: nat, included: bool, ratio: nat)

  datatype SearchError = NotAVectorIndex(indexName: string) | WrongDimension(indexName: string)

  class MultiVectorVertex<V, M> {
    var vertices: seq<map<string, Node<map<string, V>, M>>>
    const vectorIndexes: set<string>
    const dimensional: nat
    const distance: (V, V) -> real
    const cosine: bool
    const normalize: V -> V
    /** The vector a node without that index name yields: Go's nil vector. */
    const absent: V

    constructor (vertices: seq<map<string, Node<map<string, V>, M>>>, vectorIndexes: set<string>, dimensional: nat,
                 distance: (V, V) -> real, cosine: bool, normalize: V -> V, absent: V)
      ensures this.vertices == vertices && this.vectorIndexes == vectorIndexes && this.dimensional == dimensional
      ensures this.distance == distance && this.cosine == cosine && this.normalize == normalize && this.absent == absent
    {
      this.vertices := vertices;
      this.vectorIndexes := vectorIndexes;
      this.dimensional := dimensional;
      this.distance := distance;
      this.cosine := cosine;
      this.normalize := normalize;
      this.absent := absent;
    }

    /** `scoreHelper`: a distance as a score between 0 and 100. */
    function Helper(d: real): real {
      if cosine then (2.0 - d) / 2.0 * 100.0 else if 100.0 - d > 0.0 then 100.0 - d else 0.0
    }

    /** How far the named vector of a vertex is from a query vector. */
    function Far(vectors: map<string, V>, q: Query<V>): real {
      distance(if q.indexName in vectors then vectors[q.indexName] else absent, q.vector)
    }

    /** What a score contributes under a ratio in percent. */
    function Share(h: real, ratio: nat): real {
      h * (ratio as real / 100.0)
    }

    /** The weighted sum over the included query vectors. */
    function WeightedScore(vectors: map<string, V>, queries: seq<Query<V>>): real {
      if queries == [] then 0.0
      else
        var q := queries[|queries| - 1];
        var sum := WeightedScore(vectors, queries[..|queries| - 1]);
        if q.included then sum + Share(Helper(Far(vectors, q)), q.ratio) else sum
    }

    // ---------- what the score means ----------

    lemma {:induction false} ScoreConcat(vectors: map<string, V>, a: seq<Query<V>>, b: seq<Query<V>>)
      ensures WeightedScore(vectors, a + b) == WeightedScore(vectors, a) + WeightedScore(vectors, b)
    {
      if b == [] {
        assert a + b == a;
      } else {
        assert (a + b)[..|a + b| - 1] == a + b[..|b| - 1];
        ScoreConcat(vectors, a, b[..|b| - 1]);
      }
    }

    lemma ScoreAround(vectors: map<string, V>, a: seq<Query<V>>, q: Query<V>, b: seq<Query<V>>)
      ensures WeightedScore(vectors, a + [q] + b) == WeightedScore(vectors, a + b) + WeightedScore(vectors, [q])
    {
      ScoreConcat(vectors, a + [q], b);
      ScoreConcat(vectors, a, [q]);
      ScoreConcat(vectors, a, b);
    }

    lemma ScoreOfOne(vectors: map<string, V>, q: Query<V>)
      ensures WeightedScore(vectors, [q]) == if q.included then Share(Helper(Far(vectors, q)), q.ratio) else 0.0
    {
      assert [q][..0] == [];
    }

    /** A query vector that is not included, or has ratio 0, may as well be left out. */
    lemma IdleQueryIgnored(vectors: map<string, V>, a: seq<Query<V>>, q: Query<V>, b: seq<Query<V>>)
      requires !q.included || q.ratio == 0
      ensures WeightedScore(vectors, a + [q] + b) == WeightedScore(vectors, a + b)
    {
      ScoreAround(vectors, a, q, b);
      ScoreOfOne(vectors, q);
    }

    lemma SharesAdd(h: real, x: nat, y: nat)
      ensures Share(h, x + y) == Share(h, x) + Share(h, y)
    {
      var a, b := x as real / 100.0, y as real / 100.0;
      assert (x + y) as real / 100.0 == a + b;
      assert h * (a + b) == h * a + h * b;
    }

    /** The score is linear in every ratio: what a sum of two ratios adds is what the two add. */
    lemma RatiosAdd(vectors: map<string, V>, a: seq<Query<V>>, q: Query<V>, x: nat, y: nat, b: seq<Query<V>>)
      ensures var rest := WeightedScore(vectors, a + b);
              WeightedScore(vectors, a + [q.(ratio := x + y)] + b) - rest
              == (WeightedScore(vectors, a + [q.(ratio := x)] + b) - rest) + (WeightedScore(vectors, a + [q.(ratio := y)] + b) - rest)
    {
      hide WeightedScore, Helper, Share;
      ScoreAround(vectors, a, q.(ratio := x + y), b);
      ScoreAround(vectors, a, q.(ratio := x), b);
      ScoreAround(vectors, a, q.(ratio := y), b);
      ScoreOfOne(vectors, q.(ratio := x + y));
      ScoreOfOne(vectors, q.(ratio := x));
      ScoreOfOne(vectors, q.(ratio := y));
      SharesAdd(Helper(Far(vectors, q)), x, y);
    }

    /** One query with the whole weight: 100 at distance 0, falling evenly to 0 at distance 2 for the cosine distance, and at
        distance 100, to stay there, otherwise. */
    lemma WholeWeight(vectors: map<string, V>, q: Query<V>)
      requires q.included && q.ratio == 100
      ensures var d, s := Far(vectors, q), WeightedScore(vectors, [q]);
              && (cosine ==> s + 50.0 * d == 100.0)
              && (!cosine && d <= 100.0 ==> s + d == 100.0)
              && (!cosine && d >= 100.0 ==> s == 0.0)
    {
      ScoreOfOne(vectors, q);
    }

    lemma HelperFalls(a: real, b: real)
      requires a <= b
      ensures Helper(a) >= Helper(b)
    {
    }

    lemma HelperInRange(d: real)
      requires 0.0 <= d && (cosine ==> d <= 2.0)
      ensures 0.0 <= Helper(d) <= 100.0
    {
    }

    /** A vertex that is nowhere farther scores no less. */
    lemma {:induction false} NearerScoresMore(near: map<string, V>, far: map<string, V>, queries: seq<Query<V>>)
      requires forall i :: 0 <= i < |queries| && queries[i].included ==> Far(near, queries[i]) <= Far(far, queries[i])
      ensures WeightedScore(near, queries) >= WeightedScore(far, queries)
    {
      hide Helper, Share, Far;
      if queries != [] {
        var n := |queries| - 1;
        var q := queries[n];
        NearerScoresMore(near, far, queries[..n]);
        if q.included {
          HelperFalls(Far(near, q), Far(far, q));
          ShareGrows(Helper(Far(far, q)), Helper(Far(near, q)), q.ratio);
        }
      }
    }

    lemma ShareGrows(a: real, b: real, ratio: nat)
      requires a <= b
      ensures Share(a, ratio) <= Share(b, ratio)
    {
      var w := ratio as real / 100.0;
      assert w >= 0.0 && (b - a) * w >= 0.0;
    }

    lemma ShareEnds(ratio: nat)
      ensures Share(100.0, ratio) == ratio as real && Share(0.0, ratio) == 0.0
    {
    }

    function RatioSum(queries: seq<Query<V>>): nat {
      if queries == [] then 0
      else RatioSum(queries[..|queries| - 1]) + if queries[|queries| - 1].included then queries[|queries| - 1].ratio else 0
    }

    /** Distances as the distance functions give them: none negative, and up to 2 for the cosine distance. */
    predicate Proper(vectors: map<string, V>, queries: seq<Query<V>>) {
      forall i :: 0 <= i < |queries| && queries[i].included ==>
        0.0 <= Far(vectors, queries[i]) && (cosine ==> Far(vectors, queries[i]) <= 2.0)
    }

    /** The score lies between 0 and the sum of the ratios: with ratios that add up to 100 it is a percentage. */
    lemma {:induction false} ScoreInRange(vectors: map<string, V>, queries: seq<Query<V>>)
      requires Proper(vectors, queries)
      ensures 0.0 <= WeightedScore(vectors, queries) <= RatioSum(queries) as real
    {
      hide Helper, Share, Far;
      if queries != [] {
        var n := |queries| - 1;
        var q := queries[n];
        ScoreInRange(vectors, queries[..n]);
        if q.included {
          HelperInRange(Far(vectors, q));
          ShareGrows(0.0, Helper(Far(vectors, q)), q.ratio);
          ShareGrows(Helper(Far(vectors, q)), 100.0, q.ratio);
          ShareEnds(q.ratio);
        }
      }
    }

    /** The loop over the query vectors for one vertex. */
    method ScoreNode(vectors: map<string, V>, queries: seq<Query<V>>) returns (score: real)
      ensures score == WeightedScore(vectors, queries)
    {
      score := 0.0;
      for i := 0 to |queries|
        invariant score == WeightedScore(vectors, queries[..i])
      {
        assert queries[..i + 1][..i] == queries[..i];
        var q := queries[i];
        if q.included {
          var sim := distance(if q.indexName in vectors then vectors[q.indexName] else absent, q.vector);
          score := score + Share(Helper(sim), q.ratio);
        }
      }
      assert queries[..|queries|] == queries;
    }

    // ---------- the search ----------

    ghost function ScoreBy(queries: seq<Query<V>>): map<string, V> -> real {
      v => WeightedScore(v, queries)
    }

    /** The loop over one shard, in whatever order the map is iterated. */
    method AddScored(pq: BoundedQueue<Neighbor<string, M>>, shard: map<string, Node<map<string, V>, M>>, queries: seq<Query<V>>)
      requires pq.Valid() && pq.KeepsBestOf(multiset{})
      modifies pq.queue, pq.queue.buf
      ensures pq.Valid() && pq.KeepsBestOf(ShardItems(shard, ScoreBy(queries)))
      ensures pq.queue.buf == old(pq.queue.buf) || fresh(pq.queue.buf)
    {
      hide Kept, HeapOk, FoundIn, pq.KeepsBestOf, WeightedScore, ShardItems;
      ghost var score := ScoreBy(queries);
      var rest := shard.Keys;
      ghost var done: set<string> := {};
      FoundNone(shard, score);
      assert multiset(FoundIn(shard, done, score)) == multiset{};
      while rest != {}
        invariant rest !! done && rest + done == shard.Keys
        invariant pq.Valid() && pq.KeepsBestOf(multiset(FoundIn(shard, done, score)))
        invariant pq.queue.buf == old(pq.queue.buf) || fresh(pq.queue.buf)
        decreases |rest|
      {
        var id :| id in rest;
        var s := ScoreNode(shard[id].vector, queries);
        FoundOneMore(shard, done, id, score);
        assert Item(s, Neighbor(id, shard[id].metadata, s)) == Scored(id, shard[id], score);
        pq.Add(Item(s, Neighbor(id, shard[id].metadata, s)), multiset(FoundIn(shard, done, score)));
        rest, done := rest - {id}, done + {id};
      }
      assert done == shard.Keys;
      AllFound(shard, score);
    }

    lemma AllFound(shard: map<string, Node<map<string, V>, M>>, score: map<string, V> -> real)
      ensures ShardItems(shard, score) == multiset(FoundIn(shard, shard.Keys, score))
    {
    }

    /** A queue per shard; the goroutines share nothing, so their order does not matter. */
    method SearchScored(queries: seq<Query<V>>, size: int) returns (results: seq<seq<Found<string, M>>>)
      ensures PartsSearched(Parts(vertices, ScoreBy(queries)), results, size)
    {
      hide Kept, HeapOk, ShardItems, ScoreBy;
      results := [];
      ghost var parts := Parts(vertices, ScoreBy(queries));
      for i := 0 to |vertices|
        invariant PartsSearched(parts[..i], results, size)
      {
        var localpq := new BoundedQueue<Neighbor<string, M>>(size, true);
        AddScored(localpq, vertices[i], queries);
        var items := localpq.ToSlice();
        results := results + [items];
      }
      assert parts[..|parts|] == parts;
    }

    predicate Rejected(q: Query<V>) {
      q.indexName !in vectorIndexes || q.dimension != dimensional
    }

    /** For the cosine distance the included query vectors are normalized. */
    function Prepared(queries: seq<Query<V>>): (r: seq<Query<V>>)
      ensures |r| == |queries|
    {
      seq(|queries|, i requires 0 <= i < |queries| =>
        if queries[i].included && cosine then queries[i].(vector := normalize(queries[i].vector)) else queries[i])
    }

    /** The checks that precede the search. */
    method Check(queries: seq<Query<V>>) returns (r: Result<seq<Query<V>>, SearchError>)
      ensures r.Ok? <==> forall i :: 0 <= i < |queries| ==> !Rejected(queries[i])
      ensures r.Ok? ==> r.value == Prepared(queries)
      ensures r.Err? ==> exists i :: (0 <= i < |queries| && Rejected(queries[i]) && (forall j :: 0 <= j < i ==> !Rejected(queries[j]))
                           && r.error == if queries[i].indexName !in vectorIndexes then NotAVectorIndex(queries[i].indexName)
                                         else WrongDimension(queries[i].indexName))
    {
      var prepared := queries;
      for i := 0 to |queries|
        invariant |prepared| == |queries| && prepared[i..] == queries[i..] && prepared[..i] == Prepared(queries)[..i]
        invariant forall j :: 0 <= j < i ==> !Rejected(queries[j])
      {
        var q := prepared[i];
        assert q == prepared[i..][0] == queries[i];
        if q.indexName !in vectorIndexes {
          return Err(NotAVectorIndex(q.indexName));
        }
        if dimensional != q.dimension {
          return Err(WrongDimension(q.indexName));
        }
        if q.included {
          if cosine {
            prepared := prepared[i := q.(vector := normalize(q.vector))];
          }
        }
      }
      return Ok(prepared);
    }

    /** `MultiVertexSearch`. The size is unsigned in the call and signed in the queues. */
    method MultiVertexSearch(topK: nat, queries: seq<Query<V>>)
      returns (r: Result<seq<Found<string, M>>, SearchError>, ghost prepared: seq<Query<V>>)
      requires topK < TWO64
      ensures r.Ok? <==> forall i :: 0 <= i < |queries| ==> queries[i].indexName in vectorIndexes && queries[i].dimension == dimensional
      ensures |prepared| == |queries|
      ensures forall i :: 0 <= i < |queries| ==>
                prepared[i] == if cosine && queries[i].included then queries[i].(vector := normalize(queries[i].vector)) else queries[i]
      ensures r.Ok? && topK < TWO63 ==> BestOf(AllItems(vertices, ScoreBy(prepared)), r.value, topK, true)
      ensures r.Ok? && topK >= TWO63 ==> r.value == []
    {
      prepared := Prepared(queries);
      var checked := Check(queries);
      if checked.Err? {
        return Err(checked.error), prepared;
      }
      var size: int := if topK < TWO63 then topK else topK - TWO64;
      var results := SearchScored(checked.value, size);
      var result := Merge(results, size, true, Parts(vertices, ScoreBy(checked.value)));
      return Ok(result), prepared;
    }
  }
}
