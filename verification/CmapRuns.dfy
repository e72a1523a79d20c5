/** Every run of the map answers as a finite map. */
module CmapRuns {
  import opened Common
  import opened CmapList
  import opened CmapSizes
  import opened CmapSequential

  datatype Op<K, V> = OpSet(key: K, value: V) | OpGet(key: K) | OpDel(key: K) | OpGetOrSet(key: K, value: V)
                    | OpGetAndDel(key: K) | OpSwap(key: K, value: V) | OpCompareAndSwap(key: K, expected: V, value: V)

  /** What an operation answers: a value if there is one, and a flag. */
  datatype Answer<V> = Answer(value: Option<V>, flag: bool)

  function Lookup<K, V>(m: map<K, V>, key: K): Option<V> {
    if key in m then Some(m[key]) else None
  }

  /** The same operation on a finite map. */
  function MapAfter<K, V(==)>(m: map<K, V>, op: Op<K, V>): map<K, V> {
    match op
    case OpSet(k, v) => m[k := v]
    case OpGet(k) => m
    case OpDel(k) => m - {k}
    case OpGetOrSet(k, v) => if k in m then m else m[k := v]
    case OpGetAndDel(k) => m - {k}
    case OpSwap(k, v) => if k in m then m[k := v] else m
    case OpCompareAndSwap(k, e, v) => if k in m && m[k] == e then m[k := v] else m
  }

  function AnswerOf<K, V(==)>(m: map<K, V>, op: Op<K, V>): Answer<V> {
    match op
    case OpSet(k, v) => Answer(None, true)
    case OpGet(k) => Answer(Lookup(m, k), k in m)
    case OpDel(k) => Answer(None, true)
    case OpGetOrSet(k, v) => Answer(Some(if k in m then m[k] else v), k in m)
    case OpGetAndDel(k) => Answer(Lookup(m, k), k in m)
    case OpSwap(k, v) => Answer(Lookup(m, k), k in m)
    case OpCompareAndSwap(k, e, v) => Answer(None, k in m && m[k] == e)
  }

  function MapAfterAll<K, V(==)>(m: map<K, V>, ops: seq<Op<K, V>>): map<K, V> {
    if ops == [] then m else MapAfter(MapAfterAll(m, ops[..|ops| - 1]), ops[|ops| - 1])
  }

  function AnswersOf<K, V(==)>(m: map<K, V>, ops: seq<Op<K, V>>): seq<Answer<V>> {
    if ops == [] then []
    else AnswersOf(m, ops[..|ops| - 1]) + [AnswerOf(MapAfterAll(m, ops[..|ops| - 1]), ops[|ops| - 1])]
  }

  method Perform<K, V>(m: ConcurrentMap<K, V>, op: Op<K, V>) returns (answer: Answer<V>)
    requires m.Valid() && m.numItems + 1 < MAX_ITEMS
    modifies m`nodes, m`chain, m`metadata, m`numItems, m.metadata
    ensures m.Valid() && m.numItems <= old(m.numItems) + 1
    ensures m.metadata == old(m.metadata) || fresh(m.metadata)
    ensures m.Map() == MapAfter(old(m.Map()), op) && answer == AnswerOf(old(m.Map()), op)
  {
    hide m.Valid, m.Map;
    match op
    case OpSet(k, v) =>
      m.Set(k, v);
      answer := Answer(None, true);
    case OpGet(k) =>
      var value := m.Get(k);
      answer := Answer(value, value.Some?);
    case OpDel(k) =>
      m.Del(k);
      answer := Answer(None, true);
    case OpGetOrSet(k, v) =>
      var actual, loaded := m.GetOrSet(k, v);
      answer := Answer(Some(actual), loaded);
    case OpGetAndDel(k) =>
      var value := m.GetAndDel(k);
      answer := Answer(value, value.Some?);
    case OpSwap(k, v) =>
      var was := m.Swap(k, v);
      answer := Answer(was, was.Some?);
    case OpCompareAndSwap(k, e, v) =>
      var swapped := m.CompareAndSwap(k, e, v);
      answer := Answer(None, swapped);
  }

  /** Every run of operations on a new map answers as the finite map does. */
  method PerformAll<K(==), V(==)>(hasher: K -> Word, zeroKey: K, zeroValue: V, size: nat, ops: seq<Op<K, V>>) returns (answers: seq<Answer<V>>)
    requires size <= MAX_SIZE && hasher(zeroKey) != 0 && |ops| < MAX_ITEMS
    ensures answers == AnswersOf(map[], ops)
  {
    var m := new ConcurrentMap<K, V>(hasher, zeroKey, zeroValue, size);
    hide m.Valid, m.Map;
    answers := [];
    for i := 0 to |ops|
      invariant fresh(m) && fresh(m.metadata) && m.Valid() && m.numItems <= i
      invariant m.Map() == MapAfterAll(map[], ops[..i]) && answers == AnswersOf(map[], ops[..i])
    {
      assert ops[..i + 1][..i] == ops[..i];
      var answer := Perform(m, ops[i]);
      answers := answers + [answer];
    }
    assert ops[..|ops|] == ops;
  }
}
