/** Whole runs of updates and deletions, against a plain finite map. */
module TrieRuns {
  import opened Common
  import opened HexKeys
  import opened Trees

  datatype Op = Update(key: Bytes, value: Bytes) | Remove(key: Bytes)

  type Contents = map<Bytes, Bytes>

  /** TryUpdate: an empty value deletes. */
  function Step(t: Tree, op: Op): Tree {
    match op
    case Update(key, value) => if |value| != 0 then Insert(t, Hex(key), Leaf(value)) else Delete(t, Hex(key))
    case Remove(key) => Delete(t, Hex(key))
  }

  function Run(t: Tree, ops: seq<Op>): Tree {
    if ops == [] then t else Step(Run(t, ops[..|ops| - 1]), ops[|ops| - 1])
  }

  function MapStep(m: Contents, op: Op): Contents {
    match op
    case Update(key, value) => if |value| != 0 then m[key := value] else m - {key}
    case Remove(key) => m - {key}
  }

  function MapRun(m: Contents, ops: seq<Op>): Contents {
    if ops == [] then m else MapStep(MapRun(m, ops[..|ops| - 1]), ops[|ops| - 1])
  }

  /** What the map holds under a hex key; odd-length byte strings only. */
  function At(m: Contents, k: Path): Option<Bytes>
    requires Terminated(k)
  {
    if |k| % 2 == 1 && Unhex(k) in m then Some(m[Unhex(k)]) else None
  }

  /** t is a trie holding exactly m. */
  ghost predicate Holds(t: Tree, m: Contents) {
    && Canon(t) && !t.Leaf?
    && (forall key | key in m :: |m[key]| > 0)
    && forall k | Terminated(k) :: Lookup(t, k) == At(m, k)
  }

  lemma HoldsGet(t: Tree, m: Contents, key: Bytes)
    requires Holds(t, m)
    ensures Lookup(t, Hex(key)) == if key in m then Some(m[key]) else None
  {
    UnhexHex(key);
  }

  lemma HoldsInsert(t: Tree, m: Contents, key: Bytes, value: Bytes)
    requires Holds(t, m) && |value| > 0
    ensures Holds(Insert(t, Hex(key), Leaf(value)), m[key := value])
  {
    hide Hex, Unhex, Canon, Insert, Lookup;
    InsertCanon(t, Hex(key), value);
    forall k | Terminated(k) ensures Lookup(Insert(t, Hex(key), Leaf(value)), k) == At(m[key := value], k) {
      InsertLookup(t, Hex(key), value, k);
      UnhexHex(key);
      if |k| % 2 == 1 {
        HexUnhex(k);
      }
    }
  }

  lemma HoldsDelete(t: Tree, m: Contents, key: Bytes)
    requires Holds(t, m)
    ensures Holds(Delete(t, Hex(key)), m - {key})
  {
    hide Hex, Unhex, Canon, Delete, Lookup;
    DeleteCanon(t, Hex(key));
    forall k | Terminated(k) ensures Lookup(Delete(t, Hex(key)), k) == At(m - {key}, k) {
      DeleteLookup(t, Hex(key), k);
      UnhexHex(key);
      if |k| % 2 == 1 {
        HexUnhex(k);
      }
    }
  }

  /** The trie refines a finite map: every run keeps them in step. */
  lemma {:induction false} RunHolds(t: Tree, m: Contents, ops: seq<Op>)
    requires Holds(t, m)
    ensures Holds(Run(t, ops), MapRun(m, ops))
  {
    hide Holds, Insert, Delete;
    if ops != [] {
      RunHolds(t, m, ops[..|ops| - 1]);
      StepHolds(Run(t, ops[..|ops| - 1]), MapRun(m, ops[..|ops| - 1]), ops[|ops| - 1]);
    }
  }

  lemma StepHolds(t: Tree, m: Contents, op: Op)
    requires Holds(t, m)
    ensures Holds(Step(t, op), MapStep(m, op))
  {
    hide Holds, Insert, Delete;
    match op
    case Update(key, value) =>
      if |value| != 0 {
        HoldsInsert(t, m, key, value);
      } else {
        HoldsDelete(t, m, key);
      }
    case Remove(key) =>
      HoldsDelete(t, m, key);
  }

  lemma EmptyHolds()
    ensures Holds(Empty, map[])
  {
  }

  /** A trie is determined by its contents. */
  lemma HoldsUnique(a: Tree, b: Tree, m: Contents)
    requires Holds(a, m) && Holds(b, m)
    ensures a == b
  {
    if a != b {
      hide Canon, Lookup;
      var k := Distinguish(a, b);
    }
  }

  /** History independence: two runs that reach the same map reach the same trie. */
  lemma HistoryIndependence(ops: seq<Op>, ops': seq<Op>)
    requires MapRun(map[], ops) == MapRun(map[], ops')
    ensures Run(Empty, ops) == Run(Empty, ops')
  {
    hide Holds;
    EmptyHolds();
    RunHolds(Empty, map[], ops);
    RunHolds(Empty, map[], ops');
    HoldsUnique(Run(Empty, ops), Run(Empty, ops'), MapRun(map[], ops));
  }
}
