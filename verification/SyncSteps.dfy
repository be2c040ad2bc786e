/** The steps of the synchroniser (trie/sync.go) on values: what a step may change, what it asks
    for and in which order, and that it keeps the bookkeeping intact. */
module SyncSteps {
  import opened Common
  import opened Rlp
  import opened Trees
  import opened Merkle
  import opened Nodes
  import opened Represent
  import opened SyncState

  datatype SyncResult = SyncResult(hash: Hash, data: Bytes)

  /** A retrieved item is the data of its hash and uses no hash as raw entry and as trie node. */
  ghost predicate ResultOk(cfg: Config, item: SyncResult) {
    && Keccak(item.data) == item.hash && Known(item.data)
    && (cfg.entry(item.hash).TrieNode? && DecodeNode(Some(item.hash), item.data, 0).Ok? ==>
          Uniform(cfg, item.hash, DecodeNode(Some(item.hash), item.data, 0).value))
  }

  // ----- what a node asks for

  /** The first of these requests that is for h. */
  function Find(asks: seq<Sub>, h: Hash): Option<Sub> {
    if asks == [] then None else if asks[0].hash == h then Some(asks[0]) else Find(asks[1..], h)
  }

  lemma {:induction false} FindConcat(a: seq<Sub>, b: seq<Sub>, h: Hash)
    ensures Find(a + b, h) == if Find(a, h).Some? then Find(a, h) else Find(b, h)
  {
    if a == [] {
      assert a + b == b;
    } else {
      assert (a + b)[0] == a[0] && (a + b)[1..] == a[1..] + b;
      FindConcat(a[1..], b, h);
    }
  }

  lemma {:induction false} FindIn(asks: seq<Sub>, h: Hash)
    ensures Find(asks, h).Some? ==> Find(asks, h).value in asks && Find(asks, h).value.hash == h
    ensures forall x | x in asks && x.hash == h :: Find(asks, h).Some?
  {
    if asks != [] {
      FindIn(asks[1..], h);
      assert asks == [asks[0]] + asks[1..];
    }
  }

  /** Requests for the empty entry or the empty trie are not made. */
  function Wanted(subs: seq<Sub>): seq<Sub> {
    if subs == [] then [] else
    var last := subs[|subs| - 1];
    Wanted(subs[..|subs| - 1]) + if last.hash == EmptyHash(last.entry) then [] else [last]
  }

  /** What a leaf asks for through the callback. */
  function KidAsks(cfg: Config, watch: bool, kid: Node): seq<Sub> {
    if watch && kid.Value? then Wanted(cfg.leaf(kid.value)) else []
  }

  function LeafAsks(cfg: Config, watch: bool, kids: seq<Node>): seq<Sub> {
    if kids == [] then [] else
    LeafAsks(cfg, watch, kids[..|kids| - 1]) + KidAsks(cfg, watch, kids[|kids| - 1])
  }

  /** The children by hash, requested like their parent: with its callback or without. */
  function RefAsks(kids: seq<Node>, e: Entry, depth: nat): seq<Sub> {
    if kids == [] then [] else
    var last := kids[|kids| - 1];
    RefAsks(kids[..|kids| - 1], e, depth) + if last.HashRef? then [Sub(last.hash, e, depth)] else []
  }

  function KidDepth(depth: nat, n: Node): nat {
    depth + if n.Short? then |n.key| else 1
  }

  /** All that a node requested as e at depth asks for, in order: first through its leaves, then its children. */
  function Asks(cfg: Config, e: Entry, depth: nat, n: Node): seq<Sub> {
    LeafAsks(cfg, Watched(e), Kids(n)) + RefAsks(Kids(n), e, KidDepth(depth, n))
  }

  ghost function ItemAsks(cfg: Config, s: State, item: SyncResult): seq<Sub>
    requires item.hash in s.rs
  {
    var r := s.rs[item.hash];
    if r.entry.RawEntry? || DecodeNode(Some(item.hash), item.data, 0).Err? then []
    else Asks(cfg, r.entry, r.depth, DecodeNode(Some(item.hash), item.data, 0).value)
  }

  lemma {:induction false} RefAll(kids: seq<Node>, e: Entry, depth: nat, x: Sub)
    requires x in RefAsks(kids, e, depth)
    ensures x == Sub(x.hash, e, depth) && HashRef(x.hash) in kids
  {
    if x in RefAsks(kids[..|kids| - 1], e, depth) {
      RefAll(kids[..|kids| - 1], e, depth, x);
    }
  }

  // ----- steps that make requests

  /** Steps that only add requests and parents. */
  ghost predicate Grown(s: State, s': State) {
    && s'.db == s.db && s'.batch == s.batch && s'.order == s.order && s'.seen == s.seen
    && (forall h | h in s.rs :: GrownRequest(s.rs, s'.rs, h))
    && (forall h | h in s'.rs && h !in s.rs :: s'.rs[h].data.None?)
    && (forall a, k :: Covered(s, a, k) ==> Covered(s', a, k))
  }

  ghost predicate GrownRequest(rs: Requests, rs': Requests, h: Hash)
    requires h in rs
  {
    && h in rs' && rs'[h].data == rs[h].data && rs'[h].entry == rs[h].entry && rs'[h].depth == rs[h].depth
    && rs'[h].deps >= rs[h].deps
  }

  lemma GrownTrans(a: State, b: State, c: State)
    requires Grown(a, b) && Grown(b, c)
    ensures Grown(a, c)
  {
    hide Covered;
  }

  lemma GrownSame(s: State)
    ensures Grown(s, s)
  {
  }

  lemma GrownAt(s: State, s': State, h: Hash)
    requires Grown(s, s') && h in s.rs
    ensures h in s'.rs && s'.rs[h].data == s.rs[h].data && s'.rs[h].entry == s.rs[h].entry
    ensures s'.rs[h].depth == s.rs[h].depth && s'.rs[h].deps >= s.rs[h].deps
  {
    hide Covered;
  }

  lemma GrownCovers(s: State, s': State)
    requires Grown(s, s')
    ensures forall a, k :: Covered(s, a, k) ==> Covered(s', a, k)
  {
    hide Covered;
  }

  lemma GrownHave(s: State, s': State)
    requires Grown(s, s')
    ensures Have(s') == Have(s)
  {
    hide Covered;
  }

  lemma HaveSame(s: State, s': State)
    requires s'.db == s.db && s'.batch == s.batch
    ensures Have(s') == Have(s)
  {
  }

  /** Everything asked for is stored or pending, and everything newly pending is what was first asked for it. */
  ghost predicate Served(s: State, s': State, asks: seq<Sub>) {
    && (forall k | k in s'.rs && k !in s.rs :: NewAs(s', asks, k))
    && (forall x | x in asks :: Met(s', x.hash))
  }

  ghost predicate NewAs(s: State, asks: seq<Sub>, k: Hash)
    requires k in s.rs
  {
    k !in Have(s) && Find(asks, k) == Some(Sub(k, s.rs[k].entry, s.rs[k].depth))
  }

  ghost predicate Met(s: State, h: Hash) {
    h in Have(s) || h in s.rs
  }

  lemma ServedNone(s: State, s': State)
    requires s'.rs.Keys == s.rs.Keys
    ensures Served(s, s', [])
  {
  }

  lemma MetGrown(s: State, s': State, h: Hash)
    requires Grown(s, s') && Met(s, h)
    ensures Met(s', h)
  {
    hide Covered;
    if h in s.rs {
      assert GrownRequest(s.rs, s'.rs, h);
    }
  }

  lemma ServedTrans(a: State, b: State, c: State, xs: seq<Sub>, ys: seq<Sub>)
    requires Served(a, b, xs) && Served(b, c, ys) && Grown(b, c)
    ensures Served(a, c, xs + ys)
  {
    hide Covered, Met, Find, Have;
    GrownHave(b, c);
    forall k | k in c.rs && k !in a.rs ensures NewAs(c, xs + ys, k) {
      FindConcat(xs, ys, k);
      if k in b.rs {
        assert NewAs(b, xs, k) && GrownRequest(b.rs, c.rs, k);
      } else {
        assert NewAs(c, ys, k);
        NotAsked(b, xs, k);
      }
    }
    forall x | x in xs + ys ensures Met(c, x.hash) {
      if x in xs {
        MetGrown(b, c, x.hash);
      }
    }
  }

  lemma NotAsked(s: State, xs: seq<Sub>, k: Hash)
    requires (forall x | x in xs :: Met(s, x.hash)) && k !in Have(s) && k !in s.rs
    ensures Find(xs, k).None?
  {
    hide Find;
    FindIn(xs, k);
  }

  /** The listed children as requests. */
  ghost function MissAsks(missing: seq<(Hash, nat)>, e: Entry): (asks: seq<Sub>)
    ensures |asks| == |missing| && forall i | 0 <= i < |asks| :: asks[i] == Sub(missing[i].0, e, missing[i].1)
  {
    seq(|missing|, i requires 0 <= i < |missing| => Sub(missing[i].0, e, missing[i].1))
  }

  /** The list holds exactly the children that are not stored. */
  ghost predicate Listed(s: State, missing: seq<(Hash, nat)>, refs: seq<Sub>, e: Entry) {
    && (forall i | 0 <= i < |missing| :: Sub(missing[i].0, e, missing[i].1) in refs)
    && (forall x | x in refs :: x.hash in Have(s) || InQueue(missing, x.hash))
  }

  lemma ListedNone(s: State, e: Entry)
    ensures Listed(s, [], [], e)
  {
  }

  lemma ListedStep(s: State, s': State, missing: seq<(Hash, nat)>, missing': seq<(Hash, nat)>, kids: seq<Node>,
                   kid: Node, e: Entry, depth: nat)
    requires Listed(s, missing, RefAsks(kids, e, depth), e) && Have(s') == Have(s)
    requires missing' == missing + if kid.HashRef? && kid.hash !in Have(s) then [(kid.hash, depth)] else []
    ensures Listed(s', missing', RefAsks(kids + [kid], e, depth), e)
  {
    hide Have;
    assert (kids + [kid])[..|kids|] == kids;
    var refs, refs' := RefAsks(kids, e, depth), RefAsks(kids + [kid], e, depth);
    assert refs' == refs + if kid.HashRef? then [Sub(kid.hash, e, depth)] else [];
    forall x | x in refs' ensures x.hash in Have(s') || InQueue(missing', x.hash) {
      if x in refs {
        if InQueue(missing, x.hash) {
          var i :| 0 <= i < |missing| && missing[i].0 == x.hash;
          assert missing'[i] == missing[i];
        }
      } else if kid.hash !in Have(s) {
        assert missing'[|missing|].0 == kid.hash;
      }
    }
    forall i | 0 <= i < |missing'| ensures Sub(missing'[i].0, e, missing'[i].1) in refs' {
      if i < |missing| {
        assert missing'[i] == missing[i] && Sub(missing[i].0, e, missing[i].1) in refs;
      }
    }
  }

  /** The leaves first, then the children that are not stored: together all that the node asks for. */
  lemma ServedListed(a: State, b: State, c: State, xs: seq<Sub>, missing: seq<(Hash, nat)>, kids: seq<Node>, e: Entry,
                     depth: nat)
    requires Served(a, b, xs) && Listed(b, missing, RefAsks(kids, e, depth), e)
    requires Grown(b, c) && Served(b, c, MissAsks(missing, e))
    ensures Served(a, c, xs + RefAsks(kids, e, depth))
  {
    hide Covered, Find, Have, RefAsks, MissAsks, Grown;
    var refs, miss := RefAsks(kids, e, depth), MissAsks(missing, e);
    GrownHave(b, c);
    forall k | k in c.rs && k !in a.rs ensures NewAs(c, xs + refs, k) {
      FindConcat(xs, refs, k);
      if k in b.rs {
        GrownAt(b, c, k);
        assert NewAs(b, xs, k);
      } else {
        assert NewAs(c, miss, k);
        NotAsked(b, xs, k);
        FindIn(miss, k);
        var i :| 0 <= i < |miss| && miss[i] == Find(miss, k).value;
        FindIn(refs, k);
        RefAll(kids, e, depth, miss[i]);
        RefAll(kids, e, depth, Find(refs, k).value);
      }
    }
    forall x | x in xs + refs ensures Met(c, x.hash) {
      if x in xs {
        MetGrown(b, c, x.hash);
      } else if x.hash !in Have(b) {
        var i :| 0 <= i < |missing| && missing[i].0 == x.hash;
        assert miss[i] in miss && Met(c, miss[i].hash);
      }
    }
  }

  // ----- steps that complete requests

  ghost predicate SameRequest(r: Request, r': Request) {
    r'.entry == r.entry && r'.data == r.data && r'.depth == r.depth
  }

  /** Steps that only complete requests: those with data, watched ones as seen. */
  ghost predicate Settled(s: State, s': State) {
    && s'.db == s.db && s.order <= s'.order && s'.rs.Keys <= s.rs.Keys && s.rs.Keys <= s'.rs.Keys + Have(s')
    && (forall h | h in s'.rs :: SameRequest(s.rs[h], s'.rs[h]))
    && (forall h | h in Have(s) :: h in Have(s') && (h in s'.seen <==> h in s.seen))
    && (forall h | h in Have(s') && h !in Have(s) ::
          h in s.rs && s.rs[h].data.Some? && (h in s'.seen <==> Watched(s.rs[h].entry)))
  }

  lemma SettledTrans(a: State, b: State, c: State)
    requires Settled(a, b) && Settled(b, c)
    ensures Settled(a, c)
  {
    hide Have;
  }

  lemma SettledSame(s: State, s': State)
    requires s'.db == s.db && s'.batch == s.batch && s'.order == s.order && s'.seen == s.seen
    requires s'.rs.Keys == s.rs.Keys
    requires forall h | h in s'.rs :: SameRequest(s.rs[h], s'.rs[h])
    ensures Settled(s, s')
  {
  }

  lemma CompletedSettled(cfg: Config, root: Hash, s: State, h: Hash, out: multiset<Hash>)
    requires Inv(cfg, root, s, None, out) && h in s.rs && s.rs[h].data.Some?
    ensures Settled(s, Completed(s, h))
  {
    hide FamilyOk, CountsOk, Decodes, Covered, Known, Honest, Closed, InOrder;
    assert RequestOk(cfg, s, h, None);
  }

  /** commit: the entry is stored, an empty one if its data never came, and its parents are notified in turn. */
  ghost function CommitReq(s: State, h: Hash): (s': State)
    requires h in s.rs
    ensures |s'.rs| < |s.rs|
    decreases |s.rs|, 0
  {
    Fewer(s.rs, h);
    NotifyAll(Completed(s, h), s.rs[h].parents)
  }

  ghost function NotifyAll(s: State, parents: seq<Hash>): (s': State)
    ensures |s'.rs| <= |s.rs|
    decreases |s.rs|, 2, |parents|
  {
    if parents == [] then s else NotifyAll(NotifyP(s, parents[0]), parents[1..])
  }

  ghost function NotifyP(s: State, p: Hash): (s': State)
    ensures |s'.rs| <= |s.rs|
    decreases |s.rs|, 1
  {
    if p !in s.rs then s else
    SameSize(s, p);
    if Recounted(s, p, -1).rs[p].deps == 0 then CommitReq(Recounted(s, p, -1), p) else Recounted(s, p, -1)
  }

  lemma NotifyStep(s: State, parents: seq<Hash>)
    requires parents != []
    ensures NotifyAll(s, parents) == NotifyAll(NotifyP(s, parents[0]), parents[1..])
  {
    hide NotifyP;
  }

  lemma NotifyNone(s: State)
    ensures NotifyAll(s, []) == s
  {
  }

  lemma SameSize(s: State, p: Hash)
    requires p in s.rs
    ensures |Recounted(s, p, -1).rs| == |s.rs|
  {
    assert Recounted(s, p, -1).rs.Keys == s.rs.Keys;
  }

  lemma Fewer(rs: Requests, h: Hash)
    requires h in rs
    ensures |rs - {h}| < |rs| && (rs - {h}).Keys < rs.Keys
  {
    assert (rs - {h}).Keys == rs.Keys - {h};
  }

  // ----- one item

  /** One item processed: requests stay pending or are completed, as seen exactly when they are watched,
      and what the item asks for, and nothing else, is newly requested. */
  ghost predicate Stepped(cfg: Config, s: State, s': State, item: SyncResult) {
    && item.hash in s.rs && s'.db == s.db && s.rs.Keys <= s'.rs.Keys + Have(s')
    && (forall h | h in Have(s) :: h in Have(s') && (h in s'.seen <==> h in s.seen))
    && (forall h | h in Have(s') && h !in Have(s) ::
          && h in s.rs && (h in s'.seen <==> Watched(s.rs[h].entry))
          && (h == item.hash || s.rs[h].data.Some?))
    && (forall h | h in s'.rs && h in s.rs :: SameRequest(Filled(s, item.hash, item.data).rs[h], s'.rs[h]))
    && Served(s, s', ItemAsks(cfg, s, item))
  }

  lemma SteppedGrown(cfg: Config, s: State, s': State, item: SyncResult)
    requires item.hash in s.rs && Grown(Filled(s, item.hash, item.data), s')
    requires Served(Filled(s, item.hash, item.data), s', ItemAsks(cfg, s, item))
    ensures Stepped(cfg, s, s', item)
  {
    hide ItemAsks, Covered, Have, Find;
    var f := Filled(s, item.hash, item.data);
    HaveSame(s, f);
    GrownHave(f, s');
    forall h | h in s.rs ensures h in s'.rs && SameRequest(f.rs[h], s'.rs[h]) {
      assert GrownRequest(f.rs, s'.rs, h);
    }
    forall k | k in s'.rs && k !in s.rs ensures NewAs(s', ItemAsks(cfg, s, item), k) {
      assert k !in f.rs;
    }
  }

  lemma SteppedSettled(cfg: Config, s: State, mid: State, s': State, item: SyncResult)
    requires item.hash in s.rs && Grown(Filled(s, item.hash, item.data), mid)
    requires Stepped(cfg, s, mid, item) && Settled(mid, s')
    ensures Stepped(cfg, s, s', item)
  {
    hide ItemAsks, Covered, Have, Find, Grown;
    var f, asks := Filled(s, item.hash, item.data), ItemAsks(cfg, s, item);
    HaveSame(s, f);
    GrownHave(f, mid);
    forall h | h in s'.rs && h in s.rs ensures SameRequest(f.rs[h], s'.rs[h]) {
      assert SameRequest(mid.rs[h], s'.rs[h]);
    }
    forall h | h in Have(s') && h !in Have(s)
      ensures h in s.rs && (h in s'.seen <==> Watched(s.rs[h].entry)) && (h == item.hash || s.rs[h].data.Some?)
    {
      assert h in mid.rs && mid.rs[h].data.Some?;
      OldData(f, mid, h);
    }
    forall k | k in s'.rs && k !in s.rs ensures NewAs(s', asks, k) {
      assert NewAs(mid, asks, k) && SameRequest(mid.rs[k], s'.rs[k]);
      if k in Have(s') {
        OldData(f, mid, k);
      }
    }
    forall x | x in asks ensures Met(s', x.hash) {
      assert Met(mid, x.hash);
    }
  }

  /** A request that has its data after requests were made had it before. */
  lemma OldData(s: State, s': State, h: Hash)
    requires Grown(s, s') && h in s'.rs && s'.rs[h].data.Some?
    ensures h in s.rs && s.rs[h].entry == s'.rs[h].entry && s.rs[h].data.Some?
  {
    hide Covered;
    if h in s.rs {
      assert GrownRequest(s.rs, s'.rs, h);
    }
  }

  /** The item's data is there, waiting or stored. */
  ghost predicate Taken(s: State, item: SyncResult) {
    item.hash in Have(s) || (item.hash in s.rs && s.rs[item.hash].data == Some(item.data))
  }

  lemma TakenStays(cfg: Config, s: State, s': State, item: SyncResult, x: SyncResult)
    requires Stepped(cfg, s, s', item) && s.rs[item.hash].data.None? && Taken(s, x)
    ensures Taken(s', x)
  {
    hide ItemAsks, Have, Served;
    if x.hash in s.rs && x.hash in s'.rs {
      assert SameRequest(Filled(s, item.hash, item.data).rs[x.hash], s'.rs[x.hash]);
    }
  }

  lemma TakenNow(cfg: Config, s: State, s': State, item: SyncResult)
    requires Stepped(cfg, s, s', item)
    ensures Taken(s', item)
  {
    hide ItemAsks, Have, Served;
    if item.hash in s'.rs {
      assert SameRequest(Filled(s, item.hash, item.data).rs[item.hash], s'.rs[item.hash]);
    }
  }

  // ----- the queue, and that something moves

  /** Every request without data is queued at its depth or has been handed out. */
  ghost predicate Queued(rs: Requests, queue: seq<(Hash, nat)>, handed: set<Hash>) {
    forall h | h in rs && rs[h].data.None? :: h in handed || (h, rs[h].depth) in queue
  }

  ghost predicate InQueue(queue: seq<(Hash, nat)>, h: Hash) {
    exists i :: 0 <= i < |queue| && queue[i].0 == h
  }

  ghost function Pushed(rs: Requests, queue: seq<(Hash, nat)>, h: Hash, depth: nat): seq<(Hash, nat)> {
    if h in rs then queue else queue + [(h, depth)]
  }

  lemma QueuedSame(rs: Requests, rs': Requests, queue: seq<(Hash, nat)>, handed: set<Hash>)
    requires Queued(rs, queue, handed) && rs.Keys == rs'.Keys
    requires forall h | h in rs :: rs[h].data == rs'[h].data && rs[h].depth == rs'[h].depth
    ensures Queued(rs', queue, handed)
  {
  }

  lemma QueuedLess(rs: Requests, h: Hash, queue: seq<(Hash, nat)>, handed: set<Hash>)
    requires Queued(rs, queue, handed)
    ensures Queued(rs - {h}, queue, handed)
  {
  }

  lemma QueuedNew(rs: Requests, h: Hash, r: Request, queue: seq<(Hash, nat)>, handed: set<Hash>)
    requires Queued(rs, queue, handed)
    ensures Queued(rs[h := r], queue + [(h, r.depth)], handed)
  {
    assert (queue + [(h, r.depth)])[|queue|] == (h, r.depth);
  }

  lemma QueuePop(rs: Requests, queue: seq<(Hash, nat)>, handed: set<Hash>, i: nat)
    requires Queued(rs, queue, handed) && i < |queue|
    ensures Queued(rs, queue[..i] + queue[i + 1..], handed + {queue[i].0})
  {
    var q := queue[..i] + queue[i + 1..];
    forall h | h in rs && rs[h].data.None? && h != queue[i].0 && h !in handed ensures (h, rs[h].depth) in q {
      var j :| 0 <= j < |queue| && queue[j] == (h, rs[h].depth);
      assert q[if j < i then j else j - 1] == queue[j];
    }
  }

  lemma QueuePush(queue: seq<(Hash, nat)>, h: Hash, d: nat)
    ensures InQueue(queue + [(h, d)], h)
    ensures forall x :: InQueue(queue, x) ==> InQueue(queue + [(h, d)], x)
  {
    var q := queue + [(h, d)];
    assert q[|queue|].0 == h;
    forall x | InQueue(queue, x) ensures InQueue(q, x) {
      var i :| 0 <= i < |queue| && queue[i].0 == x;
      assert q[i].0 == x;
    }
  }

  /** Popped entries have non-increasing depth, and none left is deeper. */
  ghost predicate DeepestFirst(popped: seq<(Hash, nat)>, queue: seq<(Hash, nat)>) {
    && (forall i, j | 0 <= i < j < |popped| :: popped[i].1 >= popped[j].1)
    && (forall i, j | 0 <= i < |popped| && 0 <= j < |queue| :: popped[i].1 >= queue[j].1)
  }

  lemma NonePopped(queue: seq<(Hash, nat)>)
    ensures DeepestFirst([], queue)
  {
  }

  lemma NoneDeeper(rs: Requests, queue: seq<(Hash, nat)>, handed: set<Hash>, popped: seq<(Hash, nat)>)
    requires Queued(rs, queue, handed) && DeepestFirst(popped, queue)
    ensures forall h, i | h in rs && rs[h].data.None? && h !in handed && 0 <= i < |popped| :: rs[h].depth <= popped[i].1
  {
    forall h, i | h in rs && rs[h].data.None? && h !in handed && 0 <= i < |popped| ensures rs[h].depth <= popped[i].1 {
      var j :| 0 <= j < |queue| && queue[j] == (h, rs[h].depth);
    }
  }

  lemma AllHanded(rs: Requests, queue: seq<(Hash, nat)>, handed: set<Hash>)
    requires Queued(rs, queue, handed)
    ensures queue == [] ==> forall h | h in rs && rs[h].data.None? :: h in handed
  {
  }

  lemma PopDeepest(popped: seq<(Hash, nat)>, queue: seq<(Hash, nat)>, i: nat)
    requires i < |queue| && DeepestFirst(popped, queue) && forall j | 0 <= j < |queue| :: queue[j].1 <= queue[i].1
    ensures DeepestFirst(popped + [queue[i]], queue[..i] + queue[i + 1..])
    ensures multiset(popped) + multiset(queue) == multiset(popped + [queue[i]]) + multiset(queue[..i] + queue[i + 1..])
  {
    assert queue == queue[..i] + [queue[i]] + queue[i + 1..];
  }

  /** Every request that has its data, but for idle, waits for something; and waits only for lower ranks. */
  ghost predicate Moving(cfg: Config, rs: Requests, idle: Option<Hash>) {
    && (forall h | h in rs && rs[h].data.Some? && idle != Some(h) :: rs[h].deps > 0)
    && (forall c | c in rs :: Below(cfg, c, rs[c].parents))
  }

  ghost predicate Below(cfg: Config, c: Hash, parents: seq<Hash>) {
    forall p | p in parents :: cfg.rank(c) < cfg.rank(p)
  }

  lemma MovingMore(cfg: Config, s: State, p: Hash, n: nat, idle: Option<Hash>)
    requires Moving(cfg, s.rs, idle) && p in s.rs
    ensures Moving(cfg, Recounted(s, p, n).rs, idle)
  {
    hide Below;
  }

  /** A parent that is notified may have become idle. */
  lemma MovingOne(cfg: Config, s: State, p: Hash)
    requires Moving(cfg, s.rs, None) && p in s.rs
    ensures Moving(cfg, Recounted(s, p, -1).rs, Some(p))
  {
    hide Below;
  }

  lemma MovingLess(cfg: Config, rs: Requests, h: Hash)
    requires Moving(cfg, rs, Some(h))
    ensures Moving(cfg, rs - {h}, None)
  {
    hide Below;
  }

  lemma MovingAll(cfg: Config, rs: Requests, h: Hash)
    requires Moving(cfg, rs, Some(h)) && h in rs && rs[h].deps > 0
    ensures Moving(cfg, rs, None)
  {
    hide Below;
  }

  lemma ScheduledMoving(cfg: Config, s: State, h: Hash, r: Request, idle: Option<Hash>)
    requires Moving(cfg, s.rs, idle) && r.data.None? && Below(cfg, h, r.parents)
    ensures Moving(cfg, Scheduled(s, h, r).rs, idle)
  {
    hide Below;
    if h in s.rs {
      BelowJoin(cfg, h, s.rs[h].parents, r.parents);
    }
  }

  lemma BelowJoin(cfg: Config, c: Hash, a: seq<Hash>, b: seq<Hash>)
    requires Below(cfg, c, a) && Below(cfg, c, b)
    ensures Below(cfg, c, a + b)
  {
  }

  // ----- registration

  /** All of the bookkeeping. */
  ghost predicate Fine(cfg: Config, root: Hash, s: State, queue: seq<(Hash, nat)>, handed: set<Hash>, cur: Option<Hash>,
                       out: multiset<Hash>) {
    Inv(cfg, root, s, cur, out) && Queued(s.rs, queue, handed) && Moving(cfg, s.rs, cur)
  }

  lemma NewNone(cfg: Config, s: State, h: Hash, r: Request, out: multiset<Hash>)
    requires NewRequest(cfg, s, h, r, out)
    ensures r.data.None?
  {
  }

  lemma ScheduledGrown(cfg: Config, s: State, h: Hash, r: Request, out: multiset<Hash>)
    requires NewRequest(cfg, s, h, r, out)
    ensures Grown(s, Scheduled(s, h, r))
  {
    hide Covered;
    ScheduledCover(s, h, r);
  }

  lemma ScheduleKeeps(cfg: Config, root: Hash, s: State, queue: seq<(Hash, nat)>, handed: set<Hash>, h: Hash,
                      r: Request, cur: Option<Hash>, out: multiset<Hash>)
    requires Fine(cfg, root, s, queue, handed, cur, out) && NewRequest(cfg, s, h, r, out) && Below(cfg, h, r.parents)
    ensures Fine(cfg, root, Scheduled(s, h, r), Pushed(s.rs, queue, h, r.depth), handed, cur, out - multiset(r.parents))
    ensures Grown(s, Scheduled(s, h, r)) && Served(s, Scheduled(s, h, r), [Sub(h, r.entry, r.depth)])
    ensures forall p | p in r.parents :: Covered(Scheduled(s, h, r), p, h)
  {
    hide Inv, Covered, NewRequest, Grown, Queued, Moving, Served;
    NewNone(cfg, s, h, r, out);
    ScheduledOk(cfg, root, s, h, r, cur, out);
    ScheduledMoving(cfg, s, h, r, cur);
    ScheduledGrown(cfg, s, h, r, out);
    ScheduledServed(cfg, s, h, r, out);
    if h in s.rs {
      QueuedSame(s.rs, Scheduled(s, h, r).rs, queue, handed);
    } else {
      QueuedNew(s.rs, h, r, queue, handed);
    }
  }

  lemma ScheduledServed(cfg: Config, s: State, h: Hash, r: Request, out: multiset<Hash>)
    requires NewRequest(cfg, s, h, r, out)
    ensures Served(s, Scheduled(s, h, r), [Sub(h, r.entry, r.depth)])
  {
    var x := Sub(h, r.entry, r.depth);
    assert Find([x], h) == Some(x);
  }

  lemma RecountKeeps(cfg: Config, root: Hash, s: State, queue: seq<(Hash, nat)>, handed: set<Hash>, p: Hash, n: nat,
                     cur: Option<Hash>)
    requires Fine(cfg, root, s, queue, handed, cur, multiset{}) && p in s.rs && s.rs[p].data.Some?
    ensures Fine(cfg, root, Recounted(s, p, n), queue, handed, cur, multiset{}[p := n])
    ensures Grown(s, Recounted(s, p, n)) && Served(s, Recounted(s, p, n), [])
  {
    hide Inv, Covered, Moving, Queued;
    RecountedOk(cfg, root, s, p, n, cur, multiset{});
    QueuedSame(s.rs, Recounted(s, p, n).rs, queue, handed);
    MovingMore(cfg, s, p, n, cur);
  }

  /** hash is pending, below parent if there is one. */
  ghost predicate Attached(s: State, hash: Hash, parent: Hash) {
    hash in s.rs && (parent != ZeroHash ==> Covered(s, parent, hash))
  }

  /** The reference is counted at the parent, and the request scheduled. */
  ghost function Attaching(s: State, x: Sub, parent: Hash): State
    requires parent != ZeroHash ==> parent in s.rs
  {
    if parent == ZeroHash then Scheduled(s, x.hash, Request(None, x.entry, [], x.depth, 0))
    else Scheduled(Recounted(s, parent, 1), x.hash, Request(None, x.entry, [parent], x.depth, 0))
  }

  /** A parent that still waits for its own data must not be named. */
  ghost predicate AttachOk(cfg: Config, s: State, x: Sub, parent: Hash) {
    && Within(x.entry, cfg.entry(x.hash))
    && (parent != ZeroHash ==> parent in s.rs && s.rs[parent].data.Some? && cfg.rank(x.hash) < cfg.rank(parent))
  }

  lemma AttachKeeps(cfg: Config, root: Hash, s: State, queue: seq<(Hash, nat)>, handed: set<Hash>, x: Sub, parent: Hash,
                    cur: Option<Hash>)
    requires Fine(cfg, root, s, queue, handed, cur, multiset{}) && AttachOk(cfg, s, x, parent) && x.hash !in Have(s)
    ensures var s' := Attaching(s, x, parent);
            && Fine(cfg, root, s', Pushed(s.rs, queue, x.hash, x.depth), handed, cur, multiset{})
            && Grown(s, s') && Served(s, s', [x]) && Attached(s', x.hash, parent)
  {
    hide Fine, Covered, Grown, Served, Scheduled;
    var s' := Attaching(s, x, parent);
    if parent == ZeroHash {
      var r := Request(None, x.entry, [], x.depth, 0);
      assert multiset(r.parents) == multiset{};
      ScheduleKeeps(cfg, root, s, queue, handed, x.hash, r, cur, multiset{});
      assert multiset{} - multiset(r.parents) == multiset{};
      ScheduledThere(s, x.hash, r);
    } else {
      var mid, r := Recounted(s, parent, 1), Request(None, x.entry, [parent], x.depth, 0);
      RecountKeeps(cfg, root, s, queue, handed, parent, 1, cur);
      assert multiset{}[parent := 1] == multiset([parent]);
      ScheduleKeeps(cfg, root, mid, queue, handed, x.hash, r, cur, multiset([parent]));
      GrownTrans(s, mid, s');
      ServedTrans(s, mid, s', [], [x]);
      assert [] + [x] == [x];
      assert parent in [parent];
      assert multiset([parent]) - multiset([parent]) == multiset{};
      ScheduledThere(mid, x.hash, r);
    }
  }

  lemma ScheduledThere(s: State, h: Hash, r: Request)
    ensures h in Scheduled(s, h, r).rs
  {
  }

  /** When a registration has nothing to do. */
  ghost predicate Skipped(s: State, x: Sub) {
    || x.hash == EmptyHash(x.entry) || x.hash in s.batch
    || (x.hash in s.db && (x.entry.TrieNode? ==> DecodeNode(Some(x.hash), s.db[x.hash], 0).Ok?))
  }

  ghost function Adding(s: State, x: Sub, parent: Hash): State
    requires parent != ZeroHash && !Skipped(s, x) ==> parent in s.rs
  {
    if Skipped(s, x) then s else Attaching(s, x, parent)
  }

  ghost function AddingQueue(s: State, queue: seq<(Hash, nat)>, x: Sub): seq<(Hash, nat)> {
    if Skipped(s, x) then queue else Pushed(s.rs, queue, x.hash, x.depth)
  }

  /** What a registration does: the entry is stored or pending below its parent, and only it is newly requested. */
  ghost predicate Added(s: State, s': State, x: Sub, parent: Hash) {
    && Grown(s, s') && Served(s, s', Wanted([x]))
    && (x.hash == EmptyHash(x.entry) || x.hash in Have(s') || Attached(s', x.hash, parent))
  }

  ghost predicate AddOk(cfg: Config, s: State, x: Sub, parent: Hash) {
    x.hash != EmptyHash(x.entry) ==> AttachOk(cfg, s, x, parent)
  }

  lemma AddKeeps(cfg: Config, root: Hash, s: State, queue: seq<(Hash, nat)>, handed: set<Hash>, x: Sub, parent: Hash,
                 cur: Option<Hash>)
    requires Fine(cfg, root, s, queue, handed, cur, multiset{}) && AddOk(cfg, s, x, parent)
    ensures var s' := Adding(s, x, parent);
            && Fine(cfg, root, s', AddingQueue(s, queue, x), handed, cur, multiset{}) && Added(s, s', x, parent)
  {
    hide Inv, Queued, Moving, Covered, Grown, DecodeNode, Attaching;
    WantedOne(x);
    if Skipped(s, x) {
      GrownSame(s);
    } else {
      if x.hash in s.db {
        Undecoded(cfg, root, s, cur, x.hash);
      }
      AttachKeeps(cfg, root, s, queue, handed, x, parent, cur);
    }
  }

  lemma WantedOne(x: Sub)
    ensures Wanted([x]) == if x.hash == EmptyHash(x.entry) then [] else [x]
  {
    assert [x][..0] == [];
    assert Wanted([]) == [];
  }

  // ----- the links of one node

  /** The requests of subs are made or not needed. */
  ghost predicate SubsCovered(s: State, h: Hash, subs: seq<Sub>) {
    forall i | 0 <= i < |subs| :: subs[i].hash == EmptyHash(subs[i].entry) || Covered(s, h, subs[i].hash)
  }

  lemma SubsStep(s: State, s': State, h: Hash, subs: seq<Sub>, i: nat)
    requires i < |subs| && SubsCovered(s, h, subs[..i]) && Grown(s, s')
    requires subs[i].hash == EmptyHash(subs[i].entry) || subs[i].hash in Have(s') || Covered(s', h, subs[i].hash)
    ensures SubsCovered(s', h, subs[..i + 1])
  {
    GrownCovers(s, s');
    var done, next := subs[..i], subs[..i + 1];
    forall j | 0 <= j < |next| ensures next[j].hash == EmptyHash(next[j].entry) || Covered(s', h, next[j].hash) {
      if j < i {
        assert next[j] == done[j];
      }
    }
  }

  lemma SubsAll(cfg: Config, s: State, h: Hash, v: Bytes)
    requires SubsCovered(s, h, cfg.leaf(v))
    ensures forall k | LinkSub(cfg, v, k) :: Covered(s, h, k)
  {
    hide Covered;
  }

  /** Listed nodes are missing, and may be requested like h. */
  ghost predicate MissingOk(cfg: Config, s: State, h: Hash, missing: seq<(Hash, nat)>) {
    forall i | 0 <= i < |missing| ::
      && missing[i].0 !in Have(s) && Within(cfg.entry(h), cfg.entry(missing[i].0))
      && cfg.rank(missing[i].0) < cfg.rank(h)
  }

  /** Everything the kid refers to is covered or listed. */
  ghost predicate KidCovered(cfg: Config, s: State, h: Hash, watch: bool, kid: Node, missing: seq<(Hash, nat)>) {
    forall k | KidLink(cfg, watch, kid, k) :: Covered(s, h, k) || InQueue(missing, k)
  }

  ghost predicate KidsCovered(cfg: Config, s: State, h: Hash, watch: bool, kids: seq<Node>,
                              missing: seq<(Hash, nat)>) {
    forall j | 0 <= j < |kids| :: KidCovered(cfg, s, h, watch, kids[j], missing)
  }

  lemma NoKids(cfg: Config, s: State, h: Hash, watch: bool)
    ensures MissingOk(cfg, s, h, []) && KidsCovered(cfg, s, h, watch, [], [])
  {
  }

  lemma KidsStep(cfg: Config, s: State, s': State, h: Hash, w: bool, kids: seq<Node>, kid: Node,
                 missing: seq<(Hash, nat)>, missing': seq<(Hash, nat)>)
    requires KidsCovered(cfg, s, h, w, kids, missing) && Grown(s, s') && missing <= missing'
    requires KidCovered(cfg, s', h, w, kid, missing')
    ensures KidsCovered(cfg, s', h, w, kids + [kid], missing')
  {
    hide Covered, KidLink;
    forall j | 0 <= j < |kids| ensures KidCovered(cfg, s', h, w, kids[j], missing') {
      assert KidCovered(cfg, s, h, w, kids[j], missing);
      forall k | InQueue(missing, k) ensures InQueue(missing', k) {
        var i :| 0 <= i < |missing| && missing[i].0 == k;
        assert missing'[i].0 == k;
      }
    }
    forall j | 0 <= j < |kids + [kid]| ensures KidCovered(cfg, s', h, w, (kids + [kid])[j], missing') {
      assert (kids + [kid])[j] == if j < |kids| then kids[j] else kid;
    }
  }

  lemma KidsKept(cfg: Config, s: State, s': State, h: Hash, w: bool, kids: seq<Node>, missing: seq<(Hash, nat)>)
    requires KidsCovered(cfg, s, h, w, kids, missing) && Grown(s, s')
    ensures KidsCovered(cfg, s', h, w, kids, missing)
  {
    hide Covered, KidLink, InQueue;
    forall j | 0 <= j < |kids| ensures KidCovered(cfg, s', h, w, kids[j], missing) {
      assert KidCovered(cfg, s, h, w, kids[j], missing);
    }
  }

  lemma MissingKept(cfg: Config, s: State, s': State, h: Hash, missing: seq<(Hash, nat)>)
    requires MissingOk(cfg, s, h, missing) && Grown(s, s')
    ensures MissingOk(cfg, s', h, missing)
  {
    hide Covered;
  }

  lemma MissingNew(cfg: Config, s: State, h: Hash, missing: seq<(Hash, nat)>, i: nat, r: Request, out: multiset<Hash>)
    requires MissingOk(cfg, s, h, missing) && i < |missing| && out[h] > 0
    requires r == Request(None, r.entry, [h], missing[i].1, 0) && Within(r.entry, cfg.entry(h))
    ensures NewRequest(cfg, s, missing[i].0, r, out) && Below(cfg, missing[i].0, r.parents)
  {
    assert multiset(r.parents) == multiset{h};
  }

  /** With every listed node scheduled, all links are covered. */
  lemma AllCovered(cfg: Config, s: State, h: Hash, n: Node, missing: seq<(Hash, nat)>)
    requires h in s.rs && s.rs[h].data.Some? && s.rs[h].entry.TrieNode?
    requires KidsCovered(cfg, s, h, s.rs[h].entry.watch, Kids(n), missing)
    requires DecodeNode(Some(h), s.rs[h].data.value, 0) == Ok(n)
    requires forall i | 0 <= i < |missing| :: Covered(s, h, missing[i].0)
    ensures forall k | Link(cfg, Watched(s.rs[h].entry), h, s.rs[h].data.value, k) :: Covered(s, h, k)
  {
    hide DecodeNode, Covered, KidLink;
    var w := s.rs[h].entry.watch;
    forall k | Link(cfg, w, h, s.rs[h].data.value, k) ensures Covered(s, h, k) {
      var i :| 0 <= i < |Kids(n)| && KidLink(cfg, w, Kids(n)[i], k);
      assert KidCovered(cfg, s, h, w, Kids(n)[i], missing);
    }
  }

  // ----- what the invariant gives

  lemma CountNat(cfg: Config, root: Hash, s: State, h: Hash)
    requires Inv(cfg, root, s, Some(h), multiset{}) && h in s.rs
    ensures s.rs[h].deps >= 0
  {
    hide StoreOk, RequestsOk, FamilyOk, Deps;
  }

  lemma EntryOf(cfg: Config, root: Hash, s: State, h: Hash)
    requires Inv(cfg, root, s, None, multiset{}) && h in s.rs
    ensures Within(s.rs[h].entry, cfg.entry(h))
  {
    hide StoreOk, FamilyOk, CountsOk, Decodes, Covered, Known;
    assert RequestOk(cfg, s, h, None);
  }

  lemma InClosed(cfg: Config, db: Store, seen: set<Hash>, h: Hash)
    requires Closed(cfg, db, seen) && h in db && cfg.entry(h).TrieNode?
    ensures DecodeNode(Some(h), db[h], 0).Ok?
  {
    hide DecodeNode, Link, Uniform;
    assert Whole(cfg, h in seen, h, db[h], db.Keys);
  }

  /** A trie node in the database always decodes. */
  lemma Undecoded(cfg: Config, root: Hash, s: State, cur: Option<Hash>, h: Hash)
    requires Inv(cfg, root, s, cur, multiset{}) && cfg.entry(h).TrieNode? && h !in s.batch
    requires h in s.db ==> DecodeNode(Some(h), s.db[h], 0).Err?
    ensures h !in Have(s)
  {
    hide DecodeNode, Closed, Honest, InOrder, RequestsOk, FamilyOk, CountsOk;
    if h in s.db {
      InClosed(cfg, s.db, s.seen, h);
    }
  }

  /** A parent still to be notified is pending, has its data and waits. */
  lemma Waiting(cfg: Config, root: Hash, s: State, rest: multiset<Hash>, p: Hash)
    requires Inv(cfg, root, s, None, rest + multiset{p})
    ensures p in s.rs && s.rs[p].data.Some? && s.rs[p].deps > 0
  {
    hide StoreOk, RequestsOk, Deps;
    assert p in rest + multiset{p};
  }

  lemma StoredOrder(cfg: Config, s: State, i: nat)
    requires StoreOk(cfg, s) && i < |s.order|
    ensures s.order[i] in s.batch
  {
    hide WholeAt, Closed, Honest;
  }

  /** While requests are pending there is one without data, queued or handed out: with every answer that
      comes the synchronisation goes on. */
  lemma {:induction false} NeverStuck(cfg: Config, root: Hash, s: State, queue: seq<(Hash, nat)>, handed: set<Hash>,
                                      h: Hash)
      returns (open: Hash)
    requires Inv(cfg, root, s, None, multiset{}) && Moving(cfg, s.rs, None) && Queued(s.rs, queue, handed) && h in s.rs
    ensures open in s.rs && s.rs[open].data.None? && (open in handed || (open, s.rs[open].depth) in queue)
    decreases cfg.rank(h)
  {
    hide StoreOk, RequestsOk, FamilyOk, Deps;
    if s.rs[h].data.None? {
      open := h;
    } else {
      var c := Waited(s.rs, h);
      assert Below(cfg, c, s.rs[c].parents);
      open := NeverStuck(cfg, root, s, queue, handed, c);
    }
  }

  lemma Waited(rs: Requests, p: Hash) returns (c: Hash)
    requires Deps(rs, p) > 0
    ensures c in rs && p in rs[c].parents
  {
    if forall c | c in rs :: p !in rs[c].parents {
      DepSumNone(rs, rs.Keys, p);
    }
    c :| c in rs && p in rs[c].parents;
  }

  /** Nothing is pending at first, or only the root. */
  lemma StartOk(cfg: Config, root: Hash, db: Store, seen: set<Hash>, watch: bool)
    requires Honest(db) && Closed(cfg, db, seen) && seen <= db.Keys && Within(TrieNode(watch), cfg.entry(root))
    ensures root in db ==> DecodeNode(Some(root), db[root], 0).Ok?
    ensures var s, r := State(db, map[], [], map[], seen), Request(None, TrieNode(watch), [], 0, 0);
            if root == EmptyRoot() || (root in db && DecodeNode(Some(root), db[root], 0).Ok?)
            then Inv(cfg, root, s, None, multiset{})
            else Inv(cfg, root, s.(rs := map[root := r]), None, multiset{})
  {
    hide Honest, Closed, DecodeNode, Covered, Deps;
    var s, r := State(db, map[], [], map[], seen), Request(None, TrieNode(watch), [], 0, 0);
    if root in db {
      assert DecodeNode(Some(root), db[root], 0).Ok? by { InClosed(cfg, db, seen, root); }
    }
    assert StoreOk(cfg, s) by { EmptyHonest(); }
    assert Inv(cfg, EmptyRoot(), s, None, multiset{});
    if root != EmptyRoot() && !(root in db && DecodeNode(Some(root), db[root], 0).Ok?) {
      Undecoded(cfg, EmptyRoot(), s, None, root);
      ScheduledOk(cfg, EmptyRoot(), s, root, r, None, multiset{});
      assert multiset{} - multiset(r.parents) == multiset{};
      assert Scheduled(s, root, r).rs == map[root := r];
    }
  }

  lemma SettledHas(s: State, s': State, h: Hash)
    requires Settled(s, s') && h in Have(s)
    ensures h in Have(s') && |s'.order| >= |s.order|
  {
  }

  lemma SteppedDb(cfg: Config, s: State, s': State, item: SyncResult)
    requires Stepped(cfg, s, s', item)
    ensures s'.db == s.db
  {
  }

  lemma WantedNone()
    ensures Wanted([]) == []
  {
  }

  lemma WantedNext(subs: seq<Sub>, i: nat)
    requires i < |subs|
    ensures Wanted(subs[..i + 1]) == Wanted(subs[..i]) + Wanted([subs[i]])
  {
    WantedOne(subs[i]);
    assert subs[..i + 1][..i] == subs[..i];
  }

  lemma NoAsks(cfg: Config, watch: bool, e: Entry, depth: nat)
    ensures LeafAsks(cfg, watch, []) == [] && RefAsks([], e, depth) == []
  {
  }

  lemma LeafAsksNext(cfg: Config, watch: bool, kids: seq<Node>, kid: Node)
    ensures LeafAsks(cfg, watch, kids + [kid]) == LeafAsks(cfg, watch, kids) + KidAsks(cfg, watch, kid)
  {
    assert (kids + [kid])[..|kids|] == kids;
  }

  lemma MissNext(missing: seq<(Hash, nat)>, i: nat, e: Entry)
    requires i < |missing|
    ensures MissAsks(missing[..i + 1], e) == MissAsks(missing[..i], e) + [Sub(missing[i].0, e, missing[i].1)]
  {
  }

  lemma NothingMissing(s: State, e: Entry)
    ensures Served(s, s, MissAsks([], e))
  {
  }

  /** A node that has its data and waits for nothing is ready to be completed. */
  lemma FineCovered(cfg: Config, root: Hash, s: State, queue: seq<(Hash, nat)>, handed: set<Hash>, h: Hash)
    requires Fine(cfg, root, s, queue, handed, Some(h), multiset{}) && h in s.rs && s.rs[h].data.Some?
    requires forall k | Link(cfg, Watched(s.rs[h].entry), h, s.rs[h].data.value, k) :: Covered(s, h, k)
    ensures Inv(cfg, root, s, None, multiset{}) && Queued(s.rs, queue, handed) && Moving(cfg, s.rs, Some(h))
  {
    hide Inv, Queued, Moving, Link, Covered;
    CoveredOk(cfg, root, s, h, multiset{});
  }

  lemma FineWaiting(cfg: Config, root: Hash, s: State, queue: seq<(Hash, nat)>, handed: set<Hash>, h: Hash)
    requires Fine(cfg, root, s, queue, handed, Some(h), multiset{})
    requires h in s.rs && s.rs[h].data.Some? && s.rs[h].deps > 0
    requires forall k | Link(cfg, Watched(s.rs[h].entry), h, s.rs[h].data.value, k) :: Covered(s, h, k)
    ensures Fine(cfg, root, s, queue, handed, None, multiset{})
  {
    hide Inv, Queued, Moving, Link, Covered;
    CoveredOk(cfg, root, s, h, multiset{});
    MovingAll(cfg, s.rs, h);
  }

  lemma CountFine(cfg: Config, root: Hash, s: State, queue: seq<(Hash, nat)>, handed: set<Hash>, h: Hash)
    requires Fine(cfg, root, s, queue, handed, Some(h), multiset{}) && h in s.rs
    ensures s.rs[h].deps >= 0
  {
    hide Inv, Queued, Moving;
    CountNat(cfg, root, s, h);
  }

  lemma RestParents(parents: seq<Hash>, i: nat, out: multiset<Hash>)
    requires i < |parents|
    ensures out + multiset(parents[i..]) == (out + multiset(parents[i + 1..])) + multiset{parents[i]}
    ensures parents[i..] != [] && parents[i..][0] == parents[i] && parents[i..][1..] == parents[i + 1..]
  {
    assert parents[i..] == [parents[i]] + parents[i + 1..];
  }

  /** The queue may change as long as it holds what was not handed out. */
  lemma FineQueue(cfg: Config, root: Hash, s: State, queue: seq<(Hash, nat)>, handed: set<Hash>)
    requires Fine(cfg, root, s, queue, handed, None, multiset{})
    ensures Queued(s.rs, queue, handed)
    ensures forall queue', handed' | Queued(s.rs, queue', handed') ::
              Fine(cfg, root, s, queue', handed', None, multiset{})
  {
    hide Inv, Queued, Moving;
  }
}
