/** The trie synchroniser (trie/sync.go): schedules the retrieval of missing nodes and
    completes a node once everything below it is complete. */
module Sync {
  import opened Common
  import opened Rlp
  import opened Trees
  import opened Merkle
  import opened Nodes
  import opened Represent
  import opened SyncState
  import opened SyncSteps
  import MerkleTrie

  datatype Outcome = Accepted(committed: bool) | NotRequested | AlreadyProcessed | Undecodable(error: DecodeError)

  /** Why an item is not taken. */
  ghost predicate Refused(s: State, item: SyncResult, r: Outcome) {
    match r
    case Accepted(_) => false
    case NotRequested => item.hash !in s.rs
    case AlreadyProcessed => item.hash in s.rs && s.rs[item.hash].data.Some?
    case Undecodable(e) =>
      item.hash in s.rs && s.rs[item.hash].data.None? && DecodeNode(Some(item.hash), item.data, 0) == Err(e)
  }

  class TrieSync {
    var db: Store
    var batch: Store
    var order: seq<Hash>
    var requests: Requests
    var queue: seq<(Hash, nat)>
    const leaf: Bytes -> seq<Sub>
    ghost const root: Hash
    ghost const cfg: Config
    ghost var handed: set<Hash>
    ghost var seen: set<Hash>

    ghost function S(): State
      reads this
    {
      State(db, batch, order, requests, seen)
    }

    ghost predicate InvAt(cur: Option<Hash>, out: multiset<Hash>)
      reads this
    {
      cfg.leaf == leaf && Fine(cfg, root, S(), queue, handed, cur, out)
    }

    ghost predicate Counted(cur: Option<Hash>, out: multiset<Hash>)
      reads this
    {
      cfg.leaf == leaf && Inv(cfg, root, S(), cur, out) && Queued(requests, queue, handed)
    }

    ghost predicate Valid()
      reads this
    {
      InvAt(None, multiset{})
    }

    /** A synchroniser for the trie under root, over a database that is closed. */
    constructor (root: Hash, db: Store, leaf: Bytes -> seq<Sub>, watch: bool, ghost cfg: Config, ghost seen: set<Hash>)
      requires Honest(db) && Closed(cfg, db, seen) && seen <= db.Keys
      requires cfg.leaf == leaf && Within(TrieNode(watch), cfg.entry(root))
      ensures Valid() && this.root == root && this.db == db && this.cfg == cfg && this.seen == seen
      ensures batch == map[] && order == [] && handed == {}
      ensures requests == (if root == EmptyRoot() || root in db then map[]
                           else map[root := Request(None, TrieNode(watch), [], 0, 0)])
    {
      this.db, batch, order, requests, queue, this.leaf := db, map[], [], map[], [], leaf;
      this.root, this.cfg, handed, this.seen := root, cfg, {}, seen;
      new;
      hide Inv, DecodeNode, Honest, Closed;
      StartOk(cfg, root, db, seen, watch);
      if root != EmptyRoot() && !(root in db && DecodeNode(Some(root), db[root], 0).Ok?) {
        queue := queue + [(root, 0)];
        requests := requests[root := Request(None, TrieNode(watch), [], 0, 0)];
      }
      assert requests == map[] || queue[0].0 == root;
    }

    /** Registers a trie, below the request parent unless that is the zero hash. A parent that still waits for its own
        data is accepted, but the bookkeeping is only kept when it does not. */
    method AddSubTrie(hash: Hash, depth: nat, parent: Hash, watch: bool, ghost cur: Option<Hash>)
      requires parent != ZeroHash && !Skipped(S(), Sub(hash, TrieNode(watch), depth)) ==> parent in requests
      modifies this`requests, this`queue
      ensures S() == Adding(old(S()), Sub(hash, TrieNode(watch), depth), parent)
      ensures queue == AddingQueue(old(S()), old(queue), Sub(hash, TrieNode(watch), depth))
      ensures old(InvAt(cur, multiset{}) && AddOk(cfg, S(), Sub(hash, TrieNode(watch), depth), parent)) ==>
                InvAt(cur, multiset{}) && Added(old(S()), S(), Sub(hash, TrieNode(watch), depth), parent)
    {
      hide Fine, DecodeNode, Added, AddOk, Attaching;
      ghost var x := Sub(hash, TrieNode(watch), depth);
      if InvAt(cur, multiset{}) && AddOk(cfg, S(), x, parent) {
        AddKeeps(cfg, root, S(), queue, handed, x, parent, cur);
      }
      if hash == EmptyRoot() || hash in batch {
        return;
      }
      if hash in db && DecodeNode(Some(hash), db[hash], 0).Ok? {
        return;
      }
      Attach(hash, TrieNode(watch), depth, parent);
    }

    /** Registers data that is stored as it is. */
    method AddRawEntry(hash: Hash, depth: nat, parent: Hash, ghost cur: Option<Hash>)
      requires parent != ZeroHash && !Skipped(S(), Sub(hash, RawEntry, depth)) ==> parent in requests
      modifies this`requests, this`queue
      ensures S() == Adding(old(S()), Sub(hash, RawEntry, depth), parent)
      ensures queue == AddingQueue(old(S()), old(queue), Sub(hash, RawEntry, depth))
      ensures old(InvAt(cur, multiset{}) && AddOk(cfg, S(), Sub(hash, RawEntry, depth), parent)) ==>
                InvAt(cur, multiset{}) && Added(old(S()), S(), Sub(hash, RawEntry, depth), parent)
    {
      hide Fine, DecodeNode, Added, AddOk, Attaching;
      ghost var x := Sub(hash, RawEntry, depth);
      if InvAt(cur, multiset{}) && AddOk(cfg, S(), x, parent) {
        AddKeeps(cfg, root, S(), queue, handed, x, parent, cur);
      }
      if hash == Keccak([]) || hash in batch || hash in db {
        return;
      }
      Attach(hash, RawEntry, depth, parent);
    }

    /** The common end of both: count the reference at the parent, then schedule. */
    method Attach(hash: Hash, entry: Entry, depth: nat, parent: Hash)
      requires parent != ZeroHash ==> parent in requests
      modifies this`requests, this`queue
      ensures S() == Attaching(old(S()), Sub(hash, entry, depth), parent)
      ensures queue == Pushed(old(requests), old(queue), hash, depth)
    {
      hide Scheduled;
      if parent == ZeroHash {
        Schedule(hash, Request(None, entry, [], depth, 0));
      } else {
        requests := requests[parent := requests[parent].(deps := requests[parent].deps + 1)];
        Schedule(hash, Request(None, entry, [parent], depth, 0));
      }
    }

    /** Adds the request to the pending ones, or only its parents if the hash is pending already. */
    method Schedule(h: Hash, r: Request)
      modifies this`requests, this`queue
      ensures S() == Scheduled(old(S()), h, r) && queue == Pushed(old(requests), old(queue), h, r.depth)
    {
      if h in requests {
        requests := requests[h := requests[h].(parents := requests[h].parents + r.parents)];
      } else {
        queue := queue + [(h, r.depth)];
        requests := requests[h := r];
      }
    }

    /** Completes a request and, through the counts, the parents that waited for nothing else. */
    method Complete(h: Hash, ghost out: multiset<Hash>)
      requires Counted(None, out) && Moving(cfg, requests, Some(h))
      requires h in requests && requests[h].data.Some? && requests[h].deps == 0
      modifies this`batch, this`order, this`requests, this`seen
      ensures InvAt(None, out) && requests.Keys < old(requests.Keys) && Settled(old(S()), S())
      ensures S() == CommitReq(old(S()), h) && h in Have(S()) && |order| > |old(order)|
      decreases |requests|, 1
    {
      hide Inv, Queued, Moving, Settled, NotifyAll;
      CompletedSettled(cfg, root, S(), h, out);
      CompletedOk(cfg, root, S(), h, out);
      MovingLess(cfg, requests, h);
      QueuedLess(requests, h, queue, handed);
      var r := requests[h];
      batch := batch[h := r.data.value];
      order := order + [h];
      requests := requests - {h};
      if Watched(r.entry) {
        seen := seen + {h};
      }
      Fewer(old(requests), h);
      ghost var mid := S();
      Notify(r.parents, out);
      SettledTrans(old(S()), mid, S());
      SettledHas(mid, S(), h);
    }

    /** The parent loop of commit. */
    method Notify(parents: seq<Hash>, ghost out: multiset<Hash>)
      requires InvAt(None, out + multiset(parents))
      modifies this`batch, this`order, this`requests, this`seen
      ensures InvAt(None, out) && requests.Keys <= old(requests.Keys) && Settled(old(S()), S())
      ensures S() == NotifyAll(old(S()), parents)
      decreases |requests|, 3
    {
      hide TrieSync.InvAt, Settled, NotifyP, NotifyAll;
      SettledSame(S(), S());
      var i := 0;
      assert parents[0..] == parents;
      while i < |parents|
        invariant 0 <= i <= |parents| && InvAt(None, out + multiset(parents[i..]))
        invariant requests.Keys <= old(requests.Keys) && Settled(old(S()), S())
        invariant NotifyAll(old(S()), parents) == NotifyAll(S(), parents[i..])
      {
        ghost var mid := S();
        ghost var rest := out + multiset(parents[i + 1..]);
        RestParents(parents, i, out);
        SubsetSize(requests.Keys, old(requests.Keys));
        NotifyStep(mid, parents[i..]);
        NotifyOne(parents[i], rest);
        SettledTrans(old(S()), mid, S());
        i := i + 1;
      }
      assert parents[i..] == [];
      NotifyNone(S());
      assert out + multiset(parents[i..]) == out;
    }

    method NotifyOne(p: Hash, ghost rest: multiset<Hash>)
      requires InvAt(None, rest + multiset{p})
      modifies this`batch, this`order, this`requests, this`seen
      ensures InvAt(None, rest) && requests.Keys <= old(requests.Keys) && Settled(old(S()), S())
      ensures S() == NotifyP(old(S()), p)
      decreases |requests|, 2
    {
      hide Inv, Queued, Moving, Settled, CommitReq;
      Waiting(cfg, root, S(), rest, p);
      MovingOne(cfg, S(), p);
      RecountedOk(cfg, root, S(), p, -1, None, rest + multiset{p});
      assert (rest + multiset{p})[p := (rest + multiset{p})[p] - 1] == rest;
      QueuedSame(requests, Recounted(S(), p, -1).rs, queue, handed);
      requests := requests[p := requests[p].(deps := requests[p].deps - 1)];
      assert requests.Keys == old(requests.Keys);
      SubsetSize(requests.Keys, old(requests.Keys));
      ghost var mid := S();
      SettledSame(old(S()), mid);
      if requests[p].deps == 0 {
        Complete(p, rest);
        SettledTrans(old(S()), mid, S());
      } else {
        MovingAll(cfg, requests, p);
      }
    }

    /** The sub-requests of one leaf. */
    method Callback(v: Bytes, h: Hash)
      requires InvAt(Some(h), multiset{}) && h in requests && requests[h].data.Some? && h != ZeroHash
      requires SubsUniform(cfg, h, v)
      modifies this`requests, this`queue
      ensures InvAt(Some(h), multiset{}) && Grown(old(S()), S()) && Served(old(S()), S(), Wanted(cfg.leaf(v)))
      ensures forall k | LinkSub(cfg, v, k) :: Covered(S(), h, k)
    {
      hide Fine, Covered, Grown, LinkSub, Served, Wanted, Adding, AddingQueue;
      var subs := leaf(v);
      GrownSame(S());
      ServedNone(S(), S());
      WantedNone();
      var i := 0;
      while i < |subs|
        invariant 0 <= i <= |subs| && InvAt(Some(h), multiset{}) && Grown(old(S()), S())
        invariant h in requests && requests[h].data.Some?
        invariant SubsCovered(S(), h, subs[..i]) && Served(old(S()), S(), Wanted(subs[..i]))
      {
        ghost var mid := S();
        assert SubUniform(cfg, h, subs[i]);
        if subs[i].entry.RawEntry? {
          AddRawEntry(subs[i].hash, subs[i].depth, h, Some(h));
        } else {
          AddSubTrie(subs[i].hash, subs[i].depth, h, subs[i].entry.watch, Some(h));
        }
        GrownTrans(old(S()), mid, S());
        GrownAt(mid, S(), h);
        SubsStep(mid, S(), h, subs, i);
        ServedTrans(old(S()), mid, S(), Wanted(subs[..i]), Wanted([subs[i]]));
        WantedNext(subs, i);
        i := i + 1;
      }
      assert subs[..i] == subs;
      SubsAll(cfg, S(), h, v);
    }

    /** Requests what the leaves of n ask for, and lists the referenced nodes that are missing. */
    method Children(h: Hash, n: Node) returns (missing: seq<(Hash, nat)>)
      requires InvAt(Some(h), multiset{}) && h in requests && requests[h].data.Some? && h != ZeroHash
      requires requests[h].entry.TrieNode? && Within(requests[h].entry, cfg.entry(h)) && Uniform(cfg, h, n)
      modifies this`requests, this`queue
      ensures InvAt(Some(h), multiset{}) && Grown(old(S()), S()) && MissingOk(cfg, S(), h, missing)
      ensures KidsCovered(cfg, S(), h, old(requests)[h].entry.watch, Kids(n), missing)
      ensures Served(old(S()), S(), LeafAsks(cfg, old(requests)[h].entry.watch, Kids(n)))
      ensures var r := old(requests)[h];
              Listed(S(), missing, RefAsks(Kids(n), r.entry, KidDepth(r.depth, n)), r.entry)
    {
      hide Fine, Covered, Grown, KidsCovered, MissingOk, SubsUniform, Served, Listed, LeafAsks, RefAsks, Have;
      var watch := requests[h].entry.watch;
      var kids := Kids(n);
      var depth := requests[h].depth + if n.Short? then |n.key| else 1;
      ghost var e := requests[h].entry;
      GrownSame(S());
      missing := [];
      NoKids(cfg, S(), h, watch);
      ServedNone(S(), S());
      NoAsks(cfg, watch, e, depth);
      ListedNone(S(), e);
      var i := 0;
      assert kids[..i] == [];
      while i < |kids|
        invariant 0 <= i <= |kids| && InvAt(Some(h), multiset{}) && Grown(old(S()), S())
        invariant h in requests && requests[h].data.Some?
        invariant MissingOk(cfg, S(), h, missing) && KidsCovered(cfg, S(), h, watch, kids[..i], missing)
        invariant Served(old(S()), S(), LeafAsks(cfg, watch, kids[..i]))
        invariant Listed(S(), missing, RefAsks(kids[..i], e, depth), e)
      {
        ghost var mid, before := S(), missing;
        missing := Child(h, kids[i], watch, depth, missing);
        GrownTrans(old(S()), mid, S());
        GrownAt(mid, S(), h);
        GrownHave(mid, S());
        KidsStep(cfg, mid, S(), h, watch, kids[..i], kids[i], before, missing);
        ServedTrans(old(S()), mid, S(), LeafAsks(cfg, watch, kids[..i]), KidAsks(cfg, watch, kids[i]));
        LeafAsksNext(cfg, watch, kids[..i], kids[i]);
        ListedStep(mid, S(), before, missing, kids[..i], kids[i], e, depth);
        assert kids[..i + 1] == kids[..i] + [kids[i]];
        i := i + 1;
      }
      assert kids[..i] == kids;
    }

    /** One child: a watched leaf is handed to the callback, a missing node is listed. */
    method Child(h: Hash, kid: Node, watch: bool, depth: nat, missing: seq<(Hash, nat)>)
        returns (missing': seq<(Hash, nat)>)
      requires InvAt(Some(h), multiset{}) && h in requests && requests[h].data.Some? && h != ZeroHash
      requires kid.HashRef? ==> Within(cfg.entry(h), cfg.entry(kid.hash)) && cfg.rank(kid.hash) < cfg.rank(h)
      requires kid.Value? && watch ==> SubsUniform(cfg, h, kid.value)
      requires MissingOk(cfg, S(), h, missing)
      modifies this`requests, this`queue
      ensures InvAt(Some(h), multiset{}) && Grown(old(S()), S()) && Served(old(S()), S(), KidAsks(cfg, watch, kid))
      ensures MissingOk(cfg, S(), h, missing')
      ensures missing' == missing + if kid.HashRef? && kid.hash !in Have(S()) then [(kid.hash, depth)] else []
      ensures KidCovered(cfg, S(), h, watch, kid, missing')
    {
      hide Fine, Grown, InQueue, LinkSub, Served, Wanted;
      GrownSame(S());
      ServedNone(S(), S());
      missing' := missing;
      if watch && kid.Value? {
        Callback(kid.value, h);
        GrownHave(old(S()), S());
      }
      if kid.HashRef? {
        if kid.hash !in batch && kid.hash !in db {
          missing' := missing + [(kid.hash, depth)];
          QueuePush(missing, kid.hash, depth);
        }
      }
    }

    /** One retrieved item. Where decoding panics the source has not changed anything yet; beyond that the state is as
        valid as before, nothing is said of it. */
    method ProcessOne(item: SyncResult) returns (r: Outcome)
      requires Valid() && ResultOk(cfg, item)
      modifies this`batch, this`order, this`requests, this`queue, this`seen
      ensures Valid()
      ensures r.NotRequested? <==> item.hash !in old(requests)
      ensures r.AlreadyProcessed? <==> item.hash in old(requests) && old(requests)[item.hash].data.Some?
      ensures r.Undecodable? <==>
              && item.hash in old(requests) && old(requests)[item.hash].data.None?
              && old(requests)[item.hash].entry.TrieNode? && DecodeNode(Some(item.hash), item.data, 0).Err?
      ensures r.Undecodable? ==> DecodeNode(Some(item.hash), item.data, 0) == Err(r.error)
      ensures !r.Accepted? && r != Undecodable(EmptyKeyPanic) ==> S() == old(S())
      ensures r.Accepted? ==> Stepped(cfg, old(S()), S(), item)
      ensures r.Accepted? ==> if r.committed then item.hash in Have(S()) && |order| > |old(order)|
                              else item.hash in requests && batch == old(batch) && order == old(order)
    {
      hide Inv, Queued, DecodeNode, Uniform, Grown, Covered, MissingOk, KidsCovered, Settled, Stepped, Have, Served;
      hide Listed, LeafAsks, RefAsks, CommitReq;
      var h := item.hash;
      if h !in requests {
        return NotRequested;
      }
      if requests[h].data.Some? {
        return AlreadyProcessed;
      }
      EntryOf(cfg, root, S(), h);
      if requests[h].entry.RawEntry? {
        Fill(h, item.data);
        ghost var mid := S();
        Complete(h, multiset{});
        GrownSame(mid);
        ServedNone(mid, mid);
        SteppedGrown(cfg, old(S()), mid, item);
        SteppedSettled(cfg, old(S()), mid, S(), item);
        return Accepted(true);
      }
      var n := DecodeNode(Some(h), item.data, 0);
      if n.Err? {
        return Undecodable(n.error);
      }
      Fill(h, item.data);
      ghost var mid := S();
      var missing := Children(h, n.value);
      GrownAt(mid, S(), h);
      var done := Expand(h, n.value, missing, old(S()), item);
      return Accepted(done);
    }

    /** Retrieved items in turn, up to the first that fails. */
    method Process(results: seq<SyncResult>) returns (committed: bool, index: nat, r: Outcome)
      requires Valid() && forall i | 0 <= i < |results| :: ResultOk(cfg, results[i])
      modifies this`batch, this`order, this`requests, this`queue, this`seen
      ensures Valid() && db == old(db)
      ensures r.Accepted? ==> index == 0 && forall i | 0 <= i < |results| :: Taken(S(), results[i])
      ensures !r.Accepted? ==> index < |results|
      ensures !r.Accepted? && r != Undecodable(EmptyKeyPanic) ==>
                (forall i | 0 <= i < index :: Taken(S(), results[i])) && Refused(S(), results[index], r)
      ensures r != Undecodable(EmptyKeyPanic) ==> (committed <==> |order| > |old(order)|)
    {
      hide TrieSync.Valid, ResultOk, Taken, Stepped, DecodeNode, Have;
      committed, r := false, Accepted(false);
      index := 0;
      while index < |results|
        invariant 0 <= index <= |results| && Valid() && db == old(db)
        invariant forall i | 0 <= i < index :: Taken(S(), results[i])
        invariant (committed <==> |order| > |old(order)|) && |order| >= |old(order)|
      {
        ghost var s := S();
        r := ProcessOne(results[index]);
        if !r.Accepted? {
          return;
        }
        SteppedDb(cfg, s, S(), results[index]);
        forall i | 0 <= i < index ensures Taken(S(), results[i]) {
          TakenStays(cfg, s, S(), results[index], results[i]);
        }
        TakenNow(cfg, s, S(), results[index]);
        committed := committed || r.committed;
        index := index + 1;
      }
      return committed, 0, Accepted(committed);
    }

    /** Hands out up to max hashes to retrieve (all for 0), deepest first: the hashes of the popped entries. */
    method Missing(max: nat) returns (hashes: seq<Hash>, ghost popped: seq<(Hash, nat)>)
      requires Valid()
      modifies this`queue, this`handed
      ensures Valid() && handed == old(handed) + (set h | h in hashes)
      ensures (max == 0 ==> queue == []) && (max > 0 ==> |hashes| <= max && (|hashes| < max ==> queue == []))
      ensures forall h | h in requests && requests[h].data.None? && queue == [] :: h in handed
      ensures multiset(old(queue)) == multiset(popped) + multiset(queue)
      ensures |hashes| == |popped| && forall i | 0 <= i < |popped| :: hashes[i] == popped[i].0
      ensures DeepestFirst(popped, queue)
      ensures forall h, i | h in requests && requests[h].data.None? && h !in handed && 0 <= i < |popped| ::
                requests[h].depth <= popped[i].1
    {
      hide Fine, Queued, DeepestFirst;
      hashes, popped := [], [];
      NonePopped(queue);
      FineQueue(cfg, root, S(), queue, handed);
      while |queue| > 0 && (max == 0 || |hashes| < max)
        invariant Queued(requests, queue, handed) && (max > 0 ==> |hashes| <= max)
        invariant handed == old(handed) + (set h | h in hashes)
        invariant |hashes| == |popped| && forall i | 0 <= i < |popped| :: hashes[i] == popped[i].0
        invariant multiset(old(queue)) == multiset(popped) + multiset(queue) && DeepestFirst(popped, queue)
        decreases |queue|
      {
        var i := Deepest();
        hashes := hashes + [queue[i].0];
        QueuePop(requests, queue, handed, i);
        PopDeepest(popped, queue, i);
        popped := popped + [queue[i]];
        handed := handed + {queue[i].0};
        queue := queue[..i] + queue[i + 1..];
      }
      AllHanded(requests, queue, handed);
      NoneDeeper(requests, queue, handed, popped);
    }

    /** The position of an entry of greatest depth. */
    method Deepest() returns (i: nat)
      requires |queue| > 0
      ensures i < |queue| && forall j | 0 <= j < |queue| :: queue[j].1 <= queue[i].1
    {
      i := 0;
      var k := 1;
      while k < |queue|
        invariant 0 <= i < k <= |queue|
        invariant forall j | 0 <= j < k :: queue[j].1 <= queue[i].1
      {
        if queue[k].1 > queue[i].1 {
          i := k;
        }
        k := k + 1;
      }
    }

    /** Writes the completed entries to the database in order of completion, as many as it accepts. Each write leaves it
        closed. */
    method Commit(accepts: nat) returns (written: nat, ok: bool)
      requires Valid()
      modifies this`db, this`batch, this`order
      ensures ok <==> |old(order)| <= accepts
      ensures written == if ok then |old(order)| else accepts
      ensures Valid() && written <= |old(order)| && db == Flushed(old(S()), written).db
      ensures forall i | 0 <= i <= written :: Closed(cfg, Flushed(old(S()), i).db, seen)
      ensures ok ==> written == |old(order)| && batch == map[] && order == [] && db.Keys == old(Have(S()))
      ensures !ok ==> batch == old(batch) && order == old(order)
    {
      hide StoreOk, RequestsOk, FamilyOk, CountsOk, RootOk, Closed, Queued, Flushed, Have;
      ghost var s := S();
      var i := 0;
      FlushedNone(s);
      FlushedOk(cfg, root, s, 0);
      while i < |order|
        invariant 0 <= i <= |order| && i <= accepts && S() == Flushed(s, i)
        invariant Inv(cfg, root, S(), None, multiset{})
        invariant forall j | 0 <= j <= i :: Closed(cfg, Flushed(s, j).db, seen)
        modifies this`db
      {
        if i == accepts {
          return i, false;
        }
        StoredOrder(cfg, s, i);
        FlushedStep(s, i);
        FlushedOk(cfg, root, s, i + 1);
        db := db[order[i] := batch[order[i]]];
        i := i + 1;
      }
      ClearedOk(cfg, root, s);
      batch, order := map[], [];
      return i, true;
    }

    method Fill(h: Hash, data: Bytes)
      requires Valid() && h in requests && requests[h].data.None?
      requires Keccak(data) == h && Known(data) && Decodes(cfg, h, data)
      modifies this`requests
      ensures Counted(if cfg.entry(h).RawEntry? then None else Some(h), multiset{}) && Moving(cfg, requests, Some(h))
      ensures S() == Filled(old(S()), h, data) && requests[h].deps == 0
    {
      hide Inv, Known, Decodes, Below;
      FilledOk(cfg, root, S(), h, data, multiset{});
      requests := requests[h := requests[h].(data := Some(data))];
    }

    /** Completes a node that waits for nothing, or schedules what it waits for. */
    method Expand(h: Hash, n: Node, missing: seq<(Hash, nat)>, ghost s: State, ghost item: SyncResult)
        returns (done: bool)
      requires InvAt(Some(h), multiset{}) && h in requests && requests[h].data.Some?
      requires requests[h].entry.TrieNode? && Within(requests[h].entry, cfg.entry(h))
      requires DecodeNode(Some(h), requests[h].data.value, 0) == Ok(n)
      requires MissingOk(cfg, S(), h, missing)
      requires KidsCovered(cfg, S(), h, requests[h].entry.watch, Kids(n), missing)
      requires h in s.rs && item == SyncResult(h, requests[h].data.value) && Grown(Filled(s, h, item.data), S())
      requires Served(Filled(s, h, item.data), S(), LeafAsks(cfg, requests[h].entry.watch, Kids(n)))
      requires var r := requests[h];
               Listed(S(), missing, RefAsks(Kids(n), r.entry, KidDepth(r.depth, n)), r.entry)
      modifies this`batch, this`order, this`requests, this`queue, this`seen
      ensures Valid() && Stepped(cfg, s, S(), item)
      ensures if done then h in Have(S()) && |order| > |old(order)|
              else h in requests && batch == old(batch) && order == old(order)
    {
      hide Fine, DecodeNode, Grown, Covered, MissingOk, KidsCovered, Settled, Stepped, Have, Served, Listed, CommitReq;
      hide LeafAsks, RefAsks, MissAsks;
      ghost var f, start := Filled(s, h, item.data), S();
      ghost var r, kids := requests[h], Kids(n);
      ghost var xs, depth := LeafAsks(cfg, r.entry.watch, kids), KidDepth(r.depth, n);
      GrownAt(f, start, h);
      if |missing| == 0 && requests[h].deps == 0 {
        AllCovered(cfg, S(), h, n, missing);
        FineCovered(cfg, root, start, queue, handed, h);
        Complete(h, multiset{});
        GrownSame(start);
        NothingMissing(start, r.entry);
        ServedListed(f, start, start, xs, missing, kids, r.entry, depth);
        SteppedGrown(cfg, s, start, item);
        SteppedSettled(cfg, s, start, S(), item);
        return true;
      }
      CountFine(cfg, root, start, queue, handed, h);
      RecountKeeps(cfg, root, start, queue, handed, h, |missing|, Some(h));
      requests := requests[h := requests[h].(deps := requests[h].deps + |missing|)];
      ghost var mid := S();
      GrownAt(start, mid, h);
      MissingKept(cfg, start, mid, h, missing);
      ScheduleAll(h, missing);
      GrownTrans(start, mid, S());
      ServedTrans(start, mid, S(), [], MissAsks(missing, r.entry));
      assert [] + MissAsks(missing, r.entry) == MissAsks(missing, r.entry);
      GrownAt(start, S(), h);
      KidsKept(cfg, start, S(), h, r.entry.watch, kids, missing);
      ServedListed(f, start, S(), xs, missing, kids, r.entry, depth);
      GrownTrans(f, start, S());
      SteppedGrown(cfg, s, S(), item);
      AllCovered(cfg, S(), h, n, missing);
      GrownAt(mid, S(), h);
      FineWaiting(cfg, root, S(), queue, handed, h);
      return false;
    }

    method ScheduleAll(h: Hash, missing: seq<(Hash, nat)>)
      requires InvAt(Some(h), multiset{}[h := |missing|]) && h in requests
      requires requests[h].entry.TrieNode? && Within(requests[h].entry, cfg.entry(h))
      requires MissingOk(cfg, S(), h, missing)
      modifies this`requests, this`queue
      ensures InvAt(Some(h), multiset{}) && Grown(old(S()), S())
      ensures Served(old(S()), S(), MissAsks(missing, old(requests)[h].entry))
      ensures forall i | 0 <= i < |missing| :: Covered(S(), h, missing[i].0)
    {
      hide Fine, Grown, Covered, MissingOk, NewRequest, Below, Served, MissAsks, Scheduled, Pushed;
      var entry := requests[h].entry;
      GrownSame(S());
      ServedNone(S(), S());
      var i := 0;
      assert missing[..i] == [];
      while i < |missing|
        invariant 0 <= i <= |missing| && InvAt(Some(h), multiset{}[h := |missing| - i]) && Grown(old(S()), S())
        invariant MissingOk(cfg, S(), h, missing) && Served(old(S()), S(), MissAsks(missing[..i], entry))
        invariant forall j | 0 <= j < i :: Covered(S(), h, missing[j].0)
      {
        ghost var mid, out := S(), multiset{}[h := |missing| - i];
        var r := Request(None, entry, [h], missing[i].1, 0);
        MissingNew(cfg, mid, h, missing, i, r, out);
        ScheduleKeeps(cfg, root, mid, queue, handed, missing[i].0, r, Some(h), out);
        Schedule(missing[i].0, r);
        assert h in r.parents;
        assert out - multiset(r.parents) == multiset{}[h := |missing| - (i + 1)];
        GrownTrans(old(S()), mid, S());
        ServedTrans(old(S()), mid, S(), MissAsks(missing[..i], entry), [Sub(missing[i].0, entry, missing[i].1)]);
        MissNext(missing, i, entry);
        MissingKept(cfg, mid, S(), h, missing);
        GrownCovers(mid, S());
        i := i + 1;
      }
      assert missing[..i] == missing;
      assert multiset{}[h := 0] == multiset{};
    }
  }

  /** When nothing is pending and everything is written, the whole trie under the root is in the
      database, whatever was watched. */
  lemma SyncComplete(cfg: Config, root: Hash, s: State, t: Tree)
    requires Inv(cfg, root, s, None, multiset{}) && s.rs == map[] && s.batch == map[]
    requires Canon(t) && IsNode(t) && KnownTree(t) && TreeHash(t) == root
    requires cfg.entry(root).TrieNode? && Known(Encode(Str([])))
    ensures Stored(t, s.db, true)
    ensures Closed(cfg, s.db, s.seen)
  {
    hide Canon, KnownTree, Stored, Honest, Closed, InOrder, Deps, TreeHash, Known;
    MerkleTrie.NotEmptyRoot(t);
    ClosedStores(cfg, s.db, s.seen, t);
  }

  /** In a closed database what the leaves of a seen node ask for is there as well. */
  lemma SubStored(cfg: Config, db: Store, seen: set<Hash>, h: Hash, n: Node, i: nat, sub: Sub)
    requires Closed(cfg, db, seen) && h in db && h in seen
    requires cfg.entry(h).TrieNode? && DecodeNode(Some(h), db[h], 0) == Ok(n)
    requires i < |Kids(n)| && Kids(n)[i].Value? && sub in cfg.leaf(Kids(n)[i].value) && sub.hash != EmptyHash(sub.entry)
    ensures sub.hash in db
  {
    hide DecodeNode;
    assert Whole(cfg, h in seen, h, db[h], db.Keys);
    var subs := cfg.leaf(Kids(n)[i].value);
    var j :| 0 <= j < |subs| && subs[j] == sub;
    assert KidLink(cfg, true, Kids(n)[i], sub.hash);
    assert Link(cfg, true, h, db[h], sub.hash);
  }
}
