/** Whole runs of the synchroniser (trie/sync.go): which nodes of a trie that is registered with a
    callback have their leaves shown to it. */
module SyncRuns {
  import opened Common
  import opened Rlp
  import opened Trees
  import opened Merkle
  import opened Nodes
  import opened Represent
  import opened SyncState
  import opened SyncSteps
  import opened Sync
  import MerkleTrie

  /** What a caller does. Retrieved data that makes the decoder panic ends a run. */
  datatype Act =
    | AddTrie(hash: Hash, depth: nat, parent: Hash, watch: bool)
    | AddRaw(hash: Hash, depth: nat, parent: Hash)
    | Deliver(item: SyncResult)
    | Flush(accepts: nat)

  ghost predicate ActOk(cfg: Config, act: Act) {
    match act
    case AddTrie(h, _, p, w) =>
      h != EmptyRoot() ==> Within(TrieNode(w), cfg.entry(h)) && (p != ZeroHash ==> cfg.rank(h) < cfg.rank(p))
    case AddRaw(h, _, p) =>
      h != Keccak([]) ==> cfg.entry(h).RawEntry? && (p != ZeroHash ==> cfg.rank(h) < cfg.rank(p))
    case Deliver(item) => ResultOk(cfg, item) && DecodeNode(Some(item.hash), item.data, 0) != Err(EmptyKeyPanic)
    case Flush(_) => true
  }

  /** A parent that is named is pending with its data. */
  predicate Attachable(rs: Requests, parent: Hash) {
    parent == ZeroHash || (parent in rs && rs[parent].data.Some?)
  }

  /** The item answers an open request. */
  ghost predicate Takes(s: State, item: SyncResult) {
    && item.hash in s.rs && s.rs[item.hash].data.None?
    && (s.rs[item.hash].entry.RawEntry? || DecodeNode(Some(item.hash), item.data, 0).Ok?)
  }

  /** What the act asks for in this state, in order. */
  ghost function ActAsks(cfg: Config, s: State, act: Act): seq<Sub> {
    match act
    case AddTrie(h, d, p, w) => if Attachable(s.rs, p) then Wanted([Sub(h, TrieNode(w), d)]) else []
    case AddRaw(h, d, p) => if Attachable(s.rs, p) then Wanted([Sub(h, RawEntry, d)]) else []
    case Deliver(item) => if Takes(s, item) then ItemAsks(cfg, s, item) else []
    case Flush(_) => []
  }

  ghost predicate Next(cfg: Config, s: State, act: Act, s': State) {
    match act
    case AddTrie(_, _, p, _) => Adds(s, s', p, ActAsks(cfg, s, act))
    case AddRaw(_, _, p) => Adds(s, s', p, ActAsks(cfg, s, act))
    case Deliver(item) => if Takes(s, item) then Stepped(cfg, s, s', item) else s' == s
    case Flush(n) =>
      && s'.rs == s.rs && Have(s') == Have(s) && s'.seen == s.seen
      && s'.db == Flushed(s, if |s.order| <= n then |s.order| else n).db
      && (if |s.order| <= n then s'.batch == map[] && s'.order == [] else s'.batch == s.batch && s'.order == s.order)
  }

  ghost predicate Adds(s: State, s': State, parent: Hash, asks: seq<Sub>) {
    if Attachable(s.rs, parent) then Grown(s, s') && Served(s, s', asks) else s' == s
  }

  /** Nothing stored is pending. */
  ghost predicate Apart(s: State) {
    forall h | h in s.rs :: h !in Have(s)
  }

  ghost predicate IsRun(cfg: Config, ss: seq<State>, acts: seq<Act>) {
    |ss| == |acts| + 1 && forall i | 0 <= i < |acts| :: Apart(ss[i]) && Next(cfg, ss[i], acts[i], ss[i + 1])
  }

  // ----- the callback along a run

  /** k is pending without callback, or was completed without. */
  ghost predicate Lost(s: State, k: Hash) {
    (k in s.rs && !Watched(s.rs[k].entry)) || (k in Have(s) && k !in s.seen)
  }

  /** The act is the first to ask for k, and does so without callback. It can be told before the call. */
  ghost predicate Spoils(cfg: Config, s: State, act: Act, k: Hash) {
    !Met(s, k) && Find(ActAsks(cfg, s, act), k).Some? && !Watched(Find(ActAsks(cfg, s, act), k).value.entry)
  }

  /** What an act that asks for this does to k. */
  ghost predicate Effect(s: State, s': State, asks: seq<Sub>, k: Hash) {
    if Met(s, k) then Met(s', k) && (Lost(s', k) <==> Lost(s, k))
    else if Find(asks, k).Some? then Met(s', k) && (Lost(s', k) <==> !Watched(Find(asks, k).value.entry))
    else !Met(s', k)
  }

  lemma GrownEffect(s: State, s': State, asks: seq<Sub>, k: Hash)
    requires Grown(s, s') && Served(s, s', asks)
    ensures Effect(s, s', asks, k)
  {
    hide Covered, Find, Have;
    GrownHave(s, s');
    FindIn(asks, k);
    if k in s.rs {
      assert GrownRequest(s.rs, s'.rs, k);
    } else if k in s'.rs {
      assert NewAs(s', asks, k);
    }
    assert Find(asks, k).Some? ==> Met(s', Find(asks, k).value.hash);
  }

  lemma SteppedEffect(cfg: Config, s: State, s': State, item: SyncResult, k: Hash)
    requires Stepped(cfg, s, s', item) && Apart(s)
    ensures Effect(s, s', ItemAsks(cfg, s, item), k)
  {
    hide Find, Have, ItemAsks;
    var asks := ItemAsks(cfg, s, item);
    FindIn(asks, k);
    if k in s.rs && k in s'.rs {
      assert SameRequest(Filled(s, item.hash, item.data).rs[k], s'.rs[k]);
    } else if k in s'.rs {
      assert NewAs(s', asks, k);
    }
    assert Find(asks, k).Some? ==> Met(s', Find(asks, k).value.hash);
  }

  lemma NextEffect(cfg: Config, s: State, act: Act, s': State, k: Hash)
    requires Next(cfg, s, act, s') && Apart(s)
    ensures Effect(s, s', ActAsks(cfg, s, act), k)
  {
    hide Grown, Served, Stepped, Have, Wanted, ItemAsks, Takes, Apart;
    var asks := ActAsks(cfg, s, act);
    match act
    case AddTrie(_, _, p, _) =>
      if Attachable(s.rs, p) {
        GrownEffect(s, s', asks, k);
      }
    case AddRaw(_, _, p) =>
      if Attachable(s.rs, p) {
        GrownEffect(s, s', asks, k);
      }
    case Deliver(item) =>
      if Takes(s, item) {
        SteppedEffect(cfg, s, s', item, k);
      }
    case Flush(_) =>
  }

  /** One of the first n acts spoils k. */
  ghost predicate Spoilt(cfg: Config, ss: seq<State>, acts: seq<Act>, n: nat, k: Hash)
    requires n <= |acts| && n <= |ss|
  {
    exists i :: 0 <= i < n && Spoils(cfg, ss[i], acts[i], k)
  }

  /** A hash is lost if and only if it was at the start or an act spoils it; nothing brings it back. */
  lemma {:induction false} RunLost(cfg: Config, ss: seq<State>, acts: seq<Act>, n: nat, k: Hash)
    requires IsRun(cfg, ss, acts) && n <= |acts|
    ensures Lost(ss[n], k) <==> Lost(ss[0], k) || Spoilt(cfg, ss, acts, n, k)
    decreases n
  {
    hide Next, Met, Find, ActAsks, Have, Apart;
    if n > 0 {
      RunLost(cfg, ss, acts, n - 1, k);
      assert Next(cfg, ss[n - 1], acts[n - 1], ss[n]);
      NextEffect(cfg, ss[n - 1], acts[n - 1], ss[n], k);
      LostMet(ss[n - 1], k);
      LostMet(ss[n], k);
      assert Spoilt(cfg, ss, acts, n, k) <==>
             Spoilt(cfg, ss, acts, n - 1, k) || Spoils(cfg, ss[n - 1], acts[n - 1], k);
    }
  }

  lemma LostMet(s: State, k: Hash)
    ensures Lost(s, k) ==> Met(s, k)
  {
  }

  /** What is pending or stored stays pending or stored, and keeps its callback or its lack of one. */
  lemma {:induction false} RunMet(cfg: Config, ss: seq<State>, acts: seq<Act>, m: nat, n: nat, k: Hash)
    requires IsRun(cfg, ss, acts) && m <= n <= |acts| && Met(ss[m], k)
    ensures Met(ss[n], k) && (Lost(ss[n], k) <==> Lost(ss[m], k))
    decreases n
  {
    hide Next, Met, Find, ActAsks, Lost, Apart;
    if n > m {
      RunMet(cfg, ss, acts, m, n - 1, k);
      assert Next(cfg, ss[n - 1], acts[n - 1], ss[n]);
      NextEffect(cfg, ss[n - 1], acts[n - 1], ss[n], k);
    }
  }

  /** The first request decides: a stored entry is seen if and only if the act that first asked for it did so with
      a callback. */
  lemma FirstDecides(cfg: Config, ss: seq<State>, acts: seq<Act>, j: nat, k: Hash)
    requires IsRun(cfg, ss, acts) && j < |acts| && !Met(ss[j], k) && Find(ActAsks(cfg, ss[j], acts[j]), k).Some?
    requires var s := ss[|acts|]; k in Have(s) && k !in s.rs
    ensures k in ss[|acts|].seen <==> Watched(Find(ActAsks(cfg, ss[j], acts[j]), k).value.entry)
  {
    hide Next, Met, Find, ActAsks, Have, Apart;
    assert Next(cfg, ss[j], acts[j], ss[j + 1]);
    NextEffect(cfg, ss[j], acts[j], ss[j + 1], k);
    RunMet(cfg, ss, acts, j + 1, |acts|, k);
  }

  /** A child that no leaf of its parent asks for is requested like its parent. Once both are stored, it is seen if and
      only if its parent is. */
  lemma ChildLikeParent(cfg: Config, ss: seq<State>, acts: seq<Act>, j: nat, k: Hash)
    requires IsRun(cfg, ss, acts) && j < |acts| && acts[j].Deliver? && Takes(ss[j], acts[j].item) && !Met(ss[j], k)
    requires var r, n := ss[j].rs[acts[j].item.hash], DecodeNode(Some(acts[j].item.hash), acts[j].item.data, 0);
             && r.entry.TrieNode? && n.Ok? && HashRef(k) in Kids(n.value)
             && Find(LeafAsks(cfg, Watched(r.entry), Kids(n.value)), k).None?
    requires var s := ss[|acts|]; s.rs == map[] && k in Have(s) && acts[j].item.hash in Have(s)
    ensures k in ss[|acts|].seen <==> acts[j].item.hash in ss[|acts|].seen
  {
    hide Next, Met, Find, Have, DecodeNode, LeafAsks, RefAsks;
    var h := acts[j].item.hash;
    var r, n := ss[j].rs[h], DecodeNode(Some(h), acts[j].item.data, 0).value;
    var refs := RefAsks(Kids(n), r.entry, KidDepth(r.depth, n));
    FindConcat(LeafAsks(cfg, Watched(r.entry), Kids(n)), refs, k);
    var i :| 0 <= i < |Kids(n)| && Kids(n)[i] == HashRef(k);
    RefThere(Kids(n), r.entry, KidDepth(r.depth, n), i);
    FindIn(refs, k);
    RefAll(Kids(n), r.entry, KidDepth(r.depth, n), Find(refs, k).value);
    FirstDecides(cfg, ss, acts, j, k);
    PendingMet(ss[j], h);
    RunMet(cfg, ss, acts, j, |acts|, h);
  }

  lemma PendingMet(s: State, h: Hash)
    requires h in s.rs
    ensures Met(s, h)
  {
  }

  lemma {:induction false} RefThere(kids: seq<Node>, e: Entry, depth: nat, i: nat)
    requires i < |kids| && kids[i].HashRef?
    ensures Sub(kids[i].hash, e, depth) in RefAsks(kids, e, depth)
  {
    if i < |kids| - 1 {
      RefThere(kids[..|kids| - 1], e, depth, i);
    }
  }

  // ----- the trie that was registered

  /** A node of t is stored under k on its own. */
  ghost predicate StoredNode(t: Tree, k: Hash, top: bool)
    requires Canon(t)
  {
    || (IsNode(t) && (top || Big(t)) && k == TreeHash(t))
    || (t.Ext? && StoredNode(t.child, k, false))
    || (t.Branch? && exists i :: 0 <= i < 17 && StoredNode(t.children[i], k, false))
  }

  lemma {:induction false} NodeStored(t: Tree, k: Hash, db: Store, top: bool)
    requires Canon(t) && Stored(t, db, top) && StoredNode(t, k, top)
    ensures k in db
    decreases t
  {
    hide TreeHash, Big, Blob;
    if t.Ext? && StoredNode(t.child, k, false) {
      NodeStored(t.child, k, db, false);
    } else if t.Branch? && exists i :: 0 <= i < 17 && StoredNode(t.children[i], k, false) {
      var i :| 0 <= i < 17 && StoredNode(t.children[i], k, false);
      NodeStored(t.children[i], k, db, false);
    }
  }

  /** Whatever the leaves of the node under k ask for is stored. */
  ghost predicate LeavesStored(cfg: Config, db: Store, k: Hash)
    requires k in db
  {
    var n := DecodeNode(Some(k), db[k], 0);
    n.Ok? ==> forall x | x in LeafAsks(cfg, true, Kids(n.value)) :: x.hash in db
  }

  lemma SeenLeaves(cfg: Config, db: Store, seen: set<Hash>, k: Hash)
    requires Closed(cfg, db, seen) && k in db && k in seen && cfg.entry(k).TrieNode?
    ensures LeavesStored(cfg, db, k)
  {
    hide DecodeNode, LeafAsks, Decodes;
    assert Whole(cfg, true, k, db[k], db.Keys);
    var n := DecodeNode(Some(k), db[k], 0);
    if n.Ok? {
      forall x | x in LeafAsks(cfg, true, Kids(n.value)) ensures x.hash in db {
        AskLinks(cfg, Kids(n.value), x);
        var i :| 0 <= i < |Kids(n.value)| && KidLink(cfg, true, Kids(n.value)[i], x.hash);
        assert Link(cfg, true, k, db[k], x.hash);
      }
    }
  }

  lemma {:induction false} AskLinks(cfg: Config, kids: seq<Node>, x: Sub)
    requires x in LeafAsks(cfg, true, kids)
    ensures exists i :: 0 <= i < |kids| && KidLink(cfg, true, kids[i], x.hash)
  {
    hide KidLink, KidAsks;
    var n := |kids| - 1;
    if x in LeafAsks(cfg, true, kids[..n]) {
      AskLinks(cfg, kids[..n], x);
      var i :| 0 <= i < n && KidLink(cfg, true, kids[..n][i], x.hash);
      assert KidLink(cfg, true, kids[i], x.hash);
    } else {
      KidAskLinks(cfg, kids[n], x);
    }
  }

  lemma KidAskLinks(cfg: Config, kid: Node, x: Sub)
    requires x in KidAsks(cfg, true, kid)
    ensures KidLink(cfg, true, kid, x.hash)
  {
    WantedIn(cfg.leaf(kid.value), x);
  }

  lemma {:induction false} WantedIn(subs: seq<Sub>, x: Sub)
    requires x in Wanted(subs)
    ensures x in subs && x.hash != EmptyHash(x.entry)
  {
    if x in Wanted(subs[..|subs| - 1]) {
      WantedIn(subs[..|subs| - 1], x);
    }
  }

  /** The exact condition. A trie is registered with a callback and the run goes on until nothing is pending and all is
      written. Then every node of it is stored, and a node has its leaves shown, and what they ask for stored, if and
      only if it was not lost at the registration and no act of the run is the first to ask for it without callback. */
  lemma CallbackExact(cfg: Config, root: Hash, ss: seq<State>, acts: seq<Act>, t: Tree, depth: nat)
    requires IsRun(cfg, ss, acts) && |acts| > 0 && Canon(t) && IsNode(t) && KnownTree(t)
    requires acts[0] == AddTrie(TreeHash(t), depth, ZeroHash, true)
    requires var s := ss[|acts|]; Inv(cfg, root, s, None, multiset{}) && s.rs == map[] && s.batch == map[]
    requires Known(Encode(Str([]))) && forall k | StoredNode(t, k, true) :: cfg.entry(k).TrieNode?
    ensures forall k | StoredNode(t, k, true) ::
              var s := ss[|acts|];
              && k in s.db && (k in s.seen ==> LeavesStored(cfg, s.db, k))
              && (k in s.seen <==> !Lost(ss[0], k) && !Spoilt(cfg, ss, acts, |acts|, k))
  {
    hide Canon, KnownTree, StoredNode, TreeHash, Inv, Next, LeavesStored, Spoilt, Closed, Stored;
    var s, h := ss[|acts|], TreeHash(t);
    TopNode(t);
    RegisteredMet(cfg, ss, acts, t, depth);
    RunMet(cfg, ss, acts, 1, |acts|, h);
    EndClosed(cfg, root, s);
    ClosedStores(cfg, s.db, s.seen, t);
    forall k | StoredNode(t, k, true)
      ensures k in s.db && (k in s.seen ==> LeavesStored(cfg, s.db, k))
      ensures k in s.seen <==> !Lost(ss[0], k) && !Spoilt(cfg, ss, acts, |acts|, k)
    {
      NodeStored(t, k, s.db, true);
      RunLost(cfg, ss, acts, |acts|, k);
      if k in s.seen {
        SeenLeaves(cfg, s.db, s.seen, k);
      }
    }
  }

  lemma TopNode(t: Tree)
    requires Canon(t) && IsNode(t)
    ensures StoredNode(t, TreeHash(t), true)
  {
    hide TreeHash, Big;
  }

  lemma EndClosed(cfg: Config, root: Hash, s: State)
    requires Inv(cfg, root, s, None, multiset{})
    ensures Honest(s.db) && Closed(cfg, s.db, s.seen)
  {
    hide RequestsOk, FamilyOk, CountsOk, RootOk, InOrder, Honest, Closed;
  }

  lemma RegisteredMet(cfg: Config, ss: seq<State>, acts: seq<Act>, t: Tree, depth: nat)
    requires IsRun(cfg, ss, acts) && |acts| > 0 && Canon(t) && IsNode(t) && KnownTree(t)
    requires acts[0] == AddTrie(TreeHash(t), depth, ZeroHash, true) && Known(Encode(Str([])))
    ensures Met(ss[1], TreeHash(t))
  {
    hide Canon, KnownTree, TreeHash, Known, Grown, Met, NewAs, Stepped;
    MerkleTrie.NotEmptyRoot(t);
    var x := Sub(TreeHash(t), TrieNode(true), depth);
    WantedOne(x);
    assert Next(cfg, ss[0], acts[0], ss[1]);
    assert x in Wanted([x]);
  }

  // ----- a condition known before the run

  /** A request without callback is for a hash in plain, and a raw entry is asked for as such. */
  ghost predicate AskTidy(cfg: Config, plain: iset<Hash>, x: Sub) {
    (x.entry.RawEntry? ==> cfg.entry(x.hash).RawEntry?) && (x.entry == TrieNode(false) ==> x.hash in plain)
  }

  /** Whatever is registered without callback, or asked for without by a leaf, and all that is below it, is in plain. */
  ghost predicate ActTidy(cfg: Config, plain: iset<Hash>, act: Act) {
    match act
    case AddTrie(h, d, _, w) => AskTidy(cfg, plain, Sub(h, TrieNode(w), d))
    case AddRaw(h, d, _) => h != Keccak([]) ==> AskTidy(cfg, plain, Sub(h, RawEntry, d))
    case Deliver(item) => ItemTidy(cfg, plain, item)
    case Flush(_) => true
  }

  ghost predicate ItemTidy(cfg: Config, plain: iset<Hash>, item: SyncResult) {
    var n := DecodeNode(Some(item.hash), item.data, 0);
    n.Ok? ==>
      && (item.hash in plain ==> forall k | HashRef(k) in Kids(n.value) :: k in plain)
      && (forall x | x in LeafAsks(cfg, true, Kids(n.value)) :: AskTidy(cfg, plain, x))
  }

  ghost predicate PlainIn(s: State, plain: iset<Hash>) {
    forall h | h in s.rs && s.rs[h].entry == TrieNode(false) :: h in plain
  }

  lemma AsksTidy(cfg: Config, plain: iset<Hash>, s: State, act: Act, x: Sub)
    requires PlainIn(s, plain) && ActTidy(cfg, plain, act) && x in ActAsks(cfg, s, act)
    ensures AskTidy(cfg, plain, x)
  {
    hide DecodeNode, LeafAsks, RefAsks, Wanted;
    match act
    case AddTrie(h, d, p, w) =>
      WantedIn([Sub(h, TrieNode(w), d)], x);
    case AddRaw(h, d, p) =>
      WantedIn([Sub(h, RawEntry, d)], x);
    case Deliver(item) =>
      var r, n := s.rs[item.hash], DecodeNode(Some(item.hash), item.data, 0).value;
      NoneAsked(cfg, Kids(n));
      if x !in LeafAsks(cfg, Watched(r.entry), Kids(n)) {
        RefAll(Kids(n), r.entry, KidDepth(r.depth, n), x);
      }
  }

  lemma {:induction false} NoneAsked(cfg: Config, kids: seq<Node>)
    ensures LeafAsks(cfg, false, kids) == []
  {
    if kids != [] {
      NoneAsked(cfg, kids[..|kids| - 1]);
    }
  }

  lemma PlainNext(cfg: Config, plain: iset<Hash>, s: State, act: Act, s': State)
    requires PlainIn(s, plain) && ActTidy(cfg, plain, act) && Next(cfg, s, act, s')
    ensures PlainIn(s', plain)
  {
    hide ActTidy, AskTidy, ActAsks, Covered, Find, Have, Next;
    forall h | h in s'.rs && s'.rs[h].entry == TrieNode(false) ensures h in plain {
      var asks := ActAsks(cfg, s, act);
      NextEntry(cfg, s, act, s', h);
      if h !in s.rs {
        FindIn(asks, h);
        AsksTidy(cfg, plain, s, act, Find(asks, h).value);
        TidyPlain(cfg, plain, Find(asks, h).value);
      }
    }
  }

  lemma TidyPlain(cfg: Config, plain: iset<Hash>, x: Sub)
    requires AskTidy(cfg, plain, x)
    ensures x.entry == TrieNode(false) ==> x.hash in plain
    ensures cfg.entry(x.hash).TrieNode? && !Watched(x.entry) ==> x.hash in plain
  {
  }

  /** A request keeps its entry and its depth; a new one has those of the first ask. */
  lemma NextEntry(cfg: Config, s: State, act: Act, s': State, h: Hash)
    requires Next(cfg, s, act, s') && h in s'.rs
    ensures h in s.rs ==> s'.rs[h].entry == s.rs[h].entry && s'.rs[h].depth == s.rs[h].depth
    ensures h !in s.rs ==> Find(ActAsks(cfg, s, act), h) == Some(Sub(h, s'.rs[h].entry, s'.rs[h].depth))
  {
    hide Covered, Find, Have, Wanted, ItemAsks;
    match act
    case AddTrie(_, _, p, _) =>
      if Attachable(s.rs, p) {
        ServedEntry(s, s', ActAsks(cfg, s, act), h);
      }
    case AddRaw(_, _, p) =>
      if Attachable(s.rs, p) {
        ServedEntry(s, s', ActAsks(cfg, s, act), h);
      }
    case Deliver(item) =>
      if Takes(s, item) {
        if h in s.rs {
          assert SameRequest(Filled(s, item.hash, item.data).rs[h], s'.rs[h]);
        } else {
          assert NewAs(s', ItemAsks(cfg, s, item), h);
        }
      }
    case Flush(_) =>
  }

  lemma ServedEntry(s: State, s': State, asks: seq<Sub>, h: Hash)
    requires Grown(s, s') && Served(s, s', asks) && h in s'.rs
    ensures h in s.rs ==> s'.rs[h].entry == s.rs[h].entry && s'.rs[h].depth == s.rs[h].depth
    ensures h !in s.rs ==> Find(asks, h) == Some(Sub(h, s'.rs[h].entry, s'.rs[h].depth))
  {
    hide Covered, Find, Have;
    if h in s.rs {
      assert GrownRequest(s.rs, s'.rs, h);
    } else {
      assert NewAs(s', asks, h);
    }
  }

  lemma {:induction false} PlainRun(cfg: Config, plain: iset<Hash>, ss: seq<State>, acts: seq<Act>, n: nat)
    requires IsRun(cfg, ss, acts) && n <= |acts| && PlainIn(ss[0], plain)
    requires forall i | 0 <= i < |acts| :: ActTidy(cfg, plain, acts[i])
    ensures PlainIn(ss[n], plain)
    decreases n
  {
    hide PlainIn, ActTidy, Next, Apart;
    if n > 0 {
      PlainRun(cfg, plain, ss, acts, n - 1);
      assert Next(cfg, ss[n - 1], acts[n - 1], ss[n]);
      PlainNext(cfg, plain, ss[n - 1], acts[n - 1], ss[n]);
    }
  }

  lemma NeverSpoilt(cfg: Config, plain: iset<Hash>, ss: seq<State>, acts: seq<Act>, k: Hash)
    requires IsRun(cfg, ss, acts) && PlainIn(ss[0], plain) && k !in plain && cfg.entry(k).TrieNode?
    requires forall i | 0 <= i < |acts| :: ActTidy(cfg, plain, acts[i])
    ensures !Spoilt(cfg, ss, acts, |acts|, k)
  {
    hide PlainIn, ActTidy, Next, ActAsks, Find, Apart, AskTidy;
    forall i | 0 <= i < |acts| ensures !Spoils(cfg, ss[i], acts[i], k) {
      var asks := ActAsks(cfg, ss[i], acts[i]);
      PlainRun(cfg, plain, ss, acts, i);
      FindIn(asks, k);
      if Find(asks, k).Some? {
        AsksTidy(cfg, plain, ss[i], acts[i], Find(asks, k).value);
        TidyPlain(cfg, plain, Find(asks, k).value);
      }
    }
  }

  /** A trie is registered with a callback when none of its nodes is pending without one or stored unseen, and nothing
      that is ever asked for without callback has a node of it below it. Then, once nothing is pending and all is
      written, all its nodes are stored and seen, and so is all that their leaves ask for. */
  lemma CallbackReaches(cfg: Config, root: Hash, ss: seq<State>, acts: seq<Act>, t: Tree, depth: nat, plain: iset<Hash>)
    requires IsRun(cfg, ss, acts) && |acts| > 0 && Canon(t) && IsNode(t) && KnownTree(t)
    requires acts[0] == AddTrie(TreeHash(t), depth, ZeroHash, true)
    requires var s := ss[|acts|]; Inv(cfg, root, s, None, multiset{}) && s.rs == map[] && s.batch == map[]
    requires Known(Encode(Str([]))) && forall k | StoredNode(t, k, true) :: cfg.entry(k).TrieNode?
    requires PlainIn(ss[0], plain) && forall i | 0 <= i < |acts| :: ActTidy(cfg, plain, acts[i])
    requires forall k | StoredNode(t, k, true) :: k !in plain && !Lost(ss[0], k)
    ensures forall k | StoredNode(t, k, true) ::
              var s := ss[|acts|]; k in s.db && k in s.seen && LeavesStored(cfg, s.db, k)
  {
    hide Canon, KnownTree, StoredNode, TreeHash, Inv, Next, LeavesStored, Spoilt, Lost, ActTidy, PlainIn, Apart;
    CallbackExact(cfg, root, ss, acts, t, depth);
    forall k | StoredNode(t, k, true) ensures !Spoilt(cfg, ss, acts, |acts|, k) {
      NeverSpoilt(cfg, plain, ss, acts, k);
    }
  }

  // ----- the class makes such runs

  method Drive(ts: TrieSync, acts: seq<Act>) returns (ghost ss: seq<State>)
    requires ts.Valid() && forall i | 0 <= i < |acts| :: ActOk(ts.cfg, acts[i])
    modifies ts
    ensures ts.Valid() && IsRun(ts.cfg, ss, acts) && ss[0] == old(ts.S()) && ss[|acts|] == ts.S()
  {
    hide TrieSync.Valid, ActOk, Next;
    ss := [ts.S()];
    var i := 0;
    assert acts[..i] == [];
    while i < |acts|
      invariant 0 <= i <= |acts| && ts.Valid() && |ss| == i + 1 && ss[0] == old(ts.S()) && ss[i] == ts.S()
      invariant forall j | 0 <= j < i :: Apart(ss[j]) && Next(ts.cfg, ss[j], acts[j], ss[j + 1])
    {
      Do(ts, acts[i]);
      ss := ss + [ts.S()];
      i := i + 1;
    }
  }

  method Do(ts: TrieSync, act: Act)
    requires ts.Valid() && ActOk(ts.cfg, act)
    modifies ts
    ensures ts.Valid() && Apart(old(ts.S())) && Next(ts.cfg, old(ts.S()), act, ts.S())
  {
    hide Fine, Grown, Served, Stepped, Wanted, DecodeNode, Adding, AddingQueue, ResultOk, ItemAsks, Skipped, Apart;
    hide Have;
    FineApart(ts.cfg, ts.root, ts.S(), ts.queue, ts.handed);
    match act
    case AddTrie(h, d, p, w) =>
      if Attachable(ts.requests, p) {
        ts.AddSubTrie(h, d, p, w, None);
      }
    case AddRaw(h, d, p) =>
      if Attachable(ts.requests, p) {
        ts.AddRawEntry(h, d, p, None);
      }
    case Deliver(item) =>
      var r := ts.ProcessOne(item);
    case Flush(n) =>
      Write(ts, n);
  }

  method Write(ts: TrieSync, accepts: nat)
    requires ts.Valid()
    modifies ts
    ensures ts.Valid() && ts.requests == old(ts.requests) && ts.seen == old(ts.seen)
    ensures Have(ts.S()) == old(Have(ts.S()))
    ensures Next(ts.cfg, old(ts.S()), Flush(accepts), ts.S())
  {
    hide Fine, Flushed, Closed;
    ghost var s := ts.S();
    FineHave(ts.cfg, ts.root, s, ts.queue, ts.handed);
    var n, ok := ts.Commit(accepts);
  }

  lemma FineApart(cfg: Config, root: Hash, s: State, queue: seq<(Hash, nat)>, handed: set<Hash>)
    requires Fine(cfg, root, s, queue, handed, None, multiset{})
    ensures Apart(s)
  {
    hide StoreOk, FamilyOk, CountsOk, RootOk, Queued, Moving, Have, Decodes, Link, Known;
    forall h | h in s.rs ensures h !in Have(s) {
      assert RequestOk(cfg, s, h, None);
    }
  }

  lemma FineHave(cfg: Config, root: Hash, s: State, queue: seq<(Hash, nat)>, handed: set<Hash>)
    requires Fine(cfg, root, s, queue, handed, None, multiset{})
    ensures forall i | 0 <= i <= |s.order| :: Have(Flushed(s, i)) == Have(s) && Flushed(s, i).batch == s.batch
  {
    hide RequestsOk, FamilyOk, CountsOk, RootOk, StoreOk, Queued, Moving, Have;
    forall i | 0 <= i <= |s.order| ensures Have(Flushed(s, i)) == Have(s) {
      FlushedStore(cfg, s, i);
    }
  }

  // ----- runs that fail

  /** The data of a trie node is a result for it. */
  lemma TreeResult(cfg: Config, t: Tree)
    requires Canon(t) && IsNode(t) && KnownTree(t)
    requires Uniform(cfg, TreeHash(t), Shallow(t, Some(TreeHash(t)), 0))
    ensures ResultOk(cfg, SyncResult(TreeHash(t), Blob(t)))
    ensures DecodeNode(Some(TreeHash(t)), Blob(t), 0) == Ok(Shallow(t, Some(TreeHash(t)), 0))
  {
    hide Canon, KnownTree, DecodeNode, Blob, Uniform, Shallow;
    KnownShape(t);
    DecodeNodeOf(t, Some(TreeHash(t)), 0, []);
    assert Blob(t) + [] == Blob(t);
  }

  /** With data for all that is pending, nothing is pending. */
  lemma AllDone(cfg: Config, root: Hash, s: State, queue: seq<(Hash, nat)>, handed: set<Hash>)
    requires Fine(cfg, root, s, queue, handed, None, multiset{}) && forall h | h in s.rs :: s.rs[h].data.Some?
    ensures s.rs == map[]
  {
    hide Inv, Queued, Moving;
    if h: Hash :| h in s.rs {
      var open := NeverStuck(cfg, root, s, queue, handed, h);
    }
  }

  /** Processing an item that asks for nothing new keeps to the hashes at hand. */
  lemma KeepsTo(cfg: Config, s: State, s': State, item: SyncResult, hs: set<Hash>)
    requires Stepped(cfg, s, s', item) && s.rs.Keys <= hs && Have(s) <= hs
    requires forall x | x in ItemAsks(cfg, s, item) :: x.hash in hs
    ensures s'.rs.Keys <= hs && Have(s') <= hs && s.rs.Keys + Have(s) <= s'.rs.Keys + Have(s')
    ensures forall h | h in s'.rs && h in s.rs && (h == item.hash || s.rs[h].data.Some?) :: s'.rs[h].data.Some?
  {
    hide ItemAsks, Find, Have;
    forall k | k in s'.rs && k !in s.rs ensures k in hs {
      assert NewAs(s', ItemAsks(cfg, s, item), k);
      FindIn(ItemAsks(cfg, s, item), k);
    }
    forall h | h in s'.rs && h in s.rs ensures SameRequest(Filled(s, item.hash, item.data).rs[h], s'.rs[h]) {
    }
  }

  /** A leaf asks the callback for one raw entry; no other value asks for anything. */
  function OneAsk(v: Bytes, k: Hash): Bytes -> seq<Sub> {
    x => if x == v then [Sub(k, RawEntry, 0)] else []
  }

  /** That the leaves of every node registered with a callback are shown to it is false: a trie of one leaf that is
      pending without callback and then registered with one is completed unseen, and what its leaf asks for is
      not even requested. */
  method LateCallback(t: Tree, k: Hash) returns (ts: TrieSync)
    requires Canon(t) && t.Ext? && t.child.Leaf? && KnownTree(t) && Known(Encode(Str([])))
    requires k != TreeHash(t) && k != Keccak([])
    ensures ts.Valid() && ts.requests == map[] && LinkSub(ts.cfg, t.child.value, k)
    ensures TreeHash(t) in ts.db && ts.batch == map[] && k !in ts.db
  {
    hide Fine, Canon, KnownTree, DecodeNode, Known, TreeHash, Blob, Shallow, Stepped, ResultOk, Have, LateConfig;
    MerkleTrie.NotEmptyRoot(t);
    var h := TreeHash(t);
    ts := PlainFirst(h, h, t.child.value, k);
    ghost var s := ts.S();
    LateLeaf(ts.cfg, s, t, h, k);
    var r := ts.ProcessOne(SyncResult(h, Blob(t)));
    KeepsTo(ts.cfg, s, ts.S(), SyncResult(h, Blob(t)), {h});
    AllDone(ts.cfg, h, ts.S(), ts.queue, ts.handed);
    var written, ok := ts.Commit(|ts.order|);
  }

  /** The trie under low is registered without callback, then the one under high with a callback that asks for k. */
  method PlainFirst(low: Hash, high: Hash, v: Bytes, k: Hash) returns (ts: TrieSync)
    requires low != EmptyRoot() && high != EmptyRoot()
    ensures fresh(ts) && ts.Valid() && ts.root == low && ts.cfg == LateConfig(low, high, v, k) && Have(ts.S()) == {}
    ensures ts.requests.Keys == {low, high} && ts.requests[low].entry == TrieNode(false)
    ensures high != low ==> ts.requests[high].entry == TrieNode(true)
    ensures ts.requests[low].data.None? && ts.requests[high].data.None?
  {
    hide Fine, Added, Adding, AddingQueue, Have;
    ghost var cfg := LateConfig(low, high, v, k);
    NothingStored(cfg);
    ts := new TrieSync(low, map[], OneAsk(v, k), false, cfg, {});
    ghost var start := ts.S();
    ts.AddSubTrie(high, 0, ZeroHash, true, None);
    PlainStart(start, ts.S(), low, high);
  }

  lemma PlainStart(s: State, s': State, low: Hash, high: Hash)
    requires s.rs == map[low := Request(None, TrieNode(false), [], 0, 0)] && s.db == map[] && s.batch == map[]
    requires s' == Adding(s, Sub(high, TrieNode(true), 0), ZeroHash) && high != EmptyRoot()
    ensures s'.rs.Keys == {low, high} && s'.rs[low].entry == TrieNode(false) && Have(s') == {}
    ensures high != low ==> s'.rs[high].entry == TrieNode(true)
    ensures s'.rs[low].data.None? && s'.rs[high].data.None?
  {
  }

  /** Two trie nodes, the second maybe above the first, and the raw entry k. */
  ghost function LateConfig(low: Hash, high: Hash, v: Bytes, k: Hash): Config {
    Config(x => if x == low || x == high then TrieNode(true) else RawEntry, OneAsk(v, k),
           x => if x == low then 1 else if x == high then 2 else 0)
  }

  lemma NothingStored(cfg: Config)
    ensures Honest(map[]) && Closed(cfg, map[], {})
  {
  }

  lemma LateLeaf(cfg: Config, s: State, t: Tree, high: Hash, k: Hash)
    requires Canon(t) && t.Ext? && t.child.Leaf? && KnownTree(t) && k != TreeHash(t) && k != high && k != Keccak([])
    requires cfg == LateConfig(TreeHash(t), high, t.child.value, k)
    requires TreeHash(t) in s.rs && s.rs[TreeHash(t)].entry == TrieNode(false)
    ensures ResultOk(cfg, SyncResult(TreeHash(t), Blob(t))) && LinkSub(cfg, t.child.value, k)
    ensures DecodeNode(Some(TreeHash(t)), Blob(t), 0).Ok? && ItemAsks(cfg, s, SyncResult(TreeHash(t), Blob(t))) == []
  {
    hide Canon, KnownTree, DecodeNode, Blob, TreeHash, Big;
    var h := TreeHash(t);
    assert cfg.leaf(t.child.value)[0] == Sub(k, RawEntry, 0);
    KidOf(t, Some(h), 0);
    var n := Shallow(t, Some(h), 0);
    assert Kids(n) == [Value(t.child.value)];
    TreeResult(cfg, t);
    assert Kids(n)[..0] == [];
    NoAsks(cfg, false, TrieNode(false), KidDepth(s.rs[h].depth, n));
  }

  /** A branch with a value and one child c, stored on its own, that is a single leaf. */
  ghost predicate LeafBelow(t: Tree, i: nat) {
    && Canon(t) && t.Branch? && i < 16 && t.children[16].Leaf?
    && Canon(t.children[i]) && t.children[i].Ext? && t.children[i].child.Leaf? && Big(t.children[i])
    && t.children[16].value != t.children[i].child.value
    && forall j | 0 <= j < 16 && j != i :: t.children[j].Empty?
  }

  /** A second failing run: the trie itself is new when it is registered with a callback, but its child c is pending
      without one. Everything is stored, c unseen, and what the leaf in c asks for is never requested. */
  method EarlyChild(t: Tree, i: nat, k: Hash) returns (ts: TrieSync)
    requires LeafBelow(t, i) && KnownTree(t) && Known(Encode(Str([])))
    requires k != TreeHash(t) && k != TreeHash(t.children[i]) && k != Keccak([])
    ensures ts.Valid() && ts.requests == map[] && LinkSub(ts.cfg, t.children[i].child.value, k)
    ensures TreeHash(t) in ts.db && TreeHash(t.children[i]) in ts.db && ts.batch == map[] && k !in ts.db
  {
    hide Fine, LeafBelow, KnownTree, DecodeNode, Known, TreeHash, Blob, Shallow, Stepped, ResultOk, Have, Canon;
    EarlyShape(t, i);
    var c := t.children[i];
    var low, high := TreeHash(c), TreeHash(t);
    ts := PlainFirst(low, high, c.child.value, k);
    EarlyLow(ts, t, c, i, k);
    EarlyTop(ts, t, c, i, k);
    AllDone(ts.cfg, low, ts.S(), ts.queue, ts.handed);
    var written, ok := ts.Commit(|ts.order|);
  }

  /** The data of the child comes. */
  method EarlyLow(ts: TrieSync, t: Tree, c: Tree, i: nat, k: Hash)
    requires LeafBelow(t, i) && KnownTree(t) && c == t.children[i] && KnownTree(c) && TreeHash(t) != TreeHash(c)
    requires k != TreeHash(t) && k != TreeHash(c) && k != Keccak([])
    requires ts.Valid() && ts.cfg == LateConfig(TreeHash(c), TreeHash(t), c.child.value, k) && Have(ts.S()) == {}
    requires ts.requests.Keys == {TreeHash(c), TreeHash(t)} && ts.requests[TreeHash(c)].entry == TrieNode(false)
    requires ts.requests[TreeHash(t)].entry == TrieNode(true)
    requires ts.requests[TreeHash(c)].data.None? && ts.requests[TreeHash(t)].data.None?
    modifies ts
    ensures ts.Valid() && LinkSub(ts.cfg, c.child.value, k)
    ensures ts.requests.Keys <= {TreeHash(c), TreeHash(t)} && Have(ts.S()) <= {TreeHash(c), TreeHash(t)}
    ensures TreeHash(c) in ts.requests ==> ts.requests[TreeHash(c)].data.Some?
    ensures Met(ts.S(), TreeHash(c)) && TreeHash(t) in ts.requests
    ensures ts.requests[TreeHash(t)].entry == TrieNode(true) && ts.requests[TreeHash(t)].data.None?
  {
    hide Fine, KnownTree, DecodeNode, TreeHash, Blob, Stepped, ResultOk, Have, LateConfig, Canon, Big;
    ghost var s, item := ts.S(), SyncResult(TreeHash(c), Blob(c));
    LateLeaf(ts.cfg, s, c, TreeHash(t), k);
    var r := ts.ProcessOne(SyncResult(TreeHash(c), Blob(c)));
    KeepsTo(ts.cfg, s, ts.S(), item, {TreeHash(c), TreeHash(t)});
    StaysOpen(ts.cfg, s, ts.S(), item, TreeHash(t));
  }

  /** The data of the branch comes. */
  method EarlyTop(ts: TrieSync, t: Tree, c: Tree, i: nat, k: Hash)
    requires LeafBelow(t, i) && KnownTree(t) && c == t.children[i] && TreeHash(t) != TreeHash(c)
    requires ts.Valid() && ts.cfg == LateConfig(TreeHash(c), TreeHash(t), c.child.value, k)
    requires ts.requests.Keys <= {TreeHash(c), TreeHash(t)} && Have(ts.S()) <= {TreeHash(c), TreeHash(t)}
    requires TreeHash(c) in ts.requests ==> ts.requests[TreeHash(c)].data.Some?
    requires Met(ts.S(), TreeHash(c)) && TreeHash(t) in ts.requests
    requires ts.requests[TreeHash(t)].entry == TrieNode(true) && ts.requests[TreeHash(t)].data.None?
    modifies ts
    ensures ts.Valid() && Have(ts.S()) <= {TreeHash(c), TreeHash(t)}
    ensures Met(ts.S(), TreeHash(c)) && Met(ts.S(), TreeHash(t))
    ensures forall h | h in ts.requests :: ts.requests[h].data.Some?
  {
    hide Fine, KnownTree, DecodeNode, TreeHash, Blob, Stepped, ResultOk, Have, LateConfig, Canon, Big, ItemAsks;
    ghost var s, item := ts.S(), SyncResult(TreeHash(t), Blob(t));
    EarlyHigh(ts.cfg, s, t, c, i, k);
    var r := ts.ProcessOne(SyncResult(TreeHash(t), Blob(t)));
    KeepsTo(ts.cfg, s, ts.S(), item, {TreeHash(c), TreeHash(t)});
    KeepsData(ts.cfg, s, ts.S(), item, TreeHash(c));
  }

  lemma StaysOpen(cfg: Config, s: State, s': State, item: SyncResult, h: Hash)
    requires Stepped(cfg, s, s', item) && h in s.rs && h != item.hash && s.rs[h].data.None? && h !in Have(s)
    ensures h in s'.rs && s'.rs[h].entry == s.rs[h].entry && s'.rs[h].data.None?
  {
    hide ItemAsks, Have, Served;
    assert h in s'.rs;
    assert SameRequest(Filled(s, item.hash, item.data).rs[h], s'.rs[h]);
  }

  lemma KeepsData(cfg: Config, s: State, s': State, item: SyncResult, c: Hash)
    requires Stepped(cfg, s, s', item) && s'.rs.Keys <= {c, item.hash} && Met(s, c)
    requires c in s.rs ==> s.rs[c].data.Some?
    requires forall x | x in ItemAsks(cfg, s, item) :: x.hash == c
    ensures forall h | h in s'.rs :: s'.rs[h].data.Some?
  {
    hide ItemAsks, Have, Find;
    forall h | h in s'.rs ensures s'.rs[h].data.Some? {
      if h in s.rs {
        assert SameRequest(Filled(s, item.hash, item.data).rs[h], s'.rs[h]);
      }
    }
  }

  lemma EarlyShape(t: Tree, i: nat)
    requires LeafBelow(t, i) && KnownTree(t) && Known(Encode(Str([])))
    ensures Canon(t) && t.Branch? && i < 16 && |t.children| == 17
    ensures var c := t.children[i];
            && Canon(c) && c.Ext? && c.child.Leaf? && KnownTree(c) && TreeHash(c) != TreeHash(t)
            && TreeHash(c) != EmptyRoot() && TreeHash(t) != EmptyRoot()
  {
    hide Canon, KnownTree, TreeHash, Big, Known;
    CanonBranch(t);
    KnownShape(t);
    MerkleTrie.NotEmptyRoot(t);
    MerkleTrie.NotEmptyRoot(t.children[i]);
    if TreeHash(t.children[i]) == TreeHash(t) {
      MerkleInjective(t.children[i], t);
    }
  }

  /** The branch asks for its child only. */
  lemma EarlyHigh(cfg: Config, s: State, t: Tree, c: Tree, i: nat, k: Hash)
    requires LeafBelow(t, i) && KnownTree(t) && c == t.children[i] && TreeHash(t) != TreeHash(c)
    requires cfg == LateConfig(TreeHash(c), TreeHash(t), c.child.value, k)
    requires TreeHash(t) in s.rs && s.rs[TreeHash(t)].entry == TrieNode(true)
    ensures ResultOk(cfg, SyncResult(TreeHash(t), Blob(t))) && DecodeNode(Some(TreeHash(t)), Blob(t), 0).Ok?
    ensures forall x | x in ItemAsks(cfg, s, SyncResult(TreeHash(t), Blob(t))) :: x.hash == TreeHash(c)
  {
    hide Canon, KnownTree, DecodeNode, Blob, TreeHash, Big, ItemAsks, Shallow;
    EarlyUniform(cfg, t, i, k);
    TreeResult(cfg, t);
    forall x | x in ItemAsks(cfg, s, SyncResult(TreeHash(t), Blob(t))) ensures x.hash == TreeHash(c) {
      EarlyAsks(cfg, s, t, i, k, x);
    }
  }

  lemma EarlyKids(t: Tree, i: nat)
    requires LeafBelow(t, i)
    ensures var kids := Kids(Shallow(t, Some(TreeHash(t)), 0));
            && |kids| == 17 && kids[i] == HashRef(TreeHash(t.children[i])) && kids[16] == Value(t.children[16].value)
            && forall j | 0 <= j < 16 && j != i :: kids[j] == Nil
  {
    hide Big, TreeHash;
  }

  lemma EarlyUniform(cfg: Config, t: Tree, i: nat, k: Hash)
    requires LeafBelow(t, i) && TreeHash(t) != TreeHash(t.children[i])
    requires cfg == LateConfig(TreeHash(t.children[i]), TreeHash(t), t.children[i].child.value, k)
    ensures Uniform(cfg, TreeHash(t), Shallow(t, Some(TreeHash(t)), 0))
  {
    hide Canon, Big, TreeHash, Shallow;
    EarlyKids(t, i);
  }

  lemma EarlyAsks(cfg: Config, s: State, t: Tree, i: nat, k: Hash, x: Sub)
    requires LeafBelow(t, i) && TreeHash(t) in s.rs && s.rs[TreeHash(t)].entry == TrieNode(true)
    requires cfg == LateConfig(TreeHash(t.children[i]), TreeHash(t), t.children[i].child.value, k)
    requires DecodeNode(Some(TreeHash(t)), Blob(t), 0) == Ok(Shallow(t, Some(TreeHash(t)), 0))
    requires x in ItemAsks(cfg, s, SyncResult(TreeHash(t), Blob(t)))
    ensures x.hash == TreeHash(t.children[i])
  {
    hide Canon, Big, TreeHash, Shallow, Blob, DecodeNode, LeafAsks, RefAsks;
    var h := TreeHash(t);
    var n, r := Shallow(t, Some(h), 0), s.rs[h];
    EarlyKids(t, i);
    if x in LeafAsks(cfg, true, Kids(n)) {
      AskLinks(cfg, Kids(n), x);
      var j :| 0 <= j < |Kids(n)| && KidLink(cfg, true, Kids(n)[j], x.hash);
    } else {
      RefAll(Kids(n), r.entry, KidDepth(r.depth, n), x);
    }
  }

  /** A parent named before its own data has come: the run NewTrieSync(root), AddRawEntry(k, 0, root), then the data of
      k. Completing k takes the last dependency from the root, which is completed with empty data: nothing is pending,
      and the trie is not there. */
  method DatalessParent(root: Hash, k: Hash, data: Bytes, ghost cfg: Config) returns (ts: TrieSync)
    requires root != EmptyRoot() && root != ZeroHash && k != root && k != Keccak([])
    requires cfg.leaf == (v => []) && cfg.entry(root) == TrieNode(false)
    ensures ts.requests.Keys == {root, k} && ts.requests[root].data.None?
    ensures var s := CommitReq(Filled(ts.S(), k, data), k);
            s.rs == map[] && s.order == [k, root] && s.batch == map[k := data, root := []]
  {
    hide Fine, CommitReq, DecodeNode;
    NothingStored(cfg);
    ts := new TrieSync(root, map[], v => [], false, cfg, {});
    ts.AddRawEntry(k, 0, root, None);
    assert ts.requests == map[root := Request(None, TrieNode(false), [], 0, 1),
                              k := Request(None, RawEntry, [root], 0, 0)];
    DatalessEnd(ts.S(), root, k, data);
  }

  lemma DatalessEnd(s: State, root: Hash, k: Hash, data: Bytes)
    requires s.batch == map[] && s.order == [] && k != root
    requires s.rs == map[root := Request(None, TrieNode(false), [], 0, 1), k := Request(None, RawEntry, [root], 0, 0)]
    ensures var s' := CommitReq(Filled(s, k, data), k);
            s'.rs == map[] && s'.order == [k, root] && s'.batch == map[k := data, root := []]
  {
    hide NotifyAll, NotifyP;
    var s1 := Completed(Filled(s, k, data), k);
    assert s1.rs == map[root := s.rs[root]] && s1.batch == map[k := data] && s1.order == [k];
    NotifyStep(s1, [root]);
    RootEmpty(s1, root);
    assert [root][1..] == [];
    NotifyNone(NotifyP(s1, root));
  }

  lemma RootEmpty(s: State, root: Hash)
    requires root in s.rs && s.rs.Keys == {root} && s.rs[root] == Request(None, TrieNode(false), [], 0, 1)
    ensures var s' := NotifyP(s, root);
            s'.rs == map[] && s'.order == s.order + [root] && s'.batch == s.batch[root := []]
  {
    hide NotifyAll;
    var s1 := Recounted(s, root, -1);
    NotifyNone(Completed(s1, root));
    assert Completed(s1, root).rs == map[];
  }
}
