/** The bookkeeping of the trie synchroniser (trie/sync.go) as values: pending
    requests with parents and dependency counts, and what has been retrieved. */
module SyncState {
  import opened Common
  import opened Trees
  import opened Merkle
  import opened Nodes
  import opened Represent
  import opened Rlp
  import opened RlpEncoder
  import opened RlpValues

  /** What is requested under a hash: plain data such as contract code, or a trie node, whose leaves may be watched. */
  datatype Entry = RawEntry | TrieNode(watch: bool)

  predicate Watched(e: Entry) {
    e.TrieNode? && e.watch
  }

  /** Raw entries are not trie nodes, and only a hash bound to be watched is requested with its leaves watched.
      It may be requested without as well. */
  predicate Within(e: Entry, bound: Entry) {
    e.RawEntry? == bound.RawEntry? && (Watched(e) ==> Watched(bound))
  }

  /** What the leaf callback asks for: a raw entry or another trie. */
  datatype Sub = Sub(hash: Hash, entry: Entry, depth: nat)

  /** What every hash may be requested as, the leaf callback, and a rank that shows the graph of nodes acyclic. */
  datatype Config = Config(entry: Hash -> Entry, leaf: Bytes -> seq<Sub>, rank: Hash -> nat)

  datatype Request = Request(data: Option<Bytes>, entry: Entry, parents: seq<Hash>, depth: nat, deps: int)

  type Requests = map<Hash, Request>

  /** The database, the completed entries in order, the pending requests, and the stored entries
      whose leaves were shown to the callback. */
  datatype State = State(db: Store, batch: Store, order: seq<Hash>, rs: Requests, seen: set<Hash>)

  /** The hash of an empty raw entry, and of an empty trie. */
  function EmptyHash(e: Entry): Hash {
    if e.RawEntry? then Keccak([]) else EmptyRoot()
  }

  ghost function Have(s: State): set<Hash> {
    s.db.Keys + s.batch.Keys
  }

  // ----- what a node refers to

  function Kids(n: Node): seq<Node> {
    if n.Short? then [n.val] else if n.Full? then n.children else []
  }

  ghost predicate LinkSub(cfg: Config, v: Bytes, k: Hash) {
    exists i :: 0 <= i < |cfg.leaf(v)| && cfg.leaf(v)[i].hash == k && k != EmptyHash(cfg.leaf(v)[i].entry)
  }

  /** The kid refers to k: by hash, or through the leaf callback. */
  ghost predicate KidLink(cfg: Config, watch: bool, kid: Node, k: Hash) {
    (kid.HashRef? && kid.hash == k) || (kid.Value? && watch && LinkSub(cfg, kid.value, k))
  }

  ghost predicate NodeLink(cfg: Config, watch: bool, n: Node, k: Hash) {
    exists i :: 0 <= i < |Kids(n)| && KidLink(cfg, watch, Kids(n)[i], k)
  }

  /** The entry h with the given data, its leaves watched or not, needs k. */
  ghost predicate Link(cfg: Config, watch: bool, h: Hash, data: Bytes, k: Hash) {
    && cfg.entry(h).TrieNode? && DecodeNode(Some(h), data, 0).Ok?
    && NodeLink(cfg, watch, DecodeNode(Some(h), data, 0).value, k)
  }

  /** This data uses no hash as raw entry and as trie node, and all it refers to has lower rank. */
  ghost predicate Uniform(cfg: Config, h: Hash, n: Node) {
    cfg.entry(h).TrieNode? ==>
      forall i | 0 <= i < |Kids(n)| ::
        && (Kids(n)[i].HashRef? ==>
              Within(cfg.entry(h), cfg.entry(Kids(n)[i].hash)) && cfg.rank(Kids(n)[i].hash) < cfg.rank(h))
        && (Kids(n)[i].Value? && cfg.entry(h).watch ==> SubsUniform(cfg, h, Kids(n)[i].value))
  }

  ghost predicate SubsUniform(cfg: Config, h: Hash, v: Bytes) {
    forall i | 0 <= i < |cfg.leaf(v)| :: SubUniform(cfg, h, cfg.leaf(v)[i])
  }

  ghost predicate SubUniform(cfg: Config, h: Hash, sub: Sub) {
    sub.hash != EmptyHash(sub.entry) ==> Within(sub.entry, cfg.entry(sub.hash)) && cfg.rank(sub.hash) < cfg.rank(h)
  }

  /** Trie nodes decode, to uniform nodes. */
  ghost predicate Decodes(cfg: Config, h: Hash, data: Bytes) {
    cfg.entry(h).TrieNode? ==>
      DecodeNode(Some(h), data, 0).Ok? && Uniform(cfg, h, DecodeNode(Some(h), data, 0).value)
  }

  // ----- closed stores

  /** The node under h decodes and all it needs is in s. */
  ghost predicate Whole(cfg: Config, watch: bool, h: Hash, data: Bytes, s: set<Hash>) {
    && Decodes(cfg, h, data)
    && forall k | Link(cfg, watch, h, data, k) :: k in s
  }

  /** The database is closed under references by hash and, for the entries in seen, under the requests of leaves. */
  ghost predicate Closed(cfg: Config, db: Store, seen: set<Hash>) {
    forall h | h in db :: Whole(cfg, h in seen, h, db[h], db.Keys)
  }

  /** Completed entries come after everything they need. */
  ghost predicate InOrder(cfg: Config, s: State) {
    && (forall h :: h in s.batch <==> h in s.order)
    && (forall i | 0 <= i < |s.order| ::
          s.order[i] in s.batch && WholeAt(cfg, s, s.order[i], s.db.Keys + Firsts(s.order, i)))
  }

  ghost predicate WholeAt(cfg: Config, s: State, h: Hash, have: set<Hash>)
    requires h in s.batch
  {
    Whole(cfg, h in s.seen, h, s.batch[h], have)
  }

  ghost function Firsts(order: seq<Hash>, i: nat): set<Hash>
    requires i <= |order|
  {
    set h | h in order[..i]
  }

  // ----- dependency counts

  /** How often the requests of s name p as parent. */
  ghost function DepSum(rs: Requests, s: set<Hash>, p: Hash): nat
    requires s <= rs.Keys
    decreases |s|
  {
    if s == {} then 0 else
    var c :| c in s;
    multiset(rs[c].parents)[p] + DepSum(rs, s - {c}, p)
  }

  lemma {:induction false} DepSumPick(rs: Requests, s: set<Hash>, p: Hash, x: Hash)
    requires s <= rs.Keys && x in s
    ensures DepSum(rs, s, p) == multiset(rs[x].parents)[p] + DepSum(rs, s - {x}, p)
    decreases |s|
  {
    var c :| c in s && DepSum(rs, s, p) == multiset(rs[c].parents)[p] + DepSum(rs, s - {c}, p);
    if c != x {
      DepSumPick(rs, s - {c}, p, x);
      DepSumPick(rs, s - {x}, p, c);
      assert s - {c} - {x} == s - {x} - {c};
    }
  }

  lemma {:induction false} DepSumSame(rs: Requests, rs': Requests, s: set<Hash>, p: Hash)
    requires s <= rs.Keys && s <= rs'.Keys && forall c | c in s :: rs[c].parents == rs'[c].parents
    ensures DepSum(rs, s, p) == DepSum(rs', s, p)
    decreases |s|
  {
    if s != {} {
      var c :| c in s;
      DepSumPick(rs, s, p, c);
      DepSumPick(rs', s, p, c);
      DepSumSame(rs, rs', s - {c}, p);
    }
  }

  /** The references to p, from pending requests. */
  ghost function Deps(rs: Requests, p: Hash): nat {
    DepSum(rs, rs.Keys, p)
  }

  lemma InParents(ps: seq<Hash>, p: Hash)
    ensures p in ps <==> multiset(ps)[p] > 0
  {
    assert p in multiset(ps) <==> p in ps;
  }

  lemma DepsZero(rs: Requests, p: Hash, c: Hash)
    requires Deps(rs, p) == 0 && c in rs
    ensures p !in rs[c].parents
  {
    DepSumPick(rs, rs.Keys, p, c);
    InParents(rs[c].parents, p);
  }

  lemma DepsKeep(rs: Requests, rs': Requests, p: Hash)
    requires rs.Keys == rs'.Keys && forall c | c in rs :: rs[c].parents == rs'[c].parents
    ensures Deps(rs, p) == Deps(rs', p)
  {
    DepSumSame(rs, rs', rs.Keys, p);
  }

  lemma DepsRemove(rs: Requests, p: Hash, c: Hash)
    requires c in rs
    ensures Deps(rs, p) == multiset(rs[c].parents)[p] + Deps(rs - {c}, p)
  {
    DepSumPick(rs, rs.Keys, p, c);
    assert (rs - {c}).Keys == rs.Keys - {c};
    DepSumSame(rs, rs - {c}, rs.Keys - {c}, p);
  }

  lemma DepsAdd(rs: Requests, p: Hash, c: Hash, r: Request)
    requires c !in rs
    ensures Deps(rs[c := r], p) == multiset(r.parents)[p] + Deps(rs, p)
  {
    DepsRemove(rs[c := r], p, c);
    assert rs[c := r] - {c} == rs;
  }

  lemma DepsAppend(rs: Requests, p: Hash, c: Hash, ps: seq<Hash>)
    requires c in rs
    ensures Deps(rs[c := rs[c].(parents := rs[c].parents + ps)], p) == Deps(rs, p) + multiset(ps)[p]
  {
    var rs' := rs[c := rs[c].(parents := rs[c].parents + ps)];
    DepsRemove(rs, p, c);
    DepsRemove(rs', p, c);
    assert rs - {c} == rs' - {c};
    assert multiset(rs[c].parents + ps) == multiset(rs[c].parents) + multiset(ps);
  }

  // ----- the invariant

  /** k is retrieved, or pending with h as a parent. */
  ghost predicate Covered(s: State, h: Hash, k: Hash) {
    k in Have(s) || (k in s.rs && h in s.rs[k].parents)
  }

  /** A request holds data of its own hash, and everything that data needs is covered;
      but for the request cur, whose links are still being scheduled. */
  ghost predicate RequestOk(cfg: Config, s: State, h: Hash, cur: Option<Hash>)
    requires h in s.rs
  {
    var r := s.rs[h];
    && h !in Have(s) && Within(r.entry, cfg.entry(h))
    && (r.data.Some? ==>
          && Keccak(r.data.value) == h && Known(r.data.value)
          && Decodes(cfg, h, r.data.value)
          && (cur == Some(h) || forall k | Link(cfg, Watched(r.entry), h, r.data.value, k) :: Covered(s, h, k)))
  }

  ghost predicate ParentsOk(s: State, ps: multiset<Hash>) {
    forall p | p in ps :: p in s.rs && s.rs[p].data.Some?
  }

  ghost predicate StoreOk(cfg: Config, s: State) {
    Honest(s.db) && Honest(s.batch) && Closed(cfg, s.db, s.seen) && InOrder(cfg, s) && s.seen <= Have(s)
  }

  ghost predicate RequestsOk(cfg: Config, s: State, cur: Option<Hash>) {
    forall h | h in s.rs :: RequestOk(cfg, s, h, cur)
  }

  /** Parents are pending and have their data. */
  ghost predicate FamilyOk(s: State, out: multiset<Hash>) {
    (forall c | c in s.rs :: ParentsOk(s, multiset(s.rs[c].parents))) && ParentsOk(s, out)
  }

  /** A dependency count is the number of references from pending requests, plus those in out. */
  ghost predicate CountsOk(s: State, out: multiset<Hash>) {
    forall p | p in s.rs :: s.rs[p].deps == Deps(s.rs, p) + out[p]
  }

  ghost predicate RootOk(root: Hash, s: State) {
    root == EmptyRoot() || root in Have(s) || root in s.rs
  }

  /** The state between two steps. References that are counted but not pending are in out. */
  ghost predicate Inv(cfg: Config, root: Hash, s: State, cur: Option<Hash>, out: multiset<Hash>) {
    && StoreOk(cfg, s) && RequestsOk(cfg, s, cur) && FamilyOk(s, out) && CountsOk(s, out) && RootOk(root, s)
  }

  // ----- scheduling

  lemma {:induction false} DepSumNone(rs: Requests, s: set<Hash>, p: Hash)
    requires s <= rs.Keys && forall c | c in s :: p !in rs[c].parents
    ensures DepSum(rs, s, p) == 0
    decreases |s|
  {
    if s != {} {
      var c :| c in s;
      DepSumPick(rs, s, p, c);
      DepSumNone(rs, s - {c}, p);
    }
  }

  /** A request, or a further parent for the pending request of the same hash. */
  ghost function Scheduled(s: State, h: Hash, r: Request): State {
    if h in s.rs then s.(rs := s.rs[h := s.rs[h].(parents := s.rs[h].parents + r.parents)])
    else s.(rs := s.rs[h := r])
  }

  ghost predicate NewRequest(cfg: Config, s: State, h: Hash, r: Request, out: multiset<Hash>) {
    && h !in Have(s) && r.data.None? && r.deps == 0 && Within(r.entry, cfg.entry(h))
    && multiset(r.parents) <= out
  }

  lemma ScheduledOk(cfg: Config, root: Hash, s: State, h: Hash, r: Request, cur: Option<Hash>, out: multiset<Hash>)
    requires Inv(cfg, root, s, cur, out) && NewRequest(cfg, s, h, r, out)
    ensures Inv(cfg, root, Scheduled(s, h, r), cur, out - multiset(r.parents))
    ensures forall a, k :: Covered(s, a, k) ==> Covered(Scheduled(s, h, r), a, k)
    ensures forall p | p in r.parents :: Covered(Scheduled(s, h, r), p, h)
  {
    hide StoreOk, RequestsOk, FamilyOk, CountsOk, Covered;
    var s' := Scheduled(s, h, r);
    assert StoreOk(cfg, s') by { StoreSame(cfg, s, s'); }
    ScheduledCover(s, h, r);
    ScheduledRequests(cfg, s, h, r, cur);
    ScheduledFamily(s, h, r, out);
    ScheduledCounts(s, h, r, out);
  }

  lemma StoreSame(cfg: Config, s: State, s': State)
    requires StoreOk(cfg, s) && s'.db == s.db && s'.batch == s.batch && s'.order == s.order && s'.seen == s.seen
    ensures StoreOk(cfg, s')
  {
    hide Honest, Closed, WholeAt;
    assert InOrder(cfg, s') by { OrderSame(cfg, s, s'); }
  }

  lemma OrderSame(cfg: Config, s: State, s': State)
    requires InOrder(cfg, s) && s'.db == s.db && s'.batch == s.batch && s'.order == s.order && s'.seen == s.seen
    ensures InOrder(cfg, s')
  {
    hide Whole;
    forall i | 0 <= i < |s'.order|
      ensures s'.order[i] in s'.batch && WholeAt(cfg, s', s'.order[i], s'.db.Keys + Firsts(s'.order, i))
    {
      assert WholeAt(cfg, s, s.order[i], s.db.Keys + Firsts(s.order, i));
    }
  }

  lemma ScheduledCover(s: State, h: Hash, r: Request)
    ensures forall a, k :: Covered(s, a, k) ==> Covered(Scheduled(s, h, r), a, k)
    ensures forall p | p in r.parents :: Covered(Scheduled(s, h, r), p, h)
  {
  }

  lemma ScheduledRequests(cfg: Config, s: State, h: Hash, r: Request, cur: Option<Hash>)
    requires RequestsOk(cfg, s, cur) && h !in Have(s) && r.data.None? && Within(r.entry, cfg.entry(h))
    ensures RequestsOk(cfg, Scheduled(s, h, r), cur)
  {
    hide Covered, Link, Decodes, DecodeNode;
    var s' := Scheduled(s, h, r);
    ScheduledCover(s, h, r);
    forall x | x in s'.rs ensures RequestOk(cfg, s', x, cur) {
      if x in s.rs {
        assert RequestOk(cfg, s, x, cur);
      }
    }
  }

  lemma ScheduledFamily(s: State, h: Hash, r: Request, out: multiset<Hash>)
    requires FamilyOk(s, out) && multiset(r.parents) <= out && r.data.None?
    ensures FamilyOk(Scheduled(s, h, r), out - multiset(r.parents))
  {
    hide ParentsOk;
    var s' := Scheduled(s, h, r);
    ParentsGrow(s, h, r, out);
    ParentsPart(s', out, multiset(r.parents));
    forall c | c in s'.rs ensures ParentsOk(s', multiset(s'.rs[c].parents)) {
      if c in s.rs {
        ParentsGrow(s, h, r, multiset(s.rs[c].parents));
        if c == h {
          ParentsJoin(s', s.rs[h].parents, r.parents);
        }
      }
    }
  }

  lemma ParentsGrow(s: State, h: Hash, r: Request, ps: multiset<Hash>)
    requires ParentsOk(s, ps)
    ensures ParentsOk(Scheduled(s, h, r), ps)
  {
  }

  lemma ParentsPart(s: State, all: multiset<Hash>, part: multiset<Hash>)
    requires ParentsOk(s, all) && part <= all
    ensures ParentsOk(s, part) && ParentsOk(s, all - part)
  {
    assert forall p | p in part :: p in all;
  }

  lemma ParentsJoin(s: State, a: seq<Hash>, b: seq<Hash>)
    requires ParentsOk(s, multiset(a)) && ParentsOk(s, multiset(b))
    ensures ParentsOk(s, multiset(a + b))
  {
    assert multiset(a + b) == multiset(a) + multiset(b);
  }

  lemma ScheduledCounts(s: State, h: Hash, r: Request, out: multiset<Hash>)
    requires FamilyOk(s, out) && CountsOk(s, out) && multiset(r.parents) <= out && r.deps == 0
    ensures CountsOk(Scheduled(s, h, r), out - multiset(r.parents))
  {
    hide Deps;
    var s' := Scheduled(s, h, r);
    forall p | p in s'.rs ensures s'.rs[p].deps == Deps(s'.rs, p) + (out - multiset(r.parents))[p] {
      if h in s.rs {
        DepsAppend(s.rs, p, h, r.parents);
      } else {
        DepsAdd(s.rs, p, h, r);
        if p == h {
          NoDeps(s, out, h);
        }
      }
    }
  }

  /** Nobody refers to what is not pending. */
  lemma NoDeps(s: State, out: multiset<Hash>, h: Hash)
    requires FamilyOk(s, out) && h !in s.rs
    ensures Deps(s.rs, h) == 0 && out[h] == 0
  {
    forall c | c in s.rs.Keys ensures h !in s.rs[c].parents {
      assert ParentsOk(s, multiset(s.rs[c].parents));
    }
    DepSumNone(s.rs, s.rs.Keys, h);
  }

  // ----- one count up or down

  ghost function Recounted(s: State, p: Hash, d: int): State
    requires p in s.rs
  {
    s.(rs := s.rs[p := s.rs[p].(deps := s.rs[p].deps + d)])
  }

  lemma RecountedOk(cfg: Config, root: Hash, s: State, p: Hash, d: int, cur: Option<Hash>, out: multiset<Hash>)
    requires Inv(cfg, root, s, cur, out) && p in s.rs && s.rs[p].data.Some? && out[p] + d >= 0
    ensures Inv(cfg, root, Recounted(s, p, d), cur, out[p := out[p] + d])
    ensures forall a, k :: Covered(s, a, k) <==> Covered(Recounted(s, p, d), a, k)
  {
    hide StoreOk, RequestsOk, FamilyOk, CountsOk, Covered, Deps;
    var s' := Recounted(s, p, d);
    assert StoreOk(cfg, s') by { StoreSame(cfg, s, s'); }
    RecountedRequests(cfg, s, p, d, cur);
    RecountedFamily(s, p, d, out);
    assert CountsOk(s', out[p := out[p] + d]) by { RecountedCounts(s, p, d, out); }
  }

  lemma RecountedRequests(cfg: Config, s: State, p: Hash, d: int, cur: Option<Hash>)
    requires RequestsOk(cfg, s, cur) && p in s.rs
    ensures RequestsOk(cfg, Recounted(s, p, d), cur)
    ensures forall a, k :: Covered(s, a, k) <==> Covered(Recounted(s, p, d), a, k)
  {
    hide Link, Decodes, DecodeNode;
    var s' := Recounted(s, p, d);
    assert forall a, k :: Covered(s, a, k) <==> Covered(s', a, k);
    forall x | x in s'.rs ensures RequestOk(cfg, s', x, cur) {
      assert RequestOk(cfg, s, x, cur);
    }
  }

  lemma RecountedFamily(s: State, p: Hash, d: int, out: multiset<Hash>)
    requires FamilyOk(s, out) && p in s.rs && s.rs[p].data.Some? && out[p] + d >= 0
    ensures FamilyOk(Recounted(s, p, d), out[p := out[p] + d])
  {
    var s' := Recounted(s, p, d);
    forall c | c in s'.rs ensures ParentsOk(s', multiset(s'.rs[c].parents)) {
      assert ParentsOk(s, multiset(s.rs[c].parents));
    }
  }

  lemma RecountedCounts(s: State, p: Hash, d: int, out: multiset<Hash>)
    requires CountsOk(s, out) && p in s.rs && out[p] + d >= 0
    ensures CountsOk(Recounted(s, p, d), out[p := out[p] + d])
  {
    hide Deps;
    var s' := Recounted(s, p, d);
    forall q | q in s'.rs ensures s'.rs[q].deps == Deps(s'.rs, q) + out[p := out[p] + d][q] {
      DepsKeep(s.rs, s'.rs, q);
    }
  }

  // ----- data arrives

  ghost function Filled(s: State, h: Hash, data: Bytes): State
    requires h in s.rs
  {
    s.(rs := s.rs[h := s.rs[h].(data := Some(data))])
  }

  lemma FilledOk(cfg: Config, root: Hash, s: State, h: Hash, data: Bytes, out: multiset<Hash>)
    requires Inv(cfg, root, s, None, out) && h in s.rs && s.rs[h].data.None?
    requires Keccak(data) == h && Known(data) && Decodes(cfg, h, data)
    ensures Inv(cfg, root, Filled(s, h, data), if cfg.entry(h).RawEntry? then None else Some(h), out)
    ensures s.rs[h].deps == 0
  {
    hide StoreOk, Deps;
    var s' := Filled(s, h, data);
    assert StoreOk(cfg, s') by { StoreSame(cfg, s, s'); }
    FilledRequests(cfg, s, h, data);
    FilledFamily(s, h, data, out);
    FilledCounts(s, h, data, out);
  }

  lemma FilledRequests(cfg: Config, s: State, h: Hash, data: Bytes)
    requires RequestsOk(cfg, s, None) && h in s.rs
    requires Keccak(data) == h && Known(data) && Decodes(cfg, h, data)
    ensures RequestsOk(cfg, Filled(s, h, data), if cfg.entry(h).RawEntry? then None else Some(h))
  {
    hide DecodeNode, Decodes, NodeLink, Known;
    var s' := Filled(s, h, data);
    assert forall a, k :: Covered(s, a, k) <==> Covered(s', a, k);
    forall x | x in s'.rs ensures RequestOk(cfg, s', x, if cfg.entry(h).RawEntry? then None else Some(h)) {
      assert RequestOk(cfg, s, x, None);
    }
  }

  lemma FilledFamily(s: State, h: Hash, data: Bytes, out: multiset<Hash>)
    requires FamilyOk(s, out) && h in s.rs
    ensures FamilyOk(Filled(s, h, data), out)
  {
    var s' := Filled(s, h, data);
    forall c | c in s'.rs ensures ParentsOk(s', multiset(s'.rs[c].parents)) {
      assert ParentsOk(s, multiset(s.rs[c].parents));
    }
  }

  lemma FilledCounts(s: State, h: Hash, data: Bytes, out: multiset<Hash>)
    requires FamilyOk(s, out) && CountsOk(s, out) && h in s.rs && s.rs[h].data.None?
    ensures CountsOk(Filled(s, h, data), out) && s.rs[h].deps == 0
  {
    hide Deps, FamilyOk;
    var s' := Filled(s, h, data);
    NoChildren(s, out, h);
    forall q | q in s'.rs ensures s'.rs[q].deps == Deps(s'.rs, q) + out[q] {
      DepsKeep(s.rs, s'.rs, q);
    }
  }

  /** A request without data is nobody's parent. */
  lemma NoChildren(s: State, out: multiset<Hash>, h: Hash)
    requires FamilyOk(s, out) && h in s.rs && s.rs[h].data.None?
    ensures Deps(s.rs, h) == 0 && out[h] == 0
  {
    forall c | c in s.rs.Keys ensures h !in s.rs[c].parents {
      assert ParentsOk(s, multiset(s.rs[c].parents));
    }
    DepSumNone(s.rs, s.rs.Keys, h);
  }

  /** All links of the current request are scheduled. */
  lemma CoveredOk(cfg: Config, root: Hash, s: State, h: Hash, out: multiset<Hash>)
    requires Inv(cfg, root, s, Some(h), out) && h in s.rs && s.rs[h].data.Some?
    requires forall k | Link(cfg, Watched(s.rs[h].entry), h, s.rs[h].data.value, k) :: Covered(s, h, k)
    ensures Inv(cfg, root, s, None, out)
  {
    hide Link, Decodes, DecodeNode, Covered, Known, StoreOk, FamilyOk, CountsOk;
    forall x | x in s.rs ensures RequestOk(cfg, s, x, None) {
      assert RequestOk(cfg, s, x, Some(h));
    }
  }

  // ----- completion

  /** The request is stored as completed; without its data, as empty data. */
  ghost function Completed(s: State, h: Hash): State
    requires h in s.rs
  {
    State(s.db, s.batch[h := if s.rs[h].data.Some? then s.rs[h].data.value else []], s.order + [h], s.rs - {h},
          if Watched(s.rs[h].entry) then s.seen + {h} else s.seen)
  }

  lemma CompletedOk(cfg: Config, root: Hash, s: State, h: Hash, out: multiset<Hash>)
    requires Inv(cfg, root, s, None, out) && h in s.rs && s.rs[h].data.Some? && s.rs[h].deps == 0
    ensures Inv(cfg, root, Completed(s, h), None, out + multiset(s.rs[h].parents))
  {
    hide StoreOk, RequestsOk, FamilyOk, CountsOk, Deps;
    assert Deps(s.rs, h) == 0 && out[h] == 0 by { ZeroCount(s, h, out); }
    CompletedStore(cfg, s, h);
    CompletedRequests(cfg, s, h);
    CompletedFamily(s, h, out);
    CompletedCounts(s, h, out);
  }

  lemma ZeroCount(s: State, h: Hash, out: multiset<Hash>)
    requires CountsOk(s, out) && h in s.rs && s.rs[h].deps == 0
    ensures Deps(s.rs, h) == 0 && out[h] == 0
  {
    hide Deps;
  }

  lemma CompletedStore(cfg: Config, s: State, h: Hash)
    requires StoreOk(cfg, s) && RequestsOk(cfg, s, None) && h in s.rs && s.rs[h].data.Some? && Deps(s.rs, h) == 0
    ensures StoreOk(cfg, Completed(s, h))
  {
    hide Link, Decodes, DecodeNode, Known, Deps, InOrder, Whole;
    var s', data, watch := Completed(s, h), s.rs[h].data.value, Watched(s.rs[h].entry);
    assert RequestOk(cfg, s, h, None);
    forall k | Link(cfg, watch, h, data, k) ensures k in Have(s) {
      assert Covered(s, h, k);
      if k in s.rs {
        DepsZero(s.rs, h, k);
      }
    }
    WholeOf(cfg, watch, h, data, Have(s));
    CompletedOrder(cfg, s, h);
  }

  lemma WholeOf(cfg: Config, watch: bool, h: Hash, data: Bytes, have: set<Hash>)
    requires Decodes(cfg, h, data) && forall k | Link(cfg, watch, h, data, k) :: k in have
    ensures Whole(cfg, watch, h, data, have)
  {
    hide Link, Decodes;
  }

  lemma CompletedOrder(cfg: Config, s: State, h: Hash)
    requires InOrder(cfg, s) && h in s.rs && s.rs[h].data.Some? && h !in Have(s) && s.seen <= Have(s)
    requires Whole(cfg, Watched(s.rs[h].entry), h, s.rs[h].data.value, Have(s))
    ensures InOrder(cfg, Completed(s, h))
  {
    hide Whole;
    var s' := Completed(s, h);
    forall i | 0 <= i < |s'.order|
      ensures s'.order[i] in s'.batch
      ensures WholeAt(cfg, s', s'.order[i], s'.db.Keys + Firsts(s'.order, i))
    {
      if i < |s.order| {
        assert WholeAt(cfg, s, s.order[i], s.db.Keys + Firsts(s.order, i));
        assert s'.order[..i] == s.order[..i] && s'.order[i] == s.order[i] != h;
        assert Firsts(s'.order, i) == Firsts(s.order, i);
      } else {
        assert s'.order[..i] == s.order;
        assert Firsts(s'.order, i) == s.batch.Keys;
      }
    }
  }

  lemma CompletedRequests(cfg: Config, s: State, h: Hash)
    requires RequestsOk(cfg, s, None) && h in s.rs && s.rs[h].data.Some?
    ensures RequestsOk(cfg, Completed(s, h), None)
  {
    hide Link, Decodes, DecodeNode, Known;
    var s' := Completed(s, h);
    assert forall a, k :: Covered(s, a, k) ==> Covered(s', a, k);
    forall x | x in s'.rs ensures RequestOk(cfg, s', x, None) {
      assert RequestOk(cfg, s, x, None);
    }
  }

  lemma CompletedFamily(s: State, h: Hash, out: multiset<Hash>)
    requires FamilyOk(s, out) && h in s.rs && s.rs[h].data.Some? && Deps(s.rs, h) == 0 && out[h] == 0
    ensures FamilyOk(Completed(s, h), out + multiset(s.rs[h].parents))
  {
    hide Deps;
    var s' := Completed(s, h);
    DepsZero(s.rs, h, h);
    assert ParentsOk(s, multiset(s.rs[h].parents));
    forall c | c in s'.rs ensures ParentsOk(s', multiset(s'.rs[c].parents)) {
      DepsZero(s.rs, h, c);
      assert ParentsOk(s, multiset(s.rs[c].parents));
    }
  }

  lemma CompletedCounts(s: State, h: Hash, out: multiset<Hash>)
    requires CountsOk(s, out) && h in s.rs && s.rs[h].data.Some?
    ensures CountsOk(Completed(s, h), out + multiset(s.rs[h].parents))
  {
    hide Deps;
    var s' := Completed(s, h);
    forall p | p in s'.rs ensures s'.rs[p].deps == Deps(s'.rs, p) + (out + multiset(s.rs[h].parents))[p] {
      DepsRemove(s.rs, p, h);
    }
  }

  // ----- writing out

  /** The database with the entries of a copied from the batch. */
  ghost function Moved(db: Store, batch: Store, a: set<Hash>): Store {
    db + (map h | h in a && h in batch :: batch[h])
  }

  /** The first i completed entries are in the database. */
  ghost function Flushed(s: State, i: nat): State
    requires i <= |s.order|
  {
    s.(db := Moved(s.db, s.batch, Firsts(s.order, i)))
  }

  lemma FlushedNone(s: State)
    ensures Flushed(s, 0) == s
  {
    assert Flushed(s, 0).db == s.db;
  }

  lemma FlushedStep(s: State, i: nat)
    requires i < |s.order| && s.order[i] in s.batch
    ensures Flushed(s, i + 1) == Flushed(s, i).(db := Flushed(s, i).db[s.order[i] := s.batch[s.order[i]]])
  {
    hide Moved, Firsts;
    FirstsNext(s.order, i);
    OneMore(s.db, s.batch, Firsts(s.order, i), s.order[i]);
  }

  lemma FirstsNext(order: seq<Hash>, i: nat)
    requires i < |order|
    ensures Firsts(order, i + 1) == Firsts(order, i) + {order[i]}
  {
  }

  lemma OneMore(db: Store, batch: Store, a: set<Hash>, h: Hash)
    requires h in batch
    ensures Moved(db, batch, a + {h}) == Moved(db, batch, a)[h := batch[h]]
  {
  }

  lemma OrderAt(cfg: Config, s: State, i: nat)
    requires InOrder(cfg, s) && i < |s.order|
    ensures s.order[i] in s.batch
    ensures Whole(cfg, s.order[i] in s.seen, s.order[i], s.batch[s.order[i]], s.db.Keys + Firsts(s.order, i))
  {
    hide Whole;
    assert WholeAt(cfg, s, s.order[i], s.db.Keys + Firsts(s.order, i));
  }

  lemma FirstsIn(order: seq<Hash>, i: nat, h: Hash) returns (j: nat)
    requires i <= |order| && h in Firsts(order, i)
    ensures j < i && order[j] == h && Firsts(order, j) <= Firsts(order, i)
  {
    j :| 0 <= j < i && order[..i][j] == h;
    assert order[..j] <= order[..i];
  }

  lemma WholeMono(cfg: Config, watch: bool, h: Hash, data: Bytes, a: set<Hash>, b: set<Hash>)
    requires Whole(cfg, watch, h, data, a) && a <= b
    ensures Whole(cfg, watch, h, data, b)
  {
    hide Decodes, Link;
  }

  lemma FlushedShape(cfg: Config, s: State, i: nat)
    requires i <= |s.order| && InOrder(cfg, s)
    ensures var db' := Flushed(s, i).db;
            && Firsts(s.order, i) <= s.batch.Keys && db'.Keys == s.db.Keys + Firsts(s.order, i)
            && forall h | h in db' :: db'[h] == if h in Firsts(s.order, i) then s.batch[h] else s.db[h]
  {
    hide WholeAt;
    forall h | h in Firsts(s.order, i) ensures h in s.batch {
      assert h in s.order[..i];
    }
  }

  /** Every prefix of the writes leaves the database closed. */
  lemma FlushedClosed(cfg: Config, s: State, i: nat)
    requires StoreOk(cfg, s) && i <= |s.order|
    ensures Closed(cfg, Flushed(s, i).db, s.seen)
  {
    hide Whole, Honest, InOrder, Firsts, Flushed;
    FlushedShape(cfg, s, i);
    var db' := Flushed(s, i).db;
    forall h | h in db' ensures Whole(cfg, h in s.seen, h, db'[h], db'.Keys) {
      if h in Firsts(s.order, i) {
        var j := FirstsIn(s.order, i, h);
        OrderAt(cfg, s, j);
        WholeMono(cfg, h in s.seen, h, s.batch[h], s.db.Keys + Firsts(s.order, j), db'.Keys);
      } else {
        WholeMono(cfg, h in s.seen, h, s.db[h], s.db.Keys, db'.Keys);
      }
    }
  }

  lemma FlushedStore(cfg: Config, s: State, i: nat)
    requires StoreOk(cfg, s) && i <= |s.order|
    ensures StoreOk(cfg, Flushed(s, i)) && Have(Flushed(s, i)) == Have(s)
  {
    hide Whole, Closed, Known, InOrder, Firsts;
    FlushedClosed(cfg, s, i);
    FlushedShape(cfg, s, i);
    FlushedOrder(cfg, s, Flushed(s, i));
  }

  lemma FlushedOrder(cfg: Config, s: State, s': State)
    requires InOrder(cfg, s) && s.db.Keys <= s'.db.Keys
    requires s'.order == s.order && s'.batch == s.batch && s'.seen == s.seen
    ensures InOrder(cfg, s')
  {
    hide Whole, Firsts;
    forall j | 0 <= j < |s'.order|
      ensures s'.order[j] in s'.batch && WholeAt(cfg, s', s'.order[j], s'.db.Keys + Firsts(s'.order, j))
    {
      var h, before := s.order[j], Firsts(s.order, j);
      assert WholeAt(cfg, s, h, s.db.Keys + before);
      WholeMono(cfg, h in s.seen, h, s.batch[h], s.db.Keys + before, s'.db.Keys + before);
    }
  }

  /** The bookkeeping does not depend on where the retrieved entries are. */
  lemma MovedOk(cfg: Config, root: Hash, s: State, s': State, out: multiset<Hash>)
    requires Inv(cfg, root, s, None, out) && s'.rs == s.rs && Have(s') == Have(s) && StoreOk(cfg, s')
    ensures Inv(cfg, root, s', None, out)
  {
    hide StoreOk, RequestsOk, FamilyOk, Deps, Have;
    MovedRequests(cfg, s, s');
    MovedFamily(s, s', out);
  }

  lemma MovedRequests(cfg: Config, s: State, s': State)
    requires RequestsOk(cfg, s, None) && s'.rs == s.rs && Have(s') == Have(s)
    ensures RequestsOk(cfg, s', None)
  {
    hide Link, Decodes, Known, Have;
    assert forall a, k :: Covered(s, a, k) <==> Covered(s', a, k);
    forall h | h in s'.rs ensures RequestOk(cfg, s', h, None) {
      assert RequestOk(cfg, s, h, None);
    }
  }

  lemma MovedFamily(s: State, s': State, out: multiset<Hash>)
    requires FamilyOk(s, out) && s'.rs == s.rs
    ensures FamilyOk(s', out)
  {
    forall c | c in s'.rs ensures ParentsOk(s', multiset(s'.rs[c].parents)) {
      assert ParentsOk(s, multiset(s.rs[c].parents));
    }
  }

  lemma FlushedOk(cfg: Config, root: Hash, s: State, i: nat)
    requires Inv(cfg, root, s, None, multiset{}) && i <= |s.order|
    ensures Inv(cfg, root, Flushed(s, i), None, multiset{}) && Closed(cfg, Flushed(s, i).db, s.seen)
  {
    hide StoreOk, RequestsOk, FamilyOk, CountsOk, RootOk, Closed, Have;
    FlushedStore(cfg, s, i);
    FlushedClosed(cfg, s, i);
    MovedOk(cfg, root, s, Flushed(s, i), multiset{});
  }

  lemma ClearedOk(cfg: Config, root: Hash, s: State)
    requires Inv(cfg, root, s, None, multiset{})
    ensures var db' := Flushed(s, |s.order|).db;
            Inv(cfg, root, State(db', map[], [], s.rs, s.seen), None, multiset{}) && db'.Keys == Have(s)
  {
    hide RequestsOk, FamilyOk, CountsOk, RootOk, StoreOk, Flushed, Have;
    var n := |s.order|;
    var s' := State(Flushed(s, n).db, map[], [], s.rs, s.seen);
    ClearedStore(cfg, s);
    MovedOk(cfg, root, s, s', multiset{});
  }

  lemma ClearedStore(cfg: Config, s: State)
    requires StoreOk(cfg, s)
    ensures var s' := State(Flushed(s, |s.order|).db, map[], [], s.rs, s.seen);
            StoreOk(cfg, s') && Have(s') == Have(s) && s'.db.Keys == Have(s)
  {
    hide Whole, Closed, Known, InOrder, Firsts;
    var n := |s.order|;
    FlushedStore(cfg, s, n);
    FlushedShape(cfg, s, n);
    FirstsAll(cfg, s);
    NothingDone(cfg, State(Flushed(s, n).db, map[], [], s.rs, s.seen));
  }

  lemma NothingDone(cfg: Config, s: State)
    requires s.order == [] && s.batch == map[]
    ensures InOrder(cfg, s)
  {
  }

  lemma FirstsAll(cfg: Config, s: State)
    requires InOrder(cfg, s)
    ensures Firsts(s.order, |s.order|) == s.batch.Keys
  {
    hide WholeAt;
    assert s.order[..|s.order|] == s.order;
  }

  // ----- completion

  /** A node with a hashed child is too large to embed. */
  lemma BigAbove(t: Tree, i: nat)
    requires Canon(t) && (t.Ext? || (t.Branch? && i < 17))
    requires var c := if t.Ext? then t.child else t.children[i]; Canon(c) && IsNode(c) && Big(c)
    ensures Big(t)
  {
    hide Canon, EncodeAll, Header;
    if t.Branch? {
      CanonBranch(t);
    }
    var items, j := NodeItem(t).items, if t.Ext? then 1 else i;
    assert items[j] == RefItem(if t.Ext? then t.child else t.children[i]);
    PartLen(items, j);
    EncodeStrLen(items[j].bytes);
    WrapLen(EncodeAll(items));
  }

  /** Nothing below a node small enough to embed is stored on its own. */
  lemma {:induction false} StoredSmall(t: Tree, db: Store)
    requires Canon(t) && (IsNode(t) ==> !Big(t))
    ensures Stored(t, db, false)
    decreases t
  {
    hide Canon, Big, Blob, TreeHash;
    if t.Ext? {
      CanonExt(t);
      if IsNode(t.child) && Big(t.child) {
        BigAbove(t, 0);
      }
      StoredSmall(t.child, db);
    } else if t.Branch? {
      CanonBranch(t);
      forall i | 0 <= i < 17 ensures Stored(t.children[i], db, false) {
        if IsNode(t.children[i]) && Big(t.children[i]) {
          BigAbove(t, i);
        }
        StoredSmall(t.children[i], db);
      }
    }
  }

  /** A closed database that holds the root of a trie holds all of it. */
  lemma {:induction false} ClosedStores(cfg: Config, db: Store, seen: set<Hash>, t: Tree)
    requires Honest(db) && Closed(cfg, db, seen) && Canon(t) && IsNode(t) && KnownTree(t)
    requires TreeHash(t) in db && cfg.entry(TreeHash(t)).TrieNode?
    ensures Stored(t, db, true)
    decreases t, 0
  {
    hide Canon, Big, Blob, Link, DecodeNode, Shallow, KnownTree, Uniform;
    var h := TreeHash(t);
    KnownShape(t);
    assert db[h] == Blob(t);
    assert Whole(cfg, h in seen, h, db[h], db.Keys);
    DecodeNodeOf(t, Some(h), 0, []);
    assert Blob(t) + [] == Blob(t);
    if t.Ext? {
      CanonExt(t);
      KidOf(t, Some(h), 0);
      ChildStored(cfg, db, seen, t, t.child, 0);
    } else {
      CanonBranch(t);
      forall i | 0 <= i < 17 ensures Stored(t.children[i], db, false) {
        KidOf(t, Some(h), i);
        ChildStored(cfg, db, seen, t, t.children[i], i);
      }
    }
  }

  lemma KidOf(t: Tree, hash: Option<Hash>, i: nat)
    requires Canon(t) && (if t.Ext? then i == 0 else t.Branch? && i < 17)
    ensures var c := if t.Ext? then t.child else t.children[i];
            var kids := Kids(Shallow(t, hash, 0));
            Canon(c) && i < |kids| && kids[i] == ShallowRef(c, 0)
  {
    hide Big, TreeHash;
  }

  lemma {:induction false} ChildStored(cfg: Config, db: Store, seen: set<Hash>, t: Tree, c: Tree, i: nat)
    requires Honest(db) && Closed(cfg, db, seen) && Canon(t) && IsNode(t) && Canon(c) && KnownTree(c)
    requires (t.Ext? && c == t.child) || (t.Branch? && i < 17 && c == t.children[i])
    requires cfg.entry(TreeHash(t)).TrieNode? && Whole(cfg, TreeHash(t) in seen, TreeHash(t), Blob(t), db.Keys)
    requires DecodeNode(Some(TreeHash(t)), Blob(t), 0) == Ok(Shallow(t, Some(TreeHash(t)), 0))
    requires i < |Kids(Shallow(t, Some(TreeHash(t)), 0))|
    requires Kids(Shallow(t, Some(TreeHash(t)), 0))[i] == ShallowRef(c, 0)
    ensures Stored(c, db, false)
    decreases c, 1
  {
    hide Canon, Big, Blob, DecodeNode, KnownTree, Honest, Closed, TreeHash;
    var h := TreeHash(t);
    var n := Shallow(t, Some(h), 0);
    if IsNode(c) && Big(c) {
      assert KidLink(cfg, h in seen, Kids(n)[i], TreeHash(c));
      assert Link(cfg, h in seen, h, Blob(t), TreeHash(c));
      ClosedStores(cfg, db, seen, c);
    } else {
      StoredSmall(c, db);
    }
  }
}
