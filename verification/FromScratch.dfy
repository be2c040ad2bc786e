/** The trie of a set of key-value pairs built directly, by the definition in Appendix D of the
    Yellow Paper: one pair is a leaf, a common prefix is an extension, anything else branches. */
module FromScratch {
  import opened Common
  import opened HexKeys
  import opened Trees
  import opened TrieRuns

  /** What remains of the keys below some point of the trie. */
  type Dict = map<Path, Bytes>

  /** Keys are terminated, or used up. */
  ghost predicate Keyed(m: Dict) {
    && (forall k | k in m :: (k == [] || Terminated(k)) && |m[k]| > 0)
    && ([] in m ==> forall k | k in m :: k == [])
  }

  ghost predicate Bounded(m: Dict, n: nat) {
    forall k | k in m :: |k| <= n
  }

  ghost predicate AllStart(m: Dict, p: Path) {
    forall k | k in m :: p <= k
  }

  ghost predicate Single(m: Dict) {
    forall a, b | a in m && b in m :: a == b
  }

  ghost function Tails(m: Dict, p: Path): (ts: set<Path>)
    ensures forall x :: x in ts <==> p + x in m
  {
    assert forall k | k in m && p <= k :: p + k[|p|..] == k;
    assert forall x :: p + x in m ==> (p + x)[|p|..] == x;
    set k | k in m && p <= k :: k[|p|..]
  }

  /** The pairs whose key starts with p, with p taken off. */
  ghost function Strip(m: Dict, p: Path): Dict {
    map x | x in Tails(m, p) :: m[p + x]
  }

  /** The longest common prefix, from p on. */
  ghost function Longest(m: Dict, p: Path, n: nat): (q: Path)
    requires m != map[] && Bounded(m, n) && AllStart(m, p)
    ensures AllStart(m, q) && forall d :: !AllStart(m, q + [d])
    decreases n - |p|
  {
    PrefixBound(m, p, n);
    if exists d :: AllStart(m, p + [d]) then
      var d :| AllStart(m, p + [d]);
      PrefixBound(m, p + [d], n);
      Longest(m, p + [d], n)
    else p
  }

  lemma PrefixBound(m: Dict, p: Path, n: nat)
    requires m != map[] && Bounded(m, n) && AllStart(m, p)
    ensures |p| <= n
  {
    var k :| k in m;
  }

  ghost function Shared(m: Dict, n: nat): (q: Path)
    requires m != map[] && Bounded(m, n)
    ensures AllStart(m, q) && forall d :: !AllStart(m, q + [d])
  {
    Longest(m, [], n)
  }

  lemma StripBound(m: Dict, p: Path, n: nat)
    requires Bounded(m, n)
    ensures |p| <= n ==> Bounded(Strip(m, p), n - |p|)
  {
  }

  /** The structural composition function. */
  ghost function Build(m: Dict, n: nat): Tree
    requires Bounded(m, n)
    decreases n, 2
  {
    if m == map[] then Empty
    else if [] in m then Leaf(m[[]])
    else if Single(m) then
      var k :| k in m;
      Ext(k, Leaf(m[k]))
    else
      var p := Shared(m, n);
      PrefixBound(m, p, n);
      StripBound(m, p, n);
      if p != [] then Ext(p, Build(Strip(m, p), n - |p|))
      else if n == 0 then Empty
      else Branch(Children(m, n))
  }

  ghost function Children(m: Dict, n: nat): (ch: seq<Tree>)
    requires Bounded(m, n) && n > 0
    ensures |ch| == 17
    decreases n, 1
  {
    seq(17, d requires 0 <= d < 17 => ChildAt(m, n, d))
  }

  ghost function ChildAt(m: Dict, n: nat, d: nibble): Tree
    requires Bounded(m, n) && n > 0
    decreases n, 0
  {
    StripBound(m, [d], n);
    Build(Strip(m, [d]), n - 1)
  }

  // ----- it is the trie of the pairs

  lemma StripKeyed(m: Dict, p: Path)
    requires Keyed(m) && [] !in m && (Digits(p) || p == [TERM])
    ensures Keyed(Strip(m, p))
    ensures p == [TERM] ==> forall k | k in Strip(m, p) :: k == []
  {
    forall k | k in Strip(m, p)
      ensures k == [] || Terminated(k)
      ensures |Strip(m, p)[k]| > 0 && (p == [TERM] ==> k == [])
    {
      TailTerm(p, k);
    }
    if Digits(p) && [] in Strip(m, p) {
      assert p + [] == p && p in m;
    }
  }

  /** A terminated key splits into digits and a terminated rest, or is the terminator. */
  lemma TailTerm(p: Path, k: Path)
    requires Terminated(p + k) && (Digits(p) || p == [TERM])
    ensures if p == [TERM] then k == [] else Terminated(k)
  {
    var all := p + k;
    if p == [TERM] {
      assert all[0] == TERM;
    } else {
      assert k != [] by {
        assert k == [] ==> all == p;
      }
      assert forall i | 0 <= i < |k| :: k[i] == all[|p| + i];
    }
  }

  /** Terminated keys are prefix free. */
  lemma PrefixFree(a: Path, b: Path)
    requires Terminated(a) && Terminated(b) && a <= b
    ensures a == b
  {
    var i := |a| - 1;
    assert b[i] == a[i] == TERM;
  }

  lemma SharedDigits(m: Dict, n: nat)
    requires Keyed(m) && Bounded(m, n) && m != map[] && [] !in m && !Single(m)
    ensures Digits(Shared(m, n)) && forall k | k in m :: Shared(m, n) < k
  {
    hide Shared;
    var p := Shared(m, n);
    var a, b :| a in m && b in m && a != b;
    forall k | k in m ensures p < k {
      if p == k {
        PrefixFree(k, a);
        PrefixFree(k, b);
      }
    }
    assert p < a;
  }

  /** Below the longest common prefix of several keys the trie branches. */
  lemma BelowShared(m: Dict, n: nat)
    requires Keyed(m) && Bounded(m, n) && m != map[] && [] !in m && !Single(m)
    ensures var p := Shared(m, n); var s := Strip(m, p);
            && |p| <= n && Bounded(s, n - |p|) && s != map[] && [] !in s && !Single(s)
            && (forall d :: !AllStart(s, [d])) && Keyed(s)
  {
    hide Shared, Strip, Keyed, Bounded, AllStart;
    var p := Shared(m, n);
    var s := Strip(m, p);
    SharedDigits(m, n);
    PrefixBound(m, p, n);
    StripBound(m, p, n);
    StripKeyed(m, p);
    var a, b :| a in m && b in m && a != b;
    InStrip(m, p, a);
    InStrip(m, p, b);
    assert a[|p|..] != b[|p|..];
    StripIn(m, p, []);
    assert p + [] == p;
    StripStart(m, p);
  }

  lemma StripIn(m: Dict, p: Path, k: Path)
    ensures k in Strip(m, p) <==> p + k in m
    ensures p + k in m ==> Strip(m, p)[k] == m[p + k]
  {
  }

  lemma InStrip(m: Dict, p: Path, k: Path)
    requires k in m && p <= k
    ensures k == p + k[|p|..] && k[|p|..] in Strip(m, p)
  {
    assert k == p + k[|p|..];
  }

  lemma StripStart(m: Dict, p: Path)
    requires AllStart(m, p) && forall d :: !AllStart(m, p + [d])
    ensures forall d :: !AllStart(Strip(m, p), [d])
  {
    hide Strip;
    forall d ensures !AllStart(Strip(m, p), [d]) {
      if AllStart(Strip(m, p), [d]) {
        forall k | k in m ensures p + [d] <= k {
          InStrip(m, p, k);
        }
      }
    }
  }

  /** Two keys of a branching set start differently. */
  lemma Forks(m: Dict) returns (a: Path, b: Path)
    requires Keyed(m) && m != map[] && [] !in m && forall d :: !AllStart(m, [d])
    ensures a in m && b in m && a != [] && b != [] && a[0] != b[0]
  {
    a :| a in m;
    assert !AllStart(m, [a[0]]);
    b :| b in m && !([a[0]] <= b);
  }

  // ----- one step of the construction

  lemma BuildSingle(m: Dict, n: nat) returns (k: Path)
    requires Bounded(m, n) && m != map[] && [] !in m && Single(m)
    ensures k in m && Build(m, n) == Ext(k, Leaf(m[k]))
  {
    k := Build(m, n).key;
  }

  lemma BuildExt(m: Dict, n: nat)
    requires Bounded(m, n) && m != map[] && [] !in m && !Single(m) && Shared(m, n) != []
    ensures var p := Shared(m, n);
            |p| <= n && Bounded(Strip(m, p), n - |p|) && Build(m, n) == Ext(p, Build(Strip(m, p), n - |p|))
  {
    hide Strip, Shared;
    PrefixBound(m, Shared(m, n), n);
    StripBound(m, Shared(m, n), n);
  }

  lemma BuildBranch(m: Dict, n: nat)
    requires Bounded(m, n) && m != map[] && [] !in m && !Single(m) && Shared(m, n) == [] && n > 0
    ensures Build(m, n) == Branch(Children(m, n))
  {
    hide Strip, Shared, Children;
  }

  lemma BuildEnd(m: Dict, n: nat)
    requires Bounded(m, n)
    ensures m == map[] ==> Build(m, n) == Empty
    ensures [] in m ==> Build(m, n) == Leaf(m[[]])
  {
  }

  lemma ChildIs(m: Dict, n: nat, d: nibble)
    requires Bounded(m, n) && n > 0
    ensures Bounded(Strip(m, [d]), n - 1)
    ensures Children(m, n)[d] == ChildAt(m, n, d) == Build(Strip(m, [d]), n - 1)
  {
    hide Strip, Build;
    StripBound(m, [d], n);
  }

  /** The built tree is canonical, and empty or a value just when the pairs say so. */
  lemma {:induction false} BuildCanon(m: Dict, n: nat)
    requires Keyed(m) && Bounded(m, n)
    ensures Canon(Build(m, n))
    ensures Build(m, n).Empty? <==> m == map[]
    ensures Build(m, n).Leaf? <==> [] in m
    ensures m != map[] && [] !in m && !Single(m) && (forall d :: !AllStart(m, [d])) ==> Build(m, n).Branch?
    decreases n, 2
  {
    hide Build, Strip, Shared, Bounded, Children, AllStart;
    BuildEnd(m, n);
    if m != map[] && [] !in m {
      if Single(m) {
        var k := BuildSingle(m, n);
      } else {
        var p := Shared(m, n);
        BelowShared(m, n);
        SharedDigits(m, n);
        if p != [] {
          BuildExt(m, n);
          BuildCanon(Strip(m, p), n - |p|);
          StartsBy(m, p);
        } else {
          StripNone(m);
          BranchCanon(m, n);
          BuildBranch(m, n);
        }
      }
    }
  }

  lemma StartsBy(m: Dict, p: Path)
    requires p != [] && AllStart(m, p)
    ensures AllStart(m, [p[0]])
  {
    assert [p[0]] <= p;
  }

  lemma StripNone(m: Dict)
    ensures Strip(m, []) == m
  {
    assert forall k: Path :: [] + k == k;
  }

  lemma {:induction false} BranchCanon(m: Dict, n: nat)
    requires Keyed(m) && Bounded(m, n) && m != map[] && [] !in m && forall d :: !AllStart(m, [d])
    ensures n > 0 && Canon(Branch(Children(m, n)))
    decreases n, 1
  {
    hide Canon, Strip, Children, Keyed, AllStart;
    var a, b := Forks(m);
    var ch := Children(m, n);
    forall d: nibble ensures Canon(ch[d]) && (d < 16 ==> !ch[d].Leaf?) && (d == 16 ==> ch[d].Leaf? || ch[d].Empty?)
      ensures ch[d].Empty? <==> Strip(m, [d]) == map[]
    {
      ChildIs(m, n, d);
      ChildCanon(m, n, d);
    }
    InStrip(m, [a[0]], a);
    InStrip(m, [b[0]], b);
    CanonOf(ch, a[0], b[0]);
  }

  lemma CanonOf(ch: seq<Tree>, i: nibble, j: nibble)
    requires |ch| == 17 && i != j && !ch[i].Empty? && !ch[j].Empty?
    requires forall d: nibble :: Canon(ch[d]) && (d < 16 ==> !ch[d].Leaf?) && (d == 16 ==> ch[d].Leaf? || ch[d].Empty?)
    ensures Canon(Branch(ch))
  {
    assert TwoUsed(ch) by {
      if i < j {
        assert !ch[i].Empty? && !ch[j].Empty?;
      } else {
        assert !ch[j].Empty? && !ch[i].Empty?;
      }
    }
    assert forall d | 0 <= d < 17 :: Canon(ch[d]);
  }

  lemma {:induction false} ChildCanon(m: Dict, n: nat, d: nibble)
    requires Keyed(m) && Bounded(m, n) && [] !in m && n > 0
    ensures var c := ChildAt(m, n, d);
            && Canon(c) && (d < 16 ==> !c.Leaf?) && (d == 16 ==> c.Leaf? || c.Empty?)
            && (c.Empty? <==> Strip(m, [d]) == map[])
    decreases n, 0
  {
    hide Canon, Build, Strip, Bounded;
    ChildIs(m, n, d);
    StripDigit(m, d);
    BuildCanon(Strip(m, [d]), n - 1);
  }

  /** Below the terminator only the empty key is left, below a digit never. */
  lemma StripDigit(m: Dict, d: nibble)
    requires Keyed(m) && [] !in m
    ensures var s := Strip(m, [d]);
            Keyed(s) && (if d == 16 then s == map[] || [] in s else [] !in s)
  {
    StripKeyed(m, [d]);
    StripIn(m, [d], []);
    assert [d] + [] == [d];
    var s := Strip(m, [d]);
    if d == 16 && s != map[] {
      var k :| k in s;
      assert k == [];
    }
  }

  function Get(m: Dict, k: Path): Option<Bytes> {
    if k in m then Some(m[k]) else None
  }

  lemma StripGet(m: Dict, p: Path, k: Path)
    requires p <= k
    ensures Get(Strip(m, p), k[|p|..]) == Get(m, k)
  {
    assert p + k[|p|..] == k;
  }

  /** It answers every lookup as the pairs do. */
  lemma {:induction false} BuildLookup(m: Dict, n: nat, k: Path)
    requires Keyed(m) && Bounded(m, n) && (if [] in m then k == [] else Terminated(k) || m == map[])
    ensures Lookup(Build(m, n), k) == Get(m, k)
    decreases n, 1
  {
    hide Build, Strip, Shared, Bounded, Children, AllStart;
    BuildEnd(m, n);
    if m != map[] && [] !in m {
      if Single(m) {
        var key := BuildSingle(m, n);
        if key <= k {
          PrefixFree(key, k);
        }
      } else {
        var p := Shared(m, n);
        BelowShared(m, n);
        SharedDigits(m, n);
        if p == [] {
          StripNone(m);
          ChildLookup(m, n, k);
        } else {
          BuildExt(m, n);
          if p <= k {
            StripGet(m, p, k);
            assert p + k[|p|..] == k;
            TailTerm(p, k[|p|..]);
            BuildLookup(Strip(m, p), n - |p|, k[|p|..]);
          }
        }
      }
    }
  }

  lemma {:induction false} ChildLookup(m: Dict, n: nat, k: Path)
    requires Keyed(m) && Bounded(m, n) && m != map[] && [] !in m && !Single(m) && Shared(m, n) == [] && Terminated(k)
    requires forall d :: !AllStart(m, [d])
    ensures Lookup(Build(m, n), k) == Get(m, k)
    decreases n, 0
  {
    hide Build, Strip, Shared, Bounded, Children, AllStart, Canon;
    var d := k[0];
    BranchCanon(m, n);
    BuildBranch(m, n);
    ChildIs(m, n, d);
    StripDigit(m, d);
    assert k == [d] + k[1..];
    StripGet(m, [d], k);
    TailTerm([d], k[1..]);
    BuildLookup(Strip(m, [d]), n - 1, k[1..]);
  }

  // ----- byte keys

  ghost function HexDict(m: Contents): Dict {
    HexOnce();
    map key | key in m :: Hex(key) := m[key]
  }

  lemma HexOnce()
    ensures forall a, b | Hex(a) == Hex(b) :: a == b
  {
    hide Hex;
    forall a, b | Hex(a) == Hex(b) ensures a == b {
      HexInjective(a, b);
    }
  }

  lemma HexDictAt(m: Contents, k: Path)
    ensures k in HexDict(m) <==> Terminated(k) && |k| % 2 == 1 && Unhex(k) in m
    ensures k in HexDict(m) ==> HexDict(m)[k] == m[Unhex(k)]
  {
    hide HexDict, Hex, Unhex;
    if k in HexDict(m) {
      var key := HexDictKey(m, k);
      HexShape(key);
      UnhexHex(key);
      HexDictOf(m, key);
    } else if Terminated(k) && |k| % 2 == 1 && Unhex(k) in m {
      HexUnhex(k);
      HexDictOf(m, Unhex(k));
    }
  }

  lemma HexShape(key: Bytes)
    ensures Terminated(Hex(key)) && |Hex(key)| % 2 == 1
  {
  }

  lemma HexDictOf(m: Contents, key: Bytes)
    requires key in m
    ensures Hex(key) in HexDict(m) && HexDict(m)[Hex(key)] == m[key]
  {
    hide Hex;
    HexOnce();
  }

  lemma HexDictKey(m: Contents, k: Path) returns (key: Bytes)
    requires k in HexDict(m)
    ensures key in m && Hex(key) == k
  {
    hide Hex;
    key :| key in m && Hex(key) == k;
  }

  /** The direct construction holds exactly the given pairs, so every run of the trie that
      reaches these pairs reaches this very tree. */
  lemma BuildHolds(m: Contents, n: nat)
    requires (forall key | key in m :: |m[key]| > 0) && Bounded(HexDict(m), n)
    ensures Holds(Build(HexDict(m), n), m)
  {
    hide Canon, Build, HexDict, Bounded, Unhex;
    var d := HexDict(m);
    forall k ensures k in d <==> Terminated(k) && |k| % 2 == 1 && Unhex(k) in m
             ensures k in d ==> d[k] == m[Unhex(k)] {
      HexDictAt(m, k);
    }
    assert Keyed(d);
    BuildCanon(d, n);
    forall k | Terminated(k) ensures Lookup(Build(d, n), k) == At(m, k) {
      BuildLookup(d, n, k);
    }
  }

  lemma RunBuilds(ops: seq<Op>, n: nat)
    requires Bounded(HexDict(MapRun(map[], ops)), n)
    ensures Run(Empty, ops) == Build(HexDict(MapRun(map[], ops)), n)
  {
    hide Build, HexDict;
    var m := MapRun(map[], ops);
    EmptyHolds();
    RunHolds(Empty, map[], ops);
    BuildHolds(m, n);
    HoldsUnique(Run(Empty, ops), Build(HexDict(m), n), m);
  }
}
