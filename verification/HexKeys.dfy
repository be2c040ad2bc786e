/** The three key encodings of the trie (trie/encoding.go): key bytes, hex
    nibbles with a terminator, and the compact hex-prefix form stored on disk. */
module HexKeys {
  import opened Common

  /** A hex digit, or 16 for the terminator. */
  type nibble = x: int | 0 <= x <= 16
  type Path = seq<nibble>

  const TERM: nibble := 16

  predicate HasTerm(s: Path) {
    |s| > 0 && s[|s| - 1] == TERM
  }

  /** No terminator anywhere. */
  predicate Digits(s: Path) {
    forall i | 0 <= i < |s| :: s[i] < 16
  }

  /** A complete trie key: digits followed by one terminator. */
  predicate Terminated(s: Path) {
    HasTerm(s) && forall i | 0 <= i < |s| - 1 :: s[i] < 16
  }

  /** A key fragment a short node may carry. */
  predicate ValidHex(s: Path) {
    Digits(s) || Terminated(s)
  }

  /** The digits of a hex key, without the terminator. */
  function Body(s: Path): Path {
    if HasTerm(s) then s[..|s| - 1] else s
  }

  function Nibbles(b: Bytes): (p: Path)
    ensures |p| == 2 * |b| && Digits(p)
  {
    if b == [] then [] else [b[0] / 16, b[0] % 16] + Nibbles(b[1..])
  }

  function Join(hi: nibble, lo: nibble): (b: byte)
    requires hi < 16 && lo < 16
    ensures b / 16 == hi && b % 16 == lo
  {
    var h: int := hi;
    16 * h + lo
  }

  function Pack(p: Path): (b: Bytes)
    requires |p| % 2 == 0 && Digits(p)
    ensures |b| == |p| / 2
  {
    if p == [] then [] else [Join(p[0], p[1])] + Pack(p[2..])
  }

  lemma {:induction false} PackNibbles(b: Bytes)
    ensures Pack(Nibbles(b)) == b
  {
    if b != [] {
      PackNibbles(b[1..]);
      assert Nibbles(b)[2..] == Nibbles(b[1..]);
    }
  }

  lemma {:induction false} NibblesPack(p: Path)
    requires |p| % 2 == 0 && Digits(p)
    ensures Nibbles(Pack(p)) == p
  {
    if p != [] {
      NibblesPack(p[2..]);
      assert Pack(p)[1..] == Pack(p[2..]);
    }
  }

  /** KEYBYTES to HEX. */
  function Hex(key: Bytes): (p: Path)
    ensures Terminated(p) && |p| == 2 * |key| + 1
  {
    var p := Nibbles(key) + [TERM];
    assert p[..|p| - 1] == Nibbles(key);
    p
  }

  lemma {:induction false} NibbleAt(b: Bytes, i: nat)
    requires i < |b|
    ensures Nibbles(b)[2 * i] == b[i] / 16 && Nibbles(b)[2 * i + 1] == b[i] % 16
  {
    if i > 0 {
      NibbleAt(b[1..], i - 1);
    }
  }

  method KeybytesToHex(str: Bytes) returns (hex: Path)
    ensures hex == Hex(str)
  {
    hide Nibbles;
    var l := |str| * 2 + 1;
    var nibbles := new nibble[l](_ => 0);
    for i := 0 to |str|
      invariant forall j | 0 <= j < 2 * i :: nibbles[j] == Nibbles(str)[j]
    {
      NibbleAt(str, i);
      nibbles[i * 2] := str[i] / 16;
      nibbles[i * 2 + 1] := str[i] % 16;
    }
    nibbles[l - 1] := TERM;
    hex := nibbles[..];
  }

  /** The key bytes of a terminated key of odd length; the only hex keys that
      come from key bytes. */
  function Unhex(p: Path): (key: Bytes)
    requires Terminated(p) && |p| % 2 == 1
  {
    Pack(p[..|p| - 1])
  }

  lemma UnhexHex(key: Bytes)
    ensures Unhex(Hex(key)) == key
  {
    assert Hex(key)[..|Hex(key)| - 1] == Nibbles(key);
    PackNibbles(key);
  }

  lemma HexUnhex(p: Path)
    requires Terminated(p) && |p| % 2 == 1
    ensures Hex(Unhex(p)) == p
  {
    NibblesPack(p[..|p| - 1]);
  }

  lemma HexInjective(a: Bytes, b: Bytes)
    requires Hex(a) == Hex(b)
    ensures a == b
  {
    UnhexHex(a);
    UnhexHex(b);
  }

  lemma {:induction false} PackAt(p: Path, i: nat)
    requires |p| % 2 == 0 && Digits(p) && 2 * i < |p|
    ensures Pack(p)[i] == Join(p[2 * i], p[2 * i + 1])
  {
    if i > 0 {
      PackAt(p[2..], i - 1);
    }
  }

  /** The buffer fill shared by hexToCompact and hexToKeybytes. */
  method DecodeNibbles(nibbles: Path, bytes: array<byte>, at: nat)
    requires |nibbles| % 2 == 0 && Digits(nibbles)
    requires bytes.Length == at + |nibbles| / 2
    modifies bytes
    ensures bytes[at..] == Pack(nibbles)
    ensures bytes[..at] == old(bytes[..at])
  {
    hide Pack;
    var bi, ni := at, 0;
    while ni < |nibbles|
      invariant at <= bi <= bytes.Length && ni == 2 * (bi - at)
      invariant forall j | 0 <= j < bi - at :: bytes[at + j] == Pack(nibbles)[j]
      invariant forall j | 0 <= j < at :: bytes[j] == old(bytes[j])
    {
      PackAt(nibbles, bi - at);
      bytes[bi] := Join(nibbles[ni], nibbles[ni + 1]);
      bi, ni := bi + 1, ni + 2;
    }
  }

  /** hexToKeybytes, which panics on an odd number of nibbles. */
  method HexToKeybytes(hex: Path) returns (key: Bytes)
    requires ValidHex(hex) && |Body(hex)| % 2 == 0
    ensures key == Pack(Body(hex)) && (Terminated(hex) ==> Hex(key) == hex)
  {
    var nibbles := if HasTerm(hex) then hex[..|hex| - 1] else hex;
    var buf := new byte[(|nibbles| + 1) / 2](_ => 0);
    DecodeNibbles(nibbles, buf, 0);
    key := buf[..];
    assert buf[0..] == buf[..];
    if Terminated(hex) {
      HexUnhex(hex);
    }
  }

  /** HEX to COMPACT: the hex-prefix encoding of Appendix C of the Yellow Paper. */
  function Compact(hex: Path): (c: Bytes)
    requires ValidHex(hex)
    ensures |c| == |Body(hex)| / 2 + 1
  {
    var flag := if HasTerm(hex) then 2 else 0;
    var body := Body(hex);
    if |body| % 2 == 1 then [Join(flag + 1, body[0])] + Pack(body[1..])
    else [Join(flag, 0)] + Pack(body)
  }

  method HexToCompact(hex: Path) returns (compact: Bytes)
    requires ValidHex(hex)
    ensures compact == Compact(hex)
  {
    var terminator, body := 0, hex;
    if HasTerm(hex) {
      terminator, body := 1, hex[..|hex| - 1];
    }
    var buf := new byte[|body| / 2 + 1](_ => 0);
    buf[0] := terminator * 32;
    if |body| % 2 == 1 {
      buf[0] := Join(terminator * 2 + 1, body[0]);
      body := body[1..];
    }
    DecodeNibbles(body, buf, 1);
    compact := buf[..];
    assert compact == buf[..1] + buf[1..];
    assert buf[..1] == [buf[0]];
  }

  /** COMPACT to HEX. The source indexes the first nibble, so an empty input panics. */
  function Expand(compact: Bytes): (hex: Path)
    requires |compact| > 0
  {
    var base := Nibbles(compact);
    var full := if base[0] >= 2 then base + [TERM] else base;
    var chop := 2 - base[0] % 2;
    full[chop..]
  }

  lemma ExpandOdd(c: Bytes)
    requires |c| > 0 && c[0] / 16 % 2 == 1
    ensures Expand(c) == [c[0] % 16] + Nibbles(c[1..]) + if c[0] / 16 >= 2 then [TERM] else []
  {
  }

  lemma ExpandEven(c: Bytes)
    requires |c| > 0 && c[0] / 16 % 2 == 0
    ensures Expand(c) == Nibbles(c[1..]) + if c[0] / 16 >= 2 then [TERM] else []
  {
  }

  lemma HexForm(hex: Path, body: Path, term: bool)
    requires Digits(body) && hex == body + if term then [TERM] else []
    ensures Body(hex) == body && ValidHex(hex) && (HasTerm(hex) <==> term)
  {
    if term {
      assert hex[..|hex| - 1] == body;
    }
  }

  /** A compact key read as flag nibble, leading odd nibble and packed rest. */
  lemma ExpandForm(c: Bytes, lead: Path)
    requires |c| > 0 && lead == if c[0] / 16 % 2 == 1 then [c[0] % 16] else []
    ensures Digits(lead)
    ensures Expand(c) == lead + Nibbles(c[1..]) + if c[0] / 16 >= 2 then [TERM] else []
    ensures Body(Expand(c)) == lead + Nibbles(c[1..])
    ensures ValidHex(Expand(c)) && (HasTerm(Expand(c)) <==> c[0] / 16 >= 2)
  {
    hide Expand, Nibbles;
    if c[0] / 16 % 2 == 1 {
      ExpandOdd(c);
    } else {
      ExpandEven(c);
    }
    HexForm(Expand(c), lead + Nibbles(c[1..]), c[0] / 16 >= 2);
  }

  /** compact is the hex-prefix form of some key: flag at most 3, and a zero
      padding nibble when the length is even. */
  predicate ValidCompact(compact: Bytes) {
    |compact| > 0 && compact[0] / 16 <= 3 && (compact[0] / 16 % 2 == 0 ==> compact[0] % 16 == 0)
  }

  lemma CompactForm(hex: Path, lead: Path, rest: Path)
    requires ValidHex(hex) && |lead| <= 1 && |rest| % 2 == 0
    requires Body(hex) == lead + rest && Digits(rest) && Digits(lead)
    ensures Compact(hex) ==
            [Join((if HasTerm(hex) then 2 else 0) + |lead|, if lead == [] then 0 else lead[0])] + Pack(rest)
  {
    assert |lead| == 1 ==> Body(hex)[1..] == rest;
    assert |lead| == 0 ==> Body(hex) == rest;
  }

  lemma ExpandCompact(hex: Path)
    requires ValidHex(hex)
    ensures ValidCompact(Compact(hex)) && Expand(Compact(hex)) == hex
  {
    hide Compact, Expand, Nibbles, Pack;
    var body := Body(hex);
    if |body| % 2 == 1 {
      assert body == [body[0]] + body[1..];
      ExpandCompactForm(hex, [body[0]], body[1..]);
    } else {
      ExpandCompactForm(hex, [], body);
    }
  }

  lemma ExpandCompactForm(hex: Path, lead: Path, rest: Path)
    requires ValidHex(hex) && |lead| <= 1 && |rest| % 2 == 0
    requires Body(hex) == lead + rest && Digits(rest) && Digits(lead)
    ensures ValidCompact(Compact(hex)) && Expand(Compact(hex)) == hex
  {
    hide Compact, Expand, Nibbles, Pack;
    var c := Compact(hex);
    CompactForm(hex, lead, rest);
    NibblesPack(rest);
    assert c[1..] == Pack(rest);
    ExpandForm(c, lead);
  }

  lemma CompactExpand(c: Bytes)
    requires |c| > 0
    ensures ValidHex(Expand(c))
    ensures Compact(Expand(c)) == c <==> ValidCompact(c)
  {
    hide Compact, Expand, Nibbles, Pack;
    var lead: Path := if c[0] / 16 % 2 == 1 then [c[0] % 16] else [];
    ExpandForm(c, lead);
    if ValidCompact(c) {
      PackNibbles(c[1..]);
      CompactForm(Expand(c), lead, Nibbles(c[1..]));
      assert c == [c[0]] + c[1..];
    } else {
      ExpandCompact(Expand(c));
    }
  }

  /** Length of the longest common prefix. */
  function CommonLen(a: Path, b: Path): (n: nat)
    ensures n <= |a| && n <= |b| && a[..n] == b[..n]
    ensures n < |a| && n < |b| ==> a[n] != b[n]
  {
    if a == [] || b == [] || a[0] != b[0] then 0 else
      var n := 1 + CommonLen(a[1..], b[1..]);
      assert a[..n] == [a[0]] + a[1..][..n - 1] && b[..n] == [b[0]] + b[1..][..n - 1];
      n
  }

  method PrefixLen(a: Path, b: Path) returns (i: nat)
    ensures i == CommonLen(a, b)
  {
    i := 0;
    var length := if |b| < |a| then |b| else |a|;
    while i < length
      invariant i <= length
      invariant CommonLen(a, b) == i + CommonLen(a[i..], b[i..])
    {
      if a[i] != b[i] {
        break;
      }
      i := i + 1;
    }
  }
}
