/**
 * The byte stream that `digest_tree` feeds to SHA-256: what it depends on, and what it
 * determines.
 */
module TreeDigest {
  import opened Prelude
  import opened Utf8
  import opened PathOrder
  import opened Streams
  import Frames

  const SLASH: Byte := 47

  datatype SpecialKind = Fifo | CharDevice | BlockDevice | Socket

  /**
   * A file system object. `unread` stands for every attribute the digest never looks at: owner,
   * times, extended attributes, the device number of a special file.
   */
  datatype Inode =
    | Dir(perm: nat, size: U64, unread: nat, entries: Tree)
    | Regular(perm: nat, unread: nat, content: Bytes)
    | Symlink(perm: nat, unread: nat, target: Bytes)
    | Special(kind: SpecialKind, perm: nat, unread: nat)

  datatype Entry = Entry(name: Bytes, node: Inode)

  /** The entries of a directory, in the order `read_dir` happens to list them. */
  type Tree = seq<Entry>

  /** File type bits of `st_mode` (S_IFREG, S_IFLNK, ...) above twelve permission bits. */
  function TypeBits(n: Inode): nat {
    match n
    case Special(Fifo, _, _) => 1
    case Special(CharDevice, _, _) => 2
    case Dir(_, _, _, _) => 4
    case Special(BlockDevice, _, _) => 6
    case Regular(_, _, _) => 8
    case Symlink(_, _, _) => 10
    case Special(Socket, _, _) => 12
  }

  function Perm(n: Inode): nat {
    match n
    case Dir(perm, _, _, _) => perm
    case Regular(perm, _, _) => perm
    case Symlink(perm, _, _) => perm
    case Special(_, perm, _) => perm
  }

  function Mode(n: Inode): nat { TypeBits(n) * 4096 + Perm(n) }

  /** `st_size`. */
  function Len(n: Inode): nat {
    match n
    case Dir(_, size, _, _) => size
    case Regular(_, _, content) => |content|
    case Symlink(_, _, target) => |target|
    case Special(_, _, _) => 0
  }

  /** The part of the stream after the header: link target or file content. */
  function Body(n: Inode): Bytes {
    match n
    case Symlink(_, _, target) => Lossy(target)
    case Regular(_, _, content) => content
    case _ => []
  }

  // ---- Well-formed trees ------------------------------------------------------------------

  predicate GoodName(name: Bytes) { name != [] && 0 !in name && SLASH !in name }

  /** What every file system guarantees: legal names, distinct within a directory, fields in range. */
  predicate GoodTree(t: Tree)
    decreases t, 1
  {
    t == [] || (GoodEntry(t[0]) && FindName(t[1..], t[0].name).None? && GoodTree(t[1..]))
  }

  predicate GoodEntry(e: Entry)
    decreases e, 0
  {
    && GoodName(e.name)
    && Perm(e.node) < 4096
    && Len(e.node) < U64_LIMIT
    && (e.node.Dir? ==> GoodTree(e.node.entries))
  }

  function FindName(t: Tree, name: Bytes): (r: Option<Inode>) {
    if t == [] then None else if t[0].name == name then Some(t[0].node) else FindName(t[1..], name)
  }

  /** `lstat` of a relative path. */
  function Stat(t: Tree, p: RelPath): Option<Inode>
    decreases |p|
  {
    if p == [] then None
    else
      match FindName(t, p[0])
      case None => None
      case Some(n) => if |p| == 1 then Some(n) else if n.Dir? then Stat(n.entries, p[1..]) else None
  }

  // ---- The walk ---------------------------------------------------------------------------

  function Walk(prefix: RelPath, t: Tree): seq<RelPath>
    decreases t
  {
    if t == [] then []
    else
      [prefix + [t[0].name]]
      + (if t[0].node.Dir? then Walk(prefix + [t[0].name], t[0].node.entries) else [])
      + Walk(prefix, t[1..])
  }

  method CollectPaths(prefix: RelPath, current: Tree, before: seq<RelPath>) returns (out: seq<RelPath>)
    ensures out == before + Walk(prefix, current)
    decreases current
  {
    out := before;
    var i := 0;
    ghost var all := before + Walk(prefix, current);
    assert current[0..] == current;
    while i < |current|
      invariant i <= |current| && out + Walk(prefix, current[i..]) == all
    {
      var e := current[i];
      ghost var was, rest := out, Walk(prefix, current[i + 1..]);
      WalkAt(prefix, current, i);
      out := out + [prefix + [e.name]];
      if e.node.Dir? {
        out := CollectPaths(prefix + [e.name], e.node.entries, out);
        Flatten(was, [prefix + [e.name]], Walk(prefix + [e.name], e.node.entries), rest);
      } else {
        Flatten(was, [prefix + [e.name]], [], rest);
        assert out + [] == out;
      }
      i := i + 1;
    }
    assert current[i..] == [];
    assert out + [] == out;
  }

  lemma Flatten(a: seq<RelPath>, b: seq<RelPath>, c: seq<RelPath>, d: seq<RelPath>)
    ensures a + (b + c + d) == a + b + c + d
  {
  }

  lemma WalkAt(prefix: RelPath, t: Tree, i: nat)
    requires i < |t|
    ensures Walk(prefix, t[i..]) ==
            [prefix + [t[i].name]]
            + (if t[i].node.Dir? then Walk(prefix + [t[i].name], t[i].node.entries) else [])
            + Walk(prefix, t[i + 1..])
  {
    assert t[i..][0] == t[i] && t[i..][1..] == t[i + 1..];
  }

  // ---- The stream -------------------------------------------------------------------------

  /** The path as text: components joined by slashes. */
  function Join(p: RelPath): Bytes {
    if p == [] then [] else if |p| == 1 then p[0] else p[0] + [SLASH] + Join(p[1..])
  }

  function Fields(n: Inode): (f: Bytes)
    ensures |f| == 12
  {
    BigEndian(Mode(n), 4) + BigEndian(Len(n), 8)
  }

  /** The path as it is hashed. */
  function Text(p: RelPath): Bytes { Lossy(Join(p)) }

  function Record(p: RelPath, n: Inode): Bytes { Text(p) + [0] + (Fields(n) + Body(n)) }

  function Records(t: Tree, ps: seq<RelPath>): Bytes
    requires forall p :: p in ps ==> Stat(t, p).Some?
  {
    if ps == [] then []
    else
      assert ps == [ps[0]] + ps[1..];
      Record(ps[0], Stat(t, ps[0]).value) + Records(t, ps[1..])
  }

  /** `st_mode` of each kind of object, in the octal of its manual page. */
  lemma ModeIs(n: Inode)
    ensures Mode(n) == Perm(n) + match n {
              case Special(Fifo, _, _) => 0x1000
              case Special(CharDevice, _, _) => 0x2000
              case Dir(_, _, _, _) => 0x4000
              case Special(BlockDevice, _, _) => 0x6000
              case Regular(_, _, _) => 0x8000
              case Symlink(_, _, _) => 0xA000
              case Special(Socket, _, _) => 0xC000
            }
  {
  }

  /** The eight bytes of a number, most significant first. */
  function EightBytes(n: int): (h: Bytes)
    requires 0 <= n < 0x1_0000_0000_0000_0000
    ensures |h| == 8
  {
    Frames.Header(n / 0x1_0000_0000) + Frames.Header(n % 0x1_0000_0000)
  }

  /** A record: the path with slashes as text, a zero byte, four bytes of mode, eight of size, then content or target. */
  lemma RecordLayout(p: RelPath, n: Inode)
    requires Perm(n) < 4096 && Len(n) < U64_LIMIT
    ensures Record(p, n) == Lossy(Join(p)) + [0] + (Frames.Header(Mode(n)) + EightBytes(Len(n))
                            + (if n.Symlink? then Lossy(n.target) else if n.Regular? then n.content else []))
    ensures Len(n) == if n.Symlink? then |n.target| else if n.Regular? then |n.content| else if n.Dir? then n.size else 0
    ensures Join(p) == if p == [] then [] else if |p| == 1 then p[0] else p[0] + [47] + Join(p[1..])
  {
    Frames.HeaderOf(Mode(n));
    SplitEight(Len(n));
  }

  lemma SplitEight(n: nat)
    requires n < 0x1_0000_0000_0000_0000
    ensures BigEndian(n, 8) == EightBytes(n)
  {
    var high, low := n / 0x1_0000_0000, n % 0x1_0000_0000;
    BigEndianSplits(high, low);
    Frames.HeaderOf(high);
    Frames.HeaderOf(low);
  }

  lemma BigEndianSplits(high: nat, low: nat)
    requires low < 0x1_0000_0000
    ensures BigEndian(high * 0x1_0000_0000 + low, 8) == BigEndian(high, 4) + BigEndian(low, 4)
  {
    Pow256Values();
    LowBytes(high, low, 4);
  }

  lemma {:induction false} LowBytes(high: nat, low: nat, width: nat)
    requires low < Pow256(width)
    ensures BigEndian(high * Pow256(width) + low, 4 + width) == BigEndian(high, 4) + BigEndian(low, width)
  {
    if width == 0 {
      assert BigEndian(high, 4) + [] == BigEndian(high, 4);
    } else {
      var p := Pow256(width - 1);
      var n := high * Pow256(width) + low;
      LowByte(high, p, low, n);
      LowBytes(high, low / 256, width - 1);
      Associate(BigEndian(high, 4), BigEndian(low / 256, width - 1), [low % 256]);
    }
  }

  lemma LowByte(high: nat, p: nat, low: nat, n: nat)
    requires p > 0 && low < 256 * p && n == high * (256 * p) + low
    ensures n % 256 == low % 256 && n / 256 == high * p + low / 256 && low / 256 < p
  {
    Reorder(high, p, low / 256);
    DivModUnique(n, 256, high * p + low / 256, low % 256);
    MulMonotone(p, low / 256, 256);
  }

  lemma Reorder(high: nat, p: nat, q: nat)
    ensures (high * p + q) * 256 == high * (256 * p) + q * 256
  {
  }

  // ---- The walk finds exactly the paths that exist ----------------------------------------

  /** `p` lies below `prefix` and names something in `t`. */
  ghost predicate Names(prefix: RelPath, t: Tree, p: RelPath) {
    |prefix| < |p| && prefix == p[..|prefix|] && Stat(t, p[|prefix|..]).Some?
  }

  lemma BelowIsBelow(prefix: RelPath, name: Bytes, p: RelPath)
    ensures var here := prefix + [name];
            |here| <= |p| && here == p[..|here|] ==> prefix == p[..|prefix|]
  {
    var here := prefix + [name];
    if |here| <= |p| && here == p[..|here|] {
      assert p[..|here|][..|prefix|] == p[..|prefix|];
    }
  }

  lemma {:induction false} WalkIsComplete(prefix: RelPath, t: Tree, p: RelPath)
    requires GoodTree(t)
    ensures p in Walk(prefix, t) <==> Names(prefix, t, p)
    decreases t
  {
    if t != [] {
      var e, rest := t[0], t[1..];
      var here := prefix + [e.name];
      WalkIsComplete(prefix, rest, p);
      if e.node.Dir? { WalkIsComplete(here, e.node.entries, p); }
      if |prefix| < |p| && prefix == p[..|prefix|] {
        var q := p[|prefix|..];
        assert q[0] == p[|prefix|];
        if q[0] == e.name {
          assert here == p[..|here|] && q[1..] == p[|here|..];
          assert Stat(rest, q).None?;
          assert |p| == |here| ==> p == here;
        } else {
          assert p != here && (|here| < |p| ==> here != p[..|here|]);
        }
      } else {
        BelowIsBelow(prefix, e.name, p);
      }
    }
  }

  lemma DistinctAppend(a: seq<RelPath>, b: seq<RelPath>)
    requires Distinct(a) && Distinct(b) && forall p :: p in a ==> p !in b
    ensures Distinct(a + b)
  {
    var c := a + b;
    forall i, j | 0 <= i < j < |c| ensures c[i] != c[j] {
      if i < |a| <= j { assert a[i] in a && b[j - |a|] in b; }
    }
  }

  lemma {:induction false} WalkIsDistinct(prefix: RelPath, t: Tree)
    requires GoodTree(t)
    ensures Distinct(Walk(prefix, t))
    decreases t
  {
    if t != [] {
      var e, rest := t[0], t[1..];
      var here := prefix + [e.name];
      var below := if e.node.Dir? then Walk(here, e.node.entries) else [];
      if e.node.Dir? { WalkIsDistinct(here, e.node.entries); }
      WalkIsDistinct(prefix, rest);
      forall p | p in [here] ensures p !in below {
        if e.node.Dir? { WalkIsComplete(here, e.node.entries, p); }
      }
      DistinctAppend([here], below);
      forall p | p in [here] + below ensures p !in Walk(prefix, rest) {
        WalkIsComplete(prefix, rest, p);
        if e.node.Dir? { WalkIsComplete(here, e.node.entries, p); }
        assert here == p[..|here|];
        assert |here| == |prefix| + 1 && p[|prefix|] == here[|prefix|] == e.name;
        assert p[|prefix|..][0] == e.name;
      }
      DistinctAppend([here] + below, Walk(prefix, rest));
    }
  }

  function SortedPaths(t: Tree): seq<RelPath> { Sort(Walk([], t)) }

  /** Sorting the walk lists every existing path once, in the one sorted order there is. */
  lemma SortedPathsListTree(t: Tree)
    requires GoodTree(t)
    ensures Sorted(SortedPaths(t))
    ensures forall p :: p in SortedPaths(t) <==> Stat(t, p).Some?
  {
    WalkIsDistinct([], t);
    SortSorts(Walk([], t));
    forall p ensures p in Walk([], t) <==> Stat(t, p).Some? {
      WalkIsComplete([], t, p);
      assert p[0..] == p && p[..0] == [];
    }
  }

  /** Everything `digest_tree` hashes, in order. */
  function Stream(t: Tree): Bytes
    requires GoodTree(t)
  {
    SortedPathsListTree(t);
    Records(t, SortedPaths(t))
  }

  lemma RecordsAt(t: Tree, ps: seq<RelPath>, i: nat)
    requires i < |ps| && forall p :: p in ps ==> Stat(t, p).Some?
    ensures Records(t, ps[i..]) == Record(ps[i], Stat(t, ps[i]).value) + Records(t, ps[i + 1..])
  {
    assert ps[i..][0] == ps[i] && ps[i..][1..] == ps[i + 1..];
  }

  /** A tree is digested by hashing its stream; the file reads may return pieces of any size. */
  method DigestTree(hash: Bytes -> string, t: Tree) returns (digest: string)
    requires GoodTree(t)
    ensures digest == hash(Stream(t))
  {
    var found := CollectPaths([], t, []);
    assert [] + Walk([], t) == Walk([], t);
    SortedPathsListTree(t);
    var hashed := HashPaths(t, Sort(found));
    digest := hash(hashed);
  }

  method HashPaths(t: Tree, paths: seq<RelPath>) returns (hashed: Bytes)
    requires forall p :: p in paths ==> Stat(t, p).Some?
    ensures hashed == Records(t, paths)
  {
    hashed := [];
    ghost var all := Records(t, paths);
    assert paths[0..] == paths;
    var i := 0;
    while i < |paths|
      invariant i <= |paths| && all == hashed + Records(t, paths[i..])
    {
      RecordsAt(t, paths, i);
      var next := HashObject(paths[i], Stat(t, paths[i]).value, hashed);
      Associate(hashed, Record(paths[i], Stat(t, paths[i]).value), Records(t, paths[i + 1..]));
      hashed := next;
      i := i + 1;
    }
    assert hashed + [] == hashed;
  }

  method HashObject(p: RelPath, n: Inode, before: Bytes) returns (hashed: Bytes)
    ensures hashed == before + Record(p, n)
  {
    var name := Text(p) + [0];
    hashed := before + name;
    hashed := hashed + BigEndian(Mode(n), 4);
    hashed := hashed + BigEndian(Len(n), 8);
    Associate(before + name, BigEndian(Mode(n), 4), BigEndian(Len(n), 8));
    assert hashed == before + name + Fields(n);
    ghost var header := hashed;
    if n.Symlink? {
      hashed := hashed + Lossy(n.target);
    } else if n.Regular? {
      hashed := HashFile(n.content, hashed);
    } else {
      assert hashed + [] == hashed;
    }
    assert hashed == header + Body(n);
    Associate(before + name, Fields(n), Body(n));
    Associate(before, name, Fields(n) + Body(n));
  }

  method HashFile(content: Bytes, before: Bytes) returns (hashed: Bytes)
    ensures hashed == before + content
  {
    var file := new ByteSource(content);
    hashed := before;
    while true
      invariant file.Valid() && fresh(file)
      invariant before + content == hashed + file.Rest()
      decreases |file.Rest()|
    {
      ghost var rest := file.Rest();
      var piece := file.Read(65536);
      if piece == [] {
        assert hashed + file.Rest() == hashed;
        return;
      }
      hashed := hashed + piece;
    }
  }

  // ---- The stream determines the tree -----------------------------------------------------

  /** What the digest reads of an object: mode (with its type), size, and content or target. */
  datatype View = View(mode: nat, len: nat, body: Bytes)

  function ViewOf(n: Inode): View { View(Mode(n), Len(n), Body(n)) }

  function Seen(t: Tree, p: RelPath): Option<View> {
    match Stat(t, p)
    case None => None
    case Some(n) => Some(ViewOf(n))
  }

  /** Two trees look the same: same paths, types, permissions, sizes, contents and targets. */
  ghost predicate SameContent(t: Tree, u: Tree) {
    forall p :: Seen(t, p) == Seen(u, p)
  }

  predicate GoodPath(p: RelPath) { p != [] && forall i :: 0 <= i < |p| ==> GoodName(p[i]) }

  predicate GoodInode(n: Inode) { Perm(n) < 4096 && Len(n) < U64_LIMIT }

  /** The body is as long as the size field says; fails only for a link target that is not UTF-8. */
  predicate Sized(n: Inode) { n.Symlink? ==> |Lossy(n.target)| == |n.target| }

  ghost predicate SizedTree(t: Tree) { forall p :: Stat(t, p).Some? ==> Sized(Stat(t, p).value) }

  /** Every path and every link target is UTF-8. */
  ghost predicate TextTree(t: Tree) {
    forall p :: Stat(t, p).Some? ==> TextPath(p) && (Stat(t, p).value.Symlink? ==> IsUtf8(Stat(t, p).value.target))
  }

  predicate TextPath(p: RelPath) { forall i :: 0 <= i < |p| ==> IsUtf8(p[i]) }

  lemma BodyLength(n: Inode)
    requires GoodInode(n) && Sized(n)
    ensures |Body(n)| == if Mode(n) / 4096 in {8, 10} then Len(n) else 0
  {
    DivModUnique(Mode(n), 4096, TypeBits(n), Perm(n));
  }

  /** No two records of the two trees can be confused. */
  ghost predicate Unambiguous(t: Tree, u: Tree) {
    forall p, q {:trigger Stat(t, p), Stat(u, q)} :: Stat(t, p).Some? && Stat(u, q).Some? ==>
      !Ambiguous(p, Stat(t, p).value, q, Stat(u, q).value)
  }

  lemma SizedIsUnambiguous(t: Tree, u: Tree)
    requires GoodTree(t) && GoodTree(u) && SizedTree(t) && SizedTree(u)
    ensures Unambiguous(t, u)
  {
    forall p, q | Stat(t, p).Some? && Stat(u, q).Some?
      ensures !Ambiguous(p, Stat(t, p).value, q, Stat(u, q).value)
    {
      StatGood(t, p);
      StatGood(u, q);
      BodyLength(Stat(t, p).value);
      BodyLength(Stat(u, q).value);
    }
  }

  lemma TextIsSized(t: Tree)
    requires TextTree(t)
    ensures SizedTree(t)
  {
    forall p | Stat(t, p).Some? ensures Sized(Stat(t, p).value) {
      var n := Stat(t, p).value;
      if n.Symlink? { Utf8IsKept(n.target); }
    }
  }

  lemma {:induction false} FindNameGood(t: Tree, name: Bytes)
    requires GoodTree(t) && FindName(t, name).Some?
    ensures GoodEntry(Entry(name, FindName(t, name).value))
  {
    if t[0].name != name { FindNameGood(t[1..], name); }
  }

  lemma {:induction false} StatGood(t: Tree, p: RelPath)
    requires GoodTree(t) && Stat(t, p).Some?
    ensures GoodPath(p) && GoodInode(Stat(t, p).value)
    decreases |p|
  {
    FindNameGood(t, p[0]);
    if |p| > 1 {
      StatGood(FindName(t, p[0]).value.entries, p[1..]);
      assert p == [p[0]] + p[1..];
    }
  }

  lemma {:induction false} JoinHasNoNul(p: RelPath)
    requires GoodPath(p)
    ensures 0 !in Join(p)
  {
    if |p| > 1 { JoinHasNoNul(p[1..]); }
  }

  lemma {:induction false} JoinIsText(p: RelPath)
    requires TextPath(p)
    ensures IsUtf8(Join(p))
  {
    if |p| > 1 {
      JoinIsText(p[1..]);
      Utf8Append(p[0], [SLASH]);
      Utf8Append(p[0] + [SLASH], Join(p[1..]));
    }
  }

  lemma {:induction false} LossyHasNoNul(s: Bytes)
    requires 0 !in s
    ensures 0 !in Lossy(s)
  {
    if s != [] {
      var n := NextChunk(s).0;
      LossyHasNoNul(s[n..]);
      assert 0 !in s[..n];
    }
  }

  lemma DelimiterAt(d: Byte, a: Bytes, x: Bytes)
    requires d !in a
    ensures var s := a + [d] + x;
            s[|a|] == d && (forall i :: 0 <= i < |a| ==> s[i] != d) && s[..|a|] == a && s[|a| + 1..] == x
  {
  }

  /** The first occurrence of a delimiter is where it is. */
  lemma FirstDelimiter(d: Byte, a: Bytes, x: Bytes, b: Bytes, y: Bytes)
    requires d !in a && d !in b && a + [d] + x == b + [d] + y
    ensures a == b && x == y
  {
    DelimiterAt(d, a, x);
    DelimiterAt(d, b, y);
  }

  lemma EqualSplit(a: Bytes, x: Bytes, b: Bytes, y: Bytes)
    requires |a| == |b| && a + x == b + y
    ensures a == b && x == y
  {
    assert a == (a + x)[..|a|] && b == (b + y)[..|b|];
    assert x == (a + x)[|a|..] && y == (b + y)[|b|..];
  }

  lemma JoinSlash(p: RelPath)
    requires GoodPath(p)
    ensures SLASH in Join(p) <==> |p| > 1
  {
    if |p| > 1 { assert Join(p)[|p[0]|] == SLASH; }
  }

  lemma {:induction false} JoinInjective(p: RelPath, q: RelPath)
    requires GoodPath(p) && GoodPath(q) && Join(p) == Join(q)
    ensures p == q
  {
    if |p| > 1 && |q| > 1 {
      FirstDelimiter(SLASH, p[0], Join(p[1..]), q[0], Join(q[1..]));
      JoinInjective(p[1..], q[1..]);
      assert p == [p[0]] + p[1..] && q == [q[0]] + q[1..];
    } else {
      assert |p| == 1 ==> p == [p[0]];
      assert |q| == 1 ==> q == [q[0]];
      JoinSlash(p);
      JoinSlash(q);
    }
  }

  lemma FieldsDecode(n: Inode, m: Inode)
    requires GoodInode(n) && GoodInode(m) && Fields(n) == Fields(m)
    ensures Mode(n) == Mode(m) && Len(n) == Len(m)
  {
    Pow256Values();
    EqualSplit(BigEndian(Mode(n), 4), BigEndian(Len(n), 8), BigEndian(Mode(m), 4), BigEndian(Len(m), 8));
    BigEndianRoundTrip(Mode(n), 4);
    BigEndianRoundTrip(Mode(m), 4);
    BigEndianRoundTrip(Len(n), 8);
    BigEndianRoundTrip(Len(m), 8);
  }

  lemma Regroup(h: Bytes, f: Bytes, b: Bytes, x: Bytes)
    ensures h + (f + b) + x == h + (f + (b + x))
  {
    Associate(h, f + b, x);
    Associate(f, b, x);
  }

  /**
   * Two records that a stream can confuse: same text, mode and size, but different bodies of
   * which one continues the other.
   */
  predicate Ambiguous(p: RelPath, n: Inode, q: RelPath, m: Inode) {
    && Text(p) == Text(q) && Mode(n) == Mode(m) && Len(n) == Len(m)
    && Body(n) != Body(m) && (Body(n) <= Body(m) || Body(m) <= Body(n))
  }

  /** Whatever follows them, the two records read back as what they are. */
  ghost predicate ToldApart(p: RelPath, n: Inode, q: RelPath, m: Inode) {
    forall x: Bytes, y: Bytes :: Record(p, n) + x == Record(q, m) + y ==>
      Text(p) == Text(q) && ViewOf(n) == ViewOf(m) && x == y
  }

  lemma RecordDecodes(p: RelPath, n: Inode, x: Bytes, q: RelPath, m: Inode, y: Bytes)
    requires GoodPath(p) && GoodInode(n) && GoodPath(q) && GoodInode(m) && !Ambiguous(p, n, q, m)
    requires Record(p, n) + x == Record(q, m) + y
    ensures Text(p) == Text(q) && ViewOf(n) == ViewOf(m) && x == y
  {
    JoinHasNoNul(p);
    JoinHasNoNul(q);
    LossyHasNoNul(Join(p));
    LossyHasNoNul(Join(q));
    var a, b := Fields(n) + (Body(n) + x), Fields(m) + (Body(m) + y);
    Regroup(Text(p) + [0], Fields(n), Body(n), x);
    Regroup(Text(q) + [0], Fields(m), Body(m), y);
    FirstDelimiter(0, Text(p), a, Text(q), b);
    EqualSplit(Fields(n), Body(n) + x, Fields(m), Body(m) + y);
    FieldsDecode(n, m);
    OneContinuesOther(Body(n), x, Body(m), y);
    EqualSplit(Body(n), x, Body(m), y);
  }

  lemma OneContinuesOther(a: Bytes, x: Bytes, b: Bytes, y: Bytes)
    requires a + x == b + y
    ensures a <= b || b <= a
  {
    if |a| <= |b| { assert (a + x)[..|a|] == a && (b + y)[..|a|] == b[..|a|]; }
    if |b| <= |a| { assert (a + x)[..|b|] == a[..|b|] && (b + y)[..|b|] == b; }
  }

  /** If the body of the second continues that of the first, the rest can stand after the first. */
  lemma ContinuedBodyConfuses(p: RelPath, n: Inode, q: RelPath, m: Inode)
    requires Text(p) == Text(q) && Mode(n) == Mode(m) && Len(n) == Len(m) && Body(n) <= Body(m)
    ensures var more := Body(m)[|Body(n)|..];
            Record(p, n) + more == Record(q, m) + [] && Body(m) == Body(n) + more
  {
    var more := Body(m)[|Body(n)|..];
    assert Fields(n) == Fields(m) && Body(m) == Body(n) + more;
    Regroup(Text(p) + [0], Fields(n), Body(n), more);
    assert Record(q, m) + [] == Record(q, m);
  }

  /** The exact condition under which a record can be read off the front of a stream in only one way. */
  lemma ToldApartIff(p: RelPath, n: Inode, q: RelPath, m: Inode)
    requires GoodPath(p) && GoodInode(n) && GoodPath(q) && GoodInode(m)
    ensures ToldApart(p, n, q, m) <==> !Ambiguous(p, n, q, m)
  {
    if Ambiguous(p, n, q, m) {
      if Body(n) <= Body(m) {
        ContinuedBodyConfuses(p, n, q, m);
      } else {
        ContinuedBodyConfuses(q, m, p, n);
      }
    } else {
      forall x: Bytes, y: Bytes | Record(p, n) + x == Record(q, m) + y
        ensures Text(p) == Text(q) && ViewOf(n) == ViewOf(m) && x == y
      {
        RecordDecodes(p, n, x, q, m, y);
      }
    }
  }

  /** What one record shows: the path as text and the view of the object. */
  datatype Line = Line(text: Bytes, view: View)

  function Lines(t: Tree, ps: seq<RelPath>): (ls: seq<Line>)
    requires forall p :: p in ps ==> Stat(t, p).Some?
    ensures |ls| == |ps| && forall i :: 0 <= i < |ps| ==> ls[i] == Line(Text(ps[i]), ViewOf(Stat(t, ps[i]).value))
  {
    if ps == [] then []
    else
      assert ps == [ps[0]] + ps[1..];
      [Line(Text(ps[0]), ViewOf(Stat(t, ps[0]).value))] + Lines(t, ps[1..])
  }

  /** The listing of a whole tree, in digest order. */
  function Listing(t: Tree): seq<Line>
    requires GoodTree(t)
  {
    SortedPathsListTree(t);
    Lines(t, SortedPaths(t))
  }

  lemma FirstRecordDecodes(t: Tree, p: RelPath, x: Bytes, u: Tree, q: RelPath, y: Bytes)
    requires GoodTree(t) && GoodTree(u) && Unambiguous(t, u) && Stat(t, p).Some? && Stat(u, q).Some?
    requires Record(p, Stat(t, p).value) + x == Record(q, Stat(u, q).value) + y
    ensures Text(p) == Text(q) && ViewOf(Stat(t, p).value) == ViewOf(Stat(u, q).value) && x == y
  {
    StatGood(t, p);
    StatGood(u, q);
    RecordDecodes(p, Stat(t, p).value, x, q, Stat(u, q).value, y);
  }

  predicate Exist(t: Tree, ps: seq<RelPath>) { forall p :: p in ps ==> Stat(t, p).Some? }

  lemma RecordsCons(t: Tree, ps: seq<RelPath>)
    requires Exist(t, ps) && ps != []
    ensures Exist(t, ps[1..]) && Stat(t, ps[0]).Some?
    ensures Records(t, ps) == Record(ps[0], Stat(t, ps[0]).value) + Records(t, ps[1..]) && Records(t, ps) != []
    ensures Lines(t, ps) == [Line(Text(ps[0]), ViewOf(Stat(t, ps[0]).value))] + Lines(t, ps[1..])
  {
  }

  lemma {:induction false} RecordsDecode(t: Tree, ps: seq<RelPath>, u: Tree, qs: seq<RelPath>)
    requires GoodTree(t) && GoodTree(u) && Unambiguous(t, u) && Exist(t, ps) && Exist(u, qs)
    requires Records(t, ps) == Records(u, qs)
    ensures Lines(t, ps) == Lines(u, qs)
  {
    if ps != [] { RecordsCons(t, ps); }
    if qs != [] { RecordsCons(u, qs); }
    if ps != [] && qs != [] {
      FirstRecordDecodes(t, ps[0], Records(t, ps[1..]), u, qs[0], Records(u, qs[1..]));
      RecordsDecode(t, ps[1..], u, qs[1..]);
    }
  }

  lemma {:induction false} LinesAgree(t: Tree, ps: seq<RelPath>, u: Tree, qs: seq<RelPath>)
    requires Exist(t, ps) && Exist(u, qs) && Lines(t, ps) == Lines(u, qs)
    ensures Records(t, ps) == Records(u, qs)
  {
    if ps != [] {
      RecordsCons(t, ps);
      RecordsCons(u, qs);
      assert Lines(t, ps)[0] == Lines(u, qs)[0] && Lines(t, ps)[1..] == Lines(u, qs)[1..];
      LinesAgree(t, ps[1..], u, qs[1..]);
    }
  }

  /**
   * Whatever bytes names and targets are made of, two trees without a pair of records that can
   * be confused are hashed from the same bytes exactly when they are listed alike.
   */
  lemma StreamDecodes(t: Tree, u: Tree)
    requires GoodTree(t) && GoodTree(u) && Unambiguous(t, u)
    ensures Stream(t) == Stream(u) <==> Listing(t) == Listing(u)
  {
    SortedPathsListTree(t);
    SortedPathsListTree(u);
    if Stream(t) == Stream(u) { RecordsDecode(t, SortedPaths(t), u, SortedPaths(u)); }
    if Listing(t) == Listing(u) { LinesAgree(t, SortedPaths(t), u, SortedPaths(u)); }
  }

  lemma TextInjective(p: RelPath, q: RelPath)
    requires GoodPath(p) && GoodPath(q) && TextPath(p) && TextPath(q) && Text(p) == Text(q)
    ensures p == q
  {
    JoinIsText(p);
    JoinIsText(q);
    Utf8IsKept(Join(p));
    Utf8IsKept(Join(q));
    JoinInjective(p, q);
  }

  /** UTF-8 names are told apart by their text, so equal listings are listings of the same paths. */
  lemma ListedAlike(t: Tree, u: Tree, ps: seq<RelPath>, qs: seq<RelPath>)
    requires GoodTree(t) && GoodTree(u) && TextTree(t) && TextTree(u) && Exist(t, ps) && Exist(u, qs)
    requires Lines(t, ps) == Lines(u, qs)
    ensures ps == qs && forall p :: p in ps ==> Seen(t, p) == Seen(u, p)
  {
    assert |ps| == |Lines(t, ps)| == |qs|;
    forall i | 0 <= i < |ps| ensures ps[i] == qs[i] && Seen(t, ps[i]) == Seen(u, ps[i]) {
      assert Lines(t, ps)[i] == Lines(u, qs)[i];
      assert ps[i] in ps && qs[i] in qs;
      StatGood(t, ps[i]);
      StatGood(u, qs[i]);
      TextInjective(ps[i], qs[i]);
    }
  }

  lemma SeenAlike(t: Tree, u: Tree, ps: seq<RelPath>)
    requires Exist(t, ps) && forall p :: p in ps ==> Seen(t, p) == Seen(u, p)
    ensures Exist(u, ps) && Lines(t, ps) == Lines(u, ps)
  {
    forall p | p in ps ensures Stat(u, p).Some? && ViewOf(Stat(t, p).value) == ViewOf(Stat(u, p).value) {
      assert Seen(t, p) == Seen(u, p);
    }
    forall i | 0 <= i < |ps| ensures Lines(t, ps)[i] == Lines(u, ps)[i] { assert ps[i] in ps; }
  }

  lemma SameContentSamePaths(t: Tree, u: Tree)
    requires GoodTree(t) && GoodTree(u) && SameContent(t, u)
    ensures SortedPaths(t) == SortedPaths(u)
  {
    SortedPathsListTree(t);
    SortedPathsListTree(u);
    forall p ensures p in SortedPaths(t) <==> p in SortedPaths(u) { assert Seen(t, p) == Seen(u, p); }
    SortedIsUnique(SortedPaths(t), SortedPaths(u));
  }

  /** The stream is a function of the content: listing order never shows, for any names. */
  lemma SameContentSameStream(t: Tree, u: Tree)
    requires GoodTree(t) && GoodTree(u) && SameContent(t, u)
    ensures Listing(t) == Listing(u) && Stream(t) == Stream(u)
  {
    var ps := SortedPaths(t);
    SortedPathsListTree(t);
    SameContentSamePaths(t, u);
    SeenAlike(t, u, ps);
    LinesAgree(t, ps, u, ps);
  }

  /**
   * The central result. Two trees are hashed from the same bytes exactly when they have the
   * same content: enumeration order never shows, and nothing the digest reads is ambiguous.
   */
  lemma StreamIsCanonicalAndInjective(t: Tree, u: Tree)
    requires GoodTree(t) && GoodTree(u) && TextTree(t) && TextTree(u)
    ensures Stream(t) == Stream(u) <==> SameContent(t, u)
  {
    TextIsSized(t);
    TextIsSized(u);
    SizedIsUnambiguous(t, u);
    StreamDecodes(t, u);
    SortedPathsListTree(t);
    SortedPathsListTree(u);
    if Listing(t) == Listing(u) {
      ListedAlike(t, u, SortedPaths(t), SortedPaths(u));
      forall p ensures Seen(t, p) == Seen(u, p) {
        assert p in SortedPaths(t) <==> Stat(t, p).Some?;
        assert p in SortedPaths(u) <==> Stat(u, p).Some?;
      }
    }
    if SameContent(t, u) { SameContentSameStream(t, u); }
  }

  ghost predicate Collision(hash: Bytes -> string, a: Bytes, b: Bytes) {
    a != b && hash(a) == hash(b)
  }

  /** Equal digests mean equal content, or else exhibit a collision of the hash function. */
  lemma EqualDigests(hash: Bytes -> string, t: Tree, u: Tree)
    requires GoodTree(t) && GoodTree(u) && TextTree(t) && TextTree(u) && hash(Stream(t)) == hash(Stream(u))
    ensures SameContent(t, u) || Collision(hash, Stream(t), Stream(u))
  {
    StreamIsCanonicalAndInjective(t, u);
  }

  // ---- What the stream does not determine --------------------------------------------------

  /** The same tree with every attribute the digest does not read set to zero. */
  function Scrubbed(t: Tree): Tree
    decreases t
  {
    if t == [] then [] else [Entry(t[0].name, ScrubbedNode(t[0].node))] + Scrubbed(t[1..])
  }

  function ScrubbedNode(n: Inode): Inode
    decreases n
  {
    match n
    case Dir(perm, size, _, entries) => Dir(perm, size, 0, Scrubbed(entries))
    case Regular(perm, _, content) => Regular(perm, 0, content)
    case Symlink(perm, _, target) => Symlink(perm, 0, target)
    case Special(kind, perm, _) => Special(kind, perm, 0)
  }

  lemma {:induction false} FindScrubbed(t: Tree, name: Bytes)
    ensures FindName(Scrubbed(t), name) ==
            match FindName(t, name) { case None => None case Some(n) => Some(ScrubbedNode(n)) }
  {
    if t != [] { FindScrubbed(t[1..], name); }
  }

  lemma {:induction false} StatScrubbed(t: Tree, p: RelPath)
    ensures Seen(Scrubbed(t), p) == Seen(t, p)
    decreases |p|
  {
    if p != [] {
      FindScrubbed(t, p[0]);
      var found := FindName(t, p[0]);
      if |p| > 1 && found.Some? && found.value.Dir? { StatScrubbed(found.value.entries, p[1..]); }
    }
  }

  /** Device numbers, owners, times and extended attributes never reach the hash, in any tree. */
  lemma UnreadAttributesAreUnread(t: Tree, u: Tree)
    requires GoodTree(t) && GoodTree(u) && Scrubbed(t) == Scrubbed(u)
    ensures SameContent(t, u) && Stream(t) == Stream(u)
  {
    forall p ensures Seen(t, p) == Seen(u, p) {
      StatScrubbed(t, p);
      StatScrubbed(u, p);
    }
    SameContentSameStream(t, u);
  }

  /**
   * Two records are the same bytes exactly when the paths read the same as text and the objects
   * look the same. For names that are not UTF-8 that is less than being the same path.
   */
  lemma RecordsCollideIff(p: RelPath, n: Inode, q: RelPath, m: Inode)
    requires GoodPath(p) && GoodInode(n) && GoodPath(q) && GoodInode(m)
    ensures Record(p, n) == Record(q, m) <==> Text(p) == Text(q) && ViewOf(n) == ViewOf(m)
  {
    if Record(p, n) == Record(q, m) { SameRecord(p, n, q, m); }
    if ViewOf(n) == ViewOf(m) { assert Fields(n) == Fields(m) && Body(n) == Body(m); }
  }

  lemma SameRecord(p: RelPath, n: Inode, q: RelPath, m: Inode)
    requires GoodPath(p) && GoodInode(n) && GoodPath(q) && GoodInode(m) && Record(p, n) == Record(q, m)
    ensures Text(p) == Text(q) && ViewOf(n) == ViewOf(m)
  {
    JoinHasNoNul(p);
    JoinHasNoNul(q);
    LossyHasNoNul(Join(p));
    LossyHasNoNul(Join(q));
    FirstDelimiter(0, Text(p), Fields(n) + Body(n), Text(q), Fields(m) + Body(m));
    EqualSplit(Fields(n), Body(n), Fields(m), Body(m));
    FieldsDecode(n, m);
  }

  /** An object that is not a directory, so that a tree can be given entry by entry. */
  predicate Leaf(n: Inode) { !n.Dir? && GoodInode(n) }

  function One(name: Bytes, n: Inode): Tree { [Entry(name, n)] }

  lemma StatOne(name: Bytes, n: Inode, p: RelPath)
    requires Leaf(n) && GoodName(name)
    ensures GoodTree(One(name, n))
    ensures Stat(One(name, n), p) == if p == [name] then Some(n) else None
  {
    assert One(name, n)[1..] == [];
    assert GoodEntry(One(name, n)[0]);
    if p != [] { assert FindName(One(name, n), p[0]) == if p[0] == name then Some(n) else None; }
    if |p| == 1 { assert p == [p[0]]; }
  }

  lemma StreamOfOne(name: Bytes, n: Inode)
    requires Leaf(n) && GoodName(name)
    ensures GoodTree(One(name, n)) && Stream(One(name, n)) == Record([name], n)
  {
    var t, ps := One(name, n), [[name]];
    StatOne(name, n, [name]);
    SortedPathsListTree(t);
    forall q ensures q in SortedPaths(t) <==> q in ps { StatOne(name, n, q); }
    SortedIsUnique(SortedPaths(t), ps);
    RecordsCons(t, ps);
    assert ps[1..] == [] && Record([name], n) + [] == Record([name], n);
  }

  /** Names that are not UTF-8 are replaced: two trees with different files have one stream. */
  lemma LossyNamesCollide(n: Inode)
    requires Leaf(n)
    ensures var t, u := One([0xFF], n), One([0xFE], n);
            GoodTree(t) && GoodTree(u) && Stream(t) == Stream(u) && !SameContent(t, u)
  {
    var t, u := One([0xFF], n), One([0xFE], n);
    StreamOfOne([0xFF], n);
    StreamOfOne([0xFE], n);
    assert Lossy([0xFF]) == REPLACEMENT + Lossy([]);
    assert Lossy([0xFE]) == REPLACEMENT + Lossy([]);
    StatOne([0xFF], n, [[0xFF]]);
    StatOne([0xFE], n, [[0xFF]]);
    assert Seen(t, [[0xFF]]) != Seen(u, [[0xFF]]);
  }

  function Two(a: Bytes, n: Inode, b: Bytes, m: Inode): Tree { [Entry(a, n), Entry(b, m)] }

  lemma StatTwo(a: Bytes, n: Inode, b: Bytes, m: Inode, p: RelPath)
    requires Leaf(n) && Leaf(m) && GoodName(a) && GoodName(b) && a != b
    ensures GoodTree(Two(a, n, b, m))
    ensures Stat(Two(a, n, b, m), p) == if p == [a] then Some(n) else if p == [b] then Some(m) else None
  {
    var t := Two(a, n, b, m);
    assert t[1..] == One(b, m);
    StatOne(b, m, p);
    assert GoodEntry(t[0]);
    assert FindName(t[1..], a) == None;
    if p != [] { assert FindName(t, p[0]) == if p[0] == a then Some(n) else FindName(One(b, m), p[0]); }
    if |p| == 1 { assert p == [p[0]]; }
  }

  lemma StreamOfTwo(a: Bytes, n: Inode, b: Bytes, m: Inode)
    requires Leaf(n) && Leaf(m) && GoodName(a) && GoodName(b) && a[0] < b[0]
    ensures GoodTree(Two(a, n, b, m)) && SortedPaths(Two(a, n, b, m)) == [[a], [b]]
    ensures Stream(Two(a, n, b, m)) == Record([a], n) + Record([b], m)
  {
    var t, ps := Two(a, n, b, m), [[a], [b]];
    StatTwo(a, n, b, m, [a]);
    StatTwo(a, n, b, m, [b]);
    SortedPathsListTree(t);
    assert PathLess([a], [b]) by { assert NameLess(a, b); }
    forall q ensures q in SortedPaths(t) <==> q in ps { StatTwo(a, n, b, m, q); }
    SortedIsUnique(SortedPaths(t), ps);
    RecordsCons(t, ps);
    assert ps[1..] == [[b]];
    RecordsCons(t, [[b]]);
    assert [[b]][1..] == [] && Record([b], m) + [] == Record([b], m);
  }

  const BANG: Bytes := [33]

  /**
   * A link target that is not UTF-8 grows when it is replaced, and nothing tells where it ends:
   * the target FF 'x' 'y' followed by "b" is hashed from the same bytes as the target U+FFFD
   * followed by "xyb". A digest comparison accepts either tree for the other, without any
   * collision of the hash function.
   */
  lemma UnsizedTargetsCollide(perm: nat, m: Inode)
    requires perm < 4096 && Leaf(m)
    ensures var t := Two(BANG, Symlink(perm, 0, [0xFF, 120, 121]), [98], m);
            var u := Two(BANG, Symlink(perm, 0, REPLACEMENT), [120, 121, 98], m);
            && GoodTree(t) && GoodTree(u) && Stream(t) == Stream(u)
            && Listing(t) != Listing(u) && !SameContent(t, u)
  {
    var a, b := Symlink(perm, 0, [0xFF, 120, 121]), Symlink(perm, 0, REPLACEMENT);
    TargetRunsOver(perm, m);
    TextsDiffer();
    TwoCollide(BANG, a, b, [98], [120, 121, 98], m);
  }

  lemma TextsDiffer()
    ensures Text([[98]]) != Text([[120, 121, 98]])
  {
    PlainText([98]);
    PlainText([120, 121, 98]);
    assert |Text([[98]])| == 1 && |Text([[120, 121, 98]])| == 3;
  }

  /** Two trees of two entries each, made of the same bytes but read differently. */
  lemma TwoCollide(a: Bytes, n: Inode, k: Inode, b: Bytes, c: Bytes, m: Inode)
    requires Leaf(n) && Leaf(k) && Leaf(m) && GoodName(a) && GoodName(b) && GoodName(c)
    requires a[0] < b[0] && a[0] < c[0] && Text([b]) != Text([c])
    requires Record([a], n) + Record([b], m) == Record([a], k) + Record([c], m)
    ensures var t, u := Two(a, n, b, m), Two(a, k, c, m);
            && GoodTree(t) && GoodTree(u) && Stream(t) == Stream(u)
            && Listing(t) != Listing(u) && !SameContent(t, u)
  {
    StreamOfTwo(a, n, b, m);
    StreamOfTwo(a, k, c, m);
    NamesDiffer(a, n, k, b, c, m);
  }

  lemma TargetRunsOver(perm: nat, m: Inode)
    ensures Record([BANG], Symlink(perm, 0, [0xFF, 120, 121])) + Record([[98]], m)
            == Record([BANG], Symlink(perm, 0, REPLACEMENT)) + Record([[120, 121, 98]], m)
  {
    var a, b := Symlink(perm, 0, [0xFF, 120, 121]), Symlink(perm, 0, REPLACEMENT);
    UnsizedBody(120, 121);
    assert Fields(a) == Fields(b) && Body(a) == REPLACEMENT + [120, 121] && Body(b) == REPLACEMENT;
    RecordWithPrefix(m);
    RunsOver(Text([BANG]) + [0], Fields(a), REPLACEMENT, [120, 121], Record([[98]], m));
  }

  /** Two trees whose second names read differently are listed differently. */
  lemma NamesDiffer(a: Bytes, n: Inode, k: Inode, b: Bytes, c: Bytes, m: Inode)
    requires Leaf(n) && Leaf(k) && Leaf(m) && GoodName(a) && GoodName(b) && GoodName(c)
    requires a[0] < b[0] && a[0] < c[0] && Text([b]) != Text([c])
    ensures var t, u := Two(a, n, b, m), Two(a, k, c, m);
            GoodTree(t) && GoodTree(u) && Listing(t) != Listing(u) && !SameContent(t, u)
  {
    var t, u := Two(a, n, b, m), Two(a, k, c, m);
    StreamOfTwo(a, n, b, m);
    StreamOfTwo(a, k, c, m);
    StatTwo(a, n, b, m, [b]);
    StatTwo(a, k, c, m, [b]);
    assert Seen(t, [b]) != Seen(u, [b]);
    assert Listing(t)[1].text != Listing(u)[1].text;
  }

  /** ASCII stays as it is. */
  lemma {:induction false} PlainText(s: Bytes)
    requires forall i :: 0 <= i < |s| ==> s[i] < 128
    ensures Lossy(s) == s
  {
    if s != [] {
      PlainText(s[1..]);
      assert s == s[..1] + s[1..];
    }
  }

  lemma RecordWithPrefix(m: Inode)
    ensures Record([[120, 121, 98]], m) == [120, 121] + Record([[98]], m)
  {
    PlainText([98]);
    PlainText([120, 121, 98]);
    var rest := Fields(m) + Body(m);
    assert Text([[120, 121, 98]]) == [120, 121] + [98];
    Associate([120, 121], [98], [0]);
    Associate([120, 121], [98] + [0], rest);
  }

  lemma RunsOver(h: Bytes, f: Bytes, b: Bytes, more: Bytes, rest: Bytes)
    ensures h + (f + (b + more)) + rest == h + (f + b) + (more + rest)
  {
    Associate(f, b, more);
    Associate(h, f + b, more);
    Associate(h + (f + b), more, rest);
  }

  lemma UnsizedBody(x: Byte, y: Byte)
    requires 0 < x < 128 && 0 < y < 128
    ensures Lossy([0xFF, x, y]) == REPLACEMENT + [x, y] && Lossy(REPLACEMENT) == REPLACEMENT
  {
    var s: Bytes := [0xFF, x, y];
    assert s[1..] == [x, y] && [x, y][1..] == [y] && [y][1..] == [];
    assert Lossy([y]) == [y] && Lossy([x, y]) == [x] + [y];
    assert REPLACEMENT[..3] == REPLACEMENT && REPLACEMENT[3..] == [];
  }
}
