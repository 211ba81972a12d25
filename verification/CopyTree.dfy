/** What `cp -a source/. destination` leaves in a directory that may already hold something. */
module CopyTree {
  import opened Prelude
  import opened TreeDigest

  /** Directories of one name are merged, anything else of that name is replaced, the rest stays. */
  function Merge(there: Tree, source: Tree): Tree
    decreases source, 1
  {
    Overlaid(there, source) + Unnamed(there, source)
  }

  function Overlaid(there: Tree, source: Tree): Tree
    decreases source, 0
  {
    if source == [] then [] else [MergedEntry(there, source[0])] + Overlaid(there, source[1..])
  }

  function MergedEntry(there: Tree, e: Entry): Entry
    decreases e
  {
    match FindName(there, e.name)
    case None => e
    case Some(n) =>
      if n.Dir? && e.node.Dir? then Entry(e.name, e.node.(entries := Merge(n.entries, e.node.entries))) else e
  }

  /** The entries that were there whose names the copy does not mention. */
  function Unnamed(there: Tree, source: Tree): Tree {
    if there == [] then []
    else (if FindName(source, there[0].name).None? then [there[0]] else []) + Unnamed(there[1..], source)
  }

  /** Only a copy into an empty directory is sure to reproduce its source. */
  lemma {:induction false} MergeIntoEmpty(source: Tree)
    ensures Merge([], source) == source
  {
    OverlaidOnEmpty(source);
  }

  lemma {:induction false} OverlaidOnEmpty(source: Tree)
    ensures Overlaid([], source) == source
  {
    if source != [] {
      OverlaidOnEmpty(source[1..]);
      assert source == [source[0]] + source[1..];
    }
  }

  // ---- What a merged tree holds ------------------------------------------------------------

  lemma {:induction false} FindOverlaid(there: Tree, source: Tree, name: Bytes)
    ensures FindName(source, name).None? ==> FindName(Overlaid(there, source), name).None?
    ensures FindName(source, name).Some? ==>
              FindName(Overlaid(there, source), name) == Some(MergedEntry(there, Entry(name, FindName(source, name).value)).node)
  {
    if source != [] {
      var e, merged, rest := source[0], MergedEntry(there, source[0]), Overlaid(there, source[1..]);
      FindOverlaid(there, source[1..], name);
      assert merged.name == e.name;
      assert Overlaid(there, source) == [merged] + rest;
      FindFirst(merged, rest, name);
      if e.name == name {
        assert e == Entry(name, e.node);
      }
    }
  }

  lemma FindFirst(e: Entry, rest: Tree, name: Bytes)
    ensures FindName([e] + rest, name) == if e.name == name then Some(e.node) else FindName(rest, name)
  {
    assert ([e] + rest)[1..] == rest;
  }

  lemma {:induction false} FindUnnamed(there: Tree, source: Tree, name: Bytes)
    ensures FindName(Unnamed(there, source), name) == if FindName(source, name).Some? then None else FindName(there, name)
  {
    if there != [] {
      var rest := Unnamed(there[1..], source);
      FindUnnamed(there[1..], source, name);
      FindFirst(there[0], rest, name);
      assert [] + rest == rest;
    }
  }

  lemma {:induction false} FindAppend(a: Tree, b: Tree, name: Bytes)
    ensures FindName(a + b, name) == if FindName(a, name).Some? then FindName(a, name) else FindName(b, name)
  {
    if a == [] {
      assert a + b == b;
    } else {
      assert (a + b)[1..] == a[1..] + b;
      FindAppend(a[1..], b, name);
    }
  }

  lemma FindMerged(there: Tree, source: Tree, name: Bytes)
    ensures FindName(Merge(there, source), name) ==
            match FindName(source, name) {
              case None => FindName(there, name)
              case Some(n) => Some(MergedEntry(there, Entry(name, n)).node)
            }
  {
    FindOverlaid(there, source, name);
    FindUnnamed(there, source, name);
    FindAppend(Overlaid(there, source), Unnamed(there, source), name);
  }

  /** On the way to the path, or at it, the source has something that is no directory. */
  ghost predicate Covers(source: Tree, p: seq<Bytes>) {
    exists k :: 0 < k <= |p| && Stat(source, p[..k]).Some? && !Stat(source, p[..k]).value.Dir?
  }

  /** The object with the name, size and contents of a directory left open. */
  predicate SameButEntries(n: Inode, m: Inode) {
    if n.Dir? && m.Dir? then n.perm == m.perm && n.size == m.size && n.unread == m.unread else n == m
  }

  /**
   * Path by path: what the source has is there, directories with its permissions; what it does
   * not have is as it was, except below what it replaced.
   */
  lemma {:induction false} MergeHolds(there: Tree, source: Tree, p: seq<Bytes>)
    ensures Stat(source, p).Some? ==>
              Stat(Merge(there, source), p).Some? && SameButEntries(Stat(source, p).value, Stat(Merge(there, source), p).value)
    ensures Stat(source, p).None? ==>
              Stat(Merge(there, source), p) == if Covers(source, p) then None else Stat(there, p)
    decreases |p|
  {
    if p != [] {
      FindMerged(there, source, p[0]);
      var found, before := FindName(source, p[0]), FindName(there, p[0]);
      assert |p| == 1 ==> p == [p[0]];
      CoversFirst(source, p);
      if found.Some? && found.value.Dir? && before.Some? && before.value.Dir? && |p| > 1 {
        MergeHolds(before.value.entries, found.value.entries, p[1..]);
      }
    }
  }

  lemma CoversFirst(source: Tree, p: seq<Bytes>)
    requires p != []
    ensures var found := FindName(source, p[0]);
            Covers(source, p) <==>
              found.Some? && (!found.value.Dir? || (|p| > 1 && Covers(found.value.entries, p[1..])))
  {
    var found := FindName(source, p[0]);
    if k :| 0 < k <= |p| && Stat(source, p[..k]).Some? && !Stat(source, p[..k]).value.Dir? && k > 1 {
      assert p[..k][0] == p[0] && p[..k][1..] == p[1..][..k - 1];
      assert Stat(found.value.entries, p[1..][..k - 1]) == Stat(source, p[..k]);
    }
    if found.Some? && !found.value.Dir? {
      assert p[..1][0] == p[0] && Stat(source, p[..1]) == found;
    }
    if found.Some? && found.value.Dir? && |p| > 1 && Covers(found.value.entries, p[1..]) {
      var inner, q := found.value.entries, p[1..];
      var k :| 0 < k <= |q| && Stat(inner, q[..k]).Some? && !Stat(inner, q[..k]).value.Dir?;
      assert p[..k + 1][0] == p[0] && p[..k + 1][1..] == q[..k];
      assert Stat(source, p[..k + 1]) == Stat(inner, q[..k]);
    }
  }
}
