/** Relative paths, their component-wise byte order, and sorting by it (`paths.sort()`). */
module PathOrder {
  import opened Prelude

  /** Path components, outermost first. */
  type RelPath = seq<Bytes>

  predicate Lex<T(==)>(less: (T, T) -> bool, a: seq<T>, b: seq<T>) {
    if b == [] then false
    else if a == [] then true
    else less(a[0], b[0]) || (a[0] == b[0] && Lex(less, a[1..], b[1..]))
  }

  predicate ByteLess(x: Byte, y: Byte) { x < y }
  predicate NameLess(a: Bytes, b: Bytes) { Lex(ByteLess, a, b) }
  predicate PathLess(p: RelPath, q: RelPath) { Lex(NameLess, p, q) }

  /** `a` and `b` agree in their first `k` places, and there `a` ends first or has the lesser item. */
  ghost predicate LessAt<T(!new)>(less: (T, T) -> bool, a: seq<T>, b: seq<T>, k: nat) {
    && k <= |a| && k < |b| && a[..k] == b[..k]
    && (k == |a| || less(a[k], b[k]))
  }

  /** The order is decided at the first place where the two differ, or by the end of the shorter. */
  lemma {:induction false} LexIff<T(!new)>(less: (T, T) -> bool, a: seq<T>, b: seq<T>)
    ensures Lex(less, a, b) <==> exists k :: LessAt(less, a, b, k)
  {
    if a != [] && b != [] {
      LexIff(less, a[1..], b[1..]);
      if k :| LessAt(less, a[1..], b[1..], k) && a[0] == b[0] { LessLater(less, a, b, k); }
      if less(a[0], b[0]) { assert LessAt(less, a, b, 0); }
      if k :| LessAt(less, a, b, k) && k > 0 { LessSooner(less, a, b, k); }
    } else if b != [] {
      assert LessAt(less, a, b, 0);
    }
  }

  lemma LessLater<T(!new)>(less: (T, T) -> bool, a: seq<T>, b: seq<T>, k: nat)
    requires a != [] && b != [] && a[0] == b[0] && LessAt(less, a[1..], b[1..], k)
    ensures LessAt(less, a, b, k + 1)
  {
    assert a[..k + 1] == [a[0]] + a[1..][..k] && b[..k + 1] == [b[0]] + b[1..][..k];
  }

  lemma LessSooner<T(!new)>(less: (T, T) -> bool, a: seq<T>, b: seq<T>, k: nat)
    requires k > 0 && LessAt(less, a, b, k)
    ensures a[0] == b[0] && LessAt(less, a[1..], b[1..], k - 1)
  {
    assert a[..k][0] == b[..k][0];
    assert a[..k][1..] == a[1..][..k - 1] && b[..k][1..] == b[1..][..k - 1];
  }

  /** The names agree in their first `k` bytes, and there `a` ends first or has the smaller byte. */
  predicate NameLessAt(a: Bytes, b: Bytes, k: nat) {
    k <= |a| && k < |b| && a[..k] == b[..k] && (k == |a| || a[k] < b[k])
  }

  /** The paths agree in their first `k` components, and there `p` ends first or has the smaller name. */
  ghost predicate PathLessAt(p: RelPath, q: RelPath, k: nat) {
    k <= |p| && k < |q| && p[..k] == q[..k] && (k == |p| || exists i :: NameLessAt(p[k], q[k], i))
  }

  lemma NameOrderIs(a: Bytes, b: Bytes)
    ensures NameLess(a, b) <==> exists k :: NameLessAt(a, b, k)
  {
    LexIff(ByteLess, a, b);
    if k: nat :| LessAt(ByteLess, a, b, k) { assert NameLessAt(a, b, k); }
    if k: nat :| NameLessAt(a, b, k) { assert LessAt(ByteLess, a, b, k); }
  }

  /** Paths are ordered component by component, names byte by byte. */
  lemma PathOrderIs(p: RelPath, q: RelPath)
    ensures PathLess(p, q) <==> exists k :: PathLessAt(p, q, k)
  {
    LexIff(NameLess, p, q);
    if k: nat :| LessAt(NameLess, p, q, k) {
      if k < |p| { NameOrderIs(p[k], q[k]); }
      assert PathLessAt(p, q, k);
    }
    if k: nat :| PathLessAt(p, q, k) {
      if k < |p| { NameOrderIs(p[k], q[k]); }
      assert LessAt(NameLess, p, q, k);
    }
  }

  ghost predicate StrictTotal<T(!new)>(less: (T, T) -> bool) {
    && (forall x :: !less(x, x))
    && (forall x, y :: x == y || less(x, y) || less(y, x))
    && (forall x, y, z :: less(x, y) && less(y, z) ==> less(x, z))
  }

  lemma {:induction false} LexIrreflexive<T(!new)>(less: (T, T) -> bool, a: seq<T>)
    requires StrictTotal(less)
    ensures !Lex(less, a, a)
  {
    if a != [] { LexIrreflexive(less, a[1..]); }
  }

  lemma {:induction false} LexTotal<T(!new)>(less: (T, T) -> bool, a: seq<T>, b: seq<T>)
    requires StrictTotal(less)
    ensures a == b || Lex(less, a, b) || Lex(less, b, a)
  {
    if a != [] && b != [] && a[0] == b[0] {
      LexTotal(less, a[1..], b[1..]);
      assert a == [a[0]] + a[1..] && b == [b[0]] + b[1..];
    }
  }

  lemma {:induction false} LexTransitive<T(!new)>(less: (T, T) -> bool, a: seq<T>, b: seq<T>, c: seq<T>)
    requires StrictTotal(less) && Lex(less, a, b) && Lex(less, b, c)
    ensures Lex(less, a, c)
  {
    if a != [] && a[0] == b[0] == c[0] {
      LexTransitive(less, a[1..], b[1..], c[1..]);
    }
  }

  lemma NameLessIsStrictTotal()
    ensures StrictTotal(NameLess)
  {
    assert StrictTotal(ByteLess);
    forall x ensures !NameLess(x, x) { LexIrreflexive(ByteLess, x); }
    forall x, y ensures x == y || NameLess(x, y) || NameLess(y, x) { LexTotal(ByteLess, x, y); }
    forall x, y, z | NameLess(x, y) && NameLess(y, z) ensures NameLess(x, z) { LexTransitive(ByteLess, x, y, z); }
  }

  lemma PathLessIsStrictTotal()
    ensures StrictTotal(PathLess)
  {
    NameLessIsStrictTotal();
    forall x ensures !PathLess(x, x) { LexIrreflexive(NameLess, x); }
    forall x, y ensures x == y || PathLess(x, y) || PathLess(y, x) { LexTotal(NameLess, x, y); }
    forall x, y, z | PathLess(x, y) && PathLess(y, z) ensures PathLess(x, z) { LexTransitive(NameLess, x, y, z); }
  }

  ghost predicate Distinct(ps: seq<RelPath>) {
    forall i, j :: 0 <= i < j < |ps| ==> ps[i] != ps[j]
  }

  ghost predicate Sorted(ps: seq<RelPath>) {
    forall i, j :: 0 <= i < j < |ps| ==> PathLess(ps[i], ps[j])
  }

  function Insert(p: RelPath, ps: seq<RelPath>): seq<RelPath> {
    if ps == [] then [p]
    else if PathLess(p, ps[0]) then [p] + ps
    else [ps[0]] + Insert(p, ps[1..])
  }

  function Sort(ps: seq<RelPath>): seq<RelPath> {
    if ps == [] then [] else Insert(ps[0], Sort(ps[1..]))
  }

  lemma {:induction false} InsertSorts(p: RelPath, ps: seq<RelPath>)
    requires Sorted(ps) && p !in ps
    ensures Sorted(Insert(p, ps))
    ensures forall q :: q in Insert(p, ps) <==> q == p || q in ps
  {
    PathLessIsStrictTotal();
    if ps != [] {
      var rest := ps[1..];
      assert ps == [ps[0]] + rest;
      if PathLess(p, ps[0]) {
        var r := [p] + ps;
        forall i, j | 0 <= i < j < |r| ensures PathLess(r[i], r[j]) {
          if i == 0 && j > 1 { assert PathLess(ps[0], ps[j - 1]); }
        }
      } else {
        InsertSorts(p, rest);
        var r := [ps[0]] + Insert(p, rest);
        assert PathLess(ps[0], p);
        forall i, j | 0 <= i < j < |r| ensures PathLess(r[i], r[j]) {
          if i == 0 && r[j] != p {
            assert r[j] in Insert(p, rest);
            var k :| 0 <= k < |rest| && rest[k] == r[j];
            assert PathLess(ps[0], ps[k + 1]);
          }
        }
      }
    }
  }

  lemma {:induction false} SortSorts(ps: seq<RelPath>)
    requires Distinct(ps)
    ensures Sorted(Sort(ps)) && forall q :: q in Sort(ps) <==> q in ps
  {
    if ps != [] {
      SortSorts(ps[1..]);
      assert ps == [ps[0]] + ps[1..];
      assert ps[0] !in Sort(ps[1..]);
      InsertSorts(ps[0], Sort(ps[1..]));
    }
  }

  /** A set of paths has one sorted listing. */
  lemma {:induction false} SortedIsUnique(a: seq<RelPath>, b: seq<RelPath>)
    requires Sorted(a) && Sorted(b) && forall q :: q in a <==> q in b
    ensures a == b
  {
    PathLessIsStrictTotal();
    var least := if b != [] then b[0] else [];
    if a == [] {
      assert least in b ==> least in a;
    } else {
      assert a[0] in b && b != [] && b[0] in a;
      assert a[0] == b[0];
      forall q ensures q in a[1..] <==> q in b[1..] {
        assert q in a <==> q == a[0] || q in a[1..] by { assert a == [a[0]] + a[1..]; }
        assert q in b <==> q == b[0] || q in b[1..] by { assert b == [b[0]] + b[1..]; }
        assert a[0] !in a[1..] && b[0] !in b[1..];
      }
      SortedIsUnique(a[1..], b[1..]);
      assert a == [a[0]] + a[1..] && b == [b[0]] + b[1..];
    }
  }
}
