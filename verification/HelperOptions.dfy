/** The `--key value` arguments handed from `spawn_keeper` to `worker-init`. */
module HelperOptions {
  import opened Prelude

  datatype OptionError = OddCount | InvalidOrDuplicate

  type Pair = (string, string)

  predicate Dashed(key: string) { |key| >= 2 && key[..2] == "--" }

  /** Keys start with `--` and none occurs twice. */
  ghost predicate WellKeyed(pairs: seq<Pair>) {
    && (forall i :: 0 <= i < |pairs| ==> Dashed(pairs[i].0))
    && (forall i, j :: 0 <= i < j < |pairs| ==> pairs[i].0 != pairs[j].0)
  }

  function Flatten(pairs: seq<Pair>): seq<string> {
    if pairs == [] then [] else [pairs[0].0, pairs[0].1] + Flatten(pairs[1..])
  }

  function PairUp(args: seq<string>): (pairs: seq<Pair>)
    requires |args| % 2 == 0
    ensures |pairs| == |args| / 2
  {
    seq(|args| / 2, i requires 0 <= i < |args| / 2 => (args[2 * i], args[2 * i + 1]))
  }

  ghost predicate Holds(m: map<string, string>, pairs: seq<Pair>) {
    forall k, v :: (k in m && m[k] == v) <==> (k, v) in pairs
  }

  /** The next pair keeps the list well-keyed exactly when its key is dashed and new. */
  lemma KeyedOneMore(pairs: seq<Pair>, i: nat, m: map<string, string>)
    requires i < |pairs| && WellKeyed(pairs[..i]) && Holds(m, pairs[..i])
    ensures Dashed(pairs[i].0) && pairs[i].0 !in m ==> WellKeyed(pairs[..i + 1])
    ensures Dashed(pairs[i].0) && pairs[i].0 !in m ==> Holds(m[pairs[i].0 := pairs[i].1], pairs[..i + 1])
    ensures !Dashed(pairs[i].0) || pairs[i].0 in m ==> !WellKeyed(pairs)
  {
    var key := pairs[i].0;
    assert pairs[..i + 1] == pairs[..i] + [(key, pairs[i].1)];
    if key in m {
      assert (key, m[key]) in pairs[..i];
      var j :| 0 <= j < i && pairs[j] == (key, m[key]);
      assert pairs[j].0 == pairs[i].0;
    } else {
      forall j | 0 <= j < i ensures pairs[j].0 != key {
        assert pairs[..i][j] == (pairs[j].0, pairs[j].1);
        assert (pairs[j].0, pairs[j].1) in pairs[..i];
      }
    }
  }

  /** In the even places of an even list there are options, none of them twice. */
  ghost predicate InOrder(args: seq<string>) {
    && |args| % 2 == 0
    && (forall j :: 0 <= j < |args| && j % 2 == 0 ==> |args[j]| >= 2 && args[j][0] == '-' && args[j][1] == '-')
    && (forall i, j :: 0 <= i < j < |args| && i % 2 == 0 && j % 2 == 0 ==> args[i] != args[j])
  }

  /** The option stands in an even place, followed by the value. */
  ghost predicate Given(args: seq<string>, name: string, value: string) {
    exists j :: 0 <= j < |args| - 1 && j % 2 == 0 && args[j] == name && args[j + 1] == value
  }

  lemma InOrderIff(args: seq<string>)
    ensures InOrder(args) <==> |args| % 2 == 0 && WellKeyed(PairUp(args))
  {
    if InOrder(args) { InOrderIsKeyed(args, PairUp(args)); }
    if |args| % 2 == 0 && WellKeyed(PairUp(args)) { KeyedIsInOrder(args, PairUp(args)); }
  }

  lemma InOrderIsKeyed(args: seq<string>, pairs: seq<Pair>)
    requires InOrder(args) && pairs == PairUp(args)
    ensures WellKeyed(pairs)
  {
    forall i | 0 <= i < |pairs| ensures Dashed(pairs[i].0) {
      EvenPlace(args, pairs, i);
      assert |args[2 * i]| >= 2;
    }
    forall i, j | 0 <= i < j < |pairs| ensures pairs[i].0 != pairs[j].0 {
      EvenPlace(args, pairs, i);
      EvenPlace(args, pairs, j);
      assert args[2 * i] != args[2 * j];
    }
  }

  lemma KeyedIsInOrder(args: seq<string>, pairs: seq<Pair>)
    requires |args| % 2 == 0 && pairs == PairUp(args) && WellKeyed(pairs)
    ensures InOrder(args)
  {
    forall j | 0 <= j < |args| && j % 2 == 0 ensures |args[j]| >= 2 && args[j][0] == '-' && args[j][1] == '-' {
      EvenPlace(args, pairs, j / 2);
      assert Dashed(pairs[j / 2].0);
    }
    forall i, j | 0 <= i < j < |args| && i % 2 == 0 && j % 2 == 0 ensures args[i] != args[j] {
      EvenPlace(args, pairs, i / 2);
      EvenPlace(args, pairs, j / 2);
      assert pairs[i / 2].0 != pairs[j / 2].0;
    }
  }

  lemma EvenPlace(args: seq<string>, pairs: seq<Pair>, i: nat)
    requires |args| % 2 == 0 && pairs == PairUp(args) && i < |pairs|
    ensures 2 * i + 1 < |args| && (2 * i) % 2 == 0 && (2 * i) / 2 == i
    ensures pairs[i] == (args[2 * i], args[2 * i + 1])
  {
  }

  lemma GivenIff(args: seq<string>, name: string, value: string)
    requires |args| % 2 == 0
    ensures Given(args, name, value) <==> (name, value) in PairUp(args)
  {
    var pairs := PairUp(args);
    if j :| 0 <= j < |args| - 1 && j % 2 == 0 && args[j] == name && args[j + 1] == value {
      EvenPlace(args, pairs, j / 2);
      assert pairs[j / 2] == (name, value);
    }
    if (name, value) in pairs {
      var i :| 0 <= i < |pairs| && pairs[i] == (name, value);
      EvenPlace(args, pairs, i);
      assert args[2 * i] == name && args[2 * i + 1] == value;
    }
  }

  method ParsePairs(args: seq<string>) returns (r: Result<map<string, string>, OptionError>)
    ensures r.Ok? <==> InOrder(args)
    ensures r.Ok? ==> forall k, v :: (k in r.value && r.value[k] == v) <==> Given(args, k, v)
    ensures r == Err(OddCount) <==> |args| % 2 != 0
    ensures |args| % 2 == 0 ==> (r.Ok? <==> WellKeyed(PairUp(args)))
    ensures r.Ok? ==> Holds(r.value, PairUp(args))
  {
    InOrderIff(args);
    if |args| % 2 != 0 {
      return Err(OddCount);
    }
    var m: map<string, string> := map[];
    ghost var pairs := PairUp(args);
    for i := 0 to |args| / 2
      invariant WellKeyed(pairs[..i])
      invariant Holds(m, pairs[..i])
    {
      var key, value := args[2 * i], args[2 * i + 1];
      assert pairs[i] == (key, value) && pairs[..i + 1] == pairs[..i] + [(key, value)];
      KeyedOneMore(pairs, i, m);
      if !Dashed(key) || key in m {
        return Err(InvalidOrDuplicate);
      }
      m := m[key := value];
    }
    assert pairs[..|pairs|] == pairs;
    forall k, v ensures Given(args, k, v) <==> (k, v) in pairs { GivenIff(args, k, v); }
    r := Ok(m);
  }

  lemma {:induction false} PairUpOfFlatten(pairs: seq<Pair>)
    ensures |Flatten(pairs)| == 2 * |pairs| && PairUp(Flatten(pairs)) == pairs
  {
    if pairs != [] {
      var rest := pairs[1..];
      PairUpOfFlatten(rest);
      var args := Flatten(pairs);
      forall i | 0 <= i < |pairs| ensures PairUp(args)[i] == pairs[i] {
        if i > 0 {
          assert args[2 * i] == Flatten(rest)[2 * (i - 1)];
          assert PairUp(Flatten(rest))[i - 1] == rest[i - 1];
        }
      }
    }
  }

  lemma {:induction false} FlattenOfPairUp(args: seq<string>)
    requires |args| % 2 == 0
    ensures Flatten(PairUp(args)) == args
  {
    if args != [] {
      FlattenOfPairUp(args[2..]);
      assert PairUp(args)[1..] == PairUp(args[2..]);
      assert args == [args[0], args[1]] + args[2..];
    }
  }

  /** The map a well-keyed pair list denotes is unique and does not depend on its order. */
  lemma HoldsIgnoresOrder(p: seq<Pair>, q: seq<Pair>, m: map<string, string>, n: map<string, string>)
    requires multiset(p) == multiset(q) && Holds(m, p) && Holds(n, q)
    ensures m == n
  {
    forall k, v ensures (k, v) in p <==> (k, v) in q {
      assert (k, v) in p <==> (k, v) in multiset(p);
      assert (k, v) in q <==> (k, v) in multiset(q);
    }
    forall k ensures k in m <==> k in n {
      if k in m { assert (k, m[k]) in p; }
      if k in n { assert (k, n[k]) in q; }
    }
    forall k | k in m ensures m[k] == n[k] { assert (k, m[k]) in p; }
  }

  /** Accepted argument lists are exactly the flattenings of well-keyed pair lists. */
  lemma AcceptedIffFlattening(args: seq<string>)
    ensures |args| % 2 == 0 && WellKeyed(PairUp(args)) <==>
            exists pairs: seq<Pair> :: WellKeyed(pairs) && Flatten(pairs) == args
  {
    if |args| % 2 == 0 && WellKeyed(PairUp(args)) {
      FlattenOfPairUp(args);
    }
    if pairs: seq<Pair> :| WellKeyed(pairs) && Flatten(pairs) == args {
      PairUpOfFlatten(pairs);
    }
  }

  // ---- spawn_keeper and worker_init -------------------------------------------------------

  datatype KeeperPaths = KeeperPaths(rootfs: string, root: string, lower: string, upper: string,
                                     work: string, socket: string, ready: string)

  function KeeperPairs(k: KeeperPaths): seq<Pair> {
    [ ("--rootfs", k.rootfs), ("--root", k.root), ("--workspace-lower", k.lower),
      ("--upper", k.upper), ("--work", k.work), ("--effect-socket", k.socket), ("--ready", k.ready) ]
  }

  lemma KeeperPairsWellKeyed(k: KeeperPaths)
    ensures WellKeyed(KeeperPairs(k))
  {
    var p := KeeperPairs(k);
    assert p[0].0[2] == 'r' && |p[0].0| == 8 && |p[1].0| == 6 && |p[2].0| == 17;
    assert |p[3].0| == 7 && p[3].0[2] == 'u' && |p[4].0| == 6 && p[4].0[2] == 'w';
    assert |p[5].0| == 15 && |p[6].0| == 7 && p[6].0[2] == 'r' && p[1].0[2] == 'r';
  }

  /** The seven options of the helper, each with the path of its name. */
  ghost predicate AllGiven(args: seq<string>, k: KeeperPaths) {
    && Given(args, "--rootfs", k.rootfs) && Given(args, "--root", k.root) && Given(args, "--workspace-lower", k.lower)
    && Given(args, "--upper", k.upper) && Given(args, "--work", k.work) && Given(args, "--effect-socket", k.socket)
    && Given(args, "--ready", k.ready)
  }

  /** The command line of the keeper, argument by argument. */
  lemma KeeperCommandLine(k: KeeperPaths)
    ensures Flatten(KeeperPairs(k)) ==
            ["--rootfs", k.rootfs, "--root", k.root, "--workspace-lower", k.lower, "--upper", k.upper,
             "--work", k.work, "--effect-socket", k.socket, "--ready", k.ready]
  {
    var p := KeeperPairs(k);
    FlattenOne(p);
    FlattenOne(p[1..]);
    FlattenOne(p[1..][1..]);
    FlattenOne(p[1..][1..][1..]);
    FlattenOne(p[1..][1..][1..][1..]);
    FlattenOne(p[1..][1..][1..][1..][1..]);
    FlattenOne(p[1..][1..][1..][1..][1..][1..]);
  }

  lemma FlattenOne(p: seq<Pair>)
    requires p != []
    ensures Flatten(p) == [p[0].0, p[0].1] + Flatten(p[1..])
  {
  }

  /** `worker-init` reads back every path, whatever text the paths are. */
  method WorkerInit(args: seq<string>) returns (r: Option<KeeperPaths>)
    ensures r.Some? ==> InOrder(args) && AllGiven(args, r.value)
    ensures r.None? ==> !InOrder(args) || forall k :: !AllGiven(args, k)
    ensures forall k: KeeperPaths :: args == Flatten(KeeperPairs(k)) ==> r == Some(k)
  {
    var opts := ParsePairs(args);
    forall k: KeeperPaths | args == Flatten(KeeperPairs(k))
      ensures opts.Ok? && Holds(opts.value, KeeperPairs(k))
    {
      PairUpOfFlatten(KeeperPairs(k));
      KeeperPairsWellKeyed(k);
    }
    if opts.Err? {
      return None;
    }
    var m := opts.value;
    forall k: KeeperPaths | args == Flatten(KeeperPairs(k))
      ensures "--rootfs" in m && m["--rootfs"] == k.rootfs && "--root" in m && m["--root"] == k.root
      ensures "--workspace-lower" in m && m["--workspace-lower"] == k.lower && "--upper" in m && m["--upper"] == k.upper
      ensures "--work" in m && m["--work"] == k.work && "--effect-socket" in m && m["--effect-socket"] == k.socket
      ensures "--ready" in m && m["--ready"] == k.ready
    {
      var p := KeeperPairs(k);
      assert p[0] in p && p[1] in p && p[2] in p && p[3] in p && p[4] in p && p[5] in p && p[6] in p;
    }
    r := PathsFrom(m);
    PathsAreGiven(args, m, r);
  }

  function PathsFrom(m: map<string, string>): Option<KeeperPaths> {
    if "--rootfs" !in m || "--root" !in m || "--workspace-lower" !in m || "--upper" !in m
       || "--work" !in m || "--effect-socket" !in m || "--ready" !in m then None
    else Some(KeeperPaths(m["--rootfs"], m["--root"], m["--workspace-lower"], m["--upper"],
                          m["--work"], m["--effect-socket"], m["--ready"]))
  }

  lemma PathsAreGiven(args: seq<string>, m: map<string, string>, r: Option<KeeperPaths>)
    requires r == PathsFrom(m)
    requires forall k, v :: (k in m && m[k] == v) <==> Given(args, k, v)
    ensures r.Some? ==> AllGiven(args, r.value)
    ensures r.None? ==> forall k :: !AllGiven(args, k)
  {
  }
}
