/** The cgroup tree against a set of leaf paths: what attaching and tearing down a leaf does. */
module CgroupClosure {
  import opened Prelude
  import opened Domains
  import opened DomainInvariant

  predicate Leafy(leaves: set<Path>) { forall l :: l in leaves ==> |l| == 7 }

  predicate OnPath(c: Path, leaf: Path) { c <= leaf }

  ghost predicate Needed(leaves: set<Path>, c: Path) { exists leaf :: leaf in leaves && OnPath(c, leaf) }

  /** Below `autonomic` there is exactly one cgroup for every prefix of every leaf. */
  ghost predicate Exactly(cgroups: map<Path, Cgroup>, leaves: set<Path>) {
    forall c :: |c| > 4 ==> (c in cgroups <==> Needed(leaves, c))
  }

  /** Seven components, none below the fourth called `autonomic`. */
  predicate LeafPath(leaf: Path) {
    && |leaf| == 7 && CGROUP_ROOT <= leaf
    && leaf[4] != "autonomic" && leaf[5] != "autonomic" && leaf[6] != "autonomic"
  }

  lemma DomainLeaf(d: Domain, root: Path)
    requires Placed(d, root)
    ensures LeafPath(d.cgroup)
  {
    assert |"autonomic"| == 9 && "autonomic"[0] == 'a';
    assert d.cgroup[4] == d.episode && |d.episode| == 32;
    assert d.cgroup[5] == EpochName(d.epoch) && EpochName(d.epoch)[0] == 'e';
    assert d.cgroup[6] == GenName(d.generation) && GenName(d.generation)[0] == 'g';
  }

  lemma NeededPlus(leaves: set<Path>, leaf: Path, c: Path)
    ensures Needed(leaves + {leaf}, c) <==> Needed(leaves, c) || OnPath(c, leaf)
  {
    if Needed(leaves, c) {
      var l :| l in leaves && OnPath(c, l);
      assert l in leaves + {leaf};
    }
    if OnPath(c, leaf) { assert leaf in leaves + {leaf}; }
  }

  lemma MadeKeys(cgroups: map<Path, Cgroup>, leaf: Path, depth: nat, c: Path)
    requires |leaf| == 7 && |c| > 4
    ensures c in MakeCgroups(cgroups, leaf, depth) <==> c in cgroups || (OnPath(c, leaf) && |c| <= depth)
  {
    var levels := set k | 4 <= k <= depth && k <= |leaf| :: leaf[..k];
    if OnPath(c, leaf) && |c| <= depth {
      assert c == leaf[..|c|];
      assert c in levels;
    }
  }

  /** The levels of a leaf's path from below `autonomic` down to `depth`, some of which may be new. */
  ghost predicate SomeLevelNew(cgroups: map<Path, Cgroup>, leaf: Path, depth: nat)
    requires |leaf| == 7
  {
    exists k: nat :: 4 < k <= 7 && k <= depth && leaf[..k] !in cgroups
  }

  /** Making the levels of a path that no live leaf needs keeps the tree exact only if all were there. */
  lemma GrownExactIff(cgroups: map<Path, Cgroup>, after: map<Path, Cgroup>, leaves: set<Path>, leaf: Path, depth: nat)
    requires Exactly(cgroups, leaves) && |leaf| == 7
    requires forall c :: |c| > 4 ==> (c in after <==> c in cgroups || (OnPath(c, leaf) && |c| <= depth))
    ensures Exactly(after, leaves) <==> !SomeLevelNew(cgroups, leaf, depth)
  {
    if k: nat :| 4 < k <= 7 && k <= depth && leaf[..k] !in cgroups {
      assert OnPath(leaf[..k], leaf);
      assert leaf[..k] in after && !Needed(leaves, leaf[..k]);
    } else {
      forall c | |c| > 4 ensures c in after <==> Needed(leaves, c) {
        if OnPath(c, leaf) && |c| <= depth { assert c == leaf[..|c|]; }
        assert c in cgroups <==> Needed(leaves, c);
      }
    }
  }

  /** A leaf that comes to be needed accounts for its own prefixes and nothing else. */
  lemma LeafExtends(cgroups: map<Path, Cgroup>, after: map<Path, Cgroup>, leaves: set<Path>, leaf: Path)
    requires Exactly(cgroups, leaves) && |leaf| == 7
    requires forall c :: |c| > 4 ==> (c in after <==> c in cgroups || (OnPath(c, leaf) && |c| <= 7))
    ensures Exactly(after, leaves + {leaf})
  {
    forall c | |c| > 4 ensures c in after <==> Needed(leaves + {leaf}, c) {
      NeededPlus(leaves, leaf, c);
      assert c in cgroups <==> Needed(leaves, c);
    }
  }

  /** Configuring a cgroup adds exactly the missing prefixes of its path. */
  lemma AttachExtends(cgroups: map<Path, Cgroup>, leaves: set<Path>, leaf: Path, procs: set<nat>)
    requires Exactly(cgroups, leaves) && |leaf| == 7
    ensures Exactly(Attached(cgroups, leaf, procs), leaves + {leaf})
  {
    var after := Attached(cgroups, leaf, procs);
    forall c | |c| > 4 ensures c in after <==> c in cgroups || (OnPath(c, leaf) && |c| <= 7) {
      MadeKeys(cgroups, leaf, 7, c);
    }
    LeafExtends(cgroups, after, leaves, leaf);
  }

  /** Half-way up the removal loop: what is needed, plus what is left of the removed path. */
  ghost predicate Partly(cgroups: map<Path, Cgroup>, leaves: set<Path>, leaf: Path, level: nat) {
    forall c :: |c| > 4 ==> (c in cgroups <==> Needed(leaves, c) || (OnPath(c, leaf) && |c| <= level))
  }

  lemma ChildIsNeeded(cgroups: map<Path, Cgroup>, leaves: set<Path>, leaf: Path, here: Path)
    requires Partly(cgroups, leaves, leaf, |here|) && 4 < |here| && HasChild(cgroups, here)
    ensures Needed(leaves, here)
  {
    var c :| c in cgroups && ChildOf(here, c);
    assert Needed(leaves, c);
    var l :| l in leaves && OnPath(c, l);
    assert OnPath(here, l);
  }

  lemma NeededHasChild(cgroups: map<Path, Cgroup>, leaves: set<Path>, leaf: Path, here: Path)
    requires leaf !in leaves && Leafy(leaves)
    requires 4 < |here| && (|here| == 7 ==> here == leaf)
    requires Partly(cgroups, leaves, leaf, |here|) && Needed(leaves, here)
    ensures HasChild(cgroups, here)
  {
    var l :| l in leaves && OnPath(here, l);
    assert |here| <= |l| == 7;
    assert |here| == 7 ==> l == here;
    var c := l[..|here| + 1];
    assert OnPath(c, l) && ChildOf(here, c);
    assert Needed(leaves, c);
  }

  /** On the way up, a node has a child exactly when another leaf needs it. */
  lemma ChildIffNeeded(cgroups: map<Path, Cgroup>, leaves: set<Path>, leaf: Path, level: nat)
    requires LeafPath(leaf) && leaf !in leaves && Leafy(leaves)
    requires Partly(cgroups, leaves, leaf, level) && 4 < level <= 7
    ensures HasChild(cgroups, leaf[..level]) <==> Needed(leaves, leaf[..level])
  {
    var here := leaf[..level];
    if HasChild(cgroups, here) { ChildIsNeeded(cgroups, leaves, leaf, here); }
    if Needed(leaves, here) { NeededHasChild(cgroups, leaves, leaf, here); }
  }

  /** One round of the loop takes its node away exactly if no other leaf needs it. */
  lemma RemoveLevel(cgroups: map<Path, Cgroup>, leaves: set<Path>, leaf: Path, level: nat)
    requires LeafPath(leaf) && leaf !in leaves && Leafy(leaves)
    requires Partly(cgroups, leaves, leaf, level) && 4 < level <= 7
    requires leaf[..level] in cgroups ==> cgroups[leaf[..level]].procs == {}
    ensures Partly(RemoveDir(cgroups, leaf[..level]), leaves, leaf, level - 1)
  {
    var here := leaf[..level];
    ChildIffNeeded(cgroups, leaves, leaf, level);
    assert OnPath(here, leaf) && here in cgroups;
    OneLevelLess(cgroups, RemoveDir(cgroups, here), leaves, leaf, level);
  }

  lemma OneLevelLess(cgroups: map<Path, Cgroup>, next: map<Path, Cgroup>, leaves: set<Path>, leaf: Path, level: nat)
    requires Partly(cgroups, leaves, leaf, level) && 4 < level <= |leaf|
    requires next.Keys == if Needed(leaves, leaf[..level]) then cgroups.Keys else cgroups.Keys - {leaf[..level]}
    ensures Partly(next, leaves, leaf, level - 1)
  {
    forall c | |c| > 4 ensures c in next <==> Needed(leaves, c) || (OnPath(c, leaf) && |c| <= level - 1) {
      assert OnPath(c, leaf) && |c| == level <==> c == leaf[..level];
      assert c in next <==> c in next.Keys;
      assert c in cgroups <==> Needed(leaves, c) || (OnPath(c, leaf) && |c| <= level);
    }
  }

  /** The loop body below `autonomic`, and its exit there. */
  lemma TeardownUnfolds(cgroups: map<Path, Cgroup>, leaf: Path, level: nat)
    requires LeafPath(leaf) && 4 <= level <= 7
    ensures Teardown(cgroups, leaf[..level]) ==
            if level == 4 then cgroups else Teardown(RemoveDir(cgroups, leaf[..level]), leaf[..level - 1])
  {
    var here := leaf[..level];
    assert here[level - 1] == leaf[level - 1] && here[..level - 1] == leaf[..level - 1];
    assert level == 4 ==> here[3] == CGROUP_ROOT[3];
  }

  lemma PartlyAtTop(cgroups: map<Path, Cgroup>, leaves: set<Path>, leaf: Path)
    requires Partly(cgroups, leaves, leaf, 4)
    ensures Exactly(cgroups, leaves)
  {
    forall c | |c| > 4 ensures c in cgroups <==> Needed(leaves, c) {}
  }

  /** Processes live in leaves only, so above an emptied leaf there are none. */
  lemma EmptyOnTheWay(cgroups: map<Path, Cgroup>, leaf: Path, level: nat)
    requires CgroupsOk(cgroups) && 4 < level <= 7 == |leaf|
    requires leaf in cgroups ==> cgroups[leaf].procs == {}
    ensures leaf[..level] in cgroups ==> cgroups[leaf[..level]].procs == {}
  {
    var here := leaf[..level];
    if here in cgroups { assert CgroupOk(cgroups, here); }
    assert leaf[..7] == leaf;
  }

  lemma RemoveKeepsEmpty(cgroups: map<Path, Cgroup>, leaf: Path, p: Path)
    requires CgroupsOk(cgroups) && (leaf in cgroups ==> cgroups[leaf].procs == {})
    ensures CgroupsOk(RemoveDir(cgroups, p))
    ensures leaf in RemoveDir(cgroups, p) ==> RemoveDir(cgroups, p)[leaf].procs == {}
  {
    RemoveDirOk(cgroups, p);
  }

  /** The loop removes exactly the prefixes that no other leaf needs, and stops at `autonomic`. */
  lemma {:induction false} TeardownLeavesTheNeeded(cgroups: map<Path, Cgroup>, leaves: set<Path>, leaf: Path, level: nat)
    requires LeafPath(leaf) && leaf !in leaves && Leafy(leaves)
    requires 4 <= level <= 7 && CgroupsOk(cgroups) && Partly(cgroups, leaves, leaf, level)
    requires leaf in cgroups ==> cgroups[leaf].procs == {}
    ensures Exactly(Teardown(cgroups, leaf[..level]), leaves)
    decreases level
  {
    TeardownUnfolds(cgroups, leaf, level);
    if level == 4 {
      PartlyAtTop(cgroups, leaves, leaf);
    } else {
      EmptyOnTheWay(cgroups, leaf, level);
      RemoveLevel(cgroups, leaves, leaf, level);
      RemoveKeepsEmpty(cgroups, leaf, leaf[..level]);
      TeardownLeavesTheNeeded(RemoveDir(cgroups, leaf[..level]), leaves, leaf, level - 1);
    }
  }

  lemma PartlyAtStart(cgroups: map<Path, Cgroup>, leaves: set<Path>, leaf: Path)
    requires |leaf| == 7 && leaf in leaves && Exactly(cgroups, leaves)
    ensures Partly(cgroups, leaves - {leaf}, leaf, 7)
  {
    var others := leaves - {leaf};
    assert others + {leaf} == leaves;
    forall c | |c| > 4 ensures c in cgroups <==> Needed(others, c) || (OnPath(c, leaf) && |c| <= 7) {
      NeededPlus(others, leaf, c);
      assert c in cgroups <==> Needed(leaves, c);
    }
  }

  /** Emptying and tearing down one leaf of an exact tree leaves an exact tree for the others. */
  lemma TeardownShrinks(cgroups: map<Path, Cgroup>, leaves: set<Path>, leaf: Path)
    requires LeafPath(leaf) && leaf in leaves && Leafy(leaves)
    requires CgroupsOk(cgroups) && Exactly(cgroups, leaves) && leaf in cgroups && cgroups[leaf].procs == {}
    ensures Exactly(Teardown(cgroups, leaf), leaves - {leaf})
  {
    PartlyAtStart(cgroups, leaves, leaf);
    TeardownFrom(cgroups, leaves - {leaf}, leaf);
  }

  lemma TeardownFrom(cgroups: map<Path, Cgroup>, others: set<Path>, leaf: Path)
    requires LeafPath(leaf) && leaf !in others && Leafy(others)
    requires CgroupsOk(cgroups) && Partly(cgroups, others, leaf, 7) && leaf in cgroups && cgroups[leaf].procs == {}
    ensures Exactly(Teardown(cgroups, leaf), others)
  {
    assert leaf[..7] == leaf;
    TeardownLeavesTheNeeded(cgroups, others, leaf, 7);
  }
}
