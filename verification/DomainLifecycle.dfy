/** What single replies mean, what a fresh domain starts with, and what freezing guarantees. */
module DomainLifecycle {
  import opened Prelude
  import opened Domains
  import opened DomainInvariant
  import opened DomainTheorems

  // ---- A fresh domain ---------------------------------------------------------------------

  lemma AttachedLeaf(cgroups: map<Path, Cgroup>, leaf: Path, procs: set<nat>)
    ensures leaf in Attached(cgroups, leaf, procs) && Attached(cgroups, leaf, procs)[leaf] == Cgroup(procs, false)
  {
  }

  /** Largest generation first: a new one is above every number its epoch directory shows. */
  lemma NextIsAboveAll(entries: set<Path>, epochDir: Path, p: Path)
    requires HasRoom(entries, epochDir) && p in entries && ChildOf(epochDir, p) && LastGen(p).Some?
    ensures LastGen(p).value < NextGeneration(entries, epochDir)
  {
    assert Numbered(entries, epochDir, p);
    NewestExists(entries, epochDir, p);
    var top :| Newest(entries, epochDir, top);
    NewestGivesNext(entries, epochDir, top);
  }

  /**
   * A new domain takes over nothing: its directory and cgroup did not exist, its number exceeds
   * all others, and its cgroup holds just the launched processes, unfrozen.
   */
  lemma CreatedDomainIsFresh(digest: Digester, w: World, root: Path, r: Request)
    requires Inv(w, root) && (r.Create? || r.Restore?) && Admissible(w.disk, root, Ask(r))
    requires Handle(digest, w, r).1.Created?
    ensures var (after, reply) := Handle(digest, w, r);
            var d := reply.domain;
            && d.episode == r.episode && d.epoch == r.epoch && d.id == r.host.id && Placed(d, root)
            && (r.Create? ==> d.epoch > 0 && d.upper in after.disk.trees && after.disk.trees[d.upper] == [])
            && d.dir !in w.disk.entries && d.cgroup !in w.disk.cgroups && d.upper !in w.disk.trees
            && (forall p :: p in w.disk.entries && ChildOf(EpochDir(root, d.episode, d.epoch), p) && LastGen(p).Some? ==>
                  LastGen(p).value < d.generation)
            && d.cgroup in after.disk.cgroups
            && after.disk.cgroups[d.cgroup] == Cgroup(r.host.launch.pids, false)
            && d.id in after.domains && after.domains[d.id] == d
  {
    var d := Handle(digest, w, r).1.domain;
    var epochDir := EpochDir(root, r.episode, r.epoch);
    NextGenerationIsFreshIff(w.disk.entries, epochDir);
    EntryOfCgroup(root, r.episode, r.epoch, d.generation);
    FreshHasNoUpper(w.disk, root, d);
    AttachedLeaf(w.disk.cgroups, d.cgroup, r.host.launch.pids);
    forall p | p in w.disk.entries && ChildOf(epochDir, p) && LastGen(p).Some?
      ensures LastGen(p).value < d.generation
    {
      NextIsAboveAll(w.disk.entries, epochDir, p);
    }
  }

  // ---- Replies ----------------------------------------------------------------------------

  /** A positive reply describes the state it leaves behind. */
  ghost predicate Truthful(s: Disk, after: Disk, reply: Reply) {
    match reply
    case FrozenTo(d, on) =>
      d.cgroup in s.cgroups && after == SetCgroup(s, d.cgroup, s.cgroups[d.cgroup].procs, on)
    case Signaled(d) =>
      after.trees == s.trees && after.cgroups.Keys == s.cgroups.Keys && ProcsOf(after, d) <= ProcsOf(s, d)
    case Inspected(d, pids) =>
      after == s && pids == ProcsOf(s, d)
    case _ => true
  }

  lemma ActRepliesAreTrue(digest: Digester, s: Disk, d: Domain, r: Request)
    requires !r.Create? && !r.Restore?
    ensures var (after, reply) := Act(digest, s, d, r); Truthful(s, after, reply)
  {
  }

  lemma RepliesAreTrue(digest: Digester, w: World, r: Request)
    requires !r.Create? && !r.Restore?
    ensures var (after, reply) := Handle(digest, w, r); Truthful(w.disk, after.disk, reply)
  {
    HandleIsFencedAct(digest, w, r);
    if Fence(w, r.target).Some? { ActRepliesAreTrue(digest, w.disk, Fence(w, r.target).value, r); }
  }

  // ---- Freezing ---------------------------------------------------------------------------

  ghost predicate FrozenWith(s: Disk, d: Domain, tree: Tree) {
    && d.cgroup in s.cgroups && s.cgroups[d.cgroup].frozen
    && d.upper in s.trees && s.trees[d.upper] == tree
  }

  /** The requests that end a freeze: thaw, checkpoint, destroy. */
  predicate EndsFreeze(e: Event, d: Domain) {
    && Addresses(e, d) && e.Ask?
    && ((e.request.Freeze? && !e.request.on) || e.request.Checkpoint? || e.request.Destroy?)
  }

  /** A frozen domain's tree does not move, not even by its own processes or by exec. */
  lemma StepKeepsFrozenTree(digest: Digester, w: World, root: Path, e: Event, d: Domain, tree: Tree)
    requires Inv(w, root) && Admissible(w.disk, root, e) && IsLive(w.disk, d) && FrozenWith(w.disk, d, tree)
    requires !EndsFreeze(e, d)
    ensures IsLive(Step(digest, w, e).0.disk, d) && FrozenWith(Step(digest, w, e).0.disk, d, tree)
  {
    if !Addresses(e, d) {
      StepLeavesOthers(digest, w, root, e, d);
    } else if e.Ask? && Fence(w, e.request.target).Some? {
      var r := e.request;
      FencedIsLive(w, root, r.target);
      var x := Fence(w, r.target).value;
      assert x == d;
      ActKeeps(digest, w.disk, root, d, r);
    }
  }

  lemma {:induction false} RunKeepsFrozenTree(digest: Digester, w: World, root: Path, es: seq<Event>, d: Domain, tree: Tree)
    requires Inv(w, root) && AdmissibleRun(digest, w, root, es) && IsLive(w.disk, d) && FrozenWith(w.disk, d, tree)
    requires forall e :: e in es ==> !EndsFreeze(e, d)
    ensures IsLive(Run(digest, w, es).0.disk, d) && FrozenWith(Run(digest, w, es).0.disk, d, tree)
    decreases |es|
  {
    if es != [] {
      StepKeepsFrozenTree(digest, w, root, es[0], d, tree);
      StepKeepsInv(digest, w, root, es[0]);
      RunKeepsFrozenTree(digest, Step(digest, w, es[0]).0, root, es[1..], d, tree);
    }
  }

  /**
   * A freeze reply holds: the tree stays what it was when the freeze took hold until somebody
   * ends the freeze. (What the domain writes before that is its own activity, ahead of the step.)
   */
  lemma FreezeHoldsTree(digest: Digester, w: World, root: Path, r: Request, d: Domain, es: seq<Event>)
    requires Inv(w, root) && r.Freeze? && Handle(digest, w, r).1 == FrozenTo(d, true)
    requires AdmissibleRun(digest, Handle(digest, w, r).0, root, es)
    requires forall e :: e in es ==> !EndsFreeze(e, d)
    ensures IsLive(w.disk, d) && d.upper in w.disk.trees
    ensures FrozenWith(Run(digest, Handle(digest, w, r).0, es).0.disk, d, w.disk.trees[d.upper])
  {
    RepliesAreTrue(digest, w, r);
    FencedIsLive(w, root, r.target);
    LiveHasCgroup(w.disk, root, d);
    StepKeepsInv(digest, w, root, Ask(r));
    RunKeepsFrozenTree(digest, Handle(digest, w, r).0, root, es, d, w.disk.trees[d.upper]);
  }

  // ---- When generations come back ---------------------------------------------------------

  /** `g` is one past the largest number in the listing. */
  ghost predicate NextInLine(entries: set<Path>, epochDir: Path, g: nat) {
    && (forall p :: Numbered(entries, epochDir, p) ==> LastGen(p).value < g)
    && (g == 0 || exists p :: Numbered(entries, epochDir, p) && LastGen(p).value == g - 1)
  }

  lemma NextGenerationIff(entries: set<Path>, epochDir: Path, g: U64)
    requires HasRoom(entries, epochDir)
    ensures NextGeneration(entries, epochDir) == g <==> NextInLine(entries, epochDir, g)
  {
    if p :| Numbered(entries, epochDir, p) {
      NewestExists(entries, epochDir, p);
      var top :| Newest(entries, epochDir, top);
      NewestGivesNext(entries, epochDir, top);
    }
  }

  /** The number of a destroyed domain is next in line once its own entry is gone. */
  ghost predicate ComesBack(entries: set<Path>, root: Path, d: Domain) {
    var epochDir := EpochDir(root, d.episode, d.epoch);
    && (forall p :: p != d.dir && Numbered(entries, epochDir, p) ==> LastGen(p).value < d.generation)
    && (d.generation == 0 || exists p :: Numbered(entries, epochDir, p) && LastGen(p).value == d.generation - 1)
  }

  lemma ComesBackIsNextInLine(entries: set<Path>, root: Path, d: Domain)
    requires Placed(d, root)
    ensures NextInLine(Outside(entries, d.dir), EpochDir(root, d.episode, d.epoch), d.generation) <==>
            ComesBack(entries, root, d)
  {
    var epochDir, left := EpochDir(root, d.episode, d.epoch), Outside(entries, d.dir);
    GenOfGenName(d.generation);
    assert ChildOf(epochDir, d.dir) && LastGen(d.dir) == Some(d.generation);
    forall p | ChildOf(epochDir, p) ensures d.dir <= p <==> p == d.dir {}
    forall p ensures Numbered(left, epochDir, p) <==> Numbered(entries, epochDir, p) && p != d.dir {}
  }

  /** What a destroy of a live domain replies, and what listing it leaves. */
  lemma DestroyOutcome(digest: Digester, w: World, root: Path, d: Domain, t: Target)
    requires Inv(w, root) && IsLive(w.disk, d) && CarriesRoot(t, root) && Matches(d, t)
    ensures var (w1, gone) := Handle(digest, w, Destroy(t, true, {}));
            && Placed(d, root) && d.cgroup in w.disk.cgroups
            && gone == Destroyed(d, w.disk.cgroups[d.cgroup].procs, true)
            && w1.disk.entries == Outside(w.disk.entries, d.dir)
  {
    var r := Destroy(t, true, {});
    HandleIsFencedAct(digest, w, r);
    FenceIffLive(w, root, t, d);
    LiveHasCgroup(w.disk, root, d);
    DestroyEmptiesDisk(w.disk, root, d);
    CompletedDestroy(digest, w.disk, d, r);
  }

  /** Where a create or restore puts its domain. */
  lemma CreatedPlace(digest: Digester, w: World, r: Request)
    requires (r.Create? || r.Restore?) && Handle(digest, w, r).1.Created?
    ensures var d := Handle(digest, w, r).1.domain;
            && Placed(d, r.stateRoot.parts) && d.episode == r.episode && d.epoch == r.epoch
            && d.generation == NextGeneration(w.disk.entries, EpochDir(r.stateRoot.parts, r.episode, r.epoch))
            && Handle(digest, w, r).0.disk.entries == w.disk.entries + {d.dir}
  {
  }

  /**
   * Freshness is against existing directories only. After a destroy the next domain of the
   * epoch takes the same number, directory and cgroup again exactly when that number was the
   * largest, no other name carries it, and the number below it is still there.
   */
  lemma GenerationIsReusedIff(digest: Digester, w: World, root: Path, d: Domain, t: Target, w1: World, k: Request)
    requires Inv(w, root) && IsLive(w.disk, d) && CarriesRoot(t, root) && Matches(d, t)
    requires w1 == Handle(digest, w, Destroy(t, true, {})).0
    requires (k.Create? || k.Restore?) && k.episode == d.episode && k.epoch == d.epoch
    requires Admissible(w1.disk, root, Ask(k)) && Handle(digest, w1, k).1.Created?
    ensures Handle(digest, w, Destroy(t, true, {})).1.Destroyed?
    ensures var next := Handle(digest, w1, k).1.domain;
            && (next.generation == d.generation <==> ComesBack(w.disk.entries, root, d))
            && (next.generation == d.generation <==> next.dir == d.dir)
            && (next.generation == d.generation <==> next.cgroup == d.cgroup)
  {
    DestroyOutcome(digest, w, root, d, t);
    CreatedPlace(digest, w1, k);
    var next := Handle(digest, w1, k).1.domain;
    NextGenerationIff(w1.disk.entries, EpochDir(root, d.episode, d.epoch), d.generation);
    ComesBackIsNextInLine(w.disk.entries, root, d);
    if next.dir == d.dir || next.cgroup == d.cgroup { PathsInjective(next, d, root); }
  }

  lemma NewestIsInLine(entries: set<Path>, root: Path, d: Domain)
    requires HasRoom(entries, EpochDir(root, d.episode, d.epoch))
    requires d.generation == NextGeneration(entries, EpochDir(root, d.episode, d.epoch))
    ensures ComesBack(entries + {d.dir}, root, d)
  {
    var epochDir, after := EpochDir(root, d.episode, d.epoch), entries + {d.dir};
    NextGenerationIff(entries, epochDir, d.generation);
    forall p | p != d.dir && Numbered(after, epochDir, p) ensures LastGen(p).value < d.generation {
      assert Numbered(entries, epochDir, p);
    }
    if d.generation > 0 {
      var p :| Numbered(entries, epochDir, p) && LastGen(p).value == d.generation - 1;
      assert Numbered(after, epochDir, p);
    }
  }

  /** A number is always handed on if its domain is destroyed before the next one is made. */
  lemma NewestComesBack(digest: Digester, w: World, root: Path, r: Request)
    requires Inv(w, root) && (r.Create? || r.Restore?) && Admissible(w.disk, root, Ask(r))
    requires Handle(digest, w, r).1.Created?
    ensures ComesBack(Handle(digest, w, r).0.disk.entries, root, Handle(digest, w, r).1.domain)
  {
    CreatedPlace(digest, w, r);
    NewestIsInLine(w.disk.entries, root, Handle(digest, w, r).1.domain);
  }

  // ---- When state roots share a cgroup ----------------------------------------------------

  /** The cgroup forgets the state root: it is the same exactly for the same episode, epoch and generation. */
  lemma SameCgroupIff(d: Domain, a: Path, e: Domain, b: Path)
    requires Placed(d, a) && Placed(e, b)
    ensures d.cgroup == e.cgroup <==> d.episode == e.episode && d.epoch == e.epoch && d.generation == e.generation
  {
    assert d.cgroup[4] == d.episode && d.cgroup[5] == EpochName(d.epoch) && d.cgroup[6] == GenName(d.generation);
    assert e.cgroup[4] == e.episode && e.cgroup[5] == EpochName(e.epoch) && e.cgroup[6] == GenName(e.generation);
    NamesInjective(d.epoch, d.generation, e.epoch, e.generation);
  }

  /**
   * On any disk, with domains under any state roots: a new domain under root `b` and a live one
   * under root `a` are both live afterwards in different directories, and they share a cgroup
   * exactly when the live one has this episode, this epoch and the number that is next under `b`.
   */
  lemma RootsShareCgroupIff(digest: Digester, w: World, d: Domain, a: Path, r: Request)
    requires IsLive(w.disk, d) && Placed(d, a)
    requires (r.Create? || r.Restore?) && Handle(digest, w, r).1.Created?
    ensures var (after, reply) := Handle(digest, w, r);
            var b := r.stateRoot.parts;
            && Placed(reply.domain, b) && IsLive(after.disk, d) && IsLive(after.disk, reply.domain)
            && reply.domain.dir != d.dir
            && (reply.domain.cgroup == d.cgroup <==>
                  && d.episode == r.episode && d.epoch == r.epoch
                  && d.generation == NextGeneration(w.disk.entries, EpochDir(b, r.episode, r.epoch)))
  {
    CreatedPlace(digest, w, r);
    var reply := Handle(digest, w, r).1;
    SameCgroupIff(reply.domain, r.stateRoot.parts, d, a);
  }

  /** Under one state root that never happens. */
  lemma OneRootNeverShares(digest: Digester, w: World, root: Path, d: Domain, r: Request)
    requires Inv(w, root) && IsLive(w.disk, d) && (r.Create? || r.Restore?) && Admissible(w.disk, root, Ask(r))
    requires Handle(digest, w, r).1.Created?
    ensures Handle(digest, w, r).1.domain.cgroup != d.cgroup
  {
    StepKeepsInv(digest, w, root, Ask(r));
    LiveHasCgroup(w.disk, root, d);
    CreatedDomainIsFresh(digest, w, root, r);
  }

  /** A create in an epoch directory without generations takes generation zero. */
  lemma FirstGeneration(digest: Digester, w: World, r: Request)
    requires r.Create? && IsHexId(r.episode) && r.epoch > 0 && Secure(r.stateRoot)
    requires r.host.pathsOk && r.host.launch.Ready?
    requires forall p :: !Numbered(w.disk.entries, EpochDir(r.stateRoot.parts, r.episode, r.epoch), p)
    requires DomainDir(r.stateRoot.parts, r.episode, r.epoch, 0) !in w.disk.records
    ensures var (after, reply) := Handle(digest, w, r);
            var d := NewDomain(r.stateRoot.parts, r.episode, r.epoch, 0, r.host);
            reply == Created(d) && after.disk.entries == w.disk.entries + {d.dir}
            && after.disk.records == w.disk.records[d.dir := d]
  {
  }

  lemma OtherRootIsEmpty(a: Path, b: Path, episode: string, epoch: nat)
    requires a != b
    ensures forall p :: !Numbered({DomainDir(a, episode, epoch, 0)}, EpochDir(b, episode, epoch), p)
    ensures DomainDir(a, episode, epoch, 0) != DomainDir(b, episode, epoch, 0)
  {
    var dir, other := DomainDir(a, episode, epoch, 0), EpochDir(b, episode, epoch);
    assert dir[..|a|] == a && other[..|b|] == b && DomainDir(b, episode, epoch, 0)[..|b|] == b;
    if |a| == |b| {
      assert dir[..|other|][..|a|] == dir[..|a|];
    }
  }

  /** From an empty disk, any two different state roots: the first domains of one epoch share a cgroup. */
  lemma StateRootsShareCgroups(digest: Digester, a: RawPath, b: RawPath, episode: string, epoch: U64, h: Host, k: Host)
    requires IsHexId(episode) && epoch > 0 && Secure(a) && Secure(b) && a.parts != b.parts
    requires h.pathsOk && k.pathsOk && h.launch.Ready? && k.launch.Ready?
    ensures var empty := World(map[], Disk({}, map[], map[], map[]));
            var (w1, one) := Handle(digest, empty, Create(episode, epoch, a, h));
            var (w2, two) := Handle(digest, w1, Create(episode, epoch, b, k));
            && one.Created? && two.Created? && IsLive(w2.disk, one.domain) && IsLive(w2.disk, two.domain)
            && one.domain.dir != two.domain.dir && one.domain.cgroup == two.domain.cgroup
  {
    var empty := World(map[], Disk({}, map[], map[], map[]));
    FirstGeneration(digest, empty, Create(episode, epoch, a, h));
    var w1 := Handle(digest, empty, Create(episode, epoch, a, h)).0;
    OtherRootIsEmpty(a.parts, b.parts, episode, epoch);
    assert w1.disk.entries == {DomainDir(a.parts, episode, epoch, 0)};
    FirstGeneration(digest, w1, Create(episode, epoch, b, k));
  }
}
