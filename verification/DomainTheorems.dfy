/** What callers of the launcher may rely on over whole runs. */
module DomainTheorems {
  import opened Prelude
  import opened Domains
  import opened DomainInvariant
  import opened CgroupClosure

  // ---- Warm map and cold reload agree -----------------------------------------------------

  /** The record a request reaches: load if needed, then check the fence. */
  ghost function Fence(w: World, t: Target): Option<Domain> {
    match Loaded(w, t)
    case None => None
    case Some(domains) => Checked(domains, t)
  }

  /** A request on an existing domain is the fence followed by the action. */
  lemma HandleIsFencedAct(digest: Digester, w: World, r: Request)
    requires !r.Create? && !r.Restore?
    ensures var (after, reply) := Handle(digest, w, r);
            match Fence(w, r.target)
            case None => reply == Refused && after.disk == w.disk
            case Some(d) => (after.disk, reply) == Act(digest, w.disk, d, r)
  {
  }

  ghost predicate IsLive(s: Disk, d: Domain) { d.dir in s.records && s.records[d.dir] == d }

  predicate CarriesRoot(t: Target, root: Path) { Secure(t.stateRoot) && t.stateRoot.parts == root }

  /** A live record is the only one the scan can stop at, and it passes validation. */
  lemma LiveIsPersisted(s: Disk, root: Path, t: Target, d: Domain)
    requires DiskInv(s, root) && CarriesRoot(t, root) && IsLive(s, d) && Matches(d, t)
    ensures Persisted(s.records, t) == Some(d) && IsHexId(t.episode)
  {
    assert RecordOk(s, root, d.dir);
    assert EpochDir(root, d.episode, d.epoch) <= d.dir;
    assert Candidate(s.records, t, d.dir);
    forall p | Candidate(s.records, t, p) ensures p == d.dir {}
  }

  /** From any coherent map, a request that carries the state root reaches exactly the live record it names. */
  lemma FenceIffLive(w: World, root: Path, t: Target, d: Domain)
    requires Inv(w, root) && CarriesRoot(t, root)
    ensures Fence(w, t) == Some(d) <==> IsLive(w.disk, d) && Matches(d, t)
  {
    if IsLive(w.disk, d) && Matches(d, t) {
      LiveIsPersisted(w.disk, root, t, d);
      if t.id in w.domains { assert w.domains[t.id].dir == d.dir; }
    }
    if Fence(w, t) == Some(d) {
      FencedIsLive(w, root, t);
    }
  }

  /** Ids are distinct, so a scan in any order stops at the same record. */
  lemma CandidateIsUnique(s: Disk, root: Path, t: Target, p: Path)
    requires DiskInv(s, root) && Candidate(s.records, t, p)
    ensures forall q :: Candidate(s.records, t, q) ==> q == p
    ensures Persisted(s.records, t) == if Validated(s.records[p], t) then Some(s.records[p]) else None
  {
  }

  lemma FenceIgnoresMap(s: Disk, root: Path, m: map<string, Domain>, n: map<string, Domain>, t: Target)
    requires Inv(World(m, s), root) && Inv(World(n, s), root) && CarriesRoot(t, root)
    ensures Fence(World(m, s), t) == Fence(World(n, s), t)
  {
    var x, y := Fence(World(m, s), t), Fence(World(n, s), t);
    if x.Some? { FenceIffLive(World(m, s), root, t, x.value); FenceIffLive(World(n, s), root, t, x.value); }
    if y.Some? { FenceIffLive(World(m, s), root, t, y.value); FenceIffLive(World(n, s), root, t, y.value); }
  }

  lemma RootOfChild(root: Path, d: Domain, other: Path, episode: string, epoch: nat)
    requires Placed(d, root) && ChildOf(EpochDir(other, episode, epoch), d.dir)
    ensures other == root
  {
    var n := |root|;
    assert |other| == n;
    assert d.dir[..n + 3] == EpochDir(other, episode, epoch);
    assert d.dir[..n + 3][..n] == root && EpochDir(other, episode, epoch)[..n] == other;
  }

  /** A record under one state root is never found by a scan under another. */
  lemma WrongRootFindsNothing(s: Disk, root: Path, t: Target)
    requires DiskInv(s, root) && !CarriesRoot(t, root)
    ensures Fence(World(map[], s), t) == None
  {
    forall p | p in s.records && ChildOf(EpochDir(t.stateRoot.parts, t.episode, t.epoch), p)
      ensures t.stateRoot.parts == root
    {
      assert RecordOk(s, root, p);
      RootOfChild(root, s.records[p], t.stateRoot.parts, t.episode, t.epoch);
    }
  }

  /**
   * Exactly when does a restart lose a domain the warm map still answers for: when the request
   * names a cached record correctly but does not carry the state root it was created under.
   */
  lemma RestartAgreesIff(w: World, root: Path, t: Target)
    requires Inv(w, root)
    ensures Fence(w, t) == Fence(World(map[], w.disk), t) <==>
            (Checked(w.domains, t).Some? ==> CarriesRoot(t, root))
  {
    if CarriesRoot(t, root) {
      FenceIgnoresMap(w.disk, root, w.domains, map[], t);
    } else {
      WrongRootFindsNothing(w.disk, root, t);
      if t.id !in w.domains {
        assert Fence(w, t).None? <==> Fence(World(map[], w.disk), t).None?;
      }
    }
  }

  /** The event's target, if it has one, carries the state root. */
  predicate RootCarried(e: Event, root: Path) {
    e.Ask? && !e.request.Create? && !e.request.Restore? ==> CarriesRoot(e.request.target, root)
  }

  /** From two coherent maps over the same disk one step gives the same reply and the same disk. */
  lemma StepIgnoresMap(digest: Digester, s: Disk, root: Path, m: map<string, Domain>, n: map<string, Domain>, e: Event)
    requires Inv(World(m, s), root) && Inv(World(n, s), root) && RootCarried(e, root)
    ensures Step(digest, World(m, s), e).1 == Step(digest, World(n, s), e).1
    ensures Step(digest, World(m, s), e).0.disk == Step(digest, World(n, s), e).0.disk
  {
    if e.Ask? && !e.request.Create? && !e.request.Restore? {
      FenceIgnoresMap(s, root, m, n, e.request.target);
    }
  }

  /** A launcher that is started afresh, with an empty map, for every event. */
  ghost function RunRestarted(digest: Digester, s: Disk, es: seq<Event>): (Disk, seq<Reply>)
    decreases |es|
  {
    if es == [] then (s, [])
    else
      var (next, reply) := Step(digest, World(map[], s), es[0]);
      var (last, replies) := RunRestarted(digest, next.disk, es[1..]);
      (last, [reply] + replies)
  }

  /** One long-running daemon and one process per request give the same replies and the same disk. */
  lemma {:induction false} RestartsAreInvisible(digest: Digester, w: World, root: Path, es: seq<Event>)
    requires Inv(w, root) && AdmissibleRun(digest, w, root, es)
    requires forall e :: e in es ==> RootCarried(e, root)
    ensures RunRestarted(digest, w.disk, es) == (Run(digest, w, es).0.disk, Run(digest, w, es).1)
    decreases |es|
  {
    if es != [] {
      StepIgnoresMap(digest, w.disk, root, w.domains, map[], es[0]);
      StepKeepsInv(digest, w, root, es[0]);
      RestartsAreInvisible(digest, Step(digest, w, es[0]).0, root, es[1..]);
    }
  }

  // ---- Domains are disjoint ---------------------------------------------------------------

  /** No two live domains share identity, directory, upper or cgroup. */
  lemma LiveDomainsAreDisjoint(s: Disk, root: Path, d: Domain, e: Domain)
    requires DiskInv(s, root) && IsLive(s, d) && IsLive(s, e) && d != e
    ensures d.id != e.id
    ensures d.episode != e.episode || d.epoch != e.epoch || d.generation != e.generation
    ensures d.dir != e.dir && d.upper != e.upper && d.cgroup != e.cgroup
  {
    assert RecordOk(s, root, d.dir) && RecordOk(s, root, e.dir);
    OthersOutside(d, e, root);
    assert d.upper[..|d.dir|] == d.dir && e.upper[..|e.dir|] == e.dir;
  }

  // ---- Epoch fence and non-interference ---------------------------------------------------

  /** The event is the domain's own activity, or a request naming its id, episode and epoch. */
  predicate Addresses(e: Event, d: Domain) {
    match e
    case Work(dir, _, _) => dir == d.dir
    case Ask(r) => !r.Create? && !r.Restore? && Matches(d, r.target)
  }

  /** Everything the disk holds for a domain. */
  ghost predicate SameFor(s: Disk, after: Disk, d: Domain) {
    && (d.dir in s.records <==> d.dir in after.records)
    && (d.dir in s.records ==> after.records[d.dir] == s.records[d.dir])
    && (d.dir in s.entries ==> d.dir in after.entries)
    && (d.upper in s.trees ==> d.upper in after.trees && after.trees[d.upper] == s.trees[d.upper])
    && (d.cgroup in s.cgroups ==> d.cgroup in after.cgroups && after.cgroups[d.cgroup] == s.cgroups[d.cgroup])
  }

  /** Existing directory contents change only in the acting domain's upper, cgroups only in its own. */
  ghost predicate OnlyTouches(s: Disk, after: Disk, d: Domain) {
    && after.records == s.records && after.entries == s.entries
    && (forall p :: p in s.trees && p != d.upper ==> p in after.trees && after.trees[p] == s.trees[p])
    && (forall c :: c in s.cgroups && c != d.cgroup ==> c in after.cgroups && after.cgroups[c] == s.cgroups[c])
  }

  lemma ActOnlyTouches(digest: Digester, s: Disk, d: Domain, r: Request)
    requires d.cgroup in s.cgroups
    requires !r.Create? && !r.Restore? && !(r.Destroy? && r.empties)
    ensures OnlyTouches(s, Act(digest, s, d, r).0, d)
  {
  }

  /** A completed destroy is the same whoever would have survived. */
  lemma CompletedDestroy(digest: Digester, s: Disk, d: Domain, r: Request)
    requires r.Destroy? && r.empties && Present(s, d)
    ensures Act(digest, s, d, r) == DestroyOn(s, d, true, {})
  {
  }

  lemma DestroyLeavesOthers(s: Disk, root: Path, e: Domain, d: Domain)
    requires DiskInv(s, root) && IsLive(s, d) && IsLive(s, e) && d != e && Present(s, e)
    ensures SameFor(s, DestroyOn(s, e, true, {}).0, d)
  {
    LiveHasCgroup(s, root, d);
    LiveHasCgroup(s, root, e);
    LiveDomainsAreDisjoint(s, root, d, e);
    OthersOutside(e, d, root);
    DestroyKeeps(s, root, e);
    TeardownOk(Emptied(s, e), e.cgroup);
  }

  lemma TouchLeavesOthers(s: Disk, root: Path, after: Disk, e: Domain, d: Domain)
    requires DiskInv(s, root) && IsLive(s, d) && IsLive(s, e) && d != e && OnlyTouches(s, after, e)
    ensures SameFor(s, after, d)
  {
    LiveDomainsAreDisjoint(s, root, d, e);
  }

  lemma ActLeavesOthers(digest: Digester, s: Disk, root: Path, e: Domain, r: Request, d: Domain)
    requires DiskInv(s, root) && IsLive(s, d) && IsLive(s, e) && d != e
    requires !r.Create? && !r.Restore?
    ensures SameFor(s, Act(digest, s, e, r).0, d)
  {
    LiveHasCgroup(s, root, e);
    if r.Destroy? && r.empties {
      CompletedDestroy(digest, s, e, r);
      DestroyLeavesOthers(s, root, e, d);
    } else {
      ActOnlyTouches(digest, s, e, r);
      TouchLeavesOthers(s, root, Act(digest, s, e, r).0, e, d);
    }
  }

  /** Preparing and launching leave every domain with another directory and cgroup as it is. */
  lemma LaunchLeavesOthers(s: Disk, n: Domain, launch: Launch, d: Domain)
    requires n.dir != d.dir && n.cgroup != d.cgroup
    ensures SameFor(s, Launched(s, n, launch).0, d)
  {
  }

  lemma PreparedLeavesOthers(s: Disk, n: Domain, snapshot: Option<Tree>, d: Domain)
    requires n.upper != d.upper
    ensures SameFor(s, Prepared(s, n, snapshot), d)
  {
  }

  lemma SameForTwice(s: Disk, mid: Disk, after: Disk, d: Domain)
    requires SameFor(s, mid, d) && SameFor(mid, after, d)
    ensures SameFor(s, after, d)
  {
  }

  lemma CreateCommonLeavesOthers(s: Disk, root: Path, episode: string, epoch: U64, host: Host,
                                 snapshot: Option<Tree>, copied: bool, d: Domain)
    requires DiskInv(s, root) && IsLive(s, d) && IsHexId(episode)
    requires HasRoom(s.entries, EpochDir(root, episode, epoch))
    ensures SameFor(s, CreateCommon(s, episode, epoch, root, host, snapshot, copied).0, d)
  {
    var n := NewDomain(root, episode, epoch, NextGeneration(s.entries, EpochDir(root, episode, epoch)), host);
    NextGenerationIsFreshIff(s.entries, EpochDir(root, episode, epoch));
    NewIsApart(s, root, n, d);
    var made := Prepared(s, n, snapshot);
    PreparedLeavesOthers(s, n, snapshot, d);
    LaunchLeavesOthers(made, n, host.launch, d);
    SameForTwice(s, made, Launched(made, n, host.launch).0, d);
  }

  lemma NewIsApart(s: Disk, root: Path, n: Domain, d: Domain)
    requires DiskInv(s, root) && IsLive(s, d) && Placed(n, root) && n.dir !in s.entries
    ensures n.dir != d.dir && n.cgroup != d.cgroup && n.upper != d.upper
  {
    assert RecordOk(s, root, d.dir);
    OthersOutside(n, d, root);
    assert n.upper[..|n.dir|] == n.dir && d.upper[..|d.dir|] == d.dir;
  }

  lemma EstablishLeavesOthers(digest: Digester, s: Disk, root: Path, r: Request, d: Domain)
    requires DiskInv(s, root) && IsLive(s, d)
    requires (r.Create? || r.Restore?) && Admissible(s, root, Ask(r))
    ensures SameFor(s, Establish(digest, s, r).0, d)
  {
    if Granted(digest, s, r) {
      CreateCommonLeavesOthers(s, root, r.episode, r.epoch, r.host, Snapshot(s, r), Copies(r), d);
    }
  }

  /** A step that does not address a live domain leaves everything it owns untouched. */
  lemma StepLeavesOthers(digest: Digester, w: World, root: Path, e: Event, d: Domain)
    requires Inv(w, root) && Admissible(w.disk, root, e) && IsLive(w.disk, d) && !Addresses(e, d)
    ensures SameFor(w.disk, Step(digest, w, e).0.disk, d)
  {
    match e
    case Work(dir, _, _) =>
      if dir in w.disk.records {
        assert RecordOk(w.disk, root, dir);
        LiveDomainsAreDisjoint(w.disk, root, w.disk.records[dir], d);
      }
    case Ask(r) =>
      if r.Create? || r.Restore? {
        EstablishLeavesOthers(digest, w.disk, root, r, d);
      } else if Fence(w, r.target).Some? {
        FencedIsLive(w, root, r.target);
        ActLeavesOthers(digest, w.disk, root, Fence(w, r.target).value, r, d);
      }
  }

  /** Over a whole run: a domain nobody addresses is found exactly as it was left. */
  lemma {:induction false} RunLeavesOthers(digest: Digester, w: World, root: Path, es: seq<Event>, d: Domain)
    requires Inv(w, root) && AdmissibleRun(digest, w, root, es) && IsLive(w.disk, d)
    requires forall e :: e in es ==> !Addresses(e, d)
    ensures SameFor(w.disk, Run(digest, w, es).0.disk, d)
    decreases |es|
  {
    if es != [] {
      StepLeavesOthers(digest, w, root, es[0], d);
      StepKeepsInv(digest, w, root, es[0]);
      assert RecordOk(w.disk, root, d.dir);
      RunLeavesOthers(digest, Step(digest, w, es[0]).0, root, es[1..], d);
    }
  }

  /** A request that names a live domain with the wrong episode or epoch is refused without effect. */
  lemma StaleRequestIsRefused(digest: Digester, w: World, root: Path, r: Request, d: Domain)
    requires Inv(w, root) && IsLive(w.disk, d) && !r.Create? && !r.Restore?
    requires r.target.id == d.id && (r.target.episode != d.episode || r.target.epoch != d.epoch)
    ensures Handle(digest, w, r).1 == Refused && Handle(digest, w, r).0.disk == w.disk
  {
    if Fence(w, r.target).Some? {
      FencedIsLive(w, root, r.target);
    }
  }

  /** While a record lives, it never changes: whatever the step, it is the same record or gone. */
  lemma IdentityNeverChanges(digest: Digester, w: World, root: Path, e: Event, d: Domain)
    requires Inv(w, root) && Admissible(w.disk, root, e) && IsLive(w.disk, d)
    ensures var s := Step(digest, w, e).0.disk;
            d.dir in s.records ==> s.records[d.dir] == d
  {
    if !Addresses(e, d) {
      StepLeavesOthers(digest, w, root, e, d);
    } else if e.Work? {
      BackgroundKeeps(w.disk, root, e);
    } else if Fence(w, e.request.target).Some? {
      FencedIsLive(w, root, e.request.target);
      if e.request.Destroy? && e.request.empties {
        DestroyKeeps(w.disk, root, Fence(w, e.request.target).value);
      } else {
        ActKeeps(digest, w.disk, root, Fence(w, e.request.target).value, e.request);
      }
    }
  }

  /** No cgroup, hence no process, no record, directory or tree, and no live domain of that id. */
  ghost predicate NothingLeft(s: Disk, d: Domain) {
    && d.cgroup !in s.cgroups && d.dir !in s.records && d.dir !in s.entries
    && (forall p :: p in s.trees ==> !(d.dir <= p))
    && (forall x :: IsLive(s, x) ==> x.id != d.id)
  }

  /** A successful destroy leaves no process, cgroup, record, directory or map entry behind. */
  lemma DestroyLeavesNothing(digest: Digester, w: World, root: Path, r: Request)
    requires Inv(w, root) && r.Destroy? && Handle(digest, w, r).1.Destroyed?
    ensures var (after, reply) := Handle(digest, w, r);
            var d := reply.domain;
            && IsLive(w.disk, d) && Matches(d, r.target)
            && d.cgroup in w.disk.cgroups && reply == Destroyed(d, w.disk.cgroups[d.cgroup].procs, true)
            && NothingLeft(after.disk, d) && d.id !in after.domains
  {
    DestroyedWorld(digest, w, root, r);
    FencedIsLive(w, root, r.target);
    DestroyEmptiesDisk(w.disk, root, Fence(w, r.target).value);
  }

  lemma FencedIsPresent(w: World, root: Path, t: Target)
    requires Inv(w, root) && Fence(w, t).Some?
    ensures var d := Fence(w, t).value; IsLive(w.disk, d) && Placed(d, root) && Present(w.disk, d)
  {
    FencedIsLive(w, root, t);
    LiveHasCgroup(w.disk, root, Fence(w, t).value);
  }

  /** What a destroy reply says about how the request was handled. */
  lemma DestroyedWorld(digest: Digester, w: World, root: Path, r: Request)
    requires Inv(w, root) && r.Destroy? && Handle(digest, w, r).1.Destroyed?
    ensures var (after, reply) := Handle(digest, w, r);
            && Fence(w, r.target).Some? && Present(w.disk, Fence(w, r.target).value)
            && (after.disk, reply) == DestroyOn(w.disk, Fence(w, r.target).value, true, {})
            && r.target.id !in after.domains
  {
    HandleIsFencedAct(digest, w, r);
    FencedIsPresent(w, root, r.target);
    DestroyedIsCompleted(digest, w.disk, Fence(w, r.target).value, r);
  }

  lemma DestroyedIsCompleted(digest: Digester, s: Disk, d: Domain, r: Request)
    requires r.Destroy? && Act(digest, s, d, r).1.Destroyed?
    ensures Act(digest, s, d, r) == DestroyOn(s, d, true, {})
  {
  }

  lemma DestroyEmptiesDisk(s: Disk, root: Path, d: Domain)
    requires DiskInv(s, root) && IsLive(s, d) && Present(s, d)
    ensures var (after, reply) := DestroyOn(s, d, true, {});
            && reply == Destroyed(d, s.cgroups[d.cgroup].procs, true)
            && NothingLeft(after, d)
  {
    DestroyKeeps(s, root, d);
    var after := DestroyOn(s, d, true, {}).0;
    forall x | IsLive(after, x) ensures x.id != d.id {
      assert IsLive(s, x) && x.dir != d.dir;
    }
  }

  /** A record that create or restore just wrote is found again by a launcher with an empty map. */
  lemma CreatedRecordReloads(digest: Digester, w: World, root: Path, r: Request, t: Target)
    requires Inv(w, root) && (r.Create? || r.Restore?) && Admissible(w.disk, root, Ask(r))
    requires Handle(digest, w, r).1.Created? && CarriesRoot(t, root) && Matches(Handle(digest, w, r).1.domain, t)
    ensures var (after, reply) := Handle(digest, w, r);
            && IsLive(after.disk, reply.domain) && Validated(reply.domain, t)
            && Fence(World(map[], after.disk), t) == Some(reply.domain)
  {
    var (after, reply) := Handle(digest, w, r);
    StepKeepsInv(digest, w, root, Ask(r));
    EstablishKeeps(digest, w.disk, root, r);
    assert RecordOk(after.disk, root, reply.domain.dir);
    FenceIffLive(World(map[], after.disk), root, t, reply.domain);
    var d := reply.domain;
    assert EpochDir(root, d.episode, d.epoch) <= d.dir;
  }

  // ---- The cgroup tree is the closure of the live domains ---------------------------------

  ghost function Leaves(records: map<Path, Domain>): set<Path> { set p | p in records :: records[p].cgroup }

  /** Below `autonomic` there is exactly one cgroup for every prefix of a live domain's path. */
  ghost predicate ClosureExact(s: Disk) { Exactly(s.cgroups, Leaves(s.records)) }

  /** The leaf cgroup a create or restore is about to make. */
  ghost function NewLeaf(s: Disk, r: Request): (leaf: Path)
    requires r.Create? || r.Restore?
    ensures |leaf| == 7
  {
    CgroupPath(r.episode, r.epoch, NextGeneration(s.entries, EpochDir(r.stateRoot.parts, r.episode, r.epoch)))
  }

  /** How many components of the leaf's path exist after a launch. */
  function Depth(launch: Launch): nat { if launch.CgroupFailed? then launch.depth else 7 }

  /**
   * A create or restore gets as far as its cgroup, its launch fails, and some level below
   * `autonomic` that it made on the way was not there before.
   */
  ghost predicate Leaks(digest: Digester, s: Disk, e: Event) {
    && e.Ask? && (e.request.Create? || e.request.Restore?)
    && Granted(digest, s, e.request) && Copies(e.request) && !e.request.host.launch.Ready?
    && SomeLevelNew(s.cgroups, NewLeaf(s, e.request), Depth(e.request.host.launch))
  }

  lemma LeavesPlus(records: map<Path, Domain>, d: Domain)
    requires d.dir !in records
    ensures Leaves(records[d.dir := d]) == Leaves(records) + {d.cgroup}
  {
    var after := records[d.dir := d];
    forall c | c in Leaves(records) ensures c in Leaves(after) {
      var p :| p in records && records[p].cgroup == c;
      assert after[p] == records[p];
    }
    assert after[d.dir] == d;
  }

  lemma LeavesMinus(s: Disk, root: Path, d: Domain)
    requires DiskInv(s, root) && IsLive(s, d)
    ensures Leaves(s.records - {d.dir}) == Leaves(s.records) - {d.cgroup}
    ensures d.cgroup in Leaves(s.records) && forall l :: l in Leaves(s.records) ==> |l| == 7
  {
    assert RecordOk(s, root, d.dir);
    var after := s.records - {d.dir};
    forall p | p in s.records ensures |s.records[p].cgroup| == 7 { assert RecordOk(s, root, p); }
    forall p | p in s.records && p != d.dir ensures s.records[p].cgroup != d.cgroup {
      assert RecordOk(s, root, p);
      LiveDomainsAreDisjoint(s, root, d, s.records[p]);
    }
    forall c | c in Leaves(s.records) - {d.cgroup} ensures c in Leaves(after) {
      var p :| p in s.records && s.records[p].cgroup == c;
      assert p in after && after[p] == s.records[p];
    }
  }

  /** Which cgroups a launch makes, whether or not it succeeds. */
  lemma LaunchMakes(s: Disk, d: Domain, launch: Launch, c: Path)
    requires |d.cgroup| == 7 && |c| > 4
    ensures c in Launched(s, d, launch).0.cgroups <==> c in s.cgroups || (OnPath(c, d.cgroup) && |c| <= Depth(launch))
  {
    MadeKeys(s.cgroups, d.cgroup, Depth(launch), c);
  }

  /** The outcome of a create or restore, in terms of what its request and the disk say beforehand. */
  lemma EstablishOutcome(digest: Digester, s: Disk, root: Path, r: Request)
    requires DiskInv(s, root) && Admissible(s, root, Ask(r)) && (r.Create? || r.Restore?)
    ensures var (after, reply) := Establish(digest, s, r);
            && (reply.Created? <==> Granted(digest, s, r) && Copies(r) && r.host.launch.Ready?)
            && (reply.Created? ==> reply.domain.cgroup == NewLeaf(s, r) && reply.domain.dir !in s.records
                                   && after.records == s.records[reply.domain.dir := reply.domain])
            && (!reply.Created? ==> after.records == s.records)
            && (!(Granted(digest, s, r) && Copies(r)) ==> after.cgroups == s.cgroups)
            && (Granted(digest, s, r) && Copies(r) ==> forall c :: |c| > 4 ==>
                  (c in after.cgroups <==> c in s.cgroups || (OnPath(c, NewLeaf(s, r)) && |c| <= Depth(r.host.launch))))
  {
    if Granted(digest, s, r) {
      var epochDir := EpochDir(root, r.episode, r.epoch);
      NextGenerationIsFreshIff(s.entries, epochDir);
      RecordsListed(s, root);
      var d := NewDomain(root, r.episode, r.epoch, NextGeneration(s.entries, epochDir), r.host);
      var made := Prepared(s, d, Snapshot(s, r));
      if Copies(r) {
        forall c | |c| > 4 ensures c in Launched(made, d, r.host.launch).0.cgroups <==>
          c in s.cgroups || (OnPath(c, d.cgroup) && |c| <= Depth(r.host.launch))
        {
          LaunchMakes(made, d, r.host.launch, c);
        }
      }
    }
  }

  lemma EstablishKeepsClosureIff(digest: Digester, s: Disk, root: Path, r: Request)
    requires DiskInv(s, root) && ClosureExact(s) && Admissible(s, root, Ask(r)) && (r.Create? || r.Restore?)
    ensures ClosureExact(Establish(digest, s, r).0) <==> !Leaks(digest, s, Ask(r))
  {
    EstablishOutcome(digest, s, root, r);
    var (after, reply) := Establish(digest, s, r);
    if reply.Created? {
      LeavesPlus(s.records, reply.domain);
      LeafExtends(s.cgroups, after.cgroups, Leaves(s.records), reply.domain.cgroup);
    } else if Granted(digest, s, r) && Copies(r) {
      GrownExactIff(s.cgroups, after.cgroups, Leaves(s.records), NewLeaf(s, r), Depth(r.host.launch));
    }
  }

  lemma DestroyKeepsClosure(s: Disk, root: Path, d: Domain, after: Disk)
    requires DiskInv(s, root) && IsLive(s, d) && ClosureExact(s)
    requires d.cgroup in s.cgroups && after.cgroups == Teardown(Emptied(s, d), d.cgroup)
    requires after.records == s.records - {d.dir}
    ensures ClosureExact(after)
  {
    LiveHasCgroup(s, root, d);
    LeavesMinus(s, root, d);
    DomainLeaf(d, root);
    SameKeysExact(s.cgroups, Emptied(s, d), Leaves(s.records));
    TeardownShrinks(Emptied(s, d), Leaves(s.records), d.cgroup);
  }

  lemma SameKeysExact(cgroups: map<Path, Cgroup>, after: map<Path, Cgroup>, leaves: set<Path>)
    requires Exactly(cgroups, leaves) && after.Keys == cgroups.Keys
    ensures Exactly(after, leaves)
  {
    forall c | |c| > 4 ensures c in after <==> Needed(leaves, c) {
      assert c in cgroups <==> Needed(leaves, c);
    }
  }

  lemma ActKeepsClosure(digest: Digester, s: Disk, root: Path, d: Domain, r: Request)
    requires DiskInv(s, root) && IsLive(s, d) && ClosureExact(s) && !r.Create? && !r.Restore?
    ensures ClosureExact(Act(digest, s, d, r).0)
  {
    var after := Act(digest, s, d, r).0;
    if r.Destroy? && r.empties {
      DestroyKeeps(s, root, d);
      CompletedDestroy(digest, s, d, r);
      DestroyKeepsClosure(s, root, d, after);
    } else {
      ActKeeps(digest, s, root, d, r);
      SameKeysExact(s.cgroups, after.cgroups, Leaves(s.records));
    }
  }

  lemma FencedKeepsClosure(digest: Digester, w: World, root: Path, r: Request)
    requires Inv(w, root) && ClosureExact(w.disk) && !r.Create? && !r.Restore?
    ensures ClosureExact(Handle(digest, w, r).0.disk)
  {
    if Fence(w, r.target).Some? {
      FencedIsLive(w, root, r.target);
      ActKeepsClosure(digest, w.disk, root, Fence(w, r.target).value, r);
    }
  }

  /** One step keeps the cgroup tree exact if and only if it is not a launch that leaks. */
  lemma StepKeepsClosureIff(digest: Digester, w: World, root: Path, e: Event)
    requires Inv(w, root) && Admissible(w.disk, root, e) && ClosureExact(w.disk)
    ensures ClosureExact(Step(digest, w, e).0.disk) <==> !Leaks(digest, w.disk, e)
  {
    match e
    case Work(dir, _, _) =>
      BackgroundKeeps(w.disk, root, e);
      SameKeysExact(w.disk.cgroups, Background(w.disk, e).cgroups, Leaves(w.disk.records));
    case Ask(r) =>
      if r.Create? || r.Restore? {
        EstablishKeepsClosureIff(digest, w.disk, root, r);
      } else {
        FencedKeepsClosure(digest, w, root, r);
      }
  }

  /** A keeper that does not come up always leaks: the leaf of a fresh generation is new. */
  lemma FailedKeeperLeaks(digest: Digester, w: World, root: Path, r: Request)
    requires Inv(w, root) && Admissible(w.disk, root, Ask(r)) && (r.Create? || r.Restore?)
    requires Granted(digest, w.disk, r) && Copies(r) && r.host.launch.KeeperFailed?
    ensures Leaks(digest, w.disk, Ask(r))
  {
    var g := NextGeneration(w.disk.entries, EpochDir(root, r.episode, r.epoch));
    NextGenerationIsFreshIff(w.disk.entries, EpochDir(root, r.episode, r.epoch));
    EntryOfCgroup(root, r.episode, r.epoch, g);
    var leaf := NewLeaf(w.disk, r);
    assert leaf[..7] == leaf && leaf !in w.disk.cgroups;
  }

  /** No step of the run leaks, each judged in the state it is taken in. */
  ghost predicate LeakFree(digest: Digester, w: World, es: seq<Event>)
    decreases |es|
  {
    es == [] || (!Leaks(digest, w.disk, es[0]) && LeakFree(digest, Step(digest, w, es[0]).0, es[1..]))
  }

  /** Where every launch comes up nothing leaks. */
  lemma {:induction false} ReadyRunsAreLeakFree(digest: Digester, w: World, es: seq<Event>)
    requires forall e :: e in es && e.Ask? && (e.request.Create? || e.request.Restore?) ==> e.request.host.launch.Ready?
    ensures LeakFree(digest, w, es)
    decreases |es|
  {
    if es != [] {
      assert es[0] in es;
      ReadyRunsAreLeakFree(digest, Step(digest, w, es[0]).0, es[1..]);
    }
  }

  /** After any run without a leaking launch, the cgroup tree is exactly what the live domains need. */
  lemma {:induction false} RunKeepsClosure(digest: Digester, w: World, root: Path, es: seq<Event>)
    requires Inv(w, root) && AdmissibleRun(digest, w, root, es) && ClosureExact(w.disk)
    requires LeakFree(digest, w, es)
    ensures ClosureExact(Run(digest, w, es).0.disk)
    decreases |es|
  {
    if es != [] {
      StepKeepsClosureIff(digest, w, root, es[0]);
      StepKeepsInv(digest, w, root, es[0]);
      RunKeepsClosure(digest, Step(digest, w, es[0]).0, root, es[1..]);
    }
  }

  // ---- A leaked leaf is there for good -----------------------------------------------------

  /** A generation's cgroup and directory entry without a record. */
  predicate Orphan(s: Disk, root: Path, c: Path) {
    |c| == 7 && c in s.cgroups && EntryOf(root, c) in s.entries && EntryOf(root, c) !in s.records
  }

  lemma OrphanSpoilsClosure(s: Disk, root: Path, c: Path)
    requires DiskInv(s, root) && Orphan(s, root, c)
    ensures !ClosureExact(s)
  {
    forall l | l in Leaves(s.records) ensures !OnPath(c, l) {
      var p :| p in s.records && s.records[p].cgroup == l;
      var d := s.records[p];
      assert RecordOk(s, root, p);
      EntryOfCgroup(root, d.episode, d.epoch, d.generation);
      assert c <= l && |l| == 7 ==> c == l;
    }
    assert !Needed(Leaves(s.records), c);
  }

  lemma EstablishKeepsOrphan(digest: Digester, s: Disk, root: Path, r: Request, c: Path)
    requires DiskInv(s, root) && Orphan(s, root, c) && Admissible(s, root, Ask(r)) && (r.Create? || r.Restore?)
    ensures Orphan(Establish(digest, s, r).0, root, c)
  {
    EstablishOutcome(digest, s, root, r);
    EstablishKeeps(digest, s, root, r);
    EstablishKeepsEntries(digest, s, r);
  }

  lemma EstablishKeepsEntries(digest: Digester, s: Disk, r: Request)
    requires r.Create? || r.Restore?
    ensures s.entries <= Establish(digest, s, r).0.entries
  {
  }

  lemma DestroyKeepsOrphan(s: Disk, root: Path, d: Domain, c: Path)
    requires DiskInv(s, root) && IsLive(s, d) && Orphan(s, root, c)
    ensures Orphan(DestroyOn(s, d, true, {}).0, root, c)
  {
    LiveHasCgroup(s, root, d);
    DestroyKeeps(s, root, d);
    EntryOfCgroup(root, d.episode, d.epoch, d.generation);
    assert c != d.cgroup && |c| == |d.cgroup|;
    TeardownOk(Emptied(s, d), d.cgroup);
    assert |EntryOf(root, c)| == |d.dir| && EntryOf(root, c) != d.dir;
  }

  lemma ActKeepsOrphan(digest: Digester, s: Disk, root: Path, d: Domain, r: Request, c: Path)
    requires DiskInv(s, root) && IsLive(s, d) && Orphan(s, root, c) && !r.Create? && !r.Restore?
    ensures Orphan(Act(digest, s, d, r).0, root, c)
  {
    if r.Destroy? && r.empties {
      LiveHasCgroup(s, root, d);
      CompletedDestroy(digest, s, d, r);
      DestroyKeepsOrphan(s, root, d, c);
    } else {
      ActKeeps(digest, s, root, d, r);
    }
  }

  lemma StepKeepsOrphan(digest: Digester, w: World, root: Path, e: Event, c: Path)
    requires Inv(w, root) && Admissible(w.disk, root, e) && Orphan(w.disk, root, c)
    ensures Orphan(Step(digest, w, e).0.disk, root, c)
  {
    match e
    case Work(_, _, _) =>
      BackgroundKeeps(w.disk, root, e);
    case Ask(r) =>
      if r.Create? || r.Restore? {
        EstablishKeepsOrphan(digest, w.disk, root, r, c);
      } else {
        HandleIsFencedAct(digest, w, r);
        if Fence(w, r.target).Some? {
          FencedIsLive(w, root, r.target);
          ActKeepsOrphan(digest, w.disk, root, Fence(w, r.target).value, r, c);
        }
      }
  }

  /** Nothing ever cleans an orphan up: no request names it, and its number is never drawn again. */
  lemma {:induction false} OrphanIsForever(digest: Digester, w: World, root: Path, es: seq<Event>, c: Path)
    requires Inv(w, root) && AdmissibleRun(digest, w, root, es) && Orphan(w.disk, root, c)
    ensures Orphan(Run(digest, w, es).0.disk, root, c) && !ClosureExact(Run(digest, w, es).0.disk)
    decreases |es|
  {
    if es == [] {
      OrphanSpoilsClosure(w.disk, root, c);
    } else {
      StepKeepsOrphan(digest, w, root, es[0], c);
      StepKeepsInv(digest, w, root, es[0]);
      OrphanIsForever(digest, Step(digest, w, es[0]).0, root, es[1..], c);
    }
  }

  /** If the step is a launch that fails, it fails with the leaf made. */
  predicate FailsAtLeaf(e: Event) {
    e.Ask? && (e.request.Create? || e.request.Restore?) && e.request.host.launch.CgroupFailed? ==>
      e.request.host.launch.depth >= 7
  }

  lemma LeakMakesOrphan(digest: Digester, s: Disk, root: Path, r: Request)
    requires DiskInv(s, root) && Admissible(s, root, Ask(r)) && (r.Create? || r.Restore?)
    requires Leaks(digest, s, Ask(r)) && FailsAtLeaf(Ask(r))
    ensures Orphan(Establish(digest, s, r).0, root, NewLeaf(s, r))
  {
    EstablishOutcome(digest, s, root, r);
    RecordsListed(s, root);
    var g := NextGeneration(s.entries, EpochDir(root, r.episode, r.epoch));
    NextGenerationIsFreshIff(s.entries, EpochDir(root, r.episode, r.epoch));
    EntryOfCgroup(root, r.episode, r.epoch, g);
    assert OnPath(NewLeaf(s, r), NewLeaf(s, r));
  }

  /**
   * Over every run whose failing launches get as far as the leaf, the cgroup tree is exact at
   * the end if and only if none of them leaked: what one leaks, no later step repairs.
   */
  lemma {:induction false} RunKeepsClosureIff(digest: Digester, w: World, root: Path, es: seq<Event>)
    requires Inv(w, root) && AdmissibleRun(digest, w, root, es) && ClosureExact(w.disk)
    requires forall e :: e in es ==> FailsAtLeaf(e)
    ensures ClosureExact(Run(digest, w, es).0.disk) <==> LeakFree(digest, w, es)
    decreases |es|
  {
    if es != [] {
      var next := Step(digest, w, es[0]).0;
      StepKeepsClosureIff(digest, w, root, es[0]);
      StepKeepsInv(digest, w, root, es[0]);
      if Leaks(digest, w.disk, es[0]) {
        assert es[0] in es;
        LeakMakesOrphan(digest, w.disk, root, es[0].request);
        OrphanIsForever(digest, next, root, es[1..], NewLeaf(w.disk, es[0].request));
      } else {
        RunKeepsClosureIff(digest, next, root, es[1..]);
      }
    }
  }
}
