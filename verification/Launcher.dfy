/**
 * The daemon's request handling as it runs: a warm map and the host's file and cgroup trees,
 * updated in place. Every method is proved against the step functions of the world model.
 */
module Launcher {
  import opened Prelude
  import opened Decimal
  import opened Domains
  import CopyTree
  import opened DomainInvariant
  import opened DomainTheorems

  class Registry {
    const digest: Digester
    ghost const root: Path
    var domains: map<string, Domain>
    var entries: set<Path>
    var records: map<Path, Domain>
    var trees: map<Path, Tree>
    var cgroups: map<Path, Cgroup>

    function Disk(): Disk
      reads this
    {
      Domains.Disk(entries, records, trees, cgroups)
    }

    function View(): World
      reads this
    {
      World(domains, Disk())
    }

    ghost predicate Valid()
      reads this
    {
      Inv(View(), root)
    }

    constructor (digest: Digester, ghost root: Path, entries: set<Path>)
      ensures Valid() && this.digest == digest && this.root == root
      ensures View() == World(map[], Domains.Disk(entries, map[], map[], map[]))
    {
      this.digest, this.root, this.entries := digest, root, entries;
      domains, records, trees, cgroups := map[], map[], map[], map[];
    }

    // ---- Lookup ---------------------------------------------------------------------------

    /**
     * `ensure_loaded_domain`: the map, or a scan of the epoch directory in any order. On any
     * disk it loads a matching record that passes validation, or refuses because there is none
     * or because it met one that does not; in a valid state that is the specified loading.
     */
    method EnsureLoaded(t: Target) returns (ok: bool)
      requires forall p :: p in records ==> p in entries
      modifies this`domains
      ensures ok ==> LoadedFrom(old(domains), records, t, domains)
      ensures !ok ==> domains == old(domains) && LoadRefused(domains, records, t)
      ensures old(Valid()) ==> Valid() && (ok <==> Loaded(old(View()), t).Some?)
      ensures old(Valid()) && ok ==> domains == Loaded(old(View()), t).value
    {
      if t.id in domains {
        return true;
      }
      if !IsHexId(t.episode) || !Secure(t.stateRoot) {
        return false;
      }
      var epochDir := EpochDir(t.stateRoot.parts, t.episode, t.epoch);
      var listing := set p | p in entries && ChildOf(epochDir, p);
      ghost var seen: set<Path> := {};
      while listing != {}
        invariant unchanged(this)
        invariant forall p :: p in entries && ChildOf(epochDir, p) ==> p in seen || p in listing
        invariant forall p :: p in listing ==> p in entries && ChildOf(epochDir, p)
        invariant forall p :: p in seen && p in records ==> !Matches(records[p], t)
        decreases listing
      {
        var p :| p in listing;
        listing := listing - {p};
        seen := seen + {p};
        if p in records && Matches(records[p], t) {
          assert Candidate(records, t, p);
          ScanStops(View(), root, t, p);
          if !Validated(records[p], t) {
            return false;
          }
          domains := domains[t.id := records[p]];
          return true;
        }
      }
      assert forall p :: !Candidate(records, t, p);
      return false;
    }

    // ---- Create and restore ---------------------------------------------------------------

    /** The loop over the directory listing that remembers the largest number seen. */
    method NextFreeGeneration(epochDir: Path) returns (next: U64)
      ensures next == NextGeneration(entries, epochDir)
    {
      var listing := set p | p in entries && ChildOf(epochDir, p);
      var maxSeen: Option<U64> := None;
      ghost var seen: set<Path> := {};
      while listing != {}
        invariant forall p :: p in entries && ChildOf(epochDir, p) ==> p in seen || p in listing
        invariant forall p :: p in seen || p in listing ==> p in entries && ChildOf(epochDir, p)
        invariant LargestSeen(seen, maxSeen)
        decreases listing
      {
        var p :| p in listing;
        listing := listing - {p};
        SeeOneMore(seen, maxSeen, p);
        maxSeen := LargerOf(maxSeen, LastGen(p));
        seen := seen + {p};
      }
      LargestGivesNext(entries, epochDir, seen, maxSeen);
      return if maxSeen.None? then 0 else After(maxSeen.value);
    }

    /** Create one cgroup directory unless it is there. */
    method MakeCgroupDir(p: Path)
      modifies this`cgroups
      ensures cgroups == WithDir(old(cgroups), p)
    {
      if p !in cgroups {
        cgroups := cgroups[p := Cgroup({}, false)];
      }
    }

    /** `create_dir_all`, one level after the other. */
    method MakeCgroupDirs(leaf: Path, depth: nat)
      modifies this`cgroups
      ensures cgroups == MakeCgroups(old(cgroups), leaf, depth)
    {
      ghost var start := cgroups;
      var last := Min(depth, |leaf|);
      MakeNothing(start, leaf);
      var k := 3;
      while k < last
        invariant 3 <= k <= Max(3, last)
        invariant cgroups == MakeCgroups(start, leaf, k)
      {
        k := k + 1;
        MakeOneLevel(start, leaf, k);
        MakeCgroupDir(leaf[..k]);
      }
      MakeRest(start, leaf, k, depth);
    }

    /** The generation directory and its upper, and the checkpoint copied into it. */
    method PrepareUpper(d: Domain, snapshot: Option<Tree>)
      modifies this`entries, this`trees
      ensures Disk() == Prepared(old(Disk()), d, snapshot)
    {
      entries := entries + {d.dir};
      if d.upper !in trees {
        trees := trees[d.upper := []];
      }
      if snapshot.Some? {
        trees := trees[d.upper := CopyTree.Merge(trees[d.upper], snapshot.value)];
      }
    }

    /** Configure the cgroup, start the keeper, persist the record unless one is there. */
    method Launch(d: Domain, launch: Domains.Launch) returns (reply: Reply)
      modifies this`records, this`cgroups
      ensures (Disk(), reply) == Launched(old(Disk()), d, launch)
    {
      if launch.CgroupFailed? {
        MakeCgroupDirs(d.cgroup, launch.depth);
        return Refused;
      }
      MakeCgroupDirs(d.cgroup, 7);
      cgroups := cgroups[d.cgroup := Cgroup(if launch.Ready? then launch.pids else launch.leftover, false)];
      if launch.KeeperFailed? || d.dir in records {
        return Refused;
      }
      records := records[d.dir := d];
      return Created(d);
    }

    /** Choose the generation, prepare the directory, launch, remember. */
    method CreateDomainCommon(episode: string, epoch: U64, stateRoot: Path, host: Host, snapshot: Option<Tree>, copied: bool)
      returns (reply: Reply)
      modifies this`domains, this`entries, this`records, this`trees, this`cgroups
      ensures (Disk(), reply) == CreateCommon(old(Disk()), episode, epoch, stateRoot, host, snapshot, copied)
      ensures domains == if reply.Created? then old(domains)[reply.domain.id := reply.domain] else old(domains)
    {
      var next := NextFreeGeneration(EpochDir(stateRoot, episode, epoch));
      var d := NewDomain(stateRoot, episode, epoch, next, host);
      PrepareUpper(d, snapshot);
      if !copied {
        return Refused;
      }
      reply := Launch(d, host.launch);
      if reply.Created? {
        domains := domains[d.id := d];
      }
    }

    method CreateDomain(r: Request) returns (reply: Reply)
      requires r.Create?
      modifies this`domains, this`entries, this`records, this`trees, this`cgroups
      ensures (View(), reply) == Handle(digest, old(View()), r)
    {
      if !IsHexId(r.episode) || r.epoch == 0 || !Secure(r.stateRoot) || !r.host.pathsOk {
        return Refused;
      }
      reply := CreateDomainCommon(r.episode, r.epoch, r.stateRoot.parts, r.host, None, true);
    }

    /** The digest of the checkpoint directory is compared before anything is created. */
    method RestoreDomain(r: Request) returns (reply: Reply)
      requires r.Restore?
      modifies this`domains, this`entries, this`records, this`trees, this`cgroups
      ensures (View(), reply) == Handle(digest, old(View()), r)
    {
      if !IsHexId(r.episode) || r.ref !in trees {
        return Refused;
      }
      var actual := digest(trees[r.ref]);
      if actual != r.digest || !Secure(r.stateRoot) || !r.host.pathsOk {
        return Refused;
      }
      reply := CreateDomainCommon(r.episode, r.epoch, r.stateRoot.parts, r.host,
                                  Some(CopyResult(r.copy, trees[r.ref])), !r.copy.Aborted?);
    }

    // ---- Actions on a loaded domain -------------------------------------------------------

    method CheckpointDomain(d: Domain, freezes: bool, copy: Copy, thaws: bool) returns (reply: Reply)
      modifies this`trees, this`cgroups
      ensures (Disk(), reply) == if old(d.cgroup in cgroups) then CheckpointOn(digest, old(Disk()), d, freezes, copy, thaws)
                                 else (old(Disk()), Refused)
    {
      if d.cgroup !in cgroups {
        return Refused;
      }
      var procs := cgroups[d.cgroup].procs;
      cgroups := cgroups[d.cgroup := Cgroup(procs, true)];
      if !freezes {
        return Refused;
      }
      var made := None;
      if d.upper in trees {
        made := SealUpper(d, copy);
      }
      cgroups := cgroups[d.cgroup := Cgroup(procs, false)];
      assert cgroups == old(cgroups)[d.cgroup := Cgroup(procs, false)];
      return if made.None? || !thaws then Refused else Checkpointed(d, made.value.0, made.value.1);
    }

    /** Digest the upper and copy it unless a directory of that name exists. */
    method SealUpper(d: Domain, copy: Copy) returns (made: Option<(Path, string)>)
      requires d.upper in trees
      modifies this`trees
      ensures var name := digest(old(trees)[d.upper]);
              var ref := CheckpointPath(d, name);
              && trees == (if ref in old(trees) then old(trees) else old(trees)[ref := CopyResult(copy, old(trees)[d.upper])])
              && made == if ref in old(trees) || !copy.Aborted? then Some((ref, name)) else None
    {
      var name := digest(trees[d.upper]);
      var ref := CheckpointPath(d, name);
      if ref !in trees {
        trees := trees[ref := CopyResult(copy, trees[d.upper])];
        if copy.Aborted? {
          return None;
        }
      }
      return Some((ref, name));
    }

    /** Kill what is in a cgroup; `survivors` are the processes that outlive it. */
    method Kill(d: Domain, survivors: set<nat>)
      modifies this`cgroups
      ensures cgroups == Killed(old(Disk()), d, survivors)
    {
      if d.cgroup in cgroups {
        var cg := cgroups[d.cgroup];
        cgroups := cgroups[d.cgroup := Cgroup(cg.procs * survivors, cg.frozen)];
      }
    }

    /** The removal loop: `rmdir` upwards, failures ignored, until the `autonomic` component. */
    method RemoveCgroups(leaf: Path)
      modifies this`cgroups
      ensures cgroups == Teardown(old(cgroups), leaf)
    {
      var current := Some(leaf);
      while current.Some?
        invariant current.Some? ==> Teardown(cgroups, current.value) == Teardown(old(cgroups), leaf)
        invariant current.None? ==> cgroups == Teardown(old(cgroups), leaf)
        decreases if current.Some? then |current.value| + 1 else 0
      {
        var path := current.value;
        if path == [] {
          current := None;
        } else if path[|path| - 1] == "autonomic" {
          return;
        } else {
          if path in cgroups && cgroups[path].procs == {} && !(exists c :: c in cgroups && ChildOf(path, c)) {
            cgroups := cgroups - {path};
          }
          current := Some(path[..|path| - 1]);
        }
      }
    }

    method DestroyDomain(d: Domain, empties: bool, survivors: set<nat>) returns (reply: Reply)
      modifies this`entries, this`records, this`trees, this`cgroups
      ensures (Disk(), reply) == DestroyOn(old(Disk()), d, empties, survivors)
    {
      var pidsBefore := ProcsOf(Disk(), d);
      var timesOut := d.cgroup in cgroups && !empties;
      Kill(d, if timesOut then survivors else {});
      if timesOut {
        return Refused;
      }
      RemoveCgroups(d.cgroup);
      entries := Outside(entries, d.dir);
      records := records - Within(records.Keys, d.dir);
      trees := trees - Within(trees.Keys, d.dir);
      return Destroyed(d, pidsBefore, d.cgroup !in cgroups);
    }

    method ActOn(d: Domain, r: Request) returns (reply: Reply)
      requires !r.Create? && !r.Restore?
      modifies this`entries, this`records, this`trees, this`cgroups
      ensures (Disk(), reply) == Act(digest, old(Disk()), d, r)
    {
      match r {
        case Exec(_, valid, completes, tree, procs) =>
          if !valid || d.cgroup !in cgroups || d.upper !in trees {
            return Refused;
          }
          var frozen := cgroups[d.cgroup].frozen;
          cgroups := cgroups[d.cgroup := Cgroup(procs, frozen)];
          trees := trees[d.upper := if frozen then trees[d.upper] else tree];
          return if completes then Executed(d) else Refused;
        case Signal(_, signal, survivors) =>
          if signal !in SIGNALS {
            return Refused;
          }
          Kill(d, survivors);
          return Signaled(d);
        case Freeze(_, on, settles) =>
          if d.cgroup !in cgroups {
            return Refused;
          }
          cgroups := cgroups[d.cgroup := Cgroup(cgroups[d.cgroup].procs, on)];
          return if settles then FrozenTo(d, on) else Refused;
        case Checkpoint(_, freezes, copy, thaws) =>
          reply := CheckpointDomain(d, freezes, copy, thaws);
        case Inspect(_) =>
          return Inspected(d, ProcsOf(Disk(), d));
        case Destroy(_, empties, survivors) =>
          reply := DestroyDomain(d, empties, survivors);
      }
    }

    /** `handle_request`: load, check the fence, act, and keep the map in step with the disk. */
    method HandleRequest(r: Request) returns (reply: Reply)
      requires Valid() && Admissible(Disk(), root, Ask(r))
      modifies this`domains, this`entries, this`records, this`trees, this`cgroups
      ensures Valid()
      ensures (View(), reply) == Handle(digest, old(View()), r)
    {
      StepKeepsInv(digest, View(), root, Ask(r));
      if r.Create? {
        reply := CreateDomain(r);
      } else if r.Restore? {
        reply := RestoreDomain(r);
      } else {
        RecordsListed(Disk(), root);
        var loaded := EnsureLoaded(r.target);
        if !loaded {
          return Refused;
        }
        var d := Checked(domains, r.target);
        if d.None? {
          return Refused;
        }
        reply := ActOn(d.value, r);
        if reply.Destroyed? {
          domains := domains - {r.target.id};
        }
      }
    }
  }

  /** The map had the domain, or now has a matching record that passes validation. */
  ghost predicate LoadedFrom(before: map<string, Domain>, records: map<Path, Domain>, t: Target, after: map<string, Domain>) {
    if t.id in before then after == before
    else
      && IsHexId(t.episode) && Secure(t.stateRoot)
      && exists p :: Candidate(records, t, p) && Validated(records[p], t) && after == before[t.id := records[p]]
  }

  /** The request is malformed, or no record matches, or one that matches fails validation. */
  ghost predicate LoadRefused(domains: map<string, Domain>, records: map<Path, Domain>, t: Target) {
    && t.id !in domains
    && (IsHexId(t.episode) && Secure(t.stateRoot) ==>
          || (forall p :: !Candidate(records, t, p))
          || (exists p :: Candidate(records, t, p) && !Validated(records[p], t)))
  }

  /** In a valid state the first matching record the scan meets decides. */
  lemma ScanStops(w: World, root: Path, t: Target, p: Path)
    requires t.id !in w.domains && IsHexId(t.episode) && Secure(t.stateRoot) && Candidate(w.disk.records, t, p)
    ensures Inv(w, root) ==> Loaded(w, t) == if Validated(w.disk.records[p], t) then Some(w.domains[t.id := w.disk.records[p]]) else None
    ensures Inv(w, root) && Loaded(w, t).Some? ==> Inv(World(Loaded(w, t).value, w.disk), root)
  {
    if Inv(w, root) {
      CandidateIsUnique(w.disk, root, t, p);
      if Loaded(w, t).Some? { LoadedOk(w, root, t); }
    }
  }

  /** The largest generation number among the names seen so far, if any has one. */
  ghost predicate LargestSeen(seen: set<Path>, largest: Option<U64>) {
    && (forall p :: p in seen && LastGen(p).Some? ==> largest.Some? && LastGen(p).value <= largest.value)
    && (largest.Some? ==> exists p :: p in seen && LastGen(p) == largest)
  }

  lemma SeeOneMore(seen: set<Path>, largest: Option<U64>, p: Path)
    requires LargestSeen(seen, largest)
    ensures LargestSeen(seen + {p}, LargerOf(largest, LastGen(p)))
  {
    var after := LargerOf(largest, LastGen(p));
    if after.Some? {
      if after == LastGen(p) {
        assert p in seen + {p};
      } else {
        var q :| q in seen && LastGen(q) == largest;
        assert q in seen + {p};
      }
    }
  }

  function LargerOf(a: Option<U64>, b: Option<U64>): Option<U64> {
    if b.None? then a else if a.Some? && a.value >= b.value then a else b
  }

  lemma LargestGivesNext(entries: set<Path>, epochDir: Path, seen: set<Path>, largest: Option<U64>)
    requires forall p :: p in seen <==> p in entries && ChildOf(epochDir, p)
    requires LargestSeen(seen, largest)
    ensures NextGeneration(entries, epochDir) ==
            if largest.None? then 0 else After(largest.value)
  {
    if largest.Some? {
      var p :| p in seen && LastGen(p) == largest;
      assert Newest(entries, epochDir, p);
      NewestGivesNext(entries, epochDir, p);
    } else {
      assert forall p :: !Numbered(entries, epochDir, p);
    }
  }

  function WithDir(cgroups: map<Path, Cgroup>, p: Path): map<Path, Cgroup> {
    if p in cgroups then cgroups else cgroups[p := Cgroup({}, false)]
  }

  lemma MakeNothing(cgroups: map<Path, Cgroup>, leaf: Path)
    ensures MakeCgroups(cgroups, leaf, 3) == cgroups
  {
    assert Missing(cgroups, leaf, 3) == {};
  }

  lemma MakeOneLevel(cgroups: map<Path, Cgroup>, leaf: Path, k: nat)
    requires 4 <= k <= |leaf|
    ensures MakeCgroups(cgroups, leaf, k) == WithDir(MakeCgroups(cgroups, leaf, k - 1), leaf[..k])
  {
    assert Missing(cgroups, leaf, k) == Missing(cgroups, leaf, k - 1) + ({leaf[..k]} - cgroups.Keys);
  }

  lemma MakeRest(cgroups: map<Path, Cgroup>, leaf: Path, k: nat, depth: nat)
    requires k == Max(3, Min(depth, |leaf|))
    ensures MakeCgroups(cgroups, leaf, k) == MakeCgroups(cgroups, leaf, depth)
  {
    assert Missing(cgroups, leaf, k) == Missing(cgroups, leaf, depth);
  }
}
