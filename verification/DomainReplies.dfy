/**
 * What every request answers and what it does to the disk, said in terms of the disk before and
 * after it and of the fields of the request alone.
 */
module DomainReplies {
  import opened Prelude
  import opened Decimal
  import opened Domains
  import opened DomainInvariant
  import opened DomainTheorems
  import CopyTree

  /** Entries, records, other trees and other cgroups are as they were. */
  ghost predicate SameElsewhere(s: Disk, after: Disk, d: Domain) {
    && after.entries == s.entries && after.records == s.records
    && (forall p :: p != d.upper ==> (p in after.trees <==> p in s.trees) && (p in s.trees ==> after.trees[p] == s.trees[p]))
    && (forall c :: c != d.cgroup ==>
          (c in after.cgroups <==> c in s.cgroups) && (c in s.cgroups ==> after.cgroups[c] == s.cgroups[c]))
  }

  /** The domain still has its upper and its cgroup, with these contents. */
  predicate Has(s: Disk, d: Domain, tree: Tree, procs: set<nat>, frozen: bool) {
    && d.upper in s.trees && s.trees[d.upper] == tree
    && d.cgroup in s.cgroups && s.cgroups[d.cgroup].procs == procs && s.cgroups[d.cgroup].frozen == frozen
  }

  /** The domain a request reaches, with the tree, processes and freeze state it has. */
  ghost predicate Reached(w: World, t: Target, d: Domain, tree: Tree, procs: set<nat>, frozen: bool) {
    Fence(w, t) == Some(d) && Has(w.disk, d, tree, procs, frozen)
  }

  lemma ReachedIsThere(w: World, root: Path, t: Target)
    requires Inv(w, root) && Fence(w, t).Some?
    ensures var d := Fence(w, t).value;
            && d.upper in w.disk.trees && d.cgroup in w.disk.cgroups
            && Reached(w, t, d, w.disk.trees[d.upper], w.disk.cgroups[d.cgroup].procs, w.disk.cgroups[d.cgroup].frozen)
  {
    FencedIsPresent(w, root, t);
  }

  /** Exec answers exactly when it is valid and completes in time; a timed-out command has run all the same. */
  lemma ExecOutcome(digest: Digester, w: World, root: Path, r: Request)
    requires Inv(w, root) && r.Exec?
    ensures Handle(digest, w, r).1 ==
              if Fence(w, r.target).Some? && r.valid && r.completes then Executed(Fence(w, r.target).value) else Refused
    ensures Fence(w, r.target).None? || !r.valid ==> Handle(digest, w, r).0.disk == w.disk
    ensures forall d, tree, procs, frozen :: Reached(w, r.target, d, tree, procs, frozen) && r.valid ==>
              && SameElsewhere(w.disk, Handle(digest, w, r).0.disk, d)
              && Has(Handle(digest, w, r).0.disk, d, if frozen then tree else r.tree, r.procs, frozen)
  {
    HandleIsFencedAct(digest, w, r);
    if Fence(w, r.target).Some? {
      FencedIsPresent(w, root, r.target);
      ExecOnDisk(digest, w.disk, Fence(w, r.target).value, r);
    }
  }

  lemma ExecOnDisk(digest: Digester, s: Disk, d: Domain, r: Request)
    requires r.Exec? && Present(s, d)
    ensures Act(digest, s, d, r).1 == if r.valid && r.completes then Executed(d) else Refused
    ensures !r.valid ==> Act(digest, s, d, r).0 == s
    ensures r.valid ==>
              && SameElsewhere(s, Act(digest, s, d, r).0, d)
              && Has(Act(digest, s, d, r).0, d, if s.cgroups[d.cgroup].frozen then s.trees[d.upper] else r.tree,
                     r.procs, s.cgroups[d.cgroup].frozen)
  {
  }

  /** The five signals there are; each leaves of the processes those that survive it and touches nothing else. */
  lemma SignalOutcome(digest: Digester, w: World, root: Path, r: Request)
    requires Inv(w, root) && r.Signal?
    ensures var known := r.signal == "sigterm" || r.signal == "sigkill" || r.signal == "sigint"
                         || r.signal == "sigtstp" || r.signal == "sigcont";
            && Handle(digest, w, r).1 ==
                 (if Fence(w, r.target).Some? && known then Signaled(Fence(w, r.target).value) else Refused)
            && (Fence(w, r.target).None? || !known ==> Handle(digest, w, r).0.disk == w.disk)
            && forall d, tree, procs, frozen :: Reached(w, r.target, d, tree, procs, frozen) && known ==>
                 && SameElsewhere(w.disk, Handle(digest, w, r).0.disk, d)
                 && Has(Handle(digest, w, r).0.disk, d, tree, procs * r.survivors, frozen)
  {
    HandleIsFencedAct(digest, w, r);
    if Fence(w, r.target).Some? {
      FencedIsPresent(w, root, r.target);
      SignalOnDisk(digest, w.disk, Fence(w, r.target).value, r);
    }
  }

  lemma SignalOnDisk(digest: Digester, s: Disk, d: Domain, r: Request)
    requires r.Signal? && Present(s, d)
    ensures var known := r.signal == "sigterm" || r.signal == "sigkill" || r.signal == "sigint"
                         || r.signal == "sigtstp" || r.signal == "sigcont";
            && Act(digest, s, d, r).1 == (if known then Signaled(d) else Refused)
            && (!known ==> Act(digest, s, d, r).0 == s)
            && (known ==>
                 && SameElsewhere(s, Act(digest, s, d, r).0, d)
                 && Has(Act(digest, s, d, r).0, d, s.trees[d.upper], s.cgroups[d.cgroup].procs * r.survivors,
                        s.cgroups[d.cgroup].frozen))
  {
  }

  /** Freeze and thaw set the flag, and answer exactly when the kernel settles in time. */
  lemma FreezeOutcome(digest: Digester, w: World, root: Path, r: Request)
    requires Inv(w, root) && r.Freeze?
    ensures Handle(digest, w, r).1 ==
              if Fence(w, r.target).Some? && r.settles then FrozenTo(Fence(w, r.target).value, r.on) else Refused
    ensures Fence(w, r.target).None? ==> Handle(digest, w, r).0.disk == w.disk
    ensures forall d, tree, procs, frozen :: Reached(w, r.target, d, tree, procs, frozen) ==>
              && SameElsewhere(w.disk, Handle(digest, w, r).0.disk, d)
              && Has(Handle(digest, w, r).0.disk, d, tree, procs, r.on)
  {
    HandleIsFencedAct(digest, w, r);
    if Fence(w, r.target).Some? {
      FencedIsPresent(w, root, r.target);
      FreezeOnDisk(digest, w.disk, Fence(w, r.target).value, r);
    }
  }

  lemma FreezeOnDisk(digest: Digester, s: Disk, d: Domain, r: Request)
    requires r.Freeze? && Present(s, d)
    ensures Act(digest, s, d, r).1 == if r.settles then FrozenTo(d, r.on) else Refused
    ensures SameElsewhere(s, Act(digest, s, d, r).0, d)
    ensures Has(Act(digest, s, d, r).0, d, s.trees[d.upper], s.cgroups[d.cgroup].procs, r.on)
  {
  }

  /** Inspect tells the processes of the domain's cgroup and changes nothing. */
  lemma InspectOutcome(digest: Digester, w: World, root: Path, r: Request)
    requires Inv(w, root) && r.Inspect?
    ensures Handle(digest, w, r).0.disk == w.disk
    ensures Fence(w, r.target).None? ==> Handle(digest, w, r).1 == Refused
    ensures forall d, tree, procs, frozen :: Reached(w, r.target, d, tree, procs, frozen) ==>
              Handle(digest, w, r).1 == Inspected(d, procs)
  {
    HandleIsFencedAct(digest, w, r);
    if Fence(w, r.target).Some? {
      FencedIsPresent(w, root, r.target);
      InspectOnDisk(digest, w.disk, Fence(w, r.target).value, r);
    }
  }

  lemma InspectOnDisk(digest: Digester, s: Disk, d: Domain, r: Request)
    requires r.Inspect? && Present(s, d)
    ensures Act(digest, s, d, r) == (s, Inspected(d, s.cgroups[d.cgroup].procs))
  {
  }

  /** A destroy answers exactly when the cgroup empties in time; else only the killed processes are gone. */
  lemma DestroyOutcome(digest: Digester, w: World, root: Path, r: Request)
    requires Inv(w, root) && r.Destroy?
    ensures Handle(digest, w, r).1.Destroyed? <==> Fence(w, r.target).Some? && r.empties
    ensures Handle(digest, w, r).1.Destroyed? || Handle(digest, w, r).1 == Refused
    ensures Fence(w, r.target).None? ==> Handle(digest, w, r).0.disk == w.disk
    ensures forall d, tree, procs, frozen :: Reached(w, r.target, d, tree, procs, frozen) && !r.empties ==>
              && SameElsewhere(w.disk, Handle(digest, w, r).0.disk, d)
              && Has(Handle(digest, w, r).0.disk, d, tree, procs * r.survivors, frozen)
    ensures forall d, tree, procs, frozen :: Reached(w, r.target, d, tree, procs, frozen) && r.empties ==>
              Handle(digest, w, r).1 == Destroyed(d, procs, true)
  {
    HandleIsFencedAct(digest, w, r);
    if Fence(w, r.target).Some? {
      FencedIsPresent(w, root, r.target);
      DestroyOnDisk(digest, w.disk, root, Fence(w, r.target).value, r);
    }
  }

  lemma DestroyOnDisk(digest: Digester, s: Disk, root: Path, d: Domain, r: Request)
    requires r.Destroy? && DiskInv(s, root) && IsLive(s, d) && Present(s, d)
    ensures r.empties ==> Act(digest, s, d, r).1 == Destroyed(d, s.cgroups[d.cgroup].procs, true)
    ensures !r.empties ==>
              && Act(digest, s, d, r).1 == Refused
              && SameElsewhere(s, Act(digest, s, d, r).0, d)
              && Has(Act(digest, s, d, r).0, d, s.trees[d.upper], s.cgroups[d.cgroup].procs * r.survivors,
                     s.cgroups[d.cgroup].frozen)
  {
    if r.empties {
      CompletedDestroy(digest, s, d, r);
      DestroyEmptiesDisk(s, root, d);
    }
  }

  /**
   * A domain whose cgroup is gone, as after a reboot: exec, freeze and checkpoint fail without
   * effect, a known signal reaches nobody, inspect finds nobody, destroy removes the directory.
   */
  lemma WithoutCgroup(digest: Digester, s: Disk, d: Domain, r: Request)
    requires d.cgroup !in s.cgroups && !r.Create? && !r.Restore?
    ensures r.Exec? || r.Freeze? || r.Checkpoint? ==> Act(digest, s, d, r) == (s, Refused)
    ensures r.Inspect? ==> Act(digest, s, d, r) == (s, Inspected(d, {}))
    ensures r.Signal? && r.signal == "sigkill" ==> Act(digest, s, d, r) == (s, Signaled(d))
    ensures r.Destroy? ==>
              var (after, reply) := Act(digest, s, d, r);
              && reply.Destroyed? && reply.domain == d && reply.killed == {}
              && (forall p :: p in after.entries <==> p in s.entries && !(d.dir <= p))
              && (forall p :: p in after.records <==> p in s.records && !(d.dir <= p))
              && (forall p :: p in after.trees <==> p in s.trees && !(d.dir <= p))
  {
  }

  /** A domain whose upper is gone: exec fails, and a checkpoint freezes, finds nothing to digest and thaws. */
  lemma WithoutUpper(digest: Digester, s: Disk, d: Domain, r: Request)
    requires d.upper !in s.trees && d.cgroup in s.cgroups && (r.Exec? || r.Checkpoint?)
    ensures r.Exec? ==> Act(digest, s, d, r) == (s, Refused)
    ensures r.Checkpoint? ==>
              var (after, reply) := Act(digest, s, d, r);
              && reply == Refused && after.entries == s.entries && after.records == s.records && after.trees == s.trees
              && after.cgroups == s.cgroups[d.cgroup := Cgroup(s.cgroups[d.cgroup].procs, !r.freezes)]
  {
  }

  /** Where the checkpoint of a domain goes: `checkpoints`, its episode and the digest under the state root. */
  function Place(root: Path, d: Domain, name: string): Path { root + ["checkpoints", d.episode, name] }

  /**
   * A checkpoint whose freeze fails leaves the domain frozen and answers nothing. Otherwise the
   * domain ends up thawed, a directory of the digest's name holds what the copy delivered unless
   * there was one, and the answer is given exactly when thawing and, if needed, copying succeed.
   */
  lemma CheckpointEffect(digest: Digester, w: World, root: Path, r: Request)
    requires Inv(w, root) && r.Checkpoint?
    ensures Fence(w, r.target).None? ==> Handle(digest, w, r).1 == Refused && Handle(digest, w, r).0.disk == w.disk
    ensures forall d, tree, procs, frozen :: Reached(w, r.target, d, tree, procs, frozen) ==>
              var (after, reply) := Handle(digest, w, r);
              var ref := Place(root, d, digest(tree));
              var copied := match r.copy case Exact => tree case Inexact(x) => x case Aborted(x) => x;
              && after.disk.entries == w.disk.entries && after.disk.records == w.disk.records
              && after.disk.cgroups == w.disk.cgroups[d.cgroup := Cgroup(procs, !r.freezes)]
              && after.disk.trees == (if r.freezes && ref !in w.disk.trees then w.disk.trees[ref := copied] else w.disk.trees)
              && reply == (if r.freezes && r.thaws && (ref in w.disk.trees || !r.copy.Aborted?)
                           then Checkpointed(d, ref, digest(tree)) else Refused)
  {
    HandleIsFencedAct(digest, w, r);
    if Fence(w, r.target).Some? {
      FencedIsPresent(w, root, r.target);
      CheckpointOnDisk(digest, w.disk, root, Fence(w, r.target).value, r);
    }
  }

  lemma CheckpointOnDisk(digest: Digester, s: Disk, root: Path, d: Domain, r: Request)
    requires r.Checkpoint? && Present(s, d) && Placed(d, root)
    ensures var (after, reply) := Act(digest, s, d, r);
            var tree := s.trees[d.upper];
            var ref := Place(root, d, digest(tree));
            var copied := match r.copy case Exact => tree case Inexact(x) => x case Aborted(x) => x;
            && after.entries == s.entries && after.records == s.records
            && after.cgroups == s.cgroups[d.cgroup := Cgroup(s.cgroups[d.cgroup].procs, !r.freezes)]
            && after.trees == (if r.freezes && ref !in s.trees then s.trees[ref := copied] else s.trees)
            && reply == (if r.freezes && r.thaws && (ref in s.trees || !r.copy.Aborted?)
                         then Checkpointed(d, ref, digest(tree)) else Refused)
  {
    assert d.dir[..|d.dir| - 4] == root;
  }

  /** Thirty-two hexadecimal digits. */
  predicate HexId(s: string) { |s| == 32 && forall c :: c in s ==> c in "0123456789abcdefABCDEF" }

  lemma HexIdIs(s: string)
    ensures IsHexId(s) <==> HexId(s)
  {
    forall c: char ensures IsHexDigit(c) <==> c in "0123456789abcdefABCDEF" { HexDigitIs(c); }
    if IsHexId(s) {
      forall c | c in s ensures c in "0123456789abcdefABCDEF" { assert IsHexDigit(c); }
    }
    if HexId(s) {
      forall i | 0 <= i < |s| ensures IsHexDigit(s[i]) { assert s[i] in s; }
    }
  }

  lemma HexDigitIs(c: char)
    ensures IsHexDigit(c) <==> c in "0123456789abcdefABCDEF"
  {
    var digits := "0123456789abcdefABCDEF";
    if '0' <= c <= '9' { assert digits[(c - '0') as int] == c; }
    if 'a' <= c <= 'f' { assert digits[10 + (c - 'a') as int] == c; }
    if 'A' <= c <= 'F' { assert digits[16 + (c - 'A') as int] == c; }
  }

  /**
   * A create succeeds exactly for a well-formed episode, a positive epoch, an absolute state root
   * without `..`, host paths that resolve and a launch that comes up; the record holds what the
   * request and the host said, under the next generation.
   */
  lemma CreateOutcome(digest: Digester, w: World, root: Path, r: Request)
    requires Inv(w, root) && r.Create? && Admissible(w.disk, root, Ask(r))
    ensures var (after, reply) := Handle(digest, w, r);
            && (reply.Created? <==>
                  && HexId(r.episode) && r.epoch > 0 && r.stateRoot.absolute && ".." !in r.stateRoot.parts
                  && r.host.pathsOk && r.host.launch.Ready?)
            && (!reply.Created? ==> reply == Refused && after.disk.records == w.disk.records && after.domains == w.domains)
            && (reply.Created? ==> Recorded(w.disk, after, root, r, reply.domain))
  {
    HexIdIs(r.episode);
    EstablishOutcome(digest, w.disk, root, r);
    EstablishRecords(digest, w, root, r);
  }

  lemma EstablishRecords(digest: Digester, w: World, root: Path, r: Request)
    requires Inv(w, root) && (r.Create? || r.Restore?) && Admissible(w.disk, root, Ask(r))
    ensures var (after, reply) := Handle(digest, w, r);
            && (!reply.Created? ==> reply == Refused && after.disk.records == w.disk.records && after.domains == w.domains)
            && (reply.Created? ==> Recorded(w.disk, after, root, r, reply.domain))
  {
    EstablishKeeps(digest, w.disk, root, r);
    if Granted(digest, w.disk, r) && Copies(r) && r.host.launch.Ready? {
      var d := NewDomain(root, r.episode, r.epoch, NextGeneration(w.disk.entries, EpochDir(root, r.episode, r.epoch)), r.host);
      DomainIsSpelled(root, r.episode, r.epoch, d.generation, r.host, d);
    }
  }

  lemma DomainIsSpelled(root: Path, episode: string, epoch: U64, generation: U64, host: Host, d: Domain)
    requires d == NewDomain(root, episode, epoch, generation, host) && host.launch.Ready?
    ensures d.id == host.id && d.episode == episode && d.epoch == epoch && d.generation == generation
    ensures d.keeper == host.launch.keeper && d.settings == host.settings
    ensures d.dir == root + ["domains", episode, "epoch-" + Print(epoch), "gen-" + Print(generation)]
    ensures d.upper == d.dir + ["upper"]
    ensures d.cgroup == ["sys", "fs", "cgroup", "autonomic", episode, "epoch-" + Print(epoch), "gen-" + Print(generation)]
  {
  }

  /** The same for a restore, which also wants a checkpoint with the digest it names and a copy that completes. */
  lemma RestoreOutcome(digest: Digester, w: World, root: Path, r: Request)
    requires Inv(w, root) && r.Restore? && Admissible(w.disk, root, Ask(r))
    ensures var (after, reply) := Handle(digest, w, r);
            && (reply.Created? <==>
                  && HexId(r.episode) && r.stateRoot.absolute && ".." !in r.stateRoot.parts
                  && r.ref in w.disk.trees && digest(w.disk.trees[r.ref]) == r.digest
                  && r.host.pathsOk && !r.copy.Aborted? && r.host.launch.Ready?)
            && (!reply.Created? ==> reply == Refused && after.disk.records == w.disk.records && after.domains == w.domains)
            && (reply.Created? ==> Recorded(w.disk, after, root, r, reply.domain))
  {
    HexIdIs(r.episode);
    EstablishOutcome(digest, w.disk, root, r);
    EstablishRecords(digest, w, root, r);
  }

  /** What a create or restore checks before it makes anything. */
  ghost predicate InForm(digest: Digester, s: Disk, r: Request)
    requires r.Create? || r.Restore?
  {
    && HexId(r.episode) && r.stateRoot.absolute && ".." !in r.stateRoot.parts && r.host.pathsOk
    && (r.Create? ==> r.epoch > 0)
    && (r.Restore? ==> r.ref in s.trees && digest(s.trees[r.ref]) == r.digest)
  }

  /** The cgroups after a launch: as many levels of the leaf as it got to, and processes in the leaf. */
  ghost predicate CgroupsMade(s: Disk, after: Disk, leaf: Path, launch: Launch)
    requires |leaf| == 7
  {
    var depth := if launch.CgroupFailed? then launch.depth else 7;
    && (forall c :: c in s.cgroups && c != leaf ==> c in after.cgroups && after.cgroups[c] == s.cgroups[c])
    && (forall c :: c in after.cgroups && c !in s.cgroups ==> 4 <= |c| <= 7 && |c| <= depth && c == leaf[..|c|])
    && (forall k :: 4 <= k <= 7 && k <= depth ==> leaf[..k] in after.cgroups)
    && (forall c :: c in after.cgroups && c !in s.cgroups && c != leaf ==> after.cgroups[c] == Cgroup({}, false))
    && match launch
       case Ready(pids, _) => leaf in after.cgroups && after.cgroups[leaf] == Cgroup(pids, false)
       case KeeperFailed(leftover) => leaf in after.cgroups && after.cgroups[leaf] == Cgroup(leftover, false)
       case CgroupFailed(_) => leaf in after.cgroups ==> after.cgroups[leaf] == Cgroup({}, false)
  }

  /**
   * What a create or restore leaves, whether or not it succeeds: nothing if the request is not in
   * form; else the directory, the upper with what the copy delivered, and unless the copy failed
   * the cgroups the launch got to make.
   */
  lemma EstablishEffect(digest: Digester, s: Disk, root: Path, r: Request)
    requires DiskInv(s, root) && (r.Create? || r.Restore?) && Admissible(s, root, Ask(r))
    ensures !InForm(digest, s, r) ==> Establish(digest, s, r) == (s, Refused)
    ensures InForm(digest, s, r) ==>
              var after := Establish(digest, s, r).0;
              var g := NextGeneration(s.entries, EpochDir(root, r.episode, r.epoch));
              var dir := root + ["domains", r.episode, "epoch-" + Print(r.epoch), "gen-" + Print(g)];
              var leaf := ["sys", "fs", "cgroup", "autonomic", r.episode, "epoch-" + Print(r.epoch), "gen-" + Print(g)];
              var delivered := if r.Create? then [] else match r.copy case Exact => s.trees[r.ref] case Inexact(x) => x case Aborted(x) => x;
              && after.entries == s.entries + {dir} && after.trees == s.trees[dir + ["upper"] := delivered]
              && (r.Restore? && r.copy.Aborted? ==> after.cgroups == s.cgroups)
              && (r.Create? || !r.copy.Aborted? ==> CgroupsMade(s, after, leaf, r.host.launch))
  {
    HexIdIs(r.episode);
    if Granted(digest, s, r) {
      var g := NextGeneration(s.entries, EpochDir(root, r.episode, r.epoch));
      var d := NewDomain(root, r.episode, r.epoch, g, r.host);
      PlaceIsSpelled(root, r.episode, r.epoch, g, r.host, d);
      NextGenerationIsFreshIff(s.entries, EpochDir(root, r.episode, r.epoch));
      FreshHasNoUpper(s, root, d);
      EntryOfCgroup(root, r.episode, r.epoch, g);
      PreparedFresh(s, d, Snapshot(s, r));
      LaunchedCgroups(s, Prepared(s, d, Snapshot(s, r)), d, r.host.launch);
    }
  }

  lemma PlaceIsSpelled(root: Path, episode: string, epoch: U64, generation: U64, host: Host, d: Domain)
    requires d == NewDomain(root, episode, epoch, generation, host)
    ensures d.dir == root + ["domains", episode, "epoch-" + Print(epoch), "gen-" + Print(generation)]
    ensures d.upper == d.dir + ["upper"]
    ensures d.cgroup == ["sys", "fs", "cgroup", "autonomic", episode, "epoch-" + Print(epoch), "gen-" + Print(generation)]
  {
  }

  lemma PreparedFresh(s: Disk, d: Domain, snapshot: Option<Tree>)
    requires d.upper !in s.trees
    ensures var after := Prepared(s, d, snapshot);
            && after.entries == s.entries + {d.dir} && after.cgroups == s.cgroups
            && after.trees == s.trees[d.upper := if snapshot.None? then [] else snapshot.value]
  {
    if snapshot.Some? { CopyTree.MergeIntoEmpty(snapshot.value); }
  }

  lemma LaunchedCgroups(s: Disk, made: Disk, d: Domain, launch: Launch)
    requires |d.cgroup| == 7 && d.cgroup !in s.cgroups && made.cgroups == s.cgroups
    ensures CgroupsMade(s, Launched(made, d, launch).0, d.cgroup, launch)
    ensures var after := Launched(made, d, launch).0; after.entries == made.entries && after.trees == made.trees
  {
    var depth := if launch.CgroupFailed? then launch.depth else 7;
    LevelsMade(s.cgroups, d.cgroup, depth);
    assert d.cgroup[..7] == d.cgroup;
  }

  /** Making the levels of a path adds the missing ones, empty, and changes none. */
  lemma LevelsMade(cgroups: map<Path, Cgroup>, leaf: Path, depth: nat)
    requires |leaf| == 7
    ensures var made := MakeCgroups(cgroups, leaf, depth);
            && (forall c :: c in cgroups ==> c in made && made[c] == cgroups[c])
            && (forall c :: c in made && c !in cgroups ==>
                  4 <= |c| <= 7 && |c| <= depth && c == leaf[..|c|] && made[c] == Cgroup({}, false))
            && (forall k :: 4 <= k <= 7 && k <= depth ==> leaf[..k] in made)
  {
    forall c ensures c in MakeCgroups(cgroups, leaf, depth) <==>
                     c in cgroups || (4 <= |c| <= 7 && |c| <= depth && c == leaf[..|c|])
    {
      MissingIs(cgroups, leaf, depth, c);
    }
  }

  lemma MissingIs(cgroups: map<Path, Cgroup>, leaf: Path, depth: nat, c: Path)
    requires |leaf| == 7
    ensures c in MakeCgroups(cgroups, leaf, depth) <==>
            c in cgroups || (4 <= |c| <= 7 && |c| <= depth && c == leaf[..|c|])
  {
    var levels := set k | 4 <= k <= depth && k <= |leaf| :: leaf[..k];
    if 4 <= |c| <= 7 && |c| <= depth && c == leaf[..|c|] { assert c in levels; }
  }

  /** The new record, on disk and in the map: identity, keeper, paths and settings. */
  ghost predicate Recorded(s: Disk, after: World, root: Path, r: Request, d: Domain)
    requires r.Create? || r.Restore?
  {
    && d.id == r.host.id && d.episode == r.episode && d.epoch == r.epoch
    && d.generation == NextGeneration(s.entries, EpochDir(root, r.episode, r.epoch))
    && r.host.launch.Ready? && d.keeper == r.host.launch.keeper && d.settings == r.host.settings
    && d.dir == root + ["domains", r.episode, "epoch-" + Print(r.epoch), "gen-" + Print(d.generation)]
    && d.upper == d.dir + ["upper"]
    && d.cgroup == ["sys", "fs", "cgroup", "autonomic", r.episode, "epoch-" + Print(r.epoch), "gen-" + Print(d.generation)]
    && after.disk.records == s.records[d.dir := d] && d.id in after.domains && after.domains[d.id] == d
  }

  /** A domain's own processes change its tree and process set while it is not frozen, and nothing else. */
  lemma WorkOutcome(s: Disk, root: Path, e: Event)
    requires DiskInv(s, root) && e.Work?
    ensures e.dir !in s.records ==> Background(s, e) == s
    ensures e.dir in s.records ==>
              var d := s.records[e.dir];
              && d.cgroup in s.cgroups
              && (s.cgroups[d.cgroup].frozen ==> Background(s, e) == s)
              && (!s.cgroups[d.cgroup].frozen ==>
                    SameElsewhere(s, Background(s, e), d) && Has(Background(s, e), d, e.tree, e.procs, false))
  {
    if e.dir in s.records { assert RecordOk(s, root, e.dir); }
  }

  /**
   * On any disk, whoever wrote it, the reload accepts nothing but a record of this id, episode
   * and epoch with the cgroup and inside the directory these determine.
   */
  lemma ReloadAccepts(w: World, t: Target, d: Domain)
    requires t.id !in w.domains && Fence(w, t) == Some(d)
    ensures d in w.disk.records.Values && d.id == t.id && d.episode == t.episode && d.epoch == t.epoch
    ensures HexId(t.episode) && t.stateRoot.absolute && ".." !in t.stateRoot.parts
    ensures d.cgroup == ["sys", "fs", "cgroup", "autonomic", t.episode, "epoch-" + Print(t.epoch), "gen-" + Print(d.generation)]
    ensures t.stateRoot.parts + ["domains", t.episode, "epoch-" + Print(t.epoch)] <= d.dir
  {
    HexIdIs(t.episode);
  }

  /** The directory names that carry a number, and which: `gen-`, a number below 2^64, maybe with a plus sign or zeros. */
  lemma GenerationNames(name: string, n: nat)
    ensures GenOf(name) == Some(n) <==>
              n < 0x1_0000_0000_0000_0000 && exists plus, k :: name == "gen-" + Spelling(plus, k, n)
  {
    if GenOf(name) == Some(n) {
      NumberOfName(name, name[4..], n);
    }
    if plus, k :| name == "gen-" + Spelling(plus, k, n) && n < U64_LIMIT {
      NameOfNumber(name, Spelling(plus, k, n), n);
    }
  }

  lemma NumberOfName(name: string, number: string, n: nat)
    requires |name| >= 4 && name[..4] == "gen-" && number == name[4..] && ParseU64(number) == Some(n)
    ensures n < U64_LIMIT && exists plus, k :: name == "gen-" + Spelling(plus, k, n)
  {
    assert name == "gen-" + number;
    ParsesIff(number, n);
    var plus, k :| number == Spelling(plus, k, n);
    assert name == "gen-" + Spelling(plus, k, n);
  }

  lemma NameOfNumber(name: string, number: string, n: nat)
    requires name == "gen-" + number && n < U64_LIMIT && exists plus, k :: number == Spelling(plus, k, n)
    ensures GenOf(name) == Some(n)
  {
    ParsesIff(number, n);
    assert name[..4] == "gen-" && name[4..] == number;
  }
}
