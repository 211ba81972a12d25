/** Content-addressed checkpoints: what they hold, how long, and what a restore brings back. */
module Checkpoints {
  import opened Prelude
  import opened Domains
  import opened DomainInvariant
  import opened DomainTheorems
  import TreeDigest
  import CopyTree

  /** The path lies in the checkpoint area of the state root. */
  predicate InStore(root: Path, p: Path) { |p| > |root| && p[..|root|] == root && p[|root|] == "checkpoints" }

  lemma StoreApart(root: Path, d: Domain, name: string)
    requires Placed(d, root)
    ensures CheckpointPath(d, name) == CheckpointDir(root, d.episode, name)
    ensures InStore(root, CheckpointPath(d, name)) && !InStore(root, d.upper)
    ensures forall p :: InStore(root, p) ==> !(d.dir <= p)
  {
    assert d.dir[..|d.dir| - 4] == root;
    assert d.upper[|root|] == "domains" == d.dir[|root|];
  }

  // ---- Checkpoints never change -----------------------------------------------------------

  ghost predicate StoreKept(s: Disk, after: Disk, root: Path) {
    forall p :: p in s.trees && InStore(root, p) ==> p in after.trees && after.trees[p] == s.trees[p]
  }

  /** The checkpoint area holds the same directories with the same contents. */
  ghost predicate StoreSame(s: Disk, after: Disk, root: Path) {
    StoreKept(s, after, root) && forall p :: p in after.trees && InStore(root, p) ==> p in s.trees
  }

  lemma CreateCommonKeepsStore(s: Disk, root: Path, episode: string, epoch: U64, host: Host,
                              snapshot: Option<Tree>, copied: bool)
    ensures StoreSame(s, CreateCommon(s, episode, epoch, root, host, snapshot, copied).0, root)
  {
    var newUpper := UpperDir(DomainDir(root, episode, epoch, NextGeneration(s.entries, EpochDir(root, episode, epoch))));
    assert newUpper[|root|] == "domains";
    assert !InStore(root, newUpper);
  }

  lemma EstablishKeepsStore(digest: Digester, s: Disk, root: Path, r: Request)
    requires (r.Create? || r.Restore?) && r.stateRoot.parts == root
    ensures StoreSame(s, Establish(digest, s, r).0, root)
  {
    if Granted(digest, s, r) {
      CreateCommonKeepsStore(s, root, r.episode, r.epoch, r.host, Snapshot(s, r), Copies(r));
    }
  }

  lemma ActKeepsStore(digest: Digester, s: Disk, root: Path, d: Domain, r: Request)
    requires DiskInv(s, root) && IsLive(s, d) && !r.Create? && !r.Restore?
    ensures StoreKept(s, Act(digest, s, d, r).0, root)
  {
    LiveHasCgroup(s, root, d);
    StoreApart(root, d, "");
    if !(r.Destroy? && r.empties) {
      ActOnlyTouches(digest, s, d, r);
    }
  }

  lemma StepKeepsStore(digest: Digester, w: World, root: Path, e: Event)
    requires Inv(w, root) && Admissible(w.disk, root, e)
    ensures StoreKept(w.disk, Step(digest, w, e).0.disk, root)
  {
    match e
    case Work(dir, _, _) =>
      if dir in w.disk.records {
        assert RecordOk(w.disk, root, dir);
        StoreApart(root, w.disk.records[dir], "");
      }
    case Ask(r) =>
      if r.Create? || r.Restore? {
        EstablishKeepsStore(digest, w.disk, root, r);
      } else if Fence(w, r.target).Some? {
        FencedIsLive(w, root, r.target);
        ActKeepsStore(digest, w.disk, root, Fence(w, r.target).value, r);
      }
  }

  /** Nothing that happens later changes or removes a checkpoint. */
  lemma {:induction false} RunKeepsStore(digest: Digester, w: World, root: Path, es: seq<Event>)
    requires Inv(w, root) && AdmissibleRun(digest, w, root, es)
    ensures StoreKept(w.disk, Run(digest, w, es).0.disk, root)
    decreases |es|
  {
    if es != [] {
      StepKeepsStore(digest, w, root, es[0]);
      StepKeepsInv(digest, w, root, es[0]);
      RunKeepsStore(digest, Step(digest, w, es[0]).0, root, es[1..]);
    }
  }

  // ---- Names and contents -----------------------------------------------------------------

  /** Every checkpoint directory is named by the digest of what it holds. */
  ghost predicate Sealed(digest: Digester, s: Disk, root: Path) {
    forall episode, name :: CheckpointDir(root, episode, name) in s.trees ==>
      digest(s.trees[CheckpointDir(root, episode, name)]) == name
  }

  /** The step creates a checkpoint directory whose copy does not have the digest it is named by. */
  ghost predicate Spoils(digest: Digester, w: World, e: Event) {
    && e.Ask? && e.request.Checkpoint? && e.request.freezes
    && Fence(w, e.request.target).Some?
    && var d := Fence(w, e.request.target).value;
       && Present(w.disk, d)
       && var tree := w.disk.trees[d.upper];
          && CheckpointPath(d, digest(tree)) !in w.disk.trees
          && digest(CopyResult(e.request.copy, tree)) != digest(tree)
  }

  lemma CheckpointDirInjective(root: Path, episode: string, name: string, episode': string, name': string)
    requires CheckpointDir(root, episode, name) == CheckpointDir(root, episode', name')
    ensures episode == episode' && name == name'
  {
    assert CheckpointDir(root, episode, name)[|root| + 1] == episode;
    assert CheckpointDir(root, episode', name')[|root| + 1] == episode';
    assert CheckpointDir(root, episode, name)[|root| + 2] == name;
    assert CheckpointDir(root, episode', name')[|root| + 2] == name';
  }

  lemma SealedBySuperset(digest: Digester, s: Disk, after: Disk, root: Path)
    requires Sealed(digest, s, root)
    requires forall p :: p in after.trees && InStore(root, p) ==> p in s.trees && after.trees[p] == s.trees[p]
    ensures Sealed(digest, after, root)
  {
    forall episode, name | CheckpointDir(root, episode, name) in after.trees
      ensures digest(after.trees[CheckpointDir(root, episode, name)]) == name
    {
      var p := CheckpointDir(root, episode, name);
      assert p[..|root|] == root && p[|root|] == "checkpoints";
    }
  }

  lemma CheckpointSeals(digest: Digester, s: Disk, root: Path, d: Domain, copy: Copy, thaws: bool)
    requires DiskInv(s, root) && IsLive(s, d) && Sealed(digest, s, root) && Present(s, d)
    ensures var tree := s.trees[d.upper];
            var after := CheckpointOn(digest, s, d, true, copy, thaws).0;
            Sealed(digest, after, root) <==>
              (CheckpointPath(d, digest(tree)) in s.trees || digest(CopyResult(copy, tree)) == digest(tree))
  {
    LiveHasCgroup(s, root, d);
    var name := digest(s.trees[d.upper]);
    StoreApart(root, d, name);
    var ref := CheckpointPath(d, name);
    var after := CheckpointOn(digest, s, d, true, copy, thaws).0;
    if ref in s.trees {
      SealedBySuperset(digest, s, after, root);
    } else {
      assert ref in after.trees && after.trees[ref] == CopyResult(copy, s.trees[d.upper]);
      if digest(after.trees[ref]) == name {
        forall episode, other | CheckpointDir(root, episode, other) in after.trees
          ensures digest(after.trees[CheckpointDir(root, episode, other)]) == other
        {
          if CheckpointDir(root, episode, other) == ref {
            CheckpointDirInjective(root, episode, other, d.episode, name);
          }
        }
      }
    }
  }

  /** The only way to spoil the store is a fresh checkpoint whose copy lost the digest. */
  lemma SealedExactlyUnlessSpoiled(digest: Digester, w: World, root: Path, e: Event)
    requires Inv(w, root) && Admissible(w.disk, root, e) && Sealed(digest, w.disk, root)
    ensures Sealed(digest, Step(digest, w, e).0.disk, root) <==> !Spoils(digest, w, e)
  {
    var after := Step(digest, w, e).0.disk;
    match e
    case Work(dir, _, _) =>
      if dir in w.disk.records {
        assert RecordOk(w.disk, root, dir);
        StoreApart(root, w.disk.records[dir], "");
      }
      SealedBySuperset(digest, w.disk, after, root);
    case Ask(r) =>
      if r.Create? || r.Restore? {
        EstablishKeepsStore(digest, w.disk, root, r);
        SealedBySuperset(digest, w.disk, after, root);
      } else if Fence(w, r.target).Some? {
        FencedIsLive(w, root, r.target);
        var d := Fence(w, r.target).value;
        LiveHasCgroup(w.disk, root, d);
        if r.Checkpoint? && r.freezes {
          CheckpointSeals(digest, w.disk, root, d, r.copy, r.thaws);
        } else {
          StoreApart(root, d, "");
          ActAddsNoTree(digest, w.disk, d, r);
          SealedBySuperset(digest, w.disk, after, root);
        }
      } else {
        SealedBySuperset(digest, w.disk, after, root);
      }
  }

  /** A directory whose content does not match its name never recovers. */
  lemma UnsealedStays(digest: Digester, s: Disk, after: Disk, root: Path)
    requires StoreKept(s, after, root) && !Sealed(digest, s, root)
    ensures !Sealed(digest, after, root)
  {
    var episode, name :| CheckpointDir(root, episode, name) in s.trees
                         && digest(s.trees[CheckpointDir(root, episode, name)]) != name;
    var p := CheckpointDir(root, episode, name);
    assert p[..|root|] == root && p[|root|] == "checkpoints";
    assert InStore(root, p);
  }

  /** Some step of the run spoils the store, each judged in the state it is taken in. */
  ghost predicate RunSpoils(digest: Digester, w: World, es: seq<Event>)
    decreases |es|
  {
    es != [] && (Spoils(digest, w, es[0]) || RunSpoils(digest, Step(digest, w, es[0]).0, es[1..]))
  }

  /**
   * Over every run from a sealed store, an empty one for instance: each entry at checkpoints/E/D
   * digests to D exactly unless some checkpoint along the way was a fresh one whose copy lost
   * the digest.
   */
  lemma {:induction false} RunSealedIff(digest: Digester, w: World, root: Path, es: seq<Event>)
    requires Inv(w, root) && AdmissibleRun(digest, w, root, es) && Sealed(digest, w.disk, root)
    ensures Sealed(digest, Run(digest, w, es).0.disk, root) <==> !RunSpoils(digest, w, es)
    decreases |es|
  {
    if es != [] {
      var next := Step(digest, w, es[0]).0;
      SealedExactlyUnlessSpoiled(digest, w, root, es[0]);
      StepKeepsInv(digest, w, root, es[0]);
      if Spoils(digest, w, es[0]) {
        RunKeepsStore(digest, next, root, es[1..]);
        UnsealedStays(digest, next.disk, Run(digest, next, es[1..]).0.disk, root);
      } else {
        RunSealedIff(digest, next, root, es[1..]);
      }
    }
  }

  lemma ActAddsNoTree(digest: Digester, s: Disk, d: Domain, r: Request)
    requires !r.Create? && !r.Restore? && !(r.Checkpoint? && r.freezes)
    ensures var after := Act(digest, s, d, r).0;
            forall p :: p in after.trees && p != d.upper ==> p in s.trees && after.trees[p] == s.trees[p]
  {
  }

  // ---- Restore ----------------------------------------------------------------------------

  /** Restore accepts only a directory that digests to the requested value, and copies it into a fresh upper. */
  lemma RestoreIsVerified(digest: Digester, w: World, root: Path, r: Request)
    requires Inv(w, root) && r.Restore? && Admissible(w.disk, root, Ask(r))
    requires Handle(digest, w, r).1.Created?
    ensures var (after, reply) := Handle(digest, w, r);
            && r.ref in w.disk.trees && digest(w.disk.trees[r.ref]) == r.digest
            && !r.copy.Aborted?
            && reply.domain.dir !in w.disk.entries
            && reply.domain.upper in after.disk.trees
            && after.disk.trees[reply.domain.upper] == CopyResult(r.copy, w.disk.trees[r.ref])
  {
    EstablishKeeps(digest, w.disk, root, r);
    FreshHasNoUpper(w.disk, root, Handle(digest, w, r).1.domain);
    CopyTree.MergeIntoEmpty(Snapshot(w.disk, r).value);
  }

  /** A checkpoint of this domain has a directory already, or can copy. */
  predicate Storable(digest: Digester, s: Disk, root: Path, d: Domain, copy: Copy)
    requires Present(s, d)
  {
    copy.Aborted? ==> CheckpointDir(root, d.episode, digest(s.trees[d.upper])) in s.trees
  }

  /**
   * What a checkpoint reply promises: it names the digest of the domain's tree at that moment
   * and a directory that exists, made now unless it was there, and the domain ends up thawed.
   */
  ghost predicate Named(digest: Digester, s: Disk, root: Path, d: Domain, copy: Copy, after: Disk, reply: Reply)
    requires reply.Checkpointed? && Present(s, d)
  {
    && reply.domain == d && reply.digest == digest(s.trees[d.upper])
    && reply.ref == CheckpointDir(root, d.episode, reply.digest) && InStore(root, reply.ref)
    && reply.ref in after.trees
    && after.trees[reply.ref] == (if reply.ref in s.trees then s.trees[reply.ref] else CopyResult(copy, s.trees[d.upper]))
    && d.cgroup in after.cgroups && !after.cgroups[d.cgroup].frozen
  }

  lemma CheckpointOutcome(digest: Digester, s: Disk, root: Path, d: Domain, freezes: bool, copy: Copy, thaws: bool)
    requires Placed(d, root) && Present(s, d)
    ensures var (after, reply) := CheckpointOn(digest, s, d, freezes, copy, thaws);
            && (reply.Checkpointed? <==> freezes && thaws && Storable(digest, s, root, d, copy))
            && (reply.Checkpointed? ==> Named(digest, s, root, d, copy, after, reply))
  {
    StoreApart(root, d, digest(s.trees[d.upper]));
  }

  /** When a checkpoint succeeds, and that its reply is true. */
  lemma CheckpointNamesTree(digest: Digester, w: World, root: Path, r: Request)
    requires Inv(w, root) && r.Checkpoint?
    ensures Handle(digest, w, r).1.Checkpointed? <==>
              && Fence(w, r.target).Some? && r.freezes && r.thaws
              && Present(w.disk, Fence(w, r.target).value)
              && Storable(digest, w.disk, root, Fence(w, r.target).value, r.copy)
    ensures Handle(digest, w, r).1.Checkpointed? ==>
              && Fence(w, r.target) == Some(Handle(digest, w, r).1.domain) && IsLive(w.disk, Handle(digest, w, r).1.domain)
              && Named(digest, w.disk, root, Fence(w, r.target).value, r.copy,
                       Handle(digest, w, r).0.disk, Handle(digest, w, r).1)
  {
    HandledCheckpoint(digest, w, root, r);
    if Fence(w, r.target).Some? {
      CheckpointOutcome(digest, w.disk, root, Fence(w, r.target).value, r.freezes, r.copy, r.thaws);
    }
  }

  lemma HandledCheckpoint(digest: Digester, w: World, root: Path, r: Request)
    requires Inv(w, root) && r.Checkpoint?
    ensures match Fence(w, r.target)
            case None => Handle(digest, w, r).1 == Refused
            case Some(d) =>
              && IsLive(w.disk, d) && Placed(d, root) && Present(w.disk, d)
              && (Handle(digest, w, r).0.disk, Handle(digest, w, r).1)
                 == CheckpointOn(digest, w.disk, d, r.freezes, r.copy, r.thaws)
  {
    HandleIsFencedAct(digest, w, r);
    if Fence(w, r.target).Some? {
      FencedIsPresent(w, root, r.target);
      ActOfCheckpoint(digest, w.disk, Fence(w, r.target).value, r);
    }
  }

  lemma ActOfCheckpoint(digest: Digester, s: Disk, d: Domain, r: Request)
    requires r.Checkpoint? && Present(s, d)
    ensures Act(digest, s, d, r) == CheckpointOn(digest, s, d, r.freezes, r.copy, r.thaws)
  {
  }

  /**
   * A restore succeeds exactly when the request is in order, the directory has the requested
   * digest, the copy completes and the launch comes up; a directory that is missing or digests
   * differently is refused with no effect at all.
   */
  lemma RestoreAcceptedIff(digest: Digester, w: World, root: Path, r: Request)
    requires Inv(w, root) && r.Restore? && Admissible(w.disk, root, Ask(r))
    ensures Handle(digest, w, r).1.Created? <==>
              && IsHexId(r.episode) && Secure(r.stateRoot) && r.host.pathsOk && r.host.launch.Ready?
              && !r.copy.Aborted? && r.ref in w.disk.trees && digest(w.disk.trees[r.ref]) == r.digest
    ensures r.ref !in w.disk.trees || digest(w.disk.trees[r.ref]) != r.digest ==> Handle(digest, w, r) == (w, Refused)
  {
    EstablishOutcome(digest, w.disk, root, r);
  }

  /** The directory a successful checkpoint replies will digest to its name: copied so now, or found so. */
  predicate WillBeRestorable(digest: Digester, s: Disk, ref: Path, tree: Tree, copy: Copy) {
    if ref in s.trees then digest(s.trees[ref]) == digest(tree)
    else digest(CopyResult(copy, tree)) == digest(tree)
  }

  /**
   * Whether a checkpoint can be restored is decided before it is made, by the directory that is
   * there or else by what the copy will deliver: at any later time, after any run, a restore
   * that copies and comes up succeeds exactly then.
   */
  lemma CheckpointIsRestorableIff(digest: Digester, w: World, root: Path, c: Request, es: seq<Event>, r: Request)
    requires Inv(w, root) && c.Checkpoint? && Handle(digest, w, c).1.Checkpointed?
    requires AdmissibleRun(digest, Handle(digest, w, c).0, root, es)
    requires var (w1, reply) := Handle(digest, w, c);
             && r.Restore? && Admissible(Run(digest, w1, es).0.disk, root, Ask(r))
             && r.ref == reply.ref && r.digest == reply.digest && !r.copy.Aborted?
    requires IsHexId(r.episode) && Secure(r.stateRoot) && r.host.pathsOk && r.host.launch.Ready?
    ensures var (w1, reply) := Handle(digest, w, c);
            && reply.domain.upper in w.disk.trees
            && (Handle(digest, Run(digest, w1, es).0, r).1.Created? <==>
                  WillBeRestorable(digest, w.disk, reply.ref, w.disk.trees[reply.domain.upper], c.copy))
  {
    var (w1, reply) := Handle(digest, w, c);
    CheckpointNamesTree(digest, w, root, c);
    StepKeepsInv(digest, w, root, Ask(c));
    RunKeepsInv(digest, w1, root, es);
    RunKeepsStore(digest, w1, root, es);
    RestoreAcceptedIff(digest, Run(digest, w1, es).0, root, r);
  }

  /** A tree whose names and link targets are UTF-8, so that its digest determines its content. */
  ghost predicate DigestReads(t: Tree) { TreeDigest.GoodTree(t) && TreeDigest.TextTree(t) }

  /**
   * Checkpoint, any run in between, restore: the new domain starts from a tree with the same
   * hashed content as the checkpointed one, or the hash function has collided. When the
   * checkpoint was new and both copies are exact, it starts from that very tree.
   */
  lemma CheckpointThenRestore(hash: Bytes -> string, digest: Digester, w: World, root: Path, c: Request,
                              es: seq<Event>, r: Request)
    requires Inv(w, root) && c.Checkpoint? && Handle(digest, w, c).1.Checkpointed?
    requires AdmissibleRun(digest, Handle(digest, w, c).0, root, es)
    requires var (w1, reply) := Handle(digest, w, c);
             var w2 := Run(digest, w1, es).0;
             && r.Restore? && Admissible(w2.disk, root, Ask(r))
             && r.ref == reply.ref && r.digest == reply.digest && r.copy.Exact?
             && Handle(digest, w2, r).1.Created?
    requires forall t: Tree :: TreeDigest.GoodTree(t) ==> digest(t) == hash(TreeDigest.Stream(t))
    ensures var (w1, reply) := Handle(digest, w, c);
            var w2 := Run(digest, w1, es).0;
            var (w3, created) := Handle(digest, w2, r);
            && reply.domain.upper in w.disk.trees && created.domain.upper in w3.disk.trees
            && var before, restored := w.disk.trees[reply.domain.upper], w3.disk.trees[created.domain.upper];
               && digest(restored) == digest(before)
               && (reply.ref !in w.disk.trees && c.copy.Exact? ==> restored == before)
               && (DigestReads(before) && DigestReads(restored) ==>
                     || TreeDigest.SameContent(before, restored)
                     || TreeDigest.Collision(hash, TreeDigest.Stream(before), TreeDigest.Stream(restored)))
  {
    var (w1, reply) := Handle(digest, w, c);
    var w2 := Run(digest, w1, es).0;
    CheckpointNamesTree(digest, w, root, c);
    StepKeepsInv(digest, w, root, Ask(c));
    RunKeepsInv(digest, w1, root, es);
    RunKeepsStore(digest, w1, root, es);
    RestoreIsVerified(digest, w2, root, r);
    var before, restored := w.disk.trees[reply.domain.upper], w2.disk.trees[reply.ref];
    if DigestReads(before) && DigestReads(restored) {
      TreeDigest.EqualDigests(hash, before, restored);
    }
  }

  /**
   * An aborted copy leaves a directory of the final name behind. The next checkpoint of the
   * same tree takes it for finished and reports success, though no restore will accept it.
   */
  lemma AbortedCopyPoisonsCheckpoint(digest: Digester, s: Disk, root: Path, d: Domain, partial: Tree, copy: Copy)
    requires DiskInv(s, root) && IsLive(s, d) && Present(s, d)
    requires CheckpointPath(d, digest(s.trees[d.upper])) !in s.trees
    requires digest(partial) != digest(s.trees[d.upper])
    ensures var (s1, first) := CheckpointOn(digest, s, d, true, Aborted(partial), true);
            && first == Refused && Present(s1, d)
            && var (s2, second) := CheckpointOn(digest, s1, d, true, copy, true);
               && second.Checkpointed? && second.ref in s2.trees
               && digest(s2.trees[second.ref]) != second.digest
  {
    LiveHasCgroup(s, root, d);
    StoreApart(root, d, digest(s.trees[d.upper]));
  }
}
