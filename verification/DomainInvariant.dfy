/** What every reachable state of the launcher's world satisfies, and why each step keeps it. */
module DomainInvariant {
  import opened Prelude
  import opened Decimal
  import opened Domains

  // ---- The invariant ----------------------------------------------------------------------

  /** A record's paths are the ones its episode, epoch and generation determine. */
  ghost predicate Placed(d: Domain, root: Path) {
    && IsHexId(d.episode)
    && d.dir == DomainDir(root, d.episode, d.epoch, d.generation)
    && d.upper == UpperDir(d.dir)
    && d.cgroup == CgroupPath(d.episode, d.epoch, d.generation)
  }

  ghost predicate RecordOk(s: Disk, root: Path, p: Path)
    requires p in s.records
  {
    var d := s.records[p];
    d.dir == p && Placed(d, root) && p in s.entries && d.upper in s.trees && d.cgroup in s.cgroups
  }

  ghost predicate RecordsOk(s: Disk, root: Path) {
    forall p {:trigger RecordOk(s, root, p)} :: p in s.records ==> RecordOk(s, root, p)
  }

  ghost predicate IdsDistinct(s: Disk) {
    forall p, q :: p in s.records && q in s.records && s.records[p].id == s.records[q].id ==> p == q
  }

  /** Four to seven components below the cgroup mount, parents present, processes only in leaves. */
  ghost predicate CgroupOk(cgroups: map<Path, Cgroup>, c: Path)
    requires c in cgroups
  {
    && CGROUP_ROOT <= c && |c| <= 7
    && (|c| > 4 ==> c[..|c| - 1] in cgroups)
    && (|c| < 7 ==> cgroups[c].procs == {})
  }

  ghost predicate CgroupsOk(cgroups: map<Path, Cgroup>) {
    forall c {:trigger CgroupOk(cgroups, c)} :: c in cgroups ==> CgroupOk(cgroups, c)
  }

  /** The directory entry that belongs to a generation's cgroup. */
  function EntryOf(root: Path, leaf: Path): Path
    requires |leaf| >= 4
  {
    root + ["domains"] + leaf[4..]
  }

  /** Every generation cgroup has its directory entry, so a fresh name has a fresh cgroup. */
  ghost predicate LeavesListed(s: Disk, root: Path) {
    forall c :: c in s.cgroups && |c| == 7 ==> EntryOf(root, c) in s.entries
  }

  /** The path lies in a generation directory, as an upper does. */
  predicate InGeneration(root: Path, p: Path) { |p| == |root| + 5 && p[..|root| + 1] == root + ["domains"] }

  /** Nothing is left in a generation directory that is not listed, so a fresh name has no upper. */
  ghost predicate UppersListed(s: Disk, root: Path) {
    forall p :: p in s.trees && InGeneration(root, p) ==> p[..|root| + 4] in s.entries
  }

  ghost predicate DiskInv(s: Disk, root: Path) {
    && RecordsOk(s, root) && IdsDistinct(s) && CgroupsOk(s.cgroups)
    && LeavesListed(s, root) && UppersListed(s, root)
  }

  /** The warm map holds records that are on disk, under their own ids. */
  ghost predicate MapOk(domains: map<string, Domain>, s: Disk) {
    forall id :: id in domains ==>
      domains[id].id == id && domains[id].dir in s.records && s.records[domains[id].dir] == domains[id]
  }

  ghost predicate Inv(w: World, root: Path) { DiskInv(w.disk, root) && MapOk(w.domains, w.disk) }

  /** One state root for all domains, room for one more number, and ids fresh when drawn. */
  ghost predicate Admissible(s: Disk, root: Path, e: Event) {
    e.Ask? && (e.request.Create? || e.request.Restore?) ==>
      && e.request.stateRoot.parts == root
      && HasRoom(s.entries, EpochDir(root, e.request.episode, e.request.epoch))
      && forall p :: p in s.records ==> s.records[p].id != e.request.host.id
  }

  ghost predicate AdmissibleRun(digest: Digester, w: World, root: Path, es: seq<Event>)
    decreases |es|
  {
    es == [] || (Admissible(w.disk, root, es[0]) && AdmissibleRun(digest, Step(digest, w, es[0]).0, root, es[1..]))
  }

  // ---- Names are injective ----------------------------------------------------------------

  lemma GenOfGenName(g: U64)
    ensures GenOf(GenName(g)) == Some(g)
  {
    ParsePrint(g);
    assert GenName(g)[..4] == "gen-" && GenName(g)[4..] == Print(g);
  }

  /**
   * The generation chosen for a new domain names no existing entry, whatever the entries are,
   * exactly unless the numbers have wrapped around onto an existing `gen-0`.
   */
  lemma NextGenerationIsFreshIff(entries: set<Path>, epochDir: Path)
    ensures epochDir + [GenName(NextGeneration(entries, epochDir))] !in entries <==>
            HasRoom(entries, epochDir) || epochDir + [GenName(0)] !in entries
  {
    var p := epochDir + [GenName(NextGeneration(entries, epochDir))];
    GenOfGenName(NextGeneration(entries, epochDir));
    assert ChildOf(epochDir, p) && LastGen(p) == Some(NextGeneration(entries, epochDir));
    if q :| Numbered(entries, epochDir, q) {
      NewestExists(entries, epochDir, q);
      var top :| Newest(entries, epochDir, top);
      NewestGivesNext(entries, epochDir, top);
      if LastGen(top) != Some(U64_LIMIT - 1) {
        assert HasRoom(entries, epochDir) by {
          assert forall r :: r in entries && ChildOf(epochDir, r) && LastGen(r).Some? ==> Numbered(entries, epochDir, r);
        }
        assert p in entries ==> Numbered(entries, epochDir, p);
      }
    } else {
      assert forall r :: r in entries && ChildOf(epochDir, r) && LastGen(r).Some? ==> Numbered(entries, epochDir, r);
    }
  }

  lemma NamesInjective(epoch: nat, generation: nat, epoch': nat, generation': nat)
    ensures EpochName(epoch) == EpochName(epoch') ==> epoch == epoch'
    ensures GenName(generation) == GenName(generation') ==> generation == generation'
  {
    if EpochName(epoch) == EpochName(epoch') {
      assert EpochName(epoch)[6..] == Print(epoch) && EpochName(epoch')[6..] == Print(epoch');
      PrintInjective(epoch, epoch');
    }
    if GenName(generation) == GenName(generation') {
      assert GenName(generation)[4..] == Print(generation) && GenName(generation')[4..] == Print(generation');
      PrintInjective(generation, generation');
    }
  }

  /** Directory and cgroup each determine episode, epoch and generation, hence each other. */
  lemma PathsInjective(d: Domain, e: Domain, root: Path)
    requires Placed(d, root) && Placed(e, root)
    requires d.dir == e.dir || d.cgroup == e.cgroup
    ensures d.episode == e.episode && d.epoch == e.epoch && d.generation == e.generation
    ensures d.dir == e.dir && d.cgroup == e.cgroup && d.upper == e.upper
  {
    var n := |root|;
    assert d.dir[n + 1] == d.episode && d.dir[n + 2] == EpochName(d.epoch) && d.dir[n + 3] == GenName(d.generation);
    assert e.dir[n + 1] == e.episode && e.dir[n + 2] == EpochName(e.epoch) && e.dir[n + 3] == GenName(e.generation);
    assert d.cgroup[4] == d.episode && d.cgroup[5] == EpochName(d.epoch) && d.cgroup[6] == GenName(d.generation);
    assert e.cgroup[4] == e.episode && e.cgroup[5] == EpochName(e.epoch) && e.cgroup[6] == GenName(e.generation);
    NamesInjective(d.epoch, d.generation, e.epoch, e.generation);
  }

  lemma EntryOfCgroup(root: Path, episode: string, epoch: nat, generation: nat)
    ensures EntryOf(root, CgroupPath(episode, epoch, generation)) == DomainDir(root, episode, epoch, generation)
  {
    var c := CgroupPath(episode, epoch, generation);
    assert c[4..] == [episode, EpochName(epoch), GenName(generation)];
  }

  lemma EntryOfInjective(root: Path, c: Path, c': Path)
    requires |c| >= 4 && |c'| >= 4 && CGROUP_ROOT <= c && CGROUP_ROOT <= c'
    requires EntryOf(root, c) == EntryOf(root, c')
    ensures c == c'
  {
    var n := |root| + 1;
    assert EntryOf(root, c)[n..] == c[4..] && EntryOf(root, c')[n..] == c'[4..];
    assert c == c[..4] + c[4..] && c' == c'[..4] + c'[4..];
  }

  // ---- The cgroup tree --------------------------------------------------------------------

  lemma AttachedOk(cgroups: map<Path, Cgroup>, leaf: Path, depth: nat, procs: set<nat>)
    requires CgroupsOk(cgroups) && |leaf| == 7 && CGROUP_ROOT <= leaf
    ensures CgroupsOk(MakeCgroups(cgroups, leaf, depth))
    ensures CgroupsOk(Attached(cgroups, leaf, procs))
  {
    MakeCgroupsOk(cgroups, leaf, depth);
    MakeCgroupsOk(cgroups, leaf, 7);
    var made, after := MakeCgroups(cgroups, leaf, 7), Attached(cgroups, leaf, procs);
    assert leaf[..7] == leaf;
    forall c | c in after ensures CgroupOk(after, c) {
      assert CgroupOk(made, c);
    }
  }

  lemma MakeCgroupsOk(cgroups: map<Path, Cgroup>, leaf: Path, depth: nat)
    requires CgroupsOk(cgroups) && |leaf| == 7 && CGROUP_ROOT <= leaf
    ensures CgroupsOk(MakeCgroups(cgroups, leaf, depth))
  {
    var made := MakeCgroups(cgroups, leaf, depth);
    forall c | c in made ensures CgroupOk(made, c) {
      if c in Missing(cgroups, leaf, depth) {
        var k :| 4 <= k <= depth && k <= |leaf| && c == leaf[..k];
        if k > 4 {
          assert c[..k - 1] == leaf[..k - 1];
          assert leaf[..k - 1] in cgroups || leaf[..k - 1] in Missing(cgroups, leaf, depth);
        }
      } else {
        assert CgroupOk(cgroups, c);
      }
    }
  }

  lemma RemoveDirOk(cgroups: map<Path, Cgroup>, p: Path)
    requires CgroupsOk(cgroups)
    ensures CgroupsOk(RemoveDir(cgroups, p))
  {
    var after := RemoveDir(cgroups, p);
    forall c | c in after ensures CgroupOk(after, c) {
      assert CgroupOk(cgroups, c);
      if |c| > 4 && c[..|c| - 1] == p {
        assert ChildOf(p, c);
      }
    }
  }

  /** The loop removes only nodes on the way up from where it starts, and changes no others. */
  lemma {:induction false} TeardownOk(cgroups: map<Path, Cgroup>, p: Path)
    requires CgroupsOk(cgroups)
    ensures CgroupsOk(Teardown(cgroups, p))
    ensures Teardown(cgroups, p).Keys <= cgroups.Keys
    ensures forall c :: c in cgroups && !(c <= p) ==> c in Teardown(cgroups, p)
    ensures forall c :: c in Teardown(cgroups, p) ==> Teardown(cgroups, p)[c] == cgroups[c]
    decreases |p|
  {
    if p != [] && p[|p| - 1] != "autonomic" {
      RemoveDirOk(cgroups, p);
      var parent := p[..|p| - 1];
      TeardownOk(RemoveDir(cgroups, p), parent);
      forall c | c in cgroups && !(c <= p) ensures c in Teardown(cgroups, p) {
        assert c <= parent ==> c <= p;
      }
    }
  }

  // ---- Every step keeps the invariant -----------------------------------------------------

  /** What passing the fence means: the domain is a live record with that id, episode and epoch. */
  lemma FencedIsLive(w: World, root: Path, t: Target)
    requires Inv(w, root) && Loaded(w, t).Some? && Checked(Loaded(w, t).value, t).Some?
    ensures var d := Checked(Loaded(w, t).value, t).value;
            d.dir in w.disk.records && w.disk.records[d.dir] == d && Matches(d, t)
    ensures MapOk(Loaded(w, t).value, w.disk)
  {
    LoadedOk(w, root, t);
  }

  lemma LoadedOk(w: World, root: Path, t: Target)
    requires Inv(w, root) && Loaded(w, t).Some?
    ensures MapOk(Loaded(w, t).value, w.disk)
  {
    if t.id !in w.domains {
      var p :| Candidate(w.disk.records, t, p) && Persisted(w.disk.records, t) == Some(w.disk.records[p]);
      assert RecordOk(w.disk, root, p);
    }
  }

  lemma SetCgroupKeeps(s: Disk, root: Path, d: Domain, procs: set<nat>, frozen: bool)
    requires DiskInv(s, root) && d.dir in s.records && s.records[d.dir] == d
    ensures DiskInv(SetCgroup(s, d.cgroup, procs, frozen), root)
  {
    assert RecordOk(s, root, d.dir);
    var after := SetCgroup(s, d.cgroup, procs, frozen);
    forall c | c in after.cgroups ensures CgroupOk(after.cgroups, c) {
      assert CgroupOk(s.cgroups, c);
    }
    forall p | p in after.records ensures RecordOk(after, root, p) {
      assert RecordOk(s, root, p);
    }
  }

  lemma AddTreeKeeps(s: Disk, root: Path, p: Path, tree: Tree)
    requires DiskInv(s, root) && (p in s.trees || !InGeneration(root, p))
    ensures DiskInv(s.(trees := s.trees[p := tree]), root)
  {
    var after := s.(trees := s.trees[p := tree]);
    forall q | q in after.records ensures RecordOk(after, root, q) {
      assert RecordOk(s, root, q);
    }
  }

  lemma GrowKeeps(s: Disk, root: Path, entries: set<Path>, trees: map<Path, Tree>, cgroups: map<Path, Cgroup>)
    requires DiskInv(s, root) && CgroupsOk(cgroups)
    requires s.entries <= entries && s.trees.Keys <= trees.Keys && s.cgroups.Keys <= cgroups.Keys
    requires forall c :: c in cgroups && c !in s.cgroups && |c| == 7 ==> EntryOf(root, c) in entries
    requires forall p :: p in trees && p !in s.trees && InGeneration(root, p) ==> p[..|root| + 4] in entries
    ensures DiskInv(Disk(entries, s.records, trees, cgroups), root)
  {
    var after := Disk(entries, s.records, trees, cgroups);
    forall q | q in after.records ensures RecordOk(after, root, q) {
      assert RecordOk(s, root, q);
    }
  }

  lemma MissingIsBelowLeaf(cgroups: map<Path, Cgroup>, leaf: Path, depth: nat, c: Path)
    requires |leaf| == 7 && c in MakeCgroups(cgroups, leaf, depth) && c !in cgroups
    ensures c <= leaf && (|c| == 7 ==> c == leaf)
  {
  }

  lemma CgroupDepthKeeps(s: Disk, root: Path, d: Domain, depth: nat)
    requires DiskInv(s, root) && Placed(d, root) && d.dir in s.entries
    ensures DiskInv(s.(cgroups := MakeCgroups(s.cgroups, d.cgroup, depth)), root)
  {
    AttachedOk(s.cgroups, d.cgroup, depth, {});
    EntryOfCgroup(root, d.episode, d.epoch, d.generation);
    var made := MakeCgroups(s.cgroups, d.cgroup, depth);
    forall c | c in made && c !in s.cgroups && |c| == 7 ensures EntryOf(root, c) in s.entries {
      MissingIsBelowLeaf(s.cgroups, d.cgroup, depth, c);
    }
    GrowKeeps(s, root, s.entries, s.trees, made);
  }

  lemma AttachKeeps(s: Disk, root: Path, d: Domain, procs: set<nat>)
    requires DiskInv(s, root) && Placed(d, root) && d.dir in s.entries
    ensures DiskInv(s.(cgroups := Attached(s.cgroups, d.cgroup, procs)), root)
  {
    AttachedOk(s.cgroups, d.cgroup, 7, procs);
    EntryOfCgroup(root, d.episode, d.epoch, d.generation);
    var made := Attached(s.cgroups, d.cgroup, procs);
    forall c | c in made && c !in s.cgroups && |c| == 7 ensures EntryOf(root, c) in s.entries {
      if c != d.cgroup { MissingIsBelowLeaf(s.cgroups, d.cgroup, 7, c); }
    }
    GrowKeeps(s, root, s.entries, s.trees, made);
  }

  lemma LaunchKeeps(s: Disk, root: Path, d: Domain, launch: Launch)
    requires DiskInv(s, root) && Placed(d, root) && d.dir in s.entries && d.upper in s.trees
    requires forall p :: p in s.records ==> s.records[p].id != d.id
    ensures DiskInv(Launched(s, d, launch).0, root)
  {
    match launch
    case CgroupFailed(depth) =>
      CgroupDepthKeeps(s, root, d, depth);
    case KeeperFailed(leftover) =>
      AttachKeeps(s, root, d, leftover);
    case Ready(pids, _) =>
      AttachKeeps(s, root, d, pids);
      if d.dir !in s.records { NewRecordKeeps(s.(cgroups := Attached(s.cgroups, d.cgroup, pids)), root, d); }
  }

  /** What a create adds: a fresh directory, a fresh cgroup and, if the keeper starts, a record. */
  ghost predicate Founded(s: Disk, after: Disk, reply: Reply, id: string) {
    if reply.Created? then
      && reply.domain.id == id
      && reply.domain.dir !in s.entries
      && after.records == s.records[reply.domain.dir := reply.domain]
    else reply.Refused? && after.records == s.records
  }

  lemma CreateCommonKeeps(s: Disk, root: Path, episode: string, epoch: U64, host: Host,
                          snapshot: Option<Tree>, copied: bool)
    requires DiskInv(s, root) && IsHexId(episode) && HasRoom(s.entries, EpochDir(root, episode, epoch))
    requires forall p :: p in s.records ==> s.records[p].id != host.id
    ensures var (after, reply) := CreateCommon(s, episode, epoch, root, host, snapshot, copied);
            DiskInv(after, root) && Founded(s, after, reply, host.id)
  {
    var epochDir := EpochDir(root, episode, epoch);
    var d := NewDomain(root, episode, epoch, NextGeneration(s.entries, epochDir), host);
    NextGenerationIsFreshIff(s.entries, epochDir);
    RecordsListed(s, root);
    var made := Prepared(s, d, snapshot);
    UpperPath(root, d);
    GrowKeeps(s, root, made.entries, made.trees, s.cgroups);
    if copied { LaunchKeeps(made, root, d, host.launch); }
  }

  lemma UpperPath(root: Path, d: Domain)
    requires Placed(d, root)
    ensures InGeneration(root, d.upper) && d.upper[..|root| + 4] == d.dir
  {
  }

  /** A fresh generation directory has no upper yet. */
  lemma FreshHasNoUpper(s: Disk, root: Path, d: Domain)
    requires DiskInv(s, root) && Placed(d, root) && d.dir !in s.entries
    ensures d.upper !in s.trees
  {
    UpperPath(root, d);
  }

  lemma CheckpointIsApart(root: Path, episode: string, name: string)
    ensures !InGeneration(root, CheckpointDir(root, episode, name))
  {
  }

  lemma NewRecordKeeps(s: Disk, root: Path, d: Domain)
    requires DiskInv(s, root) && Placed(d, root)
    requires d.dir in s.entries && d.upper in s.trees && d.cgroup in s.cgroups
    requires forall p :: p in s.records ==> s.records[p].id != d.id
    ensures DiskInv(s.(records := s.records[d.dir := d]), root)
  {
    var after := s.(records := s.records[d.dir := d]);
    forall p | p in after.records ensures RecordOk(after, root, p) {
      if p != d.dir { assert RecordOk(s, root, p); }
    }
  }

  /** Paths of other domains are outside a domain's directory. */
  lemma OthersOutside(d: Domain, e: Domain, root: Path)
    requires Placed(d, root) && Placed(e, root) && d.dir != e.dir
    ensures !(d.dir <= e.dir) && !(d.dir <= e.upper)
    ensures d.cgroup != e.cgroup && !(e.cgroup <= d.cgroup)
  {
    assert |d.dir| == |e.dir| == |root| + 4 && |d.cgroup| == |e.cgroup| == 7;
    if d.cgroup == e.cgroup { PathsInjective(d, e, root); }
    assert e.upper[..|root| + 4] == e.dir;
  }

  /** The cgroup tree once every process of the domain is gone. */
  function Emptied(s: Disk, d: Domain): map<Path, Cgroup>
    requires d.cgroup in s.cgroups
  {
    s.cgroups[d.cgroup := Cgroup({}, s.cgroups[d.cgroup].frozen)]
  }

  lemma LiveHasCgroup(s: Disk, root: Path, d: Domain)
    requires DiskInv(s, root) && d.dir in s.records && s.records[d.dir] == d
    ensures Placed(d, root) && d.cgroup in s.cgroups && d.upper in s.trees && d.dir in s.entries
    ensures CgroupsOk(Emptied(s, d))
  {
    assert RecordOk(s, root, d.dir);
    SetCgroupKeeps(s, root, d, {}, s.cgroups[d.cgroup].frozen);
  }

  lemma DestroyKeeps(s: Disk, root: Path, d: Domain)
    requires DiskInv(s, root) && d.dir in s.records && s.records[d.dir] == d
    ensures Present(s, d)
    ensures var (after, reply) := DestroyOn(s, d, true, {});
            && DiskInv(after, root)
            && after.records == s.records - {d.dir}
            && after.cgroups == Teardown(Emptied(s, d), d.cgroup)
            && reply == Destroyed(d, s.cgroups[d.cgroup].procs, true) && d.cgroup !in after.cgroups
  {
    LiveHasCgroup(s, root, d);
    var (after, reply) := DestroyOn(s, d, true, {});
    TeardownOk(Emptied(s, d), d.cgroup);
    LeafIsRemoved(Emptied(s, d), d);
    assert Within(s.records.Keys, d.dir) == {d.dir} by {
      forall p | p in s.records && p != d.dir ensures !(d.dir <= p) {
        assert RecordOk(s, root, p);
        OthersOutside(d, s.records[p], root);
      }
    }
    forall p | p in after.records ensures RecordOk(after, root, p) {
      assert RecordOk(s, root, p);
      OthersOutside(d, s.records[p], root);
    }
    LeavesListedAfter(s, root, d, after);
    UppersListedAfter(s, root, d, after);
  }

  lemma LeavesListedAfter(s: Disk, root: Path, d: Domain, after: Disk)
    requires DiskInv(s, root) && Placed(d, root) && after.cgroups.Keys <= s.cgroups.Keys && d.cgroup !in after.cgroups
    requires after.entries == Outside(s.entries, d.dir)
    ensures LeavesListed(after, root)
  {
    forall c | c in after.cgroups && |c| == 7 ensures EntryOf(root, c) in after.entries {
      EntryOfCgroup(root, d.episode, d.epoch, d.generation);
      assert CgroupOk(s.cgroups, c);
      assert EntryOf(root, c) in s.entries && |EntryOf(root, c)| == |d.dir|;
      if EntryOf(root, c) == d.dir { EntryOfInjective(root, c, d.cgroup); }
    }
  }

  lemma UppersListedAfter(s: Disk, root: Path, d: Domain, after: Disk)
    requires DiskInv(s, root) && Placed(d, root)
    requires after.entries == Outside(s.entries, d.dir) && after.trees.Keys == s.trees.Keys - Within(s.trees.Keys, d.dir)
    ensures UppersListed(after, root)
  {
    forall p | p in after.trees && InGeneration(root, p) ensures p[..|root| + 4] in after.entries {
      assert !(d.dir <= p) && |d.dir| == |root| + 4;
    }
  }

  /** The emptied leaf has no children, so the first round of the loop removes it. */
  lemma LeafIsRemoved(cgroups: map<Path, Cgroup>, d: Domain)
    requires CgroupsOk(cgroups) && d.cgroup in cgroups && cgroups[d.cgroup].procs == {}
    requires d.cgroup == CgroupPath(d.episode, d.epoch, d.generation)
    ensures d.cgroup !in Teardown(cgroups, d.cgroup)
  {
    var c := d.cgroup;
    assert !HasChild(cgroups, c) by {
      if x :| x in cgroups && ChildOf(c, x) {
        assert CgroupOk(cgroups, x);
      }
    }
    assert c[|c| - 1] == GenName(d.generation) && GenName(d.generation)[0] == 'g';
    assert c[|c| - 1] != "autonomic";
    var once := RemoveDir(cgroups, c);
    RemoveDirOk(cgroups, c);
    TeardownOk(once, c[..|c| - 1]);
  }

  /** The disk after an action that is not a completed destroy. */
  ghost predicate Quiet(s: Disk, root: Path, after: Disk, reply: Reply) {
    && DiskInv(after, root) && after.records == s.records && after.entries == s.entries
    && after.cgroups.Keys == s.cgroups.Keys
    && !reply.Destroyed? && !reply.Created?
  }

  lemma ExecKeeps(s: Disk, root: Path, d: Domain, completes: bool, tree: Tree, procs: set<nat>)
    requires DiskInv(s, root) && d.dir in s.records && s.records[d.dir] == d && Present(s, d)
    ensures var (after, reply) := ExecOn(s, d, completes, tree, procs); Quiet(s, root, after, reply)
  {
    var frozen := s.cgroups[d.cgroup].frozen;
    SetCgroupKeeps(s, root, d, procs, frozen);
    AddTreeKeeps(SetCgroup(s, d.cgroup, procs, frozen), root, d.upper, if frozen then s.trees[d.upper] else tree);
  }

  lemma CheckpointKeeps(digest: Digester, s: Disk, root: Path, d: Domain, freezes: bool, copy: Copy, thaws: bool)
    requires DiskInv(s, root) && d.dir in s.records && s.records[d.dir] == d && Present(s, d)
    ensures var (after, reply) := CheckpointOn(digest, s, d, freezes, copy, thaws); Quiet(s, root, after, reply)
  {
    var procs := s.cgroups[d.cgroup].procs;
    assert RecordOk(s, root, d.dir);
    assert d.dir[..|d.dir| - 4] == root;
    CheckpointIsApart(root, d.episode, digest(s.trees[d.upper]));
    SetCgroupKeeps(s, root, d, procs, true);
    SetCgroupKeeps(s, root, d, procs, false);
    AddTreeKeeps(SetCgroup(s, d.cgroup, procs, false), root,
      CheckpointPath(d, digest(s.trees[d.upper])), CopyResult(copy, s.trees[d.upper]));
  }

  /** Any action but a completed destroy keeps records, entries and the set of cgroups. */
  lemma ActKeeps(digest: Digester, s: Disk, root: Path, d: Domain, r: Request)
    requires DiskInv(s, root) && d.dir in s.records && s.records[d.dir] == d
    requires !r.Create? && !r.Restore? && !(r.Destroy? && r.empties)
    ensures var (after, reply) := Act(digest, s, d, r); Quiet(s, root, after, reply)
  {
    LiveHasCgroup(s, root, d);
    var cg := s.cgroups[d.cgroup];
    match r
    case Exec(_, _, completes, tree, procs) =>
      ExecKeeps(s, root, d, completes, tree, procs);
    case Signal(_, _, survivors) =>
      SetCgroupKeeps(s, root, d, cg.procs * survivors, cg.frozen);
    case Freeze(_, on, _) =>
      SetCgroupKeeps(s, root, d, cg.procs, on);
    case Checkpoint(_, freezes, copy, thaws) =>
      CheckpointKeeps(digest, s, root, d, freezes, copy, thaws);
    case Inspect(_) =>
    case Destroy(_, _, survivors) =>
      SetCgroupKeeps(s, root, d, cg.procs * survivors, cg.frozen);
  }

  lemma BackgroundKeeps(s: Disk, root: Path, e: Event)
    requires DiskInv(s, root) && e.Work?
    ensures DiskInv(Background(s, e), root) && Background(s, e).records == s.records
    ensures Background(s, e).cgroups.Keys == s.cgroups.Keys
  {
    if e.dir in s.records {
      var d := s.records[e.dir];
      assert RecordOk(s, root, e.dir);
      SetCgroupKeeps(s, root, d, e.procs, false);
      AddTreeKeeps(SetCgroup(s, d.cgroup, e.procs, false), root, d.upper, e.tree);
    }
  }

  lemma EstablishKeeps(digest: Digester, s: Disk, root: Path, r: Request)
    requires DiskInv(s, root) && (r.Create? || r.Restore?) && Admissible(s, root, Ask(r))
    ensures var (after, reply) := Establish(digest, s, r);
            DiskInv(after, root) && Founded(s, after, reply, r.host.id)
  {
    if Granted(digest, s, r) {
      CreateCommonKeeps(s, root, r.episode, r.epoch, r.host, Snapshot(s, r), Copies(r));
    }
  }

  lemma RecordsListed(s: Disk, root: Path)
    requires DiskInv(s, root)
    ensures s.records.Keys <= s.entries
  {
    forall p | p in s.records ensures p in s.entries { assert RecordOk(s, root, p); }
  }

  lemma MapAfterFounding(domains: map<string, Domain>, s: Disk, root: Path, after: Disk, reply: Reply, id: string)
    requires DiskInv(s, root) && MapOk(domains, s) && Founded(s, after, reply, id)
    ensures reply.Created? ==> MapOk(domains[reply.domain.id := reply.domain], after)
    ensures !reply.Created? ==> MapOk(domains, after)
  {
    RecordsListed(s, root);
  }

  /** The invariant holds after every admissible step. */
  lemma StepKeepsInv(digest: Digester, w: World, root: Path, e: Event)
    requires Inv(w, root) && Admissible(w.disk, root, e)
    ensures Inv(Step(digest, w, e).0, root)
  {
    match e
    case Work(_, _, _) =>
      BackgroundKeeps(w.disk, root, e);
    case Ask(r) =>
      if r.Create? || r.Restore? {
        EstablishKeeps(digest, w.disk, root, r);
        var (after, reply) := Establish(digest, w.disk, r);
        MapAfterFounding(w.domains, w.disk, root, after, reply, r.host.id);
      } else {
        FencedKeepsInv(digest, w, root, r);
      }
  }

  lemma FencedKeepsInv(digest: Digester, w: World, root: Path, r: Request)
    requires Inv(w, root) && !r.Create? && !r.Restore?
    ensures Inv(Handle(digest, w, r).0, root)
  {
    if Loaded(w, r.target).Some? {
      LoadedOk(w, root, r.target);
      var domains := Loaded(w, r.target).value;
      if Checked(domains, r.target).Some? {
        FencedIsLive(w, root, r.target);
        var d := Checked(domains, r.target).value;
        if r.Destroy? && r.empties {
          DestroyKeeps(w.disk, root, d);
          MapAfterDestroy(domains, w.disk, root, d);
        } else {
          ActKeeps(digest, w.disk, root, d, r);
        }
      }
    }
  }

  lemma MapAfterDestroy(domains: map<string, Domain>, s: Disk, root: Path, d: Domain)
    requires DiskInv(s, root) && MapOk(domains, s) && d.dir in s.records && s.records[d.dir] == d
    ensures forall id :: id in domains - {d.id} ==> domains[id].dir in s.records - {d.dir}
  {
    forall id | id in domains - {d.id} ensures domains[id].dir != d.dir {
    }
  }

  lemma {:induction false} RunKeepsInv(digest: Digester, w: World, root: Path, es: seq<Event>)
    requires Inv(w, root) && AdmissibleRun(digest, w, root, es)
    ensures Inv(Run(digest, w, es).0, root)
    decreases |es|
  {
    if es != [] {
      StepKeepsInv(digest, w, root, es[0]);
      RunKeepsInv(digest, Step(digest, w, es[0]).0, root, es[1..]);
    }
  }
}
