/**
 * The launcher's world: warm domain map, state directory and cgroup tree, and what every
 * request does to them.
 */
module Domains {
  import opened Prelude
  import opened Decimal
  import TreeDigest
  import CopyTree

  type Path = seq<string>
  type Tree = TreeDigest.Tree

  // ---- Paths ------------------------------------------------------------------------------

  const CGROUP_ROOT: Path := ["sys", "fs", "cgroup", "autonomic"]

  function EpochName(epoch: nat): string { "epoch-" + Print(epoch) }
  function GenName(generation: nat): string { "gen-" + Print(generation) }

  function EpochDir(root: Path, episode: string, epoch: nat): Path {
    root + ["domains", episode, EpochName(epoch)]
  }

  function DomainDir(root: Path, episode: string, epoch: nat, generation: nat): Path {
    EpochDir(root, episode, epoch) + [GenName(generation)]
  }

  function UpperDir(dir: Path): Path { dir + ["upper"] }

  function CgroupPath(episode: string, epoch: nat, generation: nat): Path {
    CGROUP_ROOT + [episode, EpochName(epoch), GenName(generation)]
  }

  function CheckpointDir(root: Path, episode: string, digest: string): Path {
    root + ["checkpoints", episode, digest]
  }

  predicate IsHexDigit(c: char) { '0' <= c <= '9' || 'a' <= c <= 'f' || 'A' <= c <= 'F' }

  predicate IsHexId(s: string) { |s| == 32 && forall i :: 0 <= i < |s| ==> IsHexDigit(s[i]) }

  predicate ChildOf(parent: Path, p: Path) { |p| == |parent| + 1 && parent <= p }

  /** A path as a request spells it. */
  datatype RawPath = RawPath(absolute: bool, parts: Path)

  /** `secure_absolute`. */
  predicate Secure(p: RawPath) { p.absolute && ".." !in p.parts }

  // ---- State ------------------------------------------------------------------------------

  /** The fields of a domain that no step inspects: rootfs, lower layer, socket, limits, base ref. */
  datatype Settings = Settings(rootfs: string, lower: string, socket: string, limits: string, baseRef: Option<string>)

  datatype Domain = Domain(id: string, episode: string, epoch: U64, generation: U64, keeper: nat,
                           cgroup: Path, dir: Path, upper: Path, settings: Settings)

  datatype Cgroup = Cgroup(procs: set<nat>, frozen: bool)

  /**
   * Everything outside the launcher process: names present in epoch directories, the
   * `domain.json` of a generation directory, directory contents (overlay uppers and
   * checkpoints), and the cgroup tree.
   */
  datatype Disk = Disk(entries: set<Path>, records: map<Path, Domain>, trees: map<Path, Tree>,
                       cgroups: map<Path, Cgroup>)

  datatype World = World(domains: map<string, Domain>, disk: Disk)

  // ---- Requests ---------------------------------------------------------------------------

  datatype Target = Target(id: string, episode: string, epoch: U64, stateRoot: RawPath)

  /** How far a keeper launch gets. */
  datatype Launch =
    | Ready(pids: set<nat>, keeper: nat)
    | CgroupFailed(depth: nat)
    | KeeperFailed(leftover: set<nat>)

  /** What the host contributes to a create: path checks, the fresh id, the launch. */
  datatype Host = Host(pathsOk: bool, id: string, settings: Settings, launch: Launch)

  /** What `cp -a` makes of a tree. */
  datatype Copy = Exact | Inexact(result: Tree) | Aborted(partial: Tree)

  datatype Request =
    | Create(episode: string, epoch: U64, stateRoot: RawPath, host: Host)
    | Restore(episode: string, epoch: U64, stateRoot: RawPath, ref: Path, digest: string, copy: Copy, host: Host)
    | Exec(target: Target, valid: bool, completes: bool, tree: Tree, procs: set<nat>)
    | Signal(target: Target, signal: string, survivors: set<nat>)
    | Freeze(target: Target, on: bool, settles: bool)
    | Checkpoint(target: Target, freezes: bool, copy: Copy, thaws: bool)
    | Inspect(target: Target)
    | Destroy(target: Target, empties: bool, survivors: set<nat>)

  /** A request, or the domain's own processes changing its tree and process set. */
  datatype Event = Ask(request: Request) | Work(dir: Path, tree: Tree, procs: set<nat>)

  datatype Reply =
    | Refused
    | Created(domain: Domain)
    | Executed(domain: Domain)
    | Signaled(domain: Domain)
    | FrozenTo(domain: Domain, on: bool)
    | Checkpointed(domain: Domain, ref: Path, digest: string)
    | Inspected(domain: Domain, pids: set<nat>)
    | Destroyed(domain: Domain, killed: set<nat>, cgroupRemoved: bool)

  type Digester = Tree -> string

  // ---- Generations ------------------------------------------------------------------------

  /** The number a `gen-` entry parses to; other names have none. */
  function GenOf(name: string): Option<U64> {
    if |name| >= 4 && name[..4] == "gen-" then ParseU64(name[4..]) else None
  }

  /** The generation number of a path's last component. */
  function LastGen(p: Path): Option<U64> { if p == [] then None else GenOf(p[|p| - 1]) }

  /** An entry of the epoch directory that carries a number. */
  predicate Numbered(entries: set<Path>, epochDir: Path, p: Path) {
    p in entries && ChildOf(epochDir, p) && LastGen(p).Some?
  }

  ghost predicate Newest(entries: set<Path>, epochDir: Path, top: Path) {
    && Numbered(entries, epochDir, top)
    && forall p :: Numbered(entries, epochDir, p) ==> LastGen(p).value <= LastGen(top).value
  }

  lemma {:induction false} NewestExists(entries: set<Path>, epochDir: Path, p: Path)
    requires Numbered(entries, epochDir, p)
    ensures exists top :: Newest(entries, epochDir, top)
    decreases U64_LIMIT - LastGen(p).value
  {
    if q :| Numbered(entries, epochDir, q) && LastGen(q).value > LastGen(p).value {
      NewestExists(entries, epochDir, q);
    } else {
      assert Newest(entries, epochDir, p);
    }
  }

  /** `v + 1` in 64-bit arithmetic: the last number wraps around to zero. */
  function After(m: U64): U64 { if m + 1 == U64_LIMIT then 0 else m + 1 }

  /** One past the largest existing number. */
  ghost function NextGeneration(entries: set<Path>, epochDir: Path): U64 {
    if p :| Numbered(entries, epochDir, p) then
      NewestExists(entries, epochDir, p);
      var top :| Newest(entries, epochDir, top);
      After(LastGen(top).value)
    else 0
  }

  /** All newest entries carry the same number, so any of them tells the next one. */
  lemma NewestGivesNext(entries: set<Path>, epochDir: Path, top: Path)
    requires Newest(entries, epochDir, top)
    ensures NextGeneration(entries, epochDir) == After(LastGen(top).value)
  {
  }

  /** No entry carries the last 64-bit number. */
  ghost predicate HasRoom(entries: set<Path>, epochDir: Path) {
    forall p :: p in entries && ChildOf(epochDir, p) ==> LastGen(p) != Some(U64_LIMIT - 1)
  }

  // ---- The cgroup tree --------------------------------------------------------------------

  /** `create_dir_all` down to `depth` components of the path, from the `autonomic` level on. */
  function MakeCgroups(cgroups: map<Path, Cgroup>, leaf: Path, depth: nat): map<Path, Cgroup> {
    cgroups + map k | k in Missing(cgroups, leaf, depth) :: Cgroup({}, false)
  }

  function Missing(cgroups: map<Path, Cgroup>, leaf: Path, depth: nat): set<Path> {
    (set k | 4 <= k <= depth && k <= |leaf| :: leaf[..k]) - cgroups.Keys
  }

  ghost predicate HasChild(cgroups: map<Path, Cgroup>, p: Path) {
    exists c :: c in cgroups && ChildOf(p, c)
  }

  /** `rmdir`, failures ignored: it succeeds exactly on a cgroup without processes and children. */
  ghost function RemoveDir(cgroups: map<Path, Cgroup>, p: Path): map<Path, Cgroup> {
    if p in cgroups && cgroups[p].procs == {} && !HasChild(cgroups, p) then cgroups - {p} else cgroups
  }

  /** The removal loop, upwards from `p` to the `autonomic` component. */
  ghost function Teardown(cgroups: map<Path, Cgroup>, p: Path): map<Path, Cgroup>
    decreases |p|
  {
    if p == [] || p[|p| - 1] == "autonomic" then cgroups
    else Teardown(RemoveDir(cgroups, p), p[..|p| - 1])
  }

  // ---- Lookup -----------------------------------------------------------------------------

  predicate Matches(d: Domain, t: Target) { d.id == t.id && d.episode == t.episode && d.epoch == t.epoch }

  /** The validation of a record read back from disk. */
  predicate Validated(d: Domain, t: Target) {
    && d.cgroup == CgroupPath(t.episode, t.epoch, d.generation)
    && EpochDir(t.stateRoot.parts, t.episode, t.epoch) <= d.dir
  }

  ghost predicate Candidate(records: map<Path, Domain>, t: Target, p: Path) {
    p in records && ChildOf(EpochDir(t.stateRoot.parts, t.episode, t.epoch), p) && Matches(records[p], t)
  }

  /** The record the directory scan stops at, if it passes validation. */
  ghost function Persisted(records: map<Path, Domain>, t: Target): Option<Domain> {
    if p :| Candidate(records, t, p) then
      if Validated(records[p], t) then Some(records[p]) else None
    else None
  }

  /** `ensure_loaded_domain`: the map first, then the disk. */
  ghost function Loaded(w: World, t: Target): Option<map<string, Domain>> {
    if t.id in w.domains then Some(w.domains)
    else if !IsHexId(t.episode) || !Secure(t.stateRoot) then None
    else
      match Persisted(w.disk.records, t)
      case None => None
      case Some(d) => Some(w.domains[t.id := d])
  }

  /** `checked_domain`: the fence on episode and epoch. */
  function Checked(domains: map<string, Domain>, t: Target): Option<Domain> {
    if t.id in domains && domains[t.id].episode == t.episode && domains[t.id].epoch == t.epoch
    then Some(domains[t.id]) else None
  }

  // ---- Steps ------------------------------------------------------------------------------

  function CopyResult(copy: Copy, source: Tree): Tree {
    match copy
    case Exact => source
    case Inexact(result) => result
    case Aborted(partial) => partial
  }

  /** The record of a domain about to be launched. */
  function NewDomain(root: Path, episode: string, epoch: U64, generation: U64, host: Host): Domain {
    var dir := DomainDir(root, episode, epoch, generation);
    Domain(host.id, episode, epoch, generation, if host.launch.Ready? then host.launch.keeper else 0,
           CgroupPath(episode, epoch, generation), dir, UpperDir(dir), host.settings)
  }

  /** The cgroup directories exist and the leaf holds these processes. */
  function Attached(cgroups: map<Path, Cgroup>, leaf: Path, procs: set<nat>): map<Path, Cgroup> {
    MakeCgroups(cgroups, leaf, 7)[leaf := Cgroup(procs, false)]
  }

  /** Configure the cgroup, start the keeper, persist the record; `domain.json` must be new. */
  function Launched(s: Disk, d: Domain, launch: Launch): (r: (Disk, Reply))
    ensures r.0.entries == s.entries && r.0.trees == s.trees
    ensures r.1 == if launch.Ready? && d.dir !in s.records then Created(d) else Refused
    ensures r.0.records == if r.1.Created? then s.records[d.dir := d] else s.records
  {
    match launch
    case CgroupFailed(depth) => (s.(cgroups := MakeCgroups(s.cgroups, d.cgroup, depth)), Refused)
    case KeeperFailed(leftover) => (s.(cgroups := Attached(s.cgroups, d.cgroup, leftover)), Refused)
    case Ready(pids, _) =>
      var started := s.(cgroups := Attached(s.cgroups, d.cgroup, pids));
      if d.dir in s.records then (started, Refused)
      else (started.(records := s.records[d.dir := d]), Created(d))
  }

  /** `create_dir_all`: a directory that exists keeps what it holds. */
  function DirThere(trees: map<Path, Tree>, p: Path): map<Path, Tree> {
    if p in trees then trees else trees[p := []]
  }

  /** The generation directory and its upper exist, and a snapshot, if any, is copied into the upper. */
  function Prepared(s: Disk, d: Domain, snapshot: Option<Tree>): Disk {
    var trees := DirThere(s.trees, d.upper);
    s.(entries := s.entries + {d.dir},
       trees := if snapshot.None? then trees
                else trees[d.upper := CopyTree.Merge(trees[d.upper], snapshot.value)])
  }

  /** `create_domain_common`: an upper as it is found, or with a checkpoint copied into it. */
  ghost function CreateCommon(s: Disk, episode: string, epoch: U64, root: Path, host: Host,
                              snapshot: Option<Tree>, copied: bool): (Disk, Reply)
  {
    var d := NewDomain(root, episode, epoch, NextGeneration(s.entries, EpochDir(root, episode, epoch)), host);
    if copied then Launched(Prepared(s, d, snapshot), d, host.launch) else (Prepared(s, d, snapshot), Refused)
  }

  /** The checks of a create or restore before anything is made: form, host paths, checkpoint digest. */
  predicate Granted(digest: Digester, s: Disk, r: Request)
    requires r.Create? || r.Restore?
  {
    && IsHexId(r.episode) && Secure(r.stateRoot) && r.host.pathsOk
    && if r.Create? then r.epoch > 0 else r.ref in s.trees && digest(s.trees[r.ref]) == r.digest
  }

  /** What the copy command delivers of the checkpoint; a create copies nothing. */
  function Snapshot(s: Disk, r: Request): Option<Tree>
    requires r.Create? || (r.Restore? && r.ref in s.trees)
  {
    if r.Create? then None else Some(CopyResult(r.copy, s.trees[r.ref]))
  }

  predicate Copies(r: Request)
    requires r.Create? || r.Restore?
  {
    r.Create? || !r.copy.Aborted?
  }

  /** What a create or restore does to the disk. */
  ghost function Establish(digest: Digester, s: Disk, r: Request): (Disk, Reply)
    requires r.Create? || r.Restore?
  {
    if Granted(digest, s, r)
    then CreateCommon(s, r.episode, r.epoch, r.stateRoot.parts, r.host, Snapshot(s, r), Copies(r))
    else (s, Refused)
  }

  function SetCgroup(s: Disk, p: Path, procs: set<nat>, frozen: bool): Disk {
    s.(cgroups := s.cgroups[p := Cgroup(procs, frozen)])
  }

  const SIGNALS: set<string> := {"sigterm", "sigkill", "sigint", "sigtstp", "sigcont"}

  /** The checkpoint directory: four levels above the domain directory is the state root. */
  function CheckpointPath(d: Domain, digest: string): Path {
    CheckpointDir(d.dir[..Max(0, |d.dir| - 4)], d.episode, digest)
  }

  /** A domain whose cgroup and upper directory are there. */
  predicate Present(s: Disk, d: Domain) { d.cgroup in s.cgroups && d.upper in s.trees }

  /** A frozen domain cannot write; the child joins the cgroup all the same. */
  function ExecOn(s: Disk, d: Domain, completes: bool, tree: Tree, procs: set<nat>): (Disk, Reply)
    requires Present(s, d)
  {
    var frozen := s.cgroups[d.cgroup].frozen;
    (SetCgroup(s, d.cgroup, procs, frozen).(trees := s.trees[d.upper := if frozen then s.trees[d.upper] else tree]),
     if completes then Executed(d) else Refused)
  }

  /** Freeze, digest, copy unless a directory of that name exists, and thaw whatever happened. */
  function CheckpointOn(digest: Digester, s: Disk, d: Domain, freezes: bool, copy: Copy, thaws: bool): (Disk, Reply)
    requires d.cgroup in s.cgroups
  {
    var procs := s.cgroups[d.cgroup].procs;
    if !freezes then (SetCgroup(s, d.cgroup, procs, true), Refused)
    else if d.upper !in s.trees then (SetCgroup(s, d.cgroup, procs, false), Refused)
    else
      var name := digest(s.trees[d.upper]);
      var ref := CheckpointPath(d, name);
      var thawed := SetCgroup(s, d.cgroup, procs, false);
      if ref in s.trees then (thawed, if thaws then Checkpointed(d, ref, name) else Refused)
      else
        (thawed.(trees := s.trees[ref := CopyResult(copy, s.trees[d.upper])]),
         if thaws && !copy.Aborted? then Checkpointed(d, ref, name) else Refused)
  }

  /** `cgroup_pids`: a cgroup that is gone counts as empty. */
  function ProcsOf(s: Disk, d: Domain): set<nat> {
    if d.cgroup in s.cgroups then s.cgroups[d.cgroup].procs else {}
  }

  /** Every process of a cgroup but the survivors of a kill is gone; nothing happens to a missing cgroup. */
  function Killed(s: Disk, d: Domain, survivors: set<nat>): map<Path, Cgroup> {
    if d.cgroup in s.cgroups
    then s.cgroups[d.cgroup := Cgroup(ProcsOf(s, d) * survivors, s.cgroups[d.cgroup].frozen)]
    else s.cgroups
  }

  /** Kill, wait until empty, remove the cgroup path upwards and the directory tree. */
  ghost function DestroyOn(s: Disk, d: Domain, empties: bool, survivors: set<nat>): (Disk, Reply) {
    if d.cgroup in s.cgroups && !empties then (s.(cgroups := Killed(s, d, survivors)), Refused)
    else
      var cgroups := Teardown(Killed(s, d, {}), d.cgroup);
      (Disk(Outside(s.entries, d.dir), s.records - Within(s.records.Keys, d.dir),
            s.trees - Within(s.trees.Keys, d.dir), cgroups),
       Destroyed(d, ProcsOf(s, d), d.cgroup !in cgroups))
  }

  /**
   * What an action on a domain that passed the fence does to the disk. Where its cgroup is gone,
   * exec, freeze and checkpoint fail and signal, inspect and destroy find no process.
   */
  ghost function Act(digest: Digester, s: Disk, d: Domain, r: Request): (Disk, Reply)
    requires !r.Create? && !r.Restore?
  {
    match r
    case Exec(_, valid, completes, tree, procs) =>
      if valid && Present(s, d) then ExecOn(s, d, completes, tree, procs) else (s, Refused)
    case Signal(_, signal, survivors) =>
      if signal in SIGNALS then (s.(cgroups := Killed(s, d, survivors)), Signaled(d)) else (s, Refused)
    case Freeze(_, on, settles) =>
      if d.cgroup in s.cgroups
      then (SetCgroup(s, d.cgroup, ProcsOf(s, d), on), if settles then FrozenTo(d, on) else Refused)
      else (s, Refused)
    case Checkpoint(_, freezes, copy, thaws) =>
      if d.cgroup in s.cgroups then CheckpointOn(digest, s, d, freezes, copy, thaws) else (s, Refused)
    case Inspect(_) => (s, Inspected(d, ProcsOf(s, d)))
    case Destroy(_, empties, survivors) => DestroyOn(s, d, empties, survivors)
  }

  /** The paths at or below a directory, and the others: `remove_dir_all`. */
  function Within(paths: set<Path>, dir: Path): set<Path> { set p | p in paths && dir <= p }
  function Outside(paths: set<Path>, dir: Path): set<Path> { set p | p in paths && !(dir <= p) }

  /** `handle_request`. */
  ghost function Handle(digest: Digester, w: World, r: Request): (World, Reply) {
    if r.Create? || r.Restore? then
      var (disk, reply) := Establish(digest, w.disk, r);
      (World(if reply.Created? then w.domains[reply.domain.id := reply.domain] else w.domains, disk), reply)
    else
      match Loaded(w, r.target)
      case None => (w, Refused)
      case Some(domains) =>
        match Checked(domains, r.target)
        case None => (World(domains, w.disk), Refused)
        case Some(d) =>
          var (disk, reply) := Act(digest, w.disk, d, r);
          (World(if reply.Destroyed? then domains - {r.target.id} else domains, disk), reply)
  }

  /** The processes of a live domain run on their own while it is not frozen. */
  function Background(s: Disk, e: Event): Disk
    requires e.Work?
  {
    if e.dir in s.records && s.records[e.dir].cgroup in s.cgroups && !s.cgroups[s.records[e.dir].cgroup].frozen then
      SetCgroup(s, s.records[e.dir].cgroup, e.procs, false).(trees := s.trees[s.records[e.dir].upper := e.tree])
    else s
  }

  ghost function Step(digest: Digester, w: World, e: Event): (World, Reply) {
    match e
    case Ask(r) => Handle(digest, w, r)
    case Work(_, _, _) => (w.(disk := Background(w.disk, e)), Refused)
  }

  /** Final world and the replies, one per event. */
  ghost function Run(digest: Digester, w: World, es: seq<Event>): (World, seq<Reply>)
    decreases |es|
  {
    if es == [] then (w, [])
    else
      var (next, reply) := Step(digest, w, es[0]);
      var (last, replies) := Run(digest, next, es[1..]);
      (last, [reply] + replies)
  }
}
