/**
 * Launchers side by side: any number of creates and restores, each a process of its own, with
 * their phases interleaved in any order.
 */
module RacingCreates {
  import opened Prelude
  import opened Domains
  import opened DomainInvariant
  import opened DomainLifecycle
  import CopyTree

  /** How far a create has got: number drawn, directory made, cgroup entered, record written or refused. */
  datatype Racer =
    | Drawn(domain: Domain)
    | Made(domain: Domain, snapshot: Option<Tree>)
    | Entered(domain: Domain, snapshot: Option<Tree>, procs: set<nat>)
    | Finished(domain: Domain, snapshot: Option<Tree>, procs: set<nat>, won: bool)

  datatype Race = Race(disk: Disk, racers: map<nat, Racer>)

  datatype Move =
    | Draw(who: nat, root: Path, episode: string, epoch: U64, host: Host)
    | Make(who: nat, snapshot: Option<Tree>)
    | Enter(who: nat, procs: set<nat>)
    | Persist(who: nat)

  /** A cgroup that is there keeps its processes when more move in. */
  function Joined(cgroups: map<Path, Cgroup>, leaf: Path, procs: set<nat>): map<Path, Cgroup> {
    var there := if leaf in cgroups then cgroups[leaf] else Cgroup({}, false);
    MakeCgroups(cgroups, leaf, 7)[leaf := Cgroup(there.procs + procs, there.frozen)]
  }

  /**
   * One phase of one launcher: reading the listing, making and filling the directory, setting
   * up the cgroup and starting the keeper in it, writing the record. A move out of turn does nothing.
   */
  ghost function Play(g: Race, m: Move): Race {
    match m
    case Draw(i, root, episode, epoch, host) =>
      if i in g.racers then g
      else
        var next := NextGeneration(g.disk.entries, EpochDir(root, episode, epoch));
        g.(racers := g.racers[i := Drawn(NewDomain(root, episode, epoch, next, host))])
    case Make(i, snapshot) =>
      if i !in g.racers || !g.racers[i].Drawn? then g
      else
        var d := g.racers[i].domain;
        Race(Prepared(g.disk, d, snapshot), g.racers[i := Made(d, snapshot)])
    case Enter(i, procs) =>
      if i !in g.racers || !g.racers[i].Made? then g
      else
        var d := g.racers[i].domain;
        Race(g.disk.(cgroups := Joined(g.disk.cgroups, d.cgroup, procs)),
             g.racers[i := Entered(d, g.racers[i].snapshot, procs)])
    case Persist(i) =>
      if i !in g.racers || !g.racers[i].Entered? then g
      else
        var x := g.racers[i];
        if x.domain.dir in g.disk.records
        then g.(racers := g.racers[i := Finished(x.domain, x.snapshot, x.procs, false)])
        else Race(g.disk.(records := g.disk.records[x.domain.dir := x.domain]),
                  g.racers[i := Finished(x.domain, x.snapshot, x.procs, true)])
  }

  ghost function PlayAll(g: Race, ms: seq<Move>): Race
    decreases |ms|
  {
    if ms == [] then g else PlayAll(Play(g, ms[0]), ms[1..])
  }

  // ---- One winner for every directory ------------------------------------------------------

  predicate Done(g: Race, i: nat) { i in g.racers && g.racers[i].Finished? }

  /** Launcher `i` wrote the record at `p`. */
  predicate Winner(g: Race, i: nat, p: Path) { Done(g, i) && g.racers[i].won && g.racers[i].domain.dir == p }

  ghost predicate HasWinner(g: Race, p: Path) { exists i :: Winner(g, i, p) }

  /** A finished launcher's directory has a record, and if it won, that is its own and is new since `start`. */
  predicate Settled(start: Disk, g: Race, i: nat)
    requires Done(g, i)
  {
    var d := g.racers[i].domain;
    && d.dir in g.disk.records
    && (g.racers[i].won ==> d.dir !in start.records && g.disk.records[d.dir] == d)
  }

  /** No record of `start` is touched, every new one has a winner and no two, and everyone finished is settled. */
  ghost predicate Fair(start: Disk, g: Race) {
    && (forall p :: p in start.records ==> p in g.disk.records && g.disk.records[p] == start.records[p])
    && (forall p :: p in g.disk.records && p !in start.records ==> HasWinner(g, p))
    && (forall i, j, p :: Winner(g, i, p) && Winner(g, j, p) ==> i == j)
    && (forall i :: Done(g, i) ==> Settled(start, g, i))
  }

  /** What every move does: finished launchers stay as they are, and only the mover may finish. */
  ghost predicate OnlyMoves(g: Race, after: Race, who: nat) {
    forall i :: i != who || Done(g, i) ==>
      (i in g.racers <==> i in after.racers) && (i in g.racers ==> after.racers[i] == g.racers[i])
  }

  lemma WinnersStay(g: Race, after: Race, who: nat, p: Path)
    requires OnlyMoves(g, after, who) && HasWinner(g, p)
    ensures HasWinner(after, p)
  {
    var i :| Winner(g, i, p);
    assert Winner(after, i, p);
  }

  /** A move without a new record, after which the mover is unfinished or has lost to a record. */
  lemma NoRecordIsFair(start: Disk, g: Race, after: Race, who: nat)
    requires Fair(start, g) && OnlyMoves(g, after, who) && after.disk.records == g.disk.records
    requires Done(after, who) && !Done(g, who) ==>
               !after.racers[who].won && after.racers[who].domain.dir in g.disk.records
    ensures Fair(start, after)
  {
    forall p | p in after.disk.records && p !in start.records ensures HasWinner(after, p) {
      WinnersStay(g, after, who, p);
    }
    forall i | Done(after, i) ensures Settled(start, after, i) {
      if i != who || Done(g, i) { assert Done(g, i); }
    }
    forall i, j, p | Winner(after, i, p) && Winner(after, j, p) ensures i == j {
      assert Winner(g, i, p) && Winner(g, j, p);
    }
  }

  lemma NewRecordIsFair(start: Disk, g: Race, after: Race, who: nat, d: Domain)
    requires Fair(start, g) && OnlyMoves(g, after, who) && !Done(g, who) && d.dir !in g.disk.records
    requires after.disk.records == g.disk.records[d.dir := d]
    requires Winner(after, who, d.dir) && after.racers[who].domain == d
    ensures Fair(start, after)
  {
    forall p | p in after.disk.records && p !in start.records ensures HasWinner(after, p) {
      if p == d.dir { assert Winner(after, who, p); } else { WinnersStay(g, after, who, p); }
    }
    forall i | Done(after, i) ensures Settled(start, after, i) {
      if i != who { assert Done(g, i) && Settled(start, g, i); }
    }
    forall i, j, p | Winner(after, i, p) && Winner(after, j, p) ensures i == j {
      if i != who { assert Winner(g, i, p) && Settled(start, g, i); }
      if j != who { assert Winner(g, j, p) && Settled(start, g, j); }
    }
  }

  lemma PlayMovesOne(g: Race, m: Move)
    ensures OnlyMoves(g, Play(g, m), m.who)
  {
  }

  lemma PlayIsFair(start: Disk, g: Race, m: Move)
    requires Fair(start, g)
    ensures Fair(start, Play(g, m))
  {
    PlayMovesOne(g, m);
    if m.Persist? && m.who in g.racers && g.racers[m.who].Entered? && g.racers[m.who].domain.dir !in g.disk.records {
      NewRecordIsFair(start, g, Play(g, m), m.who, g.racers[m.who].domain);
    } else {
      NoRecordIsFair(start, g, Play(g, m), m.who);
    }
  }

  /**
   * However the launchers interleave, `create_new` on `domain.json` lets exactly one of them
   * win a directory: no record is ever overwritten, every new record has one winner, and
   * whoever finishes, successfully or not, leaves its directory with a record.
   */
  lemma {:induction false} RacesAreFair(start: Disk, g: Race, ms: seq<Move>)
    requires Fair(start, g)
    ensures Fair(start, PlayAll(g, ms))
    decreases |ms|
  {
    if ms != [] {
      PlayIsFair(start, g, ms[0]);
      RacesAreFair(start, Play(g, ms[0]), ms[1..]);
    }
  }

  // ---- Orderly races -----------------------------------------------------------------------

  /** A draw is for the one state root, a well-formed episode, and finds room for a number. */
  ghost predicate Orderly(g: Race, root: Path, m: Move) {
    m.Draw? ==> m.root == root && IsHexId(m.episode) && HasRoom(g.disk.entries, EpochDir(root, m.episode, m.epoch))
  }

  ghost predicate OrderlyRace(g: Race, root: Path, ms: seq<Move>)
    decreases |ms|
  {
    ms == [] || (Orderly(g, root, ms[0]) && OrderlyRace(Play(g, ms[0]), root, ms[1..]))
  }

  predicate HasMade(g: Race, i: nat) { i in g.racers && !g.racers[i].Drawn? }

  predicate HasEntered(g: Race, i: nat) { HasMade(g, i) && !g.racers[i].Made? }

  /** Somebody has made this directory. */
  ghost predicate Touched(g: Race, dir: Path) { exists i :: HasMade(g, i) && g.racers[i].domain.dir == dir }

  /** Nobody else has made the directory of launcher `i`. */
  ghost predicate Alone(g: Race, i: nat)
    requires i in g.racers
  {
    forall j :: j != i && HasMade(g, j) ==> g.racers[j].domain.dir != g.racers[i].domain.dir
  }

  ghost predicate Occupied(g: Race, c: Path) { exists i :: HasEntered(g, i) && g.racers[i].domain.cgroup == c }

  /** The processes of everybody who entered this cgroup. */
  function Population(g: Race, c: Path): set<nat> {
    set i, pid | i in g.racers && HasEntered(g, i) && g.racers[i].domain.cgroup == c && pid in g.racers[i].procs :: pid
  }

  /** An upper that held nothing before. */
  function Filled(snapshot: Option<Tree>): Tree { if snapshot.None? then [] else snapshot.value }

  /** Every launcher has a directory that was not there at the start, and it is there once somebody made it. */
  ghost predicate PlacesOk(start: Disk, root: Path, g: Race) {
    && start.entries <= g.disk.entries && UppersListed(g.disk, root)
    && forall i :: i in g.racers ==> PlaceOk(start, root, g, i)
  }

  ghost predicate PlaceOk(start: Disk, root: Path, g: Race, i: nat)
    requires i in g.racers
  {
    var d := g.racers[i].domain;
    Placed(d, root) && d.dir !in start.entries && (d.dir in g.disk.entries <==> Touched(g, d.dir))
  }

  /** Who is alone in a directory finds in the upper what it put there. */
  ghost predicate UppersOk(g: Race) {
    forall i :: HasMade(g, i) && Alone(g, i) ==>
      && g.racers[i].domain.upper in g.disk.trees
      && g.disk.trees[g.racers[i].domain.upper] == Filled(g.racers[i].snapshot)
  }

  /** A leaf that is new since the start exists for those who entered it and holds just their processes. */
  ghost predicate LeafOk(start: Disk, g: Race, c: Path) {
    |c| == 7 && c !in start.cgroups ==>
      if Occupied(g, c) then c in g.disk.cgroups && g.disk.cgroups[c] == Cgroup(Population(g, c), false)
      else c !in g.disk.cgroups
  }

  ghost predicate LeavesOk(start: Disk, g: Race) { forall c :: LeafOk(start, g, c) }

  ghost predicate Tidy(start: Disk, root: Path, g: Race) {
    Fair(start, g) && PlacesOk(start, root, g) && UppersOk(g) && LeavesOk(start, g)
  }

  lemma TidyAtStart(start: Disk, root: Path)
    requires DiskInv(start, root)
    ensures Tidy(start, root, Race(start, map[]))
  {
    var g := Race(start, map[]);
    forall c ensures LeafOk(start, g, c) { assert !Occupied(g, c); }
  }

  /** The same launchers have made their directories, from the same snapshots. */
  ghost predicate SameMakers(g: Race, after: Race) {
    forall i :: (HasMade(g, i) <==> HasMade(after, i)) && (HasMade(g, i) ==> SameMake(g, after, i))
  }

  predicate SameMake(g: Race, after: Race, i: nat)
    requires HasMade(g, i) && HasMade(after, i)
  {
    after.racers[i].domain == g.racers[i].domain && after.racers[i].snapshot == g.racers[i].snapshot
  }

  /** The same launchers have entered their cgroups, with the same processes. */
  ghost predicate SameEnterers(g: Race, after: Race) {
    forall i :: (HasEntered(g, i) <==> HasEntered(after, i)) && (HasEntered(g, i) ==> SameEntry(g, after, i))
  }

  predicate SameEntry(g: Race, after: Race, i: nat)
    requires HasEntered(g, i) && HasEntered(after, i)
  {
    after.racers[i].domain == g.racers[i].domain && after.racers[i].procs == g.racers[i].procs
  }

  lemma TouchedKept(g: Race, after: Race, dir: Path)
    requires SameMakers(g, after)
    ensures Touched(g, dir) <==> Touched(after, dir)
  {
    if i :| HasMade(g, i) && g.racers[i].domain.dir == dir { assert HasMade(after, i) && SameMake(g, after, i); }
    if i :| HasMade(after, i) && after.racers[i].domain.dir == dir { assert HasMade(g, i) && SameMake(g, after, i); }
  }

  lemma UppersKept(g: Race, after: Race)
    requires UppersOk(g) && SameMakers(g, after) && after.disk.trees == g.disk.trees
    ensures UppersOk(after)
  {
    forall i | HasMade(after, i) && Alone(after, i)
      ensures HasMade(g, i) && Alone(g, i) && SameMake(g, after, i)
    {
      forall j | j != i && HasMade(g, j) ensures g.racers[j].domain.dir != g.racers[i].domain.dir {
        assert HasMade(after, j) && SameMake(g, after, j) && SameMake(g, after, i);
      }
    }
  }

  lemma LeavesKept(start: Disk, g: Race, after: Race)
    requires LeavesOk(start, g) && SameEnterers(g, after) && after.disk.cgroups == g.disk.cgroups
    ensures LeavesOk(start, after)
  {
    forall c ensures LeafOk(start, after, c) {
      assert LeafOk(start, g, c);
      SamePopulation(g, after, c);
    }
  }

  lemma SamePopulation(g: Race, after: Race, c: Path)
    requires SameEnterers(g, after)
    ensures Occupied(after, c) <==> Occupied(g, c)
    ensures Population(after, c) == Population(g, c)
  {
    if i :| HasEntered(g, i) && g.racers[i].domain.cgroup == c { assert HasEntered(after, i) && SameEntry(g, after, i); }
    if i :| HasEntered(after, i) && after.racers[i].domain.cgroup == c { assert HasEntered(g, i) && SameEntry(g, after, i); }
    forall pid ensures pid in Population(after, c) <==> pid in Population(g, c) {
      if pid in Population(g, c) {
        var i :| i in g.racers && HasEntered(g, i) && g.racers[i].domain.cgroup == c && pid in g.racers[i].procs;
        assert HasEntered(after, i) && SameEntry(g, after, i);
      }
      if pid in Population(after, c) {
        var i :| i in after.racers && HasEntered(after, i) && after.racers[i].domain.cgroup == c && pid in after.racers[i].procs;
        assert HasEntered(g, i) && SameEntry(g, after, i);
      }
    }
  }

  /** Places are kept when nobody makes a directory and a newcomer, if any, has one that is not there. */
  lemma PlacesKept(start: Disk, root: Path, g: Race, after: Race)
    requires PlacesOk(start, root, g) && SameMakers(g, after)
    requires after.disk.entries == g.disk.entries && after.disk.trees == g.disk.trees
    requires forall i :: i in after.racers ==>
               if i in g.racers then after.racers[i].domain == g.racers[i].domain
               else Placed(after.racers[i].domain, root) && after.racers[i].domain.dir !in g.disk.entries
    ensures PlacesOk(start, root, after)
  {
    forall i | i in after.racers ensures PlaceOk(start, root, after, i) {
      var dir := after.racers[i].domain.dir;
      if i in g.racers { assert PlaceOk(start, root, g, i); }
      TouchedKept(g, after, dir);
      if j :| HasMade(g, j) && g.racers[j].domain.dir == dir { assert PlaceOk(start, root, g, j); }
    }
  }

  /** A move between phases of the same kind changes neither who has made nor who has entered. */
  lemma DrawChangesNobody(g: Race, m: Move)
    requires m.Draw? && m.who !in g.racers
    ensures SameMakers(g, Play(g, m)) && SameEnterers(g, Play(g, m)) && Play(g, m).disk == g.disk
  {
  }

  lemma PersistChangesNobody(g: Race, m: Move)
    requires m.Persist? && m.who in g.racers && g.racers[m.who].Entered?
    ensures SameMakers(g, Play(g, m)) && SameEnterers(g, Play(g, m))
    ensures var s := Play(g, m).disk; s.entries == g.disk.entries && s.trees == g.disk.trees && s.cgroups == g.disk.cgroups
    ensures forall i :: i in Play(g, m).racers ==> i in g.racers && Play(g, m).racers[i].domain == g.racers[i].domain
  {
  }

  lemma EnterChangesNoMaker(g: Race, m: Move)
    requires m.Enter? && m.who in g.racers && g.racers[m.who].Made?
    ensures SameMakers(g, Play(g, m))
    ensures var s := Play(g, m).disk; s.entries == g.disk.entries && s.trees == g.disk.trees
    ensures forall i :: i in Play(g, m).racers ==> i in g.racers && Play(g, m).racers[i].domain == g.racers[i].domain
  {
  }

  lemma MakeChangesNoEnterer(g: Race, m: Move)
    requires m.Make? && m.who in g.racers && g.racers[m.who].Drawn?
    ensures SameEnterers(g, Play(g, m)) && Play(g, m).disk.cgroups == g.disk.cgroups
  {
  }

  lemma DrawIsTidy(start: Disk, root: Path, g: Race, m: Move)
    requires Tidy(start, root, g) && m.Draw? && m.who !in g.racers && Orderly(g, root, m)
    ensures PlacesOk(start, root, Play(g, m)) && UppersOk(Play(g, m)) && LeavesOk(start, Play(g, m))
  {
    DrawChangesNobody(g, m);
    DrawsNewPlace(root, g, m);
    PlacesKept(start, root, g, Play(g, m));
    UppersKept(g, Play(g, m));
    LeavesKept(start, g, Play(g, m));
  }

  lemma DrawsNewPlace(root: Path, g: Race, m: Move)
    requires m.Draw? && m.who !in g.racers && Orderly(g, root, m)
    ensures var after := Play(g, m);
            forall i :: i in after.racers ==>
              if i in g.racers then after.racers[i].domain == g.racers[i].domain
              else Placed(after.racers[i].domain, root) && after.racers[i].domain.dir !in g.disk.entries
  {
    NextGenerationIsFreshIff(g.disk.entries, EpochDir(root, m.episode, m.epoch));
  }

  lemma NoMakerIsTidy(start: Disk, root: Path, g: Race, after: Race)
    requires PlacesOk(start, root, g) && UppersOk(g) && SameMakers(g, after)
    requires after.disk.entries == g.disk.entries && after.disk.trees == g.disk.trees
    requires forall i :: i in after.racers ==> i in g.racers && after.racers[i].domain == g.racers[i].domain
    ensures PlacesOk(start, root, after) && UppersOk(after)
  {
    PlacesKept(start, root, g, after);
    UppersKept(g, after);
  }

  lemma PersistIsTidy(start: Disk, root: Path, g: Race, m: Move)
    requires Tidy(start, root, g) && m.Persist? && m.who in g.racers && g.racers[m.who].Entered?
    ensures PlacesOk(start, root, Play(g, m)) && UppersOk(Play(g, m)) && LeavesOk(start, Play(g, m))
  {
    PersistChangesNobody(g, m);
    NoMakerIsTidy(start, root, g, Play(g, m));
    LeavesKept(start, g, Play(g, m));
  }

  lemma EnterIsTidy(start: Disk, root: Path, g: Race, m: Move)
    requires DiskInv(start, root) && Tidy(start, root, g) && m.Enter? && m.who in g.racers && g.racers[m.who].Made?
    ensures PlacesOk(start, root, Play(g, m)) && UppersOk(Play(g, m)) && LeavesOk(start, Play(g, m))
  {
    EnterChangesNoMaker(g, m);
    NoMakerIsTidy(start, root, g, Play(g, m));
    NewLeaf(start, root, g.racers[m.who].domain);
    forall c ensures LeafOk(start, Play(g, m), c) { EnterKeepsLeaf(start, g, m, c); }
  }

  /** A directory that was not there at the start has no cgroup from then. */
  lemma NewLeaf(start: Disk, root: Path, d: Domain)
    requires DiskInv(start, root) && Placed(d, root) && d.dir !in start.entries
    ensures d.cgroup !in start.cgroups && |d.cgroup| == 7
  {
    EntryOfCgroup(root, d.episode, d.epoch, d.generation);
  }

  lemma EnterKeepsLeaf(start: Disk, g: Race, m: Move, c: Path)
    requires LeavesOk(start, g) && m.Enter? && m.who in g.racers && g.racers[m.who].Made?
    requires |g.racers[m.who].domain.cgroup| == 7 && g.racers[m.who].domain.cgroup !in start.cgroups
    ensures LeafOk(start, Play(g, m), c)
  {
    var leaf := g.racers[m.who].domain.cgroup;
    assert LeafOk(start, g, c);
    OneMoreEnters(g, Play(g, m), m.who, m.procs, c);
    if |c| == 7 && c !in start.cgroups {
      JoinedLeaf(g.disk.cgroups, leaf, m.procs, c);
      if c != leaf { assert Population(g, c) + {} == Population(g, c); } else { assert {} + m.procs == m.procs; }
    }
  }

  lemma JoinedLeaf(cgroups: map<Path, Cgroup>, leaf: Path, procs: set<nat>, c: Path)
    requires |leaf| == 7 == |c|
    ensures var after := Joined(cgroups, leaf, procs);
            if c == leaf then
              var there := if c in cgroups then cgroups[c] else Cgroup({}, false);
              c in after && after[c] == Cgroup(there.procs + procs, there.frozen)
            else
              (c in after <==> c in cgroups) && (c in cgroups ==> after[c] == cgroups[c])
  {
    if c != leaf && c !in cgroups && c in MakeCgroups(cgroups, leaf, 7) { MissingIsBelowLeaf(cgroups, leaf, 7, c); }
  }

  lemma OneMoreEnters(g: Race, after: Race, who: nat, procs: set<nat>, c: Path)
    requires who in g.racers && g.racers[who].Made?
    requires after.racers == g.racers[who := Entered(g.racers[who].domain, g.racers[who].snapshot, procs)]
    ensures Occupied(after, c) <==> Occupied(g, c) || c == g.racers[who].domain.cgroup
    ensures Population(after, c) == Population(g, c) + if c == g.racers[who].domain.cgroup then procs else {}
    ensures !Occupied(g, c) ==> Population(g, c) == {}
  {
    if i :| HasEntered(g, i) && g.racers[i].domain.cgroup == c { assert HasEntered(after, i) && after.racers[i].domain.cgroup == c; }
    assert HasEntered(after, who);
    if i :| HasEntered(after, i) && after.racers[i].domain.cgroup == c && i != who { assert HasEntered(g, i); }
    var more := if c == g.racers[who].domain.cgroup then procs else {};
    forall pid ensures pid in Population(after, c) <==> pid in Population(g, c) + more {
      if pid in Population(g, c) {
        var i :| i in g.racers && HasEntered(g, i) && g.racers[i].domain.cgroup == c && pid in g.racers[i].procs;
        assert i != who && HasEntered(after, i) && after.racers[i] == g.racers[i];
      }
      if pid in more {
        assert HasEntered(after, who) && after.racers[who].procs == procs;
      }
      if pid in Population(after, c) && pid !in more {
        var i :| i in after.racers && HasEntered(after, i) && after.racers[i].domain.cgroup == c && pid in after.racers[i].procs;
        assert i != who && HasEntered(g, i);
      }
    }
  }

  lemma MakeIsTidy(start: Disk, root: Path, g: Race, m: Move)
    requires Tidy(start, root, g) && m.Make? && m.who in g.racers && g.racers[m.who].Drawn?
    ensures PlacesOk(start, root, Play(g, m)) && UppersOk(Play(g, m)) && LeavesOk(start, Play(g, m))
  {
    MakeKeepsPlaces(start, root, g, m);
    MakeKeepsUppers(start, root, g, m);
    MakeChangesNoEnterer(g, m);
    LeavesKept(start, g, Play(g, m));
  }

  lemma MakeTouches(g: Race, m: Move, dir: Path)
    requires m.Make? && m.who in g.racers && g.racers[m.who].Drawn?
    ensures Touched(Play(g, m), dir) <==> Touched(g, dir) || dir == g.racers[m.who].domain.dir
  {
    var after := Play(g, m);
    if i :| HasMade(g, i) && g.racers[i].domain.dir == dir { assert HasMade(after, i) && after.racers[i].domain.dir == dir; }
    assert HasMade(after, m.who);
    if i :| HasMade(after, i) && after.racers[i].domain.dir == dir && i != m.who { assert HasMade(g, i); }
  }

  lemma MakeKeepsPlaces(start: Disk, root: Path, g: Race, m: Move)
    requires PlacesOk(start, root, g) && m.Make? && m.who in g.racers && g.racers[m.who].Drawn?
    ensures PlacesOk(start, root, Play(g, m))
  {
    var after, d := Play(g, m), g.racers[m.who].domain;
    UpperPath(root, d);
    PrepareKeepsListed(g.disk, root, d, m.snapshot);
    DoMake(g.disk, g.racers, m.who, d, m.snapshot);
    forall i | i in after.racers ensures PlaceOk(start, root, after, i) {
      MakeTouches(g, m, g.racers[i].domain.dir);
      assert PlaceOk(start, root, g, i);
    }
  }

  lemma PrepareKeepsListed(s: Disk, root: Path, d: Domain, snapshot: Option<Tree>)
    requires UppersListed(s, root) && InGeneration(root, d.upper) && d.upper[..|root| + 4] == d.dir
    ensures UppersListed(Prepared(s, d, snapshot), root) && Prepared(s, d, snapshot).entries == s.entries + {d.dir}
  {
  }

  lemma MakeKeepsUppers(start: Disk, root: Path, g: Race, m: Move)
    requires PlacesOk(start, root, g) && UppersOk(g) && m.Make? && m.who in g.racers && g.racers[m.who].Drawn?
    ensures UppersOk(Play(g, m))
  {
    var after := Play(g, m);
    forall i | HasMade(after, i) && Alone(after, i)
      ensures after.racers[i].domain.upper in after.disk.trees
      ensures after.disk.trees[after.racers[i].domain.upper] == Filled(after.racers[i].snapshot)
    {
      if i == m.who { FirstMakerFills(start, root, g, m); } else { OthersKeepUpper(root, g, m, i); }
    }
  }

  lemma FirstMakerFills(start: Disk, root: Path, g: Race, m: Move)
    requires PlacesOk(start, root, g) && m.Make? && m.who in g.racers && g.racers[m.who].Drawn?
    requires Alone(Play(g, m), m.who)
    ensures var s, d := Play(g, m).disk, g.racers[m.who].domain;
            d.upper in s.trees && s.trees[d.upper] == Filled(m.snapshot)
  {
    var d := g.racers[m.who].domain;
    forall j | HasMade(g, j) ensures g.racers[j].domain.dir != d.dir {
      assert HasMade(Play(g, m), j) && Play(g, m).racers[j] == g.racers[j];
    }
    assert !Touched(g, d.dir);
    UpperPath(root, d);
    FreshIsFilled(g.disk, d, m.snapshot);
  }

  lemma FreshIsFilled(s: Disk, d: Domain, snapshot: Option<Tree>)
    requires d.upper !in s.trees
    ensures var after := Prepared(s, d, snapshot);
            d.upper in after.trees && after.trees[d.upper] == Filled(snapshot)
  {
    if snapshot.Some? { CopyTree.MergeIntoEmpty(snapshot.value); }
  }

  lemma OthersKeepUpper(root: Path, g: Race, m: Move, i: nat)
    requires UppersOk(g) && m.Make? && m.who in g.racers && g.racers[m.who].Drawn?
    requires Placed(g.racers[m.who].domain, root) && i != m.who
    requires HasMade(Play(g, m), i) && Alone(Play(g, m), i) && Placed(g.racers[i].domain, root)
    ensures var x := g.racers[i]; var after := Play(g, m);
            after.racers[i] == x && x.domain.upper in after.disk.trees && after.disk.trees[x.domain.upper] == Filled(x.snapshot)
  {
    var after := Play(g, m);
    assert HasMade(g, i) && after.racers[i] == g.racers[i];
    assert HasMade(after, m.who) && after.racers[m.who].domain == g.racers[m.who].domain;
    forall j | j != i && HasMade(g, j) ensures g.racers[j].domain.dir != g.racers[i].domain.dir {
      assert HasMade(after, j) && after.racers[j].domain == g.racers[j].domain;
    }
    DifferentUppers(g.racers[i].domain, g.racers[m.who].domain, root);
  }

  lemma DifferentUppers(d: Domain, e: Domain, root: Path)
    requires Placed(d, root) && Placed(e, root) && d.dir != e.dir
    ensures d.upper != e.upper
  {
    assert d.upper[..|d.dir|] == d.dir && e.upper[..|e.dir|] == e.dir;
  }

  lemma PlayIsTidy(start: Disk, root: Path, g: Race, m: Move)
    requires DiskInv(start, root) && Tidy(start, root, g) && Orderly(g, root, m)
    ensures Tidy(start, root, Play(g, m))
  {
    PlayIsFair(start, g, m);
    if m.Draw? && m.who !in g.racers {
      DrawIsTidy(start, root, g, m);
    } else if m.Make? && m.who in g.racers && g.racers[m.who].Drawn? {
      MakeIsTidy(start, root, g, m);
    } else if m.Enter? && m.who in g.racers && g.racers[m.who].Made? {
      EnterIsTidy(start, root, g, m);
    } else if m.Persist? && m.who in g.racers && g.racers[m.who].Entered? {
      PersistIsTidy(start, root, g, m);
    }
  }

  lemma {:induction false} RacesAreTidy(start: Disk, root: Path, g: Race, ms: seq<Move>)
    requires DiskInv(start, root) && Tidy(start, root, g) && OrderlyRace(g, root, ms)
    ensures Tidy(start, root, PlayAll(g, ms))
    decreases |ms|
  {
    if ms != [] {
      PlayIsTidy(start, root, g, ms[0]);
      RacesAreTidy(start, root, Play(g, ms[0]), ms[1..]);
    }
  }

  // ---- Losing ------------------------------------------------------------------------------

  /** Whoever finishes without winning does so because another one won. */
  lemma LoserIffOtherWon(start: Disk, root: Path, g: Race, i: nat)
    requires DiskInv(start, root) && Tidy(start, root, g) && Done(g, i)
    ensures !g.racers[i].won <==> exists j :: j != i && Winner(g, j, g.racers[i].domain.dir)
  {
    var p := g.racers[i].domain.dir;
    RecordsListed(start, root);
    assert Settled(start, g, i) && p !in start.records;
    if !g.racers[i].won {
      assert HasWinner(g, p);
      var j :| Winner(g, j, p);
      assert j != i;
    } else {
      assert Winner(g, i, p);
    }
  }

  /** A loser shares directory, upper and cgroup with the winner, and its processes are in that cgroup. */
  ghost predicate StaysWith(g: Race, i: nat, j: nat)
    requires Done(g, i) && Done(g, j)
  {
    var mine, theirs := g.racers[i].domain, g.racers[j].domain;
    && mine.dir == theirs.dir && mine.upper == theirs.upper && mine.cgroup == theirs.cgroup
    && theirs.cgroup in g.disk.cgroups && g.racers[i].procs <= g.disk.cgroups[theirs.cgroup].procs
  }

  lemma EnteredIsInside(start: Disk, root: Path, g: Race, i: nat)
    requires DiskInv(start, root) && Tidy(start, root, g) && HasEntered(g, i)
    ensures var c := g.racers[i].domain.cgroup;
            && c in g.disk.cgroups && g.disk.cgroups[c] == Cgroup(Population(g, c), false)
            && g.racers[i].procs <= Population(g, c)
  {
    var c := g.racers[i].domain.cgroup;
    NewLeaf(start, root, g.racers[i].domain);
    assert LeafOk(start, g, c) && Occupied(g, c);
  }

  lemma LoserStays(start: Disk, root: Path, g: Race, i: nat, j: nat)
    requires DiskInv(start, root) && Tidy(start, root, g) && Done(g, i)
    requires Winner(g, j, g.racers[i].domain.dir)
    ensures StaysWith(g, i, j)
  {
    PathsInjective(g.racers[i].domain, g.racers[j].domain, root);
    EnteredIsInside(start, root, g, i);
  }

  /**
   * The headline. From any disk in order, however any number of creates and restores interleave:
   * no record is overwritten; whoever finishes wins or else another launcher has won the same
   * directory; and a loser's processes are then in the winner's cgroup, on the winner's upper.
   */
  lemma RaceOutcome(start: Disk, root: Path, ms: seq<Move>)
    requires DiskInv(start, root) && OrderlyRace(Race(start, map[]), root, ms)
    ensures var g := PlayAll(Race(start, map[]), ms);
            && Fair(start, g)
            && (forall i :: Done(g, i) ==>
                  (!g.racers[i].won <==> exists j :: j != i && Winner(g, j, g.racers[i].domain.dir)))
            && (forall i, j :: Done(g, i) && Winner(g, j, g.racers[i].domain.dir) ==> StaysWith(g, i, j))
  {
    var g := PlayAll(Race(start, map[]), ms);
    TidyAtStart(start, root);
    RacesAreTidy(start, root, Race(start, map[]), ms);
    forall i | Done(g, i)
      ensures !g.racers[i].won <==> exists j :: j != i && Winner(g, j, g.racers[i].domain.dir)
    {
      LoserIffOtherWon(start, root, g, i);
    }
    forall i, j | Done(g, i) && Winner(g, j, g.racers[i].domain.dir) ensures StaysWith(g, i, j) {
      LoserStays(start, root, g, i, j);
    }
  }

  // ---- Having a domain to oneself ----------------------------------------------------------

  /** Upper and cgroup are what an undisturbed create or restore leaves. */
  predicate AsIfUndisturbed(g: Race, i: nat)
    requires HasEntered(g, i)
  {
    var x := g.racers[i];
    && x.domain.upper in g.disk.trees && g.disk.trees[x.domain.upper] == Filled(x.snapshot)
    && x.domain.cgroup in g.disk.cgroups && g.disk.cgroups[x.domain.cgroup] == Cgroup(x.procs, false)
  }

  /** Different launchers start different processes, at least one each. */
  ghost predicate OwnProcesses(g: Race) {
    forall i, j :: HasEntered(g, i) && HasEntered(g, j) && i != j ==> g.racers[i].procs !! g.racers[j].procs && g.racers[j].procs != {}
  }

  /**
   * A launcher that entered its cgroup, winner or not, has the upper and the cgroup of an
   * undisturbed create or restore exactly if nobody else made its directory (when nobody is
   * half-way between making it and entering).
   */
  lemma UndisturbedIffAlone(start: Disk, root: Path, g: Race, i: nat)
    requires DiskInv(start, root) && Tidy(start, root, g) && OwnProcesses(g) && HasEntered(g, i)
    requires forall j :: HasMade(g, j) && g.racers[j].domain.dir == g.racers[i].domain.dir ==> HasEntered(g, j)
    ensures AsIfUndisturbed(g, i) <==> Alone(g, i)
  {
    EnteredIsInside(start, root, g, i);
    if Alone(g, i) {
      PopulationOfOne(root, g, i);
    } else {
      var j :| j != i && HasMade(g, j) && g.racers[j].domain.dir == g.racers[i].domain.dir;
      PathsInjective(g.racers[i].domain, g.racers[j].domain, root);
      EnteredIsInside(start, root, g, j);
      var pid :| pid in g.racers[j].procs;
      assert pid in Population(g, g.racers[i].domain.cgroup) && pid !in g.racers[i].procs;
    }
  }

  lemma PopulationOfOne(root: Path, g: Race, i: nat)
    requires HasEntered(g, i) && Alone(g, i) && forall j :: j in g.racers ==> Placed(g.racers[j].domain, root)
    ensures Population(g, g.racers[i].domain.cgroup) == g.racers[i].procs
  {
    var c := g.racers[i].domain.cgroup;
    forall j | HasEntered(g, j) && g.racers[j].domain.cgroup == c ensures j == i {
      PathsInjective(g.racers[i].domain, g.racers[j].domain, root);
    }
    forall pid ensures pid in Population(g, c) <==> pid in g.racers[i].procs {}
  }

  // ---- A race with a loser -----------------------------------------------------------------

  /** Two launchers take turns, the second drawing before the first has made anything. */
  function Turns(root: Path, episode: string, epoch: U64, h: Host, k: Host, snapshot: Tree, p: set<nat>, q: set<nat>): seq<Move> {
    [ Draw(1, root, episode, epoch, h), Draw(2, root, episode, epoch, k), Make(1, None), Make(2, Some(snapshot)) ]
    + [ Enter(1, p), Enter(2, q), Persist(1), Persist(2) ]
  }

  lemma PlayFour(g: Race, root: Path, a: Move, b: Move, c: Move, d: Move, rest: seq<Move>)
    ensures PlayAll(g, [a, b, c, d] + rest) == PlayAll(Play(Play(Play(Play(g, a), b), c), d), rest)
    ensures OrderlyRace(g, root, [a, b, c, d] + rest) <==>
              && Orderly(g, root, a) && Orderly(Play(g, a), root, b) && Orderly(Play(Play(g, a), b), root, c)
              && Orderly(Play(Play(Play(g, a), b), c), root, d)
              && OrderlyRace(Play(Play(Play(Play(g, a), b), c), d), root, rest)
  {
    PlayCons(g, root, a, [b, c, d] + rest);
    PlayCons(Play(g, a), root, b, [c, d] + rest);
    PlayCons(Play(Play(g, a), b), root, c, [d] + rest);
    PlayCons(Play(Play(Play(g, a), b), c), root, d, rest);
    Associate([a], [b, c, d], rest);
    Associate([b], [c, d], rest);
    Associate([c], [d], rest);
    assert [a] + [b, c, d] == [a, b, c, d] && [b] + [c, d] == [b, c, d] && [c] + [d] == [c, d];
  }

  lemma PlayCons(g: Race, root: Path, m: Move, rest: seq<Move>)
    ensures PlayAll(g, [m] + rest) == PlayAll(Play(g, m), rest)
    ensures OrderlyRace(g, root, [m] + rest) <==> Orderly(g, root, m) && OrderlyRace(Play(g, m), root, rest)
  {
    assert ([m] + rest)[1..] == rest;
  }

  // One phase at a time, from a state given by its parts.

  lemma DoDraw(s: Disk, racers: map<nat, Racer>, i: nat, root: Path, episode: string, epoch: U64, host: Host)
    requires i !in racers
    ensures Play(Race(s, racers), Draw(i, root, episode, epoch, host)) ==
            Race(s, racers[i := Drawn(NewDomain(root, episode, epoch, NextGeneration(s.entries, EpochDir(root, episode, epoch)), host))])
  {
  }

  lemma DoMake(s: Disk, racers: map<nat, Racer>, i: nat, d: Domain, snapshot: Option<Tree>)
    requires i in racers && racers[i] == Drawn(d)
    ensures Play(Race(s, racers), Make(i, snapshot)) == Race(Prepared(s, d, snapshot), racers[i := Made(d, snapshot)])
  {
  }

  lemma DoEnter(s: Disk, racers: map<nat, Racer>, i: nat, d: Domain, snapshot: Option<Tree>, p: set<nat>)
    requires i in racers && racers[i] == Made(d, snapshot)
    ensures Play(Race(s, racers), Enter(i, p)) ==
            Race(s.(cgroups := Joined(s.cgroups, d.cgroup, p)), racers[i := Entered(d, snapshot, p)])
  {
  }

  lemma DoPersist(s: Disk, racers: map<nat, Racer>, i: nat, d: Domain, snapshot: Option<Tree>, p: set<nat>)
    requires i in racers && racers[i] == Entered(d, snapshot, p)
    ensures Play(Race(s, racers), Persist(i)) ==
            if d.dir in s.records then Race(s, racers[i := Finished(d, snapshot, p, false)])
            else Race(s.(records := s.records[d.dir := d]), racers[i := Finished(d, snapshot, p, true)])
  {
  }

  lemma TurnsToMade(start: Disk, root: Path, episode: string, epoch: U64, h: Host, k: Host, snapshot: Tree, d: Domain, e: Domain)
    requires d == NewDomain(root, episode, epoch, NextGeneration(start.entries, EpochDir(root, episode, epoch)), h)
    requires e == NewDomain(root, episode, epoch, NextGeneration(start.entries, EpochDir(root, episode, epoch)), k)
    ensures var g := Play(Play(Race(start, map[]), Draw(1, root, episode, epoch, h)), Draw(2, root, episode, epoch, k));
            && Play(Race(start, map[]), Draw(1, root, episode, epoch, h)).disk == start
            && Play(Play(g, Make(1, None)), Make(2, Some(snapshot))) ==
               Race(Prepared(Prepared(start, d, None), e, Some(snapshot)),
                    map[][1 := Drawn(d)][2 := Drawn(e)][1 := Made(d, None)][2 := Made(e, Some(snapshot))])
  {
    var r: map<nat, Racer> := map[];
    DoDraw(start, r, 1, root, episode, epoch, h);
    DoDraw(start, r[1 := Drawn(d)], 2, root, episode, epoch, k);
    DoMake(start, r[1 := Drawn(d)][2 := Drawn(e)], 1, d, None);
    DoMake(Prepared(start, d, None), r[1 := Drawn(d)][2 := Drawn(e)][1 := Made(d, None)], 2, e, Some(snapshot));
  }

  lemma TurnsToEnd(s: Disk, r: map<nat, Racer>, d: Domain, e: Domain, snapshot: Tree, p: set<nat>, q: set<nat>)
    requires 1 in r && 2 in r && r[1] == Made(d, None) && r[2] == Made(e, Some(snapshot))
    requires d.dir == e.dir && d.cgroup == e.cgroup && d.dir !in s.records
    ensures Play(Play(Play(Play(Race(s, r), Enter(1, p)), Enter(2, q)), Persist(1)), Persist(2)) ==
            Race(s.(cgroups := Joined(Joined(s.cgroups, d.cgroup, p), d.cgroup, q), records := s.records[d.dir := d]),
                 r[1 := Entered(d, None, p)][2 := Entered(e, Some(snapshot), q)]
                  [1 := Finished(d, None, p, true)][2 := Finished(e, Some(snapshot), q, false)])
  {
    var r1 := r[1 := Entered(d, None, p)];
    var r2 := r1[2 := Entered(e, Some(snapshot), q)];
    var r3 := r2[1 := Finished(d, None, p, true)];
    var s1 := s.(cgroups := Joined(s.cgroups, d.cgroup, p));
    var s2 := s1.(cgroups := Joined(s1.cgroups, d.cgroup, q));
    DoEnter(s, r, 1, d, None, p);
    DoEnter(s1, r1, 2, e, Some(snapshot), q);
    DoPersist(s2, r2, 1, d, None, p);
    DoPersist(s2.(records := s.records[d.dir := d]), r3, 2, e, Some(snapshot), q);
  }

  /**
   * Such races exist from every disk in order. A create and a restore that draw at the same
   * time: the create wins, its domain was promised an empty upper, and it holds the loser's
   * snapshot; its cgroup holds the loser's processes besides its own.
   */
  lemma RaceWithLoser(start: Disk, root: Path, episode: string, epoch: U64, h: Host, k: Host, snapshot: Tree,
                      p: set<nat>, q: set<nat>)
    requires DiskInv(start, root) && IsHexId(episode) && HasRoom(start.entries, EpochDir(root, episode, epoch))
    ensures var ms := Turns(root, episode, epoch, h, k, snapshot, p, q);
            var g := PlayAll(Race(start, map[]), ms);
            && OrderlyRace(Race(start, map[]), root, ms)
            && Done(g, 1) && g.racers[1].won && g.racers[1].snapshot == None
            && Done(g, 2) && !g.racers[2].won && g.racers[2].domain.dir == g.racers[1].domain.dir
            && var d := g.racers[1].domain;
               && d.upper in g.disk.trees && g.disk.trees[d.upper] == snapshot
               && d.cgroup in g.disk.cgroups && g.disk.cgroups[d.cgroup].procs == p + q
  {
    var next := NextGeneration(start.entries, EpochDir(root, episode, epoch));
    var d, e := NewDomain(root, episode, epoch, next, h), NewDomain(root, episode, epoch, next, k);
    var g := Race(start, map[]);
    var both := Prepared(Prepared(start, d, None), e, Some(snapshot));
    var r: map<nat, Racer> := map[][1 := Drawn(d)][2 := Drawn(e)][1 := Made(d, None)][2 := Made(e, Some(snapshot))];
    var made := Race(both, r);
    NextGenerationIsFreshIff(start.entries, EpochDir(root, episode, epoch));
    RecordsListed(start, root);
    TurnsToMade(start, root, episode, epoch, h, k, snapshot, d, e);
    TurnsToEnd(both, r, d, e, snapshot, p, q);
    PlayFour(g, root, Draw(1, root, episode, epoch, h), Draw(2, root, episode, epoch, k), Make(1, None), Make(2, Some(snapshot)),
             [Enter(1, p), Enter(2, q), Persist(1), Persist(2)]);
    PlayFour(made, root, Enter(1, p), Enter(2, q), Persist(1), Persist(2), []);
    assert [Enter(1, p), Enter(2, q), Persist(1), Persist(2)] + [] == [Enter(1, p), Enter(2, q), Persist(1), Persist(2)];
    TwoInOne(start, root, d, e, snapshot, p, q);
  }

  /** What the two leave in the upper and in the cgroup. */
  lemma TwoInOne(start: Disk, root: Path, d: Domain, e: Domain, snapshot: Tree, p: set<nat>, q: set<nat>)
    requires DiskInv(start, root) && Placed(d, root) && d.dir !in start.entries && e.upper == d.upper
    ensures var s := Prepared(Prepared(start, d, None), e, Some(snapshot));
            d.upper in s.trees && s.trees[d.upper] == snapshot
    ensures var c := Joined(Joined(start.cgroups, d.cgroup, p), d.cgroup, q);
            d.cgroup in c && c[d.cgroup].procs == p + q
  {
    FreshHasNoUpper(start, root, d);
    NewLeaf(start, root, d);
    CopyTree.MergeIntoEmpty(snapshot);
    JoinedLeaf(start.cgroups, d.cgroup, p, d.cgroup);
    assert {} + p == p;
  }

  // ---- Drawing, and racing alone -----------------------------------------------------------

  /**
   * When a launcher draws the directory of another: exactly if it asks for the same episode and
   * epoch while the other's number is still next in line, that is, while its directory is not made.
   */
  lemma DrawCollidesIff(g: Race, root: Path, m: Move, d: Domain)
    requires m.Draw? && m.who !in g.racers && m.root == root && IsHexId(m.episode) && Placed(d, root)
    requires HasRoom(g.disk.entries, EpochDir(root, m.episode, m.epoch))
    ensures var drawn := Play(g, m).racers[m.who].domain;
            && (drawn.dir == d.dir <==>
                  && m.episode == d.episode && m.epoch == d.epoch
                  && NextInLine(g.disk.entries, EpochDir(root, d.episode, d.epoch), d.generation))
            && (drawn.dir == d.dir ==> d.dir !in g.disk.entries)
            && (drawn.dir == d.dir <==> drawn.cgroup == d.cgroup)
  {
    var drawn := Play(g, m).racers[m.who].domain;
    NextGenerationIff(g.disk.entries, EpochDir(root, m.episode, m.epoch), d.generation);
    NextGenerationIsFreshIff(g.disk.entries, EpochDir(root, m.episode, m.epoch));
    if drawn.dir == d.dir || drawn.cgroup == d.cgroup { PathsInjective(drawn, d, root); }
  }

  /** Undisturbed, the four phases are the create or restore of the sequential model. */
  lemma UndisturbedIsCreate(g: Race, root: Path, i: nat, episode: string, epoch: U64, host: Host,
                            snapshot: Option<Tree>, drawn: Race, made: Race, entered: Race, done: Race)
    requires DiskInv(g.disk, root) && HasRoom(g.disk.entries, EpochDir(root, episode, epoch))
    requires i !in g.racers && host.launch.Ready?
    requires drawn == Play(g, Draw(i, root, episode, epoch, host)) && made == Play(drawn, Make(i, snapshot))
    requires entered == Play(made, Enter(i, host.launch.pids)) && done == Play(entered, Persist(i))
    ensures i in done.racers && done.racers[i].Finished? && done.racers[i].won
    ensures (done.disk, Created(done.racers[i].domain)) == CreateCommon(g.disk, episode, epoch, root, host, snapshot, true)
  {
    var d := drawn.racers[i].domain;
    NextGenerationIsFreshIff(g.disk.entries, EpochDir(root, episode, epoch));
    EntryOfCgroup(root, episode, epoch, d.generation);
    RecordsListed(g.disk, root);
    assert d.cgroup !in g.disk.cgroups && d.dir !in g.disk.records;
    AfterDraw(drawn, i, d, snapshot, host.launch.pids, made, entered, done);
    FreshJoin(g.disk, d, snapshot, host.launch);
  }

  lemma AfterDraw(drawn: Race, i: nat, d: Domain, snapshot: Option<Tree>, procs: set<nat>, made: Race, entered: Race, done: Race)
    requires i in drawn.racers && drawn.racers[i] == Drawn(d) && d.dir !in drawn.disk.records
    requires made == Play(drawn, Make(i, snapshot)) && entered == Play(made, Enter(i, procs))
    requires done == Play(entered, Persist(i))
    ensures i in done.racers && done.racers[i] == Finished(d, snapshot, procs, true)
    ensures done.disk == Prepared(drawn.disk, d, snapshot).(cgroups := Joined(drawn.disk.cgroups, d.cgroup, procs),
                                                           records := drawn.disk.records[d.dir := d])
  {
    assert made.racers[i] == Made(d, snapshot) && entered.racers[i] == Entered(d, snapshot, procs);
    assert made.disk == Prepared(drawn.disk, d, snapshot);
    assert entered.disk == made.disk.(cgroups := Joined(drawn.disk.cgroups, d.cgroup, procs));
  }

  /** Entering a cgroup nobody is in and writing a record nobody has written is a launch. */
  lemma FreshJoin(s: Disk, d: Domain, snapshot: Option<Tree>, launch: Launch)
    requires d.cgroup !in s.cgroups && d.dir !in s.records && launch.Ready?
    ensures var made := Prepared(s, d, snapshot);
            Launched(made, d, launch) ==
            (made.(cgroups := Joined(s.cgroups, d.cgroup, launch.pids), records := s.records[d.dir := d]), Created(d))
  {
    assert {} + launch.pids == launch.pids;
    assert Joined(s.cgroups, d.cgroup, launch.pids) == Attached(s.cgroups, d.cgroup, launch.pids);
  }
}
