/** The conditional object-store adapter: validate, commit, reconcile over a shared store. */
module ObjectAdapter {
  import opened Prelude

  type ObjectId = (Option<string>, Option<string>)
  type Objects = map<ObjectId, string>

  const EMPTY: Objects := map[]

  datatype Effect = Effect(bucket: Option<string>, key: Option<string>, digest: string)
  datatype Target = Target(bucket: Option<string>, keyPrefix: Option<string>)

  datatype Mode = CreatedNow | Idempotent
  datatype CommitReply =
    | Committed(receipt: string, etag: string, mode: Mode)
    | ScopeDenied
    | PreconditionFailed
  datatype Finding = FoundCommitted(receipt: string, etag: string) | NotCommitted | Unknown

  function OrEmpty(s: Option<string>): string { if s.Some? then s.value else "" }

  /** Same bucket, and the key (empty when missing) starts with the trusted prefix. */
  predicate InScope(e: Effect, t: Target) {
    e.bucket == t.bucket && OrEmpty(t.keyPrefix) <= OrEmpty(e.key)
  }

  /** The trusted bucket and the effect's own key. */
  function Object(e: Effect, t: Target): ObjectId { (t.bucket, e.key) }

  function Receipt(id: ObjectId): string { "s3://" + OrEmpty(id.0) + "/" + OrEmpty(id.1) }

  function Get(objects: Objects, id: ObjectId): Option<string> {
    if id in objects then Some(objects[id]) else None
  }

  class TargetStore {
    var objects: Objects

    constructor ()
      ensures objects == map[]
    {
      objects := map[];
    }

    method Put(id: ObjectId, digest: string)
      modifies this
      ensures objects == old(objects)[id := digest]
    {
      objects := objects[id := digest];
    }
  }

  /** Create-if-absent: an existing object is only ever confirmed, never replaced. */
  method Commit(store: TargetStore, e: Effect, t: Target) returns (r: CommitReply)
    modifies store
    ensures r.ScopeDenied? <==> !InScope(e, t)
    ensures r.Committed? <==> InScope(e, t) && Get(store.objects, Object(e, t)) == Some(e.digest)
    ensures r.Committed? ==> r.etag == e.digest && r.receipt == Receipt(Object(e, t))
    ensures r.Committed? ==> (r.mode == CreatedNow <==> Object(e, t) !in old(store.objects))
    ensures store.objects == Effected(old(store.objects), e, t)
    // The same on the strings themselves.
    ensures var key, prefix := if e.key.Some? then e.key.value else "", if t.keyPrefix.Some? then t.keyPrefix.value else "";
            r.ScopeDenied? <==> !(e.bucket == t.bucket && |prefix| <= |key| && key[..|prefix|] == prefix)
    ensures r.Committed? ==>
              && (t.bucket, e.key) in store.objects && store.objects[(t.bucket, e.key)] == e.digest == r.etag
              && r.receipt == "s3://" + (if t.bucket.Some? then t.bucket.value else "") + "/"
                              + (if e.key.Some? then e.key.value else "")
    ensures r.PreconditionFailed? <==>
              !r.ScopeDenied? && (t.bucket, e.key) in old(store.objects) && old(store.objects)[(t.bucket, e.key)] != e.digest
    ensures store.objects == if r.Committed? && r.mode == CreatedNow then old(store.objects)[(t.bucket, e.key) := e.digest]
                             else old(store.objects)
  {
    if !InScope(e, t) {
      return ScopeDenied;
    }
    var id := Object(e, t);
    match Get(store.objects, id) {
      case None =>
        store.Put(id, e.digest);
        return Committed(Receipt(id), e.digest, CreatedNow);
      case Some(digest) =>
        if digest == e.digest {
          return Committed(Receipt(id), digest, Idempotent);
        }
        return PreconditionFailed;
    }
  }

  /** The read-only verdict on an effect whose outcome is not known. */
  function Reconcile(objects: Objects, e: Effect, t: Target): (f: Finding)
    ensures f.FoundCommitted? <==> Get(objects, Object(e, t)) == Some(e.digest)
    ensures f.NotCommitted? <==> Object(e, t) !in objects
    ensures f.FoundCommitted? <==> (t.bucket, e.key) in objects && objects[(t.bucket, e.key)] == e.digest
    ensures f.NotCommitted? <==> (t.bucket, e.key) !in objects
    ensures f.FoundCommitted? ==>
              && f.etag == e.digest
              && f.receipt == "s3://" + (if t.bucket.Some? then t.bucket.value else "") + "/"
                              + (if e.key.Some? then e.key.value else "")
  {
    match Get(objects, Object(e, t))
    case Some(digest) => if digest == e.digest then FoundCommitted(Receipt(Object(e, t)), digest) else Unknown
    case None => NotCommitted
  }

  // ---- Sequential runs --------------------------------------------------------------------

  /** What a commit leaves in the store. */
  function Effected(objects: Objects, e: Effect, t: Target): Objects {
    if InScope(e, t) && Object(e, t) !in objects then objects[Object(e, t) := e.digest] else objects
  }

  /** A commit, a commit whose caller crashed before or after the write, or a reconciliation. */
  datatype Op =
    | DoCommit(e: Effect, t: Target)
    | CrashBeforeWrite(e: Effect, t: Target)
    | CrashAfterWrite(e: Effect, t: Target)
    | DoReconcile(e: Effect, t: Target)

  function After(objects: Objects, op: Op): Objects {
    match op
    case DoCommit(e, t) => Effected(objects, e, t)
    case CrashAfterWrite(e, t) => Effected(objects, e, t)
    case CrashBeforeWrite(_, _) => objects
    case DoReconcile(_, _) => objects
  }

  function AfterAll(objects: Objects, ops: seq<Op>): Objects
    decreases |ops|
  {
    if ops == [] then objects else AfterAll(After(objects, ops[0]), ops[1..])
  }

  /** Some step of the run creates the object with this digest. */
  ghost predicate Wrote(objects: Objects, ops: seq<Op>, id: ObjectId, digest: string)
    decreases |ops|
  {
    ops != [] && (
      || (id !in objects && Get(After(objects, ops[0]), id) == Some(digest))
      || Wrote(After(objects, ops[0]), ops[1..], id, digest))
  }

  /** An object's digest never changes once set, whatever commits, crashes and replays follow. */
  lemma {:induction false} WriteOnce(objects: Objects, ops: seq<Op>, id: ObjectId)
    requires id in objects
    ensures Get(AfterAll(objects, ops), id) == Some(objects[id])
    decreases |ops|
  {
    if ops != [] {
      WriteOnce(After(objects, ops[0]), ops[1..], id);
    }
  }

  /** What each operation does: a commit and a crash after the write create an absent object in scope, the others nothing. */
  lemma OperationIs(objects: Objects, op: Op)
    ensures var id := (op.t.bucket, op.e.key);
            After(objects, op) ==
              if (op.DoCommit? || op.CrashAfterWrite?) && id !in objects
                 && op.e.bucket == op.t.bucket && BeginsWith(op.e.key, op.t.keyPrefix)
              then objects[id := op.e.digest] else objects
  {
  }

  /** The key, empty when missing, begins with the prefix, empty when missing. */
  predicate BeginsWith(key: Option<string>, prefix: Option<string>) {
    var k, p := if key.Some? then key.value else "", if prefix.Some? then prefix.value else "";
    |p| <= |k| && k[..|p|] == p
  }

  /** All operations carry the same trusted target. */
  predicate Trusted(ops: seq<Op>, target: Target) { forall i :: 0 <= i < |ops| ==> ops[i].t == target }

  /** Over every run under a trusted target, what appears lies in its bucket under its prefix. */
  lemma {:induction false} RunStaysInScope(objects: Objects, ops: seq<Op>, target: Target, id: ObjectId)
    requires Trusted(ops, target) && id in AfterAll(objects, ops) && id !in objects
    ensures id.0 == target.bucket && BeginsWith(id.1, target.keyPrefix)
    decreases |ops|
  {
    var next := After(objects, ops[0]);
    if id !in next {
      RunStaysInScope(next, ops[1..], target, id);
    } else {
      assert ops[0].t == target && InScope(ops[0].e, target) && id == (target.bucket, ops[0].e.key);
    }
  }

  /** The store's content is exactly what was written: nothing else, and nothing is lost. */
  lemma {:induction false} HoldsIffWritten(objects: Objects, ops: seq<Op>, id: ObjectId, digest: string)
    ensures Get(AfterAll(objects, ops), id) == Some(digest) <==>
            Get(objects, id) == Some(digest) || (id !in objects && Wrote(objects, ops, id, digest))
    decreases |ops|
  {
    if ops != [] {
      var next := After(objects, ops[0]);
      HoldsIffWritten(next, ops[1..], id, digest);
      if id in next {
        NotWrittenTwice(next, ops[1..], id, digest);
      }
    }
  }

  lemma {:induction false} NotWrittenTwice(objects: Objects, ops: seq<Op>, id: ObjectId, digest: string)
    requires id in objects
    ensures !Wrote(objects, ops, id, digest)
    decreases |ops|
  {
    if ops != [] {
      NotWrittenTwice(After(objects, ops[0]), ops[1..], id, digest);
    }
  }

  /** The run, started on an empty store, wrote this digest to the object. */
  ghost predicate History(ops: seq<Op>, id: ObjectId, digest: string) {
    Wrote(EMPTY, ops, id, digest)
  }

  /**
   * Reconciliation after any run from an empty store: committed exactly when this digest was
   * written, not committed exactly when nothing was, unknown exactly when another digest was.
   */
  lemma ReconcileTellsHistory(ops: seq<Op>, e: Effect, t: Target)
    ensures var id, f := Object(e, t), Reconcile(AfterAll(EMPTY, ops), e, t);
            && (f.FoundCommitted? <==> History(ops, id, e.digest))
            && (f.NotCommitted? <==> forall d :: !History(ops, id, d))
            && (f.Unknown? <==> exists d :: d != e.digest && History(ops, id, d))
  {
    var id, objects := Object(e, t), AfterAll(EMPTY, ops);
    forall d ensures Get(objects, id) == Some(d) <==> History(ops, id, d) {
      HoldsIffWritten(EMPTY, ops, id, d);
    }
    if id in objects {
      assert History(ops, id, objects[id]);
    }
  }

  /** A commit, replayed after any run, succeeds again without touching the store. */
  lemma CommitIsIdempotent(objects: Objects, e: Effect, t: Target, ops: seq<Op>)
    requires InScope(e, t) && Get(Effected(objects, e, t), Object(e, t)) == Some(e.digest)
    ensures var later := AfterAll(Effected(objects, e, t), ops);
            && Effected(later, e, t) == later
            && Get(later, Object(e, t)) == Some(e.digest)
            && Reconcile(later, e, t).FoundCommitted?
  {
    WriteOnce(Effected(objects, e, t), ops, Object(e, t));
  }

  // ---- Interleaved commits ----------------------------------------------------------------
  // The read and the write of one commit are separate store calls. A writer that has read an
  // absent object and not yet written is pending.

  datatype Shared = Shared(objects: Objects, pending: map<nat, (ObjectId, string)>)

  datatype Move =
    | Begin(writer: nat, e: Effect, t: Target)
    | Finish(writer: nat)
    | Abandon(writer: nat)

  function Moved(s: Shared, m: Move): Shared {
    match m
    case Begin(w, e, t) =>
      if w !in s.pending && InScope(e, t) && Object(e, t) !in s.objects
      then s.(pending := s.pending[w := (Object(e, t), e.digest)]) else s
    case Finish(w) =>
      if w in s.pending
      then Shared(s.objects[s.pending[w].0 := s.pending[w].1], s.pending - {w}) else s
    case Abandon(w) => s.(pending := s.pending - {w})
  }

  /** Without anybody in between, reading and writing make up the commit of the sequential model. */
  lemma UndisturbedIsCommit(s: Shared, w: nat, e: Effect, t: Target)
    requires w !in s.pending
    ensures Moved(Moved(s, Begin(w, e, t)), Finish(w)) == Shared(Effected(s.objects, e, t), s.pending)
    ensures Moved(Moved(s, Begin(w, e, t)), Abandon(w)) == s
  {
    if InScope(e, t) && Object(e, t) !in s.objects {
      assert s.pending[w := (Object(e, t), e.digest)] - {w} == s.pending;
    } else {
      assert s.pending - {w} == s.pending;
    }
  }

  /** The move replaces a digest by a different one. */
  predicate Overwrites(s: Shared, m: Move) {
    m.Finish? && m.writer in s.pending
    && s.pending[m.writer].0 in s.objects && s.objects[s.pending[m.writer].0] != s.pending[m.writer].1
  }

  ghost predicate RunOverwrites(s: Shared, moves: seq<Move>)
    decreases |moves|
  {
    moves != [] && (Overwrites(s, moves[0]) || RunOverwrites(Moved(s, moves[0]), moves[1..]))
  }

  /** What a caller can check before it starts: nobody is writing another digest there. */
  ghost predicate Uncontended(s: Shared, m: Move) {
    m.Begin? && m.writer !in s.pending && InScope(m.e, m.t) && Object(m.e, m.t) !in s.objects ==>
      forall w :: w in s.pending && s.pending[w].0 == Object(m.e, m.t) ==> s.pending[w].1 == m.e.digest
  }

  ghost predicate AllUncontended(s: Shared, moves: seq<Move>)
    decreases |moves|
  {
    moves == [] || (Uncontended(s, moves[0]) && AllUncontended(Moved(s, moves[0]), moves[1..]))
  }

  /** Pending writers agree with each other and with the store. */
  ghost predicate Agreed(s: Shared) {
    && (forall v, w :: v in s.pending && w in s.pending && s.pending[v].0 == s.pending[w].0 ==>
          s.pending[v].1 == s.pending[w].1)
    && (forall w :: w in s.pending && s.pending[w].0 in s.objects ==> s.objects[s.pending[w].0] == s.pending[w].1)
  }

  lemma {:induction false} UncontendedRunsNeverOverwrite(s: Shared, moves: seq<Move>)
    requires Agreed(s) && AllUncontended(s, moves)
    ensures !RunOverwrites(s, moves)
    decreases |moves|
  {
    if moves != [] {
      assert Agreed(Moved(s, moves[0]));
      UncontendedRunsNeverOverwrite(Moved(s, moves[0]), moves[1..]);
    }
  }

  /** From an agreed state a contended start is exactly what makes an overwrite possible. */
  lemma OverwriteNeedsContention(s: Shared, m: Move)
    requires Agreed(s)
    ensures Uncontended(s, m) <==>
            forall moves :: AllUncontended(Moved(s, m), moves) ==> !RunOverwrites(s, [m] + moves)
  {
    if Uncontended(s, m) {
      forall moves | AllUncontended(Moved(s, m), moves)
        ensures !RunOverwrites(s, [m] + moves)
      {
        assert ([m] + moves)[1..] == moves;
        UncontendedRunsNeverOverwrite(s, [m] + moves);
      }
    } else {
      var w :| w in s.pending && s.pending[w].0 == Object(m.e, m.t) && s.pending[w].1 != m.e.digest;
      var next := Moved(s, m);
      var first, second := Finish(w), Finish(m.writer);
      var third := Moved(next, first);
      assert w != m.writer && Overwrites(third, second);
      assert RunOverwrites(third, [second]) && AllUncontended(third, [second]);
      assert [first, second][1..] == [second];
      assert RunOverwrites(next, [first, second]) && AllUncontended(next, [first, second]);
      assert ([m] + [first, second])[1..] == [first, second];
      assert RunOverwrites(s, [m] + [first, second]);
    }
  }
}
