/** The Python worker client's chunk reassembly, and the slicing rule of the server it talks to. */
module WorkerClient {
  import opened Prelude

  /** One decoded `fetch_response` result; JSON null is `None`. */
  datatype Chunk = Chunk(data: Bytes, bytes: int, offset: int, bodyDigest: string,
                         totalBytes: Option<int>, eof: bool)

  datatype FetchError =
    | ContractViolated | MetadataChanged | EmptyChunk | VerificationFailed | ConnectionLost

  /** What a server answers to a request for an offset; it may answer each round differently. */
  type Server = (nat, nat) -> Chunk

  type Hash = Bytes -> string

  /** The data of a list of chunks, in order. */
  function Body(chunks: seq<Chunk>): Bytes {
    if chunks == [] then [] else Body(chunks[..|chunks| - 1]) + chunks[|chunks| - 1].data
  }

  /** The chunks are what the server answers when each request asks for the running offset. */
  ghost predicate Served(server: Server, chunks: seq<Chunk>) {
    forall i :: 0 <= i < |chunks| ==> ServedAt(server, chunks, i)
  }

  ghost predicate ServedAt(server: Server, chunks: seq<Chunk>, i: nat)
    requires i < |chunks|
  {
    chunks[i] == server(i, |Body(chunks[..i])|)
  }

  function LastDigest(chunks: seq<Chunk>): string {
    if chunks == [] then "" else chunks[|chunks| - 1].bodyDigest
  }

  function LastTotal(chunks: seq<Chunk>): Option<int> {
    if chunks == [] then None else chunks[|chunks| - 1].totalBytes
  }

  /** A chunk follows a list: right length, right offset, and announced metadata never changes. */
  ghost predicate Follows(seen: seq<Chunk>, c: Chunk) {
    && c.bytes == |c.data| && c.offset == |Body(seen)|
    && (LastDigest(seen) != "" ==> c.bodyDigest == LastDigest(seen))
    && (LastTotal(seen).Some? ==> c.totalBytes == LastTotal(seen))
  }

  /** A list of non-empty, non-final chunks, each following the ones before it. */
  ghost predicate Accepted(chunks: seq<Chunk>) {
    forall i :: 0 <= i < |chunks| ==> AcceptedAt(chunks, i)
  }

  ghost predicate AcceptedAt(chunks: seq<Chunk>, i: nat)
    requires i < |chunks|
  {
    Follows(chunks[..i], chunks[i]) && !chunks[i].eof && chunks[i].data != []
  }

  /** The final chunk's digest and length describe the whole body. */
  ghost predicate Describes(hash: Hash, c: Chunk, body: Bytes) {
    c.eof && c.bodyDigest == hash(body) && c.totalBytes == Some(|body|)
  }

  /** What a caller may rely on after a successful fetch. */
  ghost predicate Verified(hash: Hash, chunks: seq<Chunk>, body: Bytes) {
    && chunks != []
    && Accepted(chunks[..|chunks| - 1])
    && Follows(chunks[..|chunks| - 1], chunks[|chunks| - 1])
    && Describes(hash, chunks[|chunks| - 1], body)
    && body == Body(chunks)
  }

  /** The data of the first `i` chunks. */
  function Pieces(chunks: seq<Chunk>): (p: seq<Bytes>)
    ensures |p| == |chunks|
  {
    seq(|chunks|, i requires 0 <= i < |chunks| => chunks[i].data)
  }

  lemma {:induction false} BodyIsConcat(chunks: seq<Chunk>)
    ensures Body(chunks) == Concat(Pieces(chunks))
  {
    if chunks == [] {
      assert Pieces(chunks) == [];
    } else {
      var n := |chunks| - 1;
      BodyIsConcat(chunks[..n]);
      assert Pieces(chunks) == Pieces(chunks[..n]) + [chunks[n].data];
      ConcatAppend(Pieces(chunks[..n]), [chunks[n].data]);
      assert Concat([chunks[n].data]) == chunks[n].data + [];
    }
  }

  /** Length and offset are right, and what the previous chunk announced is still announced. */
  ghost predicate Sound(chunks: seq<Chunk>, i: nat)
    requires i < |chunks|
  {
    && chunks[i].bytes == |chunks[i].data|
    && chunks[i].offset == |Concat(Pieces(chunks[..i]))|
    && (i > 0 && chunks[i - 1].bodyDigest != "" ==> chunks[i].bodyDigest == chunks[i - 1].bodyDigest)
    && (i > 0 && chunks[i - 1].totalBytes.Some? ==> chunks[i].totalBytes == chunks[i - 1].totalBytes)
  }

  /**
   * A verified list, chunk by chunk: sound chunks, all but the last non-empty without end
   * marker, the last with end marker, digest and length of what they all add up to.
   */
  lemma VerifiedIff(hash: Hash, chunks: seq<Chunk>, body: Bytes)
    ensures Verified(hash, chunks, body) <==>
              && chunks != [] && body == Concat(Pieces(chunks))
              && Middle(chunks, |chunks| - 1) && Sound(chunks, |chunks| - 1)
              && var last := chunks[|chunks| - 1];
                 last.eof && last.bodyDigest == hash(body) && last.totalBytes == Some(|body|)
  {
    BodyIsConcat(chunks);
    if chunks != [] {
      var last := |chunks| - 1;
      SoundIffFollows(chunks, last);
      AcceptedIffSound(chunks, chunks[..last]);
    }
  }

  /** Every chunk before the last: sound, without end marker, not empty. */
  ghost predicate Middle(chunks: seq<Chunk>, n: nat)
    requires n <= |chunks|
  {
    forall i :: 0 <= i < n ==> Sound(chunks, i) && !chunks[i].eof && chunks[i].data != []
  }

  lemma AcceptedIffSound(chunks: seq<Chunk>, front: seq<Chunk>)
    requires chunks != [] && front == chunks[..|chunks| - 1]
    ensures Accepted(front) <==> Middle(chunks, |front|)
  {
    forall i | 0 <= i < |front|
      ensures AcceptedAt(front, i) <==> Sound(chunks, i) && !chunks[i].eof && chunks[i].data != []
    {
      SoundIffFollows(chunks, i);
      PrefixOfPrefix(chunks, i, |front|);
    }
  }

  lemma SoundIffFollows(chunks: seq<Chunk>, i: nat)
    requires i < |chunks|
    ensures Sound(chunks, i) <==> Follows(chunks[..i], chunks[i])
  {
    BodyIsConcat(chunks[..i]);
    if i > 0 { assert chunks[..i][i - 1] == chunks[i - 1]; }
  }

  /** Same server, same requests: of two served lists one is a prefix of the other. */
  lemma {:induction false} ServedAgree(server: Server, a: seq<Chunk>, b: seq<Chunk>)
    requires Served(server, a) && Served(server, b) && |a| <= |b|
    ensures a == b[..|a|]
  {
    if a != [] {
      var n := |a| - 1;
      ServedPrefix(server, a, n);
      ServedAgree(server, a[..n], b);
      assert ServedAt(server, a, n) && ServedAt(server, b, n);
      assert b[..|a|] == b[..n] + [b[n]] && a == a[..n] + [a[n]];
    }
  }

  lemma ServedPrefix(server: Server, a: seq<Chunk>, n: nat)
    requires Served(server, a) && n <= |a|
    ensures Served(server, a[..n])
  {
    forall i | 0 <= i < n ensures ServedAt(server, a[..n], i) {
      assert ServedAt(server, a, i) && a[..n][..i] == a[..i];
    }
  }

  lemma ServedSnoc(server: Server, a: seq<Chunk>)
    requires Served(server, a)
    ensures var next := a + [server(|a|, |Body(a)|)];
            Served(server, next) && Body(next) == Body(a) + next[|a|].data
  {
    var next := a + [server(|a|, |Body(a)|)];
    forall i | 0 <= i < |next| ensures ServedAt(server, next, i) {
      if i < |a| { assert ServedAt(server, a, i) && next[..i] == a[..i]; } else { assert next[..i] == a; }
    }
    assert next[..|a|] == a;
  }

  /** A verified list cannot end inside a list without end marker, so it runs past it. */
  lemma VerifiedRunsPast(hash: Hash, server: Server, seen: seq<Chunk>, chunks: seq<Chunk>, body: Bytes)
    requires Served(server, seen) && Served(server, chunks) && Verified(hash, chunks, body)
    requires Accepted(seen)
    ensures |seen| < |chunks| && seen == chunks[..|seen|]
  {
    if |chunks| <= |seen| {
      assert AcceptedAt(seen, |chunks| - 1);
      ServedAgree(server, chunks, seen);
    } else {
      ServedAgree(server, seen, chunks);
    }
  }

  lemma AcceptedSnoc(seen: seq<Chunk>, c: Chunk)
    requires Accepted(seen) && Follows(seen, c) && !c.eof && c.data != []
    ensures Accepted(seen + [c])
  {
    var next := seen + [c];
    forall i | 0 <= i < |next| ensures AcceptedAt(next, i) {
      if i < |seen| { assert AcceptedAt(seen, i) && next[..i] == seen[..i]; } else { assert next[..i] == seen; }
    }
  }

  lemma VerifiedSnoc(hash: Hash, seen: seq<Chunk>, c: Chunk)
    requires Accepted(seen) && Follows(seen, c) && Describes(hash, c, Body(seen) + c.data)
    ensures Verified(hash, seen + [c], Body(seen) + c.data)
  {
    assert (seen + [c])[..|seen|] == seen;
  }

  lemma MiddleChunk(hash: Hash, chunks: seq<Chunk>, body: Bytes, n: nat)
    requires Verified(hash, chunks, body) && n < |chunks| - 1
    ensures Follows(chunks[..n], chunks[n]) && !chunks[n].eof && chunks[n].data != []
  {
    assert AcceptedAt(chunks[..|chunks| - 1], n);
    PrefixOfPrefix(chunks, n, |chunks| - 1);
  }

  /** A round the loop rejects is one that no verified list contains. */
  lemma RejectedRound(hash: Hash, server: Server, seen: seq<Chunk>, chunks: seq<Chunk>, body: Bytes)
    requires Served(server, seen) && Accepted(seen)
    requires Served(server, chunks) && Verified(hash, chunks, body)
    ensures var c := server(|seen|, |Body(seen)|);
            && Follows(seen, c)
            && (c.eof ==> Describes(hash, c, Body(seen) + c.data))
            && (!c.eof ==> c.data != [])
  {
    VerifiedRunsPast(hash, server, seen, chunks, body);
    assert ServedAt(server, chunks, |seen|);
    if |seen| < |chunks| - 1 {
      MiddleChunk(hash, chunks, body, |seen|);
    }
  }

  lemma PrefixOfPrefix(chunks: seq<Chunk>, n: nat, m: nat)
    requires n <= m <= |chunks|
    ensures chunks[..m][..n] == chunks[..n]
  {
  }

  /** What each error says about the answer to the request after the accepted ones, checks in this order. */
  ghost predicate Blames(hash: Hash, server: Server, answers: nat, seen: seq<Chunk>, error: FetchError) {
    var c := server(|seen|, |Body(seen)|);
    var misplaced := c.bytes != |c.data| || c.offset != |Body(seen)|;
    var changed := (LastDigest(seen) != "" && c.bodyDigest != LastDigest(seen))
                   || (LastTotal(seen).Some? && c.totalBytes != LastTotal(seen));
    var unfit := c.bodyDigest != hash(Body(seen) + c.data) || c.totalBytes != Some(|Body(seen)| + |c.data|);
    && Served(server, seen) && Accepted(seen) && |seen| <= answers
    && (error.ConnectionLost? <==> |seen| == answers)
    && (error.ContractViolated? ==> misplaced)
    && (error.MetadataChanged? ==> !misplaced && changed)
    && (error.VerificationFailed? ==> !misplaced && !changed && c.eof && unfit)
    && (error.EmptyChunk? ==> !misplaced && !changed && !c.eof && c.data == [])
  }

  /**
   * The client loop against any server that hangs up after `answers` rounds. It succeeds
   * exactly when the server's own answers form a verified list. (`expected_digest` starts
   * as None, which is falsy like the empty string.)
   */
  method FetchResponse(hash: Hash, server: Server, answers: nat)
    returns (r: Result<Bytes, FetchError>, ghost seen: seq<Chunk>)
    ensures r.Ok? ==> |seen| <= answers && Served(server, seen) && Verified(hash, seen, r.value)
    ensures r.Err? ==> forall chunks, body :: Served(server, chunks) && |chunks| <= answers ==>
              !Verified(hash, chunks, body)
    ensures r.Err? ==> Blames(hash, server, answers, seen, r.error)
  {
    var body: Bytes := [];
    var expected, total := "", None;
    var round := 0;
    seen := [];
    while round < answers
      invariant |seen| == round <= answers && Served(server, seen) && Accepted(seen)
      invariant body == Body(seen) && expected == LastDigest(seen) && total == LastTotal(seen)
    {
      var result := server(round, |body|);
      forall chunks, b | Served(server, chunks) && Verified(hash, chunks, b)
        ensures Follows(seen, result) && (!result.eof ==> result.data != [])
        ensures result.eof ==> Describes(hash, result, body + result.data)
      {
        RejectedRound(hash, server, seen, chunks, b);
      }
      if |result.data| != result.bytes || result.offset != |body| {
        return Err(ContractViolated), seen;
      }
      expected := if expected != "" then expected else result.bodyDigest;
      total := if total != None then total else result.totalBytes;
      if result.bodyDigest != expected || result.totalBytes != total {
        return Err(MetadataChanged), seen;
      }
      body := body + result.data;
      ServedSnoc(server, seen);
      if result.eof {
        if Some(|body|) != total || hash(body) != expected {
          return Err(VerificationFailed), seen;
        }
        VerifiedSnoc(hash, seen, result);
        return Ok(body), seen + [result];
      }
      if result.data == [] {
        return Err(EmptyChunk), seen;
      }
      AcceptedSnoc(seen, result);
      seen := seen + [result];
      round := round + 1;
    }
    forall chunks, b | Served(server, chunks) && |chunks| <= answers ensures !Verified(hash, chunks, b) {
      if Verified(hash, chunks, b) { VerifiedRunsPast(hash, server, seen, chunks, b); }
    }
    return Err(ConnectionLost), seen;
  }

  // ---- The broker's side ------------------------------------------------------------------

  function Clamp(v: int, low: int, high: int): int { Min(Max(v, low), high) }

  /** `fetch_response` in the effect socket: offset and limit are clamped, never refused. */
  function Slice(hash: Hash, body: Bytes, offset: int, limit: int): Chunk {
    var off := Clamp(offset, 0, |body|);
    var data := body[off..off + Min(Clamp(limit, 1, 524_288), |body| - off)];
    Chunk(data, |data|, off, hash(body), Some(|body|), off + |data| >= |body|)
  }

  function Slicing(hash: Hash, body: Bytes, limit: int): Server {
    (round, offset) => Slice(hash, body, offset, limit)
  }

  /** The answers a client that keeps asking for the running offset collects. */
  function SlicesFrom(hash: Hash, body: Bytes, limit: int, offset: nat): seq<Chunk>
    requires offset <= |body|
    decreases |body| - offset
  {
    var c := Slice(hash, body, offset, limit);
    if c.eof then [c] else [c] + SlicesFrom(hash, body, limit, offset + |c.data|)
  }

  /** The rounds from an offset on: one, plus one for every full slice that is not the last. */
  function Rounds(n: nat, slice: nat): (k: nat)
    requires slice > 0
  {
    if n <= slice then 1 else 1 + Rounds(n - slice, slice)
  }

  lemma {:induction false} RoundsIsCeiling(n: nat, slice: nat)
    requires slice > 0
    ensures Rounds(n, slice) == Max(1, (n + slice - 1) / slice)
  {
    if n <= slice {
      if n == 0 {
        DivModUnique(slice - 1, slice, 0, slice - 1);
      } else {
        DivModUnique(n + slice - 1, slice, 1, n - 1);
      }
    } else {
      RoundsIsCeiling(n - slice, slice);
      var q := (n - 1) / slice;
      DivModUnique(n + slice - 1, slice, q + 1, (n - 1) % slice);
    }
  }

  /** Any offset and limit: what is out of range is moved to the nearest end, and the end is marked when reached. */
  lemma SliceIs(hash: Hash, body: Bytes, offset: int, limit: int)
    ensures var c := Slice(hash, body, offset, limit);
            var low := if offset < 0 then 0 else if offset > |body| then |body| else offset;
            var size := if limit < 1 then 1 else if limit > 524_288 then 524_288 else limit;
            var high := if low + size > |body| then |body| else low + size;
            && c.data == body[low..high] && c.bytes == high - low && c.offset == low
            && c.bodyDigest == hash(body) && c.totalBytes == Some(|body|) && (c.eof <==> high == |body|)
  {
  }

  lemma SliceAt(hash: Hash, body: Bytes, limit: int, offset: nat)
    requires offset <= |body|
    ensures var c, slice := Slice(hash, body, offset, limit), Clamp(limit, 1, 524_288);
            && c.offset == offset && c.bytes == |c.data|
            && c.bodyDigest == hash(body) && c.totalBytes == Some(|body|)
            && body[..offset] + c.data == body[..offset + |c.data|]
            && |c.data| == Min(slice, |body| - offset)
            && (c.eof <==> |body| - offset <= slice)
  {
  }

  /** What was announced so far, if anything, is this body's digest and length. */
  predicate Announces(hash: Hash, seen: seq<Chunk>, body: Bytes) {
    (LastDigest(seen) == "" || LastDigest(seen) == hash(body)) && (LastTotal(seen) == None || LastTotal(seen) == Some(|body|))
  }

  lemma SliceFollows(hash: Hash, body: Bytes, limit: int, offset: nat, seen: seq<Chunk>)
    requires offset <= |body| && Body(seen) == body[..offset] && Announces(hash, seen, body)
    ensures var c := Slice(hash, body, offset, limit);
            && Follows(seen, c) && Announces(hash, seen + [c], body)
            && Body(seen + [c]) == body[..offset + |c.data|]
            && (c.eof ==> offset + |c.data| == |body| && Describes(hash, c, body))
            && (!c.eof ==> c.data != [])
  {
    var c := Slice(hash, body, offset, limit);
    SliceAt(hash, body, limit, offset);
    assert (seen + [c])[..|seen|] == seen;
  }

  /** The client is half-way through: it has collected this server's slices of a prefix of the body. */
  ghost predicate Underway(hash: Hash, server: Server, body: Bytes, offset: nat, seen: seq<Chunk>)
    requires offset <= |body|
  {
    Served(server, seen) && Accepted(seen) && Body(seen) == body[..offset] && Announces(hash, seen, body)
  }

  lemma SliceExtends(hash: Hash, server: Server, body: Bytes, limit: int, offset: nat, seen: seq<Chunk>)
    requires offset <= |body| && server == Slicing(hash, body, limit)
    requires Underway(hash, server, body, offset, seen)
    ensures var c := Slice(hash, body, offset, limit);
            && Served(server, seen + [c])
            && (c.eof ==> Verified(hash, seen + [c], body))
            && (!c.eof ==> c.data != [] && offset + |c.data| <= |body|
                           && Underway(hash, server, body, offset + |c.data|, seen + [c]))
  {
    var c := Slice(hash, body, offset, limit);
    SliceFollows(hash, body, limit, offset, seen);
    assert server(|seen|, |Body(seen)|) == c;
    ServedSnoc(server, seen);
    if c.eof {
      assert body[..offset + |c.data|] == body;
      VerifiedSnoc(hash, seen, c);
    } else {
      AcceptedSnoc(seen, c);
    }
  }

  lemma {:induction false} SlicesExtend(hash: Hash, server: Server, body: Bytes, limit: int, offset: nat,
                                        seen: seq<Chunk>, all: seq<Chunk>)
    requires offset <= |body| && server == Slicing(hash, body, limit)
    requires Underway(hash, server, body, offset, seen)
    requires all == seen + SlicesFrom(hash, body, limit, offset)
    ensures Served(server, all) && Verified(hash, all, body)
    decreases |body| - offset
  {
    var c := Slice(hash, body, offset, limit);
    SliceExtends(hash, server, body, limit, offset, seen);
    if !c.eof {
      Associate(seen, [c], SlicesFrom(hash, body, limit, offset + |c.data|));
      SlicesExtend(hash, server, body, limit, offset + |c.data|, seen + [c], all);
    }
  }

  lemma {:induction false} SlicesCount(hash: Hash, body: Bytes, limit: int, offset: nat)
    requires offset <= |body|
    ensures |SlicesFrom(hash, body, limit, offset)| == Rounds(|body| - offset, Clamp(limit, 1, 524_288))
    decreases |body| - offset
  {
    var c := Slice(hash, body, offset, limit);
    SliceAt(hash, body, limit, offset);
    if !c.eof { SlicesCount(hash, body, limit, offset + |c.data|); }
  }

  /** A server has at most one verified list of answers. */
  lemma VerifiedIsUnique(hash: Hash, server: Server, a: seq<Chunk>, x: Bytes, b: seq<Chunk>, y: Bytes)
    requires Served(server, a) && Verified(hash, a, x) && Served(server, b) && Verified(hash, b, y)
    ensures a == b && x == y
  {
    ServedPrefix(server, a, |a| - 1);
    ServedPrefix(server, b, |b| - 1);
    VerifiedRunsPast(hash, server, a[..|a| - 1], b, y);
    VerifiedRunsPast(hash, server, b[..|b| - 1], a, x);
    ServedAgree(server, a, b);
  }

  lemma BrokerAnswers(hash: Hash, server: Server, body: Bytes, limit: int, all: seq<Chunk>)
    requires server == Slicing(hash, body, limit) && all == SlicesFrom(hash, body, limit, 0)
    ensures Served(server, all) && Verified(hash, all, body)
    ensures |all| == Rounds(|body|, Clamp(limit, 1, 524_288))
  {
    assert [] + all == all;
    SlicesExtend(hash, server, body, limit, 0, [], all);
    SlicesCount(hash, body, limit, 0);
  }

  /** For every body and every requested chunk size the client gets exactly the body back. */
  method FetchFromBroker(hash: Hash, body: Bytes, limit: int, answers: nat)
    returns (r: Result<Bytes, FetchError>, ghost seen: seq<Chunk>)
    requires answers >= Rounds(|body|, if limit < 1 then 1 else if limit > 524_288 then 524_288 else limit)
    ensures r == Ok(body)
    ensures |seen| == Rounds(|body|, if limit < 1 then 1 else if limit > 524_288 then 524_288 else limit)
  {
    var server := Slicing(hash, body, limit);
    ghost var all := SlicesFrom(hash, body, limit, 0);
    BrokerAnswers(hash, server, body, limit, all);
    r, seen := FetchResponse(hash, server, answers);
    assert r.Ok?;
    VerifiedIsUnique(hash, server, seen, r.value, all, body);
  }

  // ---- What the metadata check does not settle ---------------------------------------------

  lemma ChunkFollows(hash: Hash, chunks: seq<Chunk>, body: Bytes, i: nat)
    requires Verified(hash, chunks, body) && i < |chunks|
    ensures Follows(chunks[..i], chunks[i])
  {
    if i < |chunks| - 1 { MiddleChunk(hash, chunks, body, i); }
  }

  /** Once announced, digest and length stay what they are to the end. */
  lemma {:induction false} AnnouncedIsFinal(hash: Hash, chunks: seq<Chunk>, body: Bytes, i: nat)
    requires Verified(hash, chunks, body) && i < |chunks|
    ensures chunks[i].bodyDigest != "" ==> chunks[i].bodyDigest == hash(body)
    ensures chunks[i].totalBytes.Some? ==> chunks[i].totalBytes == Some(|body|)
    decreases |chunks| - i
  {
    if i < |chunks| - 1 {
      AnnouncedIsFinal(hash, chunks, body, i + 1);
      ChunkFollows(hash, chunks, body, i + 1);
      assert chunks[..i + 1][i] == chunks[i];
    }
  }

  /** The first `i` chunks announce only if the first one does. */
  lemma {:induction false} FirstAnnounces(hash: Hash, chunks: seq<Chunk>, body: Bytes, i: nat)
    requires Verified(hash, chunks, body) && i < |chunks|
    ensures chunks[0].bodyDigest != "" ==> chunks[i].bodyDigest == chunks[0].bodyDigest
    ensures chunks[0].totalBytes.Some? ==> chunks[i].totalBytes == chunks[0].totalBytes
  {
    if i > 0 {
      FirstAnnounces(hash, chunks, body, i - 1);
      ChunkFollows(hash, chunks, body, i);
      assert chunks[..i][i - 1] == chunks[i - 1];
    }
  }

  /**
   * In a verified list every chunk carries the body's digest exactly if the first one is not
   * blank, and the body's length exactly if the first one is not null: the falsy test and the
   * null test leave that gap and no other.
   */
  lemma MetadataConstantIff(hash: Hash, chunks: seq<Chunk>, body: Bytes)
    requires Verified(hash, chunks, body)
    ensures hash(body) != "" ==>
              ((forall i :: 0 <= i < |chunks| ==> chunks[i].bodyDigest == hash(body)) <==> chunks[0].bodyDigest != "")
    ensures (forall i :: 0 <= i < |chunks| ==> chunks[i].totalBytes == Some(|body|)) <==> chunks[0].totalBytes.Some?
  {
    AnnouncedIsFinal(hash, chunks, body, 0);
    forall i | 0 <= i < |chunks|
      ensures chunks[0].bodyDigest != "" ==> chunks[i].bodyDigest == chunks[0].bodyDigest
      ensures chunks[0].totalBytes.Some? ==> chunks[i].totalBytes == chunks[0].totalBytes
    {
      FirstAnnounces(hash, chunks, body, i);
    }
  }

  /** The same list with digest and length left out of its first `n` chunks. */
  function Blanked(chunks: seq<Chunk>, n: nat): (b: seq<Chunk>)
    ensures |b| == |chunks|
  {
    seq(|chunks|, i requires 0 <= i < |chunks| =>
      if i < n then chunks[i].(bodyDigest := "", totalBytes := None) else chunks[i])
  }

  lemma {:induction false} BlankedBody(chunks: seq<Chunk>, n: nat, i: nat)
    requires i <= |chunks|
    ensures Body(Blanked(chunks, n)[..i]) == Body(chunks[..i])
  {
    if i > 0 {
      BlankedBody(chunks, n, i - 1);
      assert chunks[..i][..i - 1] == chunks[..i - 1];
      assert Blanked(chunks, n)[..i][..i - 1] == Blanked(chunks, n)[..i - 1];
      assert Blanked(chunks, n)[i - 1].data == chunks[i - 1].data;
    }
  }

  lemma BlankedFollows(hash: Hash, chunks: seq<Chunk>, body: Bytes, n: nat, i: nat)
    requires Verified(hash, chunks, body) && n < |chunks| && i < |chunks|
    ensures Follows(Blanked(chunks, n)[..i], Blanked(chunks, n)[i])
  {
    var blanked := Blanked(chunks, n);
    ChunkFollows(hash, chunks, body, i);
    BlankedBody(chunks, n, i);
    if i > 0 {
      assert blanked[..i][i - 1] == blanked[i - 1] && chunks[..i][i - 1] == chunks[i - 1];
    }
  }

  lemma BlankedIsVerified(hash: Hash, chunks: seq<Chunk>, body: Bytes, n: nat)
    requires Verified(hash, chunks, body) && n < |chunks|
    ensures Verified(hash, Blanked(chunks, n), body)
  {
    var blanked, last := Blanked(chunks, n), |chunks| - 1;
    var front := blanked[..last];
    forall i | 0 <= i < |front| ensures AcceptedAt(front, i) {
      MiddleChunk(hash, chunks, body, i);
      BlankedFollows(hash, chunks, body, n, i);
      PrefixOfPrefix(blanked, i, last);
    }
    BlankedFollows(hash, chunks, body, n, last);
    BlankedBody(chunks, n, |chunks|);
    assert blanked[..|chunks|] == blanked && chunks[..|chunks|] == chunks;
  }

  /** A server that plays back a list, one chunk a round, whatever it is asked for. */
  function Replaying(chunks: seq<Chunk>): Server
    requires chunks != []
  {
    (round: nat, offset: nat) => if round < |chunks| then chunks[round] else chunks[0]
  }

  /**
   * The gap is real for every body: from any server's verified answers a server that leaves the
   * metadata out of any number of rounds before the last one gets the same body accepted.
   */
  method FetchBlanked(hash: Hash, chunks: seq<Chunk>, body: Bytes, n: nat) returns (r: Result<Bytes, FetchError>)
    requires Verified(hash, chunks, body) && n < |chunks|
    ensures r == Ok(body)
  {
    var blanked := Blanked(chunks, n);
    var server := Replaying(blanked);
    BlankedIsVerified(hash, chunks, body, n);
    forall i | 0 <= i < |blanked| ensures ServedAt(server, blanked, i) {}
    ghost var seen;
    r, seen := FetchResponse(hash, server, |blanked|);
    assert r.Ok?;
    VerifiedIsUnique(hash, server, seen, r.value, blanked, body);
  }
}
