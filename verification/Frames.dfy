/** The length-prefixed protocol of the launcher and the daemon loop that speaks it. */
module Frames {
  import opened Prelude
  import opened Streams

  const MAX_REQUEST: nat := 1_048_576
  const MAX_RESPONSE: nat := 4_194_304

  function Frame(payload: Bytes): Bytes {
    BigEndian(|payload|, 4) + payload
  }

  datatype Ending = CleanEnd | OutOfBounds | ShortPayload
  datatype Next = Stop(ending: Ending) | Payload(payload: Bytes, rest: Bytes)

  /** The one-shot reading of the next frame under a size limit. */
  function NextFrame(s: Bytes, limit: nat): Next {
    if |s| < 4 then Stop(CleanEnd)
    else
      var length := FromBigEndian(s[..4]);
      if length == 0 || length > limit then Stop(OutOfBounds)
      else if |s| - 4 < length then Stop(ShortPayload)
      else Payload(s[4..4 + length], s[4 + length..])
  }

  /** The number the first four bytes announce, most significant first. */
  function Announced(s: Bytes): nat
    requires |s| >= 4
  {
    Word(s[0], s[1], s[2], s[3])
  }

  function Word(a: int, b: int, c: int, d: int): int { a * 0x100_0000 + b * 0x1_0000 + c * 0x100 + d }

  lemma HeaderIs(s: Bytes)
    requires |s| >= 4
    ensures FromBigEndian(s[..4]) == Announced(s)
  {
    var h := s[..4];
    assert h[..3][..2] == h[..2] && h[..3][..2][..1] == h[..1] && h[..1][..0] == [];
    assert FromBigEndian(h[..1]) == h[0];
    assert FromBigEndian(h[..2]) == FromBigEndian(h[..1]) * 0x100 + h[1] by { assert h[..2][..1] == h[..1]; }
    assert FromBigEndian(h[..3]) == FromBigEndian(h[..2]) * 0x100 + h[2];
  }

  lemma HeaderOf(n: nat)
    requires n < 0x1_0000_0000
    ensures BigEndian(n, 4) == Header(n)
  {
    Pow256Values();
    BigEndianRoundTrip(n, 4);
    var s := BigEndian(n, 4);
    assert s[..4] == s;
    HeaderIs(s);
    BytesOfWord(n, s[0], s[1], s[2], s[3]);
  }

  lemma BytesOfWord(n: nat, a: nat, b: nat, c: nat, d: nat)
    requires n == Word(a, b, c, d) && a < 0x100 && b < 0x100 && c < 0x100 && d < 0x100
    ensures n / 0x100_0000 == a && n / 0x1_0000 % 0x100 == b && n / 0x100 % 0x100 == c && n % 0x100 == d
  {
    DivModUnique(n, 0x100_0000, a, b * 0x1_0000 + c * 0x100 + d);
    DivModUnique(n, 0x1_0000, a * 0x100 + b, c * 0x100 + d);
    DivModUnique(a * 0x100 + b, 0x100, a, b);
    DivModUnique(n, 0x100, a * 0x1_0000 + b * 0x100 + c, d);
    DivModUnique(a * 0x1_0000 + b * 0x100 + c, 0x100, a * 0x100 + b, c);
  }

  /** The four bytes of a number, most significant first. */
  function Header(n: int): (h: Bytes)
    requires 0 <= n < 0x1_0000_0000
    ensures |h| == 4
  {
    [n / 0x100_0000, n / 0x1_0000 % 0x100, n / 0x100 % 0x100, n % 0x100]
  }

  method ReadFrame(input: ByteSource) returns (r: Result<Option<Bytes>, Ending>)
    requires input.Valid()
    modifies input`pos
    ensures input.Valid()
    ensures var before := old(input.Rest());
            if |before| < 4 then r == Ok(None)
            else
              var n := Announced(before);
              if n == 0 || n > 1_048_576 then r == Err(OutOfBounds)
              else if |before| - 4 < n then r == Err(ShortPayload)
              else r == Ok(Some(before[4..4 + n])) && input.Rest() == before[4 + n..]
    ensures match NextFrame(old(input.Rest()), MAX_REQUEST)
            case Stop(e) => r == if e == CleanEnd then Ok(None) else Err(e)
            case Payload(p, rest) => r == Ok(Some(p)) && input.Rest() == rest
  {
    var size := RecvExact(input, 4);
    if size.None? {
      return Ok(None);
    }
    var length := FromBigEndian(size.value);
    HeaderIs(old(input.Rest()));
    if length == 0 || length > MAX_REQUEST {
      return Err(OutOfBounds);
    }
    ghost var before := old(input.Rest());
    HeaderIs(before);
    var payload := RecvExact(input, length);
    if length <= |before| - 4 {
      assert before[4..][..length] == before[4..4 + length];
      assert before[4..][length..] == before[4 + length..];
    }
    if payload.None? {
      return Err(ShortPayload);
    }
    r := Ok(payload);
  }

  /** All payloads of a stream, and how the stream ends. */
  function ReadAll(s: Bytes, limit: nat): (r: (seq<Bytes>, Ending))
    decreases |s|
  {
    match NextFrame(s, limit)
    case Stop(e) => ([], e)
    case Payload(p, rest) => var (ps, e) := ReadAll(rest, limit); ([p] + ps, e)
  }

  function FrameAll(payloads: seq<Bytes>): Bytes {
    if payloads == [] then [] else Frame(payloads[0]) + FrameAll(payloads[1..])
  }

  predicate InBounds(payloads: seq<Bytes>, limit: nat) {
    forall i :: 0 <= i < |payloads| ==> 1 <= |payloads[i]| <= limit
  }

  lemma NextFrameOfFrame(p: Bytes, tail: Bytes, limit: nat)
    requires 1 <= |p| <= limit < U32_LIMIT
    ensures NextFrame(Frame(p) + tail, limit) == Payload(p, tail)
  {
    var s := Frame(p) + tail;
    Pow256Values();
    BigEndianRoundTrip(|p|, 4);
    assert s[..4] == BigEndian(|p|, 4);
  }

  /** Reading what was written gives back the payloads and stops where the tail stops. */
  lemma {:induction false} FramesRoundTrip(payloads: seq<Bytes>, tail: Bytes, limit: nat)
    requires limit < U32_LIMIT && InBounds(payloads, limit) && NextFrame(tail, limit).Stop?
    ensures ReadAll(FrameAll(payloads) + tail, limit) == (payloads, NextFrame(tail, limit).ending)
  {
    if payloads == [] {
      assert FrameAll(payloads) + tail == tail;
    } else {
      var p, more := payloads[0], payloads[1..];
      FramesRoundTrip(more, tail, limit);
      assert FrameAll(payloads) + tail == Frame(p) + (FrameAll(more) + tail);
      NextFrameOfFrame(p, FrameAll(more) + tail, limit);
      assert payloads == [p] + more;
    }
  }

  /** Conversely every stream is the frames it was read as, followed by the part not consumed. */
  lemma {:induction false} ReadAllConsumesFrames(s: Bytes, limit: nat)
    requires limit < U32_LIMIT
    ensures var (ps, e) := ReadAll(s, limit);
            InBounds(ps, limit) && FrameAll(ps) <= s && NextFrame(s[|FrameAll(ps)|..], limit) == Stop(e)
    decreases |s|
  {
    match NextFrame(s, limit)
    case Stop(_) =>
      assert s[0..] == s;
    case Payload(p, rest) =>
      ReadAllConsumesFrames(rest, limit);
      FrameOfNextFrame(s, limit);
      FrameFirst(p, ReadAll(rest, limit).0, rest);
  }

  lemma FrameOfNextFrame(s: Bytes, limit: nat)
    requires limit < U32_LIMIT && NextFrame(s, limit).Payload?
    ensures s == Frame(NextFrame(s, limit).payload) + NextFrame(s, limit).rest
  {
    FromBigEndianRoundTrip(s[..4]);
  }

  lemma FrameFirst(p: Bytes, ps: seq<Bytes>, rest: Bytes)
    requires FrameAll(ps) <= rest
    ensures var s := Frame(p) + rest;
            && FrameAll([p] + ps) <= s && s[|FrameAll([p] + ps)|..] == rest[|FrameAll(ps)|..]
  {
    assert ([p] + ps)[1..] == ps;
    assert rest == FrameAll(ps) + rest[|FrameAll(ps)|..];
    assert Frame(p) + rest == FrameAll([p] + ps) + rest[|FrameAll(ps)|..];
  }

  // ---- The daemon loop --------------------------------------------------------------------

  /** What the loop needs from the rest of the launcher: JSON parsing, dispatch, rendering. */
  datatype Dispatcher<!S, !R> = Dispatcher(
    parse: Bytes -> Option<R>,
    handle: (S, R) -> (S, Bytes),
    invalidJson: Bytes -> Bytes)
  {
    function Respond(st: S, payload: Bytes): (S, Bytes) {
      match parse(payload)
      case None => (st, invalidJson(payload))
      case Some(request) => handle(st, request)
    }

    /** The replies to a list of payloads, in order. */
    function Replies(st: S, payloads: seq<Bytes>): (rs: seq<Bytes>)
      ensures |rs| == |payloads|
    {
      if payloads == [] then []
      else
        var (next, reply) := Respond(st, payloads[0]);
        [reply] + Replies(next, payloads[1..])
    }
  }

  /** The state after handling the requests among these payloads, in order. */
  function StateAfter<S(!new), R(!new)>(parse: Bytes -> Option<R>, handle: (S, R) -> (S, Bytes), start: S, payloads: seq<Bytes>): S {
    if payloads == [] then start
    else
      var before := StateAfter(parse, handle, start, payloads[..|payloads| - 1]);
      match parse(payloads[|payloads| - 1])
      case None => before
      case Some(request) => handle(before, request).0
  }

  /**
   * One reply per payload: what is no JSON is told so, and every other request is handled in the
   * state all requests before it have left.
   */
  ghost predicate Answered<S(!new), R(!new)>(parse: Bytes -> Option<R>, handle: (S, R) -> (S, Bytes), invalidJson: Bytes -> Bytes,
                                             start: S, payloads: seq<Bytes>, replies: seq<Bytes>)
  {
    && |replies| == |payloads|
    && forall i :: 0 <= i < |payloads| ==>
         replies[i] == match parse(payloads[i])
                       case None => invalidJson(payloads[i])
                       case Some(request) => handle(StateAfter(parse, handle, start, payloads[..i]), request).1
  }

  lemma {:induction false} StateAfterFirst<S(!new), R(!new)>(d: Dispatcher<S, R>, start: S, first: Bytes, more: seq<Bytes>)
    ensures StateAfter(d.parse, d.handle, start, [first] + more)
            == StateAfter(d.parse, d.handle, d.Respond(start, first).0, more)
  {
    var all := [first] + more;
    if more == [] {
      assert all[..0] == [] && all[0] == first;
    } else {
      var n := |more| - 1;
      assert all[..|all| - 1] == [first] + more[..n] && all[|all| - 1] == more[n];
      StateAfterFirst(d, start, first, more[..n]);
    }
  }

  lemma {:induction false} RepliesAnswer<S(!new), R(!new)>(d: Dispatcher<S, R>, start: S, payloads: seq<Bytes>)
    ensures Answered(d.parse, d.handle, d.invalidJson, start, payloads, d.Replies(start, payloads))
    decreases |payloads|
  {
    if payloads != [] {
      var first, more := payloads[0], payloads[1..];
      var next := d.Respond(start, first).0;
      RepliesAnswer(d, next, more);
      var replies := d.Replies(start, payloads);
      forall i | 0 <= i < |payloads|
        ensures replies[i] == match d.parse(payloads[i])
                              case None => d.invalidJson(payloads[i])
                              case Some(request) => d.handle(StateAfter(d.parse, d.handle, start, payloads[..i]), request).1
      {
        if i > 0 {
          assert payloads[..i] == [first] + more[..i - 1] && payloads[i] == more[i - 1];
          StateAfterFirst(d, start, first, more[..i - 1]);
          assert replies[i] == d.Replies(next, more)[i - 1];
        } else {
          assert payloads[..0] == [];
        }
      }
    }
  }

  /** The payloads that parse. */
  function Parsable<R>(parse: Bytes -> Option<R>, payloads: seq<Bytes>): seq<Bytes> {
    if payloads == [] then []
    else (if parse(payloads[0]).Some? then [payloads[0]] else []) + Parsable(parse, payloads[1..])
  }

  /** Of a list of replies those whose payloads parse. */
  function ToParsable<R>(parse: Bytes -> Option<R>, payloads: seq<Bytes>, replies: seq<Bytes>): seq<Bytes>
    requires |replies| == |payloads|
  {
    if payloads == [] then []
    else (if parse(payloads[0]).Some? then [replies[0]] else []) + ToParsable(parse, payloads[1..], replies[1..])
  }

  /** Payloads that do not parse change nothing for the others. */
  lemma {:induction false} UnparsableIsHarmless<S, R>(d: Dispatcher<S, R>, start: S, payloads: seq<Bytes>)
    ensures d.Replies(start, Parsable(d.parse, payloads)) == ToParsable(d.parse, payloads, d.Replies(start, payloads))
    decreases |payloads|
  {
    if payloads != [] {
      var first, more := payloads[0], payloads[1..];
      var (next, reply) := d.Respond(start, first);
      UnparsableIsHarmless(d, next, more);
      assert d.Replies(start, payloads)[1..] == d.Replies(next, more);
      if d.parse(first).Some? {
        OneMoreReply(d, start, first, Parsable(d.parse, more));
      } else {
        assert [] + Parsable(d.parse, more) == Parsable(d.parse, more);
      }
    }
  }

  datatype Exit = Finished(ending: Ending) | ReplyTooLarge

  /** How many leading replies `write_frame` accepts. */
  function Sendable(replies: seq<Bytes>): (n: nat)
    ensures n <= |replies|
    ensures forall i :: 0 <= i < n ==> |replies[i]| <= MAX_RESPONSE
    ensures n < |replies| ==> |replies[n]| > MAX_RESPONSE
  {
    if replies == [] || |replies[0]| > MAX_RESPONSE then 0 else 1 + Sendable(replies[1..])
  }

  method WriteFrame(output: Bytes, payload: Bytes) returns (r: Result<Bytes, Exit>)
    ensures r == if |payload| > MAX_RESPONSE then Err(ReplyTooLarge) else Ok(output + Frame(payload))
    ensures r == if |payload| > 4_194_304 then Err(ReplyTooLarge) else Ok(output + (Header(|payload|) + payload))
  {
    if |payload| <= MAX_RESPONSE { HeaderOf(|payload|); }
    if |payload| > MAX_RESPONSE {
      return Err(ReplyTooLarge);
    }
    var out := output + BigEndian(|payload|, 4);
    out := out + payload;
    assert out == output + Frame(payload);
    r := Ok(out);
  }

  /**
   * Read, dispatch, answer, until the input ends. Exactly one reply frame per request frame,
   * in order, valid JSON or not, up to the first reply that is too large to send.
   */
  method Daemon<S(!new), R(!new)>(d: Dispatcher<S, R>, input: ByteSource, start: S) returns (output: Bytes, exit: Exit)
    requires input.Valid()
    modifies input`pos
    ensures var (payloads, ending) := ReadAll(old(input.Rest()), MAX_REQUEST);
            var replies := d.Replies(start, payloads);
            && output == FrameAll(replies[..Sendable(replies)])
            && exit == if Sendable(replies) == |replies| then Finished(ending) else ReplyTooLarge
    ensures var payloads := ReadAll(old(input.Rest()), MAX_REQUEST).0;
            Answered(d.parse, d.handle, d.invalidJson, start, payloads, d.Replies(start, payloads))
  {
    output := [];
    var st := start;
    ghost var all := ReadAll(input.Rest(), MAX_REQUEST);
    ghost var replies := d.Replies(start, all.0);
    ghost var sent: seq<Bytes> := [];
    assert sent + replies == replies;
    while true
      invariant input.Valid()
      invariant ReadAll(input.Rest(), MAX_REQUEST).1 == all.1
      invariant replies == sent + d.Replies(st, ReadAll(input.Rest(), MAX_REQUEST).0)
      invariant Fit(sent) && output == FrameAll(sent)
      decreases |input.Rest()|
    {
      ghost var before := ReadAll(input.Rest(), MAX_REQUEST).0;
      var next := ReadFrame(input);
      if next.Err? || next.value.None? {
        assert before == [] && sent + [] == sent;
        AllSendable(sent);
        RepliesAnswer(d, start, all.0);
        return output, Finished(if next.Err? then next.error else CleanEnd);
      }
      ghost var others := ReadAll(input.Rest(), MAX_REQUEST).0;
      assert before == [next.value.value] + others;
      var (after, reply) := d.Respond(st, next.value.value);
      OneMoreReply(d, st, next.value.value, others);
      var written := WriteFrame(output, reply);
      if written.Err? {
        SendableUpTo(sent, reply, d.Replies(after, others), replies);
        RepliesAnswer(d, start, all.0);
        return output, ReplyTooLarge;
      }
      FrameAllSnoc(sent, reply);
      Associate(sent, [reply], d.Replies(after, others));
      output, st, sent := written.value, after, sent + [reply];
    }
  }

  lemma OneMoreReply<S, R>(d: Dispatcher<S, R>, st: S, payload: Bytes, others: seq<Bytes>)
    ensures var (after, reply) := d.Respond(st, payload);
            d.Replies(st, [payload] + others) == [reply] + d.Replies(after, others)
  {
    assert ([payload] + others)[1..] == others;
  }

  predicate Fit(replies: seq<Bytes>) { forall i :: 0 <= i < |replies| ==> |replies[i]| <= MAX_RESPONSE }

  lemma AllSendable(replies: seq<Bytes>)
    requires Fit(replies)
    ensures Sendable(replies) == |replies| && replies[..|replies|] == replies
  {
  }

  /** Nothing is held back before the first reply that is too large. */
  lemma SendableUpTo(sent: seq<Bytes>, reply: Bytes, others: seq<Bytes>, all: seq<Bytes>)
    requires Fit(sent) && |reply| > MAX_RESPONSE && all == sent + ([reply] + others)
    ensures Sendable(all) == |sent| < |all| && all[..|sent|] == sent
  {
    assert all[|sent|] == reply;
    forall i | 0 <= i < |sent| ensures |all[i]| <= MAX_RESPONSE { assert all[i] == sent[i]; }
  }

  lemma {:induction false} FrameAllSnoc(ps: seq<Bytes>, p: Bytes)
    ensures FrameAll(ps + [p]) == FrameAll(ps) + Frame(p)
  {
    if ps == [] {
      assert [] + [p] == [p] && [p][1..] == [];
      assert FrameAll([p]) == Frame(p) + [];
    } else {
      assert (ps + [p])[1..] == ps[1..] + [p];
      FrameAllSnoc(ps[1..], p);
    }
  }

  /**
   * End to end: a client that frames its requests and whose replies all fit reads back
   * exactly the reply list, one per request and in request order.
   */
  lemma ConversationRoundTrip<S, R>(d: Dispatcher<S, R>, start: S, requests: seq<Bytes>, output: Bytes)
    requires InBounds(requests, MAX_REQUEST)
    requires InBounds(d.Replies(start, requests), MAX_RESPONSE)
    requires var replies := d.Replies(start, ReadAll(FrameAll(requests), MAX_REQUEST).0);
             output == FrameAll(replies[..Sendable(replies)])
    ensures ReadAll(output, MAX_RESPONSE) == (d.Replies(start, requests), CleanEnd)
  {
    var replies := d.Replies(start, requests);
    FramesRoundTrip(requests, [], MAX_REQUEST);
    assert FrameAll(requests) + [] == FrameAll(requests);
    assert Sendable(replies) == |replies|;
    assert replies[..|replies|] == replies;
    FramesRoundTrip(replies, [], MAX_RESPONSE);
    assert output + [] == output;
  }
}
