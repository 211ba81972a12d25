/** The Node client: a frame parser fed by data events of any size. */
module NodeClient {
  import opened Prelude
  import Frames

  /** Decoding the whole of what has arrived: the first frame, once it is complete. */
  function OneShot(s: Bytes): Option<Bytes> {
    if |s| < 4 then None
    else
      var expected := FromBigEndian(s[..4]);
      if |s| < 4 + expected then None else Some(s[4..4 + expected])
  }

  class FrameParser {
    var data: Bytes
    var expected: Option<nat>

    /** `expected` is set once, as soon as the header is there, and then stays what it says. */
    ghost predicate Valid()
      reads this
    {
      expected == if |data| >= 4 then Some(FromBigEndian(data[..4])) else None
    }

    constructor ()
      ensures Valid() && data == []
    {
      data, expected := [], None;
    }

    /** One data event; a message means the promise is settled with it. */
    method OnData(chunk: Bytes) returns (message: Option<Bytes>)
      requires Valid()
      modifies this
      ensures Valid() && data == old(data) + chunk
      ensures message == OneShot(data)
    {
      assert |data| >= 4 ==> (data + chunk)[..4] == data[..4];
      data := data + chunk;
      if expected == None && |data| >= 4 {
        expected := Some(FromBigEndian(data[..4]));
      }
      if expected != None && |data| >= 4 + expected.value {
        return Some(data[4..4 + expected.value]);
      }
      return None;
    }
  }

  /** More data never changes a message that is already complete. */
  lemma OneShotIsStable(s: Bytes, more: Bytes)
    requires OneShot(s).Some?
    ensures OneShot(s + more) == OneShot(s)
  {
    assert (s + more)[..4] == s[..4];
    var expected := FromBigEndian(s[..4]);
    assert (s + more)[4..4 + expected] == s[4..4 + expected];
  }

  /** What has become of the request: nothing yet, settled with a message, or an exception out of the handler. */
  datatype Outcome = Pending | Settled(message: Bytes) | Thrown

  /** A complete message settles the promise if it is JSON for a value that has fields; otherwise the handler throws. */
  function OutcomeOf(usable: Bytes -> bool, received: Bytes): Outcome {
    match OneShot(received)
    case None => Pending
    case Some(message) => if usable(message) then Settled(message) else Thrown
  }

  /**
   * Nothing is decided before the four bytes of length and as many bytes as they announce are
   * there; then the request is settled with those bytes if they are usable, or else has thrown.
   */
  predicate Decided(usable: Bytes -> bool, s: Bytes, outcome: Outcome) {
    if |s| < 4 || |s| - 4 < Frames.Announced(s) then outcome == Pending
    else
      var message := s[4..4 + Frames.Announced(s)];
      outcome == if usable(message) then Settled(message) else Thrown
  }

  lemma OutcomeIs(usable: Bytes -> bool, s: Bytes)
    ensures Decided(usable, s, OutcomeOf(usable, s))
  {
    if |s| >= 4 { Frames.HeaderIs(s); }
  }

  /**
   * Feed the events until the request is decided. However the stream is cut, the outcome is the
   * one-shot outcome of the whole stream, reached at the first event that completes the frame:
   * pending exactly while there is no whole frame, and an exception, with the promise left
   * unsettled, exactly when the message is not usable; an empty one never is.
   */
  method Receive(usable: Bytes -> bool, events: seq<Bytes>) returns (outcome: Outcome, count: nat)
    ensures outcome == OutcomeOf(usable, Concat(events))
    ensures Decided(usable, Concat(events), outcome)
    ensures count <= |events| && outcome == OutcomeOf(usable, Concat(events[..count]))
    ensures outcome != Pending ==> count > 0 && OutcomeOf(usable, Concat(events[..count - 1])) == Pending
  {
    OutcomeIs(usable, Concat(events));
    var parser := new FrameParser();
    outcome, count := Pending, 0;
    while count < |events|
      invariant parser.Valid() && fresh(parser)
      invariant 0 <= count <= |events|
      invariant parser.data == Concat(events[..count])
      invariant OneShot(parser.data) == None && outcome == Pending
      decreases |events| - count
    {
      var next := parser.OnData(events[count]);
      Snoc(events, count);
      count := count + 1;
      if next.Some? {
        assert events == events[..count] + events[count..];
        ConcatAppend(events[..count], events[count..]);
        OneShotIsStable(Concat(events[..count]), Concat(events[count..]));
        return if usable(next.value) then Settled(next.value) else Thrown, count;
      }
    }
    assert events[..count] == events;
  }

  lemma Snoc(events: seq<Bytes>, i: nat)
    requires i < |events|
    ensures Concat(events[..i + 1]) == Concat(events[..i]) + events[i]
  {
    assert events[..i + 1] == events[..i] + [events[i]];
    ConcatAppend(events[..i], [events[i]]);
    assert Concat([events[i]]) == events[i] + [];
  }

  /** For a framed payload that is the payload the launcher's own frame reader sees. */
  lemma AgreesWithFrameReader(payload: Bytes, tail: Bytes)
    requires 1 <= |payload| <= Frames.MAX_REQUEST
    ensures OneShot(Frames.Frame(payload) + tail) == Some(payload)
    ensures Frames.NextFrame(Frames.Frame(payload) + tail, Frames.MAX_REQUEST) == Frames.Payload(payload, tail)
  {
    var s := Frames.Frame(payload) + tail;
    Frames.NextFrameOfFrame(payload, tail, Frames.MAX_REQUEST);
    assert s[4..4 + |payload|] == payload;
    Pow256Values();
    BigEndianRoundTrip(|payload|, 4);
    assert s[..4] == BigEndian(|payload|, 4);
  }
}
