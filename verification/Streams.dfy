/** Byte sources that deliver data in pieces of any size, and the loops that read from them. */
module Streams {
  import opened Prelude

  /** A pipe, socket or file: each read returns any non-empty part of what is left. */
  class ByteSource {
    const data: Bytes
    var pos: nat

    ghost predicate Valid()
      reads this
    {
      pos <= |data|
    }

    ghost function Rest(): Bytes
      requires Valid()
      reads this
    {
      data[pos..]
    }

    constructor (data: Bytes)
      ensures Valid() && Rest() == data
    {
      this.data := data;
      pos := 0;
    }

    method Read(max: nat) returns (piece: Bytes)
      requires Valid()
      modifies this`pos
      ensures Valid() && |piece| <= max && old(Rest()) == piece + Rest()
      ensures piece == [] <==> max == 0 || old(Rest()) == []
    {
      var n: nat := 0;
      if 0 < max && pos < |data| {
        n :| 1 <= n <= max && n <= |data| - pos;
      }
      piece := data[pos..pos + n];
      pos := pos + n;
    }
  }

  /**
   * Read exactly `size` bytes or fail: `_recv_exact` of the Python client, and the contract
   * of `read_exact`. It never takes a byte beyond the ones it returns.
   */
  method RecvExact(src: ByteSource, size: nat) returns (r: Option<Bytes>)
    requires src.Valid()
    modifies src`pos
    ensures src.Valid()
    ensures var before := old(src.Rest());
            if size <= |before| then r == Some(before[..size]) && src.Rest() == before[size..]
            else r == None && src.Rest() == []
  {
    var out: Bytes := [];
    while |out| < size
      invariant src.Valid() && |out| <= size
      invariant old(src.Rest()) == out + src.Rest()
    {
      var piece := src.Read(size - |out|);
      if piece == [] {
        return None;
      }
      out := out + piece;
    }
    r := Some(out);
  }

  /** The kept bytes grow by as much of the piece as there is room for. */
  lemma KeepMore(seen: Bytes, piece: Bytes, limit: nat, kept: Bytes, next: Bytes)
    requires kept == seen[..Min(limit, |seen|)]
    requires next == if limit > |kept| then kept + piece[..Min(|piece|, limit - |kept|)] else kept
    ensures next == (seen + piece)[..Min(limit, |seen + piece|)]
  {
    if limit > |seen| {
      assert kept == seen;
      assert (seen + piece)[..Min(limit, |seen + piece|)] == seen + piece[..Min(|piece|, limit - |seen|)];
    } else {
      assert (seen + piece)[..limit] == seen[..limit];
    }
  }

  /** Keep the first `limit` bytes, drain the rest, and say whether anything was dropped. */
  method ReadLimited(src: ByteSource, limit: nat) returns (output: Bytes, truncated: bool)
    requires src.Valid()
    modifies src`pos
    ensures src.Valid() && src.Rest() == []
    ensures output == old(src.Rest())[..Min(limit, |old(src.Rest())|)]
    ensures truncated <==> |old(src.Rest())| > limit
  {
    output, truncated := [], false;
    ghost var all, seen: Bytes := src.Rest(), [];
    while true
      invariant src.Valid() && all == seen + src.Rest()
      invariant output == seen[..Min(limit, |seen|)]
      invariant truncated <==> |seen| > limit
      decreases |src.Rest()|
    {
      ghost var kept := output;
      var piece := src.Read(8192);
      Associate(seen, piece, src.Rest());
      if piece == [] {
        assert seen + [] == seen;
        break;
      }
      var room := Max(0, limit - |output|);
      if room > 0 {
        output := output + piece[..Min(|piece|, room)];
      }
      if |piece| > room {
        truncated := true;
      }
      KeepMore(seen, piece, limit, kept, output);
      seen := seen + piece;
    }
  }
}
