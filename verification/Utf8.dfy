/** UTF-8 text as the launcher renders it: `String::from_utf8_lossy` and `to_string_lossy`. */
module Utf8 {
  import opened Prelude

  const REPLACEMENT: Bytes := [0xEF, 0xBF, 0xBD]

  predicate IsContinuation(s: Bytes, i: nat) { i < |s| && 0x80 <= s[i] <= 0xBF }

  /** Whether `s[1]` may follow the lead byte `s[0]` of a three- or four-byte sequence. */
  predicate SecondByteFits(s: Bytes)
    requires s != []
  {
    && IsContinuation(s, 1)
    && (s[0] == 0xE0 ==> 0xA0 <= s[1])
    && (s[0] == 0xED ==> s[1] <= 0x9F)
    && (s[0] == 0xF0 ==> 0x90 <= s[1])
    && (s[0] == 0xF4 ==> s[1] <= 0x8F)
  }

  /** Length of the leading character, or of the maximal invalid part, and which it is. */
  function NextChunk(s: Bytes): (r: (nat, bool))
    requires s != []
    ensures 1 <= r.0 <= |s|
  {
    var lead := s[0];
    if lead < 0x80 then (1, true)
    else if 0xC2 <= lead <= 0xDF then
      if IsContinuation(s, 1) then (2, true) else (1, false)
    else if 0xE0 <= lead <= 0xEF then
      if !SecondByteFits(s) then (1, false)
      else if IsContinuation(s, 2) then (3, true) else (2, false)
    else if 0xF0 <= lead <= 0xF4 then
      if !SecondByteFits(s) then (1, false)
      else if !IsContinuation(s, 2) then (2, false)
      else if IsContinuation(s, 3) then (4, true) else (3, false)
    else (1, false)
  }

  /** Well-formed characters stay; each maximal invalid part becomes U+FFFD. */
  function Lossy(s: Bytes): Bytes {
    if s == [] then []
    else
      var (n, valid) := NextChunk(s);
      (if valid then s[..n] else REPLACEMENT) + Lossy(s[n..])
  }

  predicate IsUtf8(s: Bytes) {
    s == [] || (NextChunk(s).1 && IsUtf8(s[NextChunk(s).0..]))
  }

  lemma {:induction false} Utf8IsKept(s: Bytes)
    requires IsUtf8(s)
    ensures Lossy(s) == s
  {
    if s != [] {
      var n := NextChunk(s).0;
      Utf8IsKept(s[n..]);
      assert s == s[..n] + s[n..];
    }
  }

  /** What starts with a whole character keeps starting with it when more follows. */
  lemma NextChunkAppend(a: Bytes, b: Bytes)
    requires a != [] && NextChunk(a).1
    ensures NextChunk(a + b) == NextChunk(a)
  {
  }

  lemma {:induction false} Utf8Append(a: Bytes, b: Bytes)
    requires IsUtf8(a) && IsUtf8(b)
    ensures IsUtf8(a + b)
  {
    if a == [] {
      assert a + b == b;
    } else {
      var n := NextChunk(a).0;
      NextChunkAppend(a, b);
      Utf8Append(a[n..], b);
      assert (a + b)[n..] == a[n..] + b;
    }
  }

  // ---- The standard's encoder -------------------------------------------------------------

  /** Unicode scalar values: code points that are no surrogates. */
  predicate IsScalar(c: int) { 0 <= c < 0xD800 || 0xE000 <= c < 0x11_0000 }

  /** The table of section 3 of RFC 3629. */
  function EncodeScalar(c: int): (e: Bytes)
    requires IsScalar(c)
    ensures 1 <= |e| <= 4
  {
    if c < 0x80 then [c]
    else if c < 0x800 then [0xC0 + c / 64, 0x80 + c % 64]
    else if c < 0x1_0000 then [0xE0 + c / 4096, 0x80 + c / 64 % 64, 0x80 + c % 64]
    else [0xF0 + c / 262144, 0x80 + c / 4096 % 64, 0x80 + c / 64 % 64, 0x80 + c % 64]
  }

  function EncodeText(cs: seq<int>): Bytes
    requires forall i :: 0 <= i < |cs| ==> IsScalar(cs[i])
  {
    if cs == [] then [] else EncodeScalar(cs[0]) + EncodeText(cs[1..])
  }

  /** The bits of a code point in groups of six. */
  lemma Sixes(c: nat, a: nat, b: nat, d: nat, e: nat)
    requires c < 0x11_0000 && a == c / 262144 && b == c / 4096 % 64 && d == c / 64 % 64 && e == c % 64
    ensures c == a * 262144 + b * 4096 + d * 64 + e && b < 64 && d < 64 && e < 64
    ensures c / 4096 == a * 64 + b
  {
    var h := c / 64;
    var g := h / 64;
    DivModUnique(c, 4096, g, h % 64 * 64 + e);
    DivModUnique(c, 262144, g / 64, g % 64 * 4096 + h % 64 * 64 + e);
  }

  lemma ThreeFit(c: nat, b0: nat, b1: nat, b2: nat)
    requires IsScalar(c) && 0x800 <= c < 0x1_0000
    requires b0 == 0xE0 + c / 4096 && b1 == 0x80 + c / 64 % 64 && b2 == 0x80 + c % 64
    ensures 0xE0 <= b0 <= 0xEF && 0x80 <= b1 <= 0xBF && 0x80 <= b2 <= 0xBF
    ensures (b0 == 0xE0 ==> 0xA0 <= b1) && (b0 == 0xED ==> b1 <= 0x9F)
  {
    Sixes(c, c / 262144, c / 4096 % 64, c / 64 % 64, c % 64);
  }

  lemma FourFit(c: nat, b0: nat, b1: nat, b2: nat, b3: nat)
    requires 0x1_0000 <= c < 0x11_0000
    requires b0 == 0xF0 + c / 262144 && b1 == 0x80 + c / 4096 % 64 && b2 == 0x80 + c / 64 % 64 && b3 == 0x80 + c % 64
    ensures 0xF0 <= b0 <= 0xF4 && 0x80 <= b1 <= 0xBF && 0x80 <= b2 <= 0xBF && 0x80 <= b3 <= 0xBF
    ensures (b0 == 0xF0 ==> 0x90 <= b1) && (b0 == 0xF4 ==> b1 <= 0x8F)
  {
    Sixes(c, c / 262144, c / 4096 % 64, c / 64 % 64, c % 64);
  }

  lemma ChunkOfThree(s: Bytes, b0: Byte, b1: Byte, b2: Byte)
    requires s == [b0, b1, b2] && 0xE0 <= b0 <= 0xEF && 0x80 <= b1 <= 0xBF && 0x80 <= b2 <= 0xBF
    requires (b0 == 0xE0 ==> 0xA0 <= b1) && (b0 == 0xED ==> b1 <= 0x9F)
    ensures NextChunk(s) == (3, true)
  {
  }

  lemma ChunkOfFour(s: Bytes, b0: Byte, b1: Byte, b2: Byte, b3: Byte)
    requires s == [b0, b1, b2, b3] && 0xF0 <= b0 <= 0xF4
    requires 0x80 <= b1 <= 0xBF && 0x80 <= b2 <= 0xBF && 0x80 <= b3 <= 0xBF
    requires (b0 == 0xF0 ==> 0x90 <= b1) && (b0 == 0xF4 ==> b1 <= 0x8F)
    ensures NextChunk(s) == (4, true)
  {
  }

  /** What is encoded is read as one whole character. */
  lemma EncodedIsChunk(c: int)
    requires IsScalar(c)
    ensures NextChunk(EncodeScalar(c)) == (|EncodeScalar(c)|, true)
  {
    var e := EncodeScalar(c);
    if 0x800 <= c < 0x1_0000 {
      ThreeFit(c, 0xE0 + c / 4096, 0x80 + c / 64 % 64, 0x80 + c % 64);
      ChunkOfThree(e, e[0], e[1], e[2]);
    } else if 0x1_0000 <= c {
      FourFit(c, 0xF0 + c / 262144, 0x80 + c / 4096 % 64, 0x80 + c / 64 % 64, 0x80 + c % 64);
      ChunkOfFour(e, e[0], e[1], e[2], e[3]);
    }
  }

  lemma TwoBytes(b0: int, b1: int) returns (c: int)
    requires 0xC2 <= b0 <= 0xDF && 0x80 <= b1 <= 0xBF
    ensures IsScalar(c) && EncodeScalar(c) == [b0, b1]
  {
    c := (b0 - 0xC0) * 64 + (b1 - 0x80);
    DivModUnique(c, 64, b0 - 0xC0, b1 - 0x80);
  }

  lemma ThreeBytes(b0: int, b1: int, b2: int) returns (c: int)
    requires 0xE0 <= b0 <= 0xEF && 0x80 <= b1 <= 0xBF && 0x80 <= b2 <= 0xBF
    requires (b0 == 0xE0 ==> 0xA0 <= b1) && (b0 == 0xED ==> b1 <= 0x9F)
    ensures IsScalar(c) && EncodeScalar(c) == [b0, b1, b2]
  {
    var h := (b0 - 0xE0) * 64 + (b1 - 0x80);
    c := h * 64 + (b2 - 0x80);
    DivModUnique(c, 64, h, b2 - 0x80);
    DivModUnique(h, 64, b0 - 0xE0, b1 - 0x80);
    DivModUnique(c, 4096, b0 - 0xE0, (b1 - 0x80) * 64 + (b2 - 0x80));
  }

  lemma FourBytes(b0: int, b1: int, b2: int, b3: int) returns (c: int)
    requires 0xF0 <= b0 <= 0xF4 && 0x80 <= b1 <= 0xBF && 0x80 <= b2 <= 0xBF && 0x80 <= b3 <= 0xBF
    requires (b0 == 0xF0 ==> 0x90 <= b1) && (b0 == 0xF4 ==> b1 <= 0x8F)
    ensures IsScalar(c) && EncodeScalar(c) == [b0, b1, b2, b3]
  {
    var g := (b0 - 0xF0) * 64 + (b1 - 0x80);
    var h := g * 64 + (b2 - 0x80);
    c := h * 64 + (b3 - 0x80);
    DivModUnique(c, 64, h, b3 - 0x80);
    DivModUnique(h, 64, g, b2 - 0x80);
    DivModUnique(c, 4096, g, (b2 - 0x80) * 64 + (b3 - 0x80));
    DivModUnique(g, 64, b0 - 0xF0, b1 - 0x80);
    DivModUnique(c, 262144, b0 - 0xF0, (b1 - 0x80) * 4096 + (b2 - 0x80) * 64 + (b3 - 0x80));
  }

  /** What is read as one whole character is an encoded scalar value. */
  lemma ChunkIsEncoded(s: Bytes) returns (c: int)
    requires s != [] && NextChunk(s).1
    ensures IsScalar(c) && EncodeScalar(c) == s[..NextChunk(s).0]
  {
    var n := NextChunk(s).0;
    if n == 1 {
      c := s[0];
    } else if n == 2 {
      c := TwoBytes(s[0], s[1]);
      assert s[..2] == [s[0], s[1]];
    } else if n == 3 {
      c := ThreeBytes(s[0], s[1], s[2]);
      assert s[..3] == [s[0], s[1], s[2]];
    } else {
      c := FourBytes(s[0], s[1], s[2], s[3]);
      assert s[..4] == [s[0], s[1], s[2], s[3]];
    }
  }

  ghost predicate IsText(s: Bytes, cs: seq<int>) {
    (forall i :: 0 <= i < |cs| ==> IsScalar(cs[i])) && s == EncodeText(cs)
  }

  lemma {:induction false} TextOfUtf8(s: Bytes) returns (cs: seq<int>)
    requires IsUtf8(s)
    ensures IsText(s, cs)
  {
    if s == [] {
      cs := [];
    } else {
      var n := NextChunk(s).0;
      var c := ChunkIsEncoded(s);
      var rest := TextOfUtf8(s[n..]);
      cs := [c] + rest;
      assert cs[1..] == rest && s == s[..n] + s[n..];
    }
  }

  lemma {:induction false} EncodedIsUtf8(cs: seq<int>)
    requires forall i :: 0 <= i < |cs| ==> IsScalar(cs[i])
    ensures IsUtf8(EncodeText(cs))
  {
    if cs != [] {
      var e, rest := EncodeScalar(cs[0]), EncodeText(cs[1..]);
      EncodedIsUtf8(cs[1..]);
      EncodedIsChunk(cs[0]);
      NextChunkAppend(e, rest);
      assert (e + rest)[|e|..] == rest;
    }
  }

  /** UTF-8 is what encoding a sequence of scalar values gives, and nothing else. */
  lemma IsUtf8Iff(s: Bytes)
    ensures IsUtf8(s) <==> exists cs :: IsText(s, cs)
  {
    if IsUtf8(s) { var cs := TextOfUtf8(s); }
    if cs :| IsText(s, cs) { EncodedIsUtf8(cs); }
  }

  /** The bytes begin the encoding of some scalar value. */
  ghost predicate Begins(p: Bytes) { exists c :: IsScalar(c) && p <= EncodeScalar(c) }

  /**
   * What one replacement character stands for: a single byte, or the start of a character; and
   * never so little that the byte after it could belong to the same character.
   */
  lemma ReplacedPartIsMaximal(s: Bytes)
    requires s != [] && !NextChunk(s).1
    ensures var n := NextChunk(s).0;
            (n == 1 || Begins(s[..n])) && (n < |s| ==> !Begins(s[..n + 1]))
  {
    var n := NextChunk(s).0;
    if n == 2 {
      StartOfTwo(s);
    } else if n == 3 {
      StartOfThree(s);
    }
    if n < |s| && Begins(s[..n + 1]) {
      var c :| IsScalar(c) && s[..n + 1] <= EncodeScalar(c);
      EncodedIsChunk(c);
      NoLonger(s, EncodeScalar(c), n);
    }
  }

  lemma StartOfTwo(s: Bytes)
    requires s != [] && NextChunk(s) == (2, false)
    ensures Begins(s[..2])
  {
    assert s[..2] == [s[0], s[1]];
    if s[0] < 0xF0 {
      var c := ThreeBytes(s[0], s[1], 0x80);
      assert s[..2] <= EncodeScalar(c);
    } else {
      var c := FourBytes(s[0], s[1], 0x80, 0x80);
      assert s[..2] <= EncodeScalar(c);
    }
  }

  lemma StartOfThree(s: Bytes)
    requires s != [] && NextChunk(s) == (3, false)
    ensures Begins(s[..3])
  {
    assert s[..3] == [s[0], s[1], s[2]];
    var c := FourBytes(s[0], s[1], s[2], 0x80);
    assert s[..3] <= EncodeScalar(c);
  }

  /** A whole character that agrees with the text beyond a cut would not have been cut there. */
  lemma NoLonger(s: Bytes, e: Bytes, n: nat)
    requires s != [] && n == NextChunk(s).0 && n < |s| && n + 1 <= |e| && s[..n + 1] <= e && NextChunk(e) == (|e|, true)
    ensures NextChunk(s).1
  {
    forall i | 0 <= i <= n ensures s[i] == e[i] { assert s[..n + 1][i] == s[i]; }
  }
}
