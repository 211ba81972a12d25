/** The launcher's strict Base64 decoder and the encoder of section 4 of RFC 4648. */
module Base64 {
  import opened Prelude

  const PAD: Byte := 61

  datatype Base64Error = BadLength | BadSymbol | BadPadding

  /** The alphabet, as the encoder writes it. */
  function Symbol(v: nat): Byte
    requires v < 64
  {
    if v < 26 then 65 + v
    else if v < 52 then 97 + (v - 26)
    else if v < 62 then 48 + (v - 52)
    else if v == 62 then 43 else 47
  }

  /** The alphabet, as the decoder reads it. */
  function SymbolValue(b: Byte): (v: Option<nat>)
    ensures v.Some? ==> v.value < 64
  {
    if 65 <= b <= 90 then Some(b - 65)
    else if 97 <= b <= 122 then Some(b - 97 + 26)
    else if 48 <= b <= 57 then Some(b - 48 + 52)
    else if b == 43 then Some(62)
    else if b == 47 then Some(63)
    else None
  }

  lemma SymbolsAgree(v: nat, b: Byte)
    requires v < 64
    ensures SymbolValue(b) == Some(v) <==> b == Symbol(v)
    ensures Symbol(v) != PAD
  {
  }

  // ---- RFC 4648, section 4 ----------------------------------------------------------------

  /** One group of one, two or three octets as four symbols. */
  function EncodeGroup(g: Bytes): (q: Bytes)
    requires 1 <= |g| <= 3
    ensures |q| == 4
  {
    var x, y, z := g[0], if |g| > 1 then g[1] else 0, if |g| > 2 then g[2] else 0;
    [ Symbol(x / 4),
      Symbol(x % 4 * 16 + y / 16),
      if |g| > 1 then Symbol(y % 16 * 4 + z / 64) else PAD,
      if |g| > 2 then Symbol(z % 64) else PAD ]
  }

  function Encode(b: Bytes): (s: Bytes) {
    if b == [] then []
    else if |b| <= 3 then EncodeGroup(b)
    else EncodeGroup(b[..3]) + Encode(b[3..])
  }

  const UPPER: string := "ABCDEFGHIJKLMNOPQRSTUVWXYZ"
  const LOWER: string := "abcdefghijklmnopqrstuvwxyz"
  const DIGITS: string := "0123456789"

  /** The alphabet of Table 1. */
  lemma AlphabetIs(v: nat)
    requires v < 64
    ensures Symbol(v) == (if v < 26 then UPPER[v] else if v < 52 then LOWER[v - 26] else if v < 62 then DIGITS[v - 52]
                          else if v == 62 then '+' else '/') as int
  {
    if v < 26 { UpperIs(v); } else if v < 52 { LowerIs(v - 26); } else if v < 62 { DigitsAre(v - 52); }
  }

  lemma UpperIs(i: nat)
    requires i < 26
    ensures UPPER[i] as int == 65 + i
  {
  }

  lemma LowerIs(i: nat)
    requires i < 26
    ensures LOWER[i] as int == 97 + i
  {
  }

  lemma DigitsAre(i: nat)
    requires i < 10
    ensures DIGITS[i] as int == 48 + i
  {
  }

  /** The number of a symbol in the alphabet; a pad counts as zero. */
  function Sextet(b: Byte): nat { if SymbolValue(b).Some? then SymbolValue(b).value else 0 }

  /**
   * A group as the standard describes it: its octets and its sextets are the same string of
   * bits, filled up with zeros, and pads stand for the sextets that are not needed.
   */
  lemma GroupSpells(g: Bytes)
    requires 1 <= |g| <= 3
    ensures var q := EncodeGroup(g);
            var bits := Sextet(q[0]) * 0x4_0000 + Sextet(q[1]) * 0x1000 + Sextet(q[2]) * 0x40 + Sextet(q[3]);
            && bits == (g[0] as int) * 0x1_0000 + (if |g| > 1 then g[1] as int else 0) * 0x100 + (if |g| > 2 then g[2] else 0)
            && q[0] != 61 && q[1] != 61 && (q[2] == 61 <==> |g| == 1) && (q[3] == 61 <==> |g| < 3)
  {
    var x, y, z := g[0], if |g| > 1 then g[1] else 0, if |g| > 2 then g[2] else 0;
    SpelledBits(g, x, y, z, x / 4, x % 4 * 16 + y / 16, y % 16 * 4 + z / 64, z % 64);
  }

  lemma SpelledBits(g: Bytes, x: nat, y: nat, z: nat, a: nat, b: nat, c: nat, d: nat)
    requires 1 <= |g| <= 3
    requires x == g[0] && y == (if |g| > 1 then g[1] else 0) && z == if |g| > 2 then g[2] else 0
    requires a == x / 4 && b == x % 4 * 16 + y / 16 && c == y % 16 * 4 + z / 64 && d == z % 64
    ensures var q := EncodeGroup(g);
            && Sextet(q[0]) == a && Sextet(q[1]) == b && Sextet(q[2]) == c && Sextet(q[3]) == d
            && a * 0x4_0000 + b * 0x1000 + c * 0x40 + d == x * 0x1_0000 + y * 0x100 + z
            && q[0] != PAD && q[1] != PAD && (q[2] == PAD <==> |g| == 1) && (q[3] == PAD <==> |g| < 3)
  {
    OctetsThereAndBack(x, y, z, a, b, c, d);
    GroupIsSpelled(g, x, y, z, a, b, c, d);
    SymbolsAgree(a, Symbol(a));
    SymbolsAgree(b, Symbol(b));
    SymbolsAgree(c, Symbol(c));
    SymbolsAgree(d, Symbol(d));
  }

  /** Group by group: three octets become the four symbols in the same place. */
  lemma {:induction false} GroupAt(b: Bytes, i: nat)
    requires 3 * i < |b|
    ensures 4 * i + 4 <= |Encode(b)| && Encode(b)[4 * i..4 * i + 4] == EncodeGroup(b[3 * i..Min(3 * i + 3, |b|)])
  {
    if |b| <= 3 {
      assert b[0..|b|] == b && Encode(b)[0..4] == Encode(b);
    } else if i == 0 {
      assert Encode(b)[0..4] == EncodeGroup(b[..3]);
    } else {
      GroupAt(b[3..], i - 1);
      Shifted(b, b[3..], 3, 3 * i - 3, Min(3 * i, |b| - 3));
      Shifted(Encode(b), Encode(b[3..]), 4, 4 * i - 4, 4 * i);
    }
  }

  lemma Shifted(s: Bytes, t: Bytes, k: nat, i: nat, j: nat)
    requires k <= |s| && t == s[k..] && i <= j <= |t|
    ensures t[i..j] == s[k + i..k + j]
  {
  }

  // ---- The decoder ------------------------------------------------------------------------

  /** The three octets that four sextets spell, and back. */
  function Octet0(a: nat, b: nat): nat { a * 4 + b / 16 }
  function Octet1(b: nat, c: nat): nat { b % 16 * 16 + c / 4 }
  function Octet2(c: nat, d: nat): nat { c % 4 * 64 + d }

  lemma OctetsThereAndBack(x: nat, y: nat, z: nat, a: nat, b: nat, c: nat, d: nat)
    requires x < 256 && y < 256 && z < 256
    requires a == x / 4 && b == x % 4 * 16 + y / 16 && c == y % 16 * 4 + z / 64 && d == z % 64
    ensures a < 64 && b < 64 && c < 64 && d < 64
    ensures Octet0(a, b) == x && Octet1(b, c) == y && Octet2(c, d) == z
    ensures y == 0 ==> b % 16 == 0
    ensures z == 0 ==> c % 4 == 0 && d == 0
    ensures y == 0 && z == 0 ==> c == 0
  {
    Cut(x, 4, 64);
    Cut(y, 16, 16);
    Cut(z, 64, 4);
    DivModUnique(b, 16, x % 4, y / 16);
    DivModUnique(c, 4, y % 16, z / 64);
  }

  lemma SextetsThereAndBack(a: nat, b: nat, c: nat, d: nat)
    requires a < 64 && b < 64 && c < 64 && d < 64
    ensures var x, y, z := Octet0(a, b), Octet1(b, c), Octet2(c, d);
            && x < 256 && y < 256 && z < 256
            && x / 4 == a && x % 4 * 16 + y / 16 == b && y % 16 * 4 + z / 64 == c && z % 64 == d
  {
    Cut(b, 16, 4);
    Cut(c, 4, 16);
    DivModUnique(Octet0(a, b), 4, a, b / 16);
    DivModUnique(Octet1(b, c), 16, b % 16, c / 4);
    DivModUnique(Octet2(c, d), 64, c % 4, d);
  }

  /** Quotient and remainder by a part of the range. */
  lemma Cut(v: nat, low: nat, high: nat)
    requires low > 0 && v < high * low
    ensures v == v / low * low + v % low && v % low < low && v / low < high
  {
    MulMonotone(high, v / low, low);
  }

  /** The source packs the sextets into one 24-bit number and takes its three bytes. */
  lemma PackedOctets(a: nat, b: nat, c: nat, d: nat)
    requires a < 64 && b < 64 && c < 64 && d < 64
    ensures var n := a * 262144 + b * 4096 + c * 64 + d;
            && n / 65536 % 256 == Octet0(a, b)
            && n / 256 % 256 == Octet1(b, c)
            && n % 256 == Octet2(c, d)
  {
    Cut(b, 16, 4);
    Cut(c, 4, 16);
    PackedParts(a, b, b / 16, b % 16, c, c / 4, c % 4, d);
  }

  lemma PackedParts(a: nat, b: nat, bh: nat, bl: nat, c: nat, ch: nat, cl: nat, d: nat)
    requires a < 64 && bh < 4 && bl < 16 && ch < 16 && cl < 4 && d < 64
    requires b == bh * 16 + bl && c == ch * 4 + cl
    ensures var n := a * 262144 + b * 4096 + c * 64 + d;
            && n / 65536 % 256 == a * 4 + bh
            && n / 256 % 256 == bl * 16 + ch
            && n % 256 == cl * 64 + d
  {
    BytesOfNumber(a * 262144 + b * 4096 + c * 64 + d, a * 4 + bh, bl * 16 + ch, cl * 64 + d);
  }

  lemma BytesOfNumber(n: nat, x: nat, y: nat, z: nat)
    requires x < 256 && y < 256 && z < 256 && n == x * 65536 + y * 256 + z
    ensures n / 65536 % 256 == x && n / 256 % 256 == y && n % 256 == z
  {
    DivModUnique(n, 65536, x, y * 256 + z);
    DivModUnique(n, 256, x * 256 + y, z);
    DivModUnique(x * 256 + y, 256, x, y);
  }

  /** Padding before the end, a lone third pad, or pad bits that are not zero. */
  predicate Mispadded(q: Bytes, last: bool, b: nat, c: nat)
    requires |q| == 4
  {
    || ((q[2] == PAD || q[3] == PAD) && !last)
    || (q[2] == PAD && (q[3] != PAD || b % 16 != 0))
    || (q[3] == PAD && q[2] != PAD && c % 4 != 0)
  }

  /** One chunk of four input bytes; `last` says whether it is the final chunk. */
  function DecodeChunk(q: Bytes, last: bool): Result<Bytes, Base64Error>
    requires |q| == 4
  {
    var a, b := SymbolValue(q[0]), SymbolValue(q[1]);
    var c := if q[2] == PAD then Some(0) else SymbolValue(q[2]);
    var d := if q[3] == PAD then Some(0) else SymbolValue(q[3]);
    if a.None? || b.None? || c.None? || d.None? then Err(BadSymbol)
    else if Mispadded(q, last, b.value, c.value) then Err(BadPadding)
    else
      var x, y, z := Octet0(a.value, b.value), Octet1(b.value, c.value), Octet2(c.value, d.value);
      Ok(if q[2] == PAD then [x] else if q[3] == PAD then [x, y] else [x, y, z])
  }

  /** The chunks from `i` on. */
  function DecodeFrom(s: Bytes, i: nat): Result<Bytes, Base64Error>
    requires i <= |s|
    decreases |s| - i
  {
    if |s| - i < 4 then Ok([])
    else
      match DecodeChunk(s[i..i + 4], |s| == i + 4)
      case Err(e) => Err(e)
      case Ok(group) =>
        match DecodeFrom(s, i + 4)
        case Err(e) => Err(e)
        case Ok(rest) => Ok(group + rest)
  }

  function Decode(s: Bytes): Result<Bytes, Base64Error> {
    if |s| % 4 != 0 then Err(BadLength) else DecodeFrom(s, 0)
  }


  /** The pushes of one chunk: one byte always, the others when their symbol is not padding. */
  method PushOctets(a: nat, b: nat, c: nat, d: nat, chunk: Bytes) returns (more: Bytes)
    requires a < 64 && b < 64 && c < 64 && d < 64
    requires |chunk| == 4 && (chunk[2] == PAD ==> chunk[3] == PAD)
    ensures var x, y, z := Octet0(a, b), Octet1(b, c), Octet2(c, d);
            more == if chunk[2] == PAD then [x] else if chunk[3] == PAD then [x, y] else [x, y, z]
  {
    var n := a * 262144 + b * 4096 + c * 64 + d;
    PackedOctets(a, b, c, d);
    more := [n / 65536 % 256];
    if chunk[2] != PAD {
      more := more + [n / 256 % 256];
    }
    if chunk[3] != PAD {
      more := more + [n % 256];
    }
  }

  /** The body of the loop, with the 24-bit number of the source. */
  method DecodeQuad(chunk: Bytes, last: bool) returns (r: Result<Bytes, Base64Error>)
    requires |chunk| == 4
    ensures r == DecodeChunk(chunk, last)
  {
    var a, b := SymbolValue(chunk[0]), SymbolValue(chunk[1]);
    if a.None? || b.None? {
      return Err(BadSymbol);
    }
    var c := if chunk[2] == PAD then Some(0) else SymbolValue(chunk[2]);
    var d := if chunk[3] == PAD then Some(0) else SymbolValue(chunk[3]);
    if c.None? || d.None? {
      return Err(BadSymbol);
    }
    if Mispadded(chunk, last, b.value, c.value) {
      return Err(BadPadding);
    }
    var bytes: Bytes := PushOctets(a.value, b.value, c.value, d.value, chunk);
    r := Ok(bytes);
  }

  /** In the alphabet, or a pad where one may stand. */
  predicate Spelled(q: Bytes)
    requires |q| == 4
  {
    && SymbolValue(q[0]).Some? && SymbolValue(q[1]).Some?
    && (q[2] == 61 || SymbolValue(q[2]).Some?) && (q[3] == 61 || SymbolValue(q[3]).Some?)
  }

  function ChunkAt(s: Bytes, k: nat): Result<Bytes, Base64Error>
    requires k + 4 <= |s|
  {
    DecodeChunk(s[k..k + 4], |s| == k + 4)
  }

  /** The chunk at `k` is the first from `i` on that fails: foreign symbols are found before bad padding. */
  ghost predicate Faulty(s: Bytes, i: nat, k: nat, error: Base64Error) {
    && i <= k && k + 4 <= |s| && (k - i) % 4 == 0
    && error == (if Spelled(s[k..k + 4]) then BadPadding else BadSymbol)
    && ChunkAt(s, k).Err?
    && forall j :: i <= j < k && (j - i) % 4 == 0 ==> ChunkAt(s, j).Ok?
  }

  lemma {:induction false} FirstFault(s: Bytes, i: nat) returns (k: nat)
    requires i <= |s| && DecodeFrom(s, i).Err?
    ensures Faulty(s, i, k, DecodeFrom(s, i).error)
    decreases |s| - i
  {
    if ChunkAt(s, i).Err? {
      k := i;
    } else {
      k := FirstFault(s, i + 4);
      FaultyEarlier(s, i, k, DecodeFrom(s, i).error);
    }
  }

  lemma FaultyEarlier(s: Bytes, i: nat, k: nat, error: Base64Error)
    requires i + 4 <= |s| && ChunkAt(s, i).Ok? && Faulty(s, i + 4, k, error)
    ensures Faulty(s, i, k, error)
  {
    forall j | i <= j < k && (j - i) % 4 == 0 ensures ChunkAt(s, j).Ok? {
      if j > i { assert j >= i + 4 && (j - (i + 4)) % 4 == 0; }
    }
  }

  /** Which error: of the length if it is no multiple of four, else of the first chunk that does not decode. */
  lemma ErrorIs(s: Bytes)
    ensures Decode(s) == Err(BadLength) <==> |s| % 4 != 0
    ensures Decode(s).Err? && |s| % 4 == 0 ==> exists k :: Faulty(s, 0, k, Decode(s).error)
  {
    if Decode(s).Err? && |s| % 4 == 0 { var k := FirstFault(s, 0); }
    if DecodeFrom(s, 0).Err? { var k := FirstFault(s, 0); }
  }

  /** The loop over chunks, pushing one to three bytes for each. */
  method DecodeBase64(input: Bytes) returns (r: Result<Bytes, Base64Error>)
    ensures r == Decode(input)
    ensures forall b: Bytes :: r == Ok(b) <==> input == Encode(b)
  {
    DecodeIffEncoded(input);
    if |input| % 4 != 0 {
      return Err(BadLength);
    }
    var out: Bytes := [];
    var index := 0;
    PrependNothing(DecodeFrom(input, 0));
    while index < |input| / 4
      invariant 0 <= index <= |input| / 4
      invariant DecodeFrom(input, 0) == Prepend(out, DecodeFrom(input, 4 * index))
    {
      var group := DecodeQuad(input[4 * index..4 * index + 4], index + 1 == |input| / 4);
      if group.Err? {
        return group;
      }
      PrependTwice(out, group.value, DecodeFrom(input, 4 * index + 4));
      out := out + group.value;
      index := index + 1;
    }
    assert out + [] == out;
    r := Ok(out);
  }

  function Prepend(a: Bytes, r: Result<Bytes, Base64Error>): Result<Bytes, Base64Error> {
    match r
    case Err(e) => Err(e)
    case Ok(rest) => Ok(a + rest)
  }

  lemma PrependNothing(r: Result<Bytes, Base64Error>)
    ensures Prepend([], r) == r
  {
    if r.Ok? {
      assert [] + r.value == r.value;
    }
  }

  lemma PrependTwice(a: Bytes, b: Bytes, r: Result<Bytes, Base64Error>)
    ensures Prepend(a, Prepend(b, r)) == Prepend(a + b, r)
  {
    if r.Ok? {
      assert a + (b + r.value) == a + b + r.value;
    }
  }

  // ---- Decoder and encoder are inverse to each other ---------------------------------------

  /** A chunk with known sextets and sound padding. */
  lemma DecodeChunkOf(q: Bytes, last: bool, a: nat, b: nat, c: nat, d: nat)
    requires |q| == 4 && SymbolValue(q[0]) == Some(a) && SymbolValue(q[1]) == Some(b)
    requires if q[2] == PAD then c == 0 else SymbolValue(q[2]) == Some(c)
    requires if q[3] == PAD then d == 0 else SymbolValue(q[3]) == Some(d)
    requires !Mispadded(q, last, b, c)
    ensures var x, y, z := Octet0(a, b), Octet1(b, c), Octet2(c, d);
            DecodeChunk(q, last) == Ok(if q[2] == PAD then [x] else if q[3] == PAD then [x, y] else [x, y, z])
  {
  }

  function GroupOf(a: nat, b: nat, c: nat, d: nat, n: nat): (q: Bytes)
    requires a < 64 && b < 64 && c < 64 && d < 64
    ensures |q| == 4
  {
    [Symbol(a), Symbol(b), if n > 1 then Symbol(c) else PAD, if n > 2 then Symbol(d) else PAD]
  }

  /** A group's symbols, for any sextets that spell its octets. */
  lemma SpelledGroupDecodes(g: Bytes, last: bool, a: nat, b: nat, c: nat, d: nat)
    requires a < 64 && b < 64 && c < 64 && d < 64
    requires 1 <= |g| <= 3 && (|g| < 3 ==> last)
    requires Octet0(a, b) == g[0] && (|g| > 1 ==> Octet1(b, c) == g[1]) && (|g| > 2 ==> Octet2(c, d) == g[2])
    requires |g| == 1 ==> b % 16 == 0 && c == 0
    requires |g| < 3 ==> c % 4 == 0 && d == 0
    ensures DecodeChunk(GroupOf(a, b, c, d, |g|), last) == Ok(g)
  {
    SymbolsAgree(a, Symbol(a));
    SymbolsAgree(b, Symbol(b));
    SymbolsAgree(c, Symbol(c));
    SymbolsAgree(d, Symbol(d));
    var q := [Symbol(a), Symbol(b), if |g| > 1 then Symbol(c) else PAD, if |g| > 2 then Symbol(d) else PAD];
    DecodeChunkOf(q, last, a, b, c, d);
    assert g == if |g| == 1 then [g[0]] else if |g| == 2 then [g[0], g[1]] else [g[0], g[1], g[2]];
  }

  /** The encoder's symbols in terms of the three octets, zero where there is none. */
  lemma GroupIsSpelled(g: Bytes, x: nat, y: nat, z: nat, a: nat, b: nat, c: nat, d: nat)
    requires 1 <= |g| <= 3 && a < 64 && b < 64 && c < 64 && d < 64
    requires x == g[0] && y == (if |g| > 1 then g[1] else 0) && z == if |g| > 2 then g[2] else 0
    requires a == x / 4 && b == x % 4 * 16 + y / 16 && c == y % 16 * 4 + z / 64 && d == z % 64
    ensures EncodeGroup(g) == GroupOf(a, b, c, d, |g|)
  {
  }

  lemma GroupDecodes(g: Bytes, last: bool, x: nat, y: nat, z: nat, a: nat, b: nat, c: nat, d: nat)
    requires 1 <= |g| <= 3 && (|g| < 3 ==> last)
    requires x == g[0] && y == (if |g| > 1 then g[1] else 0) && z == if |g| > 2 then g[2] else 0
    requires a == x / 4 && b == x % 4 * 16 + y / 16 && c == y % 16 * 4 + z / 64 && d == z % 64
    ensures DecodeChunk(EncodeGroup(g), last) == Ok(g)
  {
    OctetsThereAndBack(x, y, z, a, b, c, d);
    GroupIsSpelled(g, x, y, z, a, b, c, d);
    SpelledGroupDecodes(g, last, a, b, c, d);
  }

  lemma EncodedGroupDecodes(g: Bytes, last: bool)
    requires 1 <= |g| <= 3 && (|g| < 3 ==> last)
    ensures DecodeChunk(EncodeGroup(g), last) == Ok(g)
  {
    var x, y, z := g[0], if |g| > 1 then g[1] else 0, if |g| > 2 then g[2] else 0;
    GroupDecodes(g, last, x, y, z, x / 4, x % 4 * 16 + y / 16, y % 16 * 4 + z / 64, z % 64);
  }

  lemma EncodeSpelled(g: Bytes, x: nat, y: nat, z: nat, a: nat, b: nat, c: nat, d: nat)
    requires a < 64 && b < 64 && c < 64 && d < 64 && 1 <= |g| <= 3
    requires x == Octet0(a, b) && y == Octet1(b, c) && z == Octet2(c, d)
    requires x == g[0] && y == (if |g| > 1 then g[1] else 0) && z == if |g| > 2 then g[2] else 0
    ensures EncodeGroup(g) == GroupOf(a, b, c, d, |g|)
  {
    SextetsThereAndBack(a, b, c, d);
  }

  lemma DecodedGroupIsCanonical(q: Bytes, last: bool)
    requires |q| == 4 && DecodeChunk(q, last).Ok?
    ensures var g := DecodeChunk(q, last).value;
            1 <= |g| <= 3 && (|g| < 3 ==> last) && EncodeGroup(g) == q
  {
    var a, b := SymbolValue(q[0]).value, SymbolValue(q[1]).value;
    var c := if q[2] == PAD then 0 else SymbolValue(q[2]).value;
    var d := if q[3] == PAD then 0 else SymbolValue(q[3]).value;
    SymbolsAgree(a, q[0]);
    SymbolsAgree(b, q[1]);
    SymbolsAgree(c, q[2]);
    SymbolsAgree(d, q[3]);
    var g := DecodeChunk(q, last).value;
    EncodeSpelled(g, Octet0(a, b), Octet1(b, c), Octet2(c, d), a, b, c, d);
    assert q == GroupOf(a, b, c, d, |g|);
  }

  lemma {:induction false} DecodeFromAppend(pre: Bytes, s: Bytes, i: nat)
    requires i <= |s|
    ensures DecodeFrom(pre + s, |pre| + i) == DecodeFrom(s, i)
    decreases |s| - i
  {
    if |s| - i >= 4 {
      assert (pre + s)[|pre| + i..|pre| + i + 4] == s[i..i + 4];
      DecodeFromAppend(pre, s, i + 4);
    }
  }

  lemma {:induction false} EncodeLength(b: Bytes)
    ensures |Encode(b)| == (|b| + 2) / 3 * 4
  {
    if |b| > 3 {
      EncodeLength(b[3..]);
    }
  }

  lemma {:induction false} DecodeFromEncode(b: Bytes)
    ensures DecodeFrom(Encode(b), 0) == Ok(b)
  {
    var s := Encode(b);
    if b == [] {
    } else if |b| <= 3 {
      EncodedGroupDecodes(b, true);
      assert s[0..4] == s && b + [] == b;
      assert DecodeFrom(s, 4) == Ok([]);
    } else {
      var g, t := b[..3], b[3..];
      DecodeFromEncode(t);
      EncodedGroupDecodes(g, false);
      EncodeLength(t);
      DecodeFromAppend(EncodeGroup(g), Encode(t), 0);
      assert s[0..4] == EncodeGroup(g);
      assert b == g + t;
    }
  }

  lemma DecodeAligned(s: Bytes)
    requires |s| % 4 == 0
    ensures Decode(s) == DecodeFrom(s, 0)
  {
  }

  lemma DecodeOfEncode(b: Bytes)
    ensures Decode(Encode(b)) == Ok(b)
  {
    EncodeLength(b);
    DivModUnique(|Encode(b)|, 4, (|b| + 2) / 3, 0);
    DecodeFromEncode(b);
    DecodeAligned(Encode(b));
  }

  lemma EncodeGroupThenRest(g: Bytes, rest: Bytes)
    requires 1 <= |g| <= 3 && (|g| < 3 ==> rest == [])
    ensures Encode(g + rest) == EncodeGroup(g) + Encode(rest)
  {
    if rest == [] {
      assert g + rest == g && EncodeGroup(g) + [] == EncodeGroup(g);
    } else {
      assert (g + rest)[..3] == g && (g + rest)[3..] == rest;
    }
  }

  lemma DecodeFromStep(s: Bytes, i: nat)
    requires i + 4 <= |s| && DecodeFrom(s, i).Ok?
    ensures DecodeChunk(s[i..i + 4], |s| == i + 4).Ok? && DecodeFrom(s, i + 4).Ok?
    ensures DecodeFrom(s, i).value == DecodeChunk(s[i..i + 4], |s| == i + 4).value + DecodeFrom(s, i + 4).value
    ensures i + 4 == |s| ==> DecodeFrom(s, i + 4).value == []
  {
  }

  lemma {:induction false} EncodeOfDecode(s: Bytes, i: nat, quads: nat)
    requires |s| == i + 4 * quads && DecodeFrom(s, i).Ok?
    ensures Encode(DecodeFrom(s, i).value) == s[i..]
    decreases quads
  {
    if quads > 0 {
      DecodeFromStep(s, i);
      EncodeOfDecode(s, i + 4, quads - 1);
      FirstQuad(s[i..i + 4], |s| == i + 4, DecodeFrom(s, i + 4).value);
      assert s[i..] == s[i..i + 4] + s[i + 4..];
    }
  }

  /** Re-encoding a decoded chunk and what follows it gives the chunk back, then the rest. */
  lemma FirstQuad(q: Bytes, last: bool, rest: Bytes)
    requires |q| == 4 && DecodeChunk(q, last).Ok? && (last ==> rest == [])
    ensures Encode(DecodeChunk(q, last).value + rest) == q + Encode(rest)
  {
    DecodedGroupIsCanonical(q, last);
    EncodeGroupThenRest(DecodeChunk(q, last).value, rest);
  }

  lemma EncodeOfWholeDecode(s: Bytes)
    requires Decode(s).Ok?
    ensures Encode(Decode(s).value) == s
  {
    EncodeOfDecode(s, 0, |s| / 4);
    assert s[0..] == s;
  }

  /** Decoding succeeds exactly on canonical encodings, and then inverts the encoder. */
  lemma DecodeIffEncoded(s: Bytes)
    ensures forall b: Bytes :: Decode(s) == Ok(b) <==> s == Encode(b)
  {
    forall b: Bytes
      ensures Decode(s) == Ok(b) <==> s == Encode(b)
    {
      if s == Encode(b) { DecodeOfEncode(b); }
      if Decode(s) == Ok(b) { EncodeOfWholeDecode(s); }
    }
  }
}
