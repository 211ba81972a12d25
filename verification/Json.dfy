/**
 * JSON text as the launcher writes it (serde_json without spaces), and a reader after RFC 8259
 * that gets back what was written.
 */
module Json {
  import opened Prelude
  import Decimal
  import opened Utf8

  datatype Json = Null | Bool(b: bool) | Num(n: int) | Str(text: Bytes) | Obj(fields: seq<Field>)
  datatype Field = Field(name: Bytes, value: Json)

  const QUOTE: Byte := 0x22
  const BACKSLASH: Byte := 0x5C

  function Ascii(s: string): (b: Bytes)
    ensures |b| == |s|
  {
    seq(|s|, i requires 0 <= i < |s| => s[i] as int % 128)
  }

  // ---- Writing ----------------------------------------------------------------------------

  function Hex(d: nat): Byte
    requires d < 16
  {
    if d < 10 then 48 + d else 87 + d
  }

  /** serde_json's escape table: section 7 of RFC 8259 asks for no more than this. */
  function EscapeByte(b: Byte): (e: Bytes)
    ensures 1 <= |e| <= 6
  {
    if b == 0x22 then [0x5C, 0x22]
    else if b == 0x5C then [0x5C, 0x5C]
    else if b == 0x08 then [0x5C, 0x62]
    else if b == 0x09 then [0x5C, 0x74]
    else if b == 0x0A then [0x5C, 0x6E]
    else if b == 0x0C then [0x5C, 0x66]
    else if b == 0x0D then [0x5C, 0x72]
    else if b < 0x20 then [0x5C, 0x75, 48, 48, Hex(b / 16), Hex(b % 16)]
    else [b]
  }

  function Escape(s: Bytes): Bytes {
    if s == [] then [] else EscapeByte(s[0]) + Escape(s[1..])
  }

  function Quoted(s: Bytes): Bytes { [QUOTE] + (Escape(s) + [QUOTE]) }

  function Number(n: int): string { if n < 0 then "-" + Decimal.Print(-n) else Decimal.Print(n) }

  function Render(v: Json): (s: Bytes)
    ensures s != []
    decreases v, 0
  {
    match v
    case Null => Ascii("null")
    case Bool(b) => if b then Ascii("true") else Ascii("false")
    case Num(n) => Ascii(Number(n))
    case Str(text) => Quoted(text)
    case Obj(fields) => [0x7B] + (RenderFields(fields) + [0x7D])
  }

  function RenderFields(fs: seq<Field>): Bytes
    decreases fs, 0
  {
    if fs == [] then []
    else if |fs| == 1 then RenderField(fs[0])
    else RenderField(fs[0]) + ([0x2C] + RenderFields(fs[1..]))
  }

  function RenderField(f: Field): (s: Bytes)
    ensures s != [] && s[0] == QUOTE
    decreases f
  {
    Quoted(f.name) + ([0x3A] + Render(f.value))
  }

  // ---- Reading ----------------------------------------------------------------------------

  function HexValue(b: Byte): Option<nat> {
    if 48 <= b <= 57 then Some(b - 48)
    else if 97 <= b <= 102 then Some(b - 87)
    else if 65 <= b <= 70 then Some(b - 55)
    else None
  }

  /** The code unit of four hexadecimal digits, if it is a character by itself. */
  function UnitOf(s: Bytes): Option<Bytes>
    requires |s| >= 4
  {
    var a, b, c, d := HexValue(s[0]), HexValue(s[1]), HexValue(s[2]), HexValue(s[3]);
    if a.None? || b.None? || c.None? || d.None? then None
    else
      var unit := a.value * 4096 + b.value * 256 + c.value * 16 + d.value;
      if IsScalar(unit) then Some(EncodeScalar(unit)) else None
  }

  /** The character after a backslash, and how many bytes spell it. */
  function Unescaped(s: Bytes): Option<(Bytes, nat)>
    requires s != []
  {
    match s[0]
    case 0x22 => Some(([0x22], 1))
    case 0x5C => Some(([0x5C], 1))
    case 0x2F => Some(([0x2F], 1))
    case 0x62 => Some(([0x08], 1))
    case 0x66 => Some(([0x0C], 1))
    case 0x6E => Some(([0x0A], 1))
    case 0x72 => Some(([0x0D], 1))
    case 0x74 => Some(([0x09], 1))
    case 0x75 => if |s| < 5 then None else (match UnitOf(s[1..]) case None => None case Some(e) => Some((e, 5)))
    case _ => None
  }

  /** The text up to the closing quote, and what follows it. Control bytes must be escaped. */
  function ReadString(s: Bytes): (r: Option<(Bytes, Bytes)>)
    ensures r.Some? ==> |r.value.1| < |s|
    decreases |s|
  {
    if s == [] || s[0] < 0x20 then None
    else if s[0] == QUOTE then Some(([], s[1..]))
    else if s[0] == BACKSLASH then
      if |s| < 2 then None
      else
        match Unescaped(s[1..])
        case None => None
        case Some((text, used)) =>
          if used > |s| - 1 || used == 0 then None else Prefixed(text, ReadString(s[1 + used..]))
    else Prefixed([s[0]], ReadString(s[1..]))
  }

  function Prefixed(text: Bytes, r: Option<(Bytes, Bytes)>): (p: Option<(Bytes, Bytes)>)
    ensures p.Some? ==> r.Some? && p.value.1 == r.value.1
  {
    match r
    case None => None
    case Some((more, rest)) => Some((text + more, rest))
  }

  predicate IsDigit(b: Byte) { 48 <= b <= 57 }

  function DigitOf(b: Byte): nat
    requires IsDigit(b)
  {
    b - 48
  }

  /** Digits as far as they go. */
  function ReadDigits(s: Bytes, seen: nat): (r: (nat, Bytes))
    ensures |r.1| <= |s| && (s != [] && IsDigit(s[0]) ==> |r.1| < |s|)
  {
    if s == [] || !IsDigit(s[0]) then (seen, s) else ReadDigits(s[1..], seen * 10 + DigitOf(s[0]))
  }

  function StartsWith(s: Bytes, word: Bytes): bool { word <= s }

  function ReadValue(s: Bytes): (r: Option<(Json, Bytes)>)
    ensures r.Some? ==> |r.value.1| < |s|
    decreases |s|, 0
  {
    if s == [] then None
    else if s[0] == QUOTE then
      (match ReadString(s[1..]) case None => None case Some((text, rest)) => Some((Str(text), rest)))
    else if s[0] == 0x7B then
      if |s| > 1 && s[1] == 0x7D then Some((Obj([]), s[2..]))
      else (match ReadFields(s[1..]) case None => None case Some((fs, rest)) => Some((Obj(fs), rest)))
    else if StartsWith(s, Ascii("null")) then Some((Null, s[4..]))
    else if StartsWith(s, Ascii("true")) then Some((Bool(true), s[4..]))
    else if StartsWith(s, Ascii("false")) then Some((Bool(false), s[5..]))
    else if s[0] == 0x2D then
      if |s| < 2 || !IsDigit(s[1]) then None
      else var (n, rest) := ReadDigits(s[1..], 0); Some((Num(0 - n), rest))
    else if IsDigit(s[0]) then var (n, rest) := ReadDigits(s, 0); Some((Num(n), rest))
    else None
  }

  /** One or more fields and the closing brace. */
  function ReadFields(s: Bytes): (r: Option<(seq<Field>, Bytes)>)
    ensures r.Some? ==> |r.value.1| < |s|
    decreases |s|, 1
  {
    if s == [] || s[0] != QUOTE then None
    else
      match ReadString(s[1..])
      case None => None
      case Some((name, after)) =>
        if after == [] || after[0] != 0x3A then None
        else
          match ReadValue(after[1..])
          case None => None
          case Some((value, rest)) =>
            if rest == [] then None
            else if rest[0] == 0x7D then Some(([Field(name, value)], rest[1..]))
            else if rest[0] != 0x2C then None
            else
              match ReadFields(rest[1..])
              case None => None
              case Some((more, end)) => Some(([Field(name, value)] + more, end))
  }

  // ---- What is written is read back --------------------------------------------------------

  lemma HexThereAndBack(d: nat)
    requires d < 16
    ensures HexValue(Hex(d)) == Some(d)
  {
  }

  /** Each escape reads back as its byte; what is not escaped is no quote, backslash or control byte. */
  lemma EscapeByteReads(b: Byte, rest: Bytes)
    ensures ReadString(EscapeByte(b) + rest) == Prefixed([b], ReadString(rest))
  {
    var e := EscapeByte(b);
    var s := e + rest;
    if |e| == 1 {
      assert s[1..] == rest;
    } else if |e| == 2 {
      assert s[1..][0] == e[1] && s[2..] == rest;
    } else {
      HexThereAndBack(b / 16);
      HexThereAndBack(b % 16);
      var t := s[1..];
      assert t[0] == 0x75 && t[1..][0] == 48 && t[1..][1] == 48 && t[1..][2] == Hex(b / 16) && t[1..][3] == Hex(b % 16);
      assert b / 16 * 16 + b % 16 == b;
      assert UnitOf(t[1..]) == Some([b]);
      assert s[6..] == rest;
    }
  }

  lemma {:induction false} EscapeReads(text: Bytes, rest: Bytes)
    ensures ReadString(Escape(text) + ([QUOTE] + rest)) == Some((text, rest))
  {
    if text == [] {
      assert [] + ([QUOTE] + rest) == [QUOTE] + rest;
      assert ([QUOTE] + rest)[1..] == rest;
    } else {
      var more := Escape(text[1..]) + ([QUOTE] + rest);
      EscapeReads(text[1..], rest);
      EscapeByteReads(text[0], more);
      Associate(EscapeByte(text[0]), Escape(text[1..]), [QUOTE] + rest);
      assert text == [text[0]] + text[1..];
    }
  }

  lemma FirstOf(b: Byte, rest: Bytes)
    ensures ([b] + rest)[0] == b && ([b] + rest)[1..] == rest
  {
  }

  lemma QuotedReads(text: Bytes, rest: Bytes)
    ensures var s := Quoted(text) + rest;
            s != [] && s[0] == QUOTE && ReadString(s[1..]) == Some((text, rest))
  {
    EscapeReads(text, rest);
    Associate(Escape(text), [QUOTE], rest);
    Associate([QUOTE], Escape(text) + [QUOTE], rest);
    FirstOf(QUOTE, (Escape(text) + [QUOTE]) + rest);
  }

  /** Between the quotes there is no bare quote and no control byte. */
  lemma {:induction false} EscapedIsInert(text: Bytes)
    ensures forall b :: b in Escape(text) ==> b >= 0x20
    ensures forall i :: 0 <= i < |Escape(text)| && Escape(text)[i] == QUOTE ==> i > 0 && Escape(text)[i - 1] == BACKSLASH
  {
    if text != [] {
      var e, more := EscapeByte(text[0]), Escape(text[1..]);
      EscapedIsInert(text[1..]);
      forall i | 0 <= i < |e + more| && (e + more)[i] == QUOTE ensures i > 0 && (e + more)[i - 1] == BACKSLASH {
        if i >= |e| { assert more[i - |e|] == QUOTE; }
      }
    }
  }

  lemma DigitByte(c: char)
    requires Decimal.IsDigit(c)
    ensures IsDigit(c as int % 128) && DigitOf(c as int % 128) == (c - '0') as int
  {
  }

  lemma AsciiSnoc(a: string, c: char)
    ensures Ascii(a + [c]) == Ascii(a) + [c as int % 128]
  {
  }

  /** A run of digits is read as the number it spells, after what was seen before it. */
  lemma {:induction false} DigitsRead(ds: string, rest: Bytes, seen: nat)
    requires Decimal.AllDigits(ds)
    ensures ReadDigits(Ascii(ds) + rest, seen) == ReadDigits(rest, seen * Decimal.Pow10(|ds|) + Decimal.Value(ds))
  {
    if ds == "" {
      assert Ascii(ds) + rest == rest;
    } else {
      var front, last := ds[..|ds| - 1], ds[|ds| - 1];
      var b: Byte := last as int % 128;
      assert ds == front + [last] && Decimal.IsDigit(last);
      DigitByte(last);
      AsciiSnoc(front, last);
      Associate(Ascii(front), [b], rest);
      DigitsRead(front, [b] + rest, seen);
      assert ([b] + rest)[1..] == rest;
      Decimal.Distribute(seen, Decimal.Pow10(|front|), Decimal.Value(front));
    }
  }

  /** What may follow a value inside or at the end of a text: nothing, a comma or a closing brace. */
  predicate Ends(rest: Bytes) { rest == [] || rest[0] == 0x2C || rest[0] == 0x7D }

  /** A digit or a minus sign starts none of the words. */
  lemma NoWord(s: Bytes)
    requires s != [] && (IsDigit(s[0]) || s[0] == 0x2D)
    ensures !StartsWith(s, Ascii("null")) && !StartsWith(s, Ascii("true")) && !StartsWith(s, Ascii("false"))
  {
    assert Ascii("null")[0] == 110 && Ascii("true")[0] == 116 && Ascii("false")[0] == 102;
  }

  lemma ReadsNatural(s: Bytes, n: nat, rest: Bytes)
    requires s != [] && IsDigit(s[0]) && ReadDigits(s, 0) == (n, rest)
    ensures ReadValue(s) == Some((Num(n), rest))
  {
    NoWord(s);
  }

  lemma ReadsNegative(s: Bytes, t: Bytes, n: nat, rest: Bytes)
    requires s == [0x2D] + t && t != [] && IsDigit(t[0]) && ReadDigits(t, 0) == (n, rest)
    ensures ReadValue(s) == Some((Num(0 - n), rest))
  {
    NoWord(s);
    FirstOf(0x2D, t);
  }

  lemma NumberReads(n: int, rest: Bytes)
    requires Ends(rest)
    ensures ReadValue(Ascii(Number(n)) + rest) == Some((Num(n), rest))
  {
    var ds := Decimal.Print(if n < 0 then -n else n);
    PlainNumberReads(ds, if n < 0 then -n else n, rest);
    var s := Ascii(ds) + rest;
    if n < 0 {
      assert Ascii("-" + ds) == [0x2D] + Ascii(ds);
      Associate([0x2D], Ascii(ds), rest);
      ReadsNegative([0x2D] + s, s, -n, rest);
    } else {
      ReadsNatural(s, n, rest);
    }
  }

  lemma PlainNumberReads(ds: string, n: nat, rest: Bytes)
    requires ds == Decimal.Print(n) && Ends(rest)
    ensures var s := Ascii(ds) + rest; s != [] && IsDigit(s[0]) && ReadDigits(s, 0) == (n, rest)
  {
    Decimal.ValueOfPrint(n);
    DigitsRead(ds, rest, 0);
    assert Decimal.IsDigit(ds[0]);
    DigitByte(ds[0]);
    assert Ascii(ds)[0] == ds[0] as int % 128;
  }

  lemma WordReads(b: bool, rest: Bytes)
    ensures ReadValue(Ascii("null") + rest) == Some((Null, rest))
    ensures ReadValue((if b then Ascii("true") else Ascii("false")) + rest) == Some((Bool(b), rest))
  {
    assert (Ascii("null") + rest)[4..] == rest && (Ascii("true") + rest)[4..] == rest && (Ascii("false") + rest)[5..] == rest;
  }

  /** Whatever is written is read back, and the reader stops where the writer did. */
  lemma {:induction false} RenderReads(v: Json, rest: Bytes)
    requires Ends(rest)
    ensures ReadValue(Render(v) + rest) == Some((v, rest))
    decreases v, 1
  {
    match v
    case Null => WordReads(true, rest);
    case Bool(b) => WordReads(b, rest);
    case Num(n) => NumberReads(n, rest);
    case Str(text) => QuotedReads(text, rest);
    case Obj(fields) => ObjectReads(v, rest);
  }

  lemma {:induction false} ObjectReads(v: Json, rest: Bytes)
    requires v.Obj?
    ensures ReadValue(Render(v) + rest) == Some((v, rest))
    decreases v, 0
  {
    var inner := RenderFields(v.fields) + ([0x7D] + rest);
    Associate(RenderFields(v.fields), [0x7D], rest);
    Associate([0x7B], RenderFields(v.fields) + [0x7D], rest);
    FirstOf(0x7B, inner);
    if v.fields == [] {
      assert inner == [0x7D] + rest && ([0x7B] + inner)[2..] == rest;
    } else {
      FieldsRead(v.fields, rest);
      FieldsStart(v.fields);
    }
  }

  lemma FieldsStart(fs: seq<Field>)
    requires fs != []
    ensures RenderFields(fs) != [] && RenderFields(fs)[0] == QUOTE
  {
  }

  lemma {:induction false} FieldsRead(fs: seq<Field>, rest: Bytes)
    requires fs != []
    ensures ReadFields(RenderFields(fs) + ([0x7D] + rest)) == Some((fs, rest))
    decreases fs, 1
  {
    var f := fs[0];
    if |fs| == 1 {
      FieldReads(f, [0x7D] + rest);
      FirstOf(0x7D, rest);
      LastFieldRead(f, RenderField(f) + ([0x7D] + rest), rest);
      assert fs == [f];
    } else {
      var more := RenderFields(fs[1..]) + ([0x7D] + rest);
      FieldsRead(fs[1..], rest);
      FieldReads(f, [0x2C] + more);
      FirstOf(0x2C, more);
      Associate([0x2C], RenderFields(fs[1..]), [0x7D] + rest);
      Associate(RenderField(f), [0x2C] + RenderFields(fs[1..]), [0x7D] + rest);
      AnotherFieldRead(f, RenderField(f) + ([0x2C] + more), more, fs[1..], rest);
      assert fs == [f] + fs[1..];
    }
  }

  /** The text starts with this field, and this follows. */
  ghost predicate Leads(s: Bytes, f: Field, after: Bytes) {
    && s != [] && s[0] == QUOTE
    && exists body :: ReadString(s[1..]) == Some((f.name, [0x3A] + body)) && ReadValue(body) == Some((f.value, after))
  }

  lemma LastFieldRead(f: Field, s: Bytes, rest: Bytes)
    requires Leads(s, f, [0x7D] + rest)
    ensures ReadFields(s) == Some(([f], rest))
  {
    var body :| ReadString(s[1..]) == Some((f.name, [0x3A] + body)) && ReadValue(body) == Some((f.value, [0x7D] + rest));
    FirstOf(0x3A, body);
    FirstOf(0x7D, rest);
  }

  lemma AnotherFieldRead(f: Field, s: Bytes, more: Bytes, fs: seq<Field>, rest: Bytes)
    requires Leads(s, f, [0x2C] + more) && ReadFields(more) == Some((fs, rest))
    ensures ReadFields(s) == Some(([f] + fs, rest))
  {
    var body :| ReadString(s[1..]) == Some((f.name, [0x3A] + body)) && ReadValue(body) == Some((f.value, [0x2C] + more));
    FirstOf(0x3A, body);
    FirstOf(0x2C, more);
  }

  /** The name, the colon and the value at the start of a field list. */
  lemma {:induction false} FieldReads(f: Field, rest: Bytes)
    requires Ends(rest)
    ensures Leads(RenderField(f) + rest, f, rest)
    decreases f, 2
  {
    var body := Render(f.value) + rest;
    RenderReads(f.value, rest);
    QuotedReads(f.name, [0x3A] + body);
    Associate([0x3A], Render(f.value), rest);
    Associate(Quoted(f.name), [0x3A] + Render(f.value), rest);
  }

  /** A whole text. */
  function Read(s: Bytes): Option<Json> {
    match ReadValue(s)
    case None => None
    case Some((v, rest)) => if rest == [] then Some(v) else None
  }

  lemma RoundTrip(v: Json)
    ensures Read(Render(v)) == Some(v)
  {
    RenderReads(v, []);
    assert Render(v) + [] == Render(v);
  }

  /** The value of the first field of that name. */
  function Get(v: Json, name: string): Option<Json> {
    if v.Obj? then Lookup(v.fields, Ascii(name)) else None
  }

  function Lookup(fs: seq<Field>, name: Bytes): Option<Json> {
    if fs == [] then None else if fs[0].name == name then Some(fs[0].value) else Lookup(fs[1..], name)
  }
}
