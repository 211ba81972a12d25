/**
 * The reply to a successful `exec`: bounded child output, lossy UTF-8 decoding, JSON string
 * escaping, and the bound that keeps it inside one response frame.
 */
module ExecOutput {
  import opened Prelude
  import opened Streams
  import Decimal
  import Frames
  import opened Utf8
  import opened Json

  const MAX_OUTPUT: nat := 262_144

  // ---- Child output as JSON text ------------------------------------------------------------

  lemma {:induction false} EscapeAppend(a: Bytes, b: Bytes)
    ensures Escape(a + b) == Escape(a) + Escape(b)
  {
    if a == [] {
      assert a + b == b;
    } else {
      assert (a + b)[1..] == a[1..] + b;
      EscapeAppend(a[1..], b);
    }
  }

  lemma {:induction false} EscapeAtMostSixfold(s: Bytes)
    ensures |Escape(s)| <= 6 * |s|
  {
    if s != [] { EscapeAtMostSixfold(s[1..]); }
  }

  /** Replacement characters are not escaped, so decoding and escaping together stay sixfold. */
  lemma {:induction false} LossyEscapeAtMostSixfold(s: Bytes)
    ensures |Escape(Lossy(s))| <= 6 * |s|
  {
    if s != [] {
      var (n, valid) := NextChunk(s);
      var head := if valid then s[..n] else REPLACEMENT;
      EscapeAppend(head, Lossy(s[n..]));
      LossyEscapeAtMostSixfold(s[n..]);
      if valid {
        EscapeAtMostSixfold(s[..n]);
      } else {
        assert Escape(REPLACEMENT) == [0xEF] + Escape([0xBF, 0xBD]);
        assert Escape([0xBF, 0xBD]) == [0xBF] + Escape([0xBD]);
        assert Escape([0xBD]) == [0xBD] + Escape([]);
      }
    }
  }

  /** The bound is reached: a run of control bytes grows exactly sixfold. */
  lemma {:induction false} SixfoldIsReached(n: nat)
    ensures var s: Bytes := seq(n, _ => 1);
            Lossy(s) == s && |Escape(Lossy(s))| == 6 * n
  {
    var s: Bytes := seq(n, _ => 1);
    if n > 0 {
      SixfoldIsReached(n - 1);
      var t: Bytes := seq(n - 1, _ => 1);
      assert s[1..] == t && s[..1] == [1];
      assert s == [1] + t;
    }
  }

  // ---- The reply --------------------------------------------------------------------------

  /** Everything in the reply that is not child output; `i32` and `u32` as in the source. */
  datatype Facts = Facts(requestId: string, executionId: string, pid: U32, startedAt: U64,
                         exitStatus: int, signal: Option<int>, seccompViolation: bool)
  {
    predicate Typed() {
      && |requestId| == 32 && |executionId| == 32
      && -0x8000_0000 <= exitStatus < 0x8000_0000
      && (signal.Some? ==> -0x8000_0000 <= signal.value < 0x8000_0000)
    }
  }

  function F(name: string, value: Json): Field { Field(Ascii(name), value) }

  /** The result object, its keys in the order serde_json gives them. */
  function Result(f: Facts, out: Bytes, outTruncated: bool, err: Bytes, errTruncated: bool): Json {
    Obj(HeadFields(f) + [F("stderr", Str(Lossy(err)))] + [F("stderr_truncated", Bool(errTruncated))]
        + [F("stdout", Str(Lossy(out)))] + TailFields(f, outTruncated))
  }

  function ReplyValue(f: Facts, out: Bytes, outTruncated: bool, err: Bytes, errTruncated: bool): Json {
    Obj([F("ok", Bool(true)), F("request_id", Str(Ascii(f.requestId)))] + [F("result", Result(f, out, outTruncated, err, errTruncated))])
  }

  function Reply(f: Facts, out: Bytes, outTruncated: bool, err: Bytes, errTruncated: bool): Bytes {
    Render(ReplyValue(f, out, outTruncated, err, errTruncated))
  }

  lemma NumberWidth(n: int)
    requires -0x8000_0000 <= n < U64_LIMIT
    ensures |Number(n)| <= 21
  {
    assert Decimal.Pow10(10) == 10_000_000_000;
    assert Decimal.Pow10(20) == 10_000_000_000 * Decimal.Pow10(10);
    if n < 0 { Decimal.PrintWidth(-n, 10); } else { Decimal.PrintWidth(n, 20); }
  }

  lemma FieldWidth(f: Field)
    ensures |RenderField(f)| <= 6 * |f.name| + 3 + |Render(f.value)|
    ensures f.value.Str? ==> |RenderField(f)| == |Escape(f.name)| + 5 + |Escape(f.value.text)|
  {
    EscapeAtMostSixfold(f.name);
  }

  /** A field that is no child output. */
  predicate Small(f: Field) { |RenderField(f)| <= 400 }

  lemma SmallField(name: string, v: Json)
    requires |name| <= 20
    requires match v
             case Num(n) => -0x8000_0000 <= n < U64_LIMIT
             case Str(text) => |text| <= 32
             case Obj(_) => false
             case _ => true
    ensures Small(F(name, v))
  {
    FieldWidth(F(name, v));
    match v
    case Num(n) => NumberWidth(n);
    case Str(text) => EscapeAtMostSixfold(text);
    case _ =>
  }

  lemma {:induction false} SmallFields(fs: seq<Field>)
    requires forall i :: 0 <= i < |fs| ==> Small(fs[i])
    ensures |RenderFields(fs)| <= 401 * |fs|
  {
    if |fs| > 1 { SmallFields(fs[1..]); }
  }

  lemma {:induction false} FieldsAppend(a: seq<Field>, b: seq<Field>)
    requires a != [] && b != []
    ensures |RenderFields(a + b)| == |RenderFields(a)| + 1 + |RenderFields(b)|
  {
    assert (a + b)[0] == a[0] && (a + b)[1..] == a[1..] + b;
    if |a| > 1 { FieldsAppend(a[1..], b); } else { assert a[1..] + b == b; }
  }

  lemma OutputField(name: string, output: Bytes)
    requires |name| == 6 && |output| <= MAX_OUTPUT
    ensures |RenderFields([F(name, Str(Lossy(output)))])| <= 6 * MAX_OUTPUT + 41
  {
    FieldWidth(F(name, Str(Lossy(output))));
    EscapeAtMostSixfold(Ascii(name));
    LossyEscapeAtMostSixfold(output);
  }

  function HeadFields(f: Facts): seq<Field> {
    [F("execution_id", Str(Ascii(f.executionId))), F("exit_status", Num(f.exitStatus)), F("pid", Num(f.pid)),
     F("seccomp_violation", Bool(f.seccompViolation)), F("started_at_ms", Num(f.startedAt))]
  }

  function TailFields(f: Facts, outTruncated: bool): seq<Field> {
    [F("stdout_truncated", Bool(outTruncated)), F("termination_signal", if f.signal.None? then Null else Num(f.signal.value))]
  }

  lemma HeadWidth(f: Facts)
    requires f.Typed()
    ensures |RenderFields(HeadFields(f))| <= 2005
  {
    SmallField("execution_id", Str(Ascii(f.executionId)));
    SmallField("exit_status", Num(f.exitStatus));
    SmallField("pid", Num(f.pid));
    SmallField("seccomp_violation", Bool(f.seccompViolation));
    SmallField("started_at_ms", Num(f.startedAt));
    SmallFields(HeadFields(f));
  }

  lemma TailWidth(f: Facts, outTruncated: bool)
    requires f.Typed()
    ensures |RenderFields(TailFields(f, outTruncated))| <= 802
  {
    SmallField("stdout_truncated", Bool(outTruncated));
    SmallField("termination_signal", if f.signal.None? then Null else Num(f.signal.value));
    SmallFields(TailFields(f, outTruncated));
  }

  lemma FlagWidth(errTruncated: bool)
    ensures |RenderFields([F("stderr_truncated", Bool(errTruncated))])| <= 401
  {
    SmallField("stderr_truncated", Bool(errTruncated));
    SmallFields([F("stderr_truncated", Bool(errTruncated))]);
  }

  lemma FiveParts(a: seq<Field>, b: seq<Field>, c: seq<Field>, d: seq<Field>, e: seq<Field>)
    requires a != [] && b != [] && c != [] && d != [] && e != []
    ensures |RenderFields(a + b + c + d + e)| ==
            |RenderFields(a)| + |RenderFields(b)| + |RenderFields(c)| + |RenderFields(d)| + |RenderFields(e)| + 4
  {
    FieldsAppend(a, b);
    FieldsAppend(a + b, c);
    FieldsAppend(a + b + c, d);
    FieldsAppend(a + b + c + d, e);
  }

  lemma ResultWidth(f: Facts, out: Bytes, outTruncated: bool, err: Bytes, errTruncated: bool)
    requires f.Typed() && |out| <= MAX_OUTPUT && |err| <= MAX_OUTPUT
    ensures |Render(Result(f, out, outTruncated, err, errTruncated))| <= 12 * MAX_OUTPUT + 3500
  {
    HeadWidth(f);
    OutputField("stderr", err);
    FlagWidth(errTruncated);
    OutputField("stdout", out);
    TailWidth(f, outTruncated);
    FiveParts(HeadFields(f), [F("stderr", Str(Lossy(err)))], [F("stderr_truncated", Bool(errTruncated))],
              [F("stdout", Str(Lossy(out)))], TailFields(f, outTruncated));
  }

  /** Whatever the child wrote, the reply built from the truncated output fits one frame. */
  lemma ReplyFits(f: Facts, out: Bytes, outTruncated: bool, err: Bytes, errTruncated: bool)
    requires f.Typed() && |out| <= MAX_OUTPUT && |err| <= MAX_OUTPUT
    ensures |Reply(f, out, outTruncated, err, errTruncated)| < Frames.MAX_RESPONSE
  {
    var result := F("result", Result(f, out, outTruncated, err, errTruncated));
    var head := [F("ok", Bool(true)), F("request_id", Str(Ascii(f.requestId)))];
    SmallField("ok", Bool(true));
    SmallField("request_id", Str(Ascii(f.requestId)));
    SmallFields(head);
    ResultWidth(f, out, outTruncated, err, errTruncated);
    FieldWidth(result);
    FieldsAppend(head, [result]);
  }

  lemma {:induction false} LookupAt(fs: seq<Field>, i: nat, name: Bytes)
    requires i < |fs| && fs[i].name == name && forall j :: 0 <= j < i ==> fs[j].name != name
    ensures Lookup(fs, name) == Some(fs[i].value)
  {
    if i > 0 {
      assert fs[0].name != name;
      forall j | 0 <= j < i - 1 ensures fs[1..][j].name != name { assert fs[1..][j] == fs[j + 1]; }
      LookupAt(fs[1..], i - 1, name);
    }
  }

  const NAMES: seq<string> := ["execution_id", "exit_status", "pid", "seccomp_violation", "started_at_ms", "stderr",
                               "stderr_truncated", "stdout", "stdout_truncated", "termination_signal"]

  lemma NamesDiffer(i: nat, j: nat)
    requires i < j < |NAMES|
    ensures Ascii(NAMES[i]) != Ascii(NAMES[j])
  {
    if |NAMES[i]| == |NAMES[j]| {
      assert (i == 5 && j == 7) || (i == 6 && j == 8);
      assert NAMES[i][3] == 'e' && NAMES[j][3] == 'o';
      assert Ascii(NAMES[i])[3] == 101 && Ascii(NAMES[j])[3] == 111;
    } else {
      assert |Ascii(NAMES[i])| != |Ascii(NAMES[j])|;
    }
  }

  lemma ResultField(v: Json, i: nat)
    requires v.Obj? && i < |NAMES| == |v.fields| && forall j :: 0 <= j < |NAMES| ==> v.fields[j].name == Ascii(NAMES[j])
    ensures Get(v, NAMES[i]) == Some(v.fields[i].value)
  {
    forall j | 0 <= j < i ensures v.fields[j].name != Ascii(NAMES[i]) { NamesDiffer(j, i); }
    LookupAt(v.fields, i, Ascii(NAMES[i]));
  }

  lemma InnerFields(f: Facts, out: Bytes, outTruncated: bool, err: Bytes, errTruncated: bool)
    ensures var result := Result(f, out, outTruncated, err, errTruncated);
            && Get(result, "stdout") == Some(Str(Lossy(out))) && Get(result, "stdout_truncated") == Some(Bool(outTruncated))
            && Get(result, "stderr") == Some(Str(Lossy(err))) && Get(result, "stderr_truncated") == Some(Bool(errTruncated))
            && Get(result, "execution_id") == Some(Str(Ascii(f.executionId)))
            && Get(result, "exit_status") == Some(Num(f.exitStatus)) && Get(result, "pid") == Some(Num(f.pid))
            && Get(result, "started_at_ms") == Some(Num(f.startedAt))
            && Get(result, "seccomp_violation") == Some(Bool(f.seccompViolation))
            && Get(result, "termination_signal") == Some(if f.signal.None? then Null else Num(f.signal.value))
  {
    var result := Result(f, out, outTruncated, err, errTruncated);
    ResultField(result, 0);
    ResultField(result, 1);
    ResultField(result, 2);
    ResultField(result, 3);
    ResultField(result, 4);
    ResultField(result, 5);
    ResultField(result, 6);
    ResultField(result, 7);
    ResultField(result, 8);
    ResultField(result, 9);
  }

  lemma OuterFields(f: Facts, out: Bytes, outTruncated: bool, err: Bytes, errTruncated: bool)
    ensures var v := ReplyValue(f, out, outTruncated, err, errTruncated);
            && Get(v, "ok") == Some(Bool(true)) && Get(v, "request_id") == Some(Str(Ascii(f.requestId)))
            && Get(v, "result") == Some(Result(f, out, outTruncated, err, errTruncated))
  {
    var v := ReplyValue(f, out, outTruncated, err, errTruncated);
    assert |Ascii("ok")| == 2 && |Ascii("request_id")| == 10 && |Ascii("result")| == 6;
    LookupAt(v.fields, 0, Ascii("ok"));
    LookupAt(v.fields, 1, Ascii("request_id"));
    LookupAt(v.fields, 2, Ascii("result"));
  }

  /**
   * A client reads the reply back: the result holds each output under its own name, decoded,
   * each flag under its own, and the facts about the process.
   */
  lemma ReplyReadsBack(f: Facts, out: Bytes, outTruncated: bool, err: Bytes, errTruncated: bool)
    ensures var read := Read(Reply(f, out, outTruncated, err, errTruncated));
            && read.Some? && Get(read.value, "ok") == Some(Bool(true))
            && Get(read.value, "request_id") == Some(Str(Ascii(f.requestId)))
            && Get(read.value, "result").Some?
            && var result := Get(read.value, "result").value;
               && Get(result, "stdout") == Some(Str(Lossy(out))) && Get(result, "stdout_truncated") == Some(Bool(outTruncated))
               && Get(result, "stderr") == Some(Str(Lossy(err))) && Get(result, "stderr_truncated") == Some(Bool(errTruncated))
               && Get(result, "execution_id") == Some(Str(Ascii(f.executionId)))
               && Get(result, "exit_status") == Some(Num(f.exitStatus)) && Get(result, "pid") == Some(Num(f.pid))
               && Get(result, "started_at_ms") == Some(Num(f.startedAt))
               && Get(result, "seccomp_violation") == Some(Bool(f.seccompViolation))
               && Get(result, "termination_signal") == Some(if f.signal.None? then Null else Num(f.signal.value))
  {
    RoundTrip(ReplyValue(f, out, outTruncated, err, errTruncated));
    OuterFields(f, out, outTruncated, err, errTruncated);
    InnerFields(f, out, outTruncated, err, errTruncated);
  }

  lemma Whole(s: Bytes)
    ensures s[..Min(MAX_OUTPUT, |s|)] == if |s| <= 262_144 then s else s[..262_144]
  {
  }

  /** The tail of `exec_domain`: drain both pipes, build the reply, send it. It is never refused. */
  method AnswerExec(f: Facts, stdout: ByteSource, stderr: ByteSource, sent: Bytes)
    returns (r: Result<Bytes, Frames.Exit>)
    requires f.Typed() && stdout != stderr && stdout.Valid() && stderr.Valid()
    modifies stdout`pos, stderr`pos
    ensures stdout.Valid() && stderr.Valid() && stdout.Rest() == [] && stderr.Rest() == []
    ensures var out, err := old(stdout.Rest()), old(stderr.Rest());
            var keptOut := if |out| <= 262_144 then out else out[..262_144];
            var keptErr := if |err| <= 262_144 then err else err[..262_144];
            r == Ok(sent + Frames.Frame(Reply(f, keptOut, |out| > 262_144, keptErr, |err| > 262_144)))
  {
    var out, outTruncated := ReadLimited(stdout, MAX_OUTPUT);
    var err, errTruncated := ReadLimited(stderr, MAX_OUTPUT);
    ReplyFits(f, out, outTruncated, err, errTruncated);
    Whole(old(stdout.Rest()));
    Whole(old(stderr.Rest()));
    r := Frames.WriteFrame(sent, Reply(f, out, outTruncated, err, errTruncated));
  }
}
