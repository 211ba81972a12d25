/**
 * The classic-BPF filter that `install_seccomp` assembles, the machine that runs it, and the
 * policy it is meant to enforce.
 */
module Seccomp {
  import opened Prelude

  // Opcodes, verdicts and machine constants of the filter builder.
  const LD_W_ABS: nat := 0x00 + 0x00 + 0x20
  const ALU_AND_K: nat := 0x04 + 0x50 + 0x00
  const JMP_JEQ_K: nat := 0x05 + 0x10 + 0x00
  const RET_K: nat := 0x06 + 0x00

  const RET_KILL_PROCESS: U32 := 0x8000_0000
  const RET_ALLOW: U32 := 0x7fff_0000
  const RET_TRAP: U32 := 0x0003_0000
  const RET_EPERM: U32 := 0x0005_0001
  const AUDIT_ARCH_X86_64: U32 := 0xC000_003E
  const X32_SYSCALL_BIT: U32 := 0x4000_0000

  // Numbers of the x86-64 Linux ABI.
  const SYS_SOCKET: U32 := 41
  const AF_INET: U32 := 2
  const AF_INET6: U32 := 10

  datatype Insn = Insn(code: nat, jt: Byte, jf: Byte, k: U32)

  function Stmt(code: nat, k: U32): Insn { Insn(code, 0, 0, k) }
  function Jump(code: nat, k: U32, jt: Byte, jf: Byte): Insn { Insn(code, jt, jf, k) }

  /** `struct seccomp_data` as its sixteen little-endian words: nr, arch, ip (2), args (6 x 2). */
  type SyscallRecord = words: seq<U32> | |words| == 16 witness seq(16, _ => 0)

  // ---- The machine ------------------------------------------------------------------------

  datatype Outcome = Returns(verdict: U32) | Stuck

  /** Bitwise conjunction, bit by bit. */
  function And(a: nat, k: nat): (r: nat)
    ensures r <= a
  {
    if a == 0 || k == 0 then 0 else (a % 2) * (k % 2) + 2 * And(a / 2, k / 2)
  }

  /** Execution from `pc` with accumulator `a`; every jump is forward, so it always ends. */
  function Run(prog: seq<Insn>, d: SyscallRecord, pc: nat, a: U32): Outcome
    decreases |prog| - pc
  {
    if pc >= |prog| then Stuck
    else
      var insn := prog[pc];
      if insn.code == LD_W_ABS then
        if insn.k % 4 == 0 && insn.k < 64 then Run(prog, d, pc + 1, d[insn.k / 4]) else Stuck
      else if insn.code == ALU_AND_K then Run(prog, d, pc + 1, And(a, insn.k))
      else if insn.code == JMP_JEQ_K then
        Run(prog, d, pc + 1 + (if a == insn.k then insn.jt else insn.jf), a)
      else if insn.code == RET_K then Returns(insn.k)
      else Stuck
  }

  /** What the kernel's checker asks of a program before it is accepted. */
  ghost predicate Checked(prog: seq<Insn>) {
    && prog != []
    && prog[|prog| - 1].code == RET_K
    && forall i :: 0 <= i < |prog| ==>
         && prog[i].code in {LD_W_ABS, ALU_AND_K, JMP_JEQ_K, RET_K}
         && (prog[i].code == LD_W_ABS ==> prog[i].k % 4 == 0 && prog[i].k < 64)
         && (prog[i].code == JMP_JEQ_K ==> i + 1 + prog[i].jt < |prog| && i + 1 + prog[i].jf < |prog|)
         && (prog[i].code != RET_K ==> i + 1 < |prog|)
  }

  // ---- The policy -------------------------------------------------------------------------

  /** `nr as u32`: the cast keeps the low 32 bits. */
  function Low32(nr: int): U32 { nr % U32_LIMIT }

  ghost predicate Denied(deny: seq<int>, nr: U32) {
    exists i :: 0 <= i < |deny| && Low32(deny[i]) == nr
  }

  /** Bit 30 of the syscall number marks the x32 ABI. */
  predicate IsX32(nr: U32) { nr / X32_SYSCALL_BIT % 2 == 1 }

  ghost function Policy(deny: seq<int>, d: SyscallRecord): U32 {
    var nr, arch, domain := d[0], d[1], d[4];
    if arch != AUDIT_ARCH_X86_64 || IsX32(nr) then RET_KILL_PROCESS
    else if Denied(deny, nr) then RET_EPERM
    else if nr == SYS_SOCKET && (domain == AF_INET || domain == AF_INET6) then RET_TRAP
    else RET_ALLOW
  }

  // ---- The compiler -----------------------------------------------------------------------

  function Prologue(): (p: seq<Insn>) {
    [ Stmt(LD_W_ABS, 4),
      Jump(JMP_JEQ_K, AUDIT_ARCH_X86_64, 1, 0),
      Stmt(RET_K, RET_KILL_PROCESS),
      Stmt(LD_W_ABS, 0),
      Stmt(ALU_AND_K, X32_SYSCALL_BIT),
      Jump(JMP_JEQ_K, 0, 1, 0),
      Stmt(RET_K, RET_KILL_PROCESS),
      Stmt(LD_W_ABS, 0) ]
  }

  function DenyPair(nr: int): (p: seq<Insn>) {
    [ Jump(JMP_JEQ_K, Low32(nr), 0, 1), Stmt(RET_K, RET_EPERM) ]
  }

  function DenyBlock(deny: seq<int>): (p: seq<Insn>)
    ensures |p| == 2 * |deny|
  {
    if deny == [] then [] else DenyBlock(deny[..|deny| - 1]) + DenyPair(deny[|deny| - 1])
  }

  function SocketBlock(): (p: seq<Insn>) {
    [ Jump(JMP_JEQ_K, SYS_SOCKET, 0, 5),
      Stmt(LD_W_ABS, 16),
      Jump(JMP_JEQ_K, AF_INET, 0, 1),
      Stmt(RET_K, RET_TRAP),
      Jump(JMP_JEQ_K, AF_INET6, 0, 1),
      Stmt(RET_K, RET_TRAP),
      Stmt(RET_K, RET_ALLOW) ]
  }

  function Program(deny: seq<int>): (p: seq<Insn>)
    ensures |p| == 15 + 2 * |deny|
  {
    Prologue() + DenyBlock(deny) + SocketBlock()
  }

  /** The builder: a vector literal, one push pair per denied number, seven more pushes. */
  method BuildFilter(deny: seq<int>) returns (filter: seq<Insn>)
    ensures filter == Program(deny)
  {
    filter := Prologue();
    for i := 0 to |deny|
      invariant filter == Prologue() + DenyBlock(deny[..i])
    {
      assert deny[..i + 1][..i] == deny[..i];
      filter := filter + [Jump(JMP_JEQ_K, Low32(deny[i]), 0, 1)];
      filter := filter + [Stmt(RET_K, RET_EPERM)];
    }
    assert deny[..|deny|] == deny;
    filter := filter + [Jump(JMP_JEQ_K, SYS_SOCKET, 0, 5)];
    filter := filter + [Stmt(LD_W_ABS, 16)];
    filter := filter + [Jump(JMP_JEQ_K, AF_INET, 0, 1)];
    filter := filter + [Stmt(RET_K, RET_TRAP)];
    filter := filter + [Jump(JMP_JEQ_K, AF_INET6, 0, 1)];
    filter := filter + [Stmt(RET_K, RET_TRAP)];
    filter := filter + [Stmt(RET_K, RET_ALLOW)];
    assert filter == Program(deny);
  }

  // ---- Compilation preserves the policy ---------------------------------------------------

  function Pow2(j: nat): (p: nat)
    ensures p > 0
  {
    if j == 0 then 1 else 2 * Pow2(j - 1)
  }

  /** Masking with one bit isolates that bit. */
  lemma {:induction false} AndIsolatesBit(a: nat, j: nat)
    ensures And(a, Pow2(j)) == a / Pow2(j) % 2 * Pow2(j)
  {
    if a == 0 {
      assert 0 / Pow2(j) == 0;
    } else if j == 0 {
      assert And(a / 2, 0) == 0;
    } else {
      AndIsolatesBit(a / 2, j - 1);
      IsolateDoubled(a, Pow2(j - 1));
    }
  }

  lemma IsolateDoubled(a: nat, p: nat)
    requires a > 0 && p > 0 && And(a / 2, p) == a / 2 / p % 2 * p
    ensures And(a, 2 * p) == a / (2 * p) % 2 * (2 * p)
  {
    AndDoubled(a, p);
    DivTwice(a, p);
    MulDoubled(a / 2 / p % 2, p);
  }

  lemma AndDoubled(a: nat, p: nat)
    requires a > 0 && p > 0
    ensures And(a, 2 * p) == 2 * And(a / 2, p)
  {
    DivModUnique(2 * p, 2, p, 0);
  }

  lemma MulDoubled(b: nat, p: nat)
    ensures 2 * (b * p) == b * (2 * p)
  {
  }

  lemma DivTwice(a: nat, p: nat)
    requires p > 0
    ensures a / (2 * p) == a / 2 / p
  {
    var q := a / 2 / p;
    var r := a / 2 - q * p;
    DivModUnique(a, 2 * p, q, 2 * r + a % 2);
  }

  lemma X32Mask(nr: U32)
    ensures And(nr, X32_SYSCALL_BIT) == 0 <==> !IsX32(nr)
  {
    assert Pow2(10) == 1024;
    assert Pow2(20) == 1024 * 1024;
    assert Pow2(30) == X32_SYSCALL_BIT;
    AndIsolatesBit(nr, 30);
  }

  lemma {:induction false} DenyBlockAt(deny: seq<int>, i: nat)
    requires i < |deny|
    ensures DenyBlock(deny)[2 * i] == DenyPair(deny[i])[0]
    ensures DenyBlock(deny)[2 * i + 1] == DenyPair(deny[i])[1]
  {
    if i < |deny| - 1 {
      DenyBlockAt(deny[..|deny| - 1], i);
    }
  }

  /** Entering the deny block at entry `i` with the syscall number loaded. */
  lemma {:induction false} DenyBlockRuns(deny: seq<int>, d: SyscallRecord, i: nat)
    requires i <= |deny|
    ensures Run(Program(deny), d, 8 + 2 * i, d[0]) ==
            if Denied(deny[i..], d[0]) then Returns(RET_EPERM)
            else Run(Program(deny), d, 8 + 2 * |deny|, d[0])
    decreases |deny| - i
  {
    var rest := deny[i..];
    if i < |deny| {
      var prog := Program(deny);
      DenyBlockAt(deny, i);
      assert prog[8 + 2 * i] == DenyPair(deny[i])[0];
      assert prog[9 + 2 * i] == DenyPair(deny[i])[1];
      DenyBlockRuns(deny, d, i + 1);
      assert rest[0] == deny[i] && rest[1..] == deny[i + 1..];
      DeniedFirst(rest, d[0]);
    }
  }

  lemma DeniedFirst(deny: seq<int>, nr: U32)
    requires deny != []
    ensures Denied(deny, nr) <==> Low32(deny[0]) == nr || Denied(deny[1..], nr)
  {
    if Denied(deny[1..], nr) {
      var j :| 0 <= j < |deny[1..]| && Low32(deny[1..][j]) == nr;
      assert Low32(deny[j + 1]) == nr;
    }
    if Denied(deny, nr) && Low32(deny[0]) != nr {
      var j :| 0 <= j < |deny| && Low32(deny[j]) == nr;
      assert Low32(deny[1..][j - 1]) == nr;
    }
  }

  /** Jumps are forward, so what runs from inside a suffix does not depend on what precedes it. */
  lemma {:induction false} RunSuffix(prog: seq<Insn>, suf: seq<Insn>, d: SyscallRecord, k: nat, a: U32)
    requires |suf| <= |prog| && prog[|prog| - |suf|..] == suf
    ensures Run(prog, d, |prog| - |suf| + k, a) == Run(suf, d, k, a)
    decreases |suf| - k
  {
    if k < |suf| {
      var insn := suf[k];
      assert prog[|prog| - |suf| + k] == insn;
      if insn.code == LD_W_ABS && insn.k % 4 == 0 && insn.k < 64 {
        RunSuffix(prog, suf, d, k + 1, d[insn.k / 4]);
      }
      RunSuffix(prog, suf, d, k + 1, And(a, insn.k));
      RunSuffix(prog, suf, d, k + 1 + (if a == insn.k then insn.jt else insn.jf), a);
    }
  }

  lemma SocketTail(d: SyscallRecord, domain: U32)
    ensures Run(SocketBlock(), d, 2, domain) ==
            Returns(if domain == AF_INET || domain == AF_INET6 then RET_TRAP else RET_ALLOW)
  {
    var b := SocketBlock();
    assert b[2].code == b[4].code == JMP_JEQ_K && b[3].code == b[5].code == b[6].code == RET_K;
    assert Run(b, d, 3, domain) == Run(b, d, 5, domain) == Returns(RET_TRAP);
    assert Run(b, d, 6, domain) == Returns(RET_ALLOW);
    assert Run(b, d, 4, domain) == Run(b, d, if domain == AF_INET6 then 5 else 6, domain);
    assert Run(b, d, 2, domain) == Run(b, d, if domain == AF_INET then 3 else 4, domain);
  }

  ghost function SocketVerdict(d: SyscallRecord): U32 {
    if d[0] == SYS_SOCKET && (d[4] == AF_INET || d[4] == AF_INET6) then RET_TRAP else RET_ALLOW
  }

  lemma SocketHead(d: SyscallRecord)
    ensures Run(SocketBlock(), d, 0, d[0]) == Returns(SocketVerdict(d))
  {
    var b := SocketBlock();
    SocketTail(d, d[4]);
    assert b[0].code == JMP_JEQ_K && b[1].code == LD_W_ABS && b[6].code == RET_K;
    assert Run(b, d, 6, d[0]) == Returns(RET_ALLOW);
    assert Run(b, d, 1, d[0]) == Run(b, d, 2, d[4]);
    assert Run(b, d, 0, d[0]) == Run(b, d, if d[0] == SYS_SOCKET then 1 else 6, d[0]);
  }

  lemma SocketBlockRuns(prog: seq<Insn>, suf: seq<Insn>, d: SyscallRecord)
    requires suf == SocketBlock() && |prog| >= 7 && prog[|prog| - 7..] == suf
    ensures Run(prog, d, |prog| - 7, d[0]) == Returns(SocketVerdict(d))
  {
    SocketHead(d);
    RunSuffix(prog, suf, d, 0, d[0]);
  }

  /** The first eight instructions kill, or hand the syscall number on to the ninth. */
  lemma PrologueRuns(prog: seq<Insn>, d: SyscallRecord, a: U32)
    requires |prog| >= 8 && forall i :: 0 <= i < 8 ==> prog[i] == Prologue()[i]
    ensures Run(prog, d, 0, a) == if d[1] != AUDIT_ARCH_X86_64 || IsX32(d[0]) then Returns(RET_KILL_PROCESS)
                                  else Run(prog, d, 8, d[0])
  {
    X32Mask(d[0]);
    var masked: U32 := And(d[0], X32_SYSCALL_BIT);
    assert Run(prog, d, 7, masked) == Run(prog, d, 8, d[0]);
    assert Run(prog, d, 6, masked) == Returns(RET_KILL_PROCESS);
    assert Run(prog, d, 5, masked) == Run(prog, d, if masked == 0 then 7 else 6, masked);
    assert Run(prog, d, 3, d[1]) == Run(prog, d, 4, d[0]) == Run(prog, d, 5, masked);
    assert Run(prog, d, 2, d[1]) == Returns(RET_KILL_PROCESS);
    assert Run(prog, d, 0, a) == Run(prog, d, 1, d[1]);
  }

  /** The central result: for every deny list and every syscall, the filter returns the policy. */
  lemma FilterEnforcesPolicy(deny: seq<int>, d: SyscallRecord, a: U32)
    ensures Run(Program(deny), d, 0, a) == Returns(Policy(deny, d))
  {
    var prog := Program(deny);
    assert prog[..8] == Prologue();
    forall i | 0 <= i < 8 ensures prog[i] == Prologue()[i] { assert prog[..8][i] == prog[i]; }
    PrologueRuns(prog, d, a);
    assert deny[0..] == deny;
    DenyBlockRuns(deny, d, 0);
    SocketBlockRuns(prog, SocketBlock(), d);
  }

  // ---- The same in numbers ----------------------------------------------------------------

  /** A number is denied exactly if it has the low 32 bits of one that is listed. */
  lemma DeniedIff(deny: seq<int>, nr: U32)
    ensures Denied(deny, nr) <==> exists x: int :: x in deny && (x - nr) % 0x1_0000_0000 == 0
  {
    if Denied(deny, nr) {
      var i :| 0 <= i < |deny| && Low32(deny[i]) == nr;
      SameLowBits(deny[i], nr);
      assert deny[i] in deny;
    }
    if x: int :| x in deny && (x - nr) % 0x1_0000_0000 == 0 {
      SameLowBits(x, nr);
      var i :| 0 <= i < |deny| && deny[i] == x;
      assert Low32(deny[i]) == nr;
    }
  }

  lemma SameLowBits(x: int, nr: U32)
    ensures Low32(x) == nr <==> (x - nr) % 0x1_0000_0000 == 0
  {
  }

  /**
   * Every verdict for every record, in the numbers of the kernel: the filter kills other
   * architectures and x32 calls, answers EPERM for what is listed, traps INET and INET6 sockets
   * and allows the rest.
   */
  lemma FilterVerdicts(deny: seq<int>, d: SyscallRecord, a: U32)
    ensures d[1] != 0xC000_003E ==> Run(Program(deny), d, 0, a) == Returns(0x8000_0000)
    ensures d[0] / 0x4000_0000 % 2 == 1 ==> Run(Program(deny), d, 0, a) == Returns(0x8000_0000)
    ensures d[1] == 0xC000_003E && d[0] / 0x4000_0000 % 2 == 0 ==>
              var listed := exists x: int :: x in deny && (x - d[0]) % 0x1_0000_0000 == 0;
              && (listed ==> Run(Program(deny), d, 0, a) == Returns(0x0005_0001))
              && (!listed && d[0] == 41 && (d[4] == 2 || d[4] == 10) ==> Run(Program(deny), d, 0, a) == Returns(0x0003_0000))
              && (!listed && !(d[0] == 41 && (d[4] == 2 || d[4] == 10)) ==> Run(Program(deny), d, 0, a) == Returns(0x7fff_0000))
  {
    FilterEnforcesPolicy(deny, d, a);
    DeniedIff(deny, d[0]);
  }

  /** For a list of 32-bit numbers, on x86-64 and outside x32: listed means EPERM, unlisted does not. */
  lemma ListedMeansListed(deny: seq<int>, d: SyscallRecord, a: U32)
    requires forall x :: x in deny ==> 0 <= x < 0x1_0000_0000
    requires d[1] == 0xC000_003E && d[0] / 0x4000_0000 % 2 == 0
    ensures Run(Program(deny), d, 0, a) == Returns(0x0005_0001) <==> d[0] in deny
    ensures d[0] !in deny && d[0] != 41 ==> Run(Program(deny), d, 0, a) == Returns(0x7fff_0000)
  {
    FilterVerdicts(deny, d, a);
    forall x: int | x in deny && (x - d[0]) % 0x1_0000_0000 == 0 ensures x == d[0] { CloseNumbers(x, d[0]); }
  }

  lemma CloseNumbers(x: int, y: int)
    requires 0 <= x < 0x1_0000_0000 && 0 <= y < 0x1_0000_0000 && (x - y) % 0x1_0000_0000 == 0
    ensures x == y
  {
  }

  /** The program, instruction by instruction, as the kernel gets it. */
  lemma ProgramText(deny: seq<int>, i: nat)
    ensures var p, n := Program(deny), 2 * |deny|;
            && |p| == 15 + n
            && p[0] == Insn(0x20, 0, 0, 4) && p[1] == Insn(0x15, 1, 0, 0xC000_003E) && p[2] == Insn(0x06, 0, 0, 0x8000_0000)
            && p[3] == Insn(0x20, 0, 0, 0) && p[4] == Insn(0x54, 0, 0, 0x4000_0000) && p[5] == Insn(0x15, 1, 0, 0)
            && p[6] == Insn(0x06, 0, 0, 0x8000_0000) && p[7] == Insn(0x20, 0, 0, 0)
            && p[8 + n] == Insn(0x15, 0, 5, 41) && p[9 + n] == Insn(0x20, 0, 0, 16)
            && p[10 + n] == Insn(0x15, 0, 1, 2) && p[11 + n] == Insn(0x06, 0, 0, 0x0003_0000)
            && p[12 + n] == Insn(0x15, 0, 1, 10) && p[13 + n] == Insn(0x06, 0, 0, 0x0003_0000)
            && p[14 + n] == Insn(0x06, 0, 0, 0x7fff_0000)
    ensures i < |deny| ==>
              && Program(deny)[8 + 2 * i] == Insn(0x15, 0, 1, deny[i] % 0x1_0000_0000)
              && Program(deny)[9 + 2 * i] == Insn(0x06, 0, 0, 0x0005_0001)
  {
    if i < |deny| { DenyBlockAt(deny, i); }
  }

  /** The machine's conjunction is bitwise: each bit of the result is the product of the two bits. */
  lemma {:induction false} AndIsBitwise(a: nat, k: nat, j: nat)
    ensures And(a, k) / Pow2(j) % 2 == (a / Pow2(j) % 2) * (k / Pow2(j) % 2)
  {
    if a == 0 || k == 0 {
      assert 0 / Pow2(j) == 0;
    } else if j == 0 {
      LowBit(a, k);
    } else {
      AndIsBitwise(a / 2, k / 2, j - 1);
      DivTwice(a, Pow2(j - 1));
      DivTwice(k, Pow2(j - 1));
      DivTwice(And(a, k), Pow2(j - 1));
      HalfOfAnd(a, k);
    }
  }

  lemma LowBit(a: nat, k: nat)
    requires a > 0 && k > 0
    ensures And(a, k) % 2 == (a % 2) * (k % 2) && And(a, k) / Pow2(0) == And(a, k) && a / Pow2(0) == a && k / Pow2(0) == k
  {
    HalfOfAnd(a, k);
  }

  lemma HalfOfAnd(a: nat, k: nat)
    requires a > 0 && k > 0
    ensures And(a, k) / 2 == And(a / 2, k / 2) && And(a, k) % 2 == (a % 2) * (k % 2)
  {
    BitProduct(a, k);
    DivModUnique(And(a, k), 2, And(a / 2, k / 2), (a % 2) * (k % 2));
  }

  lemma BitProduct(a: nat, k: nat)
    ensures 0 <= (a % 2) * (k % 2) < 2
  {
  }

  /** The kernel's checker accepts the program: known opcodes, loads in range, jumps in range. */
  lemma FilterPassesChecker(deny: seq<int>)
    ensures Checked(Program(deny))
  {
    var prog, n := Program(deny), |deny|;
    forall i | 0 <= i < |prog|
      ensures prog[i].code in {LD_W_ABS, ALU_AND_K, JMP_JEQ_K, RET_K}
      ensures prog[i].code == LD_W_ABS ==> prog[i].k % 4 == 0 && prog[i].k < 64
      ensures prog[i].code == JMP_JEQ_K ==> i + 1 + prog[i].jt < |prog| && i + 1 + prog[i].jf < |prog|
      ensures prog[i].code != RET_K ==> i + 1 < |prog|
    {
      if i < 8 {
        assert prog[i] == Prologue()[i];
      } else if i < 8 + 2 * n {
        DenyBlockAt(deny, (i - 8) / 2);
        assert prog[i] == DenyBlock(deny)[i - 8];
      } else {
        assert prog[i] == SocketBlock()[i - 8 - 2 * n];
      }
    }
  }

  /** Order and repetition in the deny list do not matter. */
  lemma VerdictDependsOnDenySet(xs: seq<int>, ys: seq<int>, d: SyscallRecord, a: U32)
    requires forall x :: x in xs <==> x in ys
    ensures Run(Program(xs), d, 0, a) == Run(Program(ys), d, 0, a)
  {
    FilterEnforcesPolicy(xs, d, a);
    FilterEnforcesPolicy(ys, d, a);
    DeniedMonotone(xs, ys, d[0]);
    DeniedMonotone(ys, xs, d[0]);
  }

  lemma DeniedMonotone(xs: seq<int>, ys: seq<int>, nr: U32)
    requires forall x :: x in xs ==> x in ys
    ensures Denied(xs, nr) ==> Denied(ys, nr)
  {
    if Denied(xs, nr) {
      var i :| 0 <= i < |xs| && Low32(xs[i]) == nr;
      assert xs[i] in ys;
      var j :| 0 <= j < |ys| && ys[j] == xs[i];
    }
  }

  /** What reaches the kernel: `filter.len() as u16` instructions of the vector. */
  function Installed(deny: seq<int>): seq<Insn> {
    var prog := Program(deny);
    prog[..|prog| % 65536]
  }

  /** The length cast is harmless exactly up to 32760 denied numbers. */
  lemma InstalledIsWholeProgram(deny: seq<int>)
    ensures Installed(deny) == Program(deny) <==> |deny| <= 32760
    ensures |Installed(deny)| == (15 + 2 * |deny|) % 0x1_0000 && Installed(deny) <= Program(deny)
  {
    var n := |Program(deny)|;
    if |deny| <= 32760 {
      assert n % 65536 == n;
    } else {
      assert |Installed(deny)| < n;
    }
  }
}
