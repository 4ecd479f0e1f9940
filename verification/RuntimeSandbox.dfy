/** The seccomp filter of the runtime: a compiler from a syscall policy to classic BPF, the machine
    that interprets the result, and the proof that the program means the policy. */
module RuntimeSandbox {
  import opened Bytes

  const RET_KILL: bv32 := 0x8000_0000
  const RET_ALLOW: bv32 := 0x7fff_0000

  datatype Code = LoadWord | AndConst | JumpEqual | Return

  /** A `sock_filter`: operation, relative jump offsets, operand. */
  datatype Instruction = Instruction(code: Code, onTrue: byte, onFalse: byte, k: bv32)

  /** The 64 bytes of `seccomp_data` as little-endian words: number, architecture, instruction
      pointer, then six 64-bit arguments, low word first. */
  type Record = w: seq<bv32> | |w| == 16 witness seq(16, _ => 0 as bv32)

  const OFFSET_NR: bv32 := 0
  const OFFSET_ARCH: bv32 := 4
  const OFFSET_ARG0: bv32 := 16
  const OFFSET_ARG1: bv32 := 24
  const OFFSET_ARG2: bv32 := 32

  function Nr(r: Record): bv32 { r[0] }
  function Arch(r: Record): bv32 { r[1] }
  function Arg(r: Record, i: nat): bv32 requires i < 6 { r[4 + 2 * i] }

  datatype Result = Verdict(value: bv32) | Fault

  /** Interprets `program` from instruction `pc` with accumulator `acc`. Jumps only go forward. */
  function Run(program: seq<Instruction>, pc: nat, acc: bv32, r: Record): Result
    decreases |program| - pc
  {
    if pc >= |program| then Fault
    else
      var i := program[pc];
      match i.code
      case Return => Verdict(i.k)
      case LoadWord =>
        var offset := i.k as nat;
        if offset % 4 == 0 && offset < 64 then Run(program, pc + 1, r[offset / 4], r) else Fault
      case AndConst => Run(program, pc + 1, acc & i.k, r)
      case JumpEqual => Run(program, pc + 1 + (if acc == i.k then i.onTrue else i.onFalse), acc, r)
  }

  /** What the session policy allows; the syscall numbers and flags are those of the target. */
  datatype Policy = Policy(
    arch: bv32, openat: bv32, mmap: bv32, mprotect: bv32, ioctl: bv32,
    writeFlags: bv32, execFlag: bv32, drmFd: bv32, requests: seq<bv32>, allowed: seq<bv32>)

  /** None of the forbidden flags is set. */
  predicate FlagFree(word: bv32, forbidden: bv32) { word & forbidden == 0 }

  predicate Allows(p: Policy, r: Record) {
    && Arch(r) == p.arch
    && if Nr(r) == p.openat then FlagFree(Arg(r, 2), p.writeFlags)
       else if Nr(r) == p.mmap then FlagFree(Arg(r, 2), p.execFlag)
       else if Nr(r) == p.mprotect then FlagFree(Arg(r, 2), p.execFlag)
       else if Nr(r) == p.ioctl then Arg(r, 0) == p.drmFd && Arg(r, 1) in p.requests
       else Nr(r) in p.allowed
  }

  function Stmt(code: Code, k: bv32): Instruction { Instruction(code, 0, 0, k) }
  function Jump(k: bv32, onTrue: byte, onFalse: byte): Instruction { Instruction(JumpEqual, onTrue, onFalse, k) }

  function Prologue(p: Policy): seq<Instruction> {
    [Stmt(LoadWord, OFFSET_ARCH), Jump(p.arch, 1, 0), Stmt(Return, RET_KILL), Stmt(LoadWord, OFFSET_NR)]
  }

  function FlagBlock(number: bv32, offset: bv32, forbidden: bv32): seq<Instruction> {
    [Jump(number, 0, 5), Stmt(LoadWord, offset), Stmt(AndConst, forbidden), Jump(0, 0, 1),
     Stmt(Return, RET_ALLOW), Stmt(Return, RET_KILL)]
  }

  /** One comparison and one `allow` per value, in order. */
  function AllowBlocks(values: seq<bv32>): (b: seq<Instruction>)
    ensures |b| == 2 * |values|
  {
    if values == [] then []
    else AllowBlocks(values[..|values| - 1]) + [Jump(values[|values| - 1], 0, 1), Stmt(Return, RET_ALLOW)]
  }

  function DrmHead(p: Policy): seq<Instruction> {
    [Jump(p.ioctl, 0, (4 + 2 * |p.requests|) % 256), Stmt(LoadWord, OFFSET_ARG0),
     Jump(p.drmFd, 0, (1 + 2 * |p.requests|) % 256), Stmt(LoadWord, OFFSET_ARG1)]
  }

  function DrmBlock(p: Policy): seq<Instruction> {
    DrmHead(p) + AllowBlocks(p.requests) + [Stmt(Return, RET_KILL)]
  }

  /** The architecture check and the three flag-restricted syscalls. */
  function FixedPart(p: Policy): seq<Instruction> {
    Prologue(p) + FlagBlock(p.openat, OFFSET_ARG2, p.writeFlags)
    + FlagBlock(p.mmap, OFFSET_ARG2, p.execFlag) + FlagBlock(p.mprotect, OFFSET_ARG2, p.execFlag)
  }

  function ListPart(p: Policy): seq<Instruction> {
    DrmBlock(p) + AllowBlocks(p.allowed) + [Stmt(Return, RET_KILL)]
  }

  function Program(p: Policy): seq<Instruction> {
    FixedPart(p) + ListPart(p)
  }

  /** The builder: emitters push instructions onto one growing vector. */
  class FilterBuilder {
    var filter: seq<Instruction>

    constructor ()
      ensures filter == []
    {
      filter := [];
    }

    method AppendStatement(code: Code, k: bv32)
      modifies this
      ensures filter == old(filter) + [Stmt(code, k)]
    {
      filter := filter + [Instruction(code, 0, 0, k)];
    }

    method AppendJump(k: bv32, onTrue: byte, onFalse: byte)
      modifies this
      ensures filter == old(filter) + [Jump(k, onTrue, onFalse)]
    {
      filter := filter + [Instruction(JumpEqual, onTrue, onFalse, k)];
    }

    method AppendAllowedSyscall(number: bv32)
      modifies this
      ensures filter == old(filter) + [Jump(number, 0, 1), Stmt(Return, RET_ALLOW)]
    {
      AppendJump(number, 0, 1);
      AppendStatement(Return, RET_ALLOW);
    }

    method AppendFlagRestrictedSyscall(number: bv32, offset: bv32, forbidden: bv32)
      modifies this
      ensures filter == old(filter) + FlagBlock(number, offset, forbidden)
    {
      AppendJump(number, 0, 5);
      AppendStatement(LoadWord, offset);
      AppendStatement(AndConst, forbidden);
      AppendJump(0, 0, 1);
      AppendStatement(Return, RET_ALLOW);
      AppendStatement(Return, RET_KILL);
    }

    method AppendAllowedSyscalls(numbers: seq<bv32>)
      modifies this
      ensures filter == old(filter) + AllowBlocks(numbers)
    {
      for index := 0 to |numbers|
        invariant filter == old(filter) + AllowBlocks(numbers[..index])
      {
        assert numbers[..index + 1][..index] == numbers[..index];
        AppendAllowedSyscall(numbers[index]);
      }
      assert numbers[..|numbers|] == numbers;
    }

    method AppendDrmIoctlFilter(p: Policy)
      requires 4 + 2 * |p.requests| <= 255
      modifies this
      ensures filter == old(filter) + DrmBlock(p)
    {
      AppendJump(p.ioctl, 0, (4 + 2 * |p.requests|) % 256);
      AppendStatement(LoadWord, OFFSET_ARG0);
      AppendJump(p.drmFd, 0, (1 + 2 * |p.requests|) % 256);
      AppendStatement(LoadWord, OFFSET_ARG1);
      assert filter == old(filter) + DrmHead(p);
      AppendAllowedSyscalls(p.requests);
      AppendStatement(Return, RET_KILL);
    }

    /** Builds the whole filter; refused only when it has more instructions than a filter may. */
    method Build(p: Policy) returns (ok: bool)
      requires 4 + 2 * |p.requests| <= 255 && filter == []
      modifies this
      ensures filter == Program(p) && ok == (|Program(p)| <= 0xffff)
    {
      hide FlagBlock, DrmBlock, AllowBlocks;
      AppendStatement(LoadWord, OFFSET_ARCH);
      AppendJump(p.arch, 1, 0);
      AppendStatement(Return, RET_KILL);
      AppendStatement(LoadWord, OFFSET_NR);
      assert filter == Prologue(p);
      AppendFlagRestrictedSyscall(p.openat, OFFSET_ARG2, p.writeFlags);
      AppendFlagRestrictedSyscall(p.mmap, OFFSET_ARG2, p.execFlag);
      AppendFlagRestrictedSyscall(p.mprotect, OFFSET_ARG2, p.execFlag);
      assert filter == FixedPart(p);
      AppendDrmIoctlFilter(p);
      AppendAllowedSyscalls(p.allowed);
      AppendStatement(Return, RET_KILL);
      assert filter == FixedPart(p) + ListPart(p);
      ok := |filter| <= 0xffff;
    }
  }

  /** `block` sits in `program` at `pc`. */
  ghost predicate At(program: seq<Instruction>, pc: nat, block: seq<Instruction>) {
    pc + |block| <= |program| && program[pc..pc + |block|] == block
  }

  lemma AtIndex(program: seq<Instruction>, pc: nat, block: seq<Instruction>)
    requires At(program, pc, block)
    ensures forall i :: 0 <= i < |block| ==> program[pc + i] == block[i]
  {
    forall i | 0 <= i < |block|
      ensures program[pc + i] == block[i]
    {
      assert program[pc..pc + |block|][i] == block[i];
    }
  }

  lemma LoadStep(program: seq<Instruction>, pc: nat, k: bv32, word: nat, acc: bv32, r: Record)
    requires pc < |program| && program[pc] == Stmt(LoadWord, k) && k as nat == 4 * word && word < 16
    ensures Run(program, pc, acc, r) == Run(program, pc + 1, r[word], r)
  {
  }

  lemma AndStep(program: seq<Instruction>, pc: nat, k: bv32, acc: bv32, r: Record)
    requires pc < |program| && program[pc] == Stmt(AndConst, k)
    ensures Run(program, pc, acc, r) == Run(program, pc + 1, acc & k, r)
  {
  }

  lemma JumpStep(program: seq<Instruction>, pc: nat, k: bv32, onTrue: byte, onFalse: byte, acc: bv32, r: Record)
    requires pc < |program| && program[pc] == Jump(k, onTrue, onFalse)
    ensures Run(program, pc, acc, r) == Run(program, pc + 1 + (if acc == k then onTrue else onFalse), acc, r)
  {
  }

  lemma ReturnStep(program: seq<Instruction>, pc: nat, k: bv32, acc: bv32, r: Record)
    requires pc < |program| && program[pc] == Stmt(Return, k)
    ensures Run(program, pc, acc, r) == Verdict(k)
  {
  }

  lemma PrologueChecksArchitecture(program: seq<Instruction>, p: Policy, acc: bv32, r: Record)
    requires At(program, 0, Prologue(p))
    ensures Run(program, 0, acc, r) ==
      if Arch(r) == p.arch then Run(program, 4, Nr(r), r) else Verdict(RET_KILL)
  {
    hide Run;
    AtIndex(program, 0, Prologue(p));
    LoadStep(program, 0 + 0, OFFSET_ARCH, 1, acc, r);
    JumpStep(program, 0 + 1, p.arch, 1, 0, Arch(r), r);
    ReturnStep(program, 0 + 2, RET_KILL, Arch(r), r);
    LoadStep(program, 0 + 3, OFFSET_NR, 0, Arch(r), r);
  }

  /** A flag-restricted block decides its own syscall and passes every other one on untouched. */
  lemma FlagBlockDecides(program: seq<Instruction>, pc: nat, number: bv32, forbidden: bv32, r: Record)
    requires At(program, pc, FlagBlock(number, OFFSET_ARG2, forbidden))
    ensures Run(program, pc, Nr(r), r) ==
      if Nr(r) == number
      then Verdict(if FlagFree(Arg(r, 2), forbidden) then RET_ALLOW else RET_KILL)
      else Run(program, pc + 6, Nr(r), r)
  {
    hide Run;
    AtIndex(program, pc, FlagBlock(number, OFFSET_ARG2, forbidden));
    var masked := Arg(r, 2) & forbidden;
    assert program[pc + 0] == Jump(number, 0, 5);
    JumpStep(program, pc, number, 0, 5, Nr(r), r);
    LoadStep(program, pc + 1, OFFSET_ARG2, 8, Nr(r), r);
    AndStep(program, pc + 2, forbidden, Arg(r, 2), r);
    JumpStep(program, pc + 3, 0, 0, 1, masked, r);
    ReturnStep(program, pc + 4, RET_ALLOW, masked, r);
    ReturnStep(program, pc + 5, RET_KILL, masked, r);
  }

  /** A list of values allows exactly its members and passes every other value on untouched. */
  lemma {:induction false} AllowBlocksDecide(
    program: seq<Instruction>, pc: nat, values: seq<bv32>, n: nat, acc: bv32, r: Record)
    requires n <= |values| && At(program, pc, AllowBlocks(values))
    requires acc !in values[..n]
    ensures Run(program, pc + 2 * n, acc, r) ==
      if acc in values then Verdict(RET_ALLOW) else Run(program, pc + 2 * |values|, acc, r)
    decreases |values| - n
  {
    hide Run;
    if n < |values| {
      AllowBlocksAt(values, n);
      AtIndex(program, pc, AllowBlocks(values));
      JumpStep(program, pc + 2 * n, values[n], 0, 1, acc, r);
      if acc == values[n] {
        assert program[pc + (2 * n + 1)] == Stmt(Return, RET_ALLOW);
        ReturnStep(program, pc + 2 * n + 1, RET_ALLOW, acc, r);
      } else {
        assert values[..n + 1] == values[..n] + [values[n]];
        AllowBlocksDecide(program, pc, values, n + 1, acc, r);
        assert pc + 2 * n + 1 + 1 == pc + 2 * (n + 1);
      }
    } else {
      assert values[..n] == values;
    }
  }

  lemma {:induction false} AllowBlocksAt(values: seq<bv32>, n: nat)
    requires n < |values|
    ensures AllowBlocks(values)[2 * n] == Jump(values[n], 0, 1)
    ensures AllowBlocks(values)[2 * n + 1] == Stmt(Return, RET_ALLOW)
  {
    if n < |values| - 1 {
      AllowBlocksAt(values[..|values| - 1], n);
    }
  }

  /** What the ioctl block puts where. */
  lemma DrmBlockHas(program: seq<Instruction>, pc: nat, p: Policy)
    requires 4 + 2 * |p.requests| <= 255 && At(program, pc, DrmBlock(p))
    ensures pc + 4 + 2 * |p.requests| < |program|
    ensures
      var n := |p.requests|;
      && program[pc] == Jump(p.ioctl, 0, 4 + 2 * n) && program[pc + 1] == Stmt(LoadWord, OFFSET_ARG0)
      && program[pc + 2] == Jump(p.drmFd, 0, 1 + 2 * n) && program[pc + 3] == Stmt(LoadWord, OFFSET_ARG1)
      && At(program, pc + 4, AllowBlocks(p.requests)) && program[pc + 4 + 2 * n] == Stmt(Return, RET_KILL)
  {
    hide AllowBlocks;
    var n, block := |p.requests|, DrmBlock(p);
    AtIndex(program, pc, block);
    assert program[pc + 0] == block[0] && program[pc + (4 + 2 * n)] == block[4 + 2 * n];
    assert program[pc + 4..pc + 4 + 2 * n] == program[pc..pc + |block|][4..4 + 2 * n] == block[4..4 + 2 * n];
  }

  /** The ioctl block decides every ioctl: a listed request on the DRM descriptor, or nothing. */
  lemma DrmBlockDecides(program: seq<Instruction>, pc: nat, p: Policy, r: Record)
    requires 4 + 2 * |p.requests| <= 255 && At(program, pc, DrmBlock(p))
    ensures Run(program, pc, Nr(r), r) ==
      if Nr(r) == p.ioctl
      then Verdict(if Arg(r, 0) == p.drmFd && Arg(r, 1) in p.requests then RET_ALLOW else RET_KILL)
      else Run(program, pc + 5 + 2 * |p.requests|, Nr(r), r)
  {
    hide Run, DrmBlock, DrmHead, AllowBlocks, At;
    var n := |p.requests|;
    DrmBlockHas(program, pc, p);
    JumpStep(program, pc, p.ioctl, 0, 4 + 2 * n, Nr(r), r);
    LoadStep(program, pc + 1, OFFSET_ARG0, 4, Nr(r), r);
    JumpStep(program, pc + 2, p.drmFd, 0, 1 + 2 * n, Arg(r, 0), r);
    LoadStep(program, pc + 3, OFFSET_ARG1, 6, Arg(r, 0), r);
    AllowBlocksDecide(program, pc + 4, p.requests, 0, Arg(r, 1), r);
    ReturnStep(program, pc + 4 + 2 * n, RET_KILL, Arg(r, 1), r);
    ReturnStep(program, pc + 4 + 2 * n, RET_KILL, Arg(r, 0), r);
  }

  lemma AtBefore(a: seq<Instruction>, b: seq<Instruction>, pc: nat, block: seq<Instruction>)
    requires At(a, pc, block)
    ensures At(a + b, pc, block)
  {
    assert (a + b)[pc..pc + |block|] == a[pc..pc + |block|];
  }

  lemma AtAfter(a: seq<Instruction>, b: seq<Instruction>, pc: nat, block: seq<Instruction>)
    requires At(b, pc, block)
    ensures At(a + b, |a| + pc, block)
  {
    assert (a + b)[|a| + pc..|a| + pc + |block|] == b[pc..pc + |block|];
  }

  lemma FixedLayout(p: Policy)
    ensures
      var part := FixedPart(p);
      && |part| == 22 && At(part, 0, Prologue(p))
      && At(part, 4, FlagBlock(p.openat, OFFSET_ARG2, p.writeFlags))
      && At(part, 10, FlagBlock(p.mmap, OFFSET_ARG2, p.execFlag))
      && At(part, 16, FlagBlock(p.mprotect, OFFSET_ARG2, p.execFlag))
  {
  }

  lemma ListLayout(p: Policy)
    ensures
      var part, drm := ListPart(p), 5 + 2 * |p.requests|;
      && |DrmBlock(p)| == drm && |part| == drm + 2 * |p.allowed| + 1
      && At(part, 0, DrmBlock(p)) && At(part, drm, AllowBlocks(p.allowed))
      && part[|part| - 1] == Stmt(Return, RET_KILL)
  {
    hide AllowBlocks;
  }

  /** Where each block of the program starts. */
  lemma Layout(p: Policy)
    ensures
      var program, drm := Program(p), 27 + 2 * |p.requests|;
      && |program| == drm + 2 * |p.allowed| + 1
      && At(program, 0, Prologue(p))
      && At(program, 4, FlagBlock(p.openat, OFFSET_ARG2, p.writeFlags))
      && At(program, 10, FlagBlock(p.mmap, OFFSET_ARG2, p.execFlag))
      && At(program, 16, FlagBlock(p.mprotect, OFFSET_ARG2, p.execFlag))
      && At(program, 22, DrmBlock(p))
      && At(program, drm, AllowBlocks(p.allowed))
      && program[|program| - 1] == Stmt(Return, RET_KILL)
  {
    hide At, FixedPart, ListPart, Prologue, FlagBlock, DrmBlock, AllowBlocks;
    FixedLayout(p);
    ListLayout(p);
    var fixed, list := FixedPart(p), ListPart(p);
    AtBefore(fixed, list, 0, Prologue(p));
    AtBefore(fixed, list, 4, FlagBlock(p.openat, OFFSET_ARG2, p.writeFlags));
    AtBefore(fixed, list, 10, FlagBlock(p.mmap, OFFSET_ARG2, p.execFlag));
    AtBefore(fixed, list, 16, FlagBlock(p.mprotect, OFFSET_ARG2, p.execFlag));
    AtAfter(fixed, list, 0, DrmBlock(p));
    AtAfter(fixed, list, 5 + 2 * |p.requests|, AllowBlocks(p.allowed));
  }

  /** The emitted program means the policy: on every record it terminates without a fault, and
      returns `allow` exactly when the policy allows the call, `kill` otherwise. */
  lemma ProgramMeansPolicy(p: Policy, r: Record)
    requires 4 + 2 * |p.requests| <= 255
    ensures Run(Program(p), 0, 0, r) == Verdict(if Allows(p, r) then 0x7fff_0000 else 0x8000_0000)
  {
    hide Run, DrmBlock, AllowBlocks, FlagBlock, Prologue, Program, At, FlagFree;
    var program, drm := Program(p), 27 + 2 * |p.requests|;
    Layout(p);
    PrologueChecksArchitecture(program, p, 0, r);
    FlagBlockDecides(program, 4, p.openat, p.writeFlags, r);
    FlagBlockDecides(program, 10, p.mmap, p.execFlag, r);
    FlagBlockDecides(program, 16, p.mprotect, p.execFlag, r);
    DrmBlockDecides(program, 22, p, r);
    AllowBlocksDecide(program, drm, p.allowed, 0, Nr(r), r);
    ReturnStep(program, |program| - 1, RET_KILL, Nr(r), r);
  }

  /** Both targets of a jump at `i` are instructions of the program; other instructions have none. */
  predicate JumpsInside(program: seq<Instruction>, i: nat)
    requires i < |program|
  {
    if program[i].code.JumpEqual? then
      i + 1 + program[i].onTrue < |program| && i + 1 + program[i].onFalse < |program|
    else program[i].onTrue == 0 && program[i].onFalse == 0
  }

  predicate LoadsInside(program: seq<Instruction>, i: nat)
    requires i < |program|
  {
    program[i].code.LoadWord? ==> program[i].k as nat in {0, 4, 16, 24, 32}
  }

  /** A block all of whose jumps stay at or before the instruction that follows it. */
  ghost predicate Contained(block: seq<Instruction>) {
    forall i :: 0 <= i < |block| ==>
      && LoadsInside(block, i)
      && (if block[i].code.JumpEqual? then
            i + 1 + block[i].onTrue <= |block| && i + 1 + block[i].onFalse <= |block|
          else block[i].onTrue == 0 && block[i].onFalse == 0)
  }

  lemma ContainedAt(program: seq<Instruction>, pc: nat, block: seq<Instruction>, i: nat)
    requires At(program, pc, block) && Contained(block) && pc <= i < pc + |block| < |program|
    ensures JumpsInside(program, i) && LoadsInside(program, i)
  {
    AtIndex(program, pc, block);
    assert program[pc + (i - pc)] == block[i - pc];
    assert LoadsInside(block, i - pc);
  }

  lemma AllowBlocksContained(values: seq<bv32>)
    ensures Contained(AllowBlocks(values))
  {
    var block := AllowBlocks(values);
    forall i | 0 <= i < |block|
      ensures block[i] == Stmt(Return, RET_ALLOW) || (i + 2 <= |block| && block[i] == Jump(values[i / 2], 0, 1))
    {
      AllowBlocksAt(values, i / 2);
      assert i == 2 * (i / 2) || i == 2 * (i / 2) + 1;
    }
  }

  lemma DrmBlockContained(p: Policy)
    requires 4 + 2 * |p.requests| <= 255
    ensures Contained(DrmBlock(p))
  {
    var block, n := DrmBlock(p), |p.requests|;
    AllowBlocksContained(p.requests);
    forall i | 4 <= i < 4 + 2 * n
      ensures block[i] == AllowBlocks(p.requests)[i - 4] && LoadsInside(AllowBlocks(p.requests), i - 4)
    {
    }
  }

  lemma FixedBlocksContained(p: Policy)
    ensures |Prologue(p)| == 4 && Contained(Prologue(p))
    ensures forall n, o: bv32, f | o == OFFSET_ARG2 :: |FlagBlock(n, o, f)| == 6 && Contained(FlagBlock(n, o, f))
  {
  }

  /** Every jump of the program, reachable or not, lands inside it, every load is of an aligned
      word of the record, and the last instruction returns: what the kernel demands of a filter. */
  lemma ProgramIsWellFormed(p: Policy, i: nat)
    requires 4 + 2 * |p.requests| <= 255 && i < |Program(p)|
    ensures JumpsInside(Program(p), i) && LoadsInside(Program(p), i)
    ensures Program(p)[|Program(p)| - 1].code.Return?
  {
    hide Program, DrmBlock, AllowBlocks, FlagBlock, Prologue, At, Contained;
    FixedBlocksContained(p);
    var program, drm := Program(p), 27 + 2 * |p.requests|;
    Layout(p);
    DrmBlockContained(p);
    AllowBlocksContained(p.allowed);
    if i < 4 {
      ContainedAt(program, 0, Prologue(p), i);
    } else if i < 10 {
      ContainedAt(program, 4, FlagBlock(p.openat, OFFSET_ARG2, p.writeFlags), i);
    } else if i < 16 {
      ContainedAt(program, 10, FlagBlock(p.mmap, OFFSET_ARG2, p.execFlag), i);
    } else if i < 22 {
      ContainedAt(program, 16, FlagBlock(p.mprotect, OFFSET_ARG2, p.execFlag), i);
    } else if i < drm {
      ListLayout(p);
      ContainedAt(program, 22, DrmBlock(p), i);
    } else if i < |program| - 1 {
      ContainedAt(program, drm, AllowBlocks(p.allowed), i);
    }
  }

  /** When the four restricted syscalls are distinct and not on the allow-list, the policy is the
      plain disjunction one reads off the list of rules: by word of the record, the number is word 0, the architecture
      word 1, and the low words of the first three arguments words 4, 6 and 8. */
  lemma RulesAreIndependent(p: Policy, r: Record)
    requires p.openat != p.mmap && p.openat != p.mprotect && p.openat != p.ioctl
    requires p.mmap != p.mprotect && p.mmap != p.ioctl && p.mprotect != p.ioctl
    requires p.openat !in p.allowed && p.mmap !in p.allowed && p.mprotect !in p.allowed && p.ioctl !in p.allowed
    ensures Allows(p, r) <==>
      && r[1] == p.arch
      && (|| (r[0] == p.openat && FlagFree(r[8], p.writeFlags))
          || (r[0] == p.mmap && FlagFree(r[8], p.execFlag))
          || (r[0] == p.mprotect && FlagFree(r[8], p.execFlag))
          || (r[0] == p.ioctl && r[4] == p.drmFd && r[6] in p.requests)
          || r[0] in p.allowed)
  {
    hide FlagFree;
  }

  /** A flag is one bit: with it forbidden, the words are those with that bit clear. */
  lemma FlagIsBit(word: bv32, k: nat)
    requires k < 32
    ensures FlagFree(word, (1 as bv32) << k) <==> (word >> k) & 1 == 0
  {
  }

  /** Flags joined with `or` are forbidden each for itself. */
  lemma FlagsTogether(word: bv32, a: bv32, b: bv32)
    ensures FlagFree(word, a | b) <==> FlagFree(word, a) && FlagFree(word, b)
  {
    Distribute(word, a, b);
    OrIsZero(word & a, word & b);
  }

  lemma Distribute(w: bv32, a: bv32, b: bv32)
    ensures w & (a | b) == (w & a) | (w & b)
  {
  }

  lemma OrIsZero(x: bv32, y: bv32)
    ensures x | y == 0 <==> x == 0 && y == 0
  {
  }
}
