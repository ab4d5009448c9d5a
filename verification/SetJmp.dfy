// setjmp and longjmp, with the system-call stub they use, as one listing.
module SetJmp {
  import opened Words
  import opened X86

  const SETJMP: U64 := 0
  const LONGJMP: U64 := 28
  const LONGJMPRET: U64 := 54
  const SYS_SIGPROCMASK: U64 := 55
  const LENGTH: nat := 61

  // setjmp:
  predicate Setjmp0(code: seq<Instr>) {
    && |code| == LENGTH
    && code[0] == Lea(R8, RSP, 8)
    && code[1] == Store(RDI, 0, RBX)
    && code[2] == Store(RDI, 8, R8)
    && code[3] == Store(RDI, 16, RBP)
    && code[4] == Store(RDI, 24, R12)
    && code[5] == Store(RDI, 32, R13)
    && code[6] == Store(RDI, 40, R14)
    && code[7] == Store(RDI, 48, R15)
  }

  // the return address and the registers the system call needs
  predicate Setjmp8(code: seq<Instr>) {
    && |code| == LENGTH
    && code[8] == PushMem(RSP, 0)
    && code[9] == PopMem(RDI, 56)
    && code[10] == PushReg(RDI)
    && code[11] == PushReg(RSI)
    && code[12] == PushReg(RDX)
    && code[13] == PushReg(RCX)
    && code[14] == AddImm(RSP, -8)
  }

  // rt_sigprocmask(SIG_BLOCK, NULL, rsp, 8)
  predicate Setjmp15(code: seq<Instr>) {
    && |code| == LENGTH
    && code[15] == MovImm(RDI, 0)
    && code[16] == MovImm(RSI, 0)
    && code[17] == MovReg(RDX, RSP)
    && code[18] == MovImm(RCX, 8)
    && code[19] == Call(SYS_SIGPROCMASK)
  }

  // put the registers back and return 0
  predicate Setjmp20(code: seq<Instr>) {
    && |code| == LENGTH
    && code[20] == PopReg(R8)
    && code[21] == PopReg(RCX)
    && code[22] == PopReg(RDX)
    && code[23] == PopReg(RSI)
    && code[24] == PopReg(RDI)
    && code[25] == Store(RDI, 64, R8)
    && code[26] == MovImm(RAX, 0)
    && code[27] == Ret
  }

  // longjmp:
  predicate Longjmp28(code: seq<Instr>) {
    && |code| == LENGTH
    && code[28] == Load(RBX, RDI, 0)
    && code[29] == Load(RSP, RDI, 8)
    && code[30] == Load(RBP, RDI, 16)
    && code[31] == Load(R12, RDI, 24)
    && code[32] == Load(R13, RDI, 32)
    && code[33] == Load(R14, RDI, 40)
    && code[34] == Load(R15, RDI, 48)
  }

  // rt_sigprocmask(SIG_SETMASK, env + 64, NULL, 8)
  predicate Longjmp35(code: seq<Instr>) {
    && |code| == LENGTH
    && code[35] == PushReg(RDI)
    && code[36] == PushReg(RSI)
    && code[37] == PushReg(RDX)
    && code[38] == PushReg(RCX)
    && code[39] == AddImm(RDI, 64)
    && code[40] == MovReg(RSI, RDI)
    && code[41] == MovImm(RDI, 2)
    && code[42] == MovImm(RDX, 0)
    && code[43] == MovImm(RCX, 8)
    && code[44] == Call(SYS_SIGPROCMASK)
  }

  // put the registers back, push the return address; longjmpret is at 54
  predicate Longjmp45(code: seq<Instr>) {
    && |code| == LENGTH
    && code[45] == PopReg(RCX)
    && code[46] == PopReg(RDX)
    && code[47] == PopReg(RSI)
    && code[48] == PopReg(RDI)
    && code[49] == PushMem(RDI, 56)
    && code[50] == MovReg(RAX, RSI)
    && code[51] == CmpImm(RAX, 0)
    && code[52] == Jne(LONGJMPRET)
    && code[53] == AddImm(RAX, 1)
    && code[54] == Ret
  }

  // sys_rt_sigprocmask:
  predicate HasStub(code: seq<Instr>) {
    && |code| == LENGTH
    && code[55] == PushReg(R10)
    && code[56] == MovReg(R10, RCX)
    && code[57] == MovImm(RAX, 14)
    && code[58] == Syscall
    && code[59] == PopReg(R10)
    && code[60] == Ret
  }

  predicate HasPart(code: seq<Instr>, part: nat) {
    match part
    case 0 => Setjmp0(code)
    case 1 => Setjmp8(code)
    case 2 => Setjmp15(code)
    case 3 => Setjmp20(code)
    case 4 => Longjmp28(code)
    case 5 => Longjmp35(code)
    case 6 => Longjmp45(code)
    case _ => HasStub(code)
  }

  // The whole listing.
  predicate IsListing(code: seq<Instr>) {
    |code| == LENGTH && forall part :: 0 <= part < 8 ==> HasPart(code, part)
  }

  // ---- the jump buffer -----------------------------------------------------------------------------------------

  // What setjmp keeps: the registers a call preserves, rsp and rip as they are after it returns, the signal mask.
  datatype Saved = Saved(rbx: U64, rsp: U64, rbp: U64, r12: U64, r13: U64, r14: U64, r15: U64, rip: U64, mask: U64)

  // The nine words of a jmp_buf are mapped.
  predicate EnvMapped(mem: Memory, env: U64) {
    env + 64 < TWO64
    && env in mem && env + 8 in mem && env + 16 in mem && env + 24 in mem && env + 32 in mem
    && env + 40 in mem && env + 48 in mem && env + 56 in mem && env + 64 in mem
  }

  predicate EnvHolds(mem: Memory, env: U64, v: Saved) {
    EnvMapped(mem, env)
    && mem[env] == v.rbx && mem[env + 8] == v.rsp && mem[env + 16] == v.rbp && mem[env + 24] == v.r12
    && mem[env + 32] == v.r13 && mem[env + 40] == v.r14 && mem[env + 48] == v.r15 && mem[env + 56] == v.rip
    && mem[env + 64] == v.mask
  }

  // ---- the stub ------------------------------------------------------------------------------------------------

  // The registers a call preserves, rsp apart.
  predicate KeepsSaved(r: Regs, q: Regs) {
    r[RBX] == q[RBX] && r[RBP] == q[RBP] && r[R12] == q[R12] && r[R13] == q[R13] && r[R14] == q[R14] && r[R15] == q[R15]
  }

  // Instructions 55-57.
  lemma StubEnters(code: seq<Instr>, s: Cpu) returns (t: Cpu)
    requires IsListing(code) && s.rip == SYS_SIGPROCMASK && !s.fault && RoomBelow(s)
    ensures Leads(code, s, t) && t == s.(rip := 58, regs := t.regs, mem := s.mem[s.regs[RSP] - 8 := s.regs[R10]])
    ensures t.regs == s.regs[RSP := s.regs[RSP] - 8][R10 := s.regs[RCX]][RAX := 14]
  {
    Stay(code, s);
    assert HasPart(code, 7);
    var s1 := RunPush(code, s, s, R10);
    var s2 := RunMov(code, s, s1, R10, RCX);
    t := RunMovImm(code, s, s2, RAX, 14);
  }

  // Instructions 59-60.
  lemma StubLeaves(code: seq<Instr>, s: Cpu) returns (t: Cpu)
    requires IsListing(code) && s.rip == 59 && !s.fault
    requires var sp := s.regs[RSP]; sp + 16 < TWO64 && sp in s.mem && sp + 8 in s.mem
    ensures Leads(code, s, t) && t == s.(rip := s.mem[s.regs[RSP] + 8], regs := t.regs)
    ensures t.regs[RSP] == s.regs[RSP] + 16 && KeepsSaved(t.regs, s.regs)
  {
    Stay(code, s);
    assert HasPart(code, 7);
    var s1 := RunPop(code, s, s, R10);
    t := RunRet(code, s, s1);
  }

  // Reading the mask: how = 0, set = NULL, oset mapped and away from the stub's own stack words.
  lemma StubReadsMask(code: seq<Instr>, s: Cpu) returns (t: Cpu)
    requires IsListing(code) && s.rip == SYS_SIGPROCMASK && !s.fault
    requires var sp, oset := s.regs[RSP], s.regs[RDX];
      && 8 <= sp < TWO64 - 8 && sp in s.mem && sp - 8 in s.mem
      && s.regs[RSI] == 0 && s.regs[RCX] == 8 && oset != 0 && oset in s.mem && oset != sp && oset != sp - 8
    ensures Leads(code, s, t) && !t.fault && t.mask == s.mask
    ensures t.rip == s.mem[s.regs[RSP]] && t.regs[RSP] == s.regs[RSP] + 8
    ensures KeepsSaved(t.regs, s.regs)
    ensures t.mem == s.mem[s.regs[RSP] - 8 := s.regs[R10]][s.regs[RDX] := s.mask]
  {
    var s1 := StubEnters(code, s);
    assert HasPart(code, 7);
    var s2 := RunSyscall(code, s, s1);
    t := StubLeaves(code, s2);
    LeadsTo(code, s, s2, t);
  }

  // Installing a mask: how = SIG_SETMASK, set mapped and away from the stub's own stack word, oset = NULL.
  lemma StubSetsMask(code: seq<Instr>, s: Cpu) returns (t: Cpu)
    requires IsListing(code) && s.rip == SYS_SIGPROCMASK && !s.fault
    requires var sp, set' := s.regs[RSP], s.regs[RSI];
      && 8 <= sp < TWO64 - 8 && sp in s.mem && sp - 8 in s.mem
      && s.regs[RDI] == SIG_SETMASK && s.regs[RDX] == 0 && s.regs[RCX] == 8
      && set' != 0 && set' in s.mem && set' != sp - 8
    ensures Leads(code, s, t) && !t.fault && t.mask == Sanitize(s.mem[s.regs[RSI]])
    ensures t.rip == s.mem[s.regs[RSP]] && t.regs[RSP] == s.regs[RSP] + 8
    ensures KeepsSaved(t.regs, s.regs)
    ensures t.mem == s.mem[s.regs[RSP] - 8 := s.regs[R10]]
  {
    var s1 := StubEnters(code, s);
    assert HasPart(code, 7);
    var s2 := RunSyscall(code, s, s1);
    t := StubLeaves(code, s2);
    LeadsTo(code, s, s2, t);
  }

  // ---- memory frames -------------------------------------------------------------------------------------------

  // The same words are mapped, and those outside the jump buffer and [lo, hi) are unchanged.
  predicate SameElsewhere(mem: Memory, mem': Memory, env: U64, lo: int, hi: int) {
    mem'.Keys == mem.Keys
    && forall a :: a in mem && !(env <= a < env + 72) && !(lo <= a < hi) ==> mem'[a] == mem[a]
  }

  // Seven words are mapped just below `top`.
  predicate Words7(mem: Memory, top: U64) {
    56 <= top && top - 8 in mem && top - 16 in mem && top - 24 in mem && top - 32 in mem
    && top - 40 in mem && top - 48 in mem && top - 56 in mem
  }

  // The jump buffer at env has no word in [lo, hi).
  predicate Apart(env: U64, lo: int, hi: int) {
    env + 72 <= lo || hi <= env
  }

  // The first seven words of the jump buffer.
  predicate HoldsRegisters(mem: Memory, e: U64, v: Saved) {
    EnvMapped(mem, e)
    && mem[e] == v.rbx && mem[e + 8] == v.rsp && mem[e + 16] == v.rbp && mem[e + 24] == v.r12
    && mem[e + 32] == v.r13 && mem[e + 40] == v.r14 && mem[e + 48] == v.r15
  }

  // What a caller of setjmp provides: a stack with the return address on top and seven words of room, and a jump
  // buffer away from them.
  predicate CallsSetjmp(s: Cpu) {
    var sp := s.regs[RSP];
    && s.rip == SETJMP && !s.fault && sp < TWO64 - 8 && sp in s.mem && Words7(s.mem, sp)
    && EnvMapped(s.mem, s.regs[RDI]) && Apart(s.regs[RDI], sp - 56, sp + 8)
  }

  // What setjmp is to save in state s: the registers as the caller will have them back, and the mask.
  function ToSave(s: Cpu): Saved
    requires CallsSetjmp(s)
  {
    var r := s.regs;
    Saved(r[RBX], r[RSP] + 8, r[RBP], r[R12], r[R13], r[R14], r[R15], s.mem[r[RSP]], s.mask)
  }

  // ---- setjmp, block by block ----------------------------------------------------------------------------------

  // Instructions 0-3.
  lemma SaveFrame(code: seq<Instr>, s: Cpu) returns (t: Cpu)
    requires IsListing(code) && s.rip == SETJMP && !s.fault && s.regs[RSP] + 8 < TWO64
    requires var e := s.regs[RDI]; e + 16 < TWO64 && e in s.mem && e + 8 in s.mem && e + 16 in s.mem
    ensures Leads(code, s, t) && t == s.(rip := 4, regs := s.regs[R8 := s.regs[RSP] + 8], mem := t.mem)
    ensures var r, e := s.regs, s.regs[RDI];
      t.mem == s.mem[e := r[RBX]][e + 8 := r[RSP] + 8][e + 16 := r[RBP]]
  {
    Stay(code, s);
    assert HasPart(code, 0);
    var s1 := RunLea(code, s, s, R8, RSP, 8);
    var s2 := RunStore(code, s, s1, RDI, 0, RBX);
    var s3 := RunStore(code, s, s2, RDI, 8, R8);
    t := RunStore(code, s, s3, RDI, 16, RBP);
  }

  // Instructions 4-7.
  lemma SaveOthers(code: seq<Instr>, s: Cpu) returns (t: Cpu)
    requires IsListing(code) && s.rip == 4 && !s.fault && EnvMapped(s.mem, s.regs[RDI])
    ensures Leads(code, s, t) && t == s.(rip := 8, mem := t.mem)
    ensures var r, e := s.regs, s.regs[RDI];
      t.mem == s.mem[e + 24 := r[R12]][e + 32 := r[R13]][e + 40 := r[R14]][e + 48 := r[R15]]
  {
    Stay(code, s);
    assert HasPart(code, 0);
    var s1 := RunStore(code, s, s, RDI, 24, R12);
    var s2 := RunStore(code, s, s1, RDI, 32, R13);
    var s3 := RunStore(code, s, s2, RDI, 40, R14);
    t := RunStore(code, s, s3, RDI, 48, R15);
  }

  lemma SaveRegisters(code: seq<Instr>, s: Cpu) returns (t: Cpu)
    requires IsListing(code) && CallsSetjmp(s)
    ensures Leads(code, s, t) && t == s.(rip := 8, regs := s.regs[R8 := s.regs[RSP] + 8], mem := t.mem)
    ensures HoldsRegisters(t.mem, s.regs[RDI], ToSave(s))
    ensures SameOutside(s.mem, t.mem, s.regs[RDI], s.regs[RDI] + 56)
  {
    var s1 := SaveFrame(code, s);
    t := SaveOthers(code, s1);
    LeadsTo(code, s, s1, t);
    SevenStores(s.mem, s1.mem, t.mem, s.regs[RDI], ToSave(s));
  }

  // The seven stores.
  lemma SevenStores(m: Memory, m1: Memory, m2: Memory, e: U64, v: Saved)
    requires EnvMapped(m, e)
    requires m1 == m[e := v.rbx][e + 8 := v.rsp][e + 16 := v.rbp]
    requires m2 == m1[e + 24 := v.r12][e + 32 := v.r13][e + 40 := v.r14][e + 48 := v.r15]
    ensures HoldsRegisters(m2, e, v) && SameOutside(m, m2, e, e as int + 56)
  {}

  // Instructions 8-9: the return address to the jump buffer.
  lemma SaveReturnAddress(code: seq<Instr>, s: Cpu) returns (t: Cpu)
    requires IsListing(code) && s.rip == 8 && !s.fault
    requires var sp, e := s.regs[RSP], s.regs[RDI];
      8 <= sp < TWO64 - 8 && sp in s.mem && sp - 8 in s.mem && e + 56 < TWO64 && e + 56 in s.mem
    ensures Leads(code, s, t) && t == s.(rip := 10, mem := t.mem)
    ensures var sp := s.regs[RSP]; t.mem == s.mem[sp - 8 := s.mem[sp]][s.regs[RDI] + 56 := s.mem[sp]]
  {
    Stay(code, s);
    assert HasPart(code, 1);
    var s1 := RunPushMem(code, s, s, RSP, 0);
    t := RunPopMem(code, s, s1, RDI, 56);
    assert t.regs == s.regs;
  }

  // Instructions 10-14: the caller-saved registers the system call needs.
  lemma PushCallerSaved(code: seq<Instr>, s: Cpu) returns (t: Cpu)
    requires IsListing(code) && s.rip == 10 && !s.fault
    requires var sp := s.regs[RSP];
      40 <= sp < TWO64 - 8 && sp - 8 in s.mem && sp - 16 in s.mem && sp - 24 in s.mem && sp - 32 in s.mem
    ensures Leads(code, s, t) && !t.fault && t.rip == 15 && t.mask == s.mask
    ensures t.regs[RSP] == s.regs[RSP] - 40 && KeepsSaved(t.regs, s.regs)
    ensures SameOutside(s.mem, t.mem, s.regs[RSP] - 32, s.regs[RSP]) && t.mem[s.regs[RSP] - 8] == s.regs[RDI]
  {
    Stay(code, s);
    assert HasPart(code, 1);
    var s1 := RunPush(code, s, s, RDI);
    var s2 := RunPush(code, s, s1, RSI);
    var s3 := RunPush(code, s, s2, RDX);
    var s4 := RunPush(code, s, s3, RCX);
    t := RunAdd(code, s, s4, RSP, -8);
  }

  // Instructions 15-19 and the stub: the mask to the word at rsp.
  lemma SaveMaskWord(code: seq<Instr>, s: Cpu) returns (t: Cpu)
    requires IsListing(code) && s.rip == 15 && !s.fault
    requires var sp := s.regs[RSP]; 16 <= sp < TWO64 - 8 && sp in s.mem && sp - 8 in s.mem && sp - 16 in s.mem
    ensures Leads(code, s, t) && !t.fault && t.rip == 20 && t.mask == s.mask
    ensures t.regs[RSP] == s.regs[RSP] && KeepsSaved(t.regs, s.regs)
    ensures t.regs[RSP] in t.mem && t.mem[t.regs[RSP]] == s.mask
    ensures SameOutside(s.mem, t.mem, s.regs[RSP] - 16, s.regs[RSP] + 8)
  {
    Stay(code, s);
    assert HasPart(code, 2);
    var s1 := RunMovImm(code, s, s, RDI, 0);
    var s2 := RunMovImm(code, s, s1, RSI, 0);
    var s3 := RunMov(code, s, s2, RDX, RSP);
    var s4 := RunMovImm(code, s, s3, RCX, 8);
    var s5 := RunCall(code, s, s4, SYS_SIGPROCMASK);
    t := StubReadsMask(code, s5);
    LeadsTo(code, s, s5, t);
  }

  // Instructions 21-22 and 45-46.
  lemma PopTwo(code: seq<Instr>, s: Cpu) returns (t: Cpu)
    requires IsListing(code) && (s.rip == 21 || s.rip == 45) && !s.fault
    requires var sp := s.regs[RSP]; sp + 16 < TWO64 && sp in s.mem && sp + 8 in s.mem
    ensures Leads(code, s, t) && t == s.(rip := s.rip + 2, regs := t.regs)
    ensures t.regs[RSP] == s.regs[RSP] + 16 && KeepsSaved(t.regs, s.regs) && t.regs[R8] == s.regs[R8]
  {
    Stay(code, s);
    assert HasPart(code, if s.rip == 21 then 3 else 6);
    var s1 := RunPop(code, s, s, RCX);
    t := RunPop(code, s, s1, RDX);
  }

  // Instructions 21-24 and 45-48.
  lemma PopFour(code: seq<Instr>, s: Cpu) returns (t: Cpu)
    requires IsListing(code) && (s.rip == 21 || s.rip == 45) && !s.fault
    requires var sp := s.regs[RSP];
      sp + 32 < TWO64 && sp in s.mem && sp + 8 in s.mem && sp + 16 in s.mem && sp + 24 in s.mem
    ensures Leads(code, s, t) && t == s.(rip := s.rip + 4, regs := t.regs)
    ensures KeepsSaved(t.regs, s.regs) && t.regs[R8] == s.regs[R8]
    ensures var sp := s.regs[RSP];
      t.regs[RSP] == sp + 32 && t.regs[RSI] == s.mem[sp + 16] && t.regs[RDI] == s.mem[sp + 24]
  {
    var s1 := PopTwo(code, s);
    assert HasPart(code, if s.rip == 21 then 3 else 6);
    var s2 := RunPop(code, s, s1, RSI);
    t := RunPop(code, s, s2, RDI);
  }

  // Instructions 20-24.
  lemma PopCallerSaved(code: seq<Instr>, s: Cpu) returns (t: Cpu)
    requires IsListing(code) && s.rip == 20 && !s.fault
    requires var sp := s.regs[RSP];
      sp + 48 < TWO64 && sp in s.mem && sp + 8 in s.mem && sp + 16 in s.mem && sp + 24 in s.mem && sp + 32 in s.mem
    ensures Leads(code, s, t) && t == s.(rip := 25, regs := t.regs) && KeepsSaved(t.regs, s.regs)
    ensures var sp := s.regs[RSP];
      t.regs[RSP] == sp + 40 && t.regs[R8] == s.mem[sp] && t.regs[RDI] == s.mem[sp + 32]
  {
    Stay(code, s);
    assert HasPart(code, 3);
    var s1 := RunPop(code, s, s, R8);
    t := PopFour(code, s1);
    LeadsTo(code, s, s1, t);
  }

  // Instructions 25-27.
  lemma StoreMaskAndReturn(code: seq<Instr>, s: Cpu) returns (t: Cpu)
    requires IsListing(code) && s.rip == 25 && !s.fault
    requires var sp, e := s.regs[RSP], s.regs[RDI];
      sp + 8 < TWO64 && sp in s.mem && e + 64 < TWO64 && e + 64 in s.mem && e + 64 != sp
    ensures Leads(code, s, t) && !t.fault && t.mask == s.mask && t.rip == s.mem[s.regs[RSP]]
    ensures t.regs[RSP] == s.regs[RSP] + 8 && t.regs[RAX] == 0 && KeepsSaved(t.regs, s.regs)
    ensures t.mem == s.mem[s.regs[RDI] + 64 := s.regs[R8]]
  {
    Stay(code, s);
    assert HasPart(code, 3);
    var s1 := RunStore(code, s, s, RDI, 64, R8);
    var s2 := RunMovImm(code, s, s1, RAX, 0);
    t := RunRet(code, s, s2);
  }

  // ---- setjmp --------------------------------------------------------------------------------------------------

  predicate Restored(t: Cpu, v: Saved) {
    t.regs[RBX] == v.rbx && t.regs[RSP] == v.rsp && t.regs[RBP] == v.rbp && t.regs[R12] == v.r12
    && t.regs[R13] == v.r13 && t.regs[R14] == v.r14 && t.regs[R15] == v.r15 && t.rip == v.rip && t.mask == v.mask
  }

  // Instructions 0-14 of a call.
  lemma SetjmpFirstHalf(code: seq<Instr>, s: Cpu) returns (t: Cpu)
    requires IsListing(code) && CallsSetjmp(s)
    ensures Leads(code, s, t) && !t.fault && t.rip == 15 && t.mask == s.mask
    ensures t.regs[RSP] == s.regs[RSP] - 40 && KeepsSaved(t.regs, s.regs)
    ensures SameElsewhere(s.mem, t.mem, s.regs[RDI], s.regs[RSP] - 56, s.regs[RSP])
    ensures HoldsRegisters(t.mem, s.regs[RDI], ToSave(s)) && t.mem[s.regs[RDI] + 56] == ToSave(s).rip
    ensures t.mem[s.regs[RSP] - 8] == s.regs[RDI]
  {
    var s1 := SaveRegisters(code, s);
    var s2 := SaveReturnAddress(code, s1);
    FirstHalfMemory(s.mem, s1.mem, s2.mem, s.regs[RDI], s.regs[RSP], ToSave(s));
    t := PushCallerSaved(code, s2);
    LeadsTo(code, s, s1, s2);
    LeadsTo(code, s, s2, t);
    PushedMemory(s.mem, s2.mem, t.mem, s.regs[RDI], s.regs[RSP], ToSave(s));
  }

  lemma FirstHalfMemory(m: Memory, m1: Memory, m2: Memory, e: U64, sp: U64, v: Saved)
    requires sp < TWO64 - 8 && sp in m && Words7(m, sp) && EnvMapped(m, e) && Apart(e, sp - 56, sp + 8)
    requires SameOutside(m, m1, e, e + 56) && HoldsRegisters(m1, e, v) && v.rip == m[sp]
    requires m2 == m1[sp - 8 := m1[sp]][e + 56 := m1[sp]]
    ensures SameElsewhere(m, m2, e, sp - 56, sp)
    ensures HoldsRegisters(m2, e, v) && m2[e + 56] == v.rip
  {}

  lemma PushedMemory(m: Memory, m2: Memory, m3: Memory, e: U64, sp: U64, v: Saved)
    requires EnvMapped(m, e) && Apart(e, sp - 56, sp + 8)
    requires SameElsewhere(m, m2, e, sp - 56, sp) && HoldsRegisters(m2, e, v) && m2[e + 56] == v.rip
    requires SameOutside(m2, m3, sp - 32, sp)
    ensures SameElsewhere(m, m3, e, sp - 56, sp)
    ensures HoldsRegisters(m3, e, v) && m3[e + 56] == v.rip
  {}

  // Instructions 15-27, for a call that began with stack pointer sp and jump buffer e.
  lemma SetjmpSecondHalf(code: seq<Instr>, s: Cpu, sp: U64, e: U64) returns (t: Cpu)
    requires IsListing(code) && s.rip == 15 && !s.fault && s.regs[RSP] == sp - 40
    requires sp < TWO64 - 8 && sp in s.mem && Words7(s.mem, sp) && EnvMapped(s.mem, e) && Apart(e, sp - 56, sp + 8)
    requires s.mem[sp - 8] == e
    ensures Leads(code, s, t) && !t.fault && t.mask == s.mask && t.rip == s.mem[sp]
    ensures t.regs[RSP] == sp + 8 && t.regs[RAX] == 0
    ensures KeepsSaved(t.regs, s.regs)
    ensures t.mem.Keys == s.mem.Keys && t.mem[e + 64] == s.mask
    ensures forall a :: a in s.mem && a != e + 64 && !(sp - 56 <= a < sp - 32) ==> t.mem[a] == s.mem[a]
  {
    var s1 := SaveMaskWord(code, s);
    var s2 := PopCallerSaved(code, s1);
    t := StoreMaskAndReturn(code, s2);
    LeadsTo(code, s, s1, s2);
    LeadsTo(code, s, s2, t);
  }

  // setjmp returns 0 with the caller's registers and mask as they were, the jump buffer holding them, and nothing
  // else changed but the seven words below the return address.
  lemma SetjmpSaves(code: seq<Instr>, s: Cpu) returns (t: Cpu)
    requires IsListing(code) && CallsSetjmp(s)
    ensures Leads(code, s, t) && !t.fault
    ensures Restored(t, ToSave(s)) && t.regs[RAX] == 0
    ensures EnvHolds(t.mem, s.regs[RDI], ToSave(s))
    ensures SameElsewhere(s.mem, t.mem, s.regs[RDI], s.regs[RSP] - 56, s.regs[RSP])
  {
    var s1 := SetjmpFirstHalf(code, s);
    t := SetjmpSecondHalf(code, s1, s.regs[RSP], s.regs[RDI]);
    LeadsTo(code, s, s1, t);
    SecondHalfMemory(s.mem, s1.mem, t.mem, s.regs[RDI], s.regs[RSP], ToSave(s));
  }

  lemma SecondHalfMemory(m: Memory, m1: Memory, m2: Memory, e: U64, sp: U64, v: Saved)
    requires EnvMapped(m, e) && Apart(e, sp - 56, sp + 8)
    requires SameElsewhere(m, m1, e, sp - 56, sp) && HoldsRegisters(m1, e, v) && m1[e + 56] == v.rip
    requires m2.Keys == m1.Keys && m2[e + 64] == v.mask
    requires forall a :: a in m1 && a != e + 64 && !(sp - 56 <= a < sp - 32) ==> m2[a] == m1[a]
    ensures SameElsewhere(m, m2, e, sp - 56, sp) && EnvHolds(m2, e, v)
  {}

  // ---- longjmp, block by block ---------------------------------------------------------------------------------

  // What longjmp needs: the buffer in rdi holding v, and six words of room just below the stack pointer it restores,
  // away from the buffer.
  predicate CallsLongjmp(s: Cpu, v: Saved) {
    && s.rip == LONGJMP && !s.fault && EnvHolds(s.mem, s.regs[RDI], v) && RoomToReturn(s.mem, s.regs[RDI], v.rsp)
  }

  predicate RoomToReturn(mem: Memory, e: U64, sp: U64) {
    48 <= sp && Apart(e, sp - 48, sp)
    && sp - 8 in mem && sp - 16 in mem && sp - 24 in mem && sp - 32 in mem && sp - 40 in mem && sp - 48 in mem
  }

  // The registers are the saved ones.
  predicate RegistersBack(r: Regs, v: Saved) {
    r[RBX] == v.rbx && r[RBP] == v.rbp && r[R12] == v.r12 && r[R13] == v.r13 && r[R14] == v.r14 && r[R15] == v.r15
  }

  // Instructions 28-34.
  lemma LoadRegisters(code: seq<Instr>, s: Cpu, v: Saved) returns (t: Cpu)
    requires IsListing(code) && s.rip == LONGJMP && !s.fault && EnvHolds(s.mem, s.regs[RDI], v)
    ensures Leads(code, s, t) && t == s.(rip := 35, regs := t.regs)
    ensures RegistersBack(t.regs, v) && t.regs[RSP] == v.rsp
    ensures t.regs[RDI] == s.regs[RDI] && t.regs[RSI] == s.regs[RSI]
  {
    Stay(code, s);
    assert HasPart(code, 4);
    var s1 := RunLoad(code, s, s, RBX, RDI, 0);
    var s2 := RunLoad(code, s, s1, RSP, RDI, 8);
    var s3 := RunLoad(code, s, s2, RBP, RDI, 16);
    var s4 := RunLoad(code, s, s3, R12, RDI, 24);
    var s5 := RunLoad(code, s, s4, R13, RDI, 32);
    var s6 := RunLoad(code, s, s5, R14, RDI, 40);
    t := RunLoad(code, s, s6, R15, RDI, 48);
  }

  // Instructions 35-36.
  lemma PushEnvAndValue(code: seq<Instr>, s: Cpu) returns (t: Cpu)
    requires IsListing(code) && s.rip == 35 && !s.fault
    requires var sp := s.regs[RSP]; 16 <= sp && sp - 8 in s.mem && sp - 16 in s.mem
    ensures Leads(code, s, t) && t == s.(rip := 37, regs := t.regs, mem := t.mem)
    ensures t.regs == s.regs[RSP := s.regs[RSP] - 16]
    ensures t.mem == s.mem[s.regs[RSP] - 8 := s.regs[RDI]][s.regs[RSP] - 16 := s.regs[RSI]]
  {
    Stay(code, s);
    assert HasPart(code, 5);
    var s1 := RunPush(code, s, s, RDI);
    t := RunPush(code, s, s1, RSI);
    assert t.regs == s.regs[RSP := s.regs[RSP] - 16];
  }

  // Instructions 35-38.
  lemma PushArguments(code: seq<Instr>, s: Cpu) returns (t: Cpu)
    requires IsListing(code) && s.rip == 35 && !s.fault && RoomToReturn(s.mem, s.regs[RDI], s.regs[RSP])
    ensures Leads(code, s, t) && t == s.(rip := 39, regs := t.regs, mem := t.mem)
    ensures t.regs == s.regs[RSP := s.regs[RSP] - 32]
    ensures SameOutside(s.mem, t.mem, s.regs[RSP] - 32, s.regs[RSP])
    ensures t.mem[s.regs[RSP] - 8] == s.regs[RDI] && t.mem[s.regs[RSP] - 16] == s.regs[RSI]
  {
    var s1 := PushEnvAndValue(code, s);
    assert HasPart(code, 5);
    var s2 := RunPush(code, s, s1, RDX);
    t := RunPush(code, s, s2, RCX);
    assert t.regs == s.regs[RSP := s.regs[RSP] - 32];
  }

  // Instructions 39-40: the address of the saved mask.
  lemma MaskAddress(code: seq<Instr>, s: Cpu) returns (t: Cpu)
    requires IsListing(code) && s.rip == 39 && !s.fault && s.regs[RDI] + 64 < TWO64
    ensures Leads(code, s, t) && t == s.(rip := 41, regs := t.regs, zf := t.zf, less := t.less)
    ensures t.regs == s.regs[RDI := s.regs[RDI] + 64][RSI := s.regs[RDI] + 64]
  {
    Stay(code, s);
    assert HasPart(code, 5);
    var s1 := RunAdd(code, s, s, RDI, 64);
    t := RunMov(code, s, s1, RSI, RDI);
  }

  // Instructions 39-43: rt_sigprocmask's arguments.
  lemma MaskArguments(code: seq<Instr>, s: Cpu) returns (t: Cpu)
    requires IsListing(code) && s.rip == 39 && !s.fault && s.regs[RDI] + 64 < TWO64
    ensures Leads(code, s, t) && t == s.(rip := 44, regs := t.regs, zf := t.zf, less := t.less)
    ensures t.regs[RDI] == 2 && t.regs[RSI] == s.regs[RDI] + 64 && t.regs[RDX] == 0 && t.regs[RCX] == 8
    ensures t.regs[RSP] == s.regs[RSP] && KeepsSaved(t.regs, s.regs)
  {
    var s1 := MaskAddress(code, s);
    assert HasPart(code, 5);
    var s2 := RunMovImm(code, s, s1, RDI, 2);
    var s3 := RunMovImm(code, s, s2, RDX, 0);
    t := RunMovImm(code, s, s3, RCX, 8);
  }

  // Instructions 39-44 and the stub: install the saved mask.
  lemma InstallMask(code: seq<Instr>, s: Cpu) returns (t: Cpu)
    requires IsListing(code) && s.rip == 39 && !s.fault
    requires var sp, e := s.regs[RSP], s.regs[RDI];
      && 16 <= sp < TWO64 - 8 && sp - 8 in s.mem && sp - 16 in s.mem
      && e + 64 < TWO64 && e + 64 in s.mem && e + 64 != sp - 8 && e + 64 != sp - 16
    ensures Leads(code, s, t) && !t.fault && t.rip == 45 && t.mask == Sanitize(s.mem[s.regs[RDI] + 64])
    ensures t.regs[RSP] == s.regs[RSP] && KeepsSaved(t.regs, s.regs)
    ensures SameOutside(s.mem, t.mem, s.regs[RSP] - 16, s.regs[RSP])
  {
    var s1 := MaskArguments(code, s);
    assert HasPart(code, 5);
    var s2 := RunCall(code, s, s1, SYS_SIGPROCMASK);
    t := StubSetsMask(code, s2);
    LeadsTo(code, s, s2, t);
  }

  // Instructions 49-54: the second argument, or 1 for 0, to the saved return address.
  lemma JumpBack(code: seq<Instr>, s: Cpu) returns (t: Cpu)
    requires IsListing(code) && s.rip == 49 && !s.fault
    requires var sp, e := s.regs[RSP], s.regs[RDI];
      8 <= sp < TWO64 && sp - 8 in s.mem && e + 56 < TWO64 && e + 56 in s.mem
    ensures Leads(code, s, t) && !t.fault && t.mask == s.mask && t.rip == s.mem[s.regs[RDI] + 56]
    ensures t.regs[RSP] == s.regs[RSP] && KeepsSaved(t.regs, s.regs)
    ensures t.regs[RAX] == if s.regs[RSI] == 0 then 1 else s.regs[RSI]
    ensures t.mem == s.mem[s.regs[RSP] - 8 := s.mem[s.regs[RDI] + 56]]
  {
    Stay(code, s);
    assert HasPart(code, 6);
    var s1 := RunPushMem(code, s, s, RDI, 56);
    var s2 := RunMov(code, s, s1, RAX, RSI);
    var s3 := RunCmp(code, s, s2, RAX, 0);
    var s4 := RunBranch(code, s, s3, Jne(LONGJMPRET));
    if s.regs[RSI] == 0 {
      s4 := RunAdd(code, s, s4, RAX, 1);
    }
    t := RunRet(code, s, s4);
  }

  // ---- longjmp -------------------------------------------------------------------------------------------------

  lemma LongjmpMemory(m: Memory, m': Memory, e: U64, v: Saved)
    requires EnvHolds(m, e, v) && Apart(e, v.rsp - 48, v.rsp) && SameOutside(m, m', v.rsp - 48, v.rsp)
    ensures EnvHolds(m', e, v)
  {}

  // Instructions 28-44 and the stub: registers and mask are back.
  lemma LongjmpFirstHalf(code: seq<Instr>, s: Cpu, v: Saved) returns (t: Cpu)
    requires IsListing(code) && CallsLongjmp(s, v) && Blockable(v.mask)
    ensures Leads(code, s, t) && !t.fault && t.rip == 45 && t.mask == v.mask
    ensures RegistersBack(t.regs, v) && t.regs[RSP] as int == v.rsp - 32
    ensures SameOutside(s.mem, t.mem, v.rsp - 48, v.rsp)
    ensures t.mem[v.rsp - 8] == s.regs[RDI] && t.mem[v.rsp - 16] == s.regs[RSI]
  {
    var s1 := LoadRegisters(code, s, v);
    var s2 := PushArguments(code, s1);
    t := InstallMask(code, s2);
    LeadsTo(code, s, s1, s2);
    LeadsTo(code, s, s2, t);
  }

  // From any state whose buffer still holds v, longjmp returns where v says, with v's registers and mask, the second
  // argument (1 for 0) in rax, the buffer intact, and only the six words just below the restored rsp changed.
  lemma LongjmpRestores(code: seq<Instr>, s: Cpu, v: Saved) returns (t: Cpu)
    requires IsListing(code) && CallsLongjmp(s, v) && Blockable(v.mask)
    ensures Leads(code, s, t) && !t.fault && Restored(t, v)
    ensures t.regs[RAX] == if s.regs[RSI] == 0 then 1 else s.regs[RSI]
    ensures SameOutside(s.mem, t.mem, v.rsp - 48, v.rsp)
    ensures EnvHolds(t.mem, s.regs[RDI], v)
  {
    var s1 := LongjmpFirstHalf(code, s, v);
    LongjmpMemory(s.mem, s1.mem, s.regs[RDI], v);
    var s2 := PopFour(code, s1);
    t := JumpBack(code, s2);
    LeadsTo(code, s, s1, s2);
    LeadsTo(code, s, s2, t);
    LongjmpMemory(s.mem, t.mem, s.regs[RDI], v);
  }

  // setjmp, then anything that leaves the jump buffer as setjmp filled it, then longjmp: control is back at setjmp's
  // return address with the stack pointer, the preserved registers and the mask of the setjmp call.
  lemma SetjmpThenLongjmp(code: seq<Instr>, s: Cpu, later: Cpu) returns (t: Cpu, u: Cpu)
    requires IsListing(code) && CallsSetjmp(s) && Blockable(s.mask)
    requires later.rip == LONGJMP && !later.fault && later.regs[RDI] == s.regs[RDI]
    requires later.mem.Keys == s.mem.Keys && EnvHolds(later.mem, s.regs[RDI], ToSave(s))
    ensures Leads(code, s, t) && !t.fault && t.rip == s.mem[s.regs[RSP]] && t.regs[RAX] == 0
    ensures EnvHolds(t.mem, s.regs[RDI], ToSave(s))
    ensures Leads(code, later, u) && !u.fault && u.rip == t.rip
    ensures u.regs[RSP] == t.regs[RSP] && KeepsSaved(u.regs, s.regs) && u.mask == s.mask
    ensures u.regs[RAX] == (if later.regs[RSI] == 0 then 1 else later.regs[RSI])
    ensures SameOutside(later.mem, u.mem, t.regs[RSP] as int - 48, t.regs[RSP])
  {
    t := SetjmpSaves(code, s);
    u := LongjmpRestores(code, later, ToSave(s));
  }

  // The C declaration gives longjmp an int, but the routine looks at all of rsi, whose upper half the calling
  // convention leaves open. The int setjmp returns is the one the C standard asks for exactly when a zero argument
  // comes with a zero upper half.
  lemma LongjmpIntResult(code: seq<Instr>, s: Cpu, v: Saved) returns (t: Cpu)
    requires IsListing(code) && CallsLongjmp(s, v) && Blockable(v.mask)
    ensures Leads(code, s, t) && t.rip == v.rip
    ensures var val := s.regs[RSI] % 0x1_0000_0000;
      t.regs[RAX] % 0x1_0000_0000 == (if val == 0 then 1 else val) <==> (val == 0 ==> s.regs[RSI] == 0)
  {
    t := LongjmpRestores(code, s, v);
  }

  // ---- on the processor ----------------------------------------------------------------------------------------

  // A call of setjmp from outside the listing.
  method CallSetjmp(cpu: Processor)
    requires IsListing(cpu.code) && CallsSetjmp(cpu.View()) && cpu.mem[cpu.regs[RSP]] >= LENGTH
    modifies cpu
    ensures !cpu.fault && cpu.regs[RAX] == 0 && Restored(cpu.View(), old(ToSave(cpu.View())))
    ensures EnvHolds(cpu.mem, old(cpu.regs[RDI]), old(ToSave(cpu.View())))
    ensures SameElsewhere(old(cpu.mem), cpu.mem, old(cpu.regs[RDI]), old(cpu.regs[RSP]) - 56, old(cpu.regs[RSP]))
  {
    ghost var t := SetjmpSaves(cpu.code, cpu.View());
    ghost var n: nat :| Steps(cpu.code, cpu.View(), n) == t;
    cpu.Run(n);
  }

  // A call of longjmp, for a setjmp called from outside the listing.
  method CallLongjmp(cpu: Processor, ghost v: Saved)
    requires IsListing(cpu.code) && CallsLongjmp(cpu.View(), v) && Blockable(v.mask) && v.rip >= LENGTH
    modifies cpu
    ensures !cpu.fault && Restored(cpu.View(), v)
    ensures cpu.regs[RAX] == (if old(cpu.regs[RSI]) == 0 then 1 else old(cpu.regs[RSI]))
    ensures SameOutside(old(cpu.mem), cpu.mem, v.rsp - 48, v.rsp) && EnvHolds(cpu.mem, old(cpu.regs[RDI]), v)
  {
    ghost var t := LongjmpRestores(cpu.code, cpu.View(), v);
    ghost var n: nat :| Steps(cpu.code, cpu.View(), n) == t;
    cpu.Run(n);
  }
}
