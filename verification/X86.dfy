// The part of an x86-64 processor the hand-written routines use, one instruction at a time.
//
// A listing is a sequence of instructions; instruction i has address i. Memory is kept as eight-byte words under
// addresses that are multiples of eight, which is all the listings touch: an access to anything that is not a mapped
// word stops the model with `fault`.
module X86 {
  import opened Powers
  import opened Words

  const RAX: Reg := 0
  const RCX: Reg := 1
  const RDX: Reg := 2
  const RBX: Reg := 3
  const RSP: Reg := 4
  const RBP: Reg := 5
  const RSI: Reg := 6
  const RDI: Reg := 7
  const R8: Reg := 8
  const R10: Reg := 10
  const R11: Reg := 11
  const R12: Reg := 12
  const R13: Reg := 13
  const R14: Reg := 14
  const R15: Reg := 15

  type Reg = i: nat | i < 16

  type Regs = r: seq<U64> | |r| == 16 witness [0, 0, 0, 0, 0, 0, 0, 0, 0, 0, 0, 0, 0, 0, 0, 0]

  type Memory = map<U64, U64>

  datatype Instr =
    | MovReg(dst: Reg, src: Reg)
    | MovImm(dst: Reg, imm: U64)
    | Lea(dst: Reg, base: Reg, off: int)
    | Load(dst: Reg, base: Reg, off: int)
    | Store(base: Reg, off: int, src: Reg)
    | PushReg(src: Reg)
    | PushImm(imm: U64)
    | PushMem(base: Reg, off: int)
    | PopReg(dst: Reg)
    | PopMem(base: Reg, off: int)
    | AddImm(dst: Reg, delta: int)
    | AddEsp(delta: int)
    | AddReg(dst: Reg, src: Reg)
    | CmpImm(src: Reg, operand: int)
    | Mul(src: Reg)
    | Call(target: U64)
    | Ret
    | Jmp(target: U64)
    | Je(target: U64)
    | Jne(target: U64)
    | Jle(target: U64)
    | Syscall

  // `zf` is the zero flag; `less` is SF != OF, which says the exact signed result was negative. `mask` is the
  // kernel's signal mask of the process.
  datatype State<R, M> = Cpu(regs: R, rip: U64, zf: bool, less: bool, mem: M, mask: U64, fault: bool)

  type Cpu = State<Regs, Memory>

  function Wrap(x: int): U64 { x % TWO64 }

  function Signed(x: U64): int { if x < TWO64 / 2 then x else x - TWO64 }

  // A word as a number modulo 2^64, and as a signed number.
  lemma WrapAndSigned(x: int, w: U64)
    ensures 0 <= Wrap(x) < 0x1_0000_0000_0000_0000 && (x - Wrap(x)) % 0x1_0000_0000_0000_0000 == 0
    ensures -0x8000_0000_0000_0000 <= Signed(w) < 0x8000_0000_0000_0000 && Wrap(Signed(w)) == w
  {}

  function Fault(s: Cpu): Cpu { s.(fault := true) }

  function Set(s: Cpu, r: Reg, v: U64): Cpu { s.(regs := s.regs[r := v], rip := Inc(s.rip)) }

  function Address(s: Cpu, base: Reg, off: int): U64 { Wrap(s.regs[base] + off) }

  function Push(s: Cpu, v: U64, next: U64): Cpu {
    var sp := Wrap(s.regs[RSP] as int - 8);
    if sp !in s.mem then Fault(s)
    else s.(regs := s.regs[RSP := sp], mem := s.mem[sp := v], rip := next)
  }

  // ---- rt_sigprocmask ------------------------------------------------------------------------------------------

  const EINVAL: int := 22
  const EFAULT: int := 14
  const SYS_RT_SIGPROCMASK: U64 := 14
  const SIG_SETMASK: U64 := 2

  // SIGKILL (bit 8) and SIGSTOP (bit 18) cannot be blocked.
  function Sanitize(m: U64): U64 {
    var m1 := m - if m / 256 % 2 == 1 then 256 else 0;
    m1 - if m1 / 262144 % 2 == 1 then 262144 else 0
  }

  predicate Blockable(m: U64) {
    m / 256 % 2 == 0 && m / 262144 % 2 == 0
  }

  lemma SanitizeTakesOutBits(m: U64)
    ensures Blockable(Sanitize(m)) && (Blockable(m) ==> Sanitize(m) == m)
    ensures m - Sanitize(m) == (if m / 256 % 2 == 1 then 256 else 0) + (if m / 262144 % 2 == 1 then 262144 else 0)
  {
    var h, l, r := m / 262144, m / 256 % 1024, m % 256;
    var b, c := l % 2, h % 2;
    MaskParts(m, h, l, r);
    MaskParts(m - 256 * b, h, l - b, r);
    MaskParts(m - 256 * b - 262144 * c, h - c, l - b, r);
  }

  // The bits above, between and below the two.
  lemma MaskParts(m: nat, h: nat, l: nat, r: nat)
    requires m == 262144 * h + 256 * l + r && l < 1024 && r < 256
    ensures m / 262144 == h && m / 256 == 1024 * h + l && m / 256 % 2 == l % 2
  {
    HighPart(m, h, 256 * l + r);
    LowPart(m, 1024 * h + l, r);
    SameParity(512 * h, l);
  }

  lemma HighPart(m: nat, h: nat, rest: nat)
    requires m == 262144 * h + rest && rest < 262144
    ensures m / 262144 == h
  {}

  lemma LowPart(m: nat, q: nat, r: nat)
    requires m == 256 * q + r && r < 256
    ensures m / 256 == q
  {}

  lemma SameParity(k: nat, l: nat)
    ensures (2 * k + l) % 2 == l % 2
  {}

  lemma SignalBits()
    ensures Pow(2, 9 - 1) == 256 && Pow(2, 19 - 1) == 262144
  {
    assert Pow(2, 8) == 256;
    PowersMultiply(2, 8, 8);
    PowersMultiply(2, 16, 2);
  }

  // Bit k of a mask stands for signal k + 1: what is taken out are SIGKILL, 9, and SIGSTOP, 19, and no other bit.
  lemma SanitizeTakesOut(m: U64)
    ensures Blockable(Sanitize(m)) && (Blockable(m) ==> Sanitize(m) == m)
    ensures m - Sanitize(m) == (if m / Pow(2, 9 - 1) % 2 == 1 then Pow(2, 9 - 1) else 0)
                               + (if m / Pow(2, 19 - 1) % 2 == 1 then Pow(2, 19 - 1) else 0)
    ensures Blockable(m) <==> m / Pow(2, 9 - 1) % 2 == 0 && m / Pow(2, 19 - 1) % 2 == 0
  {
    SignalBits();
    SanitizeTakesOutBits(m);
  }

  // rt_sigprocmask(rdi, rsi, rdx, r10). With a new set only SIG_SETMASK is part of this model.
  function Sigprocmask(s: Cpu): Cpu {
    var how, set', oset, size := s.regs[RDI], s.regs[RSI], s.regs[RDX], s.regs[R10];
    if size != 8 then Answer(s, -EINVAL)
    else if set' == 0 then SaveMask(s, oset, s.mask)
    else if set' !in s.mem then Answer(s, -EFAULT)
    else if how != SIG_SETMASK then Fault(s)
    else SaveMask(s.(mask := Sanitize(s.mem[set'])), oset, s.mask)
  }

  function SaveMask(s: Cpu, oset: U64, old': U64): Cpu {
    if oset == 0 then Answer(s, 0)
    else if oset !in s.mem then Answer(s, -EFAULT)
    else Answer(s.(mem := s.mem[oset := old']), 0)
  }

  // The syscall instruction clobbers rcx and r11.
  function Answer(s: Cpu, r: int): Cpu {
    var flags := 2 + (if s.zf then 64 else 0) + (if s.less then 128 else 0);
    s.(regs := s.regs[RAX := Wrap(r)][RCX := Inc(s.rip)][R11 := flags], rip := Inc(s.rip))
  }

  // A bad size is EINVAL, 22, and an unmapped set EFAULT, 14, with mask and memory as they were; whatever the outcome
  // the call changes rax, rcx, to the address it returns to, and r11, to the flags, and no other register.
  lemma SigprocmaskAnswers(s: Cpu)
    requires !s.fault
    ensures var t := Sigprocmask(s);
      t.fault || (t.rip == Inc(s.rip)
                  && forall r: Reg :: r != RAX && r != RCX && r != R11 ==> t.regs[r] == s.regs[r])
    ensures var t := Sigprocmask(s);
      t.fault || (t.regs[RCX] == Inc(s.rip) && (t.regs[R11] / 64 % 2 == 1 <==> s.zf)
                  && (t.regs[R11] / 128 % 2 == 1 <==> s.less))
    ensures s.regs[R10] != 8 ==> var t := Sigprocmask(s);
      !t.fault && t.regs[RAX] == 0x1_0000_0000_0000_0000 - 22 && t.mask == s.mask && t.mem == s.mem
    ensures s.regs[R10] == 8 && s.regs[RSI] != 0 && s.regs[RSI] !in s.mem ==> var t := Sigprocmask(s);
      !t.fault && t.regs[RAX] == 0x1_0000_0000_0000_0000 - 14 && t.mask == s.mask && t.mem == s.mem
  {}

  // Asked to set the mask it takes the new one, less SIGKILL and SIGSTOP; with or without a new mask, what it gives
  // back is the mask there was before.
  lemma SigprocmaskSwaps(s: Cpu)
    requires !s.fault && s.regs[R10] == 8 && (s.regs[RDX] == 0 || s.regs[RDX] in s.mem)
    requires s.regs[RSI] == 0 || (s.regs[RSI] in s.mem && s.regs[RDI] == 2)
    ensures var t := Sigprocmask(s);
      && !t.fault && t.regs[RAX] == 0
      && t.mask == (if s.regs[RSI] == 0 then s.mask else Sanitize(s.mem[s.regs[RSI]]))
      && t.mem == if s.regs[RDX] == 0 then s.mem else s.mem[s.regs[RDX] := s.mask]
  {}

  // ---- one instruction -----------------------------------------------------------------------------------------

  function DoLea(s: Cpu, dst: Reg, base: Reg, off: int): Cpu { Set(s, dst, Address(s, base, off)) }

  function DoLoad(s: Cpu, dst: Reg, a: U64): Cpu { if a !in s.mem then Fault(s) else Set(s, dst, s.mem[a]) }

  function DoStore(s: Cpu, a: U64, v: U64): Cpu {
    if a !in s.mem then Fault(s) else s.(mem := s.mem[a := v], rip := Inc(s.rip))
  }

  function DoPushMem(s: Cpu, a: U64): Cpu { if a !in s.mem then Fault(s) else Push(s, s.mem[a], Inc(s.rip)) }

  // Take the top word off the stack and go to `next`; the word is s.mem[s.regs[RSP]].
  function Drop(s: Cpu, next: U64): Cpu {
    s.(regs := s.regs[RSP := Wrap(s.regs[RSP] as int + 8)], rip := next)
  }

  predicate StackTop(s: Cpu) { s.regs[RSP] in s.mem }

  function DoPop(s: Cpu, dst: Reg): Cpu {
    if !StackTop(s) then Fault(s) else Set(Drop(s, s.rip), dst, s.mem[s.regs[RSP]])
  }

  // The address of a memory operand of pop is computed with the new rsp.
  function DoPopMem(s: Cpu, base: Reg, off: int): Cpu {
    if !StackTop(s) then Fault(s) else DoStore(Drop(s, s.rip), Address(Drop(s, s.rip), base, off), s.mem[s.regs[RSP]])
  }

  function DoRet(s: Cpu): Cpu { if !StackTop(s) then Fault(s) else Drop(s, s.mem[s.regs[RSP]]) }

  // Set r to the wrapped exact result, and the flags from it.
  function Arith(s: Cpu, r: Reg, exact: int, signedExact: int): Cpu {
    Set(s, r, Wrap(exact)).(zf := Wrap(exact) == 0, less := signedExact < 0)
  }

  function DoAddImm(s: Cpu, r: Reg, delta: int): Cpu { Arith(s, r, s.regs[r] + delta, Signed(s.regs[r]) + delta) }

  function DoAddReg(s: Cpu, r: Reg, q: Reg): Cpu {
    Arith(s, r, s.regs[r] as int + s.regs[q] as int, Signed(s.regs[r]) + Signed(s.regs[q]))
  }

  // A 32-bit add clears the upper half of the register.
  function DoAddEsp(s: Cpu, delta: int): Cpu {
    var esp := s.regs[RSP] % 0x1_0000_0000;
    var v := (esp + delta) % 0x1_0000_0000;
    Set(s, RSP, v).(zf := v == 0, less := (if esp < 0x8000_0000 then esp else esp - 0x1_0000_0000) + delta < 0)
  }

  function DoCmp(s: Cpu, r: Reg, operand: int): Cpu {
    s.(zf := s.regs[r] == Wrap(operand), less := Signed(s.regs[r]) < operand, rip := Inc(s.rip))
  }

  function DoMul(s: Cpu, r: Reg): Cpu {
    var product := (s.regs[RAX] as int) * (s.regs[r] as int);
    s.(regs := s.regs[RAX := Wrap(product)][RDX := Wrap(product / TWO64)], rip := Inc(s.rip))
  }

  function Branch(s: Cpu, taken: bool, target: U64): Cpu { s.(rip := if taken then target else Inc(s.rip)) }

  function DoSyscall(s: Cpu): Cpu { if s.regs[RAX] == SYS_RT_SIGPROCMASK then Sigprocmask(s) else Fault(s) }

  function Execute(i: Instr, s: Cpu): Cpu {
    match i
    case MovReg(dst, src) => Set(s, dst, s.regs[src])
    case MovImm(dst, imm) => Set(s, dst, imm)
    case Lea(dst, base, off) => DoLea(s, dst, base, off)
    case Load(dst, base, off) => DoLoad(s, dst, Address(s, base, off))
    case Store(base, off, src) => DoStore(s, Address(s, base, off), s.regs[src])
    case PushReg(src) => Push(s, s.regs[src], Inc(s.rip))
    case PushImm(imm) => Push(s, imm, Inc(s.rip))
    case PushMem(base, off) => DoPushMem(s, Address(s, base, off))
    case PopReg(dst) => DoPop(s, dst)
    case PopMem(base, off) => DoPopMem(s, base, off)
    case AddImm(dst, delta) => DoAddImm(s, dst, delta)
    case AddEsp(delta) => DoAddEsp(s, delta)
    case AddReg(dst, src) => DoAddReg(s, dst, src)
    case CmpImm(src, operand) => DoCmp(s, src, operand)
    case Mul(src) => DoMul(s, src)
    case Call(target) => Push(s, Inc(s.rip), target)
    case Ret => DoRet(s)
    case Jmp(target) => Branch(s, true, target)
    case Je(target) => Branch(s, s.zf, target)
    case Jne(target) => Branch(s, !s.zf, target)
    case Jle(target) => Branch(s, s.zf || s.less, target)
    case Syscall => DoSyscall(s)
  }

  function Step(code: seq<Instr>, s: Cpu): Cpu {
    if s.fault || s.rip >= |code| then s else Execute(code[s.rip], s)
  }

  // n instructions.
  function Steps(code: seq<Instr>, s: Cpu, n: nat): Cpu
    decreases n
  {
    if n == 0 then s else Steps(code, Step(code, s), n - 1)
  }

  // Some number of instructions takes s to t.
  ghost predicate Leads(code: seq<Instr>, s: Cpu, t: Cpu) {
    exists n: nat :: Steps(code, s, n) == t
  }

  lemma {:induction false} StepsAdd(code: seq<Instr>, s: Cpu, m: nat, n: nat)
    ensures Steps(code, s, m + n) == Steps(code, Steps(code, s, m), n)
    decreases m
  {
    if m > 0 {
      StepsAdd(code, Step(code, s), m - 1, n);
    }
  }

  lemma LeadsTo(code: seq<Instr>, s: Cpu, t: Cpu, u: Cpu)
    requires Leads(code, s, t) && Leads(code, t, u)
    ensures Leads(code, s, u)
  {
    var m: nat :| Steps(code, s, m) == t;
    var n: nat :| Steps(code, t, n) == u;
    StepsAdd(code, s, m, n);
  }

  lemma Stay(code: seq<Instr>, s: Cpu)
    ensures Leads(code, s, s)
  {
    assert Steps(code, s, 0) == s;
  }

  // One more instruction.
  lemma Next(code: seq<Instr>, s: Cpu, t: Cpu, u: Cpu)
    requires Leads(code, s, t) && Step(code, t) == u
    ensures Leads(code, s, u)
  {
    assert Steps(code, t, 1) == u by { assert Steps(code, u, 0) == u; }
    LeadsTo(code, s, t, u);
  }

  // Code that has been left, or has faulted, stays where it is.
  lemma {:induction false} StepsHalted(code: seq<Instr>, s: Cpu, n: nat)
    requires s.fault || s.rip >= |code|
    ensures Steps(code, s, n) == s
  {
    if n > 0 {
      StepsHalted(code, s, n - 1);
    }
  }

  // ---- one rule per instruction --------------------------------------------------------------------------------
  //
  // Each rule extends a run from s that has come to t by the instruction t is at.

  predicate At(code: seq<Instr>, t: Cpu, i: Instr) {
    !t.fault && t.rip < |code| && t.rip + 1 < TWO64 && code[t.rip] == i
  }

  lemma RunMov(code: seq<Instr>, s: Cpu, t: Cpu, dst: Reg, src: Reg) returns (u: Cpu)
    requires Leads(code, s, t) && At(code, t, MovReg(dst, src))
    ensures Leads(code, s, u) && u == t.(rip := t.rip + 1, regs := t.regs[dst := t.regs[src]])
  {
    u := Step(code, t);
    Next(code, s, t, u);
  }

  lemma RunMovImm(code: seq<Instr>, s: Cpu, t: Cpu, dst: Reg, imm: U64) returns (u: Cpu)
    requires Leads(code, s, t) && At(code, t, MovImm(dst, imm))
    ensures Leads(code, s, u) && u == t.(rip := t.rip + 1, regs := t.regs[dst := imm])
  {
    u := Step(code, t);
    Next(code, s, t, u);
  }

  lemma RunLea(code: seq<Instr>, s: Cpu, t: Cpu, dst: Reg, base: Reg, off: nat) returns (u: Cpu)
    requires Leads(code, s, t) && At(code, t, Lea(dst, base, off)) && t.regs[base] + off < TWO64
    ensures Leads(code, s, u) && u == t.(rip := t.rip + 1, regs := t.regs[dst := t.regs[base] + off])
  {
    u := Step(code, t);
    Next(code, s, t, u);
  }

  lemma RunLoad(code: seq<Instr>, s: Cpu, t: Cpu, dst: Reg, base: Reg, off: nat) returns (u: Cpu)
    requires Leads(code, s, t) && At(code, t, Load(dst, base, off))
    requires t.regs[base] + off < TWO64 && t.regs[base] + off in t.mem
    ensures Leads(code, s, u) && u == t.(rip := t.rip + 1, regs := t.regs[dst := t.mem[t.regs[base] + off]])
  {
    u := Step(code, t);
    Next(code, s, t, u);
  }

  lemma RunStore(code: seq<Instr>, s: Cpu, t: Cpu, base: Reg, off: nat, src: Reg) returns (u: Cpu)
    requires Leads(code, s, t) && At(code, t, Store(base, off, src))
    requires t.regs[base] + off < TWO64 && t.regs[base] + off in t.mem
    ensures Leads(code, s, u) && u == t.(rip := t.rip + 1, mem := t.mem[t.regs[base] + off := t.regs[src]])
  {
    u := Step(code, t);
    Next(code, s, t, u);
  }

  // Pushing needs a mapped word below rsp.
  predicate RoomBelow(t: Cpu) {
    8 <= t.regs[RSP] && t.regs[RSP] - 8 in t.mem
  }

  function Pushed(t: Cpu, v: U64, next: U64): Cpu
    requires RoomBelow(t)
  {
    t.(rip := next, regs := t.regs[RSP := t.regs[RSP] - 8], mem := t.mem[t.regs[RSP] - 8 := v])
  }

  lemma RunPush(code: seq<Instr>, s: Cpu, t: Cpu, src: Reg) returns (u: Cpu)
    requires Leads(code, s, t) && At(code, t, PushReg(src)) && RoomBelow(t)
    ensures Leads(code, s, u) && u == Pushed(t, t.regs[src], t.rip + 1)
  {
    u := Step(code, t);
    Next(code, s, t, u);
  }

  lemma RunPushMem(code: seq<Instr>, s: Cpu, t: Cpu, base: Reg, off: nat) returns (u: Cpu)
    requires Leads(code, s, t) && At(code, t, PushMem(base, off)) && RoomBelow(t)
    requires t.regs[base] + off < TWO64 && t.regs[base] + off in t.mem
    ensures Leads(code, s, u) && u == Pushed(t, t.mem[t.regs[base] + off], t.rip + 1)
  {
    u := Step(code, t);
    Next(code, s, t, u);
  }

  lemma RunCall(code: seq<Instr>, s: Cpu, t: Cpu, target: U64) returns (u: Cpu)
    requires Leads(code, s, t) && At(code, t, Call(target)) && RoomBelow(t)
    ensures Leads(code, s, u) && u == Pushed(t, t.rip + 1, target)
  {
    u := Step(code, t);
    Next(code, s, t, u);
  }

  // Without one the machine faults.
  lemma RunOutOfRoom(code: seq<Instr>, s: Cpu, t: Cpu, i: Instr) returns (u: Cpu)
    requires Leads(code, s, t) && At(code, t, i) && (i.PushReg? || i.Call?) && Wrap(t.regs[RSP] as int - 8) !in t.mem
    ensures Leads(code, s, u) && u.fault
  {
    u := Step(code, t);
    Next(code, s, t, u);
  }

  predicate HasTop(t: Cpu) {
    t.regs[RSP] + 8 < TWO64 && t.regs[RSP] in t.mem
  }

  lemma RunPop(code: seq<Instr>, s: Cpu, t: Cpu, dst: Reg) returns (u: Cpu)
    requires Leads(code, s, t) && At(code, t, PopReg(dst)) && HasTop(t)
    ensures Leads(code, s, u)
    ensures u == t.(rip := t.rip + 1, regs := t.regs[RSP := t.regs[RSP] + 8][dst := t.mem[t.regs[RSP]]])
  {
    u := Step(code, t);
    Next(code, s, t, u);
  }

  lemma RunPopMem(code: seq<Instr>, s: Cpu, t: Cpu, base: Reg, off: nat) returns (u: Cpu)
    requires Leads(code, s, t) && At(code, t, PopMem(base, off)) && HasTop(t) && base != RSP
    requires t.regs[base] + off < TWO64 && t.regs[base] + off in t.mem
    ensures Leads(code, s, u)
    ensures u == t.(rip := t.rip + 1, regs := t.regs[RSP := t.regs[RSP] + 8],
                    mem := t.mem[t.regs[base] + off := t.mem[t.regs[RSP]]])
  {
    u := Step(code, t);
    Next(code, s, t, u);
  }

  lemma RunRet(code: seq<Instr>, s: Cpu, t: Cpu) returns (u: Cpu)
    requires Leads(code, s, t) && At(code, t, Ret) && HasTop(t)
    ensures Leads(code, s, u) && u == t.(rip := t.mem[t.regs[RSP]], regs := t.regs[RSP := t.regs[RSP] + 8])
  {
    u := Step(code, t);
    Next(code, s, t, u);
  }

  // mul gives the whole product, its upper half in rdx.
  lemma MulIsExact(s: Cpu, r: Reg)
    ensures var t := DoMul(s, r);
      t.regs[RDX] as int * TWO64 + t.regs[RAX] as int == (s.regs[RAX] as int) * (s.regs[r] as int)
  {
    ProductBound(s.regs[RAX], TWO64 - 1, s.regs[r]);
    TwoWords((s.regs[RAX] as int) * (s.regs[r] as int));
  }

  lemma TwoWords(product: nat)
    requires product < TWO64 * TWO64
    ensures Wrap(product / TWO64) as int * TWO64 + Wrap(product) as int == product
  {
    assert product / TWO64 < TWO64;
  }

  lemma ProductBound(x: nat, y: nat, z: nat)
    requires x <= y
    ensures 0 <= x * z <= y * z
  {}

  // The flags of a comparison decide jle, je and jne by the signed values, those of an addition by the exact sum.
  lemma FlagsDecide(s: Cpu, r: Reg, operand: int, target: U64)
    requires 0 <= operand < TWO64 / 2 && target != Inc(Inc(s.rip))
    ensures Execute(Jle(target), DoCmp(s, r, operand)).rip == target <==> Signed(s.regs[r]) <= operand
    ensures Execute(Je(target), DoCmp(s, r, operand)).rip == target <==> Signed(s.regs[r]) == operand
    ensures Execute(Jne(target), DoCmp(s, r, operand)).rip == target <==> Signed(s.regs[r]) != operand
  {}

  lemma AddFlagsDecide(s: Cpu, r: Reg, delta: int, target: U64)
    requires target != Inc(Inc(s.rip)) && -TWO64 / 2 <= Signed(s.regs[r]) + delta < TWO64 / 2
    ensures Execute(Jle(target), DoAddImm(s, r, delta)).rip == target <==> Signed(s.regs[r]) + delta <= 0
    ensures Execute(Je(target), DoAddImm(s, r, delta)).rip == target <==> Signed(s.regs[r]) + delta == 0
  {
    ZeroWraps(s.regs[r], delta);
  }

  lemma ZeroWraps(x: U64, delta: int)
    requires -TWO64 / 2 <= Signed(x) + delta < TWO64 / 2
    ensures Wrap(x + delta) == 0 <==> Signed(x) + delta == 0
  {}

  // So do those of a sum of two registers, and those of a 32-bit sum in esp.
  lemma SumFlagsDecide(s: Cpu, r: Reg, q: Reg, target: U64)
    requires target != Inc(Inc(s.rip)) && -TWO64 / 2 <= Signed(s.regs[r]) + Signed(s.regs[q]) < TWO64 / 2
    ensures Execute(Jle(target), DoAddReg(s, r, q)).rip == target <==> Signed(s.regs[r]) + Signed(s.regs[q]) <= 0
    ensures Execute(Je(target), DoAddReg(s, r, q)).rip == target <==> Signed(s.regs[r]) + Signed(s.regs[q]) == 0
  {}

  lemma EspFlagsDecide(s: Cpu, delta: nat, target: U64)
    requires target != Inc(Inc(s.rip)) && s.regs[RSP] < 0x1_0000_0000 && delta < 0x8000_0000
    ensures var esp: int := s.regs[RSP]; esp + delta < 0x8000_0000 ==>
      && (Execute(Jle(target), DoAddEsp(s, delta)).rip == target <==> esp + delta == 0)
      && (Execute(Je(target), DoAddEsp(s, delta)).rip == target <==> esp + delta == 0)
    ensures var esp: int := s.regs[RSP]; esp >= 0x8000_0000 ==>
      && (Execute(Jle(target), DoAddEsp(s, delta)).rip == target <==> esp + delta <= 0x1_0000_0000)
      && (Execute(Je(target), DoAddEsp(s, delta)).rip == target <==> esp + delta == 0x1_0000_0000)
  {}

  // An addition that does not leave the 64-bit range.
  lemma RunAdd(code: seq<Instr>, s: Cpu, t: Cpu, dst: Reg, delta: int) returns (u: Cpu)
    requires Leads(code, s, t) && At(code, t, AddImm(dst, delta)) && 0 <= t.regs[dst] + delta < TWO64
    ensures Leads(code, s, u)
    ensures u == t.(rip := t.rip + 1, regs := t.regs[dst := t.regs[dst] + delta], zf := u.zf, less := u.less)
  {
    u := Step(code, t);
    Next(code, s, t, u);
  }

  lemma RunCmp(code: seq<Instr>, s: Cpu, t: Cpu, src: Reg, operand: nat) returns (u: Cpu)
    requires Leads(code, s, t) && At(code, t, CmpImm(src, operand)) && operand < TWO64 / 2
    ensures Leads(code, s, u)
    ensures u == t.(rip := t.rip + 1, zf := t.regs[src] == operand, less := Signed(t.regs[src]) < operand)
  {
    u := Step(code, t);
    Next(code, s, t, u);
  }

  lemma RunBranch(code: seq<Instr>, s: Cpu, t: Cpu, i: Instr) returns (u: Cpu)
    requires Leads(code, s, t) && At(code, t, i) && (i.Je? || i.Jne? || i.Jle?)
    ensures var taken := if i.Je? then t.zf else if i.Jne? then !t.zf else t.zf || t.less;
      u == t.(rip := if taken then i.target else t.rip + 1)
    ensures Leads(code, s, u)
  {
    u := Step(code, t);
    Next(code, s, t, u);
  }

  lemma RunSyscall(code: seq<Instr>, s: Cpu, t: Cpu) returns (u: Cpu)
    requires Leads(code, s, t) && At(code, t, Syscall) && t.regs[RAX] == SYS_RT_SIGPROCMASK
    ensures Leads(code, s, u) && u == Sigprocmask(t)
  {
    u := Step(code, t);
    Next(code, s, t, u);
  }

  lemma RunPushImm(code: seq<Instr>, s: Cpu, t: Cpu, imm: U64) returns (u: Cpu)
    requires Leads(code, s, t) && At(code, t, PushImm(imm)) && RoomBelow(t)
    ensures Leads(code, s, u) && u == Pushed(t, imm, t.rip + 1)
  {
    u := Step(code, t);
    Next(code, s, t, u);
  }

  lemma RunMul(code: seq<Instr>, s: Cpu, t: Cpu, src: Reg, k: nat) returns (u: Cpu)
    requires Leads(code, s, t) && At(code, t, Mul(src)) && t.regs[src] == k
    ensures Leads(code, s, u) && u == t.(rip := t.rip + 1, regs := u.regs)
    ensures u.regs[RAX] == Wrap(k * t.regs[RAX] as int)
    ensures forall r: Reg :: r != RAX && r != RDX ==> u.regs[r] == t.regs[r]
  {
    u := Step(code, t);
    Next(code, s, t, u);
  }

  lemma RunAddReg(code: seq<Instr>, s: Cpu, t: Cpu, dst: Reg, src: Reg) returns (u: Cpu)
    requires Leads(code, s, t) && At(code, t, AddReg(dst, src))
    ensures Leads(code, s, u) && u == t.(rip := t.rip + 1, regs := u.regs, zf := u.zf, less := u.less)
    ensures u.regs == t.regs[dst := Wrap(t.regs[dst] as int + t.regs[src] as int)]
  {
    u := Step(code, t);
    Next(code, s, t, u);
  }

  // add esp, d leaves rsp + d only when that is below 4 GiB.
  lemma RunAddEsp(code: seq<Instr>, s: Cpu, t: Cpu, delta: nat) returns (u: Cpu)
    requires Leads(code, s, t) && At(code, t, AddEsp(delta)) && t.regs[RSP] + delta < 0x1_0000_0000
    ensures Leads(code, s, u)
    ensures u == t.(rip := t.rip + 1, regs := t.regs[RSP := t.regs[RSP] + delta], zf := u.zf, less := u.less)
  {
    u := Step(code, t);
    Next(code, s, t, u);
  }

  lemma RunJmp(code: seq<Instr>, s: Cpu, t: Cpu, target: U64) returns (u: Cpu)
    requires Leads(code, s, t) && At(code, t, Jmp(target))
    ensures Leads(code, s, u) && u == t.(rip := target)
  {
    u := Step(code, t);
    Next(code, s, t, u);
  }

  // ---- memory frames -------------------------------------------------------------------------------------------

  // The same words are mapped, and those outside [lo, hi) are unchanged.
  predicate SameOutside(mem: Memory, mem': Memory, lo: int, hi: int) {
    mem'.Keys == mem.Keys && forall a :: a in mem && !(lo <= a < hi) ==> mem'[a] == mem[a]
  }

  // ---- the processor as an object ------------------------------------------------------------------------------

  class Processor {
    const code: seq<Instr>
    var regs: Regs
    var rip: U64
    var zf: bool
    var less: bool
    var mem: Memory
    var mask: U64
    var fault: bool

    ghost function View(): Cpu
      reads this
    {
      Cpu(regs, rip, zf, less, mem, mask, fault)
    }

    constructor (code: seq<Instr>, s: Cpu)
      ensures this.code == code && View() == s
    {
      this.code := code;
      regs, rip, zf, less, mem, mask, fault := s.regs, s.rip, s.zf, s.less, s.mem, s.mask, s.fault;
    }

    method SetReg(r: Reg, v: U64)
      modifies this
      ensures View() == Set(old(View()), r, v)
    {
      regs, rip := regs[r := v], Inc(rip);
    }

    method LoadReg(r: Reg, a: U64)
      modifies this
      ensures View() == DoLoad(old(View()), r, a)
    {
      if a in mem { SetReg(r, mem[a]); } else { fault := true; }
    }

    method StoreWord(a: U64, v: U64)
      modifies this
      ensures View() == DoStore(old(View()), a, v)
    {
      if a in mem { mem, rip := mem[a := v], Inc(rip); } else { fault := true; }
    }

    method PushWord(v: U64, next: U64)
      modifies this
      ensures View() == Push(old(View()), v, next)
    {
      var sp := Wrap(regs[RSP] as int - 8);
      if sp in mem { regs, mem, rip := regs[RSP := sp], mem[sp := v], next; } else { fault := true; }
    }

    method PushFrom(a: U64)
      modifies this
      ensures View() == DoPushMem(old(View()), a)
    {
      if a in mem { PushWord(mem[a], Inc(rip)); } else { fault := true; }
    }

    // Leaves rip where it is.
    method PopWord() returns (v: U64)
      modifies this
      ensures !StackTop(old(View())) ==> View() == Fault(old(View()))
      ensures StackTop(old(View())) ==>
        v == old(mem[regs[RSP]]) && View() == Drop(old(View()), old(rip))
    {
      v := 0;
      if regs[RSP] in mem {
        v := mem[regs[RSP]];
        regs := regs[RSP := Wrap(regs[RSP] as int + 8)];
      } else {
        fault := true;
      }
    }

    method Add(r: Reg, exact: int, signedExact: int)
      modifies this
      ensures View() == Arith(old(View()), r, exact, signedExact)
    {
      zf, less := Wrap(exact) == 0, signedExact < 0;
      SetReg(r, Wrap(exact));
    }

    method AddToEsp(delta: int)
      modifies this
      ensures View() == DoAddEsp(old(View()), delta)
    {
      var esp := regs[RSP] % 0x1_0000_0000;
      var v := (esp + delta) % 0x1_0000_0000;
      zf, less := v == 0, (if esp < 0x8000_0000 then esp else esp - 0x1_0000_0000) + delta < 0;
      SetReg(RSP, v);
    }

    method MultiplyBy(r: Reg)
      modifies this
      ensures View() == DoMul(old(View()), r)
    {
      var product := (regs[RAX] as int) * (regs[r] as int);
      regs, rip := regs[RAX := Wrap(product)][RDX := Wrap(product / TWO64)], Inc(rip);
    }

    // The kernel is not part of the processor: what it does is the specification's rt_sigprocmask.
    method TrapToKernel()
      modifies this
      ensures View() == DoSyscall(old(View()))
    {
      var s := DoSyscall(Cpu(regs, rip, zf, less, mem, mask, fault));
      regs, rip, zf, less, mem, mask, fault := s.regs, s.rip, s.zf, s.less, s.mem, s.mask, s.fault;
    }

    // An instruction that need not go to the next one.
    method ExecuteJump(i: Instr)
      requires !fault && (i.Call? || i.Ret? || i.Jmp? || i.Je? || i.Jne? || i.Jle?)
      modifies this
      ensures View() == Execute(i, old(View()))
    {
      match i
      case Call(target) => PushWord(Inc(rip), target);
      case Ret =>
        var word := PopWord();
        if !fault { rip := word; }
      case Jmp(target) => rip := target;
      case Je(target) => rip := if zf then target else Inc(rip);
      case Jne(target) => rip := if zf then Inc(rip) else target;
      case Jle(target) => rip := if zf || less then target else Inc(rip);
    }

    // An instruction that moves a word between memory and a register, or on the stack.
    method ExecuteMove(i: Instr)
      requires !fault && (i.Load? || i.Store? || i.PushReg? || i.PushImm? || i.PushMem? || i.PopReg? || i.PopMem?)
      modifies this
      ensures View() == Execute(i, old(View()))
    {
      match i
      case Load(dst, base, off) => LoadReg(dst, Wrap(regs[base] + off));
      case Store(base, off, src) => StoreWord(Wrap(regs[base] + off), regs[src]);
      case PushReg(src) => PushWord(regs[src], Inc(rip));
      case PushImm(imm) => PushWord(imm, Inc(rip));
      case PushMem(base, off) => PushFrom(Wrap(regs[base] + off));
      case PopReg(dst) =>
        var word := PopWord();
        if !fault { SetReg(dst, word); }
      case PopMem(base, off) =>
        var word := PopWord();
        if !fault { StoreWord(Wrap(regs[base] + off), word); }
    }

    method ExecuteOther(i: Instr)
      requires i.MovReg? || i.MovImm? || i.Lea? || i.AddImm? || i.AddEsp? || i.AddReg? || i.CmpImm? || i.Mul?
        || i.Syscall?
      modifies this
      ensures View() == Execute(i, old(View()))
    {
      match i
      case MovReg(dst, src) => SetReg(dst, regs[src]);
      case MovImm(dst, imm) => SetReg(dst, imm);
      case Lea(dst, base, off) => SetReg(dst, Wrap(regs[base] + off));
      case AddImm(dst, delta) => Add(dst, regs[dst] + delta, Signed(regs[dst]) + delta);
      case AddEsp(delta) => AddToEsp(delta);
      case AddReg(dst, src) =>
        Add(dst, regs[dst] as int + regs[src] as int, Signed(regs[dst]) + Signed(regs[src]));
      case CmpImm(src, operand) =>
        zf, less, rip := regs[src] == Wrap(operand), Signed(regs[src]) < operand, Inc(rip);
      case Mul(src) => MultiplyBy(src);
      case Syscall => TrapToKernel();
    }

    // One instruction; code that has been left, or has faulted, stays where it is.
    method ExecuteOne()
      modifies this
      ensures View() == Step(code, old(View()))
    {
      if fault || rip >= |code| {
        return;
      }
      var i := code[rip];
      if i.Load? || i.Store? || i.PushReg? || i.PushImm? || i.PushMem? || i.PopReg? || i.PopMem? {
        ExecuteMove(i);
      } else if i.Call? || i.Ret? || i.Jmp? || i.Je? || i.Jne? || i.Jle? {
        ExecuteJump(i);
      } else {
        ExecuteOther(i);
      }
    }

    // Runs until the listing is left or faults, which it does within n instructions.
    method Run(ghost n: nat)
      requires var s := Steps(code, View(), n); s.fault || s.rip >= |code|
      modifies this
      ensures View() == Steps(code, old(View()), n)
    {
      ghost var left := n;
      while !fault && rip < |code|
        invariant Steps(code, View(), left) == Steps(code, old(View()), n)
        decreases left
      {
        ExecuteOne();
        left := left - 1;
      }
      StepsHalted(code, View(), left);
    }
  }
}
