// The recursive function of recur.asm: r(n) = 2 r(n - 1) + 3 r(n - 2) on the machine stack.
module Recur {
  import opened Powers
  import opened Words
  import opened X86

  const R: U64 := 4
  const EXIT: U64 := 36
  const LENGTH: nat := 36

  // ---- the listing ---------------------------------------------------------------------------------------------

  // push 25; call r; add esp, 8; jmp exit
  predicate Start(code: seq<Instr>) {
    && |code| == LENGTH
    && code[0] == PushImm(25)
    && code[1] == Call(R)
    && code[2] == AddEsp(8)
    && code[3] == Jmp(EXIT)
  }

  // r: the frame, the argument and the two tests
  predicate Entry(code: seq<Instr>) {
    && |code| == LENGTH
    && code[4] == PushReg(RBP)
    && code[5] == MovReg(RBP, RSP)
    && code[6] == Load(RBX, RBP, 16)
    && code[7] == CmpImm(RBX, 0)
    && code[8] == Jle(30)
    && code[9] == CmpImm(RBX, 1)
    && code[10] == Je(33)
  }

  // r(n - 1)
  predicate First(code: seq<Instr>) {
    && |code| == LENGTH
    && code[11] == AddImm(RBX, -1)
    && code[12] == PushReg(RBX)
    && code[13] == Call(R)
    && code[14] == AddEsp(8)
  }

  // Return1: 2 r(n - 1) onto the stack, and r(n - 2)
  predicate Second(code: seq<Instr>) {
    && |code| == LENGTH
    && code[15] == MovImm(RCX, 2)
    && code[16] == Mul(RCX)
    && code[17] == MovReg(RDX, RAX)
    && code[18] == PushReg(RDX)
    && code[19] == Load(RBX, RBP, 16)
    && code[20] == AddImm(RBX, -2)
    && code[21] == PushReg(RBX)
    && code[22] == Call(R)
    && code[23] == AddEsp(8)
  }

  // Return2: the sum
  predicate Third(code: seq<Instr>) {
    && |code| == LENGTH
    && code[24] == MovImm(RCX, 3)
    && code[25] == Mul(RCX)
    && code[26] == PopReg(RDX)
    && code[27] == AddReg(RAX, RDX)
    && code[28] == PopReg(RBP)
    && code[29] == Ret
  }

  // L1: return 0; L2: return 1
  predicate Bases(code: seq<Instr>) {
    && |code| == LENGTH
    && code[30] == MovImm(RAX, 0)
    && code[31] == PopReg(RBP)
    && code[32] == Ret
    && code[33] == MovImm(RAX, 1)
    && code[34] == PopReg(RBP)
    && code[35] == Ret
  }

  predicate HasPart(code: seq<Instr>, part: nat) {
    match part
    case 0 => Start(code)
    case 1 => Entry(code)
    case 2 => First(code)
    case 3 => Second(code)
    case 4 => Third(code)
    case _ => Bases(code)
  }

  predicate IsListing(code: seq<Instr>) {
    |code| == LENGTH && forall part :: 0 <= part < 6 ==> HasPart(code, part)
  }

  // ---- the function --------------------------------------------------------------------------------------------

  function Rec(n: int): nat
    decreases if n < 0 then 0 else n
  {
    if n <= 0 then 0 else if n == 1 then 1 else 2 * Rec(n - 1) + 3 * Rec(n - 2)
  }

  function Sign(n: nat): int { if n % 2 == 0 then 1 else -1 }

  lemma {:induction false} ClosedForm(n: nat)
    ensures 4 * Rec(n) == Pow(3, n) - Sign(n)
  {
    if n >= 2 {
      ClosedForm(n - 1);
      ClosedForm(n - 2);
      SignAlternates(n);
      ThreeTimes(n);
    }
  }

  lemma SignAlternates(n: nat)
    requires n >= 2
    ensures Sign(n - 1) == -Sign(n) && Sign(n - 2) == Sign(n)
  {}

  lemma ThreeTimes(n: nat)
    requires n >= 2
    ensures Pow(3, n) == 9 * Pow(3, n - 2) && Pow(3, n - 1) == 3 * Pow(3, n - 2)
  {
    assert Pow(3, n) == 3 * Pow(3, n - 1);
  }

  // ---- the stack -----------------------------------------------------------------------------------------------

  // Words of stack a call of r(n) uses below its return address.
  function StackWords(n: int): nat {
    if n <= 1 then 1 else 3 * n - 1
  }

  function Slot(sp: U64, k: nat): int { sp - 8 * k }

  // The n words just below sp are mapped.
  predicate Room(mem: Memory, sp: U64, n: nat) {
    forall k :: 0 < k <= n ==> 0 <= Slot(sp, k) && Slot(sp, k) in mem
  }

  // Room below sp is room below a lower stack pointer.
  lemma LessRoom(mem: Memory, sp: U64, n: nat, j: nat)
    requires Room(mem, sp, n) && j <= n && 8 * j <= sp
    ensures Room(mem, sp - 8 * j, n - j)
  {
    var low: U64 := sp - 8 * j;
    forall k | 0 < k <= n - j ensures 0 <= Slot(low, k) && Slot(low, k) in mem {
      assert Slot(sp, k + j) == Slot(low, k);
    }
  }

  // Two mapped words and room below them make room.
  lemma MoreRoom(mem: Memory, sp: U64, n: nat)
    requires 16 <= sp && sp - 8 in mem && sp - 16 in mem && Room(mem, sp - 16, n)
    ensures Room(mem, sp, n + 2)
  {
    var low: U64 := sp - 16;
    forall k | 0 < k <= n + 2 ensures 0 <= Slot(sp, k) && Slot(sp, k) in mem {
      if k > 2 { assert Slot(low, k - 2) == Slot(sp, k); }
    }
  }

  // A call of r(n): the return address on top of the stack and the argument above it.
  predicate Called(s: Cpu, n: int) {
    var sp := s.regs[RSP];
    && s.rip == R && !s.fault && sp as int + 8 < TWO64
    && sp in s.mem && sp + 8 in s.mem && Signed(s.mem[sp + 8]) == n
  }

  // The frame of a call with stack pointer sp is below 4 GiB, which only a call that calls itself needs.
  predicate Low(sp: U64) { sp as int - 8 < 0x1_0000_0000 }

  predicate CallsR(s: Cpu, n: int) {
    Called(s, n) && Room(s.mem, s.regs[RSP], StackWords(n)) && (n >= 2 ==> Low(s.regs[RSP]))
  }

  // What r(n) does for its caller.
  predicate ReturnsR(s: Cpu, t: Cpu, n: int) {
    var sp := s.regs[RSP];
    && sp in s.mem && t.rip == s.mem[sp] && !t.fault && t.mask == s.mask
    && t.regs[RSP] as int == sp as int + 8 && t.regs[RBP] == s.regs[RBP]
    && t.regs[RAX] == Rec(n) % TWO64
    && SameOutside(s.mem, t.mem, sp - 8 * StackWords(n), sp)
  }

  // ---- blocks --------------------------------------------------------------------------------------------------

  // Instructions 4-10: to the base cases or to the first call.
  lemma Enter(code: seq<Instr>, s: Cpu, n: int) returns (t: Cpu)
    requires IsListing(code) && Called(s, n) && RoomBelow(s)
    ensures Leads(code, s, t) && !t.fault && t.mask == s.mask
    ensures t.rip == if n <= 0 then 30 else if n == 1 then 33 else 11
    ensures var sp := s.regs[RSP];
      && 8 <= sp && t.regs[RSP] == sp - 8 && t.regs[RBP] == sp - 8 && t.regs[RBX] == s.mem[sp + 8]
      && t.mem == s.mem[sp - 8 := s.regs[RBP]] && sp - 8 in s.mem
  {
    Stay(code, s);
    assert HasPart(code, 1);
    var s1 := RunPush(code, s, s, RBP);
    var s2 := RunMov(code, s, s1, RBP, RSP);
    var s3 := RunLoad(code, s, s2, RBX, RBP, 16);
    var s4 := RunCmp(code, s, s3, RBX, 0);
    t := RunBranch(code, s, s4, Jle(30));
    if n > 0 {
      t := RunCmp(code, s, t, RBX, 1);
      t := RunBranch(code, s, t, Je(33));
    }
  }

  // Instructions 30-32 and 33-35.
  lemma Base(code: seq<Instr>, s: Cpu, v: U64) returns (t: Cpu)
    requires IsListing(code) && !s.fault && ((s.rip == 30 && v == 0) || (s.rip == 33 && v == 1))
    requires var bp := s.regs[RSP]; bp + 16 < TWO64 && bp in s.mem && bp + 8 in s.mem
    ensures Leads(code, s, t) && !t.fault && t.mask == s.mask && t.mem == s.mem
    ensures var bp := s.regs[RSP];
      t.rip == s.mem[bp + 8] && t.regs[RBP] == s.mem[bp] && t.regs[RSP] == bp + 16 && t.regs[RAX] == v
  {
    Stay(code, s);
    assert HasPart(code, 5);
    var s1 := RunMovImm(code, s, s, RAX, v);
    var s2 := RunPop(code, s, s1, RBP);
    t := RunRet(code, s, s2);
  }

  // Instructions 11-13, with frame pointer bp: to the call of r(n - 1).
  lemma CallFirst(code: seq<Instr>, s: Cpu) returns (t: Cpu)
    requires IsListing(code) && s.rip == 11 && !s.fault && s.regs[RBX] >= 1
    requires var bp := s.regs[RSP]; 16 <= bp && bp - 8 in s.mem && bp - 16 in s.mem
    ensures Leads(code, s, t) && t.rip == R && !t.fault && t.mask == s.mask
    ensures var bp := s.regs[RSP];
      && t.regs[RSP] == bp - 16 && t.regs[RBP] == s.regs[RBP]
      && t.mem == s.mem[bp - 8 := s.regs[RBX] - 1][bp - 16 := 14]
  {
    Stay(code, s);
    assert HasPart(code, 2);
    var s1 := RunAdd(code, s, s, RBX, -1);
    var s2 := RunPush(code, s, s1, RBX);
    t := RunCall(code, s, s2, R);
  }

  // Instructions 14 and 23: drop the argument.
  lemma DropArgument(code: seq<Instr>, s: Cpu) returns (t: Cpu)
    requires IsListing(code) && (s.rip == 14 || s.rip == 23) && !s.fault && s.regs[RSP] as int + 8 < 0x1_0000_0000
    ensures Leads(code, s, t)
    ensures t == s.(rip := s.rip + 1, regs := s.regs[RSP := s.regs[RSP] + 8], zf := t.zf, less := t.less)
  {
    Stay(code, s);
    assert HasPart(code, if s.rip == 14 then 2 else 3);
    t := RunAddEsp(code, s, s, 8);
  }

  // A 32-bit add to the stack pointer only drops the argument when the stack is below 4 GiB.
  lemma DropNeedsLowStack(code: seq<Instr>, s: Cpu) returns (t: Cpu)
    requires IsListing(code) && (s.rip == 14 || s.rip == 23) && !s.fault
    ensures Leads(code, s, t)
    ensures t == s.(rip := s.rip + 1, zf := t.zf, less := t.less,
                    regs := s.regs[RSP := (s.regs[RSP] % 0x1_0000_0000 + 8) % 0x1_0000_0000])
    ensures t.regs[RSP] as int == s.regs[RSP] as int + 8 <==> s.regs[RSP] as int + 8 < 0x1_0000_0000
  {
    Stay(code, s);
    assert HasPart(code, if s.rip == 14 then 2 else 3);
    t := Step(code, s);
    Next(code, s, s, t);
  }

  // Instructions 15-17: the doubled result, in rdx.
  lemma Double(code: seq<Instr>, s: Cpu) returns (t: Cpu)
    requires IsListing(code) && s.rip == 15 && !s.fault
    ensures Leads(code, s, t) && t == s.(rip := 18, regs := t.regs)
    ensures t.regs[RSP] == s.regs[RSP] && t.regs[RBP] == s.regs[RBP]
    ensures t.regs[RDX] == Wrap(2 * s.regs[RAX] as int)
  {
    Stay(code, s);
    assert HasPart(code, 3);
    var s1 := RunMovImm(code, s, s, RCX, 2);
    var s2 := RunMul(code, s, s1, RCX, 2);
    t := RunMov(code, s, s2, RDX, RAX);
  }

  // Instructions 14-18: drop the argument, double the result and keep it.
  lemma KeepDouble(code: seq<Instr>, s: Cpu) returns (t: Cpu)
    requires IsListing(code) && s.rip == 14 && !s.fault
    requires var sp := s.regs[RSP]; 8 <= sp + 8 < 0x1_0000_0000 && sp in s.mem
    ensures Leads(code, s, t) && t.rip == 19 && !t.fault && t.mask == s.mask
    ensures t.regs[RSP] == s.regs[RSP] && t.regs[RBP] == s.regs[RBP]
    ensures t.mem == s.mem[s.regs[RSP] := Wrap(2 * s.regs[RAX] as int)]
  {
    var s1 := DropArgument(code, s);
    var s2 := Double(code, s1);
    LeadsTo(code, s, s1, s2);
    assert HasPart(code, 3);
    t := RunPush(code, s, s2, RDX);
  }

  // Instructions 19-22: to the call of r(n - 2).
  lemma CallSecond(code: seq<Instr>, s: Cpu) returns (t: Cpu)
    requires IsListing(code) && s.rip == 19 && !s.fault
    requires var bp, sp := s.regs[RBP], s.regs[RSP];
      && bp + 16 < TWO64 && bp + 16 in s.mem && s.mem[bp + 16] >= 2
      && 16 <= sp && sp - 8 in s.mem && sp - 16 in s.mem
    ensures Leads(code, s, t) && t.rip == R && !t.fault && t.mask == s.mask
    ensures var sp := s.regs[RSP];
      && t.regs[RSP] == sp - 16 && t.regs[RBP] == s.regs[RBP]
      && t.mem == s.mem[sp - 8 := s.mem[s.regs[RBP] + 16] - 2][sp - 16 := 23]
  {
    Stay(code, s);
    assert HasPart(code, 3);
    var s1 := RunLoad(code, s, s, RBX, RBP, 16);
    var s2 := RunAdd(code, s, s1, RBX, -2);
    var s3 := RunPush(code, s, s2, RBX);
    t := RunCall(code, s, s3, R);
  }

  // Instructions 23-26: drop the argument, triple the result, take the double back.
  lemma Triple(code: seq<Instr>, s: Cpu) returns (t: Cpu)
    requires IsListing(code) && s.rip == 23 && !s.fault
    requires var sp := s.regs[RSP]; sp as int + 16 < 0x1_0000_0000 && sp + 8 in s.mem
    ensures Leads(code, s, t) && t.rip == 27 && !t.fault && t.mask == s.mask && t.mem == s.mem
    ensures t.regs[RSP] == s.regs[RSP] + 16 && t.regs[RBP] == s.regs[RBP]
    ensures t.regs[RAX] == Wrap(3 * s.regs[RAX] as int) && t.regs[RDX] == s.mem[s.regs[RSP] + 8]
  {
    var s1 := DropArgument(code, s);
    assert HasPart(code, 4);
    var s2 := RunMovImm(code, s, s1, RCX, 3);
    var s3 := RunMul(code, s, s2, RCX, 3);
    t := RunPop(code, s, s3, RDX);
  }

  // Instructions 27-29: add and return.
  lemma SumAndReturn(code: seq<Instr>, s: Cpu) returns (t: Cpu)
    requires IsListing(code) && s.rip == 27 && !s.fault
    requires var bp := s.regs[RSP]; bp + 16 < TWO64 && bp in s.mem && bp + 8 in s.mem
    ensures Leads(code, s, t) && !t.fault && t.mask == s.mask && t.mem == s.mem
    ensures var bp := s.regs[RSP];
      && t.rip == s.mem[bp + 8] && t.regs[RBP] == s.mem[bp] && t.regs[RSP] == bp + 16
      && t.regs[RAX] == Wrap(s.regs[RAX] as int + s.regs[RDX] as int)
  {
    Stay(code, s);
    assert HasPart(code, 4);
    var s1 := RunAddReg(code, s, s, RAX, RDX);
    var s2 := RunPop(code, s, s1, RBP);
    t := RunRet(code, s, s2);
  }

  // ---- r -------------------------------------------------------------------------------------------------------

  lemma WrapsBy(x: int, q: int)
    ensures Wrap(x + q * TWO64) == Wrap(x)
  {}

  lemma DoubleAndTriple(a: nat, b: nat)
    ensures Wrap(Wrap(3 * (b % TWO64)) as int + Wrap(2 * (a % TWO64)) as int) == (2 * a + 3 * b) % TWO64
  {
    var a', b' := a % TWO64, b % TWO64;
    WrapsBy(3 * b' + 2 * a', -(3 * b' / TWO64) - 2 * a' / TWO64);
    WrapsBy(3 * b' + 2 * a', 2 * (a / TWO64) + 3 * (b / TWO64));
  }

  // Inside the frame of r(n): rbp points at the caller's rbp, the return address and the argument are above it.
  predicate InFrame(s: Cpu, n: int) {
    var bp := s.regs[RBP];
    && !s.fault && bp as int + 16 < TWO64
    && bp in s.mem && bp + 8 in s.mem && bp + 16 in s.mem && Signed(s.mem[bp + 16]) == n
  }

  // The lowest address r(n) writes, when its frame pointer is bp.
  function Bottom(bp: U64, n: int): int { bp as int + 8 - 8 * StackWords(n) }

  // From the first instruction after the tests to 2 r(n - 1) on the stack.
  lemma {:induction false} FirstHalf(code: seq<Instr>, s: Cpu, n: int) returns (t: Cpu)
    requires IsListing(code) && InFrame(s, n) && s.rip == 11 && n >= 2 && s.regs[RBX] == n
    requires s.regs[RBP] < 0x1_0000_0000
    requires s.regs[RSP] == s.regs[RBP] && Room(s.mem, s.regs[RBP], 2 + StackWords(n - 1))
    ensures Leads(code, s, t) && t.rip == 19 && !t.fault && t.mask == s.mask
    ensures t.regs[RBP] == s.regs[RBP] && t.regs[RSP] as int == s.regs[RBP] as int - 8
    ensures SameOutside(s.mem, t.mem, s.regs[RBP] - 8 * (2 + StackWords(n - 1)), s.regs[RBP])
    ensures t.regs[RSP] in t.mem && t.mem[t.regs[RSP]] == Wrap(2 * (Rec(n - 1) % TWO64))
    decreases n, 0
  {
    var bp := s.regs[RBP];
    assert Slot(bp, 1) in s.mem && Slot(bp, 2) in s.mem;
    var s1 := CallFirst(code, s);
    LessRoom(s.mem, bp, 2 + StackWords(n - 1), 2);
    assert Room(s1.mem, bp - 16, StackWords(n - 1));
    var s2 := RunsR(code, s1, n - 1);
    t := KeepDouble(code, s2);
    LeadsTo(code, s, s1, s2);
    LeadsTo(code, s, s2, t);
  }

  // From 2 r(n - 1) on the stack to the caller.
  lemma {:induction false} SecondHalf(code: seq<Instr>, s: Cpu, n: int) returns (t: Cpu)
    requires IsListing(code) && InFrame(s, n) && s.rip == 19 && n >= 2 && 8 <= s.regs[RBP] < 0x1_0000_0000
    requires s.regs[RSP] == s.regs[RBP] - 8 && s.regs[RSP] in s.mem && Room(s.mem, s.regs[RSP], 2 + StackWords(n - 2))
    ensures Leads(code, s, t) && !t.fault && t.mask == s.mask
    ensures SameOutside(s.mem, t.mem, s.regs[RSP] - 8 * (2 + StackWords(n - 2)), s.regs[RSP])
    ensures var bp := s.regs[RBP];
      && t.rip == s.mem[bp + 8] && t.regs[RBP] == s.mem[bp] && t.regs[RSP] == bp + 16
      && t.regs[RAX] == Wrap(Wrap(3 * (Rec(n - 2) % TWO64)) as int + s.mem[s.regs[RSP]] as int)
    decreases n, 0
  {
    var sp := s.regs[RSP];
    assert Slot(sp, 1) in s.mem && Slot(sp, 2) in s.mem;
    var s1 := CallSecond(code, s);
    LessRoom(s.mem, sp, 2 + StackWords(n - 2), 2);
    assert Room(s1.mem, sp - 16, StackWords(n - 2));
    var s2 := RunsR(code, s1, n - 2);
    var s3 := Triple(code, s2);
    t := SumAndReturn(code, s3);
    LeadsTo(code, s, s1, s2);
    LeadsTo(code, s, s2, s3);
    LeadsTo(code, s, s3, t);
  }

  // r: for every signed n and enough stack, below 4 GiB for n >= 2, the call returns r(n) modulo 2^64 to the caller,
  // with rsp and rbp as the call convention wants them and every word from the return address upward unchanged.
  lemma {:induction false} RunsR(code: seq<Instr>, s: Cpu, n: int) returns (t: Cpu)
    requires IsListing(code) && CallsR(s, n)
    ensures Leads(code, s, t) && ReturnsR(s, t, n)
    decreases n, 2
  {
    assert Slot(s.regs[RSP], 1) in s.mem;
    var s1 := Enter(code, s, n);
    if n <= 1 {
      t := Base(code, s1, if n <= 0 then 0 else 1);
    } else {
      assert Room(s1.mem, s.regs[RSP], StackWords(n));
      t := FrameReturns(code, s1, n);
    }
    LeadsTo(code, s, s1, t);
  }

  lemma {:induction false} FrameReturns(code: seq<Instr>, s: Cpu, n: int) returns (t: Cpu)
    requires IsListing(code) && InFrame(s, n) && s.rip == 11 && n >= 2 && s.regs[RBX] == n
    requires s.regs[RBP] < 0x1_0000_0000
    requires s.regs[RSP] == s.regs[RBP] && Room(s.mem, s.regs[RBP] + 8, StackWords(n))
    ensures Leads(code, s, t) && !t.fault && t.mask == s.mask
    ensures SameOutside(s.mem, t.mem, Bottom(s.regs[RBP], n), s.regs[RBP])
    ensures var bp := s.regs[RBP];
      && t.rip == s.mem[bp + 8] && t.regs[RBP] == s.mem[bp] && t.regs[RSP] == bp + 16
      && t.regs[RAX] == Rec(n) % TWO64
    decreases n, 1
  {
    var bp: U64 := s.regs[RBP];
    assert Slot(bp + 8, 2) == bp - 8;
    LessRoom(s.mem, bp + 8, StackWords(n), 1);
    assert Room(s.mem, bp, 2 + StackWords(n - 1));
    var s1 := FirstHalf(code, s, n);
    LessRoom(s.mem, bp + 8, StackWords(n), 2);
    assert Room(s1.mem, bp - 8, 2 + StackWords(n - 2));
    t := SecondHalf(code, s1, n);
    LeadsTo(code, s, s1, t);
    DoubleAndTriple(Rec(n - 1), Rec(n - 2));
  }

  lemma RoomSplits(mem: Memory, sp: U64, n: int)
    requires n >= 2 && 32 <= sp && sp - 8 in mem && sp - 16 in mem && sp - 24 in mem
    requires !Room(mem, sp, StackWords(n)) && Room(mem, sp - 24, StackWords(n - 1))
    ensures !Room(mem, sp - 32, StackWords(n - 2))
  {
    var mid, low: U64 := sp - 24, sp - 32;
    forall k | 0 < k <= StackWords(n) && Room(mem, low, StackWords(n - 2))
      ensures 0 <= Slot(sp, k) && Slot(sp, k) in mem
    {
      if k > 4 {
        assert Slot(low, k - 4) == Slot(sp, k);
        assert Slot(mid, k - 3) == Slot(sp, k);
      } else if k > 3 {
        assert Slot(mid, k - 3) == Slot(sp, k);
      }
    }
  }

  // For n <= 1 the frame is all r needs.
  lemma OneWordIsEnough(mem: Memory, sp: U64, n: int)
    requires 8 <= sp && sp - 8 in mem && !Room(mem, sp, StackWords(n))
    ensures n > 1
  {
    forall k | 0 < k <= 1 ensures Slot(sp, k) in mem {}
  }

  // The last word of the address space is not mapped.
  predicate NoLastWord(mem: Memory) {
    forall a :: a in mem ==> a + 8 < TWO64
  }

  // Pushing down the stack from sp does not come round to the other end of memory: there are not that many words, or
  // none is mapped there.
  predicate NoWrap(mem: Memory, sp: int, words: nat) {
    8 * words <= sp || NoLastWord(mem)
  }

  lemma NoFrame(code: seq<Instr>, s: Cpu) returns (t: Cpu)
    requires IsListing(code) && s.rip == R && !s.fault && NoWrap(s.mem, s.regs[RSP], 1) && !RoomBelow(s)
    ensures Leads(code, s, t) && t.fault
  {
    Stay(code, s);
    assert HasPart(code, 1);
    t := RunOutOfRoom(code, s, s, PushReg(RBP));
  }

  lemma NoFirstCall(code: seq<Instr>, s: Cpu) returns (t: Cpu)
    requires IsListing(code) && s.rip == 11 && !s.fault && s.regs[RBX] >= 1 && NoWrap(s.mem, s.regs[RSP], 2)
    requires !RoomBelow(s) || s.regs[RSP] < 16 || s.regs[RSP] - 16 !in s.mem
    ensures Leads(code, s, t) && t.fault
  {
    Stay(code, s);
    assert HasPart(code, 2);
    t := RunAdd(code, s, s, RBX, -1);
    if RoomBelow(s) {
      t := RunPush(code, s, t, RBX);
      t := RunOutOfRoom(code, s, t, Call(R));
    } else {
      t := RunOutOfRoom(code, s, t, PushReg(RBX));
    }
  }

  // With any word of that stack missing, the call ends in a fault: 8 * StackWords(n), 24 n - 8 bytes for n >= 2, is
  // exactly what it needs.
  lemma {:induction false} RunsOutOfStack(code: seq<Instr>, s: Cpu, n: int) returns (t: Cpu)
    requires IsListing(code) && Called(s, n) && (n >= 2 ==> Low(s.regs[RSP]))
    requires NoWrap(s.mem, s.regs[RSP], StackWords(n)) && !Room(s.mem, s.regs[RSP], StackWords(n))
    ensures Leads(code, s, t) && t.fault
    decreases n, 3
  {
    var sp := s.regs[RSP];
    if !RoomBelow(s) {
      t := NoFrame(code, s);
    } else {
      OneWordIsEnough(s.mem, sp, n);
      var s1 := Enter(code, s, n);
      assert !Room(s1.mem, sp, StackWords(n));
      t := FrameOutOfStack(code, s1, n);
      LeadsTo(code, s, s1, t);
    }
  }

  lemma {:induction false} FrameOutOfStack(code: seq<Instr>, s: Cpu, n: int) returns (t: Cpu)
    requires IsListing(code) && InFrame(s, n) && s.rip == 11 && n >= 2 && s.regs[RBX] == n
    requires s.regs[RBP] < 0x1_0000_0000
    requires s.regs[RSP] == s.regs[RBP] && NoWrap(s.mem, s.regs[RBP] + 8, StackWords(n))
    requires !Room(s.mem, s.regs[RBP] + 8, StackWords(n))
    ensures Leads(code, s, t) && t.fault
    decreases n, 2
  {
    var bp := s.regs[RBP];
    if bp < 16 || bp - 8 !in s.mem || bp - 16 !in s.mem {
      t := NoFirstCall(code, s);
    } else {
      var s1 := CallFirst(code, s);
      if !Room(s1.mem, bp - 16, StackWords(n - 1)) {
        t := RunsOutOfStack(code, s1, n - 1);
        LeadsTo(code, s, s1, t);
      } else {
        t := SecondCallOutOfStack(code, s, n);
      }
    }
  }

  lemma {:induction false} SecondCallOutOfStack(code: seq<Instr>, s: Cpu, n: int) returns (t: Cpu)
    requires IsListing(code) && InFrame(s, n) && s.rip == 11 && n >= 2 && s.regs[RBX] == n
    requires s.regs[RBP] < 0x1_0000_0000
    requires s.regs[RSP] == s.regs[RBP] && NoWrap(s.mem, s.regs[RBP] + 8, StackWords(n))
    requires !Room(s.mem, s.regs[RBP] + 8, StackWords(n))
    requires var bp := s.regs[RBP];
      16 <= bp && bp - 8 in s.mem && bp - 16 in s.mem && Room(s.mem, bp - 16, StackWords(n - 1))
    ensures Leads(code, s, t) && t.fault
    decreases n, 1
  {
    var bp := s.regs[RBP];
    MoreRoom(s.mem, bp, StackWords(n - 1));
    assert 24 <= bp && bp - 24 in s.mem by { assert Slot(bp, 3) in s.mem; }
    RoomSplits(s.mem, bp + 8, n);
    var s1 := FirstHalf(code, s, n);
    t := HalfOutOfStack(code, s1, n);
    LeadsTo(code, s, s1, t);
  }

  lemma {:induction false} HalfOutOfStack(code: seq<Instr>, s: Cpu, n: int) returns (t: Cpu)
    requires IsListing(code) && InFrame(s, n) && s.rip == 19 && n >= 2
    requires 24 <= s.regs[RBP] < 0x1_0000_0000 && NoWrap(s.mem, s.regs[RBP] - 24, StackWords(n - 2))
    requires var bp := s.regs[RBP];
      s.regs[RSP] == bp - 8 && bp - 16 in s.mem && bp - 24 in s.mem && !Room(s.mem, bp - 24, StackWords(n - 2))
    ensures Leads(code, s, t) && t.fault
    decreases n, 0
  {
    var s1 := CallSecond(code, s);
    assert !Room(s1.mem, s.regs[RBP] - 24, StackWords(n - 2));
    t := RunsOutOfStack(code, s1, n - 2);
    LeadsTo(code, s, s1, t);
  }

  // ---- a stack above 4 GiB -------------------------------------------------------------------------------------

  // Cutting the address of a mapped word at or above 4 GiB off at 32 bits does not give a mapped word.
  predicate NoAlias(mem: Memory) {
    NoLastWord(mem) && forall a :: a in mem && a >= 0x1_0000_0000 ==> a % 0x1_0000_0000 !in mem
  }

  // Instructions 14-18 with the stack above 4 GiB: the push after add esp, 8 has lost the stack.
  lemma KeepDoubleFaults(code: seq<Instr>, s: Cpu) returns (t: Cpu)
    requires IsListing(code) && s.rip == 14 && !s.fault && s.regs[RSP] as int + 8 < TWO64
    requires s.regs[RSP] as int + 8 >= 0x1_0000_0000 && s.regs[RSP] in s.mem && NoAlias(s.mem)
    ensures Leads(code, s, t) && t.fault
  {
    var s1 := DropNeedsLowStack(code, s);
    var s2 := Double(code, s1);
    LeadsTo(code, s, s1, s2);
    LostStack(s.mem, s.regs[RSP]);
    assert HasPart(code, 3);
    t := RunOutOfRoom(code, s, s2, PushReg(RDX));
  }

  lemma LostStack(mem: Memory, sp: U64)
    requires sp as int + 8 < TWO64 && sp as int + 8 >= 0x1_0000_0000 && sp in mem && NoAlias(mem)
    ensures Wrap((sp % 0x1_0000_0000 + 8) % 0x1_0000_0000 - 8) !in mem
  {
    var low := sp % 0x1_0000_0000;
    if low + 8 < 0x1_0000_0000 {
      assert (low + 8) % 0x1_0000_0000 - 8 == low;
    } else {
      assert (low + 8) % 0x1_0000_0000 == low + 8 - 0x1_0000_0000;
    }
  }

  // For n >= 2 a call with its frame at or above 4 GiB ends in a fault.
  lemma {:induction false} HighStackFaults(code: seq<Instr>, s: Cpu, n: int) returns (t: Cpu)
    requires IsListing(code) && Called(s, n) && n >= 2 && !Low(s.regs[RSP]) && NoAlias(s.mem)
    ensures Leads(code, s, t) && t.fault
    decreases n
  {
    if !RoomBelow(s) {
      t := NoFrame(code, s);
    } else {
      var s1 := Enter(code, s, n);
      var bp := s1.regs[RBP];
      if bp < 16 || bp - 8 !in s.mem || bp - 16 !in s.mem {
        t := NoFirstCall(code, s1);
      } else {
        var s2 := CallFirst(code, s1);
        if n - 1 >= 2 && !Low(s2.regs[RSP]) {
          t := HighStackFaults(code, s2, n - 1);
        } else if !Room(s2.mem, s2.regs[RSP], StackWords(n - 1)) {
          t := RunsOutOfStack(code, s2, n - 1);
        } else {
          var s3 := RunsR(code, s2, n - 1);
          t := KeepDoubleFaults(code, s3);
          LeadsTo(code, s2, s3, t);
        }
        LeadsTo(code, s1, s2, t);
      }
      LeadsTo(code, s, s1, t);
    }
  }

  // What a call of r comes to, in terms of n and the stack: it returns r(n) exactly when there is room and, for n >= 2,
  // the frame is below 4 GiB; otherwise it ends in a fault.
  lemma ReturnsOrFaults(code: seq<Instr>, s: Cpu, n: int) returns (t: Cpu)
    requires IsListing(code) && Called(s, n) && NoAlias(s.mem)
    ensures Leads(code, s, t)
    ensures if Room(s.mem, s.regs[RSP], StackWords(n)) && (n <= 1 || Low(s.regs[RSP])) then ReturnsR(s, t, n)
            else t.fault
  {
    if n >= 2 && !Low(s.regs[RSP]) {
      t := HighStackFaults(code, s, n);
    } else if Room(s.mem, s.regs[RSP], StackWords(n)) {
      t := RunsR(code, s, n);
    } else {
      t := RunsOutOfStack(code, s, n);
    }
  }

  // ---- exactness -----------------------------------------------------------------------------------------------

  lemma {:induction false} Grows(m: int, n: int)
    requires m <= n
    ensures Rec(m) <= Rec(n)
    decreases n - m
  {
    if m < n {
      Grows(m, n - 1);
    }
  }

  lemma PowersOf3()
    ensures Pow(3, 41) == 36472996377170786403 && Pow(3, 42) == 109418989131512359209
  {
    assert Pow(3, 10) == 59049;
    PowersMultiply(3, 10, 10);
    PowersMultiply(3, 20, 20);
  }

  // The last n for which r(n) fits in 64 bits, from the powers of 3 around 2^66.
  lemma FitsUpTo(n: int, m: nat)
    requires Pow(3, m) + 1 < 4 * TWO64 && 4 * TWO64 < Pow(3, m + 1)
    ensures Rec(n) < TWO64 <==> n <= m
  {
    ClosedForm(m);
    ClosedForm(m + 1);
    if n <= m { Grows(n, m); } else { Grows(m + 1, n); }
  }

  // r(n) fits in 64 bits exactly for n <= 41.
  lemma FitsUpTo41(n: int)
    ensures Rec(n) < TWO64 <==> n <= 41
  {
    PowersOf3();
    FitsUpTo(n, 41);
  }

  // For those n no product or sum wraps on the way.
  lemma NothingWrapsUpTo41(n: int)
    requires 2 <= n <= 41
    ensures 2 * Rec(n - 1) < TWO64 && 3 * Rec(n - 2) < TWO64 && 2 * Rec(n - 1) + 3 * Rec(n - 2) < TWO64
  {
    FitsUpTo41(n);
  }

  lemma WrapsToItself(x: nat)
    ensures x % TWO64 == x <==> x < TWO64
  {}

  // So what r leaves in rax is r(n) itself exactly for n <= 41.
  lemma ExactUpTo41(code: seq<Instr>, s: Cpu, n: int) returns (t: Cpu)
    requires IsListing(code) && CallsR(s, n)
    ensures Leads(code, s, t) && ReturnsR(s, t, n) && (t.regs[RAX] == Rec(n) <==> n <= 41)
  {
    t := RunsR(code, s, n);
    FitsUpTo41(n);
    WrapsToItself(Rec(n));
  }

  // The value in closed form.
  lemma ReturnsClosedForm(code: seq<Instr>, s: Cpu, n: nat) returns (t: Cpu)
    requires IsListing(code) && CallsR(s, n) && n <= 41
    ensures Leads(code, s, t) && 4 * t.regs[RAX] as int == Pow(3, n) - Sign(n)
    ensures t.rip == s.mem[s.regs[RSP]] && !t.fault
    ensures t.regs[RSP] as int == s.regs[RSP] as int + 8 && t.regs[RBP] == s.regs[RBP]
    ensures SameOutside(s.mem, t.mem, s.regs[RSP] - 8 * StackWords(n), s.regs[RSP])
  {
    t := ExactUpTo41(code, s, n);
    ClosedForm(n);
  }

  // ---- the program ---------------------------------------------------------------------------------------------

  // The program calls r(25) and arrives at exit with the exact value in rax and the stack as it found it.
  lemma ProgramComputesR25(code: seq<Instr>, s: Cpu) returns (t: Cpu)
    requires IsListing(code) && s.rip == 0 && !s.fault && s.regs[RSP] < 0x1_0000_0000
    requires Room(s.mem, s.regs[RSP], 2 + StackWords(25))
    ensures Leads(code, s, t) && t.rip == EXIT && !t.fault
    ensures 4 * t.regs[RAX] as int == Pow(3, 25) + 1
    ensures t.regs[RSP] == s.regs[RSP] && t.regs[RBP] == s.regs[RBP]
    ensures SameOutside(s.mem, t.mem, s.regs[RSP] - 8 * (2 + StackWords(25)), s.regs[RSP])
  {
    var s1 := PushAndCall(code, s);
    LessRoom(s.mem, s.regs[RSP], 2 + StackWords(25), 2);
    assert Room(s1.mem, s1.regs[RSP], StackWords(25));
    var s2 := ReturnsClosedForm(code, s1, 25);
    t := DropAndLeave(code, s2);
    LeadsTo(code, s, s1, s2);
    LeadsTo(code, s, s2, t);
  }

  lemma PushAndCall(code: seq<Instr>, s: Cpu) returns (t: Cpu)
    requires IsListing(code) && s.rip == 0 && !s.fault && Room(s.mem, s.regs[RSP], 2)
    ensures Leads(code, s, t) && t.rip == R && !t.fault
    ensures var sp := s.regs[RSP];
      16 <= sp && t.regs == s.regs[RSP := sp - 16] && t.mem == s.mem[sp - 8 := 25][sp - 16 := 2]
      && sp - 8 in s.mem && sp - 16 in s.mem
  {
    assert Slot(s.regs[RSP], 1) in s.mem && Slot(s.regs[RSP], 2) in s.mem;
    Stay(code, s);
    assert HasPart(code, 0);
    var s1 := RunPushImm(code, s, s, 25);
    t := RunCall(code, s, s1, R);
  }

  lemma DropAndLeave(code: seq<Instr>, s: Cpu) returns (t: Cpu)
    requires IsListing(code) && s.rip == 2 && !s.fault && s.regs[RSP] as int + 8 < 0x1_0000_0000
    ensures Leads(code, s, t)
    ensures t == s.(rip := EXIT, regs := s.regs[RSP := s.regs[RSP] + 8], zf := t.zf, less := t.less)
  {
    Stay(code, s);
    assert HasPart(code, 0);
    var s1 := RunAddEsp(code, s, s, 8);
    t := RunJmp(code, s, s1, EXIT);
  }

  // The program on the processor.
  method RunProgram(cpu: Processor)
    requires IsListing(cpu.code) && cpu.rip == 0 && !cpu.fault && cpu.regs[RSP] < 0x1_0000_0000
    requires Room(cpu.mem, cpu.regs[RSP], 2 + StackWords(25))
    modifies cpu
    ensures cpu.rip == EXIT && !cpu.fault && 4 * cpu.regs[RAX] as int == Pow(3, 25) + 1
    ensures cpu.regs[RSP] == old(cpu.regs[RSP]) && cpu.regs[RBP] == old(cpu.regs[RBP])
    ensures SameOutside(old(cpu.mem), cpu.mem, old(cpu.regs[RSP]) - 8 * (2 + StackWords(25)), old(cpu.regs[RSP]))
  {
    ghost var t := ProgramComputesR25(cpu.code, cpu.View());
    ghost var n: nat :| Steps(cpu.code, cpu.View(), n) == t;
    cpu.Run(n);
  }
}
