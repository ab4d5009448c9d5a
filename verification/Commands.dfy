// Sequences of commands, the answers the system may give them, and what every sequence keeps.
module Commands {
  import opened Words
  import opened Tracee
  import opened Debugger

  // A command together with what the system answered while it ran.
  datatype Command =
    | Break(addr: U64)
    | Delete(id: int)
    | Continue(w: Wait)
    | StepInto(w: Wait)
    | StartIt(f: Fork)
    | RunIt(f: Fork, w: Wait)
    | LoadIt(file: File)
    | SetReg(reg: string, val: U64)

  function Apply(s: Session, c: Command): Session {
    if s.ended then s
    else match c
      case Break(a) => s.Bp(a)
      case Delete(id) => s.Del(id)
      case Continue(w) => s.Cont(w)
      case StepInto(w) => s.Si(w)
      case StartIt(f) => s.Start(f)
      case RunIt(f, w) => s.Run(f, w)
      case LoadIt(file) => s.Load(file)
      case SetReg(reg, val) => s.Set(reg, val)
  }

  function ApplyAll(s: Session, cs: seq<Command>): Session
    decreases cs
  {
    if cs == [] then s else ApplyAll(Apply(s, cs[0]), cs[1..])
  }

  // fork gives a positive pid and execve maps the program and stops at its entry.
  ghost predicate ForkPossible(p: Program, f: Fork) {
    f.Forked? ==> f.pid > 0 && f.child == Machine(p.code, p.entry)
  }

  // The answer waitpid gives after PTRACE_CONT is one the program can produce from where chkbp left it.
  ghost predicate ContPossible(p: Program, s: Session, w: Wait) {
    s.phase == Running && s.alive && !s.Chkbp().ended ==> Resumes(p, s.Chkbp().child, w)
  }

  ghost predicate SiPossible(p: Program, s: Session, w: Wait) {
    s.phase == Running && s.alive && !s.Chkbp().ended ==> SingleSteps(p, s.Chkbp().child, w)
  }

  ghost predicate Possible(p: Program, s: Session, c: Command) {
    match c
    case Continue(w) => ContPossible(p, s, w)
    case StepInto(w) => SiPossible(p, s, w)
    case StartIt(f) => ForkPossible(p, f)
    case RunIt(f, w) =>
      ForkPossible(p, f)
      && (s.phase == Running ==> ContPossible(p, s, w))
      && (s.phase == Loaded && !s.Start(f).ended ==> ContPossible(p, s.Start(f), w))
    case _ => true
  }

  ghost predicate AllPossible(p: Program, s: Session, cs: seq<Command>)
    decreases cs
  {
    cs == [] || (Possible(p, s, cs[0]) && AllPossible(p, Apply(s, cs[0]), cs[1..]))
  }

  // The child has left its code as chkbp left it.
  predicate AnswerKeepsCode(s: Session, w: Wait) {
    s.phase == Running && s.alive && !s.Chkbp().ended && w.Stopped? ==> w.child.code == s.Chkbp().child.code
  }

  predicate LeavesCode(s: Session, c: Command) {
    match c
    case Continue(w) => AnswerKeepsCode(s, w)
    case StepInto(w) => AnswerKeepsCode(s, w)
    case RunIt(f, w) => AnswerKeepsCode(if s.phase == Loaded then s.Start(f) else s, w)
    case _ => true
  }

  // In this sequence of commands the child never changes its code.
  predicate AllLeaveCode(s: Session, cs: seq<Command>)
    decreases cs
  {
    cs == [] || (LeavesCode(s, cs[0]) && AllLeaveCode(Apply(s, cs[0]), cs[1..]))
  }

  // Every address some state of the sequence lists.
  function EverListed(s: Session, cs: seq<Command>): set<U64>
    decreases cs
  {
    Addrs(s.bps) + if cs == [] then {} else EverListed(Apply(s, cs[0]), cs[1..])
  }

  // ---- load and set --------------------------------------------------------------------------------------------

  // Section i is the first called .text.
  predicate IsFirstText(sections: seq<Section>, i: nat) {
    i < |sections| && sections[i].name == ".text" && forall j :: 0 <= j < i ==> sections[j].name != ".text"
  }

  lemma FirstTextOfTail(sections: seq<Section>, i: nat)
    requires sections != [] && sections[0].name != ".text"
    ensures IsFirstText(sections, i + 1) <==> IsFirstText(sections[1..], i)
  {
    var rest := sections[1..];
    assert forall j :: 0 <= j < |rest| ==> rest[j] == sections[j + 1];
    assert forall j {:trigger sections[j]} :: 0 < j < |sections| ==> sections[j] == rest[j - 1];
  }

  lemma {:induction false} TextOfIsFirst(sections: seq<Section>)
    ensures forall i: nat :: IsFirstText(sections, i) ==> TextOf(sections) == sections[i]
    ensures (forall i: nat :: !IsFirstText(sections, i)) ==> TextOf(sections) == Section("", 0, 0)
  {
    if sections != [] && sections[0].name != ".text" {
      TextOfIsFirst(sections[1..]);
      forall i: nat ensures IsFirstText(sections, i + 1) <==> IsFirstText(sections[1..], i) {
        FirstTextOfTail(sections, i);
      }
      forall i: nat | IsFirstText(sections, i) ensures TextOf(sections) == sections[i] {
        FirstTextOfTail(sections, i - 1);
      }
    } else if sections != [] {
      assert IsFirstText(sections, 0);
    }
  }

  // load takes the debugger out of NONLOAD exactly for a 64-bit ELF file, and from then on the addresses bp accepts
  // are those of its first .text section; without one bp accepts none. Nothing else changes, and a program that is
  // loaded already stays.
  lemma LoadTakesFirstText(s: Session, file: File)
    ensures s.phase == NonLoad ==> (s.Load(file).phase != NonLoad <==> file.Elf64?)
    ensures s.phase == NonLoad && file.Elf64? ==>
      && (forall i: nat, a: U64 ::
            IsFirstText(file.sections, i) && file.sections[i].addr + file.sections[i].size < TWO64
            ==> (s.Load(file).InText(a)
                 <==> file.sections[i].addr <= a < file.sections[i].addr + file.sections[i].size))
      && ((forall i: nat :: !IsFirstText(file.sections, i)) ==> forall a: U64 :: !s.Load(file).InText(a))
    ensures s.Load(file).ended <==> s.ended || (s.phase == NonLoad && file.Unreadable?)
    ensures var t := s.Load(file); t.bps == s.bps && t.pid == s.pid && t.alive == s.alive && t.child == s.child
    ensures s.phase != NonLoad ==> s.Load(file) == s
  {
    if file.Elf64? {
      TextOfIsFirst(file.sections);
    }
  }

  // The names set knows.
  predicate IsRegisterName(reg: string) {
    reg == "rax" || reg == "rbx" || reg == "rcx" || reg == "rdx" || reg == "r8" || reg == "r9" || reg == "r10"
    || reg == "r11" || reg == "r12" || reg == "r13" || reg == "r14" || reg == "r15" || reg == "rdi" || reg == "rsi"
    || reg == "rbp" || reg == "rsp" || reg == "rip" || reg == "flags"
  }

  // The value the child's registers hold under a name.
  predicate Holds(s: Session, reg: string, val: U64) {
    if reg == "rip" then s.Rip() == val
    else reg in s.child.at.data.regs && s.child.at.data.regs[reg] == val
  }

  // set of one of the eighteen names gives that register the value; it changes no other register, no memory and
  // nothing of the debugger. set of any other name changes nothing at all.
  lemma SetChangesOneRegister(s: Session, reg: string, val: U64)
    requires s.phase == Running && s.alive
    ensures IsRegisterName(reg) ==>
      var t := s.Set(reg, val);
      && Holds(t, reg, val)
      && (forall r, v :: r != reg ==> (Holds(t, r, v) <==> Holds(s, r, v)))
      && t == s.(child := t.child) && t.child.code == s.child.code
      && t.child.at.data == s.child.at.data.(regs := t.child.at.data.regs)
    ensures !IsRegisterName(reg) ==> s.Set(reg, val) == s
  {
    NamesAreRegisters(reg);
  }

  lemma NamesAreRegisters(reg: string)
    ensures IsRegisterName(reg) <==> reg == "rip" || reg in REGISTERS
  {}

  lemma SetEveryRegister(s: Session, val: U64)
    requires s.phase == Running && s.alive
    ensures Holds(s.Set("rax", val), "rax", val) && Holds(s.Set("rbx", val), "rbx", val)
    ensures Holds(s.Set("rcx", val), "rcx", val) && Holds(s.Set("rdx", val), "rdx", val)
    ensures Holds(s.Set("r8", val), "r8", val) && Holds(s.Set("r9", val), "r9", val)
    ensures Holds(s.Set("r10", val), "r10", val) && Holds(s.Set("r11", val), "r11", val)
    ensures Holds(s.Set("r12", val), "r12", val) && Holds(s.Set("r13", val), "r13", val)
    ensures Holds(s.Set("r14", val), "r14", val) && Holds(s.Set("r15", val), "r15", val)
    ensures Holds(s.Set("rdi", val), "rdi", val) && Holds(s.Set("rsi", val), "rsi", val)
    ensures Holds(s.Set("rbp", val), "rbp", val) && Holds(s.Set("rsp", val), "rsp", val)
    ensures Holds(s.Set("rip", val), "rip", val) && Holds(s.Set("flags", val), "flags", val)
  {}

  // Of two sets of one register the later counts; sets of different registers can be given in either order.
  lemma SetsCompose(s: Session, reg: string, val: U64, reg': string, val': U64)
    ensures s.Set(reg, val).Set(reg, val') == s.Set(reg, val')
    ensures reg != reg' ==> s.Set(reg, val).Set(reg', val') == s.Set(reg', val').Set(reg, val)
  {
    if s.phase == Running && s.alive {
      var regs: map<string, U64> := s.child.at.data.regs;
      assert regs[reg := val][reg := val'] == regs[reg := val'];
      if reg != reg' {
        assert regs[reg := val][reg' := val'] == regs[reg' := val'][reg := val];
      }
    }
  }

  // ---- what a resumption does to the child ---------------------------------------------------------------------

  lemma OutcomeKeepsCode(p: Program, m: Machine, o: Outcome)
    requires KeepsCode(p) && Executes(p, m, o)
    ensures o.after.code == m.code
  {}

  lemma ResumeKeepsCode(p: Program, m: Machine, w: Wait)
    requires KeepsCode(p) && Resumes(p, m, w) && w.Stopped?
    ensures w.child.code == m.code
  {
    var run, o :| RunsInto(p, run, m, o) && w == Report(o);
    RunKeepsCode(p, run, |run| - 1);
    OutcomeKeepsCode(p, Last(run), o);
  }

  lemma StepKeepsCode(p: Program, m: Machine, w: Wait)
    requires KeepsCode(p) && SingleSteps(p, m, w) && w.Stopped?
    ensures w.child.code == m.code
  {
    var o :| Executes(p, m, o) && w == Report(o);
    OutcomeKeepsCode(p, m, o);
  }

  // A processor that writes no code gives only such sequences.
  lemma {:induction false} KeepsCodeLeavesCode(p: Program, s: Session, cs: seq<Command>)
    requires KeepsCode(p) && AllPossible(p, s, cs)
    ensures AllLeaveCode(s, cs)
    decreases cs
  {
    if cs != [] {
      CommandLeavesCode(p, s, cs[0]);
      KeepsCodeLeavesCode(p, Apply(s, cs[0]), cs[1..]);
    }
  }

  lemma CommandLeavesCode(p: Program, s: Session, c: Command)
    requires KeepsCode(p) && Possible(p, s, c)
    ensures LeavesCode(s, c)
  {
    match c
    case Continue(w) => ContLeavesCode(p, s, w);
    case StepInto(w) =>
      if s.phase == Running && s.alive && !s.Chkbp().ended && w.Stopped? { StepKeepsCode(p, s.Chkbp().child, w); }
    case RunIt(f, w) => ContLeavesCode(p, if s.phase == Loaded then s.Start(f) else s, w);
    case _ =>
  }

  lemma ContLeavesCode(p: Program, s: Session, w: Wait)
    requires KeepsCode(p) && (s.ended || ContPossible(p, s, w))
    ensures s.ended || AnswerKeepsCode(s, w)
  {
    if !s.ended && s.phase == Running && s.alive && !s.Chkbp().ended && w.Stopped? {
      ResumeKeepsCode(p, s.Chkbp().child, w);
    }
  }

  // ---- bookkeeping ---------------------------------------------------------------------------------------------

  // Ids are indices, listed addresses are distinct addresses of .text, the phase is RUNNING exactly when there is a
  // pid, and before a program is loaded there is neither text nor breakpoint.
  ghost predicate Bookkept(s: Session) {
    && Numbered(s.bps)
    && (forall i, j :: 0 <= i < j < |s.bps| ==> s.bps[i].addr != s.bps[j].addr)
    && (forall i :: 0 <= i < |s.bps| ==> s.InText(s.bps[i].addr))
    && (s.phase == Running <==> s.pid != 0)
    && (s.alive ==> s.phase == Running)
    && (s.phase == NonLoad ==> s.bps == [] && s.lo == s.hi == 0)
  }

  // ---- the child's code ----------------------------------------------------------------------------------------

  // Byte `b` at `a` is the program's own, or a 0xcc put over an address of `ever`.
  predicate OwnOrInt3(orig: Code, ever: set<U64>, a: U64, b: Byte) {
    a in orig && (b == orig[a] || (b == INT3 && a in ever))
  }

  predicate SoundCode(orig: Code, ever: set<U64>, code: Code) {
    code.Keys == orig.Keys && forall a :: a in code ==> OwnOrInt3(orig, ever, a, code[a])
  }

  // A saved word: its first byte is the program's own and is not 0xcc, the others are its own or a 0xcc of `ever`.
  ghost predicate SoundWord(orig: Code, ever: set<U64>, b: Breakpoint) {
    && Mapped(orig, b.addr) && IsWord(b.orig, b.addr)
    && b.addr in ever
    && b.orig[b.addr] == orig[b.addr] != INT3
    && forall x :: x in b.orig ==> OwnOrInt3(orig, ever, x, b.orig[x])
  }

  ghost predicate Sound(orig: Code, ever: set<U64>, s: Session) {
    && (s.alive ==> SoundCode(orig, ever, s.child.code))
    && forall i :: 0 <= i < |s.bps| ==> SoundWord(orig, ever, s.bps[i])
  }

  lemma SoundForMore(orig: Code, ever: set<U64>, more: set<U64>, s: Session)
    requires Sound(orig, ever, s) && ever <= more
    ensures Sound(orig, more, s)
  {}

  lemma ListedInAddrs(bps: seq<Breakpoint>, a: U64)
    ensures Listed(bps, a) <==> a in Addrs(bps)
  {}

  lemma RestoreKeepsSound(orig: Code, ever: set<U64>, s: Session, i: nat)
    requires Sound(orig, ever, s) && s.alive && i < |s.bps|
    ensures s.Reachable(s.bps[i].addr)
    ensures Sound(orig, ever, s.Poked(s.bps[i].orig))
  {
    var b := s.bps[i];
    assert SoundWord(orig, ever, b);
    var code' := Poke(s.child.code, b.orig);
    forall a | a in code' ensures OwnOrInt3(orig, ever, a, code'[a]) {
      if a in b.orig { assert OwnOrInt3(orig, ever, a, b.orig[a]); }
    }
  }

  // bp makes one byte 0xcc and lists the address if it was not, or fails where ptrace does, or changes nothing.
  predicate BpArms(s: Session, a: U64) {
    s.phase == Running && s.InText(a) && s.Reachable(a) && s.child.code[a] != INT3
  }

  lemma BpEffect(s: Session, a: U64)
    ensures !BpArms(s, a) ==> s.Bp(a) == if s.phase == Running && s.InText(a) && !s.Reachable(a) then s.Fail() else s
    ensures BpArms(s, a) ==>
      s.Bp(a) == s.(child := s.child.(code := s.child.code[a := INT3]),
                    bps := if Listed(s.bps, a) then s.bps
                           else s.bps + [Breakpoint(|s.bps|, a, Peek(s.child.code, a))])
  {
    if s.Reachable(a) {
      PokeLowByte(s.child.code, a, INT3);
    }
  }

  lemma BpKeepsBookkept(s: Session, a: U64)
    requires Bookkept(s)
    ensures Bookkept(s.Bp(a))
  {
    BpEffect(s, a);
  }

  lemma BpKeepsSound(orig: Code, ever: set<U64>, s: Session, a: U64)
    requires Sound(orig, ever, s) && (BpArms(s, a) ==> a in ever)
    ensures Sound(orig, ever, s.Bp(a))
  {
    BpEffect(s, a);
    if BpArms(s, a) && !Listed(s.bps, a) {
      assert SoundWord(orig, ever, Breakpoint(|s.bps|, a, Peek(s.child.code, a)));
    }
  }

  // Breakpoints bp lists stay listed, and one it arms is listed afterwards.
  lemma BpLists(s: Session, a: U64)
    ensures Addrs(s.bps) <= Addrs(s.Bp(a).bps)
    ensures BpArms(s, a) ==> a in Addrs(s.Bp(a).bps)
  {
    BpEffect(s, a);
    var bps' := s.Bp(a).bps;
    forall x | x in Addrs(s.bps) ensures x in Addrs(bps') {
      var i :| 0 <= i < |s.bps| && s.bps[i].addr == x;
      assert bps'[i].addr == x;
    }
    if BpArms(s, a) && !Listed(s.bps, a) {
      assert bps'[|s.bps|].addr == a;
    }
  }
}
