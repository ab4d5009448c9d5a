// The traced child as ptrace shows it, and what it can do when it is resumed.
//
// The child's memory is split in two: `code`, the mapped bytes of .text and of what follows it closely enough for
// the debugger's eight-byte pokes to reach, and everything else, which is part of `data`. How the processor
// executes an instruction is not fixed: it is a relation, constrained only where a theorem says so.
module Tracee {
  import opened Words

  type Code = map<U64, Byte>

  // Registers other than rip, memory outside `code`, and whatever the kernel keeps for the process.
  datatype Data = Data(regs: map<string, U64>, mem: map<U64, Byte>, world: seq<Byte>)

  datatype Point = Point(rip: U64, data: Data)

  datatype Machine = Machine(code: Code, at: Point)

  // What one instruction leads to. `Traps` is SIGTRAP; `Dies` is a fatal signal the tracer does not see as a stop.
  datatype Event = Continues | Traps | Signals(sig: nat) | Exits(status: nat) | Dies(sig: nat)

  datatype Outcome = Outcome(event: Event, after: Machine)

  // A program: its processor (`next`, and `width`, the number of bytes an instruction is decoded from), the code
  // bytes execve maps, and the point execve stops at.
  datatype Program = Program(next: (Machine, Outcome) -> bool, width: (Code, Point) -> nat, code: Code, entry: Point)

  const SIGTRAP: nat := 5

  // What waitpid reports: WIFEXITED, WIFSIGNALED, or WIFSTOPPED with the stopping signal.
  datatype Wait = Exited(status: nat) | Died(sig: nat) | Stopped(sig: nat, child: Machine)

  // ---- peek and poke -------------------------------------------------------------------------------------------

  // ptrace can move the word at `a` only when all its eight bytes are mapped.
  predicate Mapped(code: Code, a: U64) {
    a + 7 < TWO64 && forall x :: a <= x < a + 8 ==> x in code
  }

  function Peek(code: Code, a: U64): (w: Word)
    requires Mapped(code, a)
    ensures IsWord(w, a)
  {
    map x | x in code && a <= x < a + 8 :: code[x]
  }

  function Poke(code: Code, w: Word): (code': Code)
    ensures code'.Keys == code.Keys
  {
    map x | x in code :: if x in w then w[x] else code[x]
  }

  // ---- execution -----------------------------------------------------------------------------------------------

  predicate AtInt3(m: Machine) {
    m.at.rip in m.code && m.code[m.at.rip] == INT3
  }

  function AfterInt3(m: Machine): Machine {
    m.(at := m.at.(rip := Inc(m.at.rip)))
  }

  // One instruction: 0xcc traps with rip just past it, anything else is the processor's business.
  ghost predicate Executes(p: Program, m: Machine, o: Outcome) {
    if AtInt3(m) then o == Outcome(Traps, AfterInt3(m)) else p.next(m, o)
  }

  // A run: consecutive machines, each one instruction after the one before.
  ghost predicate IsRun(p: Program, run: seq<Machine>) {
    |run| > 0 && forall i :: 0 <= i < |run| - 1 ==> Follows(p, run, i)
  }

  ghost predicate Follows(p: Program, run: seq<Machine>, i: nat)
    requires i + 1 < |run|
  {
    Executes(p, run[i], Outcome(Continues, run[i + 1]))
  }

  function Last<T>(s: seq<T>): T
    requires |s| > 0
  {
    s[|s| - 1]
  }

  // What waitpid says of an outcome that stops or ends the child; single-stepping also stops after an ordinary
  // instruction, with SIGTRAP.
  function Report(o: Outcome): Wait {
    match o.event
    case Continues => Stopped(SIGTRAP, o.after)
    case Traps => Stopped(SIGTRAP, o.after)
    case Signals(sig) => Stopped(sig, o.after)
    case Exits(status) => Exited(status)
    case Dies(sig) => Died(sig)
  }

  // PTRACE_CONT from m: the child runs ordinary instructions until one stops or ends it.
  ghost predicate RunsInto(p: Program, run: seq<Machine>, m: Machine, o: Outcome) {
    IsRun(p, run) && run[0] == m && Executes(p, Last(run), o) && !o.event.Continues?
  }

  ghost predicate Resumes(p: Program, m: Machine, w: Wait) {
    exists run, o :: RunsInto(p, run, m, o) && w == Report(o)
  }

  // A run that a signal stops, the program ends or a signal ends is reported as just that.
  lemma ReportedAsItEnds(p: Program, run: seq<Machine>, m: Machine, o: Outcome)
    requires RunsInto(p, run, m, o)
    ensures o.event.Signals? ==> Resumes(p, m, Stopped(o.event.sig, o.after))
    ensures o.event.Traps? ==> Resumes(p, m, Stopped(5, o.after))
    ensures o.event.Exits? ==> Resumes(p, m, Exited(o.event.status))
    ensures o.event.Dies? ==> Resumes(p, m, Died(o.event.sig))
  {
    assert Resumes(p, m, Report(o));
  }

  // PTRACE_SINGLESTEP from m.
  ghost predicate SingleSteps(p: Program, m: Machine, w: Wait) {
    exists o :: Executes(p, m, o) && w == Report(o)
  }

  // ---- the program run without a debugger ----------------------------------------------------------------------

  // `run` is a run of the program as loaded, from its entry point.
  ghost predicate IsNativeRun(p: Program, run: seq<Machine>) {
    IsRun(p, run) && run[0] == Machine(p.code, p.entry)
  }

  // The undebugged program can be at this point.
  ghost predicate Reaches(p: Program, at: Point) {
    exists run :: IsNativeRun(p, run) && Last(run) == Machine(p.code, at)
  }

  // ---- assumptions on processors and programs ------------------------------------------------------------------

  // No instruction of the processor writes code bytes, as when they are mapped read-only.
  ghost predicate KeepsCode(p: Program) {
    forall m, o :: p.next(m, o) ==> o.after.code == m.code
  }

  // The two codes have the same bytes wherever the instruction at `at` is decoded from.
  ghost predicate SameFetch(p: Program, code1: Code, code2: Code, at: Point) {
    code1.Keys == code2.Keys
    && forall a :: a in code1 && at.rip <= a < at.rip + p.width(code1, at) ==> code1[a] == code2[a]
  }

  // Wherever the undebugged program goes, the instruction there uses code only by being decoded: with other bytes
  // around it, it can do exactly what it does in the program, and it leaves those bytes as they are.
  ghost predicate OnlyFetches(p: Program) {
    forall at, code {:trigger SameFetch(p, p.code, code, at)} :: Reaches(p, at) && SameFetch(p, p.code, code, at)
      ==> SameEffect(p, code, at)
  }

  ghost predicate SameEffect(p: Program, code: Code, at: Point) {
    && (forall o :: p.next(Machine(code, at), o) ==> o.after.code == code)
    && (forall event, at' {:trigger Outcome(event, Machine(code, at'))}
          {:trigger Outcome(event, Machine(p.code, at'))} ::
          p.next(Machine(p.code, at), Outcome(event, Machine(p.code, at')))
          <==> p.next(Machine(code, at), Outcome(event, Machine(code, at'))))
  }

  // Run without a debugger, the program meets no 0xcc of its own and no signal that stops it: it goes on, exits or
  // dies.
  ghost predicate Quiet(p: Program) {
    forall at, o :: Reaches(p, at) && Executes(p, Machine(p.code, at), o)
      ==> o.event.Continues? || o.event.Exits? || o.event.Dies?
  }

  // Breakpoint address a is never strictly inside an instruction the undebugged program executes.
  ghost predicate OnBoundary(p: Program, a: U64) {
    forall at :: Reaches(p, at) ==> !(at.rip < a < at.rip + p.width(p.code, at))
  }

  // ---- basic facts ---------------------------------------------------------------------------------------------

  // A poke that only changes the first byte of what is there changes that one byte of the code.
  lemma PokeLowByte(code: Code, a: U64, b: Byte)
    requires Mapped(code, a)
    ensures Poke(code, Peek(code, a)[a := b]) == code[a := b]
  {
    assert Poke(code, Peek(code, a)[a := b]).Keys == code[a := b].Keys;
  }

  // Poking back the word that was there before a poke at the same place undoes it.
  lemma PokeBack(code: Code, a: U64, w: Word)
    requires Mapped(code, a) && IsWord(w, a)
    ensures Poke(Poke(code, w), Peek(code, a)) == code
  {
    assert Poke(Poke(code, w), Peek(code, a)).Keys == code.Keys;
  }

  // A run that keeps the code has the same code throughout.
  lemma {:induction false} RunKeepsCode(p: Program, run: seq<Machine>, i: nat)
    requires KeepsCode(p) && IsRun(p, run) && i < |run|
    ensures run[i].code == run[0].code
  {
    if i > 0 {
      RunKeepsCode(p, run, i - 1);
      assert Follows(p, run, i - 1);
    }
  }

  // A point one instruction after a reachable one is reachable.
  lemma ReachesNext(p: Program, at: Point, at': Point)
    requires Reaches(p, at) && Executes(p, Machine(p.code, at), Outcome(Continues, Machine(p.code, at')))
    ensures Reaches(p, at')
  {
    var run :| IsNativeRun(p, run) && Last(run) == Machine(p.code, at);
    var run' := run + [Machine(p.code, at')];
    forall i | 0 <= i < |run'| - 1 ensures Follows(p, run', i) {
      if i < |run| - 1 { assert Follows(p, run, i); }
    }
    assert IsNativeRun(p, run') && Last(run') == Machine(p.code, at');
  }

  lemma EntryReached(p: Program)
    ensures Reaches(p, p.entry)
  {
    var run := [Machine(p.code, p.entry)];
    assert IsNativeRun(p, run) && Last(run) == Machine(p.code, p.entry);
  }
}
