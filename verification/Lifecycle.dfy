// What each command does to the debugger itself: what it refuses, where it ends, what the end of a child leaves, and
// what a stop does to the child.
module Lifecycle {
  import opened Words
  import opened Tracee
  import opened Debugger
  import opened Commands
  import opened Stops
  import opened Integrity

  // ---- refusals and failures -----------------------------------------------------------------------------------

  // The eight bytes at a are there to be moved.
  predicate CanMove(s: Session, a: U64) {
    s.alive && a + 7 < 0x1_0000_0000_0000_0000 && forall x :: a <= x < a + 8 ==> x in s.child.code
  }

  // The command is answered with a message and nothing else.
  predicate Refused(s: Session, c: Command) {
    match c
    case Break(a) => s.phase != Running || !(s.lo <= a < s.hi)
    case Delete(id) => s.phase != Running || id < 0 || id >= |s.bps|
    case Continue(_) => s.phase != Running
    case StepInto(_) => s.phase != Running
    case StartIt(_) => s.phase != Loaded || s.pid != 0
    case RunIt(_, _) => s.phase == NonLoad
    case LoadIt(file) => s.phase != NonLoad || file.NoPath? || file.NotElf? || file.NotElf64?
    case SetReg(_, _) => s.phase != Running
  }

  // A system call fails, and with it the debugger.
  predicate Fails(s: Session, c: Command) {
    match c
    case Break(a) => s.phase == Running && s.lo <= a < s.hi && !CanMove(s, a)
    case Delete(id) => s.phase == Running && 0 <= id < |s.bps| && !s.alive
    case Continue(_) => s.phase == Running && !s.alive
    case StepInto(_) => s.phase == Running && !s.alive
    case StartIt(f) => s.phase == Loaded && f.ForkFailed?
    case RunIt(f, _) => (s.phase == Running && !s.alive) || (s.phase == Loaded && f.ForkFailed?)
    case LoadIt(file) => s.phase == NonLoad && file.Unreadable?
    case SetReg(_, _) => s.phase == Running && !s.alive
  }

  lemma RefusedChangesNothing(s: Session, c: Command)
    requires Refused(s, c)
    ensures Apply(s, c) == s
  {}

  // break, to the byte: 0xcc at the address and nowhere else, a new entry only for an address not listed, holding the
  // eight bytes as they were.
  lemma BreakExactly(s: Session, a: U64)
    requires !s.ended
    ensures s.Bp(a).ended <==> s.phase == Running && s.lo <= a < s.hi && !CanMove(s, a)
    ensures s.phase == Running && s.lo <= a < s.hi && CanMove(s, a) ==>
      if s.child.code[a] == 0xcc then s.Bp(a) == s
      else s.Bp(a) == s.(child := s.child.(code := s.child.code[a := 0xcc]), bps := s.Bp(a).bps)
    ensures s.phase == Running && s.lo <= a < s.hi && CanMove(s, a) && s.child.code[a] != 0xcc ==>
      if exists i :: 0 <= i < |s.bps| && s.bps[i].addr == a then s.Bp(a).bps == s.bps
      else
        var n := |s.bps|;
        && |s.Bp(a).bps| == n + 1 && s.Bp(a).bps[..n] == s.bps
        && s.Bp(a).bps[n].id == n && s.Bp(a).bps[n].addr == a
        && (forall x :: x in s.Bp(a).bps[n].orig <==> a <= x < a + 8)
        && (forall x :: a <= x < a + 8 ==> s.Bp(a).bps[n].orig[x] == s.child.code[x])
  {
    BpEffect(s, a);
  }

  // In every state a session can come to, a command ends the debugger exactly when a system call it makes fails.
  lemma EndsExactly(p: Program, ever: set<U64>, s: Session, c: Command)
    requires Bookkept(s) && Sound(p.code, ever, s) && !s.ended && Possible(p, s, c) && LeavesCode(s, c)
    ensures Apply(s, c).ended <==> Fails(s, c)
  {
    match c
    case Break(a) => BreakExactly(s, a);
    case Delete(id) =>
      if 0 <= id < |s.bps| && s.alive { RestoreKeepsSound(p.code, ever, s, id); }
    case Continue(w) => ContKeeps(p, ever, s, w);
    case StepInto(w) => SiKeeps(p, ever, s, w);
    case StartIt(_) =>
    case RunIt(f, w) =>
      if s.phase == Running {
        ContKeeps(p, ever, s, w);
      } else if s.phase == Loaded && f.Forked? {
        StartKeeps(p, ever, s, f);
        ContKeeps(p, ever, s.Start(f), w);
      }
    case LoadIt(_) =>
    case SetReg(_, _) =>
  }

  // So in every session from the start.
  lemma SessionEndsExactly(p: Program, cs: seq<Command>, c: Command)
    requires AllPossible(p, INITIAL, cs) && AllLeaveCode(INITIAL, cs) && !ApplyAll(INITIAL, cs).ended
    requires var s := ApplyAll(INITIAL, cs); Possible(p, s, c) && LeavesCode(s, c)
    ensures var s := ApplyAll(INITIAL, cs); Apply(s, c).ended <==> Fails(s, c)
  {
    SessionKeeps(p, {}, INITIAL, cs);
    EndsExactly(p, {} + EverListed(INITIAL, cs), ApplyAll(INITIAL, cs), c);
  }

  // delete, to the byte: the eight bytes saved are back, nothing else of the child changes, and the entry is gone.
  lemma DeleteExactly(s: Session, id: nat)
    requires s.phase == Running && id < |s.bps| && CanMove(s, s.bps[id].addr) && IsWord(s.bps[id].orig, s.bps[id].addr)
    ensures var b, t := s.bps[id], s.Del(id);
      && t == s.(child := s.child.(code := t.child.code), bps := t.bps) && t.child.code.Keys == s.child.code.Keys
      && (forall x :: x in s.child.code ==>
            t.child.code[x] == if b.addr <= x < b.addr + 8 then b.orig[x] else s.child.code[x])
      && |t.bps| == |s.bps| - 1 && t.bps[..id] == s.bps[..id]
      && (forall j :: id <= j < |t.bps| ==>
            t.bps[j].id == j && t.bps[j].addr == s.bps[j + 1].addr && t.bps[j].orig == s.bps[j + 1].orig)
  {}

  // ---- the end of a child --------------------------------------------------------------------------------------

  // cont, si, or run of a running child, answered by w.
  predicate ResumesWith(c: Command, w: Wait) {
    match c
    case Continue(w') => w' == w
    case StepInto(w') => w' == w
    case RunIt(_, w') => w' == w
    case _ => false
  }

  // When the child exits the debugger is as after load, with its list: start works again.
  lemma ExitUnloadsChild(p: Program, ever: set<U64>, s: Session, c: Command, status: nat)
    requires Bookkept(s) && Sound(p.code, ever, s) && s.phase == Running && s.alive && !s.ended
    requires ResumesWith(c, Exited(status))
    ensures var t := Apply(s, c);
      t.phase == Loaded && t.pid == 0 && !t.alive && !t.ended && t.bps == s.bps && t.lo == s.lo && t.hi == s.hi
  {
    ChkbpKeeps(p.code, ever, s);
  }

  // When it is killed by a signal, state and pid stay: start is refused, and resuming again ends the debugger.
  lemma DeathKeepsState(p: Program, ever: set<U64>, s: Session, c: Command, sig: nat)
    requires Bookkept(s) && Sound(p.code, ever, s) && s.phase == Running && s.alive && !s.ended
    requires ResumesWith(c, Died(sig))
    ensures var t := Apply(s, c);
      && t.phase == Running && t.pid == s.pid && !t.alive && !t.ended && t.bps == s.bps && t.lo == s.lo && t.hi == s.hi
      && (forall f :: Apply(t, StartIt(f)) == t)
      && (forall w :: Apply(t, Continue(w)).ended && Apply(t, StepInto(w)).ended)
      && (forall f, w :: Apply(t, RunIt(f, w)).ended)
  {
    ChkbpKeeps(p.code, ever, s);
  }

  // A child that has exited can be started again: the new one has the program's own code, and its first resumption
  // arms the breakpoints of the old one that lie above the entry point.
  lemma StartAfterExit(p: Program, ever: set<U64>, s: Session, c: Command, status: nat, pid: int)
    requires Bookkept(s) && Sound(p.code, ever, s) && s.phase == Running && s.alive && !s.ended
    requires ResumesWith(c, Exited(status)) && pid > 0
    ensures var t := ApplyAll(s, [c, StartIt(Forked(pid, Machine(p.code, p.entry)))]);
      && t.phase == Running && t.pid == pid && t.alive && !t.ended && t.bps == s.bps
      && t.child == Machine(p.code, p.entry)
      && !t.Chkbp().ended && t.Chkbp().child.at == p.entry && t.Chkbp().child.code.Keys == p.code.Keys
      && forall x :: x in p.code ==>
           t.Chkbp().child.code[x] == if Listed(s.bps, x) && x > p.entry.rip then 0xcc else p.code[x]
  {
    var s1 := Apply(s, c);
    var f := Forked(pid, Machine(p.code, p.entry));
    ExitUnloadsChild(p, ever, s, c, status);
    ContOrSiKeeps(p, ever, s, c, Exited(status));
    RestartRearms(p, ever, s1, f);
    assert [c, StartIt(f)][1..] == [StartIt(f)];
    assert ApplyAll(s1, [StartIt(f)]) == s1.Start(f);
  }

  lemma ContOrSiKeeps(p: Program, ever: set<U64>, s: Session, c: Command, w: Wait)
    requires Bookkept(s) && Sound(p.code, ever, s) && s.phase == Running && !s.ended
    requires ResumesWith(c, w) && !w.Stopped?
    ensures Bookkept(Apply(s, c)) && Sound(p.code, ever, Apply(s, c))
  {
    match c
    case Continue(_) => ContKeeps(p, ever, s, w);
    case StepInto(_) => SiKeeps(p, ever, s, w);
    case RunIt(_, _) => ContKeeps(p, ever, s, w);
  }

  // ---- stops ---------------------------------------------------------------------------------------------------

  // run of a running child is cont.
  lemma RunOfRunning(s: Session, f: Fork, w: Wait)
    requires s.phase == Running
    ensures Apply(s, RunIt(f, w)) == Apply(s, Continue(w))
  {}

  // run of a loaded program is start, then cont.
  lemma RunOfLoaded(s: Session, f: Fork, w: Wait)
    requires s.phase == Loaded && s.pid == 0 && f.Forked?
    ensures Apply(s, RunIt(f, w)) == ApplyAll(s, [StartIt(f), Continue(w)])
  {
    var s1 := Apply(s, StartIt(f));
    assert [StartIt(f), Continue(w)][1..] == [Continue(w)];
    assert ApplyAll(s1, [Continue(w)]) == Apply(s1, Continue(w));
  }

  // A stop by any signal but SIGTRAP, which is 5, leaves the child exactly as reported.
  lemma OtherSignalsPass(p: Program, ever: set<U64>, s: Session, c: Command, sig: nat, child: Machine)
    requires Bookkept(s) && Sound(p.code, ever, s) && s.phase == Running && s.alive && !s.ended
    requires ResumesWith(c, Stopped(sig, child)) && sig != 5
    ensures Apply(s, c) == s.(child := child)
  {
    ChkbpKeeps(p.code, ever, s);
  }

  // A SIGTRAP one byte above breakpoint j, none listed later just below it: cont puts back its eight bytes and rip.
  lemma ContHit(p: Program, ever: set<U64>, s: Session, c: Command, child: Machine, j: nat)
    requires Bookkept(s) && Sound(p.code, ever, s) && s.phase == Running && s.alive && !s.ended
    requires (c.Continue? || c.RunIt?) && ResumesWith(c, Stopped(5, child)) && LeavesCode(s, c)
    requires j < |s.bps| && s.bps[j].addr as int + 1 == child.at.rip
    requires forall k :: j < k < |s.bps| ==> s.bps[k].addr as int + 1 != s.bps[j].addr
    ensures var t := Apply(s, c); var b := s.bps[j];
      && t == s.(child := t.child) && t.child.at == child.at.(rip := b.addr)
      && t.child.code.Keys == child.code.Keys
      && forall x :: x in child.code ==>
           t.child.code[x] == if b.addr <= x < b.addr + 8 then b.orig[x] else child.code[x]
  {
    ChkbpKeeps(p.code, ever, s);
    var stopped := s.Chkbp().(child := child);
    ContShape(s, Stopped(5, child));
    SoundIsReachable(p.code, ever, stopped);
    assert SoundWord(p.code, ever, s.bps[j]);
    assert NoneJustBelow(s.bps, j);
    HitExact(stopped, j);
  }

  // A SIGTRAP at breakpoint j: si puts back its eight bytes.
  lemma SiHit(p: Program, ever: set<U64>, s: Session, child: Machine, j: nat)
    requires Bookkept(s) && Sound(p.code, ever, s) && s.phase == Running && s.alive && !s.ended
    requires LeavesCode(s, StepInto(Stopped(5, child))) && j < |s.bps| && s.bps[j].addr == child.at.rip
    ensures var t := Apply(s, StepInto(Stopped(5, child))); var b := s.bps[j];
      && t == s.(child := t.child) && t.child.at == child.at && t.child.code.Keys == child.code.Keys
      && forall x :: x in child.code ==>
           t.child.code[x] == if b.addr <= x < b.addr + 8 then b.orig[x] else child.code[x]
  {
    ChkbpKeeps(p.code, ever, s);
    var stopped := s.Chkbp().(child := child);
    SiShape(s, Stopped(5, child));
    SoundIsReachable(p.code, ever, stopped);
    assert SoundWord(p.code, ever, s.bps[j]);
    LandExact(stopped, 0, j);
  }

  // ---- the first commands --------------------------------------------------------------------------------------

  // Before a program is loaded every other command is refused; load and start then give a running child and an empty
  // list.
  lemma FirstCommands(c: Command, sections: seq<Section>, pid: int, child: Machine)
    ensures !c.LoadIt? ==> Apply(INITIAL, c) == INITIAL
    ensures var s := ApplyAll(INITIAL, [LoadIt(Elf64(sections)), StartIt(Forked(pid, child))]);
      s.phase == Running && s.pid == pid && s.alive && !s.ended && s.bps == [] && s.child == child
  {
    var cs := [LoadIt(Elf64(sections)), StartIt(Forked(pid, child))];
    var s1 := Apply(INITIAL, cs[0]);
    assert cs[1..] == [StartIt(Forked(pid, child))];
    assert ApplyAll(s1, cs[1..]) == Apply(s1, cs[1]);
  }
}
