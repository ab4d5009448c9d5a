// Debugging is transparent: at every stop the child's registers and data are a state of the undebugged program.
//
// Assumed of the program, wherever it goes when run on its own: it neither writes code nor reads it as data, and meets
// neither a 0xcc of its own nor a stopping signal. Assumed of the user, command by command: `Prudent`.
module Transparency {
  import opened Words
  import opened Tracee
  import opened Debugger
  import opened Commands
  import opened Stops
  import opened Integrity
  import opened Undo

  ghost predicate Ordinary(p: Program) {
    OnlyFetches(p) && Quiet(p)
  }

  // Every injected 0xcc belongs to a listed breakpoint, breakpoints sit on instruction starts, none is listed after
  // one that is a byte above it, and a live child is where the undebugged program can be.
  ghost predicate Transparent(p: Program, s: Session) {
    && Settled(p.code, s)
    && (forall i :: 0 <= i < |s.bps| ==> NoneJustBelow(s.bps, i) && OnBoundary(p, s.bps[i].addr))
    && (s.alive ==> Reaches(p, s.child.at))
  }

  // What the user must mind. `break`: the address starts an instruction and no breakpoint is listed one byte above
  // it. `delete`: no other saved word holds the entry's 0xcc. `si`: the byte at rip is not patched. No `set`.
  ghost predicate Prudent(p: Program, s: Session, c: Command) {
    match c
    case Break(a) => Adds(s, a) ==> OnBoundary(p, a) && !Listed(s.bps, Inc(a))
    case Delete(id) => 0 <= id < |s.bps| ==> NotHeld(s.bps, id)
    case StepInto(_) => s.alive ==> !AtInt3(s.child)
    case SetReg(_, _) => false
    case _ => true
  }

  ghost predicate AllPrudent(p: Program, s: Session, cs: seq<Command>)
    decreases cs
  {
    cs == [] || (Prudent(p, s, cs[0]) && AllPrudent(p, Apply(s, cs[0]), cs[1..]))
  }

  // ---- one instruction, patched and unpatched ------------------------------------------------------------------

  // `code` is the program's with 0xcc over some instruction starts.
  ghost predicate Patched(p: Program, code: Code) {
    code.Keys == p.code.Keys
    && forall a :: a in code && code[a] != p.code[a] ==> code[a] == INT3 && OnBoundary(p, a)
  }

  lemma TransparentIsPatched(p: Program, s: Session)
    requires Transparent(p, s) && s.alive
    ensures Patched(p, s.child.code)
  {
    forall a | a in s.child.code && s.child.code[a] != p.code[a] ensures s.child.code[a] == INT3 && OnBoundary(p, a) {
      assert OwnOrInt3(p.code, Addrs(s.bps), a, s.child.code[a]);
      var i :| 0 <= i < |s.bps| && s.bps[i].addr == a;
    }
  }

  // The program never stands on a 0xcc of its own.
  lemma NoOwnInt3(p: Program, at: Point)
    requires Quiet(p) && Reaches(p, at)
    ensures !AtInt3(Machine(p.code, at))
  {
    var m := Machine(p.code, at);
    if AtInt3(m) {
      assert Executes(p, m, Outcome(Traps, AfterInt3(m)));
    }
  }

  // Where the patched code has no 0xcc at rip, it does what the program's own code does.
  lemma PatchedFetch(p: Program, code: Code, at: Point)
    requires Ordinary(p) && Patched(p, code) && Reaches(p, at) && !AtInt3(Machine(code, at))
    ensures SameEffect(p, code, at)
  {
    NoOwnInt3(p, at);
    assert SameFetch(p, p.code, code, at);
  }

  lemma SameInstruction(p: Program, code: Code, at: Point, event: Event, at': Point)
    requires Ordinary(p) && Patched(p, code) && Reaches(p, at) && !AtInt3(Machine(code, at))
    ensures Executes(p, Machine(code, at), Outcome(event, Machine(code, at')))
      <==> Executes(p, Machine(p.code, at), Outcome(event, Machine(p.code, at')))
  {
    NoOwnInt3(p, at);
    PatchedFetch(p, code, at);
    assert Outcome(event, Machine(p.code, at')).event == event;
  }

  // What an instruction of the patched code leads to, seen natively.
  lemma NativeOutcome(p: Program, code: Code, at: Point, o: Outcome)
    requires Ordinary(p) && Patched(p, code) && Reaches(p, at) && !AtInt3(Machine(code, at))
    requires Executes(p, Machine(code, at), o)
    ensures o.after.code == code
    ensures Executes(p, Machine(p.code, at), Outcome(o.event, Machine(p.code, o.after.at)))
    ensures o.event.Continues? || o.event.Exits? || o.event.Dies?
    ensures o.event.Continues? ==> Reaches(p, o.after.at)
  {
    PatchedFetch(p, code, at);
    assert o == Outcome(o.event, Machine(code, o.after.at));
    SameInstruction(p, code, at, o.event, o.after.at);
    if o.event.Continues? {
      ReachesNext(p, at, o.after.at);
    }
  }

  // ---- runs ----------------------------------------------------------------------------------------------------

  // A run of the patched code from a point the program reaches stays on points the program reaches.
  lemma {:induction false} RunStaysNative(p: Program, run: seq<Machine>, i: nat)
    requires Ordinary(p) && IsRun(p, run) && i < |run|
    requires Patched(p, run[0].code) && Reaches(p, run[0].at)
    ensures run[i].code == run[0].code && Reaches(p, run[i].at)
    ensures i < |run| - 1 ==> !AtInt3(run[i])
  {
    if i > 0 {
      RunStaysNative(p, run, i - 1);
      assert Follows(p, run, i - 1);
      NativeOutcome(p, run[0].code, run[i - 1].at, Outcome(Continues, run[i]));
    }
    if i < |run| - 1 {
      assert Follows(p, run, i);
    }
  }

  // The undebugged program can come to an end with this exit status.
  ghost predicate NativeExits(p: Program, status: nat) {
    exists at, after :: Reaches(p, at) && Executes(p, Machine(p.code, at), Outcome(Exits(status), after))
  }

  // Resuming patched code from a native point: a stop is at a 0xcc the program walked up to, an exit is its own.
  lemma ResumeOutcome(p: Program, m: Machine, w: Wait)
    requires Ordinary(p) && Patched(p, m.code) && Reaches(p, m.at) && Resumes(p, m, w)
    ensures w.Stopped? ==> w.sig == SIGTRAP && exists last: Machine ::
      last.code == m.code && Reaches(p, last.at) && AtInt3(last) && w.child == AfterInt3(last)
    ensures w.Exited? ==> NativeExits(p, w.status)
  {
    var run, o :| RunsInto(p, run, m, o) && w == Report(o);
    var last := Last(run);
    RunStaysNative(p, run, |run| - 1);
    if !AtInt3(last) {
      NativeOutcome(p, m.code, last.at, o);
    }
  }

  // ---- cont ----------------------------------------------------------------------------------------------------

  lemma ChkbpTransparent(p: Program, s: Session)
    requires Ordinary(p) && Transparent(p, s) && s.phase == Running && s.alive && !s.ended
    ensures Transparent(p, s.Chkbp()) && Patched(p, s.Chkbp().child.code) && !s.Chkbp().ended && s.Chkbp().alive
    ensures s.Chkbp() == s.(child := s.child.(code := s.Chkbp().child.code))
    ensures AtInt3(s.Chkbp().child) <==> AtInt3(s.child)
  {
    ChkbpKeeps(p.code, Addrs(s.bps), s);
    TransparentIsPatched(p, s.Chkbp());
  }

  // After a trap at breakpoint address `last.at.rip`, cont is back at the point the trap interrupted.
  lemma HitReturns(p: Program, s: Session, last: Machine)
    requires Ordinary(p) && Transparent(p, s) && s.alive && !s.ended
    requires AtInt3(last) && last.code == s.child.code && Reaches(p, last.at)
    ensures var t := s.(child := AfterInt3(last)).HitFrom(0);
      t.child.at == last.at && t.bps == s.bps && t.alive && !t.ended && t.phase == s.phase
      && Listed(s.bps, last.at.rip) && !AtInt3(t.child)
  {
    var a := last.at.rip;
    NoOwnInt3(p, last.at);
    assert OwnOrInt3(p.code, Addrs(s.bps), a, last.code[a]);
    var j :| 0 <= j < |s.bps| && s.bps[j].addr == a;
    var stopped := s.(child := AfterInt3(last));
    DecInc(a);
    SoundIsReachable(p.code, Addrs(s.bps), s);
    HitExact(stopped, j);
    assert SoundWord(p.code, Addrs(s.bps), s.bps[j]);
    assert stopped.HitFrom(0).child.at == last.at;
  }

  lemma ContTransparent(p: Program, s: Session, w: Wait)
    requires Ordinary(p) && Transparent(p, s) && !s.ended && ContPossible(p, s, w)
    ensures Transparent(p, s.Cont(w))
    ensures s.phase == Running && s.alive && w.Stopped? ==>
      var t := s.Cont(w);
      t.alive && !t.ended && Listed(t.bps, t.Rip()) && !AtInt3(t.child)
    ensures s.phase == Running && s.alive && w.Exited? ==> NativeExits(p, w.status)
  {
    if s.phase == Running && s.alive {
      ChkbpTransparent(p, s);
      var armed := s.Chkbp();
      ResumeOutcome(p, armed.child, w);
      ContShape(s, w);
      if w.Stopped? {
        var last: Machine :| last.code == armed.child.code && Reaches(p, last.at) && AtInt3(last)
                             && w.child == AfterInt3(last);
        HitReturns(p, armed, last);
      }
    }
    ContKeeps(p, Addrs(s.bps), s, w);
  }

  // ---- si ------------------------------------------------------------------------------------------------------

  lemma {:induction false} LandStays(s: Session, i: nat)
    ensures s.LandFrom(i).child.at == s.child.at && s.LandFrom(i).alive == s.alive
    ensures s.LandFrom(i).phase == s.phase && s.LandFrom(i).bps == s.bps
    decreases |s.bps| - i
  {
    if !s.ended && i < |s.bps| {
      LandStays(s, i + 1);
      LandStays(s.Poked(s.bps[i].orig), i + 1);
    }
  }

  lemma MovedTransparent(p: Program, s: Session, at: Point)
    requires Transparent(p, s) && Reaches(p, at)
    ensures Transparent(p, s.(child := Machine(s.child.code, at)))
  {}

  lemma LandsClean(p: Program, s: Session)
    requires Ordinary(p) && Transparent(p, s) && s.alive && !s.ended
    ensures !AtInt3(s.LandFrom(0).child)
  {
    var a := s.Rip();
    NoOwnInt3(p, s.child.at);
    SoundIsReachable(p.code, Addrs(s.bps), s);
    if j :| 0 <= j < |s.bps| && s.bps[j].addr == a {
      LandExact(s, 0, j);
      assert SoundWord(p.code, Addrs(s.bps), s.bps[j]);
    } else {
      LandMiss(s, 0);
      if a in s.child.code { assert OwnOrInt3(p.code, Addrs(s.bps), a, s.child.code[a]); }
    }
  }

  lemma Landed(p: Program, s: Session, at: Point)
    requires Ordinary(p) && Transparent(p, s) && s.alive && !s.ended && Reaches(p, at)
    ensures var t := s.(child := Machine(s.child.code, at)).LandFrom(0);
      t.alive && t.phase == s.phase && t.bps == s.bps && t.child.at == at && !AtInt3(t.child)
  {
    var moved := s.(child := Machine(s.child.code, at));
    MovedTransparent(p, s, at);
    LandStays(moved, 0);
    LandsClean(p, moved);
  }

  // A single step of patched code.
  lemma StepOutcome(p: Program, m: Machine, w: Wait)
    requires Ordinary(p) && Patched(p, m.code) && Reaches(p, m.at) && !AtInt3(m) && SingleSteps(p, m, w)
    ensures w.Stopped? ==>
      && w.sig == SIGTRAP && w.child.code == m.code && Reaches(p, w.child.at)
      && Executes(p, Machine(p.code, m.at), Outcome(Continues, Machine(p.code, w.child.at)))
    ensures w.Exited? ==> NativeExits(p, w.status)
  {
    var o :| Executes(p, m, o) && w == Report(o);
    NativeOutcome(p, m.code, m.at, o);
  }

  // With the byte at rip unpatched, si executes exactly the instruction there and stops with the byte at the new rip
  // unpatched again.
  lemma SiTransparent(p: Program, s: Session, w: Wait)
    requires Ordinary(p) && Transparent(p, s) && !s.ended && SiPossible(p, s, w)
    requires s.alive ==> !AtInt3(s.child)
    ensures Transparent(p, s.Si(w))
    ensures s.phase == Running && s.alive && w.Stopped? ==>
      var t := s.Si(w);
      && t.alive && !AtInt3(t.child)
      && Executes(p, Machine(p.code, s.child.at), Outcome(Continues, Machine(p.code, t.child.at)))
    ensures s.phase == Running && s.alive && w.Exited? ==> NativeExits(p, w.status)
  {
    if s.phase == Running && s.alive {
      ChkbpTransparent(p, s);
      StepOutcome(p, s.Chkbp().child, w);
      SiShape(s, w);
      if w.Stopped? { Landed(p, s.Chkbp(), w.child.at); }
    }
    SiKeeps(p, Addrs(s.bps), s, w);
  }

  // With the byte at rip patched (a `break` at the current instruction, say), si executes no instruction of the
  // program: it leaves registers and data alone and rip one byte on.
  lemma SiOnPatchedByte(p: Program, s: Session, w: Wait)
    requires Ordinary(p) && Transparent(p, s) && s.phase == Running && s.alive && !s.ended && SiPossible(p, s, w)
    requires AtInt3(s.child)
    ensures w.Stopped? && s.Si(w).child.at == s.child.at.(rip := Inc(s.Rip()))
  {
    ChkbpTransparent(p, s);
    LandStays(s.Chkbp().Waited(w), 0);
  }

  // So si is one instruction of the undebugged program exactly when the byte at rip is unpatched, or the instruction
  // there does nothing but go one byte on.
  lemma SiStepsExactly(p: Program, s: Session, w: Wait)
    requires Ordinary(p) && Transparent(p, s) && s.phase == Running && s.alive && !s.ended && SiPossible(p, s, w)
    requires w.Stopped?
    ensures var here := Machine(p.code, s.child.at);
      Executes(p, here, Outcome(Continues, Machine(p.code, s.Si(w).child.at)))
      <==> !AtInt3(s.child)
           || Executes(p, here, Outcome(Continues, Machine(p.code, s.child.at.(rip := Inc(s.Rip())))))
  {
    if AtInt3(s.child) {
      SiOnPatchedByte(p, s, w);
    } else {
      SiTransparent(p, s, w);
    }
  }

  // ---- the other commands --------------------------------------------------------------------------------------

  lemma BreakTransparent(p: Program, s: Session, a: U64)
    requires Transparent(p, s) && !s.ended && Prudent(p, s, Break(a))
    ensures Transparent(p, s.Bp(a))
  {
    var t := s.Bp(a);
    BpEffect(s, a);
    BpLists(s, a);
    BpKeepsBookkept(s, a);
    SoundForMore(p.code, Addrs(s.bps), Addrs(t.bps), s);
    BpKeepsSound(p.code, Addrs(t.bps), s, a);
    if Adds(s, a) {
      var n := |s.bps|;
      forall i | 0 <= i < |t.bps| ensures NoneJustBelow(t.bps, i) && OnBoundary(p, t.bps[i].addr) {
        if i < n {
          assert NoneJustBelow(s.bps, i);
          assert Dec(s.bps[i].addr) != a by { DecInc(s.bps[i].addr); DecInc(a); }
        }
      }
    }
  }

  lemma DeleteTransparent(p: Program, s: Session, id: int)
    requires Transparent(p, s) && !s.ended && Prudent(p, s, Delete(id))
    ensures Transparent(p, s.Del(id))
  {
    DelKeeps(p.code, Addrs(s.bps), s, id);
    if s.phase == Running && 0 <= id < |s.bps| {
      if s.alive {
        DelSettles(p.code, s, id);
        EraseKeepsOrder(p, s.bps, id);
      }
    }
  }

  lemma EraseKeepsOrder(p: Program, bps: seq<Breakpoint>, id: nat)
    requires id < |bps| && forall i :: 0 <= i < |bps| ==> NoneJustBelow(bps, i) && OnBoundary(p, bps[i].addr)
    ensures forall i :: 0 <= i < |bps| - 1 ==> NoneJustBelow(Erase(bps, id), i) && OnBoundary(p, Erase(bps, id)[i].addr)
  {
    var r := Erase(bps, id);
    forall i | 0 <= i < |r| ensures NoneJustBelow(r, i) && OnBoundary(p, r[i].addr) {
      var i' := if i < id then i else i + 1;
      assert r[i].addr == bps[i'].addr && NoneJustBelow(bps, i');
      forall k | i < k < |r| ensures r[k].addr != Dec(r[i].addr) {
        assert r[k].addr == bps[if k < id then k else k + 1].addr;
      }
    }
  }

  lemma StartTransparent(p: Program, s: Session, f: Fork)
    requires Transparent(p, s) && ForkPossible(p, f)
    ensures Transparent(p, s.Start(f))
  {
    StartKeeps(p, Addrs(s.bps), s, f);
    EntryReached(p);
  }

  // ---- sessions ------------------------------------------------------------------------------------------------

  lemma CommandTransparent(p: Program, s: Session, c: Command)
    requires Ordinary(p) && Transparent(p, s) && Possible(p, s, c) && Prudent(p, s, c)
    ensures Transparent(p, Apply(s, c))
  {
    if !s.ended {
      match c
      case Break(a) => BreakTransparent(p, s, a);
      case Delete(id) => DeleteTransparent(p, s, id);
      case Continue(w) => ContTransparent(p, s, w);
      case StepInto(w) => SiTransparent(p, s, w);
      case StartIt(f) => StartTransparent(p, s, f);
      case RunIt(f, w) =>
        if s.phase == Running {
          ContTransparent(p, s, w);
        } else if s.phase == Loaded {
          StartTransparent(p, s, f);
          if !s.Start(f).ended { ContTransparent(p, s.Start(f), w); }
        }
      case LoadIt(_) =>
    }
  }

  lemma {:induction false} SessionTransparent(p: Program, s: Session, cs: seq<Command>)
    requires Ordinary(p) && Transparent(p, s) && AllPossible(p, s, cs) && AllPrudent(p, s, cs)
    ensures Transparent(p, ApplyAll(s, cs))
    decreases cs
  {
    if cs != [] {
      CommandTransparent(p, s, cs[0]);
      SessionTransparent(p, Apply(s, cs[0]), cs[1..]);
    }
  }

  // Keeping listed addresses a word apart is one way of minding both `break` and `delete`.
  lemma SpacedIsPrudent(p: Program, s: Session, a: U64, id: int)
    requires Transparent(p, s) && Spaced(s.bps)
    ensures Prudent(p, s, Delete(id))
    ensures Spaced(s.Bp(a).bps) && OnBoundary(p, a) ==> Prudent(p, s, Break(a))
  {
    forall j | 0 <= j < |s.bps| ensures SoundWord(p.code, Addrs(s.bps), s.bps[j]) {}
    if 0 <= id < |s.bps| { SpacedNotHeld(s.bps, id); }
    if Adds(s, a) && Spaced(s.Bp(a).bps) {
      BpEffect(s, a);
      var t := s.Bp(a);
      forall i | 0 <= i < |s.bps| ensures s.bps[i].addr != Inc(a) {
        assert t.bps[i] == s.bps[i] && t.bps[|s.bps|].addr == a;
      }
    }
  }

  // The whole statement for a debugger that has just started.
  lemma DebuggingIsTransparent(p: Program, cs: seq<Command>)
    requires Ordinary(p) && AllPossible(p, INITIAL, cs) && AllPrudent(p, INITIAL, cs)
    ensures var s := ApplyAll(INITIAL, cs); s.alive ==> Reaches(p, s.child.at)
  {
    SessionTransparent(p, INITIAL, cs);
  }

  // ---- cont stops exactly where it should ----------------------------------------------------------------------

  // A run of the undebugged program from where m is to `at`, the first point on the way with a 0xcc in m's code.
  ghost predicate FirstInt3(p: Program, m: Machine, run: seq<Machine>, at: Point) {
    && IsRun(p, run) && run[0] == Machine(p.code, m.at) && Last(run) == Machine(p.code, at)
    && (forall i :: 0 <= i < |run| - 1 ==> !AtInt3(m.(at := run[i].at)))
    && AtInt3(m.(at := at))
  }

  function WithCode(run: seq<Machine>, code: Code): (r: seq<Machine>)
    ensures |r| == |run| && forall i {:trigger r[i]} :: 0 <= i < |run| ==> r[i] == Machine(code, run[i].at)
  {
    seq(|run|, i requires 0 <= i < |run| => Machine(code, run[i].at))
  }

  lemma RunWithNativeCode(p: Program, run: seq<Machine>)
    requires Ordinary(p) && IsRun(p, run) && Patched(p, run[0].code) && Reaches(p, run[0].at)
    ensures IsRun(p, WithCode(run, p.code))
  {
    var native := WithCode(run, p.code);
    forall i | 0 <= i < |native| - 1 ensures Follows(p, native, i) {
      RunStaysNative(p, run, i);
      RunStaysNative(p, run, i + 1);
      assert Follows(p, run, i);
      SameInstruction(p, run[0].code, run[i].at, Continues, run[i + 1].at);
    }
  }

  lemma NativeRunReaches(p: Program, run: seq<Machine>, i: nat)
    requires Ordinary(p) && IsRun(p, run) && i < |run| && run[0].code == p.code && Reaches(p, run[0].at)
    ensures run[i].code == p.code && Reaches(p, run[i].at)
  {
    RunStaysNative(p, run, i);
  }

  lemma RunWithPatchedCode(p: Program, run: seq<Machine>, code: Code)
    requires Ordinary(p) && IsRun(p, run) && run[0].code == p.code && Reaches(p, run[0].at) && Patched(p, code)
    requires forall i :: 0 <= i < |run| - 1 ==> !AtInt3(Machine(code, run[i].at))
    ensures IsRun(p, WithCode(run, code))
  {
    var patched := WithCode(run, code);
    forall i | 0 <= i < |patched| - 1 ensures Follows(p, patched, i) {
      NativeRunReaches(p, run, i);
      NativeRunReaches(p, run, i + 1);
      assert Follows(p, run, i);
      SameInstruction(p, code, run[i].at, Continues, run[i + 1].at);
    }
  }

  // Soundness: wherever the patched child stops, the undebugged program comes first among the 0xcc bytes.
  lemma StopsAtFirstInt3(p: Program, m: Machine, w: Wait) returns (run: seq<Machine>, at: Point)
    requires Ordinary(p) && Patched(p, m.code) && Reaches(p, m.at) && Resumes(p, m, w) && w.Stopped?
    ensures FirstInt3(p, m, run, at) && Reaches(p, at) && w == Stopped(SIGTRAP, AfterInt3(m.(at := at)))
  {
    var patched, o :| RunsInto(p, patched, m, o) && w == Report(o);
    StopsOnInt3(p, patched, o);
    at := Last(patched).at;
    run := WithCode(patched, p.code);
    RunWithNativeCode(p, patched);
    forall i | 0 <= i < |run| - 1 ensures !AtInt3(m.(at := run[i].at)) {
      RunStaysNative(p, patched, i);
    }
  }

  lemma StopsOnInt3(p: Program, run: seq<Machine>, o: Outcome)
    requires Ordinary(p) && IsRun(p, run) && Patched(p, run[0].code) && Reaches(p, run[0].at)
    requires Executes(p, Last(run), o) && !o.event.Continues? && Report(o).Stopped?
    ensures AtInt3(Last(run)) && Last(run).code == run[0].code && Reaches(p, Last(run).at)
    ensures Report(o) == Stopped(SIGTRAP, AfterInt3(Last(run)))
  {
    RunStaysNative(p, run, |run| - 1);
    if !AtInt3(Last(run)) { NativeOutcome(p, run[0].code, Last(run).at, o); }
  }

  // Completeness: the patched child can stop at every such point.
  lemma CanStopAtFirstInt3(p: Program, m: Machine, run: seq<Machine>, at: Point)
    requires Ordinary(p) && Patched(p, m.code) && Reaches(p, m.at) && FirstInt3(p, m, run, at)
    ensures Resumes(p, m, Stopped(SIGTRAP, AfterInt3(m.(at := at)))) && Reaches(p, at)
  {
    RunWithPatchedCode(p, run, m.code);
    var patched := WithCode(run, m.code);
    var last := m.(at := at);
    assert Last(patched) == last;
    var o := Outcome(Traps, AfterInt3(last));
    assert RunsInto(p, patched, m, o);
    NativeRunReaches(p, run, |run| - 1);
  }

  // cont can stop at a point exactly when the undebugged program can get there from here, and it is the first point on
  // that way where the resumed code holds a 0xcc.
  lemma ContStopsExactly(p: Program, s: Session, at: Point)
    requires Ordinary(p) && Transparent(p, s) && s.phase == Running && s.alive && !s.ended
    ensures (exists w: Wait :: w.Stopped? && Resumes(p, s.Chkbp().child, w) && s.Cont(w).child.at == at)
      <==> exists run :: FirstInt3(p, s.Chkbp().child, run, at)
  {
    ChkbpTransparent(p, s);
    var armed := s.Chkbp();
    if w: Wait :| w.Stopped? && Resumes(p, armed.child, w) && s.Cont(w).child.at == at {
      var run, at' := StopsAtFirstInt3(p, armed.child, w);
      HitReturns(p, armed, armed.child.(at := at'));
      ContShape(s, w);
    }
    if run :| FirstInt3(p, armed.child, run, at) {
      CanStopAtFirstInt3(p, armed.child, run, at);
      HitReturns(p, armed, armed.child.(at := at));
      ContShape(s, Stopped(SIGTRAP, AfterInt3(armed.child.(at := at))));
    }
  }

  // The program goes from its entry to `at`, and that is the first listed breakpoint above the entry point it meets.
  ghost predicate FirstBreakpoint(p: Program, bps: seq<Breakpoint>, run: seq<Machine>, at: Point) {
    && IsNativeRun(p, run) && Last(run) == Machine(p.code, at)
    && (forall i :: 0 <= i < |run| - 1 ==> !IsArmed(p, bps, run[i].at.rip))
    && IsArmed(p, bps, at.rip)
  }

  predicate IsArmed(p: Program, bps: seq<Breakpoint>, a: U64) {
    Listed(bps, a) && a > p.entry.rip
  }

  // run of a loaded program stops, if it stops, at the first listed breakpoint above the entry point that the program
  // meets on its own; it can stop at every such point, and nowhere else.
  lemma RunStopsExactly(p: Program, s: Session, f: Fork, at: Point)
    requires Ordinary(p) && Transparent(p, s) && s.phase == Loaded && !s.ended && f.Forked? && ForkPossible(p, f)
    ensures (exists w: Wait :: w.Stopped? && Possible(p, s, RunIt(f, w)) && s.Run(f, w).child.at == at)
      <==> exists run :: FirstBreakpoint(p, s.bps, run, at)
  {
    var t := s.Start(f);
    var armed := t.Chkbp().child;
    RestartRearms(p, Addrs(s.bps), s, f);
    StartTransparent(p, s, f);
    ContStopsExactly(p, t, at);
    forall run ensures FirstInt3(p, armed, run, at) <==> FirstBreakpoint(p, s.bps, run, at) {
      SameFirst(p, s.bps, armed, run, at);
    }
    forall w: Wait ensures Possible(p, s, RunIt(f, w)) <==> Resumes(p, armed, w) {
      RunResumes(p, s, f, w);
    }
  }

  lemma RunResumes(p: Program, s: Session, f: Fork, w: Wait)
    requires s.phase == Loaded && ForkPossible(p, f) && !s.Start(f).ended && s.Start(f).phase == Running
    requires s.Start(f).alive && !s.Start(f).Chkbp().ended
    ensures Possible(p, s, RunIt(f, w)) <==> Resumes(p, s.Start(f).Chkbp().child, w)
  {}

  lemma SameFirst(p: Program, bps: seq<Breakpoint>, armed: Machine, run: seq<Machine>, at: Point)
    requires Ordinary(p) && armed.at == p.entry && armed.code.Keys == p.code.Keys
    requires forall i :: 0 <= i < |bps| ==> bps[i].addr in p.code
    requires forall x :: x in p.code ==> armed.code[x] == if IsArmed(p, bps, x) then INT3 else p.code[x]
    ensures FirstInt3(p, armed, run, at) <==> FirstBreakpoint(p, bps, run, at)
  {
    if IsNativeRun(p, run) && Last(run) == Machine(p.code, at) {
      EntryReached(p);
      forall i | 0 <= i < |run|
        ensures AtInt3(armed.(at := run[i].at)) <==> IsArmed(p, bps, run[i].at.rip)
      {
        NativeRunReaches(p, run, i);
        NoOwnInt3(p, run[i].at);
      }
      assert run[|run| - 1].at == at;
    }
  }

  // run of a running child stops exactly where cont does.
  lemma RunningRunStopsExactly(p: Program, s: Session, f: Fork, at: Point)
    requires Ordinary(p) && Transparent(p, s) && s.phase == Running && s.alive && !s.ended && ForkPossible(p, f)
    ensures (exists w: Wait :: w.Stopped? && Possible(p, s, RunIt(f, w)) && s.Run(f, w).child.at == at)
      <==> exists run :: FirstInt3(p, s.Chkbp().child, run, at)
  {
    ChkbpTransparent(p, s);
    ContStopsExactly(p, s, at);
    forall w: Wait ensures Possible(p, s, RunIt(f, w)) <==> Resumes(p, s.Chkbp().child, w) {
      RunningRunPossible(p, s, f, w);
    }
  }

  lemma RunningRunPossible(p: Program, s: Session, f: Fork, w: Wait)
    requires s.phase == Running && s.alive && !s.Chkbp().ended && ForkPossible(p, f)
    ensures Possible(p, s, RunIt(f, w)) <==> Resumes(p, s.Chkbp().child, w)
  {}

  // An exit it is answered with is the program's own.
  lemma RunningRunExits(p: Program, s: Session, f: Fork, w: Wait)
    requires Ordinary(p) && Transparent(p, s) && s.phase == Running && s.alive && !s.ended
    requires Possible(p, s, RunIt(f, w)) && w.Exited?
    ensures NativeExits(p, w.status) && s.Run(f, w).phase == Loaded && s.Run(f, w).pid == 0
  {
    ChkbpTransparent(p, s);
    ContTransparent(p, s, w);
  }

  // ---- a debugged child's life is one run ----------------------------------------------------------------------

  // The undebugged program can go from a to b.
  ghost predicate Advances(p: Program, a: Point, b: Point) {
    exists run :: IsRun(p, run) && run[0] == Machine(p.code, a) && Last(run) == Machine(p.code, b)
  }

  lemma AdvancesNowhere(p: Program, a: Point)
    ensures Advances(p, a, a)
  {
    var run := [Machine(p.code, a)];
    assert IsRun(p, run) && Last(run) == Machine(p.code, a);
  }

  lemma AdvancesOn(p: Program, a: Point, b: Point, c: Point)
    requires Advances(p, a, b) && Advances(p, b, c)
    ensures Advances(p, a, c)
  {
    var r :| IsRun(p, r) && r[0] == Machine(p.code, a) && Last(r) == Machine(p.code, b);
    var q :| IsRun(p, q) && q[0] == Machine(p.code, b) && Last(q) == Machine(p.code, c);
    var run := r[..|r| - 1] + q;
    forall i | 0 <= i < |run| - 1 ensures Follows(p, run, i) {
      if i < |r| - 1 { assert Follows(p, r, i); } else { assert Follows(p, q, i - (|r| - 1)); }
    }
    assert IsRun(p, run) && Last(run) == Machine(p.code, c);
  }

  lemma ContAdvances(p: Program, s: Session, w: Wait)
    requires Ordinary(p) && Transparent(p, s) && s.phase == Running && s.alive && !s.ended && ContPossible(p, s, w)
    requires s.Cont(w).alive
    ensures Advances(p, s.child.at, s.Cont(w).child.at)
  {
    ChkbpTransparent(p, s);
    ContShape(s, w);
    var armed := s.Chkbp();
    var run, at := StopsAtFirstInt3(p, armed.child, w);
    HitReturns(p, armed, armed.child.(at := at));
  }

  lemma SiAdvances(p: Program, s: Session, w: Wait)
    requires Ordinary(p) && Transparent(p, s) && s.phase == Running && s.alive && !s.ended && SiPossible(p, s, w)
    requires !AtInt3(s.child) && s.Si(w).alive
    ensures Advances(p, s.child.at, s.Si(w).child.at)
  {
    ChkbpTransparent(p, s);
    SiShape(s, w);
    SiTransparent(p, s, w);
    var run := [Machine(p.code, s.child.at), Machine(p.code, s.Si(w).child.at)];
    assert Follows(p, run, 0);
    assert IsRun(p, run) && Last(run) == run[1];
  }

  lemma CommandAdvances(p: Program, s: Session, c: Command)
    requires Ordinary(p) && Transparent(p, s) && Possible(p, s, c) && Prudent(p, s, c)
    requires s.alive && Apply(s, c).alive
    ensures Advances(p, s.child.at, Apply(s, c).child.at)
  {
    AdvancesNowhere(p, s.child.at);
    if !s.ended {
      match c
      case Break(a) => BpEffect(s, a);
      case Delete(_) =>
      case Continue(w) => ContAdvances(p, s, w);
      case StepInto(w) => SiAdvances(p, s, w);
      case StartIt(_) =>
      case RunIt(_, w) => ContAdvances(p, s, w);
      case LoadIt(_) =>
    }
  }

  // The child lives through all the commands.
  predicate StaysAlive(s: Session, cs: seq<Command>)
    decreases cs
  {
    s.alive && (cs == [] || StaysAlive(Apply(s, cs[0]), cs[1..]))
  }

  // From any stop of a child to any later stop of the same child the undebugged program can go by itself: all the
  // stops of its life lie, in order, on one run of the program.
  lemma {:induction false} LifeIsOneRun(p: Program, s: Session, cs: seq<Command>)
    requires Ordinary(p) && Transparent(p, s) && AllPossible(p, s, cs) && AllPrudent(p, s, cs) && StaysAlive(s, cs)
    ensures Advances(p, s.child.at, ApplyAll(s, cs).child.at)
    decreases cs
  {
    if cs == [] {
      AdvancesNowhere(p, s.child.at);
    } else {
      var s' := Apply(s, cs[0]);
      CommandTransparent(p, s, cs[0]);
      CommandAdvances(p, s, cs[0]);
      LifeIsOneRun(p, s', cs[1..]);
      AdvancesOn(p, s.child.at, s'.child.at, ApplyAll(s, cs).child.at);
    }
  }
}
