// Invariants of every sequence of commands, from the moment the debugger starts, across overlapping saves and
// restores, deletions, register changes and restarts. No spacing between breakpoints is assumed.
module Integrity {
  import opened Words
  import opened Tracee
  import opened Debugger
  import opened Commands
  import opened Stops

  lemma SoundIsReachable(orig: Code, ever: set<U64>, s: Session)
    requires Sound(orig, ever, s) && s.alive
    ensures AllReachable(s)
  {
    forall i | 0 <= i < |s.bps| ensures Mapped(s.child.code, s.bps[i].addr) {
      assert SoundWord(orig, ever, s.bps[i]);
    }
  }

  lemma ChkbpKeeps(orig: Code, ever: set<U64>, s: Session)
    requires Bookkept(s) && Sound(orig, ever, s) && s.phase == Running && s.alive && !s.ended
    ensures Bookkept(s.Chkbp()) && Sound(orig, ever, s.Chkbp()) && !s.Chkbp().ended
    ensures s.Chkbp() == s.(child := s.child.(code := Overlay(s.child.code, Above(s, 0))))
  {
    SoundIsReachable(orig, ever, s);
    ChkFromEffect(s, 0);
    forall a | a in s.Chkbp().child.code ensures OwnOrInt3(orig, ever, a, s.Chkbp().child.code[a]) {
      if a in Above(s, 0) {
        var j :| 0 <= j < |s.bps| && s.bps[j].addr == a;
        assert SoundWord(orig, ever, s.bps[j]);
      }
      assert OwnOrInt3(orig, ever, a, s.child.code[a]);
    }
  }

  lemma StartKeeps(p: Program, ever: set<U64>, s: Session, f: Fork)
    requires Bookkept(s) && Sound(p.code, ever, s) && ForkPossible(p, f)
    ensures Bookkept(s.Start(f)) && Sound(p.code, ever, s.Start(f)) && s.Start(f).bps == s.bps
  {}

  // start gives a child exactly when a program is loaded and fork succeeds: then the list is as it was, the child's
  // code is the program's own, and the first resumption arms the listed breakpoints above the entry point and no
  // others. So breakpoints outlive the child they were set in, except at or below the entry point.
  lemma RestartRearms(p: Program, ever: set<U64>, s: Session, f: Fork)
    requires Bookkept(s) && Sound(p.code, ever, s) && !s.ended && ForkPossible(p, f) && s.phase != Running
    ensures s.Start(f).phase == Running <==> s.phase == Loaded && f.Forked?
    ensures s.phase == Loaded && f.Forked? ==>
      var t := s.Start(f);
      && t.bps == s.bps && t.pid == f.pid && t.alive && !t.ended && t.child == Machine(p.code, p.entry)
      && !t.Chkbp().ended && t.Chkbp().child.at == p.entry && t.Chkbp().child.code.Keys == p.code.Keys
      && forall x :: x in p.code ==>
           t.Chkbp().child.code[x] == if Listed(s.bps, x) && x > p.entry.rip then INT3 else p.code[x]
  {
    if s.phase == Loaded && f.Forked? {
      var t := s.Start(f);
      StartKeeps(p, ever, s, f);
      ChkbpKeeps(p.code, ever, t);
      SoundIsReachable(p.code, ever, t);
      forall x: U64 ensures x in Above(t, 0) <==> Listed(s.bps, x) && x > p.entry.rip {
        ChkbpEffect(t, x);
      }
    }
  }

  lemma {:induction false} HitKeeps(orig: Code, ever: set<U64>, s: Session, i: nat)
    requires Bookkept(s) && Sound(orig, ever, s) && s.alive && !s.ended
    ensures Bookkept(s.HitFrom(i)) && Sound(orig, ever, s.HitFrom(i)) && s.HitFrom(i).bps == s.bps
    ensures !s.HitFrom(i).ended
    decreases |s.bps| - i
  {
    if i < |s.bps| {
      if s.bps[i].addr == Dec(s.Rip()) {
        RestoreKeepsSound(orig, ever, s, i);
        HitKeeps(orig, ever, s.Poked(s.bps[i].orig).AtRip(Dec(s.Rip())), i + 1);
      } else {
        HitKeeps(orig, ever, s, i + 1);
      }
    }
  }

  lemma {:induction false} LandKeeps(orig: Code, ever: set<U64>, s: Session, i: nat)
    requires Bookkept(s) && Sound(orig, ever, s) && s.alive && !s.ended
    ensures Bookkept(s.LandFrom(i)) && Sound(orig, ever, s.LandFrom(i)) && s.LandFrom(i).bps == s.bps
    ensures !s.LandFrom(i).ended
    decreases |s.bps| - i
  {
    if i < |s.bps| {
      if s.bps[i].addr == s.Rip() {
        RestoreKeepsSound(orig, ever, s, i);
        LandKeeps(orig, ever, s.Poked(s.bps[i].orig), i + 1);
      } else {
        LandKeeps(orig, ever, s, i + 1);
      }
    }
  }

  lemma WaitedKeeps(orig: Code, ever: set<U64>, s: Session, w: Wait)
    requires Bookkept(s) && Sound(orig, ever, s) && s.phase == Running && s.alive
    requires w.Stopped? ==> w.child.code == s.child.code
    ensures var t := s.Waited(w); Bookkept(t) && Sound(orig, ever, t) && t.bps == s.bps && t.ended == s.ended
  {}

  lemma ContKeeps(p: Program, ever: set<U64>, s: Session, w: Wait)
    requires Bookkept(s) && Sound(p.code, ever, s) && !s.ended && AnswerKeepsCode(s, w)
    ensures Bookkept(s.Cont(w)) && Sound(p.code, ever, s.Cont(w)) && s.Cont(w).bps == s.bps
    ensures s.Cont(w).ended <==> s.phase == Running && !s.alive
  {
    if s.phase == Running && s.alive {
      ChkbpKeeps(p.code, ever, s);
      WaitedKeeps(p.code, ever, s.Chkbp(), w);
      ContShape(s, w);
      if w.Stopped? && w.sig == SIGTRAP { HitKeeps(p.code, ever, s.Chkbp().Waited(w), 0); }
    }
  }

  lemma SiKeeps(p: Program, ever: set<U64>, s: Session, w: Wait)
    requires Bookkept(s) && Sound(p.code, ever, s) && !s.ended && AnswerKeepsCode(s, w)
    ensures Bookkept(s.Si(w)) && Sound(p.code, ever, s.Si(w)) && s.Si(w).bps == s.bps
    ensures s.Si(w).ended <==> s.phase == Running && !s.alive
  {
    if s.phase == Running && s.alive {
      ChkbpKeeps(p.code, ever, s);
      WaitedKeeps(p.code, ever, s.Chkbp(), w);
      SiShape(s, w);
      if w.Stopped? && w.sig == SIGTRAP { LandKeeps(p.code, ever, s.Chkbp().Waited(w), 0); }
    }
  }

  lemma RunKeeps(p: Program, ever: set<U64>, s: Session, f: Fork, w: Wait)
    requires Bookkept(s) && Sound(p.code, ever, s) && !s.ended && ForkPossible(p, f) && LeavesCode(s, RunIt(f, w))
    ensures Bookkept(s.Run(f, w)) && Sound(p.code, ever, s.Run(f, w)) && s.Run(f, w).bps == s.bps
  {
    if s.phase == Running {
      ContKeeps(p, ever, s, w);
    } else if s.phase == Loaded {
      StartKeeps(p, ever, s, f);
      if !s.Start(f).ended { ContKeeps(p, ever, s.Start(f), w); }
    }
  }

  lemma EraseKeeps(bps: seq<Breakpoint>, id: nat)
    requires id < |bps| && Numbered(bps) && DistinctAddrs(bps)
    ensures Numbered(Erase(bps, id)) && DistinctAddrs(Erase(bps, id))
  {
    var r := Erase(bps, id);
    forall i, j | 0 <= i < j < |r| ensures r[i].addr != r[j].addr {
      assert r[i].addr == bps[if i < id then i else i + 1].addr;
      assert r[j].addr == bps[if j < id then j else j + 1].addr;
    }
  }

  lemma EraseLists(bps: seq<Breakpoint>, id: nat)
    requires id < |bps|
    ensures Addrs(Erase(bps, id)) <= Addrs(bps)
  {
    var r := Erase(bps, id);
    forall a | a in Addrs(r) ensures a in Addrs(bps) {
      var i :| 0 <= i < |r| && r[i].addr == a;
      assert bps[if i < id then i else i + 1].addr == a;
    }
  }

  lemma DelKeeps(orig: Code, ever: set<U64>, s: Session, id: int)
    requires Bookkept(s) && Sound(orig, ever, s)
    ensures Bookkept(s.Del(id)) && Sound(orig, ever, s.Del(id))
    ensures Addrs(s.Del(id).bps) <= Addrs(s.bps)
  {
    var s' := s.Del(id);
    if s.phase == Running && 0 <= id < |s.bps| && s.Reachable(s.bps[id].addr) {
      RestoreKeepsSound(orig, ever, s, id);
      EraseKeeps(s.bps, id);
      EraseLists(s.bps, id);
      forall i | 0 <= i < |s'.bps|
        ensures SoundWord(orig, ever, s'.bps[i]) && s'.InText(s'.bps[i].addr)
      {
        var j := if i < id then i else i + 1;
        assert SoundWord(orig, ever, s.bps[j]);
        assert s'.bps[i].addr == s.bps[j].addr && s'.bps[i].orig == s.bps[j].orig;
        assert s.InText(s.bps[j].addr);
      }
    }
  }

  // ---- every command, every sequence ---------------------------------------------------------------------------

  lemma CommandKeeps(p: Program, ever: set<U64>, s: Session, c: Command)
    requires Bookkept(s) && Sound(p.code, ever, s) && Possible(p, s, c) && LeavesCode(s, c)
    ensures Bookkept(Apply(s, c)) && Sound(p.code, ever + Addrs(Apply(s, c).bps), Apply(s, c))
  {
    var s' := Apply(s, c);
    var ever' := ever + Addrs(s'.bps);
    SoundForMore(p.code, ever, ever', s);
    if !s.ended {
      match c
      case Break(a) => BpKeepsBookkept(s, a); BpLists(s, a); BpKeepsSound(p.code, ever', s, a);
      case Delete(id) => DelKeeps(p.code, ever', s, id);
      case Continue(w) => ContKeeps(p, ever', s, w);
      case StepInto(w) => SiKeeps(p, ever', s, w);
      case StartIt(f) => StartKeeps(p, ever', s, f);
      case RunIt(f, w) => RunKeeps(p, ever', s, f, w);
      case LoadIt(_) =>
      case SetReg(_, _) =>
    }
  }

  // Memory integrity and bookkeeping over whole sessions.
  lemma {:induction false} SessionKeeps(p: Program, ever: set<U64>, s: Session, cs: seq<Command>)
    requires Bookkept(s) && Sound(p.code, ever, s) && AllPossible(p, s, cs) && AllLeaveCode(s, cs)
    ensures Bookkept(ApplyAll(s, cs)) && Sound(p.code, ever + EverListed(s, cs), ApplyAll(s, cs))
    decreases cs
  {
    if cs == [] {
      SoundForMore(p.code, ever, ever + EverListed(s, cs), s);
    } else {
      var s' := Apply(s, cs[0]);
      var ever' := ever + Addrs(s'.bps);
      CommandKeeps(p, ever, s, cs[0]);
      SessionKeeps(p, ever', s', cs[1..]);
      SoundForMore(p.code, ever' + EverListed(s', cs[1..]), ever + EverListed(s, cs), ApplyAll(s, cs));
    }
  }

  // ---- what the resuming commands leave alone ------------------------------------------------------------------

  // Same list, same text range, and no loading or unloading of a program.
  predicate SameFrame(s: Session, t: Session) {
    t.bps == s.bps && t.lo == s.lo && t.hi == s.hi && (t.phase == NonLoad <==> s.phase == NonLoad)
  }

  lemma {:induction false} ChkKeepsFrame(s: Session, i: nat)
    ensures SameFrame(s, s.ChkFrom(i))
    decreases |s.bps| - i
  {
    if !s.ended && i < |s.bps| {
      assert Listed(s.bps, s.bps[i].addr);
      ChkKeepsFrame(s, i + 1);
      ChkKeepsFrame(s.Bp(s.bps[i].addr), i + 1);
    }
  }

  lemma {:induction false} HitKeepsFrame(s: Session, i: nat)
    ensures SameFrame(s, s.HitFrom(i)) && SameFrame(s, s.LandFrom(i))
    decreases |s.bps| - i
  {
    if !s.ended && i < |s.bps| {
      HitKeepsFrame(s, i + 1);
      HitKeepsFrame(s.Poked(s.bps[i].orig).AtRip(Dec(s.Rip())), i + 1);
      HitKeepsFrame(s.Poked(s.bps[i].orig), i + 1);
    }
  }

  lemma ResumingKeepsFrame(s: Session, w: Wait)
    ensures SameFrame(s, s.Cont(w)) && SameFrame(s, s.Si(w))
  {
    ChkKeepsFrame(s, 0);
    HitKeepsFrame(s.Chkbp().Waited(w), 0);
  }

  lemma ListsOnlyWhatIsAsked(s: Session, c: Command, a: U64)
    requires a in Addrs(Apply(s, c).bps) && a !in Addrs(s.bps)
    ensures c == Break(a)
  {
    var s' := Apply(s, c);
    match c
    case Break(b) =>
      BpEffect(s, b);
      ListedInAddrs(s'.bps, a);
      ListedInAddrs(s.bps, a);
    case Delete(id) =>
      if 0 <= id < |s.bps| { EraseLists(s.bps, id); }
    case Continue(w) => ResumingKeepsFrame(s, w);
    case StepInto(w) => ResumingKeepsFrame(s, w);
    case RunIt(f, w) => ResumingKeepsFrame(s, w); ResumingKeepsFrame(s.Start(f), w);
    case _ =>
  }

  // Only addresses given to `break`, inside .text, are ever listed.
  lemma {:induction false} EverListedWasAsked(s: Session, cs: seq<Command>, a: U64)
    requires a in EverListed(s, cs) && a !in Addrs(s.bps)
    ensures Break(a) in cs
    decreases cs
  {
    if cs != [] {
      var s' := Apply(s, cs[0]);
      if a in Addrs(s'.bps) {
        ListsOnlyWhatIsAsked(s, cs[0], a);
      } else {
        EverListedWasAsked(s', cs[1..], a);
      }
    }
  }

  // The whole statement for a debugger that has just started.
  lemma MemoryIntegrity(p: Program, cs: seq<Command>)
    requires AllPossible(p, INITIAL, cs) && AllLeaveCode(INITIAL, cs)
    ensures var s := ApplyAll(INITIAL, cs);
      && Bookkept(s)
      && (s.alive ==> s.child.code.Keys == p.code.Keys
                      && forall a :: a in s.child.code && s.child.code[a] != p.code[a]
                                     ==> s.child.code[a] == INT3 && Break(a) in cs)
      && (forall i :: 0 <= i < |s.bps| ==> var b := s.bps[i];
            && Mapped(p.code, b.addr) && IsWord(b.orig, b.addr)
            && b.orig[b.addr] == p.code[b.addr] != INT3
            && forall x :: x in b.orig && b.orig[x] != p.code[x] ==> b.orig[x] == INT3 && Break(x) in cs)
  {
    SessionKeeps(p, {}, INITIAL, cs);
    var s := ApplyAll(INITIAL, cs);
    var ever := EverListed(INITIAL, cs);
    assert {} + ever == ever;
    forall a | a in ever ensures Break(a) in cs {
      EverListedWasAsked(INITIAL, cs, a);
    }
    forall i | 0 <= i < |s.bps|
      ensures SoundWord(p.code, ever, s.bps[i])
      ensures (forall x :: x in s.bps[i].orig && s.bps[i].orig[x] != p.code[x]
                           ==> s.bps[i].orig[x] == INT3 && Break(x) in cs)
    {
      assert SoundWord(p.code, ever, s.bps[i]);
    }
    if s.alive {
      forall a | a in s.child.code && s.child.code[a] != p.code[a]
        ensures s.child.code[a] == INT3 && Break(a) in cs
      {
        assert OwnOrInt3(p.code, ever, a, s.child.code[a]);
      }
    }
  }

  lemma CommandLeavesLoaded(s: Session, c: Command)
    requires s.phase != NonLoad
    ensures Apply(s, c).phase != NonLoad && Apply(s, c).lo == s.lo && Apply(s, c).hi == s.hi
  {
    match c
    case Continue(w) => ResumingKeepsFrame(s, w);
    case StepInto(w) => ResumingKeepsFrame(s, w);
    case RunIt(f, w) => ResumingKeepsFrame(s, w); ResumingKeepsFrame(s.Start(f), w);
    case _ =>
  }

  // Once a program is loaded, no sequence of commands enters NONLOAD again or moves the text range.
  lemma {:induction false} LoadedForGood(s: Session, cs: seq<Command>)
    requires s.phase != NonLoad
    ensures var t := ApplyAll(s, cs); t.phase != NonLoad && t.lo == s.lo && t.hi == s.hi
    decreases cs
  {
    if cs != [] {
      CommandLeavesLoaded(s, cs[0]);
      LoadedForGood(Apply(s, cs[0]), cs[1..]);
    }
  }
}
