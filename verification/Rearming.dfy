// No breakpoint is lost by an overlapping restore: what one resumption has armed the next has armed again, except the
// one breakpoint rip is left at.
module Rearming {
  import opened Words
  import opened Tracee
  import opened Debugger
  import opened Commands
  import opened Stops
  import opened Integrity

  // Commands that may come between two resumptions here: setting breakpoints, and registers other than rip.
  predicate IsBetween(c: Command) {
    c.Break? || (c.SetReg? && c.reg != "rip")
  }

  predicate HasInt3(s: Session, x: U64) {
    x in s.child.code && s.child.code[x] == INT3
  }

  lemma BetweenStep(p: Program, ever: set<U64>, s: Session, c: Command, x: U64)
    requires Bookkept(s) && Sound(p.code, ever, s) && s.alive && Listed(s.bps, x) && IsBetween(c)
    ensures var t := Apply(s, c);
      && Bookkept(t) && Sound(p.code, ever + Addrs(t.bps), t) && t.alive
      && t.Rip() == s.Rip() && Listed(t.bps, x) && (HasInt3(s, x) ==> HasInt3(t, x))
  {
    CommandKeeps(p, ever, s, c);
    if c.Break? {
      BpEffect(s, c.addr);
      BpLists(s, c.addr);
      ListedInAddrs(s.bps, x);
      ListedInAddrs(Apply(s, c).bps, x);
    }
  }

  lemma {:induction false} BetweenKeeps(p: Program, ever: set<U64>, s: Session, cs: seq<Command>, x: U64)
    requires Bookkept(s) && Sound(p.code, ever, s) && s.alive && Listed(s.bps, x)
    requires (forall c :: c in cs ==> IsBetween(c)) && !ApplyAll(s, cs).ended
    ensures var u := ApplyAll(s, cs);
      && Bookkept(u) && Sound(p.code, ever + EverListed(s, cs), u) && u.alive
      && u.Rip() == s.Rip() && Listed(u.bps, x) && (HasInt3(s, x) ==> HasInt3(u, x))
    decreases cs
  {
    if cs == [] {
      SoundForMore(p.code, ever, ever + EverListed(s, cs), s);
    } else {
      var s' := Apply(s, cs[0]);
      var ever' := ever + Addrs(s'.bps);
      assert cs[0] in cs && forall c :: c in cs[1..] ==> c in cs;
      BetweenStep(p, ever, s, cs[0], x);
      BetweenKeeps(p, ever', s', cs[1..], x);
      SoundForMore(p.code, ever' + EverListed(s', cs[1..]), ever + EverListed(s, cs), ApplyAll(s, cs));
    }
  }

  // A breakpoint that is armed when the child stops, or lies above rip, is armed at the next resumption.
  lemma ArmedAgain(p: Program, ever: set<U64>, s: Session, cs: seq<Command>, x: U64)
    requires Bookkept(s) && Sound(p.code, ever, s) && s.alive && !s.ended && Listed(s.bps, x)
    requires (forall c :: c in cs ==> IsBetween(c)) && !ApplyAll(s, cs).ended
    requires HasInt3(s, x) || x > s.Rip()
    ensures HasInt3(ApplyAll(s, cs).Chkbp(), x)
  {
    BetweenKeeps(p, ever, s, cs, x);
    var u := ApplyAll(s, cs);
    SoundIsReachable(p.code, ever + EverListed(s, cs), u);
    ChkbpEffect(u, x);
    var j :| 0 <= j < |u.bps| && u.bps[j].addr == x;
    assert Mapped(u.child.code, x);
  }

  // A byte below or at rip that is not 0xcc stays so until the next resumption, unless `break` is given its address.
  lemma {:induction false} BetweenArmsNothing(s: Session, cs: seq<Command>, x: U64)
    requires (forall c :: c in cs ==> IsBetween(c)) && Break(x) !in cs && !HasInt3(s, x)
    ensures !HasInt3(ApplyAll(s, cs), x)
    decreases cs
  {
    if cs != [] {
      assert cs[0] in cs && forall c :: c in cs[1..] ==> c in cs;
      if cs[0].Break? { BpEffect(s, cs[0].addr); }
      BetweenArmsNothing(Apply(s, cs[0]), cs[1..], x);
    }
  }

  // So at the next resumption a listed x is armed exactly when it was armed at the stop, or lies above rip.
  lemma ArmedExactly(p: Program, ever: set<U64>, s: Session, cs: seq<Command>, x: U64)
    requires Bookkept(s) && Sound(p.code, ever, s) && s.alive && !s.ended && Listed(s.bps, x)
    requires (forall c :: c in cs ==> IsBetween(c)) && !ApplyAll(s, cs).ended
    ensures HasInt3(s, x) || x > s.Rip() ==> HasInt3(ApplyAll(s, cs).Chkbp(), x)
    ensures HasInt3(ApplyAll(s, cs).Chkbp(), x) && Break(x) !in cs ==> HasInt3(s, x) || x > s.Rip()
  {
    if HasInt3(s, x) || x > s.Rip() {
      ArmedAgain(p, ever, s, cs, x);
    } else if Break(x) !in cs {
      BetweenKeeps(p, ever, s, cs, x);
      BetweenArmsNothing(s, cs, x);
      var u := ApplyAll(s, cs);
      SoundIsReachable(p.code, ever + EverListed(s, cs), u);
      ChkbpEffect(u, x);
    }
  }

  // ---- cont ----------------------------------------------------------------------------------------------------

  // Along the hit loop, only bytes at or above its rip are disarmed.
  lemma {:induction false} HitDisarmsFromRipUp(orig: Code, ever: set<U64>, s: Session, i: nat, x: U64)
    requires Sound(orig, ever, s) && s.alive && !s.ended && (HasInt3(s, x) || s.Rip() <= x)
    ensures var t := s.HitFrom(i); HasInt3(t, x) || t.Rip() <= x
    decreases |s.bps| - i
  {
    if i < |s.bps| {
      if s.bps[i].addr == Dec(s.Rip()) {
        assert SoundWord(orig, ever, s.bps[i]);
        RestoreKeepsSound(orig, ever, s, i);
        HitDisarmsFromRipUp(orig, ever, s.Poked(s.bps[i].orig).AtRip(Dec(s.Rip())), i + 1, x);
      } else {
        HitDisarmsFromRipUp(orig, ever, s, i + 1, x);
      }
    }
  }

  // A hit loop that moves rip moves it down, to a byte it has put back; one that does not changes nothing.
  lemma {:induction false} HitMovesDown(orig: Code, ever: set<U64>, s: Session, i: nat)
    requires Sound(orig, ever, s) && s.alive && !s.ended
    ensures var t := s.HitFrom(i); t.alive && !t.ended && (t == s || t.Rip() < s.Rip())
    ensures var t := s.HitFrom(i); t.Rip() < s.Rip() || !HasInt3(s, s.Rip()) ==> !HasInt3(t, t.Rip())
    decreases |s.bps| - i
  {
    if i < |s.bps| {
      if s.bps[i].addr == Dec(s.Rip()) {
        var s' := s.Poked(s.bps[i].orig).AtRip(Dec(s.Rip()));
        assert SoundWord(orig, ever, s.bps[i]);
        RestoreKeepsSound(orig, ever, s, i);
        HitMovesDown(orig, ever, s', i + 1);
      } else {
        HitMovesDown(orig, ever, s, i + 1);
      }
    }
  }

  // The stop of cont moved rip: a trap one byte above a listed breakpoint.
  predicate HitMoved(s: Session, w: Wait) {
    w.Stopped? && w.sig == SIGTRAP && s.Cont(w).Rip() != w.child.at.rip
  }

  // The child as cont leaves it at a stop.
  lemma AfterCont(p: Program, ever: set<U64>, s: Session, w: Wait, x: U64)
    requires Bookkept(s) && Sound(p.code, ever, s) && s.phase == Running && s.alive && !s.ended
    requires AnswerKeepsCode(s, w) && w.Stopped? && HasInt3(s.Chkbp(), x)
    ensures var t := s.Cont(w);
      && t.alive && !t.ended
      && (HasInt3(t, x) || x > t.Rip() <==> !(HitMoved(s, w) && x == t.Rip()))
  {
    ChkbpKeeps(p.code, ever, s);
    var stopped := s.Chkbp().(child := w.child);
    SoundIsReachable(p.code, ever, stopped);
    if w.sig == SIGTRAP {
      HitDisarmsFromRipUp(p.code, ever, stopped, 0, x);
      HitMovesDown(p.code, ever, stopped, 0);
    }
  }

  // Between a stop of cont and the next resumption the one breakpoint that is lost is the one cont's hit loop leaves
  // rip at, however far down adjacent breakpoints the loop has gone.
  lemma ContLosesOnlyTheHit(p: Program, ever: set<U64>, s: Session, w: Wait, cs: seq<Command>, x: U64)
    requires Bookkept(s) && Sound(p.code, ever, s) && s.phase == Running && s.alive && !s.ended
    requires AnswerKeepsCode(s, w) && w.Stopped?
    requires (forall c :: c in cs ==> IsBetween(c)) && !ApplyAll(s.Cont(w), cs).ended
    requires Listed(s.bps, x) && HasInt3(s.Chkbp(), x)
    ensures HasInt3(ApplyAll(s.Cont(w), cs).Chkbp(), x) || (HitMoved(s, w) && x == s.Cont(w).Rip())
    ensures Break(x) !in cs ==>
      (HasInt3(ApplyAll(s.Cont(w), cs).Chkbp(), x) <==> !(HitMoved(s, w) && x == s.Cont(w).Rip()))
  {
    ContKeeps(p, ever, s, w);
    AfterCont(p, ever, s, w, x);
    ArmedExactly(p, ever, s.Cont(w), cs, x);
  }

  // After a trap above a breakpoint with none listed later just below it, that is the breakpoint hit.
  lemma CleanHitLosesOnlyIt(p: Program, ever: set<U64>, s: Session, w: Wait, cs: seq<Command>, x: U64, j: nat)
    requires Bookkept(s) && Sound(p.code, ever, s) && s.phase == Running && s.alive && !s.ended
    requires AnswerKeepsCode(s, w) && w.Stopped? && w.sig == SIGTRAP
    requires j < |s.bps| && s.bps[j].addr == Dec(w.child.at.rip) && NoneJustBelow(s.bps, j)
    requires (forall c :: c in cs ==> IsBetween(c)) && !ApplyAll(s.Cont(w), cs).ended
    requires Listed(s.bps, x) && HasInt3(s.Chkbp(), x)
    ensures HasInt3(ApplyAll(s.Cont(w), cs).Chkbp(), x) || x == s.bps[j].addr
  {
    ContLosesOnlyTheHit(p, ever, s, w, cs, x);
    ChkbpKeeps(p.code, ever, s);
    var stopped := s.Chkbp().(child := w.child);
    SoundIsReachable(p.code, ever, stopped);
    HitExact(stopped, j);
  }

  // ---- si ------------------------------------------------------------------------------------------------------

  // The child as si leaves it at a stop.
  lemma AfterSi(p: Program, ever: set<U64>, s: Session, w: Wait, x: U64)
    requires Bookkept(s) && Sound(p.code, ever, s) && s.phase == Running && s.alive && !s.ended
    requires AnswerKeepsCode(s, w) && w.Stopped? && Listed(s.bps, x) && HasInt3(s.Chkbp(), x)
    ensures var t := s.Si(w);
      && t.alive && !t.ended
      && (HasInt3(t, x) || x > t.Rip() <==> !(w.sig == SIGTRAP && x == w.child.at.rip))
  {
    ChkbpKeeps(p.code, ever, s);
    var stopped := s.Chkbp().(child := w.child);
    SoundIsReachable(p.code, ever, stopped);
    if w.sig == SIGTRAP {
      if j :| 0 <= j < |s.bps| && s.bps[j].addr == w.child.at.rip {
        LandExact(stopped, 0, j);
        assert SoundWord(p.code, ever, s.bps[j]);
      } else {
        LandMiss(stopped, 0);
      }
    }
  }

  // Between a stop of si and the next resumption the one breakpoint that is lost is the one si landed on.
  lemma SiLosesOnlyTheHit(p: Program, ever: set<U64>, s: Session, w: Wait, cs: seq<Command>, x: U64)
    requires Bookkept(s) && Sound(p.code, ever, s) && s.phase == Running && s.alive && !s.ended
    requires AnswerKeepsCode(s, w) && w.Stopped?
    requires (forall c :: c in cs ==> IsBetween(c)) && !ApplyAll(s.Si(w), cs).ended
    requires Listed(s.bps, x) && HasInt3(s.Chkbp(), x)
    ensures HasInt3(ApplyAll(s.Si(w), cs).Chkbp(), x) || (w.sig == SIGTRAP && x == w.child.at.rip)
    ensures Break(x) !in cs ==>
      (HasInt3(ApplyAll(s.Si(w), cs).Chkbp(), x) <==> !(w.sig == SIGTRAP && x == w.child.at.rip))
  {
    SiKeeps(p, ever, s, w);
    AfterSi(p, ever, s, w, x);
    ArmedExactly(p, ever, s.Si(w), cs, x);
  }
}
