// What the three loops over the breakpoint list do: chkbp before a resumption, the hit loop of cont and the landing
// loop of si after it.
module Stops {
  import opened Words
  import opened Tracee
  import opened Debugger
  import opened Commands

  // The words of all listed breakpoints can be moved.
  ghost predicate AllReachable(s: Session) {
    s.alive && forall i :: 0 <= i < |s.bps| ==> Mapped(s.child.code, s.bps[i].addr)
  }

  ghost predicate DistinctAddrs(bps: seq<Breakpoint>) {
    forall i, j :: 0 <= i < j < |bps| ==> bps[i].addr != bps[j].addr
  }

  // ---- chkbp ---------------------------------------------------------------------------------------------------

  // The code with 0xcc at every address of A.
  function Overlay(code: Code, A: set<U64>): Code {
    map x | x in code :: if x in A then INT3 else code[x]
  }

  // The listed addresses above rip, from entry i on.
  function Above(s: Session, i: nat): set<U64> {
    set j | i <= j < |s.bps| && s.bps[j].addr > s.Rip() :: s.bps[j].addr
  }

  // The state with a 0xcc put at a.
  function Trapped(s: Session, a: U64): Session {
    s.(child := s.child.(code := s.child.code[a := INT3]))
  }

  // bp on a listed address sets its byte and nothing else.
  lemma BpOnListed(s: Session, i: nat)
    requires Bookkept(s) && AllReachable(s) && !s.ended && i < |s.bps|
    ensures s.Bp(s.bps[i].addr) == Trapped(s, s.bps[i].addr)
  {
    var a := s.bps[i].addr;
    BpEffect(s, a);
    assert Listed(s.bps, a) && s.InText(a) && s.Reachable(a);
    assert a in s.child.code;
    if s.child.code[a] == INT3 {
      assert s.child.code[a := INT3] == s.child.code;
    }
  }

  lemma OverlayNext(s: Session, i: nat)
    requires AllReachable(s) && i < |s.bps| && s.bps[i].addr > s.Rip()
    ensures AllReachable(Trapped(s, s.bps[i].addr))
    ensures Overlay(s.child.code, Above(s, i))
      == Overlay(Trapped(s, s.bps[i].addr).child.code, Above(Trapped(s, s.bps[i].addr), i + 1))
  {
    var a := s.bps[i].addr;
    var t := Trapped(s, a);
    assert a in s.child.code;
    assert t.child.code.Keys == s.child.code.Keys;
    assert Above(s, i) == Above(t, i + 1) + {a};
  }

  // One step of the loop.
  lemma ChkStep(s: Session, i: nat)
    requires Bookkept(s) && AllReachable(s) && !s.ended && i < |s.bps|
    ensures var t := if s.bps[i].addr > s.Rip() then Trapped(s, s.bps[i].addr) else s;
      && s.ChkFrom(i) == t.ChkFrom(i + 1) && Bookkept(t) && AllReachable(t)
      && t == s.(child := s.child.(code := t.child.code))
      && Overlay(s.child.code, Above(s, i)) == Overlay(t.child.code, Above(t, i + 1))
  {
    if s.bps[i].addr > s.Rip() {
      ChkArms(s, i);
      OverlayNext(s, i);
    } else {
      assert Above(s, i) == Above(s, i + 1);
    }
  }

  lemma ChkArms(s: Session, i: nat)
    requires Bookkept(s) && AllReachable(s) && !s.ended && i < |s.bps| && s.bps[i].addr > s.Rip()
    ensures s.ChkFrom(i) == Trapped(s, s.bps[i].addr).ChkFrom(i + 1) && Bookkept(Trapped(s, s.bps[i].addr))
  {
    BpOnListed(s, i);
  }

  lemma {:induction false} ChkFromEffect(s: Session, i: nat)
    requires Bookkept(s) && AllReachable(s) && !s.ended
    ensures s.ChkFrom(i) == s.(child := s.child.(code := Overlay(s.child.code, Above(s, i))))
    decreases |s.bps| - i
  {
    if i >= |s.bps| {
      assert Overlay(s.child.code, Above(s, i)) == s.child.code;
    } else {
      ChkStep(s, i);
      ChkFromEffect(if s.bps[i].addr > s.Rip() then Trapped(s, s.bps[i].addr) else s, i + 1);
    }
  }

  // chkbp puts 0xcc at exactly the listed addresses above rip and changes nothing else.
  lemma ChkbpEffect(s: Session, x: U64)
    requires Bookkept(s) && AllReachable(s) && !s.ended
    ensures s.Chkbp() == s.(child := s.child.(code := Overlay(s.child.code, Above(s, 0))))
    ensures x in Above(s, 0) <==> Listed(s.bps, x) && x > s.Rip()
  {
    ChkFromEffect(s, 0);
  }

  // ---- the hit loop of cont ------------------------------------------------------------------------------------

  // The indices js, increasing from i on, of breakpoints at rip - 1, rip - 2, ...
  ghost predicate WalksDown(s: Session, i: nat, js: seq<nat>)
    decreases js
  {
    js == [] || (i <= js[0] < |s.bps| && s.bps[js[0]].addr == Dec(s.Rip())
                 && WalksDown(s.AtRip(Dec(s.Rip())), js[0] + 1, js[1..]))
  }

  // rip one byte further down for every step of the walk, and the words put back in that order.
  function Walked(s: Session, js: seq<nat>): Session
    requires forall j :: j in js ==> j < |s.bps|
    decreases js
  {
    if js == [] then s
    else
      assert js[0] in js && forall j :: j in js[1..] ==> j in js;
      Walked(s.Poked(s.bps[js[0]].orig).AtRip(Dec(s.Rip())), js[1..])
  }

  lemma HitMiss(s: Session, i: nat)
    requires forall j :: i <= j < |s.bps| ==> s.bps[j].addr != Dec(s.Rip())
    ensures s.HitFrom(i) == s
    decreases |s.bps| - i
  {}

  // The scan reaches the entry one byte below rip unchanged, puts its word back and goes on behind it.
  lemma {:induction false} HitFirst(s: Session, i: nat, j: nat)
    requires DistinctAddrs(s.bps) && AllReachable(s) && !s.ended
    requires i <= j < |s.bps| && s.bps[j].addr == Dec(s.Rip())
    ensures s.HitFrom(i) == s.Poked(s.bps[j].orig).AtRip(s.bps[j].addr).HitFrom(j + 1)
    decreases j - i
  {
    if i < j {
      HitFirst(s, i + 1, j);
    }
  }

  lemma RestoreKeepsReachable(s: Session, i: nat)
    requires AllReachable(s) && i < |s.bps|
    ensures AllReachable(s.Poked(s.bps[i].orig))
  {}

  // Where the hit loop leaves rip: where it was, or at a breakpoint it put back.
  lemma {:induction false} HitLands(s: Session, i: nat)
    requires DistinctAddrs(s.bps) && AllReachable(s) && !s.ended
    ensures s.HitFrom(i) == s
      || exists j :: i <= j < |s.bps| && s.HitFrom(i).Rip() == s.bps[j].addr
    ensures s.HitFrom(i).bps == s.bps && !s.HitFrom(i).ended
    decreases |s.bps| - i
  {
    if j :| i <= j < |s.bps| && s.bps[j].addr == Dec(s.Rip()) {
      var s1 := s.Poked(s.bps[j].orig).AtRip(s.bps[j].addr);
      HitFirst(s, i, j);
      RestoreKeepsReachable(s, j);
      HitLands(s1, j + 1);
    } else {
      HitMiss(s, i);
    }
  }

  lemma {:induction false} WalkIgnoresCode(s: Session, t: Session, i: nat, js: seq<nat>)
    requires s.bps == t.bps && s.Rip() == t.Rip() && WalksDown(s, i, js)
    ensures WalksDown(t, i, js)
    decreases js
  {
    if js != [] {
      WalkIgnoresCode(s.AtRip(Dec(s.Rip())), t.AtRip(Dec(t.Rip())), js[0] + 1, js[1..]);
    }
  }

  // One step more at the front of a walk.
  lemma WalkMore(s: Session, i: nat, j: nat, rest: seq<nat>)
    requires i <= j < |s.bps| && s.bps[j].addr == Dec(s.Rip()) && forall k :: k in rest ==> k < |s.bps|
    requires WalksDown(s.Poked(s.bps[j].orig).AtRip(s.bps[j].addr), j + 1, rest)
    ensures WalksDown(s, i, [j] + rest) && forall k :: k in [j] + rest ==> k < |s.bps|
    ensures Walked(s, [j] + rest) == Walked(s.Poked(s.bps[j].orig).AtRip(s.bps[j].addr), rest)
  {
    var js := [j] + rest;
    assert js[1..] == rest;
    WalkIgnoresCode(s.Poked(s.bps[j].orig).AtRip(s.bps[j].addr), s.AtRip(Dec(s.Rip())), j + 1, rest);
  }

  // In general the loop walks down a run of consecutive addresses for as long as they come in list order.
  lemma {:induction false} HitWalk(s: Session, i: nat) returns (js: seq<nat>)
    requires DistinctAddrs(s.bps) && AllReachable(s) && !s.ended
    ensures WalksDown(s, i, js) && forall j :: j in js ==> j < |s.bps|
    ensures s.HitFrom(i) == Walked(s, js)
    ensures forall k :: (if js == [] then i else Last(js) + 1) <= k < |s.bps|
              ==> s.bps[k].addr != Dec(s.HitFrom(i).Rip())
    decreases |s.bps| - i
  {
    if j :| i <= j < |s.bps| && s.bps[j].addr == Dec(s.Rip()) {
      HitFirst(s, i, j);
      RestoreKeepsReachable(s, j);
      var s1 := s.Poked(s.bps[j].orig).AtRip(s.bps[j].addr);
      var rest := HitWalk(s1, j + 1);
      WalkMore(s, i, j, rest);
      js := [j] + rest;
    } else {
      HitMiss(s, i);
      js := [];
    }
  }

  // Entry j's hit is clean: no later entry sits one byte below it.
  ghost predicate NoneJustBelow(bps: seq<Breakpoint>, j: nat)
    requires j < |bps|
  {
    forall k :: j < k < |bps| ==> bps[k].addr != Dec(bps[j].addr)
  }

  // After a trap just above breakpoint j, cont puts back that one word and leaves rip at the breakpoint exactly when
  // no entry listed after j is one byte below it. Entries listed before j never matter.
  lemma HitExact(s: Session, j: nat)
    requires DistinctAddrs(s.bps) && AllReachable(s) && !s.ended
    requires j < |s.bps| && s.bps[j].addr == Dec(s.Rip())
    ensures NoneJustBelow(s.bps, j) ==> s.HitFrom(0) == s.Poked(s.bps[j].orig).AtRip(s.bps[j].addr)
    ensures s.HitFrom(0).Rip() == s.bps[j].addr <==> NoneJustBelow(s.bps, j)
  {
    var s1 := s.Poked(s.bps[j].orig).AtRip(s.bps[j].addr);
    HitFirst(s, 0, j);
    if NoneJustBelow(s.bps, j) {
      HitMiss(s1, j + 1);
    } else {
      var k :| j < k < |s.bps| && s.bps[k].addr == Dec(s.bps[j].addr);
      RestoreKeepsReachable(s, j);
      HitFirst(s1, j + 1, k);
      var s2 := s1.Poked(s1.bps[k].orig).AtRip(s1.bps[k].addr);
      RestoreKeepsReachable(s1, k);
      HitLands(s2, k + 1);
    }
  }

  // ---- the landing loop of si ----------------------------------------------------------------------------------

  lemma LandMiss(s: Session, i: nat)
    requires forall j :: i <= j < |s.bps| ==> s.bps[j].addr != s.Rip()
    ensures s.LandFrom(i) == s
    decreases |s.bps| - i
  {}

  // Landing on breakpoint j puts back its word and nothing else.
  lemma {:induction false} LandExact(s: Session, i: nat, j: nat)
    requires DistinctAddrs(s.bps) && AllReachable(s) && !s.ended
    requires i <= j < |s.bps| && s.bps[j].addr == s.Rip()
    ensures s.LandFrom(i) == s.Poked(s.bps[j].orig)
    decreases j - i
  {
    if i < j {
      LandExact(s, i + 1, j);
    } else {
      LandMiss(s.Poked(s.bps[j].orig), j + 1);
    }
  }

  // ---- cont and si by parts ------------------------------------------------------------------------------------

  lemma ContShape(s: Session, w: Wait)
    requires s.phase == Running && !s.Chkbp().ended
    ensures s.Cont(w) == if w.Stopped? && w.sig == SIGTRAP then s.Chkbp().(child := w.child).HitFrom(0)
                         else s.Chkbp().Waited(w)
  {}

  lemma SiShape(s: Session, w: Wait)
    requires s.phase == Running && !s.Chkbp().ended
    ensures s.Si(w) == if w.Stopped? && w.sig == SIGTRAP then s.Chkbp().(child := w.child).LandFrom(0)
                       else s.Chkbp().Waited(w)
  {}
}
