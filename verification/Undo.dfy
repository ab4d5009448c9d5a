// Deleting breakpoints: what undoes what, and when a deleted breakpoint leaves a 0xcc behind.
module Undo {
  import opened Words
  import opened Tracee
  import opened Debugger
  import opened Commands
  import opened Stops
  import opened Integrity

  // ---- bp and del as brackets ----------------------------------------------------------------------------------

  // `break a` adds an entry.
  predicate Adds(s: Session, a: U64) {
    BpArms(s, a) && !Listed(s.bps, a) && !s.ended
  }

  // A bp that adds an entry, then del of that entry: memory, list and everything else are exactly as before,
  // whatever other breakpoints overlap the word.
  lemma DelUndoesBp(s: Session, a: U64)
    requires Adds(s, a)
    ensures s.Bp(a).Del(|s.bps|) == s
  {
    var n := |s.bps|;
    var word := Peek(s.child.code, a);
    var s1 := s.Bp(a);
    assert s1.bps == s.bps + [Breakpoint(n, a, word)];
    MaskedLowByte(word, a, INT3);
    PokeBack(s.child.code, a, word[a := INT3]);
    assert Erase(s1.bps, n) == s.bps;
    assert s1.Reachable(a);
  }

  // Properly nested brackets: `break addr`, more brackets inside, `delete` of that entry, more brackets after.
  datatype Nest = Done | Bracket(addr: U64, inner: Nest, rest: Nest)

  // The commands, for a list of n entries.
  function Bracketed(nest: Nest, n: nat): seq<Command> {
    match nest
    case Done => []
    case Bracket(a, inner, rest) =>
      [Break(a)] + (Bracketed(inner, n + 1) + ([Delete(n)] + Bracketed(rest, n)))
  }

  // Every bracket's bp adds an entry in the state it is given in.
  predicate AllAdd(s: Session, nest: Nest)
    decreases nest
  {
    match nest
    case Done => true
    case Bracket(a, inner, rest) => Adds(s, a) && AllAdd(s.Bp(a), inner) && AllAdd(s, rest)
  }

  lemma {:induction false} ApplyConcat(s: Session, cs: seq<Command>, ds: seq<Command>)
    ensures ApplyAll(s, cs + ds) == ApplyAll(ApplyAll(s, cs), ds)
    decreases cs
  {
    if cs == [] {
      assert cs + ds == ds;
    } else {
      assert (cs + ds)[1..] == cs[1..] + ds;
      ApplyConcat(Apply(s, cs[0]), cs[1..], ds);
    }
  }

  // Any properly nested sequence of bp and del, without a resumption, is a no-op.
  lemma {:induction false} NestedIsNoOp(s: Session, nest: Nest)
    requires AllAdd(s, nest) && !s.ended
    ensures ApplyAll(s, Bracketed(nest, |s.bps|)) == s
    decreases nest
  {
    match nest
    case Done =>
    case Bracket(a, inner, rest) =>
      var n := |s.bps|;
      var s1 := s.Bp(a);
      var tail := [Delete(n)] + Bracketed(rest, n);
      ApplyConcat(s, [Break(a)], Bracketed(inner, n + 1) + tail);
      ApplyConcat(s1, Bracketed(inner, n + 1), tail);
      NestedIsNoOp(s1, inner);
      ApplyConcat(s1, [Delete(n)], Bracketed(rest, n));
      DelUndoesBp(s, a);
      NestedIsNoOp(s, rest);
      assert Apply(s, Break(a)) == s1 && ApplyAll(s, [Break(a)]) == s1;
      assert Apply(s1, Delete(n)) == s && ApplyAll(s1, [Delete(n)]) == s;
  }

  // ---- deletions in any order ----------------------------------------------------------------------------------

  // Every 0xcc the debugger put into the code or into a saved word belongs to a breakpoint that is listed now.
  ghost predicate Settled(orig: Code, s: Session) {
    Bookkept(s) && Sound(orig, Addrs(s.bps), s)
  }

  // Entry j's saved word holds the 0xcc of entry id.
  predicate Holds(bps: seq<Breakpoint>, j: nat, id: nat)
    requires j < |bps| && id < |bps|
  {
    bps[id].addr in bps[j].orig && bps[j].orig[bps[id].addr] == INT3
  }

  // No saved word but its own holds the 0xcc of entry id.
  predicate NotHeld(bps: seq<Breakpoint>, id: nat)
    requires id < |bps|
  {
    forall j :: 0 <= j < |bps| ==> !Holds(bps, j, id)
  }

  lemma ErasedAddrs(bps: seq<Breakpoint>, id: nat)
    requires id < |bps| && DistinctAddrs(bps)
    ensures Addrs(Erase(bps, id)) == Addrs(bps) - {bps[id].addr}
  {
    var r := Erase(bps, id);
    EraseLists(bps, id);
    forall a | a in Addrs(bps) && a != bps[id].addr ensures a in Addrs(r) {
      var i :| 0 <= i < |bps| && bps[i].addr == a;
      assert r[if i < id then i else i - 1].addr == a;
    }
    forall i | 0 <= i < |r| ensures r[i].addr != bps[id].addr {
      assert r[i].addr == bps[if i < id then i else i + 1].addr;
    }
  }

  lemma WordWithout(orig: Code, bps: seq<Breakpoint>, j: nat, id: nat)
    requires j < |bps| && id < |bps| && j != id && DistinctAddrs(bps)
    requires SoundWord(orig, Addrs(bps), bps[j]) && SoundWord(orig, Addrs(bps), bps[id])
    ensures SoundWord(orig, Addrs(bps) - {bps[id].addr}, bps[j]) <==> !Holds(bps, j, id)
  {
    var b := bps[j];
    var ever := Addrs(bps) - {bps[id].addr};
    assert b.addr != bps[id].addr;
    if Holds(bps, j, id) {
      assert !OwnOrInt3(orig, ever, bps[id].addr, b.orig[bps[id].addr]);
    }
  }

  // Putting the word of b back takes its address out of the set of addresses that may hold a 0xcc.
  lemma RestoreClears(orig: Code, ever: set<U64>, code: Code, b: Breakpoint)
    requires SoundCode(orig, ever, code) && SoundWord(orig, ever, b)
    ensures SoundCode(orig, ever - {b.addr}, Poke(code, b.orig))
    ensures Poke(code, b.orig)[b.addr] == orig[b.addr] != INT3
  {
    var code' := Poke(code, b.orig);
    forall x | x in code' ensures OwnOrInt3(orig, ever - {b.addr}, x, code'[x]) {
      assert OwnOrInt3(orig, ever, x, if x in b.orig then b.orig[x] else code[x]);
    }
  }

  lemma EraseAt(bps: seq<Breakpoint>, id: nat, j: nat)
    requires id < |bps| && j < |bps| && j != id
    ensures var b := Erase(bps, id)[if j < id then j else j - 1]; b.addr == bps[j].addr && b.orig == bps[j].orig
  {}

  lemma ErasedWords(orig: Code, bps: seq<Breakpoint>, id: nat)
    requires id < |bps| && DistinctAddrs(bps)
    requires forall j :: 0 <= j < |bps| ==> SoundWord(orig, Addrs(bps), bps[j])
    ensures (forall i :: 0 <= i < |bps| - 1 ==> SoundWord(orig, Addrs(bps) - {bps[id].addr}, Erase(bps, id)[i]))
      <==> NotHeld(bps, id)
  {
    var r := Erase(bps, id);
    var ever' := Addrs(bps) - {bps[id].addr};
    forall j | 0 <= j < |bps| && j != id
      ensures SoundWord(orig, ever', r[if j < id then j else j - 1]) <==> !Holds(bps, j, id)
    {
      WordWithout(orig, bps, j, id);
      EraseAt(bps, id, j);
    }
    if NotHeld(bps, id) {
      forall i | 0 <= i < |r| ensures SoundWord(orig, ever', r[i]) {
        var j := if i < id then i else i + 1;
        assert r[if j < id then j else j - 1] == r[i] && !Holds(bps, j, id);
      }
    } else {
      var j :| 0 <= j < |bps| && Holds(bps, j, id);
      assert !SoundWord(orig, ever', r[if j < id then j else j - 1]);
    }
  }

  // Deleting entry id leaves every injected 0xcc accounted for exactly when no other saved word holds its 0xcc.
  lemma DelSettles(orig: Code, s: Session, id: nat)
    requires Settled(orig, s) && s.phase == Running && s.alive && id < |s.bps|
    ensures s.Reachable(s.bps[id].addr)
    ensures s.Del(id) == s.Poked(s.bps[id].orig).(bps := Erase(s.bps, id))
    ensures s.bps[id].addr in s.Del(id).child.code && s.Del(id).child.code[s.bps[id].addr] != INT3
    ensures Settled(orig, s.Del(id)) <==> NotHeld(s.bps, id)
  {
    var ever := Addrs(s.bps);
    assert SoundWord(orig, ever, s.bps[id]);
    RestoreKeepsSound(orig, ever, s, id);
    DelKeeps(orig, ever, s, id);
    ErasedAddrs(s.bps, id);
    RestoreClears(orig, ever, s.child.code, s.bps[id]);
    ErasedWords(orig, s.bps, id);
  }

  // Deleting an entry whose word is b's, seen from an address a that is neither listed nor 0xcc.
  lemma SecondDeletion(s: Session, j: nat, b: Breakpoint, a: U64)
    requires s.phase == Running && j < |s.bps| && s.bps[j].addr == b.addr && s.bps[j].orig == b.orig
    requires s.Reachable(b.addr) && a !in Addrs(s.bps)
    requires a in s.child.code && s.child.code[a] != INT3 && b.addr != a
    ensures var t := s.Del(j);
      && a in t.child.code && !Listed(t.bps, a)
      && (t.child.code[a] == INT3 <==> a in b.orig && b.orig[a] == INT3)
  {
    EraseLists(s.bps, j);
    ListedInAddrs(s.Del(j).bps, a);
  }

  // What goes wrong otherwise, in the child's memory: delete id, then j. A 0xcc is left at id's address, which is no
  // longer listed, exactly when j's saved word held it.
  lemma LeftBehind(orig: Code, s: Session, id: nat, j: nat)
    requires Settled(orig, s) && s.phase == Running && s.alive
    requires id < |s.bps| && j < |s.bps| && id != j
    ensures var t := s.Del(id).Del(if j < id then j else j - 1);
      && s.bps[id].addr in t.child.code && !Listed(t.bps, s.bps[id].addr)
      && (t.child.code[s.bps[id].addr] == INT3 <==> Holds(s.bps, j, id))
  {
    var j' := if j < id then j else j - 1;
    assert SoundWord(orig, Addrs(s.bps), s.bps[j]);
    assert s.bps[j].addr != s.bps[id].addr;
    DelSettles(orig, s, id);
    ErasedAddrs(s.bps, id);
    EraseAt(s.bps, id, j);
    SecondDeletion(s.Del(id), j', s.bps[j], s.bps[id].addr);
  }

  lemma DelEffect(s: Session, id: nat)
    requires s.phase == Running && id < |s.bps|
    ensures s.Del(id) == if s.Reachable(s.bps[id].addr)
                         then s.Poked(s.bps[id].orig).(bps := Erase(s.bps, id)) else s.Fail()
  {}

  lemma TwoBps(s: Session, a: U64, d: nat)
    requires 0 < d < 8 && a + d < TWO64 && s.bps == [] && !s.ended && Adds(s, a + d) && BpArms(s, a)
    ensures !s.Bp(a + d).ended
    ensures var c1 := s.child.code[a + d := INT3];
      s.Bp(a + d).Bp(a) == s.(child := s.child.(code := c1[a := INT3]),
                              bps := [Breakpoint(0, a + d, Peek(s.child.code, a + d)), Breakpoint(1, a, Peek(c1, a))])
  {
    var s1 := s.(child := s.child.(code := s.child.code[a + d := INT3]),
                 bps := [Breakpoint(0, a + d, Peek(s.child.code, a + d))]);
    assert s.Bp(a + d) == s1 by { BpEffect(s, a + d); }
    assert BpArms(s1, a) && !Listed(s1.bps, a);
    BpEffect(s1, a);
  }

  lemma TwoDels(s: Session, b0: Breakpoint, b1: Breakpoint)
    requires s.phase == Running && s.bps == [b0, b1] && s.Reachable(b0.addr) && s.Reachable(b1.addr) && !s.ended
    ensures !s.Del(0).ended
    ensures s.Del(0).Del(0) == s.Poked(b0.orig).Poked(b1.orig).(bps := [])
  {
    DelEffect(s, 0);
    assert Erase(s.bps, 0) == [b1.(id := 0)];
    DelEffect(s.Del(0), 0);
  }

  lemma OverlapCode(c: Code, a: U64, d: nat)
    requires 0 < d < 8 && a + d < TWO64 && Mapped(c, a) && Mapped(c, a + d)
    ensures var c1 := c[a + d := INT3];
      Mapped(c1, a) && Poke(Poke(c1[a := INT3], Peek(c, a + d)), Peek(c1, a)) == c1
  {
    var c1 := c[a + d := INT3];
    assert Poke(Poke(c1[a := INT3], Peek(c, a + d)), Peek(c1, a)).Keys == c1.Keys;
  }

  // For example: breakpoints at a + d and then at a, deleted in that order, leave 0xcc at a + d.
  lemma OverlapLeaves(s: Session, a: U64, d: nat)
    requires 0 < d < 8 && a + d < TWO64 && s.bps == [] && !s.ended && Adds(s, a + d) && BpArms(s, a)
    ensures !s.Bp(a + d).ended && !s.Bp(a + d).Bp(a).ended && !s.Bp(a + d).Bp(a).Del(0).ended
    ensures s.Bp(a + d).Bp(a).Del(0).Del(0) == s.(child := s.child.(code := s.child.code[a + d := INT3]), bps := [])
    ensures s.child.code[a + d := INT3] != s.child.code
  {
    var c := s.child.code;
    var c1 := c[a + d := INT3];
    var b0, b1 := Breakpoint(0, a + d, Peek(c, a + d)), Breakpoint(1, a, Peek(c1, a));
    var s2 := s.(child := s.child.(code := c1[a := INT3]), bps := [b0, b1]);
    TwoBps(s, a, d);
    TwoDels(s2, b0, b1);
    OverlapCode(c, a, d);
    assert c1[a + d] == INT3 != c[a + d];
  }

  // With nothing listed, a settled child has its own code back.
  lemma NothingListed(orig: Code, s: Session)
    requires Settled(orig, s) && s.alive && s.bps == []
    ensures s.child.code == orig
  {
    forall a | a in s.child.code ensures s.child.code[a] == orig[a] {
      assert OwnOrInt3(orig, Addrs(s.bps), a, s.child.code[a]);
    }
  }

  // Listed addresses at least a word apart.
  predicate Spaced(bps: seq<Breakpoint>) {
    forall i, j :: 0 <= i < |bps| && 0 <= j < |bps| && i != j
      ==> bps[i].addr + 8 <= bps[j].addr || bps[j].addr + 8 <= bps[i].addr
  }

  lemma SpacedNotHeld(bps: seq<Breakpoint>, id: nat)
    requires Spaced(bps) && id < |bps|
    requires forall j :: 0 <= j < |bps| ==> IsWord(bps[j].orig, bps[j].addr)
    requires IsWord(bps[id].orig, bps[id].addr) && bps[id].orig[bps[id].addr] != INT3
    ensures NotHeld(bps, id)
  {}

  // Each deletion is of an entry no other saved word holds the 0xcc of.
  predicate Careful(s: Session, ids: seq<int>)
    decreases ids
  {
    ids == [] || ((0 <= ids[0] < |s.bps| ==> NotHeld(s.bps, ids[0])) && Careful(s.Del(ids[0]), ids[1..]))
  }

  function Deletions(ids: seq<int>): seq<Command> {
    if ids == [] then [] else [Delete(ids[0])] + Deletions(ids[1..])
  }

  lemma {:induction false} CarefulDeletions(orig: Code, s: Session, ids: seq<int>)
    requires Settled(orig, s) && s.phase == Running && s.alive && !s.ended && Careful(s, ids)
    ensures var t := ApplyAll(s, Deletions(ids));
      Settled(orig, t) && t.alive && (t.bps == [] ==> t.child.code == orig)
    decreases ids
  {
    if ids == [] {
      if s.bps == [] { NothingListed(orig, s); }
    } else {
      if 0 <= ids[0] < |s.bps| { DelSettles(orig, s, ids[0]); }
      assert Deletions(ids)[1..] == Deletions(ids[1..]);
      CarefulDeletions(orig, s.Del(ids[0]), ids[1..]);
    }
  }

  lemma {:induction false} SpacedIsCareful(orig: Code, s: Session, ids: seq<int>)
    requires Settled(orig, s) && s.phase == Running && s.alive && Spaced(s.bps)
    ensures Careful(s, ids)
    decreases ids
  {
    if ids != [] {
      if 0 <= ids[0] < |s.bps| {
        forall j | 0 <= j < |s.bps| ensures SoundWord(orig, Addrs(s.bps), s.bps[j]) {}
        SpacedNotHeld(s.bps, ids[0]);
        DelSettles(orig, s, ids[0]);
        assert Spaced(s.Del(ids[0]).bps) by { SpacedErase(s.bps, ids[0]); }
      }
      SpacedIsCareful(orig, s.Del(ids[0]), ids[1..]);
    }
  }

  lemma SpacedErase(bps: seq<Breakpoint>, id: nat)
    requires Spaced(bps) && id < |bps|
    ensures Spaced(Erase(bps, id))
  {
    var r := Erase(bps, id);
    forall i, j | 0 <= i < |r| && 0 <= j < |r| && i != j
      ensures r[i].addr + 8 <= r[j].addr || r[j].addr + 8 <= r[i].addr
    {
      assert r[i].addr == bps[if i < id then i else i + 1].addr;
      assert r[j].addr == bps[if j < id then j else j + 1].addr;
    }
  }

  // With breakpoints at least eight bytes apart, deleting them all, in any order, restores the program's text.
  lemma SpacedDeletionsRestore(orig: Code, s: Session, ids: seq<int>)
    requires Settled(orig, s) && s.phase == Running && s.alive && !s.ended && Spaced(s.bps)
    requires ApplyAll(s, Deletions(ids)).bps == []
    ensures ApplyAll(s, Deletions(ids)).child.code == orig
  {
    SpacedIsCareful(orig, s, ids);
    CarefulDeletions(orig, s, ids);
  }

  // ---- exactly when deletions restore the text -----------------------------------------------------------------

  // The entries a sequence of deletions takes out, in order; an id that is not in the list takes none.
  function Removed(bps: seq<Breakpoint>, ids: seq<int>): seq<Breakpoint>
    decreases |ids|
  {
    if ids == [] then []
    else if 0 <= ids[0] < |bps| then [bps[ids[0]]] + Removed(Erase(bps, ids[0]), ids[1..])
    else Removed(bps, ids[1..])
  }

  // Entry k of rs is the last whose word covers x.
  predicate LastCovers(rs: seq<Breakpoint>, k: nat, x: U64) {
    k < |rs| && x in rs[k].orig && forall j :: k < j < |rs| ==> x !in rs[j].orig
  }

  predicate Uncovered(rs: seq<Breakpoint>, x: U64) {
    forall j :: 0 <= j < |rs| ==> x !in rs[j].orig
  }

  // Putting back the words of rs in order leaves 0xcc at x.
  ghost predicate Leaves(code: Code, rs: seq<Breakpoint>, x: U64) {
    (exists k: nat :: LastCovers(rs, k, x) && rs[k].orig[x] == INT3)
    || (Uncovered(rs, x) && x in code && code[x] == INT3)
  }

  // One word more at the front matters only to the bytes no later word covers.
  lemma LeavesNext(code: Code, b: Breakpoint, rs: seq<Breakpoint>, x: U64)
    requires x in code
    ensures Leaves(code, [b] + rs, x) <==> Leaves(Poke(code, b.orig), rs, x)
  {
    var all := [b] + rs;
    assert forall j :: 0 <= j < |rs| ==> all[j + 1] == rs[j];
    if Uncovered(rs, x) {
      assert forall j {:trigger all[j]} :: 0 < j < |all| ==> all[j] == rs[j - 1];
      assert x in b.orig ==> LastCovers(all, 0, x);
      assert x !in b.orig ==> Uncovered(all, x);
    } else {
      var k := LastCover(rs, x);
      assert forall j {:trigger all[j]} :: k + 1 < j < |all| ==> all[j] == rs[j - 1];
      assert LastCovers(all, k + 1, x) && all[k + 1] == rs[k];
    }
  }

  lemma {:induction false} LastCover(rs: seq<Breakpoint>, x: U64) returns (k: nat)
    requires !Uncovered(rs, x)
    ensures LastCovers(rs, k, x)
  {
    k := |rs| - 1;
    if x !in rs[k].orig {
      k := LastCover(rs[..k], x);
    }
  }

  lemma {:induction false} DeletionsLeave(orig: Code, ever: set<U64>, s: Session, ids: seq<int>, x: U64)
    requires Bookkept(s) && Sound(orig, ever, s) && s.phase == Running && s.alive && !s.ended && x in orig
    ensures var t := ApplyAll(s, Deletions(ids));
      && Sound(orig, ever, t) && t.alive
      && (t.child.code[x] == INT3 <==> Leaves(s.child.code, Removed(s.bps, ids), x))
    decreases ids
  {
    if ids == [] {
      assert Removed(s.bps, ids) == [];
    } else {
      var id := ids[0];
      DelKeeps(orig, ever, s, id);
      assert Deletions(ids)[1..] == Deletions(ids[1..]);
      if 0 <= id < |s.bps| {
        RestoreKeepsSound(orig, ever, s, id);
        LeavesNext(s.child.code, s.bps[id], Removed(Erase(s.bps, id), ids[1..]), x);
      }
      DeletionsLeave(orig, ever, s.Del(id), ids[1..], x);
    }
  }

  lemma {:induction false} DeletionsKeepKeys(orig: Code, ever: set<U64>, s: Session, ids: seq<int>)
    requires Bookkept(s) && Sound(orig, ever, s) && s.phase == Running && s.alive && !s.ended
    ensures ApplyAll(s, Deletions(ids)).child.code.Keys == orig.Keys
    decreases ids
  {
    if ids != [] {
      DelKeeps(orig, ever, s, ids[0]);
      if 0 <= ids[0] < |s.bps| { RestoreKeepsSound(orig, ever, s, ids[0]); }
      assert Deletions(ids)[1..] == Deletions(ids[1..]);
      DeletionsKeepKeys(orig, ever, s.Del(ids[0]), ids[1..]);
    }
  }

  // In any state, whatever overlaps: the deletions bring the program's text back exactly when, at every address that
  // ever had a breakpoint, the last deleted word covering it has no 0xcc there (and, if none covers it, neither does
  // the child).
  lemma DeletionsRestoreExactly(orig: Code, ever: set<U64>, s: Session, ids: seq<int>)
    requires Bookkept(s) && Sound(orig, ever, s) && s.phase == Running && s.alive && !s.ended
    ensures ApplyAll(s, Deletions(ids)).child.code == orig
      <==> forall x :: x in ever && x in orig && orig[x] != INT3 ==> !Leaves(s.child.code, Removed(s.bps, ids), x)
  {
    var t := ApplyAll(s, Deletions(ids));
    var rs := Removed(s.bps, ids);
    DeletionsKeepKeys(orig, ever, s, ids);
    forall x | x in orig
      ensures OwnOrInt3(orig, ever, x, t.child.code[x])
      ensures t.child.code[x] == INT3 <==> Leaves(s.child.code, rs, x)
    {
      DeletionsLeave(orig, ever, s, ids, x);
    }
    if forall x :: x in ever && x in orig && orig[x] != INT3 ==> !Leaves(s.child.code, rs, x) {
      forall x | x in orig ensures t.child.code[x] == orig[x] {}
    }
  }

  lemma DelEither(s: Session, id: int)
    requires s.phase == Running
    ensures s.Del(id).phase == Running
    ensures s.Del(id).ended && !s.ended ==> s.Del(id).bps == s.bps && 0 <= id < |s.bps|
    ensures !s.Del(id).ended && 0 <= id < |s.bps| ==> s.Del(id).bps == Erase(s.bps, id)
    ensures !(0 <= id < |s.bps|) ==> s.Del(id) == s
  {}

  lemma {:induction false} EndedStays(s: Session, cs: seq<Command>)
    requires s.ended
    ensures ApplyAll(s, cs) == s
    decreases cs
  {
    if cs != [] {
      EndedStays(s, cs[1..]);
    }
  }

  // When the deletions empty the list, every entry of it is among those taken out.
  lemma {:induction false} EmptiedRemovesAll(s: Session, ids: seq<int>, i: nat) returns (k: nat)
    requires s.phase == Running && i < |s.bps| && ApplyAll(s, Deletions(ids)).bps == [] && !s.ended
    ensures var rs := Removed(s.bps, ids); k < |rs| && rs[k].addr == s.bps[i].addr && rs[k].orig == s.bps[i].orig
    decreases |ids|
  {
    assert ids != [];
    var id := ids[0];
    assert Deletions(ids)[1..] == Deletions(ids[1..]);
    DelEither(s, id);
    if s.Del(id).ended { EndedStays(s.Del(id), Deletions(ids[1..])); }
    if !(0 <= id < |s.bps|) {
      k := EmptiedRemovesAll(s, ids[1..], i);
    } else if id == i {
      k := 0;
    } else {
      EraseAt(s.bps, id, i);
      k := EmptiedRemovesAll(s.Del(id), ids[1..], if i < id then i else i - 1);
      k := k + 1;
    }
  }

  // Deleting everything, in any order, restores the text exactly when for every listed address the last deleted word
  // that covers it does not hold its 0xcc.
  lemma DeletingAllRestoresExactly(orig: Code, s: Session, ids: seq<int>)
    requires Settled(orig, s) && s.phase == Running && s.alive && !s.ended
    requires ApplyAll(s, Deletions(ids)).bps == []
    ensures var rs := Removed(s.bps, ids);
      ApplyAll(s, Deletions(ids)).child.code == orig
      <==> forall x: U64, k: nat :: x in Addrs(s.bps) && LastCovers(rs, k, x) ==> rs[k].orig[x] != INT3
  {
    var rs := Removed(s.bps, ids);
    DeletionsRestoreExactly(orig, Addrs(s.bps), s, ids);
    forall x | x in Addrs(s.bps) ensures x in orig && orig[x] != INT3 && !Uncovered(rs, x) {
      var i :| 0 <= i < |s.bps| && s.bps[i].addr == x;
      assert SoundWord(orig, Addrs(s.bps), s.bps[i]);
      var k := EmptiedRemovesAll(s, ids, i);
      assert x in rs[k].orig;
    }
  }

  // From the start of the debugger, after any session whatever.
  lemma SessionDeletionsRestoreExactly(p: Program, cs: seq<Command>, ids: seq<int>)
    requires AllPossible(p, INITIAL, cs) && AllLeaveCode(INITIAL, cs)
    requires var s := ApplyAll(INITIAL, cs); s.phase == Running && s.alive && !s.ended
    ensures var s := ApplyAll(INITIAL, cs);
      ApplyAll(s, Deletions(ids)).child.code == p.code
      <==> forall x :: Break(x) in cs && x in p.code && p.code[x] != INT3
                       ==> !Leaves(s.child.code, Removed(s.bps, ids), x)
  {
    var s := ApplyAll(INITIAL, cs);
    var ever := EverListed(INITIAL, cs);
    var asked := set c | c in cs && c.Break? :: c.addr;
    SessionKeeps(p, {}, INITIAL, cs);
    assert {} + ever == ever;
    forall x ensures x in asked <==> Break(x) in cs {
      if Break(x) in cs { assert Break(x).addr == x; }
    }
    forall x | x in ever ensures x in asked { EverListedWasAsked(INITIAL, cs, x); }
    SoundForMore(p.code, ever, asked, s);
    DeletionsRestoreExactly(p.code, asked, s, ids);
  }

  // ---- sessions that keep breakpoints apart --------------------------------------------------------------------

  predicate AllSpaced(s: Session, cs: seq<Command>)
    decreases cs
  {
    Spaced(s.bps) && (cs == [] || AllSpaced(Apply(s, cs[0]), cs[1..]))
  }

  // Only a delete that goes through takes an address out of the list.
  lemma OthersKeepListed(s: Session, c: Command)
    requires !(c.Delete? && !s.ended && s.phase == Running && s.alive && 0 <= c.id < |s.bps|)
    ensures Addrs(s.bps) <= Addrs(Apply(s, c).bps)
  {
    match c
    case Break(a) => BpLists(s, a);
    case Continue(w) => ResumingKeepsFrame(s, w);
    case StepInto(w) => ResumingKeepsFrame(s, w);
    case RunIt(f, w) => ResumingKeepsFrame(s, w); ResumingKeepsFrame(s.Start(f), w);
    case _ =>
  }

  lemma SpacedCommandSettles(p: Program, s: Session, c: Command)
    requires Settled(p.code, s) && Possible(p, s, c) && LeavesCode(s, c) && Spaced(s.bps)
    ensures Settled(p.code, Apply(s, c))
  {
    CommandKeeps(p, Addrs(s.bps), s, c);
    if c.Delete? && !s.ended && s.phase == Running && s.alive && 0 <= c.id < |s.bps| {
      forall j | 0 <= j < |s.bps| ensures SoundWord(p.code, Addrs(s.bps), s.bps[j]) {}
      SpacedNotHeld(s.bps, c.id);
      DelSettles(p.code, s, c.id);
    } else {
      OthersKeepListed(s, c);
      assert Addrs(s.bps) + Addrs(Apply(s, c).bps) == Addrs(Apply(s, c).bps);
    }
  }

  // Whatever else happens, breakpoints kept apart stay accounted for.
  lemma {:induction false} SpacedSessionSettles(p: Program, s: Session, cs: seq<Command>)
    requires Settled(p.code, s) && AllPossible(p, s, cs) && AllLeaveCode(s, cs) && AllSpaced(s, cs)
    ensures Settled(p.code, ApplyAll(s, cs))
    decreases cs
  {
    if cs != [] {
      SpacedCommandSettles(p, s, cs[0]);
      SpacedSessionSettles(p, Apply(s, cs[0]), cs[1..]);
    }
  }

  lemma {:induction false} SpacedStaysSpaced(s: Session, cs: seq<Command>)
    requires AllSpaced(s, cs)
    ensures Spaced(ApplyAll(s, cs).bps)
    decreases cs
  {
    if cs != [] {
      SpacedStaysSpaced(Apply(s, cs[0]), cs[1..]);
    }
  }

  // A session that keeps breakpoints at least eight bytes apart can delete them all, in any order, and has the
  // program's text back.
  lemma SpacedSessionRestores(p: Program, cs: seq<Command>, ids: seq<int>)
    requires AllPossible(p, INITIAL, cs) && AllLeaveCode(INITIAL, cs) && AllSpaced(INITIAL, cs)
    requires var s := ApplyAll(INITIAL, cs);
      s.phase == Running && s.alive && !s.ended && ApplyAll(s, Deletions(ids)).bps == []
    ensures ApplyAll(ApplyAll(INITIAL, cs), Deletions(ids)).child.code == p.code
  {
    SpacedSessionSettles(p, INITIAL, cs);
    SpacedStaysSpaced(INITIAL, cs);
    SpacedDeletionsRestore(p.code, ApplyAll(INITIAL, cs), ids);
  }
}
