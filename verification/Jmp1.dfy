// The program of jmp1.c, with n functions: a loop made of longjmp alone.
//
// main and the functions are compiled C, so they are modelled by what they do at the points setjmp and longjmp are
// called and return; setjmp and longjmp are the listing, instruction by instruction.
module Jmp1 {
  import opened Words
  import opened X86
  import opened SetJmp

  // `saved` is what main's setjmp keeps; `jb` the static jump buffer; `counter` the word of main's frame that holds the
  // volatile int i, in its upper or its lower half; [low, saved.rsp) the part of the stack below that frame, which the
  // functions may use.
  datatype Setting = Setting(n: nat, saved: Saved, jb: U64, counter: U64, upper: bool, low: U64)

  const TWO32: int := 0x1_0000_0000

  type U32 = x: int | 0 <= x < 0x1_0000_0000

  // One half of a word, and the word with that half replaced.
  function Half(w: U64, upper: bool): U32 { if upper then w / TWO32 else w % TWO32 }

  function WithHalf(w: U64, upper: bool, v: U32): U64 {
    if upper then v * TWO32 + w % TWO32 else w / TWO32 * TWO32 + v
  }

  lemma HalvesApart(w: U64, upper: bool, v: U32)
    ensures Half(WithHalf(w, upper, v), upper) == v
    ensures Half(WithHalf(w, upper, v), !upper) == Half(w, !upper)
  {}

  // The value of i, as the bits of an int.
  function Index(e: Setting, s: Cpu): U32
    requires e.counter in s.mem
  {
    Half(s.mem[e.counter], e.upper)
  }

  predicate Proper(e: Setting) {
    && e.n < 0x8000_0000
    && e.saved.rip >= LENGTH && Blockable(e.saved.mask)
    && e.low + 64 <= e.saved.rsp <= e.counter
    && Apart(e.jb, e.low, e.saved.rsp) && Apart(e.jb, e.counter, e.counter as int + 8)
  }

  // Control is where main's setjmp returns, main's frame is in place and its jump buffer filled.
  predicate AtReturn(e: Setting, s: Cpu) {
    && s.rip == e.saved.rip && !s.fault && s.regs[RSP] == e.saved.rsp
    && EnvHolds(s.mem, e.jb, e.saved) && RoomToReturn(s.mem, e.jb, e.saved.rsp)
    && e.counter in s.mem
  }

  // main's test of the int setjmp returned, and its i++.
  function CountUp(e: Setting, s: Cpu): Cpu
    requires e.counter in s.mem
    ensures e.counter in CountUp(e, s).mem
  {
    if s.regs[RAX] % TWO32 == 0 then s
    else s.(mem := s.mem[e.counter := WithHalf(s.mem[e.counter], e.upper, (Index(e, s) + 1) % TWO32)])
  }

  // funs[k], called by main in state s, ends in longjmp(jb, k + 1), having used only the stack below main's frame.
  predicate EndsInLongjmp(e: Setting, k: nat, s: Cpu, later: Cpu) {
    && later.rip == LONGJMP && !later.fault && later.regs[RDI] == e.jb && later.regs[RSI] == k + 1
    && SameOutside(s.mem, later.mem, e.low, e.saved.rsp)
  }

  // What is asked of the compiled functions; they may clobber every register.
  ghost predicate Behave(e: Setting, funs: (nat, Cpu) -> Cpu) {
    forall k: nat, s: Cpu {:trigger funs(k, s)} :: k < e.n && AtReturn(e, s) ==> EndsInLongjmp(e, k, s, funs(k, s))
  }

  // One turn: setjmp has returned in state s, main calls funs[i], and its longjmp makes setjmp return in state `next`.
  ghost predicate Calls(code: seq<Instr>, e: Setting, funs: (nat, Cpu) -> Cpu, s: Cpu, i: nat, next: Cpu) {
    && AtReturn(e, s) && Index(e, CountUp(e, s)) == i < e.n
    && Leads(code, funs(i, CountUp(e, s)), next) && next.rip == e.saved.rip
  }

  // setjmp has returned in state s and main makes no call but returns; a negative i would do neither.
  ghost predicate Returns(e: Setting, s: Cpu) {
    AtReturn(e, s) && e.n <= Index(e, CountUp(e, s)) < 0x8000_0000
  }

  // main from its first return of setjmp to its own return: it makes `calls`, and setjmp returns in the states `at`.
  ghost predicate Plays(code: seq<Instr>, e: Setting, funs: (nat, Cpu) -> Cpu, at: seq<Cpu>, calls: seq<nat>) {
    && |at| == |calls| + 1
    && (forall j :: 0 <= j < |calls| ==> Turns(code, e, funs, at, calls, j))
    && Returns(e, at[|calls|])
  }

  ghost predicate Turns(code: seq<Instr>, e: Setting, funs: (nat, Cpu) -> Cpu, at: seq<Cpu>, calls: seq<nat>, j: nat)
    requires j < |calls| && |at| == |calls| + 1
  {
    Calls(code, e, funs, at[j], calls[j], at[j + 1])
  }

  // The state main is in after its k-th return from setjmp, before the test.
  predicate Turn(e: Setting, s: Cpu, k: nat) {
    && AtReturn(e, s)
    && if k == 0 then s.regs[RAX] == 0 && Index(e, s) == 0 else s.regs[RAX] == k && Index(e, s) == k - 1
  }

  lemma NextTurn(code: seq<Instr>, e: Setting, funs: (nat, Cpu) -> Cpu, s: Cpu, k: nat) returns (next: Cpu)
    requires IsListing(code) && Proper(e) && Behave(e, funs) && Turn(e, s, k) && k < e.n
    ensures AtReturn(e, CountUp(e, s)) && Index(e, CountUp(e, s)) == k
    ensures Leads(code, funs(k, CountUp(e, s)), next) && Turn(e, next, k + 1)
  {
    var s' := CountUp(e, s);
    CountUpKeeps(e, s, k);
    var later := funs(k, s');
    LaterHolds(e, s'.mem, later.mem);
    next := LongjmpRestores(code, later, e.saved);
  }

  lemma CountUpKeeps(e: Setting, s: Cpu, k: nat)
    requires Proper(e) && Turn(e, s, k) && k <= e.n
    ensures AtReturn(e, CountUp(e, s)) && Index(e, CountUp(e, s)) == k
  {
    HalvesApart(s.mem[e.counter], e.upper, k);
  }

  lemma LaterHolds(e: Setting, m: Memory, m': Memory)
    requires Proper(e) && EnvHolds(m, e.jb, e.saved) && RoomToReturn(m, e.jb, e.saved.rsp) && e.counter in m
    requires SameOutside(m, m', e.low, e.saved.rsp)
    ensures EnvHolds(m', e.jb, e.saved) && RoomToReturn(m', e.jb, e.saved.rsp)
    ensures e.counter in m' && m'[e.counter] == m[e.counter]
  {}

  // From its k-th turn on, main calls funs[k], ..., funs[n - 1], once each, and returns.
  lemma {:induction false} PlaysOut(code: seq<Instr>, e: Setting, funs: (nat, Cpu) -> Cpu, s: Cpu, k: nat)
    returns (at: seq<Cpu>, calls: seq<nat>)
    requires IsListing(code) && Proper(e) && Behave(e, funs) && Turn(e, s, k) && k <= e.n
    ensures Plays(code, e, funs, at, calls) && at[0] == s
    decreases e.n - k
  {
    CountUpKeeps(e, s, k);
    if k == e.n {
      at, calls := [s], [];
    } else {
      var next := NextTurn(code, e, funs, s, k);
      var at', calls' := PlaysOut(code, e, funs, next, k + 1);
      at, calls := [s] + at', [k] + calls';
      assert Calls(code, e, funs, s, k, next);
      PlaysMore(code, e, funs, s, k, at', calls');
    }
  }

  lemma PlaysMore(code: seq<Instr>, e: Setting, funs: (nat, Cpu) -> Cpu, s: Cpu, i: nat, at: seq<Cpu>, calls: seq<nat>)
    requires Plays(code, e, funs, at, calls) && Calls(code, e, funs, s, i, at[0])
    ensures Plays(code, e, funs, [s] + at, [i] + calls)
  {
    forall j | 0 <= j < |calls| + 1 ensures Turns(code, e, funs, [s] + at, [i] + calls, j) {
      if j > 0 { assert Turns(code, e, funs, at, calls, j - 1); }
    }
  }

  // A run that has left the listing is where it is.
  lemma LeavesOnce(code: seq<Instr>, s: Cpu, t: Cpu, u: Cpu)
    requires Leads(code, s, t) && Leads(code, s, u) && t.rip >= |code| && u.rip >= |code|
    ensures t == u
  {
    var m: nat :| Steps(code, s, m) == t;
    var n: nat :| Steps(code, s, n) == u;
    if m <= n {
      StepsAdd(code, s, m, n - m);
      StepsHalted(code, t, n - m);
    } else {
      StepsAdd(code, s, n, m - n);
      StepsHalted(code, u, m - n);
    }
  }

  // However main plays, its j-th call is funs[j] and its j-th return of setjmp is its j-th turn.
  lemma {:induction false} PlaysInOrder(code: seq<Instr>, e: Setting, funs: (nat, Cpu) -> Cpu,
                                        at: seq<Cpu>, calls: seq<nat>, j: nat)
    requires IsListing(code) && Proper(e) && Behave(e, funs) && Plays(code, e, funs, at, calls) && Turn(e, at[0], 0)
    requires j <= |calls|
    ensures j <= e.n && Turn(e, at[j], j) && (j < |calls| ==> j < e.n && calls[j] == j)
    decreases j
  {
    if j > 0 {
      PlaysInOrder(code, e, funs, at, calls, j - 1);
      TurnsIntoNext(code, e, funs, at, calls, j - 1);
    }
    CountUpKeeps(e, at[j], j);
    if j < |calls| { assert Turns(code, e, funs, at, calls, j); }
  }

  lemma TurnsIntoNext(code: seq<Instr>, e: Setting, funs: (nat, Cpu) -> Cpu, at: seq<Cpu>, calls: seq<nat>, j: nat)
    requires IsListing(code) && Proper(e) && Behave(e, funs) && |at| == |calls| + 1
    requires j < |calls| && j < e.n && calls[j] == j && Turn(e, at[j], j) && Turns(code, e, funs, at, calls, j)
    ensures Turn(e, at[j + 1], j + 1)
  {
    var next := NextTurn(code, e, funs, at[j], j);
    LeavesOnce(code, funs(j, CountUp(e, at[j])), next, at[j + 1]);
  }

  predicate EachOnceInOrder(calls: seq<nat>, n: nat) {
    |calls| == n && forall j :: 0 <= j < n ==> calls[j] == j
  }

  // main from its call of setjmp, with i = 0: it does get to its return, and however it does, it calls every function
  // once, in index order.
  lemma MainCallsEachOnce(code: seq<Instr>, e: Setting, funs: (nat, Cpu) -> Cpu, s: Cpu) returns (t: Cpu)
    requires IsListing(code) && Proper(e) && Behave(e, funs)
    requires CallsSetjmp(s) && s.regs[RDI] == e.jb && ToSave(s) == e.saved
    requires RoomToReturn(s.mem, e.jb, e.saved.rsp) && e.counter in s.mem && Index(e, s) == 0
    ensures Leads(code, s, t) && t.rip == e.saved.rip
    ensures exists at, calls :: Plays(code, e, funs, at, calls) && at[0] == t
    ensures forall at, calls :: Plays(code, e, funs, at, calls) && at[0] == t ==> EachOnceInOrder(calls, e.n)
  {
    t := SetjmpSaves(code, s);
    var at, calls := PlaysOut(code, e, funs, t, 0);
    forall at, calls | Plays(code, e, funs, at, calls) && at[0] == t
      ensures EachOnceInOrder(calls, e.n)
    {
      PlaysInOrder(code, e, funs, at, calls, |calls|);
      CountUpKeeps(e, at[|calls|], |calls|);
      forall j | 0 <= j < |calls| ensures calls[j] == j { PlaysInOrder(code, e, funs, at, calls, j); }
    }
  }
}
