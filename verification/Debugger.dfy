// The debugger: its state as a value, each command as a function on that value, and the class whose methods carry
// the commands out step by step and are proved to compute those functions.
module Debugger {
  import opened Words
  import opened Tracee

  datatype Phase = NonLoad | Loaded | Running

  datatype Breakpoint = Breakpoint(id: int, addr: U64, orig: Word)

  // What fork, execve and the first waitpid give `start`: a child stopped at its entry point, or a failed call.
  datatype Fork = Forked(pid: int, child: Machine) | ForkFailed

  datatype Section = Section(name: string, addr: U64, size: U64)

  // What `load` finds at the path it is given.
  datatype File = NoPath | Unreadable | NotElf | NotElf64 | Elf64(sections: seq<Section>)

  const REGISTERS: set<string> := {"rax", "rbx", "rcx", "rdx", "r8", "r9", "r10", "r11", "r12", "r13", "r14", "r15",
                                   "rdi", "rsi", "rbp", "rsp", "flags"}

  // The first section called .text; none leaves the zero-initialised header.
  function TextOf(sections: seq<Section>): Section {
    if sections == [] then Section("", 0, 0)
    else if sections[0].name == ".text" then sections[0]
    else TextOf(sections[1..])
  }

  function Addrs(bps: seq<Breakpoint>): set<U64> {
    set i | 0 <= i < |bps| :: bps[i].addr
  }

  predicate Listed(bps: seq<Breakpoint>, a: U64) {
    exists i :: 0 <= i < |bps| && bps[i].addr == a
  }

  // Each entry's id is its index.
  predicate Numbered(bps: seq<Breakpoint>) {
    forall i :: 0 <= i < |bps| ==> bps[i].id == i
  }

  // The list without entry `id`, the entries after it renumbered.
  function Erase(bps: seq<Breakpoint>, id: nat): (r: seq<Breakpoint>)
    requires id < |bps|
    ensures |r| == |bps| - 1
    ensures forall j {:trigger r[j]} :: 0 <= j < id ==> r[j] == bps[j]
    ensures forall j {:trigger r[j]} :: id <= j < |r| ==> r[j] == bps[j + 1].(id := j)
  {
    seq(|bps| - 1, j requires 0 <= j < |bps| - 1 => if j < id then bps[j] else bps[j + 1].(id := j))
  }

  // `ended` says the debugger itself has exited, which every failed system call makes it do. `alive` says the child
  // can still be traced; `child` is meaningful only then.
  datatype Session = Session(phase: Phase, pid: int, bps: seq<Breakpoint>, lo: U64, hi: U64,
                             alive: bool, child: Machine, ended: bool)
  {
    function Fail(): Session { this.(ended := true) }

    function Rip(): U64 { child.at.rip }

    predicate InText(a: U64) { lo <= a < hi }

    // A word of the child's code can be moved; otherwise the ptrace call fails.
    predicate Reachable(a: U64) { alive && Mapped(child.code, a) }

    function Poked(w: Word): Session { this.(child := child.(code := Poke(child.code, w))) }

    function AtRip(rip: U64): Session { this.(child := child.(at := child.at.(rip := rip))) }

    // bp. On an unmapped word the peek answers -1, whose low byte is not 0xcc, and the poke then fails.
    function Bp(a: U64): (s: Session)
      ensures Listed(bps, a) ==> s.bps == bps
    {
      if phase != Running || !InText(a) then this
      else if !Reachable(a) then Fail()
      else
        var word := Peek(child.code, a);
        if word[a] == INT3 then this
        else
          var armed := Poked(word[a := INT3]);
          if Listed(bps, a) then armed else armed.(bps := bps + [Breakpoint(|bps|, a, word)])
    }

    // del, for a list whose ids are indices.
    function Del(id: int): Session {
      if phase != Running || !(0 <= id < |bps|) then this
      else if !Reachable(bps[id].addr) then Fail()
      else Poked(bps[id].orig).(bps := Erase(bps, id))
    }

    // chkbp from entry i on: set every listed breakpoint above rip again.
    function ChkFrom(i: nat): Session
      decreases |bps| - i
    {
      if ended || i >= |bps| then this
      else if bps[i].addr > Rip() then
        assert Listed(bps, bps[i].addr);
        Bp(bps[i].addr).ChkFrom(i + 1)
      else ChkFrom(i + 1)
    }

    function Chkbp(): Session {
      if !alive then Fail() else ChkFrom(0)
    }

    // The loop of cont over the list after a SIGTRAP stop, from entry i on: an entry one byte below rip has its word
    // put back and rip set to it, and the scan goes on with the new rip.
    function HitFrom(i: nat): Session
      decreases |bps| - i
    {
      if ended || i >= |bps| then this
      else if bps[i].addr == Dec(Rip()) then
        if !Reachable(bps[i].addr) then Fail()
        else Poked(bps[i].orig).AtRip(Dec(Rip())).HitFrom(i + 1)
      else HitFrom(i + 1)
    }

    // The same loop in si: an entry at rip has its word put back.
    function LandFrom(i: nat): Session
      decreases |bps| - i
    {
      if ended || i >= |bps| then this
      else if bps[i].addr == Rip() then
        if !Reachable(bps[i].addr) then Fail() else Poked(bps[i].orig).LandFrom(i + 1)
      else LandFrom(i + 1)
    }

    // What the answer of waitpid changes. A child killed by a signal leaves `state` and `pid` as they are.
    function Waited(w: Wait): Session {
      match w
      case Exited(_) => this.(pid := 0, phase := Loaded, alive := false)
      case Died(_) => this.(alive := false)
      case Stopped(_, child') => this.(child := child')
    }

    function Cont(w: Wait): Session {
      if phase != Running then this
      else
        var armed := Chkbp();
        if armed.ended then armed
        else if w.Stopped? && w.sig == SIGTRAP then armed.Waited(w).HitFrom(0)
        else armed.Waited(w)
    }

    function Si(w: Wait): Session {
      if phase != Running then this
      else
        var armed := Chkbp();
        if armed.ended then armed
        else if w.Stopped? && w.sig == SIGTRAP then armed.Waited(w).LandFrom(0)
        else armed.Waited(w)
    }

    function Start(f: Fork): Session {
      if phase != Loaded || pid != 0 then this
      else if f.ForkFailed? then Fail()
      else this.(pid := f.pid, phase := Running, alive := true, child := f.child)
    }

    function Run(f: Fork, w: Wait): Session {
      match phase
      case Running => Cont(w)
      case Loaded => if Start(f).ended then Start(f) else Start(f).Cont(w)
      case NonLoad => this
    }

    // load. A file that is not a 64-bit ELF changes nothing that matters later.
    function Load(file: File): Session {
      if phase != NonLoad then this
      else match file
        case NoPath => this
        case Unreadable => Fail()
        case NotElf => this
        case NotElf64 => this
        case Elf64(sections) =>
          var text := TextOf(sections);
          this.(phase := Loaded, lo := text.addr, hi := (text.addr + text.size) % TWO64)
    }

    function Set(reg: string, val: U64): Session {
      if phase != Running then this
      else if !alive then Fail()
      else if reg == "rip" then AtRip(val)
      else if reg in REGISTERS then
        this.(child := child.(at := child.at.(data := child.at.data.(regs := child.at.data.regs[reg := val]))))
      else this
    }
  }

  // The debugger as it starts.
  const INITIAL: Session :=
    Session(NonLoad, 0, [], 0, 0, false, Machine(map[], Point(0, Data(map[], map[], []))), false)

  class Debugger {
    var phase: Phase
    var pid: int
    var bpList: seq<Breakpoint>
    var textLo: U64
    var textHi: U64
    var alive: bool
    var child: Machine
    var ended: bool

    ghost function View(): Session
      reads this
    {
      Session(phase, pid, bpList, textLo, textHi, alive, child, ended)
    }

    constructor ()
      ensures View() == INITIAL
    {
      phase, pid, bpList, textLo, textHi := NonLoad, 0, [], 0, 0;
      alive, child, ended := false, Machine(map[], Point(0, Data(map[], map[], []))), false;
    }

    // ptrace(PTRACE_POKETEXT, ...) of a word at a, with error() on failure.
    method PokeText(a: U64, w: Word)
      requires !ended
      modifies this`child, this`ended
      ensures View() == if old(View()).Reachable(a) then old(View()).Poked(w) else old(View()).Fail()
    {
      if alive && Mapped(child.code, a) {
        child := child.(code := Poke(child.code, w));
      } else {
        ended := true;
      }
    }

    method Bp(a: U64)
      requires !ended
      modifies this
      ensures View() == old(View()).Bp(a)
    {
      if phase != Running || !(textLo <= a < textHi) {
        return;
      }
      if alive && Mapped(child.code, a) {
        var word := Peek(child.code, a);
        if word[a] == INT3 {
          return;
        }
        PokeText(a, word[a := INT3]);
        ghost var armed := View();
        assert armed == old(View()).Poked(word[a := INT3]);
        var i := 0;
        while i < |bpList|
          invariant 0 <= i <= |bpList| && View() == armed
          invariant forall j :: 0 <= j < i ==> bpList[j].addr != a
        {
          if bpList[i].addr == a {
            assert Listed(bpList, a);
            return;
          }
          i := i + 1;
        }
        assert !Listed(bpList, a);
        bpList := bpList + [Breakpoint(|bpList|, a, word)];
      } else {
        // The failed peek gave -1; its low byte is 0xff, so the code goes on to a poke that fails too.
        PokeText(a, map[a := INT3]);
      }
    }

    // The search compares ids, the poke and the erasure use the id as an index, and the last loop numbers the
    // entries from position i on: all three agree because ids are indices.
    method Del(id: int)
      requires !ended && Numbered(bpList)
      modifies this
      ensures View() == old(View()).Del(id)
      ensures Numbered(bpList)
    {
      if phase != Running {
        return;
      }
      var i := 0;
      while i < |bpList|
        invariant 0 <= i <= |bpList| && (0 <= id ==> i <= id)
        invariant View() == old(View())
      {
        if bpList[i].id == id {
          PokeText(bpList[id].addr, bpList[id].orig);
          if ended {
            return;
          }
          bpList := bpList[..id] + bpList[id + 1..];
          var j := i;
          while j < |bpList|
            invariant i <= j <= |bpList| == |old(bpList)| - 1
            invariant forall k :: 0 <= k < j ==> bpList[k] == Erase(old(bpList), id)[k]
            invariant forall k :: j <= k < |bpList| ==> bpList[k] == old(bpList)[k + 1]
            invariant View() == old(View()).Poked(old(bpList)[id].orig).(bps := bpList)
          {
            bpList := bpList[j := bpList[j].(id := id + j - i)];
            j := j + 1;
          }
          assert bpList == Erase(old(bpList), id);
          return;
        }
        i := i + 1;
      }
    }

    method Chkbp()
      requires !ended
      modifies this
      ensures View() == old(View()).Chkbp()
    {
      if !alive {
        ended := true;
        return;
      }
      var rip := child.at.rip;
      var i := 0;
      while !ended && i < |bpList|
        invariant 0 <= i <= |bpList| && View().Rip() == rip
        invariant View().ChkFrom(i) == old(View()).ChkFrom(0)
        decreases |bpList| - i
      {
        if bpList[i].addr > rip {
          assert Listed(bpList, bpList[i].addr);
          Bp(bpList[i].addr);
        }
        i := i + 1;
      }
    }

    // What cont and si do with the answer of waitpid before they look at the list.
    method Wait(w: Wait) returns (trapped: bool)
      requires !ended
      modifies this
      ensures View() == old(View()).Waited(w)
      ensures trapped == (w.Stopped? && w.sig == SIGTRAP)
    {
      trapped := false;
      match w {
        case Exited(_) =>
          pid, phase, alive := 0, Loaded, false;
        case Died(_) =>
          alive := false;
        case Stopped(sig, stopped) =>
          child := stopped;
          trapped := sig == SIGTRAP;
      }
    }

    method Cont(w: Wait)
      requires !ended
      modifies this
      ensures View() == old(View()).Cont(w)
    {
      if phase != Running {
        return;
      }
      Chkbp();
      if ended {
        return;
      }
      var trapped := Wait(w);
      if trapped {
        ghost var stopped := View();
        var rip := child.at.rip;
        var i := 0;
        while !ended && i < |bpList|
          invariant 0 <= i <= |bpList| && View().Rip() == rip
          invariant View().HitFrom(i) == stopped.HitFrom(0)
          decreases |bpList| - i
        {
          if bpList[i].addr == Dec(rip) {
            PokeText(bpList[i].addr, bpList[i].orig);
            if ended {
              return;
            }
            rip := Dec(rip);
            child := child.(at := child.at.(rip := rip));
          }
          i := i + 1;
        }
      }
    }

    method Si(w: Wait)
      requires !ended
      modifies this
      ensures View() == old(View()).Si(w)
    {
      if phase != Running {
        return;
      }
      Chkbp();
      if ended {
        return;
      }
      var trapped := Wait(w);
      if trapped {
        ghost var stopped := View();
        var i := 0;
        while !ended && i < |bpList|
          invariant 0 <= i <= |bpList|
          invariant View().LandFrom(i) == stopped.LandFrom(0)
          decreases |bpList| - i
        {
          if bpList[i].addr == child.at.rip {
            PokeText(bpList[i].addr, bpList[i].orig);
          }
          i := i + 1;
        }
      }
    }

    method Start(f: Fork)
      requires !ended
      modifies this
      ensures View() == old(View()).Start(f)
    {
      if phase != Loaded || pid != 0 {
        return;
      }
      match f {
        case ForkFailed =>
          ended := true;
        case Forked(newPid, stopped) =>
          pid, phase := newPid, Running;
          alive, child := true, stopped;
      }
    }

    method Run(f: Fork, w: Wait)
      requires !ended
      modifies this
      ensures View() == old(View()).Run(f, w)
    {
      if phase == Running {
        Cont(w);
      } else if phase == Loaded {
        Start(f);
        if !ended {
          Cont(w);
        }
      }
    }

    method Load(file: File)
      requires !ended
      modifies this
      ensures View() == old(View()).Load(file)
    {
      if phase != NonLoad {
        return;
      }
      match file {
        case NoPath =>
        case Unreadable =>
          ended := true;
        case NotElf =>
        case NotElf64 =>
        case Elf64(sections) =>
          var text := Section("", 0, 0);
          var i := 0;
          while i < |sections|
            invariant 0 <= i <= |sections|
            invariant TextOf(sections[i..]) == TextOf(sections) && text == Section("", 0, 0)
          {
            if sections[i].name == ".text" {
              text := sections[i];
              break;
            }
            i := i + 1;
          }
          textLo, textHi := text.addr, (text.addr + text.size) % TWO64;
          phase := Loaded;
      }
    }

    method Set(reg: string, val: U64)
      requires !ended
      modifies this
      ensures View() == old(View()).Set(reg, val)
    {
      if phase != Running {
        return;
      }
      if !alive {
        ended := true;
        return;
      }
      if reg == "rip" {
        child := child.(at := child.at.(rip := val));
      } else if reg in REGISTERS {
        var data := child.at.data;
        child := child.(at := child.at.(data := data.(regs := data.regs[reg := val])));
      }
    }
  }
}
