// The signal sets of libmini.c: a 64-bit word used as a set of the signals 1 to 64.
module SignalSets {
  import opened Powers
  import opened Words

  const NSIG: int := 65
  const EINVAL: int := 22

  predicate IsSignal(signo: int) {
    0 < signo < NSIG
  }

  // 1 << k, doubling k times.
  function Shifted(k: nat): bv64
    requires k < 64
  {
    if k == 0 then 1 else Shifted(k - 1) << 1
  }

  function SigMask(signo: int): bv64
    requires IsSignal(signo)
  {
    Shifted(signo - 1)
  }

  predicate Meets(v: bv64, n: bv64) { v & n != 0 }

  predicate Has(v: bv64, signo: int) {
    IsSignal(signo) && Meets(v, SigMask(signo))
  }

  // The set a word stands for.
  ghost function Members(v: bv64): set<int> {
    set signo | 0 < signo < NSIG && Has(v, signo)
  }

  // The members of a word are the signals 1 to 64 whose bit, number signo - 1, is set.
  lemma MembersAreBits(v: bv64, signo: int)
    ensures signo in Members(v) ==> 1 <= signo <= 64
    ensures 1 <= signo <= 64 ==> (signo in Members(v) <==> Meets(v, Shifted(signo - 1)))
  {}

  // ---- bits ----------------------------------------------------------------------------------------------------

  lemma {:induction false} Pow2Grows(k: nat, n: nat)
    requires k <= n
    ensures 0 < Pow(2, k) <= Pow(2, n)
    decreases n
  {
    if k < n { Pow2Grows(k, n - 1); } else if k > 0 { Pow2Grows(k - 1, n - 1); }
  }

  lemma Pow2Of21()
    ensures Pow(2, 21) == 2097152
  {
    assert Pow(2, 7) == 128;
    PowersMultiply(2, 7, 7);
    PowersMultiply(2, 14, 7);
  }

  lemma Pow2At63(k: nat)
    requires k <= 63
    ensures 0 < Pow(2, k) <= 0x8000_0000_0000_0000
  {
    Pow2Of21();
    PowersMultiply(2, 21, 21);
    PowersMultiply(2, 42, 21);
    Pow2Grows(0, k);
    Pow2Grows(k, 63);
  }

  lemma DoubledNumber(x: bv64)
    requires x as int < 0x8000_0000_0000_0000
    ensures (x << 1) as int == 2 * x as int
  {}

  // No bit is shifted out.
  lemma {:induction false} ShiftedNumber(k: nat)
    requires k < 64
    ensures Shifted(k) as int == Pow(2, k) && Shifted(k) != 0
  {
    Pow2At63(k);
    if k > 0 {
      ShiftedNumber(k - 1);
      DoubledNumber(Shifted(k - 1));
    }
  }

  lemma DoubledApart(x: bv64, y: bv64)
    ensures x & y == 0 ==> (x << 1) & (y << 1) == 0
    ensures 1 & (y << 1) == 0
  {}

  lemma {:induction false} ShiftedApart(k: nat, n: nat)
    requires k < n < 64
    ensures Shifted(k) & Shifted(n) == 0 && Shifted(n) & Shifted(k) == 0
    decreases n
  {
    if k == 0 {
      DoubledApart(0, Shifted(n - 1));
    } else {
      ShiftedApart(k - 1, n - 1);
      DoubledApart(Shifted(k - 1), Shifted(n - 1));
    }
    AndCommutes(Shifted(k), Shifted(n));
  }

  lemma AndCommutes(m: bv64, n: bv64)
    ensures m & n == n & m
  {}

  lemma OrDistributes(v: bv64, m: bv64, n: bv64)
    ensures (v | m) & n == (v & n) | (m & n)
  {}

  lemma OrIsZero(v: bv64, m: bv64)
    ensures v | m == 0 <==> v == 0 && m == 0
  {}

  lemma OrMeets(v: bv64, m: bv64, n: bv64)
    ensures Meets(v | m, n) <==> Meets(v, n) || Meets(m, n)
  {
    OrDistributes(v, m, n);
    OrIsZero(v & n, m & n);
  }

  lemma ClearApart(v: bv64, m: bv64, n: bv64)
    requires m & n == 0
    ensures (v & !m) & n == v & n
  {}

  lemma ClearMeets(v: bv64, m: bv64, n: bv64)
    requires !Meets(m, n)
    ensures Meets(v & !m, n) <==> Meets(v, n)
  {
    ClearApart(v, m, n);
  }

  lemma ClearSame(v: bv64, n: bv64)
    ensures !Meets(v & !n, n)
  {}

  lemma AllBits(n: bv64)
    ensures 0xffff_ffff_ffff_ffff & n == n
  {}

  lemma NoBits(n: bv64)
    ensures 0 & n == 0
  {}

  // A mask is the set of its signal alone.
  lemma MaskHas(signo: int, other: int)
    requires IsSignal(signo) && IsSignal(other)
    ensures Has(SigMask(signo), other) <==> signo == other
  {
    if signo == other {
      ShiftedNumber(signo - 1);
      AndSame(SigMask(signo));
    } else if signo < other {
      ShiftedApart(signo - 1, other - 1);
    } else {
      ShiftedApart(other - 1, signo - 1);
    }
  }

  lemma AndSame(n: bv64)
    ensures n & n == n
  {}

  // Or is union.
  lemma OrIsUnion(v: bv64, m: bv64)
    ensures Members(v | m) == Members(v) + Members(m)
  {
    forall signo | 0 < signo < NSIG ensures Has(v | m, signo) <==> Has(v, signo) || Has(m, signo) {
      OrMeets(v, m, SigMask(signo));
    }
  }

  lemma MaskIsSingleton(signo: int)
    requires IsSignal(signo)
    ensures Members(SigMask(signo)) == {signo}
  {
    forall other | 0 < other < NSIG ensures Has(SigMask(signo), other) <==> other == signo {
      MaskHas(signo, other);
    }
  }

  lemma OtherStays(v: bv64, m: bv64, other: int)
    requires IsSignal(other) && !Has(m, other)
    ensures Has(v & !m, other) <==> Has(v, other)
  {
    ClearMeets(v, m, SigMask(other));
  }

  lemma SameGoes(v: bv64, signo: int)
    requires IsSignal(signo)
    ensures !Has(v & !SigMask(signo), signo)
  {
    ClearSame(v, SigMask(signo));
  }

  // Clearing a mask takes its signal out.
  lemma ClearIsRemoval(v: bv64, signo: int, m: bv64)
    requires IsSignal(signo) && m == SigMask(signo)
    ensures Members(v & !m) == Members(v) - {signo}
  {
    SameGoes(v, signo);
    MaskIsSingleton(signo);
    forall other | 0 < other < NSIG && other != signo
      ensures Has(v & !m, other) <==> Has(v, other)
    {
      assert other !in Members(m);
      OtherStays(v, m, other);
    }
  }

  ghost const ALL: set<int> := set signo: int | 1 <= signo <= 64

  lemma ExtremeSets()
    ensures Members(0) == {} && Members(0xffff_ffff_ffff_ffff) == ALL
  {
    forall signo | 0 < signo < NSIG ensures !Has(0, signo) && Has(0xffff_ffff_ffff_ffff, signo) {
      ShiftedNumber(signo - 1);
      NoBits(SigMask(signo));
      AllBits(SigMask(signo));
    }
  }

  // ---- the mathematical set ------------------------------------------------------------------------------------

  datatype Op = Empty | Fill | Add(signo: int) | Del(signo: int)

  // What an operation returns, and does to the set; -1 goes with errno = EINVAL, which is 22.
  predicate Fails(op: Op) {
    (op.Add? || op.Del?) && !(1 <= op.signo <= 64)
  }

  ghost function Meaning(op: Op, s: set<int>): set<int> {
    if Fails(op) then s
    else match op
      case Empty => {}
      case Fill => ALL
      case Add(signo) => s + {signo}
      case Del(signo) => s - {signo}
  }

  ghost function Meanings(ops: seq<Op>, s: set<int>): set<int> {
    if ops == [] then s else Meanings(ops[1..], Meaning(ops[0], s))
  }

  predicate Touches(op: Op, signo: int) {
    op.Empty? || op.Fill? || (!Fails(op) && op.signo == signo)
  }

  // Whether a signal is in the set at the end is up to the last operation on it.
  lemma {:induction false} LastDecides(ops: seq<Op>, s: set<int>, signo: int, k: nat)
    requires IsSignal(signo) && k < |ops| && Touches(ops[k], signo)
    requires forall j :: k < j < |ops| ==> !Touches(ops[j], signo)
    ensures signo in Meanings(ops, s) <==> ops[k].Fill? || ops[k].Add?
  {
    if k == 0 {
      Untouched(ops[1..], Meaning(ops[0], s), signo);
    } else {
      LastDecides(ops[1..], Meaning(ops[0], s), signo, k - 1);
    }
  }

  lemma {:induction false} Untouched(ops: seq<Op>, s: set<int>, signo: int)
    requires forall j :: 0 <= j < |ops| ==> !Touches(ops[j], signo)
    ensures signo in Meanings(ops, s) <==> signo in s
  {
    if ops != [] {
      Untouched(ops[1..], Meaning(ops[0], s), signo);
    }
  }

  // ---- memory --------------------------------------------------------------------------------------------------

  function JoinSeq(b: seq<Byte>): bv64
    requires |b| == 8
  {
    Join(b[0], b[1], b[2], b[3], b[4], b[5], b[6], b[7])
  }

  lemma Zeros()
    ensures Join(0, 0, 0, 0, 0, 0, 0, 0) == 0
  {}

  lemma Ones()
    ensures Join(0xff, 0xff, 0xff, 0xff, 0xff, 0xff, 0xff, 0xff) == 0xffff_ffff_ffff_ffff
  {}

  // A sigset_t: one unsigned long, in memory as eight bytes.
  class SigSet {
    const bytes: array<Byte>

    constructor ()
      ensures bytes.Length == 8 && fresh(bytes)
    {
      bytes := new Byte[8];
    }

    ghost predicate Valid() { bytes.Length == 8 }

    function Val(): bv64
      requires Valid()
      reads bytes
    {
      JoinSeq(bytes[..])
    }

    method SetVal(v: bv64)
      requires Valid()
      modifies bytes
      ensures Val() == v
    {
      bytes[0], bytes[1], bytes[2], bytes[3] := ByteOf(v, 0), ByteOf(v, 1), ByteOf(v, 2), ByteOf(v, 3);
      bytes[4], bytes[5], bytes[6], bytes[7] := ByteOf(v, 4), ByteOf(v, 5), ByteOf(v, 6), ByteOf(v, 7);
      BytesJoin(v);
    }
  }

  // ---- the library ---------------------------------------------------------------------------------------------

  class Libmini {
    var errno: int

    constructor ()
      ensures errno == 0
    {
      errno := 0;
    }

    // dest[..len] becomes the low byte of val.
    method Memset(dest: array<Byte>, val: int, len: nat)
      requires len <= dest.Length
      modifies dest
      ensures forall k :: 0 <= k < dest.Length ==> dest[k] == if k < len then (val % 256) as Byte else old(dest[k])
    {
      var ptr, left := 0, len;
      while left > 0
        invariant 0 <= ptr <= len && ptr + left == len
        invariant forall k :: 0 <= k < ptr ==> dest[k] == (val % 256) as Byte
        invariant forall k :: ptr <= k < dest.Length ==> dest[k] == old(dest[k])
      {
        left := left - 1;
        dest[ptr] := (val % 256) as Byte;
        ptr := ptr + 1;
      }
    }

    // A null set is the one way these two fail.
    method SigEmptySet(set': SigSet?) returns (r: int)
      requires set' != null ==> set'.Valid()
      modifies this, if set' == null then {} else {set'.bytes}
      ensures set' == null ==> r == -1 && errno == 22
      ensures set' != null ==> r == 0 && errno == old(errno) && Members(set'.Val()) == {}
    {
      if set' == null {
        errno := EINVAL;
        return -1;
      }
      Memset(set'.bytes, 0, 8);
      Zeros();
      ExtremeSets();
      r := 0;
    }

    method SigFillSet(set': SigSet?) returns (r: int)
      requires set' != null ==> set'.Valid()
      modifies this, if set' == null then {} else {set'.bytes}
      ensures set' == null ==> r == -1 && errno == 22
      ensures set' != null ==> r == 0 && errno == old(errno)
      ensures set' != null ==> forall signo :: signo in Members(set'.Val()) <==> 1 <= signo <= 64
    {
      if set' == null {
        errno := EINVAL;
        return -1;
      }
      Memset(set'.bytes, 0xff, 8);
      Ones();
      ExtremeSets();
      r := 0;
    }

    method SigAddSet(set': SigSet?, signo: int) returns (r: int)
      requires set' != null ==> set'.Valid()
      modifies this, if set' == null then {} else {set'.bytes}
      ensures set' == null || !(1 <= signo <= 64) ==> r == -1 && errno == 22
      ensures set' != null && !(1 <= signo <= 64) ==> set'.Val() == old(set'.Val())
      ensures set' != null && 1 <= signo <= 64 ==>
        r == 0 && errno == old(errno) && Members(set'.Val()) == old(Members(set'.Val())) + {signo}
    {
      if set' == null || signo <= 0 || signo >= NSIG {
        errno := EINVAL;
        return -1;
      }
      OrIsUnion(set'.Val(), SigMask(signo));
      MaskIsSingleton(signo);
      set'.SetVal(set'.Val() | SigMask(signo));
      r := 0;
    }

    method SigDelSet(set': SigSet?, signo: int) returns (r: int)
      requires set' != null ==> set'.Valid()
      modifies this, if set' == null then {} else {set'.bytes}
      ensures set' == null || !(1 <= signo <= 64) ==> r == -1 && errno == 22
      ensures set' != null && !(1 <= signo <= 64) ==> set'.Val() == old(set'.Val())
      ensures set' != null && 1 <= signo <= 64 ==>
        r == 0 && errno == old(errno) && Members(set'.Val()) == old(Members(set'.Val())) - {signo}
    {
      if set' == null || signo <= 0 || signo >= NSIG {
        errno := EINVAL;
        return -1;
      }
      ClearIsRemoval(set'.Val(), signo, SigMask(signo));
      set'.SetVal(set'.Val() & !SigMask(signo));
      r := 0;
    }

    method SigIsMember(set': SigSet?, signo: int) returns (r: int)
      requires set' != null ==> set'.Valid()
      modifies this
      ensures set' == null || !(1 <= signo <= 64) ==> r == -1 && errno == 22
      ensures set' != null && 1 <= signo <= 64 ==>
        errno == old(errno) && r == if signo in Members(set'.Val()) then 1 else 0
    {
      if set' == null || signo <= 0 || signo >= NSIG {
        errno := EINVAL;
        return -1;
      }
      r := if Has(set'.Val(), signo) then 1 else 0;
    }

    method Perform(set': SigSet, op: Op) returns (r: int)
      requires set'.Valid()
      modifies this, set'.bytes
      ensures Members(set'.Val()) == Meaning(op, old(Members(set'.Val())))
      ensures r == (if Fails(op) then -1 else 0) && errno == (if Fails(op) then 22 else old(errno))
    {
      match op
      case Empty => r := SigEmptySet(set');
      case Fill => r := SigFillSet(set');
      case Add(signo) => r := SigAddSet(set', signo);
      case Del(signo) => r := SigDelSet(set', signo);
    }

    // Any sequence of operations does to the word what it does to the set.
    method PerformAll(set': SigSet, ops: seq<Op>)
      requires set'.Valid()
      modifies this, set'.bytes
      ensures Members(set'.Val()) == Meanings(ops, old(Members(set'.Val())))
      ensures errno == if exists op :: op in ops && Fails(op) then 22 else old(errno)
    {
      var i := 0;
      while i < |ops|
        invariant i <= |ops|
        invariant Meanings(ops[i..], Members(set'.Val())) == Meanings(ops, old(Members(set'.Val())))
        invariant errno == if exists op :: op in ops[..i] && Fails(op) then 22 else old(errno)
      {
        var _ := Perform(set', ops[i]);
        assert ops[..i + 1] == ops[..i] + [ops[i]];
        i := i + 1;
      }
      assert ops[..i] == ops;
    }
  }
}
