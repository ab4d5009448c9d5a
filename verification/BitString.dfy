// asm/dispbin.asm: the bits of AX as characters, most significant first.
//
// AX is w bits wide, 16 in the listing; memory is an array of bytes, and the result goes to address `base`, 0x600000 in
// the listing.
module BitString {
  import opened Powers

  // A byte of memory, as a number.
  type Octet = x: int | 0 <= x < 256

  predicate IsBinary(s: seq<Octet>) {
    forall i :: 0 <= i < |s| ==> s[i] == 48 || s[i] == 49
  }

  // The number a string of '0' and '1' stands for.
  function Number(s: seq<Octet>): nat
    requires IsBinary(s)
  {
    if s == [] then 0 else 2 * Number(s[..|s| - 1]) + (s[|s| - 1] - 48)
  }

  // A number has one such string of a given length.
  lemma {:induction false} OneString(s: seq<Octet>, t: seq<Octet>)
    requires IsBinary(s) && IsBinary(t) && |s| == |t| && Number(s) == Number(t)
    ensures s == t
  {
    if s != [] {
      var n := |s| - 1;
      OneString(s[..n], t[..n]);
      assert s == s[..n] + [s[n]] && t == t[..n] + [t[n]];
    }
  }

  // The bit of weight 2^k of v, as a character.
  function Shown(v: nat, k: nat): Octet {
    if v / Pow(2, k) % 2 == 1 then '1' as int else '0' as int
  }

  // Character i is the bit of weight 2^(n - 1 - i).
  lemma {:induction false} DigitsAreBits(s: seq<Octet>, i: nat)
    requires IsBinary(s) && i < |s|
    ensures s[i] == Shown(Number(s), |s| - 1 - i)
  {
    var n := |s| - 1;
    if i < n {
      DigitsAreBits(s[..n], i);
      ShownHalved(Number(s[..n]), s[n] - 48, n - 1 - i);
    } else {
      LastShown(Number(s[..n]), s[n] - 48);
    }
  }

  lemma LastShown(v: nat, bit: nat)
    requires bit <= 1
    ensures Shown(2 * v + bit, 0) == 48 + bit
  {}

  lemma ShownHalved(v: nat, bit: nat, k: nat)
    requires bit <= 1
    ensures Shown(2 * v + bit, k + 1) == Shown(v, k)
  {
    HalfTheWeight(v, bit, k);
  }

  // s is v in binary, most significant bit first.
  predicate ShowsBits(s: seq<Octet>, v: nat) {
    forall i :: 0 <= i < |s| ==> s[i] == Shown(v, |s| - 1 - i)
  }

  lemma NumberShowsBits(s: seq<Octet>)
    requires IsBinary(s)
    ensures ShowsBits(s, Number(s))
  {
    forall i | 0 <= i < |s| ensures s[i] == Shown(Number(s), |s| - 1 - i) { DigitsAreBits(s, i); }
  }

  lemma HalfTheWeight(v: nat, bit: nat, k: nat)
    requires bit <= 1
    ensures (2 * v + bit) / Pow(2, k + 1) == v / Pow(2, k)
  {
    var p := Pow(2, k);
    var q, r := v / p, v % p;
    QuotientIs(2 * v + bit, 2 * p, q, 2 * r + bit);
  }

  lemma QuotientIs(x: nat, d: nat, q: nat, r: nat)
    requires x == q * d + r && r < d
    ensures x / d == q
  {
    if x / d < q { ProductGrows(x / d + 1, q, d); } else if x / d > q { ProductGrows(q + 1, x / d, d); }
  }

  lemma ProductGrows(m: nat, n: nat, d: nat)
    requires m <= n
    ensures m * d <= n * d
  {}

  // Between two instructions the number is split: its high bits are in the string, its low bits at the top of AX.
  ghost predicate Split(v: nat, s: seq<Octet>, ax: nat, left: nat, done: nat) {
    IsBinary(s) && exists low: nat {:trigger low * Pow(2, done)} ::
      low < Pow(2, left) && ax == low * Pow(2, done) && v == Number(s) * Pow(2, left) + low
  }

  // One shift, with half the weight of the top bit left and p the weight of the lowest bit left.
  lemma OneShift(v: nat, number: nat, ax: nat, low: nat, half: nat, p: nat)
    requires p > 0 && ax == low * p && v == number * (2 * half) + low
    ensures 2 * ax >= 2 * half * p <==> low >= half
    ensures 2 * ax - 2 * half * p == (low - half) * (2 * p) && 2 * ax == low * (2 * p)
    ensures v == (2 * number + 1) * half + (low - half) && v == 2 * number * half + low
  {
    ProductsCompare(low, half, p);
  }

  lemma ProductsCompare(x: nat, y: nat, p: nat)
    requires p > 0
    ensures x >= y <==> x * p >= y * p
  {}

  // The weights of the bits of AX before and after a shift.
  lemma Weights(w: nat, left: nat)
    requires 0 < left <= w
    ensures Pow(2, left) == 2 * Pow(2, left - 1) && Pow(2, w - left + 1) == 2 * Pow(2, w - left) && Pow(2, w - left) > 0
    ensures Pow(2, w) == 2 * Pow(2, left - 1) * Pow(2, w - left)
  {
    PowersMultiply(2, left, w - left);
  }

  // shl moves the top bit of AX to the end of the string: the carry is that bit.
  lemma ShiftMovesOneBit(v: nat, s: seq<Octet>, ax: nat, w: nat, left: nat)
    requires 0 < left <= w && Split(v, s, ax, left, w - left)
    ensures 2 * ax >= Pow(2, w) ==> Split(v, s + [49], 2 * ax - Pow(2, w), left - 1, w - left + 1)
    ensures 2 * ax < Pow(2, w) ==> Split(v, s + [48], 2 * ax, left - 1, w - left + 1)
  {
    var low: nat :| low < Pow(2, left) && ax == low * Pow(2, w - left) && v == Number(s) * Pow(2, left) + low;
    Weights(w, left);
    OneShift(v, Number(s), ax, low, Pow(2, left - 1), Pow(2, w - left));
    if 2 * ax >= Pow(2, w) {
      assert (s + [49])[..|s|] == s;
      assert Number(s + [49]) == 2 * Number(s) + 1;
      SplitBy(v, s + [49], 2 * ax - Pow(2, w), left - 1, w - left + 1, low - Pow(2, left - 1));
    } else {
      assert (s + [48])[..|s|] == s;
      assert Number(s + [48]) == 2 * Number(s);
      SplitBy(v, s + [48], 2 * ax, left - 1, w - left + 1, low);
    }
  }

  lemma SplitBy(v: nat, s: seq<Octet>, ax: nat, left: nat, done: nat, low: nat)
    requires IsBinary(s) && low < Pow(2, left) && ax == low * Pow(2, done) && v == Number(s) * Pow(2, left) + low
    ensures Split(v, s, ax, left, done)
  {}

  // The listing. The word push stores below rsp is not part of the result memory: it comes back with pop.
  method ShowBits(mem: array<Octet>, base: nat, w: nat, ax0: nat)
    requires 0 < w && ax0 < Pow(2, w) && base + w + 7 <= mem.Length
    modifies mem
    ensures IsBinary(mem[base..base + w]) && Number(mem[base..base + w]) == ax0
    ensures ShowsBits(mem[base..base + w], ax0)
    ensures forall i :: base + w <= i < base + w + 7 ==> mem[i] == 0
    ensures forall i :: 0 <= i < base || base + w + 7 <= i < mem.Length ==> mem[i] == old(mem[i])
  {
    var ax: nat, rbx: nat, rcx: nat := ax0, base, w;
    SplitBy(ax0, mem[base..rbx], ax, w, 0, ax0);
    while true
      invariant 0 < rcx <= w && rbx == base + w - rcx
      invariant Split(ax0, mem[base..rbx], ax, rcx, w - rcx)
      invariant forall i :: 0 <= i < base || base + w + 7 <= i < mem.Length ==> mem[i] == old(mem[i])
      decreases rcx
    {
      ghost var s := mem[base..rbx];
      ShiftMovesOneBit(ax0, s, ax, w, rcx);
      var carry := 2 * ax >= Pow(2, w);
      ax := if carry then 2 * ax - Pow(2, w) else 2 * ax;
      var saved := ax;
      var rdx := if carry then 49 else 48;
      StoreWord(mem, rbx, rdx);
      assert mem[base..rbx] == s;
      rbx := rbx + 1;
      ax := saved;
      rcx := rcx - 1;
      assert mem[base..rbx] == mem[base..rbx - 1] + [mem[rbx - 1]] == s + [rdx];
      if rcx == 0 { break; }
    }
    AllMoved(ax0, mem[base..rbx], ax, w);
    NumberShowsBits(mem[base..rbx]);
  }

  lemma AllMoved(v: nat, s: seq<Octet>, ax: nat, w: nat)
    requires Split(v, s, ax, 0, w)
    ensures IsBinary(s) && Number(s) == v
  {}

  // mov [rbx], rdx, for an rdx that is one character: eight bytes.
  method StoreWord(mem: array<Octet>, rbx: nat, rdx: Octet)
    requires rbx + 8 <= mem.Length
    modifies mem
    ensures mem[rbx] == rdx && forall i :: rbx < i < rbx + 8 ==> mem[i] == 0
    ensures forall i :: 0 <= i < rbx || rbx + 8 <= i < mem.Length ==> mem[i] == old(mem[i])
  {
    mem[rbx], mem[rbx + 1], mem[rbx + 2], mem[rbx + 3] := rdx, 0, 0, 0;
    mem[rbx + 4], mem[rbx + 5], mem[rbx + 6], mem[rbx + 7] := 0, 0, 0, 0;
  }
}
