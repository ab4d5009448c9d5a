// The two bubble sorts, for an array of n 32-bit integers inside a larger memory.
//
// Memory is an array of 32-bit words, as many as a 32-bit address can name; the array to sort is the n words from word
// a on. Both listings are do-while loops over registers, with n - 1 in place of the constant 9.
module Bubble {
  type Int32 = x: int | -0x8000_0000 <= x < 0x8000_0000

  // ---- sorted sequences ----------------------------------------------------------------------------------------

  // From k on every element is in its place: no earlier element is greater.
  predicate SettledFrom(w: seq<Int32>, k: nat) {
    forall p, q :: 0 <= p < q < |w| && k <= q ==> w[p] <= w[q]
  }

  predicate IsSorted(w: seq<Int32>) {
    SettledFrom(w, 0)
  }

  function Insert(x: Int32, s: seq<Int32>): seq<Int32> {
    if s == [] || x <= s[0] then [x] + s else [s[0]] + Insert(x, s[1..])
  }

  // The sorted arrangement of s.
  function SortOf(s: seq<Int32>): seq<Int32> {
    if s == [] then [] else Insert(s[0], SortOf(s[1..]))
  }

  lemma {:induction false} InsertPermutes(x: Int32, s: seq<Int32>)
    ensures multiset(Insert(x, s)) == multiset([x] + s)
  {
    if s != [] && x > s[0] {
      InsertPermutes(x, s[1..]);
      assert s == [s[0]] + s[1..];
    }
  }

  lemma {:induction false} InsertSorts(x: Int32, s: seq<Int32>)
    requires IsSorted(s)
    ensures IsSorted(Insert(x, s))
  {
    if s != [] && x > s[0] {
      var r := Insert(x, s[1..]);
      InsertSorts(x, s[1..]);
      InsertPermutes(x, s[1..]);
      forall q | 0 <= q < |r| ensures s[0] <= r[q] {
        assert r[q] in multiset(r);
        assert r[q] in [x] + s[1..];
      }
    }
  }

  lemma {:induction false} SortOfSorts(s: seq<Int32>)
    ensures IsSorted(SortOf(s)) && multiset(SortOf(s)) == multiset(s)
  {
    if s != [] {
      SortOfSorts(s[1..]);
      InsertSorts(s[0], SortOf(s[1..]));
      InsertPermutes(s[0], SortOf(s[1..]));
      assert s == [s[0]] + s[1..];
    }
  }

  // There is only one sorted arrangement.
  lemma {:induction false} SortedIsUnique(s: seq<Int32>, t: seq<Int32>)
    requires IsSorted(s) && IsSorted(t) && multiset(s) == multiset(t)
    ensures s == t
  {
    assert |t| == |multiset(t)| == |multiset(s)| == |s|;
    if s != [] {
      SameLeast(s, t);
      assert s == [s[0]] + s[1..] && t == [t[0]] + t[1..];
      assert multiset(s[1..]) == multiset(s) - multiset{s[0]};
      assert multiset(t[1..]) == multiset(t) - multiset{t[0]};
      SortedIsUnique(s[1..], t[1..]);
    }
  }

  lemma SameLeast(s: seq<Int32>, t: seq<Int32>)
    requires IsSorted(s) && IsSorted(t) && multiset(s) == multiset(t) && |s| == |t| > 0
    ensures s[0] == t[0]
  {
    assert s[0] in multiset(t) && t[0] in multiset(s);
  }

  lemma SortedPermutation(s: seq<Int32>, t: seq<Int32>)
    requires SettledFrom(s, 1) && multiset(s) == multiset(t)
    ensures s == SortOf(t)
  {
    SortOfSorts(t);
    SortedIsUnique(s, SortOf(t));
  }

  lemma SameElementsSameSort(s: seq<Int32>, t: seq<Int32>)
    requires multiset(s) == multiset(t)
    ensures SortOf(s) == SortOf(t)
  {
    SortOfSorts(s);
    SortOfSorts(t);
    SortedIsUnique(SortOf(s), SortOf(t));
  }

  // ---- passes --------------------------------------------------------------------------------------------------

  function Compared(w: seq<Int32>, j: nat): seq<Int32>
    requires j + 1 < |w|
  {
    if w[j] > w[j + 1] then w[j := w[j + 1]][j + 1 := w[j]] else w
  }

  // The comparisons at j, ..., m - 1.
  function Pass(w: seq<Int32>, j: nat, m: nat): (r: seq<Int32>)
    requires m < |w|
    ensures |r| == |w|
    decreases m - j
  {
    if j >= m then w else Pass(Compared(w, j), j + 1, m)
  }

  // The passes that are left when everything from k on is settled.
  function Passes(w: seq<Int32>, k: nat): seq<Int32>
    requires k <= |w|
    decreases k
  {
    if k <= 1 then w else Passes(Pass(w, 0, k - 1), k - 1)
  }

  // w[j] is the greatest so far.
  predicate Greatest(w: seq<Int32>, j: nat) {
    j < |w| && forall p :: 0 <= p < j ==> w[p] <= w[j]
  }

  // A comparison carries the greatest one place on, and leaves what is settled settled.
  lemma ComparedKeeps(w: seq<Int32>, j: nat, k: nat)
    requires j + 1 < k <= |w| && Greatest(w, j) && SettledFrom(w, k)
    ensures Greatest(Compared(w, j), j + 1) && SettledFrom(Compared(w, j), k)
  {}

  lemma ComparedPermutes(w: seq<Int32>, j: nat)
    requires j + 1 < |w|
    ensures multiset(Compared(w, j)) == multiset(w)
  {}

  lemma {:induction false} PassPermutes(w: seq<Int32>, j: nat, m: nat)
    requires m < |w|
    ensures multiset(Pass(w, j, m)) == multiset(w)
    decreases m - j
  {
    if j < m {
      var r := Compared(w, j);
      assert Pass(w, j, m) == Pass(r, j + 1, m);
      ComparedPermutes(w, j);
      PassPermutes(r, j + 1, m);
    }
  }

  // A pass up to the first settled element settles one more.
  lemma {:induction false} PassSettles(w: seq<Int32>, j: nat, k: nat)
    requires j < k <= |w| && Greatest(w, j) && SettledFrom(w, k)
    ensures SettledFrom(Pass(w, j, k - 1), k - 1)
    decreases k - j
  {
    if j < k - 1 {
      ComparedKeeps(w, j, k);
      PassSettles(Compared(w, j), j + 1, k);
    }
  }

  lemma {:induction false} SettledPassIsIdle(w: seq<Int32>, j: nat, m: nat)
    requires m < |w| && SettledFrom(w, j)
    ensures Pass(w, j, m) == w
    decreases m - j
  {
    if j < m {
      assert Compared(w, j) == w;
      SettledPassIsIdle(w, j + 1, m);
    }
  }

  // Going on over the settled elements changes nothing.
  lemma {:induction false} FullPassIsShort(w: seq<Int32>, j: nat, k: nat)
    requires j < k <= |w| && Greatest(w, j) && SettledFrom(w, k)
    ensures Pass(w, j, |w| - 1) == Pass(w, j, k - 1)
    decreases k - j
  {
    if j < k - 1 {
      ComparedKeeps(w, j, k);
      FullPassIsShort(Compared(w, j), j + 1, k);
    } else {
      SettledPassIsIdle(w, j, |w| - 1);
    }
  }

  lemma {:induction false} PassesSort(w: seq<Int32>, k: nat)
    requires k <= |w| && SettledFrom(w, k)
    ensures Passes(w, k) == SortOf(w)
    decreases k
  {
    if k <= 1 {
      SortedPermutation(w, w);
    } else {
      var r := Pass(w, 0, k - 1);
      PassPermutes(w, 0, k - 1);
      PassSettles(w, 0, k);
      PassesSort(r, k - 1);
      SameElementsSameSort(r, w);
    }
  }

  // ---- asm/assembly/bubble.asm ---------------------------------------------------------------------------------

  // The inner bound shrinks with every pass.
  method SortTriangular(mem: array<Int32>, a: nat, n: nat)
    requires 2 <= n && a + n <= mem.Length < 0x4000_0000
    modifies mem
    ensures mem[a..a + n] == SortOf(old(mem[a..a + n]))
    ensures mem[..a] == old(mem[..a]) && mem[a + n..] == old(mem[a + n..])
  {
    PassesSort(mem[a..a + n], n);
    var ecx: Int32 := 0;
    while true
      invariant 0 <= ecx < n - 1
      invariant Passes(mem[a..a + n], n - ecx) == SortOf(old(mem[a..a + n]))
      invariant mem[..a] == old(mem[..a]) && mem[a + n..] == old(mem[a + n..])
      decreases n - ecx
    {
      InnerTriangular(mem, a, n, ecx);
      ecx := ecx + 1;
      if ecx >= n - 1 { break; }
    }
  }

  method InnerTriangular(mem: array<Int32>, a: nat, n: nat, ecx: Int32)
    requires a + n <= mem.Length < 0x4000_0000 && 0 <= ecx < n - 1
    modifies mem
    ensures mem[a..a + n] == Pass(old(mem[a..a + n]), 0, n - 1 - ecx)
    ensures mem[..a] == old(mem[..a]) && mem[a + n..] == old(mem[a + n..])
  {
    var edx: Int32 := 0;
    while true
      invariant 0 <= edx < n - 1 - ecx
      invariant Pass(mem[a..a + n], edx, n - 1 - ecx) == Pass(old(mem[a..a + n]), 0, n - 1 - ecx)
      invariant mem[..a] == old(mem[..a]) && mem[a + n..] == old(mem[a + n..])
      decreases n - edx
    {
      ghost var w := mem[a..a + n];
      var eax, ebx := mem[a + edx], mem[a + edx + 1];
      if eax > ebx {
        mem[a + edx] := ebx;
        mem[a + edx + 1] := eax;
      }
      assert mem[a..a + n] == Compared(w, edx);
      edx := edx + 1;
      eax := ecx;
      eax := -eax;
      eax := eax + (n - 1);
      if edx >= eax { break; }
    }
  }

  // ---- asm/bubble.asm ------------------------------------------------------------------------------------------

  // The comparisons of a pass: mov cx sets the low 16 bits of rcx and leaves the others, and loop counts down all of
  // rcx.
  function Count(rcx: nat, n: nat): nat
    requires n > 0
  {
    rcx / 65536 * 65536 + (n - 1)
  }

  lemma LowCount(rcx: nat, n: nat)
    requires n > 0
    ensures rcx < 65536 ==> Count(rcx, n) == n - 1
    ensures rcx >= 65536 ==> Count(rcx, n) >= n - 1 + 65536
  {}

  // The low 16 bits are n - 1, the others those of rcx.
  lemma CountIsPatched(rcx: nat, n: nat)
    requires 0 < n <= 65536
    ensures Count(rcx, n) % 65536 == n - 1 && Count(rcx, n) / 65536 == rcx / 65536
  {}

  // k passes over the first n words of w.
  function FullPasses(w: seq<Int32>, n: nat, k: nat): seq<Int32>
    requires 0 < n <= |w|
    decreases k
  {
    if k == 0 then w else FullPasses(Pass(w, 0, n - 1), n, k - 1)
  }

  // A pass over the first words does nothing to the others.
  lemma {:induction false} PassOverFirst(w: seq<Int32>, n: nat, j: nat, m: nat)
    requires m < n <= |w|
    ensures Pass(w, j, m) == Pass(w[..n], j, m) + w[n..]
    decreases m - j
  {
    if j < m {
      PassOverFirst(Compared(w, j), n, j + 1, m);
      assert Compared(w, j)[..n] == Compared(w[..n], j) && Compared(w, j)[n..] == w[n..];
    } else {
      assert w == w[..n] + w[n..];
    }
  }

  // A pass carries the greatest word it meets to the end of its stretch.
  lemma PassCarriesGreatest(w: seq<Int32>, m: nat, p: nat)
    requires p <= m < |w|
    ensures w[p] <= Pass(w, 0, m)[m]
  {
    var front := w[..m + 1];
    PassOverFirst(w, m + 1, 0, m);
    PassPermutes(front, 0, m);
    PassSettles(front, 0, m + 1);
    assert front[p] in multiset(Pass(front, 0, m));
  }

  // A full pass over the first n words, settled from k on, does what the shrinking one does.
  lemma FullPassSettles(w: seq<Int32>, n: nat, k: nat)
    requires 1 < k <= n <= |w| && SettledFrom(w[..n], k)
    ensures var r := Pass(w, 0, n - 1);
      r[n..] == w[n..] && SettledFrom(r[..n], k - 1) && multiset(r[..n]) == multiset(w[..n])
  {
    var front := w[..n];
    PassOverFirst(w, n, 0, n - 1);
    FullPassIsShort(front, 0, k);
    PassSettles(front, 0, k);
    PassPermutes(front, 0, n - 1);
    assert Pass(w, 0, n - 1)[..n] == Pass(front, 0, n - 1);
  }

  // So full passes sort.
  lemma {:induction false} FullPassesSort(w: seq<Int32>, n: nat, k: nat)
    requires 0 < k <= n <= |w| && SettledFrom(w[..n], k)
    ensures FullPasses(w, n, k - 1) == SortOf(w[..n]) + w[n..]
    decreases k
  {
    if k == 1 {
      SortedPermutation(w[..n], w[..n]);
      assert w == w[..n] + w[n..];
    } else {
      var r := Pass(w, 0, n - 1);
      FullPassSettles(w, n, k);
      FullPassesSort(r, n, k - 1);
      SameElementsSameSort(r[..n], w[..n]);
    }
  }

  // One pass over the array and n - 2 more sort it.
  lemma {:induction false} RectangularSorts(w: seq<Int32>, n: nat)
    requires 2 <= n <= |w|
    ensures FullPasses(Pass(w, 0, n - 1), n, n - 2) == SortOf(w[..n]) + w[n..]
  {
    FullPassesSort(w, n, n);
  }

  lemma {:induction false} OnePassLess(w: seq<Int32>, n: nat, k: nat)
    requires 0 < n <= |w| && k > 0
    ensures FullPasses(w, n, k) == FullPasses(Pass(w, 0, n - 1), n, k - 1)
  {}

  // cmp eax, [ebx+4]; jl common; xchg eax, [ebx+4]; mov [ebx], eax
  method Exchange(mem: array<Int32>, a: nat, ebx: nat, eax0: Int32)
    requires a <= ebx && ebx + 1 < mem.Length && eax0 == mem[ebx]
    modifies mem
    ensures mem[..a] == old(mem[..a]) && mem[a..] == Compared(old(mem[a..]), ebx - a)
  {
    ghost var w, j := mem[a..], ebx - a;
    var eax := eax0;
    if !(eax < mem[ebx + 1]) {
      eax, mem[ebx + 1] := mem[ebx + 1], eax;
      mem[ebx] := eax;
      assert mem[a..] == w[j := w[j + 1]][j + 1 := w[j]];
    }
    assert mem[a..] == Compared(w, j);
  }

  // One pass from word a on. An access past the end of memory is a fault, and ends the routine. The words accessed
  // are those from a up to `far`, and the last of them is the one whose access fails.
  method InnerRectangular(mem: array<Int32>, a: nat, n: nat, rcx0: nat) returns (rcx: nat, fault: bool, ghost far: nat)
    requires 2 <= n <= 65536 && a + n <= mem.Length < 0x4000_0000
    modifies mem
    ensures fault <==> a + Count(rcx0, n) >= mem.Length
    ensures !fault ==> rcx == 0
    ensures mem[..a] == old(mem[..a])
    ensures mem[a..] == Pass(old(mem[a..]), 0, if fault then mem.Length - 1 - a else Count(rcx0, n))
    ensures far == if fault then mem.Length + 1 else a + Count(rcx0, n) + 1
  {
    ghost var count := Count(rcx0, n);
    ghost var last := if a + count >= mem.Length then mem.Length - 1 - a else count;
    rcx := rcx0 / 65536 * 65536 + (n - 1);
    fault, far := false, a;
    var ebx := a;
    while true
      invariant 0 < rcx <= count && a <= ebx == a + count - rcx <= a + last
      invariant Pass(mem[a..], ebx - a, last) == Pass(old(mem[a..]), 0, last)
      invariant mem[..a] == old(mem[..a])
      invariant far == if ebx == a then a else ebx + 1
      decreases rcx
    {
      var eax := mem[ebx];
      far := ebx + 2;
      if ebx + 1 >= mem.Length {
        fault := true;
        return;
      }
      Exchange(mem, a, ebx, eax);
      ebx := ebx + 1;
      rcx := rcx - 1;
      if rcx == 0 { break; }
    }
  }

  // Every pass goes over the whole array. The routine stays inside the array exactly when rcx is below 65536 on entry,
  // and then it sorts. Otherwise its first pass makes a multiple of 65536 comparisons more, rearranging the words
  // behind the array, or runs past the end of memory. Addresses are those a 32-bit ebx can hold.
  method SortRectangular(mem: array<Int32>, a: nat, n: nat, rcx0: nat) returns (fault: bool, ghost far: nat)
    requires 2 <= n <= 65536 && a + n <= mem.Length < 0x4000_0000
    modifies mem
    ensures far <= a + n <==> rcx0 < 65536
    ensures rcx0 < 65536 ==> !fault && mem[a..] == SortOf(old(mem[a..])[..n]) + old(mem[a..])[n..]
    ensures fault <==> a + Count(rcx0, n) >= mem.Length
    ensures far == if fault then mem.Length + 1 else a + Count(rcx0, n) + 1
    ensures mem[..a] == old(mem[..a])
    ensures mem[a..] == if fault then Pass(old(mem[a..]), 0, mem.Length - 1 - a)
                        else FullPasses(Pass(old(mem[a..]), 0, Count(rcx0, n)), n, n - 2)
  {
    ghost var was := mem[a..];
    ghost var count := Count(rcx0, n);
    LowCount(rcx0, n);
    var rcx: nat, dx := rcx0, n - 1;
    far := a;
    while true
      invariant 0 < dx < n && mem[..a] == old(mem[..a])
      invariant dx == n - 1 ==> rcx == rcx0 && far == a && mem[a..] == was
      invariant dx < n - 1 ==>
        && rcx == 0 && far == a + count + 1 && a + count < mem.Length
        && FullPasses(mem[a..], n, dx) == FullPasses(Pass(was, 0, count), n, n - 2)
      decreases dx
    {
      ghost var reached;
      if dx < n - 1 { OnePassLess(mem[a..], n, dx); }
      rcx, fault, reached := InnerRectangular(mem, a, n, rcx);
      far := if reached > far then reached else far;
      if fault {
        return;
      }
      dx := dx - 1;
      if dx == 0 { break; }
    }
    if rcx0 < 65536 { RectangularSorts(was, n); }
  }
}
