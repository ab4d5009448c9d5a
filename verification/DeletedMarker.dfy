// The loop of print_result in hw1.cpp that strips "(deleted)" from a file name.
module DeletedMarker {
  const MARKER: string := "(deleted)"

  predicate OccursAt(t: string, s: string, i: nat) {
    i + |t| <= |s| && s[i..i + |t|] == t
  }

  predicate MarkerAt(s: string, i: nat) {
    i + |MARKER| <= |s| && s[i..i + |MARKER|] == MARKER
  }

  predicate Clean(s: string) {
    forall i: nat :: i < |s| ==> !MarkerAt(s, i)
  }

  function RemovedAt(s: string, i: nat): string
    requires MarkerAt(s, i)
  {
    s[..i] + s[i + |MARKER|..]
  }

  // One removal, of any occurrence.
  ghost predicate Removes(s: string, t: string) {
    exists i: nat :: MarkerAt(s, i) && t == RemovedAt(s, i)
  }

  // Any number of removals, in any order: the names along the way.
  ghost predicate Removals(names: seq<string>) {
    |names| > 0 && forall k :: 0 <= k < |names| - 1 ==> Removes(names[k], names[k + 1])
  }

  // string::find from position `from` on: the first occurrence, or |s| when there is none.
  function Find(s: string, from: nat): (i: nat)
    requires from <= |s|
    ensures from <= i <= |s| && (i < |s| ==> MarkerAt(s, i))
    ensures forall k :: from <= k < i ==> !MarkerAt(s, k)
    decreases |s| - from
  {
    if from == |s| || MarkerAt(s, from) then from else Find(s, from + 1)
  }

  lemma NoMarkerLeft(s: string)
    requires Find(s, 0) == |s|
    ensures forall i: nat :: !OccursAt("(deleted)", s, i)
  {
    forall i: nat ensures !OccursAt("(deleted)", s, i) {
      if i < |s| { assert !MarkerAt(s, i); }
    }
  }

  // Removing the first occurrence until there is none.
  function Stripped(s: string): (t: string)
    ensures Clean(t)
    decreases |s|
  {
    var i := Find(s, 0);
    if i == |s| then s else Stripped(RemovedAt(s, i))
  }

  lemma MarkerLetter(s: string, i: nat, m: nat)
    requires MarkerAt(s, i) && m < |MARKER|
    ensures s[i + m] == MARKER[m] && (s[i + m] == '(' <==> m == 0)
  {
    assert s[i..i + |MARKER|][m] == s[i + m];
  }

  // The marker does not overlap itself.
  lemma Disjoint(s: string, i: nat, j: nat)
    requires MarkerAt(s, i) && MarkerAt(s, j) && i < j
    ensures i + |MARKER| <= j
  {
    MarkerLetter(s, j, 0);
    if j < i + |MARKER| {
      MarkerLetter(s, i, j - i);
    }
  }

  // Two removals at different places can be done in either order.
  lemma Commute(s: string, i: nat, j: nat)
    requires MarkerAt(s, i) && MarkerAt(s, j) && i < j
    ensures i + |MARKER| <= j && MarkerAt(RemovedAt(s, j), i) && MarkerAt(RemovedAt(s, i), j - |MARKER|)
    ensures RemovedAt(RemovedAt(s, j), i) == RemovedAt(RemovedAt(s, i), j - |MARKER|)
  {
    Disjoint(s, i, j);
    assert RemovedAt(s, j)[i..i + |MARKER|] == s[i..i + |MARKER|];
    var r := RemovedAt(s, i);
    assert r[j - |MARKER|..j] == s[j..j + |MARKER|];
    assert RemovedAt(RemovedAt(s, j), i) == s[..i] + s[i + |MARKER|..j] + s[j + |MARKER|..];
    assert RemovedAt(r, j - |MARKER|) == s[..i] + s[i + |MARKER|..j] + s[j + |MARKER|..];
  }

  // Whichever occurrence goes first, the name comes out the same.
  lemma {:induction false} AnyFirst(s: string, j: nat)
    requires MarkerAt(s, j)
    ensures Stripped(RemovedAt(s, j)) == Stripped(s)
    decreases |s|
  {
    var i := Find(s, 0);
    if i < j {
      Commute(s, i, j);
      StillFirst(s, i, j);
      AnyFirst(RemovedAt(s, i), j - |MARKER|);
    }
  }

  lemma StillFirst(s: string, i: nat, j: nat)
    requires MarkerAt(s, i) && MarkerAt(s, j) && i < j && Find(s, 0) == i
    ensures Find(RemovedAt(s, j), 0) == i
  {
    Commute(s, i, j);
    Disjoint(s, i, j);
    forall k | 0 <= k < i ensures !MarkerAt(RemovedAt(s, j), k) {
      assert !MarkerAt(s, k);
      BeforeIsSame(s, j, k);
    }
  }

  lemma BeforeIsSame(s: string, j: nat, k: nat)
    requires MarkerAt(s, j) && k + |MARKER| <= j
    ensures MarkerAt(RemovedAt(s, j), k) <==> MarkerAt(s, k)
  {
    assert RemovedAt(s, j)[..j] == s[..j];
    assert RemovedAt(s, j)[k..k + |MARKER|] == s[..j][k..k + |MARKER|] == s[k..k + |MARKER|];
  }

  lemma {:induction false} RemovalsStrip(names: seq<string>)
    requires Removals(names)
    ensures Stripped(names[|names| - 1]) == Stripped(names[0])
    decreases |names|
  {
    if |names| > 1 {
      assert Removes(names[0], names[1]);
      var i: nat :| MarkerAt(names[0], i) && names[1] == RemovedAt(names[0], i);
      AnyFirst(names[0], i);
      forall k | 0 <= k < |names| - 2 ensures Removes(names[1..][k], names[1..][k + 1]) {
        assert Removes(names[k + 1], names[k + 2]);
      }
      RemovalsStrip(names[1..]);
    }
  }

  // A name has one marker-free form: every way of removing markers that comes to an end comes to Stripped(s).
  lemma UniqueNormalForm(names: seq<string>)
    requires Removals(names) && Clean(names[|names| - 1])
    ensures names[|names| - 1] == Stripped(names[0])
  {
    RemovalsStrip(names);
    assert Find(names[|names| - 1], 0) == |names[|names| - 1]|;
  }

  // There is such a way.
  lemma {:induction false} StripsByRemovals(s: string) returns (names: seq<string>)
    ensures Removals(names) && names[0] == s && names[|names| - 1] == Stripped(s)
    decreases |s|
  {
    var i := Find(s, 0);
    if i == |s| {
      names := [s];
    } else {
      var rest := StripsByRemovals(RemovedAt(s, i));
      names := [s] + rest;
      forall k | 0 <= k < |names| - 1 ensures Removes(names[k], names[k + 1]) {
        if k > 0 { assert Removes(rest[k - 1], rest[k]); }
      }
    }
  }

  // And every way does come to an end: each removal takes nine characters away.
  lemma {:induction false} RemovalsEnd(names: seq<string>)
    requires Removals(names)
    ensures |names[|names| - 1]| + 9 * (|names| - 1) == |names[0]|
    decreases |names|
  {
    if |names| > 1 {
      var n := |names| - 1;
      assert Removes(names[n - 1], names[n]);
      assert Removals(names[..n]) by {
        forall k | 0 <= k < n - 1 ensures Removes(names[..n][k], names[..n][k + 1]) {
          assert Removes(names[k], names[k + 1]);
        }
      }
      RemovalsEnd(names[..n]);
    }
  }

  lemma MarkerBetween(before: string, after: string)
    ensures MarkerAt(before + MARKER + after, |before|)
    ensures RemovedAt(before + MARKER + after, |before|) == before + after
  {
    var s, i := before + MARKER + after, |before|;
    assert s[i..i + |MARKER|] == MARKER;
  }

  lemma StripsMiddle(before: string, after: string)
    ensures Stripped(before + MARKER + after) == Stripped(before + after)
  {
    MarkerBetween(before, after);
    AnyFirst(before + MARKER + after, |before|);
  }

  // Letter by letter: "(deleted)" goes wherever it stands, no "(deleted)" is left, and a name without it stays.
  lemma StripsInLetters(before: string, after: string)
    ensures Stripped(before + "(deleted)" + after) == Stripped(before + after)
    ensures forall i: nat :: !OccursAt("(deleted)", Stripped(before), i)
    ensures (forall i: nat :: !OccursAt("(deleted)", before, i)) ==> Stripped(before) == before
  {
    StripsMiddle(before, after);
    assert Find(Stripped(before), 0) == |Stripped(before)|;
    NoMarkerLeft(Stripped(before));
    if Find(before, 0) < |before| { assert OccursAt("(deleted)", before, Find(before, 0)); }
  }

  // A marker whose halves come together only when the one between them goes is stripped as well, wherever it is.
  lemma HalvesAreStripped(before: string, half: string, otherHalf: string, after: string)
    requires half + otherHalf == MARKER
    ensures Stripped((before + half) + MARKER + (otherHalf + after)) == Stripped(before + after)
  {
    StripsMiddle(before + half, otherHalf + after);
    Regroup(before, half, otherHalf, after);
    StripsMiddle(before, after);
  }

  lemma Regroup(s: string, t: string, u: string, v: string)
    ensures (s + t) + (u + v) == s + (t + u) + v
  {}

  class Process {
    var type_: string
    var fd: string
    var name: string

    // The loop.
    method StripDeleted()
      modifies this
      ensures name == Stripped(old(name))
      ensures forall i: nat :: !OccursAt("(deleted)", name, i)
      ensures Clean(old(name)) ==> fd == old(fd) && type_ == old(type_)
      ensures !Clean(old(name)) ==> fd == "DEL" && type_ == "unknown"
    {
      while Find(name, 0) != |name|
        invariant Stripped(name) == Stripped(old(name))
        invariant (name == old(name) && fd == old(fd) && type_ == old(type_))
          || (!Clean(old(name)) && fd == "DEL" && type_ == "unknown")
        decreases |name|
      {
        name := RemovedAt(name, Find(name, 0));
        fd := "DEL";
        type_ := "unknown";
      }
      NoMarkerLeft(name);
    }
  }
}
