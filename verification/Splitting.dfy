// split of hw4.cpp: the words of a command line.
module Splitting {
  // isspace in the C locale.
  predicate IsSpace(c: char) {
    9 <= c as int <= 13 || c == ' '
  }

  predicate AllSpace(s: string) {
    forall i :: 0 <= i < |s| ==> IsSpace(s[i])
  }

  predicate IsWord(s: string) {
    s != "" && forall i :: 0 <= i < |s| ==> !IsSpace(s[i])
  }

  // The number of characters of s before its first space.
  function WordLength(s: string): (n: nat)
    ensures n <= |s| && (forall i :: 0 <= i < n ==> !IsSpace(s[i])) && (n < |s| ==> IsSpace(s[n]))
  {
    if s == "" || IsSpace(s[0]) then 0 else 1 + WordLength(s[1..])
  }

  // Reading words until there is no more.
  function Words(s: string): seq<string>
    decreases |s|
  {
    if s == "" then []
    else if IsSpace(s[0]) then Words(s[1..])
    else [s[..WordLength(s)]] + Words(s[WordLength(s)..])
  }

  // The words between gaps: gaps[0] first, gaps[i + 1] after words[i].
  function Line(gaps: seq<string>, words: seq<string>): string
    requires |gaps| == |words| + 1
  {
    if words == [] then gaps[0] else gaps[0] + words[0] + Line(gaps[1..], words[1..])
  }

  // Gaps are white space, not empty between two words.
  predicate AreGaps(gaps: seq<string>, n: nat) {
    && |gaps| == n + 1
    && (forall i :: 0 <= i <= n ==> AllSpace(gaps[i]))
    && (forall i :: 0 < i < n ==> gaps[i] != "")
  }

  predicate AreWords(words: seq<string>) {
    forall i :: 0 <= i < |words| ==> IsWord(words[i])
  }

  lemma {:induction false} SkipsGap(gap: string, s: string)
    requires AllSpace(gap)
    ensures Words(gap + s) == Words(s)
  {
    if gap == "" {
      assert gap + s == s;
    } else {
      SkipsGap(gap[1..], s);
      assert (gap + s)[1..] == gap[1..] + s;
    }
  }

  lemma ReadsWord(word: string, s: string)
    requires IsWord(word) && (s == "" || IsSpace(s[0]))
    ensures Words(word + s) == [word] + Words(s)
  {
    var line := word + s;
    assert !IsSpace(line[0]);
    var n := WordLength(line);
    assert forall i :: 0 <= i < |word| ==> line[i] == word[i];
    assert s != "" ==> line[|word|] == s[0];
    assert line[..n] == word && line[n..] == s;
  }

  // split gives back the words a line was put together from, whatever the gaps.
  lemma {:induction false} SplitsLine(gaps: seq<string>, words: seq<string>)
    requires AreGaps(gaps, |words|) && AreWords(words)
    ensures Words(Line(gaps, words)) == words
    decreases |words|
  {
    if words == [] {
      SkipsGap(gaps[0], "");
      assert gaps[0] + "" == gaps[0];
    } else {
      var rest := Line(gaps[1..], words[1..]);
      SkipsGap(gaps[0], words[0] + rest);
      assert Line(gaps, words) == gaps[0] + (words[0] + rest);
      ReadsWord(words[0], rest);
      SplitsLine(gaps[1..], words[1..]);
    }
  }

  // A space in front makes the first gap longer.
  lemma {:induction false} LongerGap(c: char, gaps: seq<string>, words: seq<string>)
    requires IsSpace(c) && AreGaps(gaps, |words|)
    ensures AreGaps([[c] + gaps[0]] + gaps[1..], |words|)
    ensures Line([[c] + gaps[0]] + gaps[1..], words) == [c] + Line(gaps, words)
  {
    var longer := [[c] + gaps[0]] + gaps[1..];
    assert longer[1..] == gaps[1..];
    if words == [] {
    } else {
      assert [c] + gaps[0] + words[0] + Line(gaps[1..], words[1..])
          == [c] + (gaps[0] + words[0] + Line(gaps[1..], words[1..]));
    }
  }

  // A word in front, with no gap before it.
  lemma {:induction false} MoreWords(word: string, gaps: seq<string>, words: seq<string>)
    requires IsWord(word) && AreGaps(gaps, |words|) && (words != [] ==> gaps[0] != "")
    ensures AreGaps([""] + gaps, |words| + 1)
    ensures Line([""] + gaps, [word] + words) == word + Line(gaps, words)
  {
    var more := [""] + gaps;
    assert more[1..] == gaps && ([word] + words)[1..] == words && "" + word == word;
    forall i | 0 <= i <= |words| + 1 ensures AllSpace(more[i]) && (0 < i < |words| + 1 ==> more[i] != "") {
      if i > 0 { assert more[i] == gaps[i - 1]; }
    }
  }

  // Every line is its words between such gaps.
  lemma {:induction false} EveryLine(s: string) returns (gaps: seq<string>)
    ensures AreWords(Words(s)) && AreGaps(gaps, |Words(s)|) && Line(gaps, Words(s)) == s
    ensures s != "" && IsSpace(s[0]) ==> gaps[0] != ""
    decreases |s|
  {
    if s == "" {
      gaps := [""];
    } else if IsSpace(s[0]) {
      var rest := EveryLine(s[1..]);
      gaps := [[s[0]] + rest[0]] + rest[1..];
      LongerGap(s[0], rest, Words(s[1..]));
      assert s == [s[0]] + s[1..];
    } else {
      var n := WordLength(s);
      var rest := EveryLine(s[n..]);
      gaps := [""] + rest;
      assert Words(s[n..]) != [] ==> s[n..] != "";
      MoreWords(s[..n], rest, Words(s[n..]));
      assert s == s[..n] + s[n..];
    }
  }

  // ---- in literal characters -----------------------------------------------------------------------------------

  // Space, tab, newline, vertical tab, form feed and carriage return.
  predicate IsBlank(c: char) {
    c == ' ' || c == '\t' || c == '\n' || c == '\U{0B}' || c == '\U{0C}' || c == '\r'
  }

  predicate Blanks(s: string) {
    forall i :: 0 <= i < |s| ==> IsBlank(s[i])
  }

  predicate NoBlanks(s: string) {
    forall i :: 0 <= i < |s| ==> !IsBlank(s[i])
  }

  lemma SpacesAreBlanks(s: string)
    ensures AllSpace(s) <==> Blanks(s)
    ensures IsWord(s) <==> s != "" && NoBlanks(s)
  {}

  // Non-empty words without any of the six characters, joined by gaps of them that are not empty inside the line, are
  // split back.
  lemma SplitsPlainLine(gaps: seq<string>, words: seq<string>)
    requires |gaps| == |words| + 1
    requires forall i :: 0 <= i <= |words| ==> Blanks(gaps[i])
    requires forall i :: 0 < i < |words| ==> gaps[i] != ""
    requires forall i :: 0 <= i < |words| ==> words[i] != "" && NoBlanks(words[i])
    ensures Words(Line(gaps, words)) == words
  {
    forall i | 0 <= i <= |words| ensures AllSpace(gaps[i]) { SpacesAreBlanks(gaps[i]); }
    forall i | 0 <= i < |words| ensures IsWord(words[i]) { SpacesAreBlanks(words[i]); }
    SplitsLine(gaps, words);
  }

  // A command with an argument, a single blank between them.
  lemma SplitsCommand(cmd: string, arg: string)
    requires cmd != "" && NoBlanks(cmd) && arg != "" && NoBlanks(arg)
    ensures Words(cmd + " " + arg) == [cmd, arg]
  {
    var gaps, words := ["", " ", ""], [cmd, arg];
    assert Blanks(gaps[0]) && Blanks(gaps[1]) && Blanks(gaps[2]);
    SplitsPlainLine(gaps, words);
    assert gaps[1..] == [" ", ""] && words[1..] == [arg];
    assert gaps[1..][1..] == [""] && words[1..][1..] == [];
    assert Line([" ", ""], [arg]) == " " + arg + "";
    assert Line(gaps, words) == "" + cmd + (" " + arg + "");
    assert cmd + " " + arg == Line(gaps, words);
  }

  // An input string stream, read with >>.
  class Stream {
    const text: string
    var at: nat

    constructor (text: string)
      ensures this.text == text && at == 0
    {
      this.text, at := text, 0;
    }

    method SkipSpace()
      requires at <= |text|
      modifies this
      ensures old(at) <= at <= |text| && (at < |text| ==> !IsSpace(text[at]))
      ensures Words(text[at..]) == Words(old(text[at..]))
    {
      while at < |text| && IsSpace(text[at])
        invariant old(at) <= at <= |text|
        invariant Words(text[at..]) == Words(old(text[at..]))
      {
        assert text[at..][1..] == text[at + 1..];
        at := at + 1;
      }
    }

    // operator>>: the next word, or nothing at the end.
    method Read() returns (ok: bool, word: string)
      requires at <= |text|
      modifies this
      ensures at <= |text|
      ensures !ok ==> Words(old(text[at..])) == [] && at == |text|
      ensures ok ==> Words(old(text[at..])) == [word] + Words(text[at..])
    {
      SkipSpace();
      var start := at;
      while at < |text| && !IsSpace(text[at])
        invariant start <= at <= |text|
        invariant forall i :: start <= i < at ==> !IsSpace(text[i])
      {
        at := at + 1;
      }
      ok, word := at > start, text[start..at];
      if ok {
        assert text[start..] == word + text[at..];
        ReadsWord(word, text[at..]);
      }
    }
  }

  method Split(cmdLine: string) returns (table: seq<string>)
    ensures table == Words(cmdLine)
  {
    table := [];
    var ss := new Stream(cmdLine);
    var ok, temp := ss.Read();
    while ok
      invariant ss.text == cmdLine && ss.at <= |cmdLine|
      invariant ok ==> table + [temp] + Words(cmdLine[ss.at..]) == Words(cmdLine)
      invariant !ok ==> table == Words(cmdLine)
      decreases |Words(cmdLine[ss.at..])| + if ok then 1 else 0
    {
      table := table + [temp];
      ok, temp := ss.Read();
    }
  }
}
