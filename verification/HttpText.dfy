/** The string operations the HTTP head parsers rely on, for ASCII text. */
module HttpText {
  import opened Collections

  /** White space, as str::trim sees it. */
  predicate Blank(c: char) {
    c == ' ' || '\t' <= c <= '\r'
  }

  ghost predicate AllBlank(s: string) {
    forall i :: 0 <= i < |s| ==> Blank(s[i])
  }

  /** Position of the first `c`, or the length if there is none. */
  function IndexOf(c: char, s: string): (i: nat)
    ensures i <= |s|
  {
    if s == "" || s[0] == c then 0 else 1 + IndexOf(c, s[1..])
  }

  /** `i` is the position of the first `c`, or the length. */
  ghost predicate IsIndex(c: char, s: string, i: nat) {
    i <= |s| && (i < |s| ==> s[i] == c) && forall k :: 0 <= k < i ==> s[k] != c
  }

  lemma {:induction false} IndexOfMeaning(c: char, s: string, i: nat)
    ensures i == IndexOf(c, s) <==> IsIndex(c, s, i)
  {
    if s != "" && s[0] != c {
      var t := s[1..];
      assert forall k :: 0 < k < |s| ==> s[k] == t[k - 1];
      if i > 0 {
        IndexOfMeaning(c, t, i - 1);
      }
    }
  }

  /** How many blanks `s` starts with. */
  function Leading(s: string): (n: nat)
    ensures n <= |s|
  {
    if s == "" || !Blank(s[0]) then 0 else 1 + Leading(s[1..])
  }

  /** `s` does not start with a blank. */
  predicate Stripped(s: string) {
    s == "" || !Blank(s[0])
  }

  /** Where the blanks at the end of `s` begin. */
  function Ending(s: string): (n: nat)
    ensures n <= |s|
  {
    if s == "" || !Blank(s[|s| - 1]) then |s| else Ending(s[..|s| - 1])
  }

  ghost predicate IsEnding(s: string, n: nat) {
    n <= |s| && (n > 0 ==> !Blank(s[n - 1])) && forall k :: n <= k < |s| ==> Blank(s[k])
  }

  lemma {:induction false} EndingMeaning(s: string, n: nat)
    ensures n == Ending(s) <==> IsEnding(s, n)
  {
    if s != "" && Blank(s[|s| - 1]) {
      EndingMeaning(s[..|s| - 1], n);
    }
  }

  lemma {:induction false} StripMeaning(pad: string, s: string)
    requires AllBlank(pad) && Stripped(s)
    ensures Leading(pad + s) == |pad| && TrimStart(pad + s) == s
    decreases |pad|
  {
    if pad == "" {
      assert pad + s == s;
    } else {
      assert Blank(pad[0]) && (pad + s)[0] == pad[0] && (pad + s)[1..] == pad[1..] + s;
      StripMeaning(pad[1..], s);
    }
  }

  lemma {:induction false} Strip(s: string) returns (pad: string)
    ensures s == pad + TrimStart(s) && AllBlank(pad) && |pad| == Leading(s) && Stripped(TrimStart(s))
  {
    if Stripped(s) {
      pad := "";
    } else {
      pad := Strip(s[1..]);
      pad := [s[0]] + pad;
    }
  }

  function TrimStart(s: string): string {
    s[Leading(s)..]
  }

  function Trim(s: string): string {
    TrimStart(s)[..Ending(TrimStart(s))]
  }

  lemma TrimTwice(s: string)
    ensures Trim(Trim(s)) == Trim(s)
  {
    var pad := Strip(s);
    var v := TrimStart(s);
    var e := Ending(v);
    EndingMeaning(v, e);
    if e > 0 {
      assert Stripped(v[..e]);
      assert "" + v[..e] == v[..e];
      StripMeaning("", v[..e]);
      EndingMeaning(v[..e], e);
      assert v[..e][..e] == v[..e];
    }
  }

  function LowerChar(c: char): char {
    if 'A' <= c <= 'Z' then c + 32 as char else c
  }

  function Lower(s: string): (r: string)
    ensures |r| == |s|
  {
    seq(|s|, i requires 0 <= i < |s| => LowerChar(s[i]))
  }

  // ---- The same, spelled out ----

  /** A space, tab, line feed, vertical tab, form feed or carriage return. */
  ghost predicate White(c: char) {
    c == ' ' || c == '\t' || c == '\n' || c == 11 as char || c == 12 as char || c == '\r'
  }

  ghost predicate AllWhite(s: string) {
    forall i :: 0 <= i < |s| ==> White(s[i])
  }

  lemma BlankMeaning(c: char)
    ensures Blank(c) <==> White(c)
  {
  }

  lemma AllBlankMeaning(s: string)
    ensures AllBlank(s) <==> AllWhite(s)
  {
    forall c: char ensures Blank(c) <==> White(c) {
      BlankMeaning(c);
    }
  }

  /** Trimming takes away the white space at both ends and nothing else. */
  lemma TrimMeaning(s: string, core: string)
    ensures Trim(s) == core <==>
            && (core != "" ==> !White(core[0]) && !White(core[|core| - 1]))
            && exists pad, tail :: Around(s, pad, core, tail)
  {
    var pad, tail := TrimParts(s);
    hide Trim;
    forall pad', tail' | Around(s, pad', core, tail') && (core != "" ==> !White(core[0]) && !White(core[|core| - 1]))
      ensures Trim(s) == core
    {
      TrimOf(s, pad', core, tail');
    }
  }

  lemma TrimParts(s: string) returns (pad: string, tail: string)
    ensures Around(s, pad, Trim(s), tail)
    ensures Trim(s) != "" ==> !White(Trim(s)[0]) && !White(Trim(s)[|Trim(s)| - 1])
  {
    pad := Strip(s);
    var v := TrimStart(s);
    var e := Ending(v);
    tail := v[e..];
    EndingMeaning(v, e);
    Parts(pad, v, e);
    hide Leading, TrimStart, Ending, IsEnding, Around;
  }

  lemma Parts(pad: string, v: string, e: nat)
    requires AllBlank(pad) && Stripped(v) && IsEnding(v, e)
    ensures Around(pad + v, pad, v[..e], v[e..])
    ensures v[..e] != "" ==> !White(v[..e][0]) && !White(v[..e][e - 1])
  {
    AllBlankMeaning(pad);
    AllBlankMeaning(v[e..]);
    if e > 0 {
      BlankMeaning(v[0]);
      BlankMeaning(v[e - 1]);
    }
    hide AllWhite, White, Blank, AllBlank;
    assert v == v[..e] + v[e..];
    Regroup(pad, v[..e], v[e..]);
  }

  lemma Regroup(a: string, b: string, c: string)
    ensures a + b + c == a + (b + c)
  {
  }

  ghost predicate Around(s: string, pad: string, core: string, tail: string) {
    s == pad + core + tail && AllWhite(pad) && AllWhite(tail)
  }

  lemma TrimOf(s: string, pad: string, core: string, tail: string)
    requires Around(s, pad, core, tail) && (core != "" ==> !White(core[0]) && !White(core[|core| - 1]))
    ensures Trim(s) == core
  {
    if core == "" {
      AllBlankMeaning(s);
      StripMeaning(s, "");
      assert s + "" == s;
    } else {
      var v := core + tail;
      assert s == pad + v;
      AllBlankMeaning(pad);
      AllBlankMeaning(tail);
      BlankMeaning(core[0]);
      BlankMeaning(core[|core| - 1]);
      StripMeaning(pad, v);
      assert forall k :: |core| <= k < |v| ==> v[k] == tail[k - |core|];
      EndingMeaning(v, |core|);
    }
  }

  /** `c` is the letter with this lower and upper case. */
  ghost predicate Letter(c: char, lower: char, upper: char) {
    c == lower || c == upper
  }

  lemma LowerLetters(s: string, i: nat)
    requires i < |s|
    ensures Lower(s)[i] == 'h' <==> Letter(s[i], 'h', 'H')
    ensures Lower(s)[i] == 'o' <==> Letter(s[i], 'o', 'O')
    ensures Lower(s)[i] == 's' <==> Letter(s[i], 's', 'S')
    ensures Lower(s)[i] == 't' <==> Letter(s[i], 't', 'T')
    ensures Lower(s)[i] == 'u' <==> Letter(s[i], 'u', 'U')
    ensures Lower(s)[i] == 'n' <==> Letter(s[i], 'n', 'N')
    ensures Lower(s)[i] == 'k' <==> Letter(s[i], 'k', 'K')
    ensures Lower(s)[i] == 'w' <==> Letter(s[i], 'w', 'W')
  {
  }

  /** The four letters of "host", each in either case. */
  ghost predicate SpellsHost(s: string) {
    |s| == 4 && Letter(s[0], 'h', 'H') && Letter(s[1], 'o', 'O') && Letter(s[2], 's', 'S') && Letter(s[3], 't', 'T')
  }

  lemma HostSpelling(s: string)
    ensures Lower(s) == "host" <==> SpellsHost(s)
  {
    if |s| == 4 {
      LowerLetters(s, 0);
      LowerLetters(s, 1);
      LowerLetters(s, 2);
      LowerLetters(s, 3);
      hide Lower;
      var low := Lower(s);
      assert low == [low[0], low[1], low[2], low[3]];
    }
  }

  /** The seven letters of "unknown", each in either case. */
  ghost predicate SpellsUnknown(s: string) {
    && |s| == 7 && Letter(s[0], 'u', 'U') && Letter(s[1], 'n', 'N') && Letter(s[2], 'k', 'K') && Letter(s[3], 'n', 'N')
    && Letter(s[4], 'o', 'O') && Letter(s[5], 'w', 'W') && Letter(s[6], 'n', 'N')
  }

  lemma UnknownSpelling(s: string)
    ensures Lower(s) == "unknown" <==> SpellsUnknown(s)
  {
    if |s| == 7 {
      forall i: nat | i < 7
        ensures Lower(s)[i] == 'u' <==> Letter(s[i], 'u', 'U')
        ensures Lower(s)[i] == 'n' <==> Letter(s[i], 'n', 'N')
        ensures Lower(s)[i] == 'k' <==> Letter(s[i], 'k', 'K')
        ensures Lower(s)[i] == 'o' <==> Letter(s[i], 'o', 'O')
        ensures Lower(s)[i] == 'w' <==> Letter(s[i], 'w', 'W')
      {
        LowerLetters(s, i);
      }
      hide Lower;
      var low := Lower(s);
      assert low == [low[0], low[1], low[2], low[3], low[4], low[5], low[6]];
    }
  }

  /** A line without the carriage return of its CRLF. */
  function StripCr(line: string): string {
    if line != "" && line[|line| - 1] == '\r' then line[..|line| - 1] else line
  }

  /** `pattern` occurs at position `i`. */
  predicate OccursAt(s: string, pattern: string, i: nat) {
    i + |pattern| <= |s| && s[i..i + |pattern|] == pattern
  }

  ghost predicate Occurs(s: string, pattern: string) {
    exists i: nat :: OccursAt(s, pattern, i)
  }

  lemma OccursAfter(prefix: string, s: string, pattern: string, j: nat)
    ensures OccursAt(prefix + s, pattern, |prefix| + j) <==> OccursAt(s, pattern, j)
  {
    if j + |pattern| <= |s| {
      assert (prefix + s)[|prefix| + j..|prefix| + j + |pattern|] == s[j..j + |pattern|];
    }
  }

  /** A first occurrence behind a prefix in which nothing begins. */
  lemma FirstAfter(prefix: string, s: string, pattern: string, at: nat)
    requires FirstOccurrence(s, pattern, Some(at))
    requires forall j: nat :: j < |prefix| ==> !OccursAt(prefix + s, pattern, j)
    ensures FirstOccurrence(prefix + s, pattern, Some(|prefix| + at))
  {
    hide OccursAt;
    OccursAfter(prefix, s, pattern, at);
    forall j: nat | j < |prefix| + at ensures !OccursAt(prefix + s, pattern, j) {
      if j >= |prefix| {
        OccursAfter(prefix, s, pattern, j - |prefix|);
      }
    }
  }

  lemma OccursChar(s: string, pattern: string, i: nat, k: nat)
    requires OccursAt(s, pattern, i) && k < |pattern|
    ensures s[i + k] == pattern[k]
  {
    assert s[i..i + |pattern|][k] == pattern[k];
  }

  /** The first occurrence, as windows().position() finds it. */
  ghost predicate FirstOccurrence(s: string, pattern: string, at: Option<nat>) {
    match at
    case Some(i) => OccursAt(s, pattern, i) && forall j: nat :: j < i ==> !OccursAt(s, pattern, j)
    case None => !Occurs(s, pattern)
  }

  lemma FirstOccurrenceUnique(s: string, pattern: string, a: Option<nat>, b: Option<nat>)
    requires FirstOccurrence(s, pattern, a) && FirstOccurrence(s, pattern, b)
    ensures a == b
  {
  }

  /** Something that occurs occurs a first time. */
  lemma {:induction false} FirstExists(s: string, pattern: string, i: nat) returns (first: nat)
    requires OccursAt(s, pattern, i)
    ensures first <= i && FirstOccurrence(s, pattern, Some(first))
    decreases i
  {
    first := i;
    if j: nat :| j < i && OccursAt(s, pattern, j) {
      first := FirstExists(s, pattern, j);
    }
  }

  method Position(s: string, pattern: string) returns (at: Option<nat>)
    ensures FirstOccurrence(s, pattern, at)
  {
    var i := 0;
    while i + |pattern| <= |s|
      invariant forall j: nat :: j < i ==> !OccursAt(s, pattern, j)
      decreases |s| - i
    {
      if s[i..i + |pattern|] == pattern {
        return Some(i);
      }
      i := i + 1;
    }
    return None;
  }
}
