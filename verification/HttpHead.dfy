/** Host extraction in conduit/src/egress.rs and conduit/src/ingress.rs, and the policy
    check and routing decision that rest on it. */
module HttpHeads {
  import opened Collections
  import opened HttpText
  import opened PolicyCaches

  /** The line is a Host field, in any case. */
  predicate IsHostField(line: string) {
    |line| >= 5 && Lower(line[..5]) == "host:"
  }

  /** The host a line names: the trimmed field value up to its first colon, unless empty. */
  function HostOfLine(line: string): Option<string> {
    if !IsHostField(line) then None else
      var value := Trim(line[5..]);
      var host := value[..IndexOf(':', value)];
      if host == "" then None else Some(host)
  }

  /** The host of the first line that names one. */
  function HostIn(text: string): Option<string>
    decreases |text|
  {
    if text == "" then None else
      var n := IndexOf('\n', text);
      if n == |text| then HostOfLine(text)
      else if HostOfLine(StripCr(text[..n])).Some? then HostOfLine(StripCr(text[..n]))
      else HostIn(text[n + 1..])
  }

  /** extract_host: goes through the lines and returns at the first usable Host field. */
  method ExtractHost(raw: string) returns (host: Option<string>)
    ensures host == HostIn(raw)
  {
    hide Trim, Lower, StripCr, IndexOf;
    var rest := raw;
    while rest != ""
      invariant HostIn(raw) == HostIn(rest)
      decreases |rest|
    {
      var n := IndexOf('\n', rest);
      var line, next := rest, "";
      if n < |rest| {
        line, next := StripCr(rest[..n]), rest[n + 1..];
      }
      if IsHostField(line) {
        var value := Trim(line[5..]);
        var name := value[..IndexOf(':', value)];
        if name != "" {
          return Some(name);
        }
      }
      rest := next;
    }
    return None;
  }

  // ---- What a Host field is ----

  /** `host` may stand before `tail` in a field value. */
  ghost predicate HostBefore(host: string, tail: string) {
    && host != "" && ':' !in host && !White(host[0])
    && ((tail != "" && tail[0] == ':') || (AllWhite(tail) && !White(host[|host| - 1])))
  }

  /** The line is the field name "host" in any case, a colon, padding, the host, and then a
      port or padding. */
  ghost predicate Renders(line: string, name: string, pad: string, host: string, tail: string) {
    line == name + ":" + pad + host + tail && SpellsHost(name) && AllWhite(pad) && HostBefore(host, tail)
  }

  /** The host of a field value from which the leading blanks are gone. */
  function HostOfValue(v: string): string {
    if IndexOf(':', v) < |v| then v[..IndexOf(':', v)] else v[..Ending(v)]
  }

  /** The host of the text after the field name, or nothing. */
  function HostOfField(field: string): string {
    HostOfValue(TrimStart(field))
  }

  /** Trimming the end of a value never reaches a colon. */
  lemma ValueHost(v: string)
    ensures var value := v[..Ending(v)];
            value[..IndexOf(':', value)] == HostOfValue(v)
  {
    var c, e := IndexOf(':', v), Ending(v);
    IndexOfMeaning(':', v, c);
    EndingMeaning(v, e);
    IndexOfMeaning(':', v[..e], if c < |v| then c else e);
  }

  lemma FieldHost(line: string)
    requires IsHostField(line)
    ensures HostOfLine(line) == if HostOfField(line[5..]) == "" then None else Some(HostOfField(line[5..]))
  {
    ValueHost(TrimStart(line[5..]));
  }

  lemma LowerConcat(a: string, b: string)
    ensures Lower(a + b) == Lower(a) + Lower(b)
  {
  }

  /** extract_host inverts rendering: it finds a host in a line exactly when the line is a
      rendering of that host. */
  lemma HostFieldMeaning(line: string, host: string)
    ensures HostOfLine(line) == Some(host) <==> exists name, pad, tail :: Renders(line, name, pad, host, tail)
  {
    if HostOfLine(line) == Some(host) {
      var name, pad, tail := Parsed(line, host);
    }
    forall name, pad, tail | Renders(line, name, pad, host, tail) ensures HostOfLine(line) == Some(host) {
      Rendered(line, name, pad, host, tail);
    }
  }

  lemma Parsed(line: string, host: string) returns (name: string, pad: string, tail: string)
    requires HostOfLine(line) == Some(host)
    ensures Renders(line, name, pad, host, tail) && |name| == 4 && |pad| == Leading(line[5..])
  {
    hide AllWhite, HostBefore, SpellsHost;
    HostName(line);
    FieldHost(line);
    name := line[..4];
    pad, tail := ParsedField(line[5..]);
    Regroup4(name + ":", pad, host, tail);
  }

  lemma Regroup4(a: string, b: string, c: string, d: string)
    ensures a + b + c + d == a + (b + c + d)
  {
  }

  lemma ParsedField(field: string) returns (pad: string, tail: string)
    requires HostOfField(field) != ""
    ensures field == pad + HostOfField(field) + tail
    ensures AllWhite(pad) && HostBefore(HostOfField(field), tail) && |pad| == Leading(field)
  {
    hide TrimStart, Leading, HostOfValue, AllBlank, AllWhite, HostBefore, Stripped;
    pad := Strip(field);
    AllBlankMeaning(pad);
    tail := ParsedValue(TrimStart(field));
    assert field == pad + (HostOfField(field) + tail);
  }

  lemma HostName(line: string)
    requires IsHostField(line)
    ensures line[4] == ':' && SpellsHost(line[..4])
    ensures line == line[..4] + ":" + line[5..]
  {
    assert line[..5] == line[..4] + [line[4]];
    LowerConcat(line[..4], [line[4]]);
    var low := Lower(line[..5]);
    assert LowerChar(line[4]) == low[4];
    assert Lower(line[..4]) == low[..4];
    HostSpelling(line[..4]);
  }

  lemma ParsedValue(v: string) returns (tail: string)
    requires Stripped(v) && HostOfValue(v) != ""
    ensures v == HostOfValue(v) + tail && HostBefore(HostOfValue(v), tail)
  {
    var host := HostOfValue(v);
    tail := v[|host|..];
    IndexOfMeaning(':', v, IndexOf(':', v));
    EndingMeaning(v, Ending(v));
    BlankEnds(host);
    AllBlankMeaning(tail);
  }

  lemma BlankEnds(s: string)
    requires s != ""
    ensures Blank(s[0]) == White(s[0]) && Blank(s[|s| - 1]) == White(s[|s| - 1])
  {
    BlankMeaning(s[0]);
    BlankMeaning(s[|s| - 1]);
  }

  lemma Rendered(line: string, name: string, pad: string, host: string, tail: string)
    requires Renders(line, name, pad, host, tail)
    ensures HostOfLine(line) == Some(host)
  {
    assert line[..5] == name + ":";
    LowerConcat(name, ":");
    assert Lower(":") == ":";
    HostSpelling(name);
    assert line[5..] == pad + (host + tail);
    AllBlankMeaning(pad);
    BlankEnds(host);
    StripMeaning(pad, host + tail);
    hide SpellsHost, AllWhite, White, Blank, Lower;
    FieldHost(line);
    RenderedValue(host, tail);
  }

  lemma RenderedValue(host: string, tail: string)
    requires HostBefore(host, tail)
    ensures HostOfValue(host + tail) == host
  {
    var v := host + tail;
    BlankEnds(host);
    AllBlankMeaning(tail);
    if tail != "" && tail[0] == ':' {
      IndexOfMeaning(':', v, |host|);
    } else {
      IndexOfMeaning(':', v, |v|);
      EndingMeaning(v, |host|);
    }
  }

  /** Lines without a host, then the rendering of one, then anything; each line ends in CRLF
      or, if `bare`, in a line feed. */
  function Head(bare: bool, before: seq<string>, line: string, rest: string): string {
    var cr := if bare then "" else "\r";
    if before == [] then line + cr + "\n" + rest
    else before[0] + cr + "\n" + Head(bare, before[1..], line, rest)
  }

  /** A line has the same host without its carriage return and with one. */
  lemma HostDespiteCr(line: string)
    ensures HostOfLine(StripCr(line)) == HostOfLine(line) && HostOfLine(StripCr(line + "\r")) == HostOfLine(line)
  {
    assert line[..|line|] == line && StripCr(line + "\r") == line;
    if HostOfLine(StripCr(line)).Some? {
      HostWithCr(line, |line|);
    } else {
      HostlessLine(line, |line|);
    }
  }

  /** extract_host inverts the rendering of a whole head. */
  lemma {:induction false} HeadRoundTrip(bare: bool, before: seq<string>, line: string, name: string, pad: string,
                                         host: string, tail: string, rest: string)
    requires forall l :: l in before ==> '\n' !in l && HostOfLine(l).None?
    requires Renders(line, name, pad, host, tail) && '\n' !in line
    ensures HostIn(Head(bare, before, line, rest)) == Some(host)
    decreases |before|
  {
    var cr := if bare then "" else "\r";
    if before == [] {
      Rendered(line, name, pad, host, tail);
      HostDespiteCr(line);
      assert line + "" == line;
      HostOfFirstLine(line + cr, rest);
    } else {
      var first := before[0];
      assert first in before;
      HostDespiteCr(first);
      assert first + "" == first;
      HeadRoundTrip(bare, before[1..], line, name, pad, host, tail, rest);
      HostOfFirstLine(first + cr, Head(bare, before[1..], line, rest));
    }
  }

  /** str::lines. */
  function Lines(text: string): seq<string>
    decreases |text|
  {
    if text == "" then [] else
      var n := IndexOf('\n', text);
      if n == |text| then [text] else [StripCr(text[..n])] + Lines(text[n + 1..])
  }

  /** Line `i` names the host and no earlier line names one. */
  ghost predicate NamesFirst(lines: seq<string>, i: int, host: string) {
    0 <= i < |lines| && HostOfLine(lines[i]) == Some(host) && forall j :: 0 <= j < i ==> HostOfLine(lines[j]).None?
  }

  /** A text has a host exactly when one of its lines names it and none before names any. */
  lemma {:induction false} HostInMeaning(text: string, host: string)
    ensures HostIn(text) == Some(host) <==> exists i :: NamesFirst(Lines(text), i, host)
    decreases |text|
  {
    hide HostOfLine, StripCr;
    if text != "" {
      var n := IndexOf('\n', text);
      var first, rest := Lines(text)[0], if n == |text| then "" else text[n + 1..];
      assert Lines(text) == [first] + Lines(rest);
      assert HostIn(text) == if HostOfLine(first).Some? then HostOfLine(first) else HostIn(rest);
      HostInMeaning(rest, host);
      FirstOfMore(first, Lines(rest), host);
    }
  }

  lemma FirstOfMore(first: string, rest: seq<string>, host: string)
    ensures (exists i :: NamesFirst([first] + rest, i, host)) <==>
            if HostOfLine(first).Some? then HostOfLine(first) == Some(host) else exists i :: NamesFirst(rest, i, host)
  {
    hide HostOfLine;
    var lines := [first] + rest;
    if HostOfLine(first).Some? {
      assert lines[0] == first;
      assert HostOfLine(first) == Some(host) ==> NamesFirst(lines, 0, host);
    } else {
      forall i | NamesFirst(rest, i, host) ensures NamesFirst(lines, i + 1, host) {
        assert forall j :: 0 < j < |lines| ==> lines[j] == rest[j - 1];
      }
      forall i | NamesFirst(lines, i, host) ensures NamesFirst(rest, i - 1, host) {
        assert forall j :: 0 <= j < |rest| ==> rest[j] == lines[j + 1];
      }
    }
  }

  // ---- Reading only part of a head ----

  /** How much of a line settles its host: the line up to the end of the host, and the colon
      after it if the host ends in a blank. */
  function LineEnd(line: string): nat
    requires HostOfLine(line).Some?
  {
    var host := HostOfLine(line).value;
    5 + Leading(line[5..]) + |host| + if Blank(host[|host| - 1]) then 1 else 0
  }

  /** How much of a head settles its host. */
  function HostEnd(text: string): nat
    requires HostIn(text).Some?
    decreases |text|
  {
    var n := IndexOf('\n', text);
    var line := if n == |text| then text else StripCr(text[..n]);
    if HostOfLine(line).Some? then LineEnd(line) else n + 1 + HostEnd(text[n + 1..])
  }

  /** No host, or the beginning of the other. */
  predicate Begins(found: Option<string>, host: Option<string>)
    requires host.Some?
  {
    found.Some? ==> found.value <= host.value
  }

  /** A value without its end yields the same host exactly when the cut comes late enough. */
  lemma CutValue(v: string, j: nat)
    requires j <= |v| && HostOfValue(v) != ""
    ensures var host := HostOfValue(v);
            HostOfValue(v[..j]) == host <==> j >= |host| + if Blank(host[|host| - 1]) then 1 else 0
    ensures HostOfValue(v[..j]) <= HostOfValue(v)
  {
    var cut := v[..j];
    var c, e := IndexOf(':', v), Ending(v);
    IndexOfMeaning(':', v, c);
    EndingMeaning(v, e);
    IndexOfMeaning(':', cut, if c < j then c else j);
    EndingMeaning(cut, Ending(cut));
    EndingMeaning(cut, if c < |v| then j else e);
  }

  lemma CutField(field: string, k: nat)
    requires k <= |field| && HostOfField(field) != ""
    ensures var host := HostOfField(field);
            HostOfField(field[..k]) == host <==>
            k >= Leading(field) + |host| + if Blank(host[|host| - 1]) then 1 else 0
    ensures HostOfField(field[..k]) <= HostOfField(field)
  {
    var pad := Strip(field);
    hide Leading, TrimStart, HostOfValue;
    CutPadded(pad, TrimStart(field), k);
  }

  lemma CutPadded(pad: string, v: string, k: nat)
    requires AllBlank(pad) && Stripped(v) && k <= |pad + v| && HostOfValue(v) != ""
    ensures var host := HostOfValue(v);
            HostOfField((pad + v)[..k]) == host <==>
            k >= |pad| + |host| + if Blank(host[|host| - 1]) then 1 else 0
    ensures HostOfField((pad + v)[..k]) <= HostOfValue(v)
  {
    hide HostOfField, HostOfValue, AllBlank, Blank;
    if k < |pad| {
      assert (pad + v)[..k] == pad[..k];
      CutPadding(pad, k);
    } else {
      var w := v[..k - |pad|];
      assert (pad + v)[..k] == pad + w;
      assert Stripped(w);
      PaddedHost(pad, w);
      CutValue(v, k - |pad|);
    }
  }

  lemma PaddedHost(pad: string, v: string)
    requires AllBlank(pad) && Stripped(v)
    ensures HostOfField(pad + v) == HostOfValue(v)
  {
    StripMeaning(pad, v);
  }

  lemma CutPadding(pad: string, k: nat)
    requires AllBlank(pad) && k <= |pad|
    ensures HostOfField(pad[..k]) == ""
  {
    BlankField(pad[..k]);
  }

  lemma BlankField(field: string)
    requires AllBlank(field)
    ensures HostOfField(field) == ""
  {
    StripMeaning(field, "");
    assert field + "" == field;
  }

  lemma ShortLine(line: string)
    requires |line| < 5
    ensures HostOfLine(line).None?
  {
  }

  lemma CutLine(line: string, k: nat)
    requires k <= |line| && HostOfLine(line).Some?
    ensures HostOfLine(line[..k]) == HostOfLine(line) <==> k >= LineEnd(line)
    ensures Begins(HostOfLine(line[..k]), HostOfLine(line))
  {
    var name, field := line[..5], line[5..];
    assert line == name + field;
    NamedField(name, field);
    hide HostOfLine, HostOfField, Lower, Leading, IsHostField;
    if k < 5 {
      ShortLine(line[..k]);
    } else {
      assert line[..k] == name + field[..k - 5];
      NamedField(name, field[..k - 5]);
      CutField(field, k - 5);
    }
  }

  lemma NamedField(name: string, field: string)
    requires |name| == 5 && Lower(name) == "host:"
    ensures HostOfLine(name + field) == if HostOfField(field) == "" then None else Some(HostOfField(field))
  {
    assert (name + field)[..5] == name && (name + field)[5..] == field;
    FieldHost(name + field);
  }

  /** A field that names no host names none when cut, nor with a carriage return. */
  lemma HostlessField(field: string, k: nat)
    requires k <= |field + "\r"| && HostOfField(field) == ""
    ensures HostOfField((field + "\r")[..k]) == ""
  {
    var pad := Strip(field);
    var v := TrimStart(field);
    var whole := field + "\r";
    if k <= |pad| || v == "" {
      assert k <= |pad| ==> whole[..k] == pad[..k];
      assert v == "" ==> AllBlank(whole[..k]);
      BlankField(whole[..k]);
    } else {
      HostlessValue(v);
      var w := (v + "\r")[..k - |pad|];
      assert whole[..k] == pad + w;
      StripMeaning(pad, w);
      IndexOfMeaning(':', w, 0);
    }
  }

  lemma HostlessValue(v: string)
    requires v != "" && Stripped(v) && HostOfValue(v) == ""
    ensures v[0] == ':'
  {
    IndexOfMeaning(':', v, IndexOf(':', v));
    EndingMeaning(v, 0);
  }

  /** A line that names no host names none when cut, nor with its carriage return. */
  lemma HostlessLine(line: string, k: nat)
    requires k <= |line| && HostOfLine(StripCr(line)).None?
    ensures HostOfLine(line[..k]).None?
  {
    var whole, cut := StripCr(line), line[..k];
    if IsHostField(cut) {
      HostName(cut);
      assert whole[..5] == cut[..5];
      assert line == whole || line == whole + "\r";
      assert cut[5..] == (whole[5..] + "\r")[..k - 5];
      HostlessFields(whole, cut);
    }
  }

  lemma HostlessFields(whole: string, cut: string)
    requires IsHostField(whole) && IsHostField(cut) && HostOfLine(whole).None?
    requires |cut| <= |whole| + 1 && cut[5..] == (whole[5..] + "\r")[..|cut| - 5]
    ensures HostOfLine(cut).None?
  {
    FieldHost(whole);
    FieldHost(cut);
    HostlessField(whole[5..], |cut| - 5);
  }

  /** A line keeps its host and its settling point with its carriage return. */
  lemma HostWithCr(line: string, k: nat)
    requires k <= |line| && HostOfLine(StripCr(line)).Some?
    ensures LineEnd(StripCr(line)) <= |StripCr(line)|
    ensures HostOfLine(line[..k]) == HostOfLine(StripCr(line)) <==> k >= LineEnd(StripCr(line))
    ensures Begins(HostOfLine(line[..k]), HostOfLine(StripCr(line)))
  {
    var whole := StripCr(line);
    CutLine(whole, |whole|);
    assert whole[..|whole|] == whole;
    if k <= |whole| {
      CutLine(whole, k);
      assert line[..k] == whole[..k];
    } else {
      assert line == whole + "\r" && line[..k] == line;
      var host := HostOfLine(whole).value;
      var name, pad, tail := Parsed(whole, host);
      assert line == name + ":" + pad + host + (tail + "\r");
      Rendered(line, name, pad, host, tail + "\r");
    }
  }

  /** Reading a head line by line. */
  lemma HostOfFirstLine(line: string, rest: string)
    requires '\n' !in line
    ensures var text := line + "\n" + rest;
            && HostIn(line) == HostOfLine(line)
            && HostIn(text) == (if HostOfLine(StripCr(line)).Some? then HostOfLine(StripCr(line)) else HostIn(rest))
            && (HostOfLine(line).Some? ==> HostEnd(line) == LineEnd(line))
            && (HostIn(text).Some? ==>
                  HostEnd(text) == if HostOfLine(StripCr(line)).Some? then LineEnd(StripCr(line))
                                   else |line| + 1 + HostEnd(rest))
  {
    var text := line + "\n" + rest;
    IndexOfMeaning('\n', text, |line|);
    IndexOfMeaning('\n', line, |line|);
    assert text[..|line|] == line && text[|line| + 1..] == rest;
  }

  /** The first line of a head of several lines. */
  lemma SplitHead(text: string) returns (line: string, rest: string)
    requires IndexOf('\n', text) < |text|
    ensures '\n' !in line && text == line + "\n" + rest
  {
    var m := IndexOf('\n', text);
    IndexOfMeaning('\n', text, m);
    line, rest := text[..m], text[m + 1..];
  }

  /** A reader of the first `n` characters of a head finds the host of the whole head exactly
      when what it read reaches the end of the host; otherwise it finds none or a shorter one. */
  lemma {:induction false} CutHead(text: string, n: nat)
    requires n <= |text| && HostIn(text).Some?
    ensures HostEnd(text) <= |text|
    ensures HostIn(text[..n]) == HostIn(text) <==> n >= HostEnd(text)
    ensures Begins(HostIn(text[..n]), HostIn(text))
    decreases |text|
  {
    hide HostIn, HostEnd, HostOfLine, LineEnd, StripCr, Begins;
    if IndexOf('\n', text) == |text| {
      CutLastLine(text, n);
    } else {
      var line, rest := SplitHead(text);
      if HostOfLine(StripCr(line)).None? {
        HostOfFirstLine(line, rest);
        CutHead(rest, if n <= |line| then 0 else n - |line| - 1);
      }
      if n <= |line| {
        assert text[..n] == line[..n];
        CutInLine(line, rest, n);
      } else {
        assert text[..n] == line + "\n" + rest[..n - |line| - 1];
        CutAfterLine(line, rest, n - |line| - 1);
      }
    }
  }

  lemma CutInLine(line: string, rest: string, n: nat)
    requires '\n' !in line && n <= |line| && HostIn(line + "\n" + rest).Some?
    requires HostOfLine(StripCr(line)).None? ==> HostIn(rest).Some? && HostEnd(rest) <= |rest|
    ensures HostEnd(line + "\n" + rest) <= |line + "\n" + rest|
    ensures HostIn(line[..n]) == HostIn(line + "\n" + rest) <==> n >= HostEnd(line + "\n" + rest)
    ensures Begins(HostIn(line[..n]), HostIn(line + "\n" + rest))
  {
    HostOfFirstLine(line, rest);
    HostOfFirstLine(line[..n], "");
    hide HostIn, HostEnd, HostOfLine, LineEnd, StripCr;
    if HostOfLine(StripCr(line)).Some? {
      HostWithCr(line, n);
    } else {
      HostlessLine(line, n);
    }
  }

  lemma CutAfterLine(line: string, rest: string, k: nat)
    requires '\n' !in line && k <= |rest| && HostIn(line + "\n" + rest).Some?
    requires HostOfLine(StripCr(line)).None? ==> HostIn(rest).Some? && HostEnd(rest) <= |rest|
    requires HostOfLine(StripCr(line)).None? ==> (HostIn(rest[..k]) == HostIn(rest) <==> k >= HostEnd(rest))
    requires HostOfLine(StripCr(line)).None? ==> Begins(HostIn(rest[..k]), HostIn(rest))
    ensures HostEnd(line + "\n" + rest) <= |line + "\n" + rest|
    ensures HostIn(line + "\n" + rest[..k]) == HostIn(line + "\n" + rest) <==>
            |line| + 1 + k >= HostEnd(line + "\n" + rest)
    ensures Begins(HostIn(line + "\n" + rest[..k]), HostIn(line + "\n" + rest))
  {
    HostOfFirstLine(line, rest);
    HostOfFirstLine(line, rest[..k]);
    hide HostIn, HostEnd, HostOfLine, LineEnd, StripCr;
    if HostOfLine(StripCr(line)).Some? {
      HostWithCr(line, |line|);
    }
  }

  lemma CutLastLine(text: string, n: nat)
    requires n <= |text| && HostIn(text).Some? && IndexOf('\n', text) == |text|
    ensures HostEnd(text) <= |text|
    ensures HostIn(text[..n]) == HostIn(text) <==> n >= HostEnd(text)
    ensures Begins(HostIn(text[..n]), HostIn(text))
  {
    IndexOfMeaning('\n', text, |text|);
    IndexOfMeaning('\n', text[..n], n);
    CutLine(text, n);
    CutLine(text, |text|);
    assert text[..|text|] == text;
  }

  ghost predicate EndsWithHost(read: string, host: string) {
    exists before :: read == before + host || read == before + host + ":"
  }

  /** The settled part of a head ends with the host, or with the host and a colon. */
  lemma {:induction false} HostEndMeaning(text: string)
    requires HostIn(text).Some?
    ensures HostEnd(text) <= |text| && EndsWithHost(text[..HostEnd(text)], HostIn(text).value)
    decreases |text|
  {
    CutHead(text, |text|);
    hide EndsWithHost, HostIn, HostEnd, HostOfLine, LineEnd, StripCr;
    if IndexOf('\n', text) == |text| {
      IndexOfMeaning('\n', text, |text|);
      HostOfFirstLine(text, "");
      SettledLine(text);
    } else {
      var line, rest := SplitHead(text);
      HostOfFirstLine(line, rest);
      if HostOfLine(StripCr(line)).Some? {
        SettledInLine(line, rest);
      } else {
        HostEndMeaning(rest);
        EndsLater(line + "\n", rest[..HostEnd(rest)], HostIn(text).value);
        assert text[..HostEnd(text)] == line + "\n" + rest[..HostEnd(rest)];
      }
    }
  }

  lemma SettledInLine(line: string, rest: string)
    requires '\n' !in line && HostOfLine(StripCr(line)).Some?
    ensures var text := line + "\n" + rest;
            && HostIn(text).Some? && HostEnd(text) <= |text|
            && EndsWithHost(text[..HostEnd(text)], HostIn(text).value)
  {
    var text := line + "\n" + rest;
    HostOfFirstLine(line, rest);
    SettledLine(StripCr(line));
    assert text[..HostEnd(text)] == StripCr(line)[..HostEnd(text)];
  }

  lemma EndsLater(prefix: string, read: string, host: string)
    requires EndsWithHost(read, host)
    ensures EndsWithHost(prefix + read, host)
  {
    var before :| read == before + host || read == before + host + ":";
    if read == before + host {
      assert prefix + read == prefix + before + host;
    } else {
      assert prefix + read == prefix + before + host + ":";
    }
  }

  lemma SettledLine(line: string)
    requires HostOfLine(line).Some?
    ensures LineEnd(line) <= |line| && EndsWithHost(line[..LineEnd(line)], HostOfLine(line).value)
  {
    var host := HostOfLine(line).value;
    var name, pad, tail := Parsed(line, host);
    var before := name + ":" + pad;
    assert line == before + host + tail;
    BlankEnds(host);
    if Blank(host[|host| - 1]) {
      assert line[..LineEnd(line)] == before + host + ":";
    } else {
      assert line[..LineEnd(line)] == before + host;
    }
  }

  // ---- From the egress check to the ingress route ----

  /** egress: the destination of an admitted request. */
  method EgressAdmits(raw: string, cache: PolicyCache) returns (destination: Option<string>)
    ensures destination.Some? <==>
            HostIn(raw).Some? && (ListedDestination(cache.rules, HostIn(raw).value) || cache.defaultAllow)
    ensures destination.Some? ==> destination == HostIn(raw)
  {
    destination := ExtractHost(raw);
    if destination.Some? {
      var allowed := cache.IsAllowedDestination(destination.value);
      if !allowed {
        return None;
      }
    }
  }

  /** The backend of a host: names with a dot are used as they are. */
  function Address(host: string, suffix: string, port: string): string {
    if '.' in host then host + ":" + port else host + suffix + ":" + port
  }

  /** ingress: where a request goes, given what the first read returned. */
  method IngressRoute(raw: string, suffix: string, port: string) returns (backend: Option<string>)
    ensures backend.Some? <==> HostIn(raw).Some?
    ensures backend.Some? ==> backend.value == Address(HostIn(raw).value, suffix, port)
    ensures backend.Some? && '.' in HostIn(raw).value ==> backend.value == HostIn(raw).value + ":" + port
    ensures backend.Some? && '.' !in HostIn(raw).value ==> backend.value == HostIn(raw).value + suffix + ":" + port
  {
    var host := ExtractHost(raw);
    hide HostIn;
    if host.None? {
      return None;
    }
    if '.' in host.value {
      return Some(host.value + ":" + port);
    }
    return Some(host.value + suffix + ":" + port);
  }

  lemma {:induction false} SameBackend(a: string, b: string, suffix: string, port: string)
    ensures Address(a, suffix, port) == Address(b, suffix, port) <==>
            a == b || ('.' !in a && '.' in b && b == a + suffix) || ('.' in a && '.' !in b && a == b + suffix)
  {
    var end := ":" + port;
    var x := if '.' in a then a else a + suffix;
    var y := if '.' in b then b else b + suffix;
    assert a + suffix + end == a + suffix + ":" + port && b + suffix + end == b + suffix + ":" + port;
    assert Address(a, suffix, port) == x + end && Address(b, suffix, port) == y + end;
    if x + end == y + end {
      assert |x| == |y|;
      assert x == (x + end)[..|x|] == (y + end)[..|y|] == y;
    }
  }

  /** From the egress check to the ingress route: ingress, having read the first `n`
      characters, goes to the backend of the host that egress checked exactly when it read
      the whole host, or what it read of it is its undotted short form. */
  lemma CheckedHostIsRouted(raw: string, n: nat, suffix: string, port: string)
    requires n <= |raw| && HostIn(raw).Some?
    ensures var host, read := HostIn(raw).value, HostIn(raw[..n]);
            read.Some? && Address(read.value, suffix, port) == Address(host, suffix, port) <==>
            n >= HostEnd(raw) || (read.Some? && '.' !in read.value && '.' in host && host == read.value + suffix)
  {
    CutHead(raw, n);
    hide HostIn, HostEnd, Address;
    var host, read := HostIn(raw).value, HostIn(raw[..n]);
    if read.Some? {
      SameBackend(read.value, host, suffix, port);
      assert read.value == host[..|read.value|];
      assert '.' in read.value ==> '.' in host;
    }
  }
}
