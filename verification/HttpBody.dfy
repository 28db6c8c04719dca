/** Response parsing in conduit/src/cluster_client.rs. Bytes are characters. */
module HttpBodies {
  import opened Collections
  import opened HttpText

  const CRLF: string := "\r\n"
  const CRLF_END: string := "\r\n\r\n"
  const LF_END: string := "\n\n"

  datatype Body = Ok(body: string) | NoTerminator | HttpError(statusLine: string)

  /** The text before the first line feed, trimmed. */
  function StatusLine(raw: string): string {
    Trim(raw[..IndexOf('\n', raw)])
  }

  /** The head ends after the first CRLF CRLF or, without one, after the first LF LF. */
  ghost predicate HeadEnds(raw: string, n: nat) {
    || (n >= 4 && FirstOccurrence(raw, CRLF_END, Some(n - 4)))
    || (n >= 2 && FirstOccurrence(raw, CRLF_END, None) && FirstOccurrence(raw, LF_END, Some(n - 2)))
  }

  /** What extract_body must return: everything after the head, provided there is one and
      the status line mentions 200. */
  ghost predicate IsBody(raw: string, b: Body) {
    match b
    case Ok(body) =>
      Occurs(StatusLine(raw), "200") && exists n: nat :: HeadEnds(raw, n) && n <= |raw| && body == raw[n..]
    case NoTerminator => forall n: nat :: !HeadEnds(raw, n)
    case HttpError(line) => (exists n: nat :: HeadEnds(raw, n)) && line == StatusLine(raw) && !Occurs(line, "200")
  }

  lemma HeadEndsOnce(raw: string, m: nat, n: nat)
    requires HeadEnds(raw, m) && HeadEnds(raw, n)
    ensures m == n
  {
    hide Occurs, OccursAt;
    if m >= 4 && FirstOccurrence(raw, CRLF_END, Some(m - 4)) {
      if n >= 4 && FirstOccurrence(raw, CRLF_END, Some(n - 4)) {
        FirstOccurrenceUnique(raw, CRLF_END, Some(m - 4), Some(n - 4));
      } else {
        FirstOccurrenceUnique(raw, CRLF_END, Some(m - 4), None);
      }
    } else if n >= 4 && FirstOccurrence(raw, CRLF_END, Some(n - 4)) {
      FirstOccurrenceUnique(raw, CRLF_END, Some(n - 4), None);
    } else {
      FirstOccurrenceUnique(raw, LF_END, Some(m - 2), Some(n - 2));
    }
  }

  lemma BodyIsUnique(raw: string, a: Body, b: Body)
    requires IsBody(raw, a) && IsBody(raw, b)
    ensures a == b
  {
    hide HeadEnds, Occurs, StatusLine;
    if a.Ok? && b.Ok? {
      var m: nat :| HeadEnds(raw, m) && m <= |raw| && a.body == raw[m..];
      var n: nat :| HeadEnds(raw, n) && n <= |raw| && b.body == raw[n..];
      HeadEndsOnce(raw, m, n);
    }
  }

  method ExtractBody(raw: string) returns (b: Body)
    ensures IsBody(raw, b)
  {
    var crlf := Position(raw, CRLF_END);
    var sep := 0;
    if crlf.Some? {
      sep := crlf.value + 4;
    } else {
      var lf := Position(raw, LF_END);
      if lf.None? {
        return NoTerminator;
      }
      sep := lf.value + 2;
    }
    assert HeadEnds(raw, sep);
    var statusLine := Trim(raw[..IndexOf('\n', raw)]);
    var ok := Position(statusLine, "200");
    if ok.None? {
      return HttpError(statusLine);
    }
    return Ok(raw[sep..]);
  }

  // ---- Responses ----

  /** A header line: not empty, no carriage return, no line feed. */
  ghost predicate HeaderLine(line: string) {
    line != "" && '\r' !in line && '\n' !in line
  }

  ghost predicate HeaderLines(lines: seq<string>) {
    lines != [] && forall l :: l in lines ==> HeaderLine(l)
  }

  /** The lines, each followed by `eol`, an empty line and the body. */
  function Response(eol: string, lines: seq<string>, body: string): string {
    if lines == [] then eol + body else lines[0] + eol + Response(eol, lines[1..], body)
  }

  /** Length of the lines with their line ends. */
  function HeadLength(eol: string, lines: seq<string>): nat {
    if lines == [] then 0 else |lines[0]| + |eol| + HeadLength(eol, lines[1..])
  }

  lemma {:induction false} ResponseBody(eol: string, lines: seq<string>, body: string)
    ensures var n := HeadLength(eol, lines) + |eol|;
            n <= |Response(eol, lines, body)| && Response(eol, lines, body)[n..] == body
  {
    if lines != [] {
      ResponseBody(eol, lines[1..], body);
    }
  }

  /** The lines end at the first CRLF CRLF, whatever the body holds. */
  lemma {:induction false} HeadEndsAtCrlf(lines: seq<string>, body: string)
    requires HeaderLines(lines)
    ensures HeadLength(CRLF, lines) >= 2
    ensures FirstOccurrence(Response(CRLF, lines, body), CRLF_END, Some(HeadLength(CRLF, lines) - 2))
  {
    var line, rest := lines[0], lines[1..];
    assert HeaderLine(line);
    assert rest != [] ==> HeaderLines(rest) && HeaderLine(rest[0]);
    assert Response(CRLF, lines, body) == line + CRLF + Response(CRLF, rest, body);
    if rest == [] {
      LineEndsHead(line, body);
    } else {
      HeadEndsAtCrlf(rest, body);
      hide Response, HeaderLine, HeaderLines, FirstOccurrence;
      forall j: nat | j < |line + CRLF| ensures !OccursAt(line + CRLF + Response(CRLF, rest, body), CRLF_END, j) {
        NotInLine(line, rest, body, j);
      }
      FirstAfter(line + CRLF, Response(CRLF, rest, body), CRLF_END, HeadLength(CRLF, rest) - 2);
    }
  }

  lemma LineEndsHead(line: string, body: string)
    requires HeaderLine(line)
    ensures FirstOccurrence(line + CRLF + Response(CRLF, [], body), CRLF_END, Some(|line|))
  {
    var raw := line + CRLF + Response(CRLF, [], body);
    assert raw == line + CRLF_END + body;
    assert raw[|line|..|line| + 4] == CRLF_END;
    assert OccursAt(raw, CRLF_END, |line|);
    forall j: nat | j < |line| ensures !OccursAt(raw, CRLF_END, j) {
      NotInLine(line, [], body, j);
    }
  }

  /** No CRLF CRLF begins in a line, nor in its line end if another line follows. */
  lemma NotInLine(line: string, rest: seq<string>, body: string, j: nat)
    requires HeaderLine(line) && j < |line| + 2
    requires if rest == [] then j < |line| else HeaderLine(rest[0])
    ensures !OccursAt(line + CRLF + Response(CRLF, rest, body), CRLF_END, j)
  {
    var raw := line + CRLF + Response(CRLF, rest, body);
    if OccursAt(raw, CRLF_END, j) {
      OccursChar(raw, CRLF_END, j, 0);
      OccursChar(raw, CRLF_END, j, 2);
      assert false;
    }
  }

  lemma StatusOfResponse(eol: string, lines: seq<string>, body: string)
    requires HeaderLines(lines) && (eol == CRLF || eol == "\n")
    ensures StatusLine(Response(eol, lines, body)) == Trim(lines[0])
  {
    var raw := Response(eol, lines, body);
    var line := lines[0];
    assert HeaderLine(line);
    if eol == "\n" {
      FirstLineEnd(line, Response(eol, lines[1..], body));
    } else {
      assert raw == line + "\r" + "\n" + Response(eol, lines[1..], body);
      FirstLineEnd(line + "\r", Response(eol, lines[1..], body));
      TrimCr(line);
    }
  }

  lemma FirstLineEnd(line: string, rest: string)
    requires '\n' !in line
    ensures StatusLine(line + "\n" + rest) == Trim(line)
  {
    hide Trim;
    var raw := line + "\n" + rest;
    IndexOfMeaning('\n', raw, |line|);
    assert raw[..|line|] == line;
  }

  lemma TrimCr(line: string)
    ensures Trim(line + "\r") == Trim(line)
  {
    var pad := Strip(line);
    var v := TrimStart(line);
    hide TrimStart, Leading;
    if v == "" {
      StripMeaning(line + "\r", "");
      assert line + "\r" + "" == line + "\r";
    } else {
      assert line + "\r" == pad + (v + "\r");
      StripMeaning(pad, v + "\r");
      EndingMeaning(v, Ending(v));
      EndingMeaning(v + "\r", Ending(v));
      assert (v + "\r")[..Ending(v)] == v[..Ending(v)];
    }
  }

  /** A response with CRLF line ends gives back its body, whatever the body holds. */
  lemma BodyRoundTrip(lines: seq<string>, body: string, b: Body)
    requires HeaderLines(lines)
    ensures IsBody(Response(CRLF, lines, body), b) <==>
            b == if Occurs(Trim(lines[0]), "200") then Ok(body) else HttpError(Trim(lines[0]))
  {
    var raw := Response(CRLF, lines, body);
    var expected := if Occurs(Trim(lines[0]), "200") then Ok(body) else HttpError(Trim(lines[0]));
    HeadEndsAtCrlf(lines, body);
    ResponseBody(CRLF, lines, body);
    StatusOfResponse(CRLF, lines, body);
    assert HeadEnds(raw, HeadLength(CRLF, lines) + 2);
    hide HeadEnds, Response, HeadLength, HeaderLines, StatusLine, Trim;
    assert IsBody(raw, expected);
    if IsBody(raw, b) {
      BodyIsUnique(raw, b, expected);
    }
  }

  // ---- Bare line feeds ----

  lemma {:induction false} HeadEndsAtLf(lines: seq<string>, body: string)
    requires HeaderLines(lines)
    ensures HeadLength("\n", lines) >= 1
    ensures FirstOccurrence(Response("\n", lines, body), LF_END, Some(HeadLength("\n", lines) - 1))
  {
    var line, rest := lines[0], lines[1..];
    assert HeaderLine(line);
    assert rest != [] ==> HeaderLines(rest) && HeaderLine(rest[0]);
    assert Response("\n", lines, body) == line + "\n" + Response("\n", rest, body);
    if rest == [] {
      LineEndsLooseHead(line, body);
    } else {
      HeadEndsAtLf(rest, body);
      hide Response, HeaderLine, HeaderLines, FirstOccurrence;
      forall j: nat | j < |line + "\n"| ensures !OccursAt(line + "\n" + Response("\n", rest, body), LF_END, j) {
        NotInLooseLine(line, rest, body, j);
      }
      FirstAfter(line + "\n", Response("\n", rest, body), LF_END, HeadLength("\n", rest) - 1);
    }
  }

  lemma LineEndsLooseHead(line: string, body: string)
    requires HeaderLine(line)
    ensures FirstOccurrence(line + "\n" + Response("\n", [], body), LF_END, Some(|line|))
  {
    var raw := line + "\n" + Response("\n", [], body);
    assert raw == line + LF_END + body;
    assert raw[|line|..|line| + 2] == LF_END;
    assert OccursAt(raw, LF_END, |line|);
    forall j: nat | j < |line| ensures !OccursAt(raw, LF_END, j) {
      NotInLooseLine(line, [], body, j);
    }
  }

  lemma NotInLooseLine(line: string, rest: seq<string>, body: string, j: nat)
    requires HeaderLine(line) && j <= |line|
    requires if rest == [] then j < |line| else HeaderLine(rest[0])
    ensures !OccursAt(line + "\n" + Response("\n", rest, body), LF_END, j)
  {
    var raw := line + "\n" + Response("\n", rest, body);
    if OccursAt(raw, LF_END, j) {
      OccursChar(raw, LF_END, j, 0);
      OccursChar(raw, LF_END, j, 1);
      assert false;
    }
  }

  /** Lines with bare line feeds hold no carriage return, so a CRLF CRLF lies in the body. */
  lemma {:induction false} CrlfOnlyInBody(lines: seq<string>, body: string, j: nat)
    requires forall l :: l in lines ==> HeaderLine(l)
    ensures var n := HeadLength("\n", lines) + 1;
            OccursAt(Response("\n", lines, body), CRLF_END, j) <==> j >= n && OccursAt(body, CRLF_END, j - n)
    decreases |lines|
  {
    var raw := Response("\n", lines, body);
    var line := (if lines == [] then "" else lines[0]) + "\n";
    var tail := if lines == [] then body else Response("\n", lines[1..], body);
    assert raw == line + tail;
    if j >= |line| {
      OccursAfter(line, tail, CRLF_END, j - |line|);
      if lines != [] {
        CrlfOnlyInBody(lines[1..], body, j - |line|);
      }
    } else {
      assert lines != [] ==> HeaderLine(lines[0]);
      assert '\r' !in line && raw[j] == line[j];
      if OccursAt(raw, CRLF_END, j) {
        OccursChar(raw, CRLF_END, j, 0);
      }
    }
  }

  /** The separator extract_body takes in a response with bare line feeds. */
  lemma LooseSeparator(lines: seq<string>, body: string, at: Option<nat>)
    requires HeaderLines(lines) && FirstOccurrence(body, CRLF_END, at)
    ensures var n := HeadLength("\n", lines) + 1;
            FirstOccurrence(Response("\n", lines, body), CRLF_END, if at.Some? then Some(n + at.value) else None)
  {
    var raw := Response("\n", lines, body);
    var n := HeadLength("\n", lines) + 1;
    forall j: nat ensures OccursAt(raw, CRLF_END, j) <==> j >= n && OccursAt(body, CRLF_END, j - n) {
      CrlfOnlyInBody(lines, body, j);
    }
    if at.Some? {
      assert OccursAt(raw, CRLF_END, n + at.value);
    }
  }

  /** A successful response with bare line feeds gives back its body exactly when the body
      holds no CRLF CRLF; otherwise what follows the first one. */
  lemma LooseBody(lines: seq<string>, body: string, b: Body)
    requires HeaderLines(lines) && Occurs(Trim(lines[0]), "200") && IsBody(Response("\n", lines, body), b)
    ensures b == Ok(body) <==> !Occurs(body, CRLF_END)
    ensures forall at: nat :: FirstOccurrence(body, CRLF_END, Some(at)) ==> b == Ok(body[at + 4..])
  {
    hide IsBody, Response, HeaderLines, Trim;
    var raw := Response("\n", lines, body);
    if i: nat :| OccursAt(body, CRLF_END, i) {
      var first := FirstExists(body, CRLF_END, i);
      CutAtSeparator(lines, body, first);
      BodyIsUnique(raw, b, Ok(body[first + 4..]));
      forall at: nat | FirstOccurrence(body, CRLF_END, Some(at)) ensures at == first {
        FirstOccurrenceUnique(body, CRLF_END, Some(at), Some(first));
      }
    } else {
      WholeLooseBody(lines, body);
      BodyIsUnique(raw, b, Ok(body));
    }
  }

  lemma WholeLooseBody(lines: seq<string>, body: string)
    requires HeaderLines(lines) && Occurs(Trim(lines[0]), "200") && !Occurs(body, CRLF_END)
    ensures IsBody(Response("\n", lines, body), Ok(body))
  {
    StatusOfResponse("\n", lines, body);
    ResponseBody("\n", lines, body);
    LooseSeparator(lines, body, None);
    HeadEndsAtLf(lines, body);
  }

  lemma CutAtSeparator(lines: seq<string>, body: string, first: nat)
    requires HeaderLines(lines) && Occurs(Trim(lines[0]), "200") && FirstOccurrence(body, CRLF_END, Some(first))
    ensures IsBody(Response("\n", lines, body), Ok(body[first + 4..]))
  {
    var raw := Response("\n", lines, body);
    var n := HeadLength("\n", lines) + 1;
    StatusOfResponse("\n", lines, body);
    ResponseBody("\n", lines, body);
    LooseSeparator(lines, body, Some(first));
    hide Response, HeadLength, StatusLine, Trim, HeaderLines, Occurs;
    assert HeadEnds(raw, n + first + 4);
    assert raw[n + first + 4..] == raw[n..][first + 4..];
  }
}
