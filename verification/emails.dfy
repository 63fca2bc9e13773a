/** A received message and the read-only queries over it: recipient and
    sender checks, size, subject and body extraction, text search. The
    reception timestamp is not modelled. */
module Emails {
  import opened Wrappers
  import opened Text

  datatype Email = Email(from: string, to: seq<string>, data: string)

  /** Whether `recipient` is one of the envelope recipients. */
  method HasRecipient(e: Email, recipient: string) returns (b: bool)
    ensures b <==> recipient in e.to
  {
    var i := 0;
    while i < |e.to|
      invariant 0 <= i <= |e.to|
      invariant recipient !in e.to[..i]
    {
      if e.to[i] == recipient {
        return true;
      }
      assert e.to[..i + 1] == e.to[..i] + [e.to[i]];
      i := i + 1;
    }
    assert e.to[..i] == e.to;
    return false;
  }

  predicate IsFromSender(e: Email, sender: string) {
    e.from == sender
  }

  /** Size of the message text in bytes (characters, for ASCII text). It
      bounds every part of the message: no text found in it is longer, and
      the body, which follows at least one header or blank line, is strictly
      shorter. */
  function DataSize(e: Email): (n: nat)
    ensures forall t :: IsSubstring(t, e.data) ==> |t| <= n
    ensures GetBody(e).Some? ==> |GetBody(e).value| < n
  {
    BodyShorterThanMessage(e);
    |e.data|
  }

  lemma BodyShorterThanMessage(e: Email)
    ensures GetBody(e).Some? ==> |GetBody(e).value| < |e.data|
  {
    var g := GetBody(e);
    if g.Some? {
      var raw := RawLines(e.data);
      var i := FirstEmpty(Lines(e.data)).value;
      assert i + 1 < |raw| && e.data == Concat(raw[..i + 1]) + g.value;
      SuffixShorter(e.data, raw, i + 1, g.value);
    }
  }

  /** Text that follows at least one non-empty line is shorter than the
      whole. */
  lemma SuffixShorter(d: string, raw: seq<string>, n: nat, b: string)
    requires 0 < n <= |raw| && forall k :: 0 <= k < |raw| ==> raw[k] != []
    requires d == Concat(raw[..n]) + b
    ensures |b| < |d|
  {
    assert raw[..n][0] == raw[0];
    ConcatNonEmpty(raw[..n]);
  }

  /** Whether `text` occurs anywhere in the message text. */
  method ContainsText(e: Email, text: string) returns (b: bool)
    ensures b <==> IsSubstring(text, e.data)
  {
    var d := e.data;
    if |text| > |d| {
      return false;
    }
    var k := 0;
    while k + |text| <= |d|
      invariant k <= |d| - |text| + 1
      invariant forall j: nat :: j < k ==> !OccursAt(text, d, j)
    {
      if d[k..k + |text|] == text {
        assert OccursAt(text, d, k);
        return true;
      }
      k := k + 1;
    }
    return false;
  }

  // ---------------------------------------------------------------------
  // Lines, as Rust's `str::lines` yields them

  /** Length of the first line of `s`, its `\n` included when it has one. */
  function FirstLineLength(s: string): (n: nat)
    requires s != []
    ensures 0 < n <= |s|
    ensures '\n' !in s[..n - 1]
    ensures n < |s| ==> s[n - 1] == '\n'
  {
    match Find(s, '\n')
    case None => |s|
    case Some(i) => i + 1
  }

  /** The lines of `s` with their terminators kept, as `split_inclusive('\n')`
      produces them: non-empty pieces that concatenate back to `s`, each but
      the last ending in its only `\n`. */
  function RawLines(s: string): (r: seq<string>)
    ensures Concat(r) == s
    ensures forall k :: 0 <= k < |r| ==> r[k] != []
    ensures forall k, j :: 0 <= k < |r| && 0 <= j < |r[k]| - 1 ==> r[k][j] != '\n'
    decreases |s|
  {
    if s == [] then []
    else
      var n := FirstLineLength(s);
      var rest := RawLines(s[n..]);
      FirstLinePiece(s, n);
      RawLinesStep(s[..n], s[n..], rest);
      [s[..n]] + rest
  }

  lemma FirstLinePiece(s: string, n: nat)
    requires s != [] && n == FirstLineLength(s)
    ensures s[..n] != [] && s[..n] + s[n..] == s
    ensures forall j :: 0 <= j < n - 1 ==> s[..n][j] != '\n'
  {
    forall j | 0 <= j < n - 1 ensures s[..n][j] != '\n' {
      assert s[..n][j] == s[..n - 1][j];
    }
  }

  /** One more piece in front of the raw lines of the rest. */
  lemma RawLinesStep(head: string, tail: string, rest: seq<string>)
    requires head != [] && forall j :: 0 <= j < |head| - 1 ==> head[j] != '\n'
    requires Concat(rest) == tail && forall k :: 0 <= k < |rest| ==> rest[k] != []
    requires forall k, j :: 0 <= k < |rest| && 0 <= j < |rest[k]| - 1 ==> rest[k][j] != '\n'
    ensures Concat([head] + rest) == head + tail
    ensures forall k :: 0 <= k < |[head] + rest| ==> ([head] + rest)[k] != []
    ensures forall k, j :: 0 <= k < |[head] + rest| && 0 <= j < |([head] + rest)[k]| - 1 ==> ([head] + rest)[k][j] != '\n'
  {
    ConcatCons(head, rest);
    NewlineAtEndCons(head, rest);
  }

  lemma NewlineAtEndCons(line: string, rest: seq<string>)
    requires forall j :: 0 <= j < |line| - 1 ==> line[j] != '\n'
    requires forall k, j :: 0 <= k < |rest| && 0 <= j < |rest[k]| - 1 ==> rest[k][j] != '\n'
    ensures forall k, j :: 0 <= k < |[line] + rest| && 0 <= j < |([line] + rest)[k]| - 1 ==> ([line] + rest)[k][j] != '\n'
  {
    var r := [line] + rest;
    forall k, j | 0 <= k < |r| && 0 <= j < |r[k]| - 1 ensures r[k][j] != '\n' {
      if k > 0 {
        assert r[k] == rest[k - 1];
      }
    }
  }

  lemma ConcatCons(line: string, rest: seq<string>)
    requires line != [] && forall k :: 0 <= k < |rest| ==> rest[k] != []
    ensures Concat([line] + rest) == line + Concat(rest)
    ensures forall k :: 0 <= k < |[line] + rest| ==> ([line] + rest)[k] != []
  {
    var r := [line] + rest;
    assert r[1..] == rest;
    forall k | 0 <= k < |r| ensures r[k] != [] {
      if k > 0 {
        assert r[k] == rest[k - 1];
      }
    }
  }

  /** Every raw line but the last ends in `\n`. */
  lemma {:induction false} RawLinesTerminated(s: string)
    ensures TerminatedBeforeLast(RawLines(s))
    decreases |s|
  {
    if s != [] {
      var n := FirstLineLength(s);
      var rest := RawLines(s[n..]);
      assert RawLines(s) == [s[..n]] + rest;
      RawLinesTerminated(s[n..]);
      assert rest != [] ==> s[n..] != [] && n < |s|;
      TerminatedCons(s[..n], rest);
    }
  }

  lemma TerminatedCons(line: string, rest: seq<string>)
    requires line != [] && TerminatedBeforeLast(rest)
    requires rest != [] ==> line[|line| - 1] == '\n'
    ensures TerminatedBeforeLast([line] + rest)
  {
    var r := [line] + rest;
    forall k | 0 <= k < |r| - 1 ensures r[k] != [] && r[k][|r[k]| - 1] == '\n' {
      if k > 0 {
        assert r[k] == rest[k - 1];
      }
    }
  }

  /** Every line but the last is non-empty and ends in `\n`. */
  predicate TerminatedBeforeLast(r: seq<string>) {
    forall k :: 0 <= k < |r| - 1 ==> r[k] != [] && r[k][|r[k]| - 1] == '\n'
  }

  /** A line without its terminator: a final `\n`, and then a `\r` that
      preceded it. */
  function StripLineEnding(raw: string): string {
    if EndsWith(raw, "\n") then
      var l := raw[..|raw| - 1];
      if EndsWith(l, "\r") then l[..|l| - 1] else l
    else raw
  }

  function StripLineEndings(raws: seq<string>): (r: seq<string>)
    ensures |r| == |raws|
    ensures forall k :: 0 <= k < |raws| ==> r[k] == StripLineEnding(raws[k])
  {
    if raws == [] then [] else [StripLineEnding(raws[0])] + StripLineEndings(raws[1..])
  }

  /** Rust's `str::lines`. */
  function Lines(s: string): seq<string> {
    StripLineEndings(RawLines(s))
  }

  /** The first line of `line + rest`, when `line` ends in its only `\n`, is
      `line`. */
  lemma RawLinesCons(line: string, rest: string)
    requires line != [] && line[|line| - 1] == '\n' && '\n' !in line[..|line| - 1]
    ensures RawLines(line + rest) == [line] + RawLines(rest)
  {
    var s := line + rest;
    FindAfter(line[..|line| - 1], '\n', [line[|line| - 1]] + rest);
    assert s == line[..|line| - 1] + ([line[|line| - 1]] + rest);
    assert s[..|line|] == line;
    assert s[|line|..] == rest;
  }

  lemma RawLinesOfUnterminated(s: string)
    requires s != [] && '\n' !in s
    ensures RawLines(s) == [s]
  {
    assert s[..|s|] == s;
    assert s[|s|..] == [];
  }

  // ---------------------------------------------------------------------
  // Subject

  predicate HasSubjectPrefix(line: string) {
    StartsWith(line, "Subject: ") || StartsWith(line, "subject: ")
  }

  /** The scan of the header lines: stops at the first empty line and
      returns the rest of the first line that starts with `Subject: ` or
      `subject: `. */
  function SubjectIn(lines: seq<string>): Option<string>
    decreases |lines|
  {
    if lines == [] || lines[0] == [] then None
    else if StartsWith(lines[0], "Subject: ") then Some(lines[0][9..])
    else if StartsWith(lines[0], "subject: ") then Some(lines[0][9..])
    else SubjectIn(lines[1..])
  }

  /** The subject of the message: present exactly when a header line before
      the first empty line carries the prefix, and then the text after the
      prefix of the first such line. */
  function GetSubject(e: Email): (r: Option<string>)
    ensures r.Some? <==> exists i: nat :: IsSubjectLine(Lines(e.data), i)
    ensures forall i: nat :: IsSubjectLine(Lines(e.data), i) ==> r == Some(Lines(e.data)[i][9..])
  {
    SubjectInFindsFirstSubjectLine(Lines(e.data));
    SubjectIn(Lines(e.data))
  }

  /** Line `i` is the subject header: it carries the prefix, and every line
      before it is a non-empty header line without the prefix. */
  predicate IsSubjectLine(lines: seq<string>, i: nat) {
    i < |lines| && HasSubjectPrefix(lines[i])
    && forall j :: 0 <= j < i ==> lines[j] != [] && !HasSubjectPrefix(lines[j])
  }

  /** The scan finds a subject exactly when some header line before the first
      empty line carries the prefix, and then returns the text after the
      prefix of the first such line. */
  lemma {:induction false} SubjectInFindsFirstSubjectLine(lines: seq<string>)
    ensures SubjectIn(lines).Some? <==> exists i: nat :: IsSubjectLine(lines, i)
    ensures forall i: nat :: IsSubjectLine(lines, i) ==> SubjectIn(lines) == Some(lines[i][9..])
    decreases |lines|
  {
    if lines == [] {
    } else if lines[0] == [] {
      forall i: nat ensures !IsSubjectLine(lines, i) {
        assert lines[0] == [];
      }
    } else if HasSubjectPrefix(lines[0]) {
      assert IsSubjectLine(lines, 0);
      forall i: nat | 0 < i ensures !IsSubjectLine(lines, i) {
        assert HasSubjectPrefix(lines[0]);
      }
    } else {
      var rest := lines[1..];
      SubjectInFindsFirstSubjectLine(rest);
      forall i: nat | IsSubjectLine(lines, i) ensures i > 0 && IsSubjectLine(rest, i - 1) {
        assert i != 0;
        forall j | 0 <= j < i - 1 ensures rest[j] != [] && !HasSubjectPrefix(rest[j]) {
          assert rest[j] == lines[j + 1];
        }
      }
      forall i: nat | IsSubjectLine(rest, i) ensures IsSubjectLine(lines, i + 1) {
        forall j | 0 <= j < i + 1 ensures lines[j] != [] && !HasSubjectPrefix(lines[j]) {
          if j > 0 { assert lines[j] == rest[j - 1]; }
        }
      }
      if SubjectIn(lines).Some? {
        var i: nat :| IsSubjectLine(rest, i);
        assert IsSubjectLine(lines, i + 1);
      }
    }
  }

  // ---------------------------------------------------------------------
  // Body

  /** Index of the first empty line. */
  function FirstEmpty(lines: seq<string>): (r: Option<nat>)
    ensures r.None? ==> forall j :: 0 <= j < |lines| ==> lines[j] != []
    ensures r.Some? ==>
      r.value < |lines| && lines[r.value] == [] && forall j :: 0 <= j < r.value ==> lines[j] != []
    decreases |lines|
  {
    if lines == [] then None
    else if lines[0] == [] then Some(0)
    else
      match FirstEmpty(lines[1..])
      case None => None
      case Some(i) => Some(i + 1)
  }

  /** Sum of the line lengths plus one byte per line. */
  function LengthsPlusOne(lines: seq<string>): nat {
    if lines == [] then 0 else |lines[0]| + 1 + LengthsPlusOne(lines[1..])
  }

  /** The body as the source computes it: the offset of the body is taken to
      be the sum, over the lines up to the first empty one, of each line's
      length plus one, which undercounts by one byte every line that ended
      in CRLF. */
  function GetBodyAsWritten(e: Email): Option<string> {
    BodyAsWrittenFrom(e.data, Lines(e.data))
  }

  /** The source's body extraction on text `d` split into `lines`. */
  function BodyAsWrittenFrom(d: string, lines: seq<string>): Option<string> {
    match FirstEmpty(lines)
    case None => None
    case Some(i) =>
      var start := LengthsPlusOne(lines[..i + 1]);
      if start < |d| then Some(d[start..]) else None
  }

  /** The message body: the text after the first empty line and its line
      terminator, or nothing when there is no empty line or nothing follows
      it. The offset is measured on the lines with their terminators. */
  function GetBody(e: Email): (r: Option<string>)
    ensures r.Some? <==> FirstEmpty(Lines(e.data)).Some? && FirstEmpty(Lines(e.data)).value + 1 < |RawLines(e.data)|
    ensures r.Some? ==>
      var raw := RawLines(e.data);
      var i := FirstEmpty(Lines(e.data)).value;
      r.value != [] && e.data == Concat(raw[..i + 1]) + r.value && r.value == Concat(raw[i + 1..])
  {
    BodyFrom(e.data, RawLines(e.data), Lines(e.data))
  }

  /** The body of text `d` cut into the raw lines `raw`, whose stripped
      forms are `lines`. */
  function BodyFrom(d: string, raw: seq<string>, lines: seq<string>): (r: Option<string>)
    requires Concat(raw) == d && forall k :: 0 <= k < |raw| ==> raw[k] != []
    requires |lines| == |raw|
    ensures r.Some? <==> FirstEmpty(lines).Some? && FirstEmpty(lines).value + 1 < |raw|
    ensures r.Some? ==>
      var i := FirstEmpty(lines).value;
      r.value != [] && d == Concat(raw[..i + 1]) + r.value && r.value == Concat(raw[i + 1..])
  {
    match FirstEmpty(lines)
    case None => None
    case Some(i) =>
      var start := |Concat(raw[..i + 1])|;
      ConcatSplit(raw, i + 1);
      ConcatNonEmpty(raw[i + 1..]);
      if start < |d| then Some(d[start..]) else None
  }

  lemma {:induction false} ConcatSplit(ss: seq<string>, k: nat)
    requires k <= |ss|
    ensures Concat(ss) == Concat(ss[..k]) + Concat(ss[k..])
    decreases k
  {
    if k == 0 {
      assert ss[..0] == [] && ss[0..] == ss;
    } else {
      ConcatSplit(ss[1..], k - 1);
      assert ss[1..][..k - 1] == ss[..k][1..];
      assert ss[1..][k - 1..] == ss[k..];
    }
  }

  lemma {:induction false} ConcatNonEmpty(ss: seq<string>)
    requires forall k :: 0 <= k < |ss| ==> ss[k] != []
    ensures Concat(ss) == [] <==> ss == []
  {
    if ss != [] {
      assert |Concat(ss)| >= |ss[0]|;
    }
  }

  // ---------------------------------------------------------------------
  // Header block, empty line, body

  /** Header lines each followed by the terminator `t`. */
  function Terminated(hs: seq<string>, t: string): string
    decreases |hs|
  {
    if hs == [] then [] else hs[0] + t + Terminated(hs[1..], t)
  }

  /** The header lines with their terminators, as raw lines. */
  function WithTerminator(hs: seq<string>, t: string): (r: seq<string>)
    ensures |r| == |hs|
  {
    if hs == [] then [] else [hs[0] + t] + WithTerminator(hs[1..], t)
  }

  lemma {:induction false} WithTerminatorAt(hs: seq<string>, t: string, k: nat)
    requires k < |hs|
    ensures WithTerminator(hs, t)[k] == hs[k] + t
    decreases k
  {
    if k > 0 {
      WithTerminatorAt(hs[1..], t, k - 1);
    }
  }

  predicate IsTerminator(t: string) {
    t == "\n" || t == "\r\n"
  }

  /** Header lines that stay non-empty once their terminator is stripped. */
  predicate HeaderLines(hs: seq<string>) {
    forall k :: 0 <= k < |hs| ==> hs[k] != [] && hs[k] != "\r" && '\n' !in hs[k]
  }

  lemma TerminatedLine(h: string, t: string)
    requires IsTerminator(t) && '\n' !in h
    ensures var line := h + t;
      line != [] && line[|line| - 1] == '\n' && '\n' !in line[..|line| - 1]
  {
    var line := h + t;
    if t == "\r\n" {
      assert line[..|line| - 1] == h + "\r";
    } else {
      assert line[..|line| - 1] == h;
    }
  }

  lemma {:induction false} RawLinesOfHeaders(hs: seq<string>, t: string, rest: string)
    requires IsTerminator(t) && HeaderLines(hs)
    ensures RawLines(Terminated(hs, t) + rest) == WithTerminator(hs, t) + RawLines(rest)
    decreases |hs|
  {
    if hs == [] {
      assert Terminated(hs, t) + rest == rest;
    } else {
      var head := hs[0] + t;
      var tail := Terminated(hs[1..], t) + rest;
      assert Terminated(hs, t) + rest == head + tail;
      TerminatedLine(hs[0], t);
      RawLinesCons(head, tail);
      assert HeaderLines(hs[1..]) by {
        forall k | 0 <= k < |hs[1..]| ensures hs[1..][k] != [] && hs[1..][k] != "\r" && '\n' !in hs[1..][k] {
          assert hs[1..][k] == hs[k + 1];
        }
      }
      RawLinesOfHeaders(hs[1..], t, rest);
      RawLinesConsAll(head, tail, WithTerminator(hs[1..], t), RawLines(rest));
    }
  }

  lemma RawLinesConsAll(line: string, rest: string, ws: seq<string>, tail: seq<string>)
    requires line != [] && line[|line| - 1] == '\n' && '\n' !in line[..|line| - 1]
    requires RawLines(rest) == ws + tail
    ensures RawLines(line + rest) == ([line] + ws) + tail
  {
    RawLinesCons(line, rest);
  }

  lemma StripTerminated(h: string, t: string)
    requires IsTerminator(t) && h != [] && h != "\r" && '\n' !in h
    ensures StripLineEnding(h + t) != []
    ensures StripLineEnding(t) == []
  {
    var line := h + t;
    assert EndsWith(line, "\n");
    if t == "\r\n" {
      assert line[..|line| - 1] == h + "\r";
      assert StripLineEnding(line) == h;
    } else {
      assert line[..|line| - 1] == h;
      if EndsWith(h, "\r") {
        assert |h| > 1;
      }
    }
  }

  /** A message made of header lines, an empty line and a body, all lines
      ending in `\n` or all in CRLF, has exactly that body (or none when the
      body is empty). */
  lemma GetBodyAfterHeaders(from: string, to: seq<string>, hs: seq<string>, t: string, body: string)
    requires IsTerminator(t) && HeaderLines(hs)
    ensures var d := Terminated(hs, t) + t + body;
      GetBody(Email(from, to, d)) == if body == [] then None else Some(body)
  {
    var d := Terminated(hs, t) + t + body;
    MessageRawLines(hs, t, body);
    MessageFirstEmpty(hs, t, body);
    GetBodyOfSplit(Email(from, to, d), WithTerminator(hs, t), t, body);
  }

  lemma GetBodyOfSplit(e: Email, heads: seq<string>, t: string, body: string)
    requires RawLines(e.data) == heads + ([t] + RawLines(body))
    requires FirstEmpty(Lines(e.data)) == Some(|heads|)
    ensures GetBody(e) == if body == [] then None else Some(body)
  {
    RawLinesEmpty(body);
    GetBodyAt(e, |heads|);
    PickBody(GetBody(e), RawLines(e.data), heads, t, RawLines(body), body);
  }

  /** The body found after the first empty line `t` of `heads + [t] + tail`
      is the text of `tail`. */
  lemma PickBody(g: Option<string>, raw: seq<string>, heads: seq<string>, t: string, tail: seq<string>, body: string)
    requires raw == heads + ([t] + tail)
    requires g == if |heads| + 1 < |raw| then Some(Concat(raw[|heads| + 1..])) else None
    requires (tail == [] <==> body == []) && Concat(tail) == body
    ensures g == if body == [] then None else Some(body)
  {
    SplitAfter(raw, heads, t, tail);
  }

  lemma SplitAfter(raw: seq<string>, heads: seq<string>, t: string, tail: seq<string>)
    requires raw == heads + ([t] + tail)
    ensures raw[|heads| + 1..] == tail
    ensures |heads| + 1 < |raw| <==> tail != []
  {
    assert raw[|heads| + 1..] == tail;
  }

  /** A text has no raw lines exactly when it is empty, and its raw lines
      put back together are the text. */
  lemma RawLinesEmpty(s: string)
    ensures RawLines(s) == [] <==> s == []
    ensures Concat(RawLines(s)) == s
  {
    ConcatNonEmpty(RawLines(s));
  }

  /** GetBody once the first empty line is known. */
  lemma GetBodyAt(e: Email, i: nat)
    requires FirstEmpty(Lines(e.data)) == Some(i)
    ensures var raw := RawLines(e.data);
      GetBody(e) == if i + 1 < |raw| then Some(Concat(raw[i + 1..])) else None
  {
    BodyFromAt(e.data, RawLines(e.data), Lines(e.data), i);
  }

  lemma BodyFromAt(d: string, raw: seq<string>, lines: seq<string>, i: nat)
    requires Concat(raw) == d && forall k :: 0 <= k < |raw| ==> raw[k] != []
    requires |lines| == |raw| && FirstEmpty(lines) == Some(i)
    ensures BodyFrom(d, raw, lines) == if i + 1 < |raw| then Some(Concat(raw[i + 1..])) else None
  {
    var r := BodyFrom(d, raw, lines);
    if i + 1 < |raw| {
      assert r.Some?;
      assert r.value == Concat(raw[i + 1..]);
    } else {
      assert r.None?;
    }
  }

  lemma MessageRawLines(hs: seq<string>, t: string, body: string)
    requires IsTerminator(t) && HeaderLines(hs)
    ensures RawLines(Terminated(hs, t) + t + body) == WithTerminator(hs, t) + ([t] + RawLines(body))
  {
    var head := Terminated(hs, t);
    assert head + t + body == head + (t + body);
    RawLinesOfHeaders(hs, t, t + body);
    TerminatorLine(t);
    RawLinesCons(t, body);
  }

  lemma TerminatorLine(t: string)
    requires IsTerminator(t)
    ensures t != [] && t[|t| - 1] == '\n' && '\n' !in t[..|t| - 1]
  {
    if t == "\r\n" {
      assert t[..1] == "\r";
    }
  }

  lemma MessageFirstEmpty(hs: seq<string>, t: string, body: string)
    requires IsTerminator(t) && HeaderLines(hs)
    ensures FirstEmpty(Lines(Terminated(hs, t) + t + body)) == Some(|hs|)
  {
    var d := Terminated(hs, t) + t + body;
    MessageRawLines(hs, t, body);
    var raw := RawLines(d);
    var lines := Lines(d);
    forall k | 0 <= k < |hs| ensures lines[k] != [] {
      WithTerminatorAt(hs, t, k);
      assert raw[k] == hs[k] + t;
      StripTerminated(hs[k], t);
    }
    StripTerminated("a", t);
    assert raw[|hs|] == t;
    assert lines[|hs|] == [];
    FirstEmptyAt(lines, |hs|);
  }

  lemma FirstEmptyAt(lines: seq<string>, i: nat)
    requires i < |lines| && lines[i] == []
    requires forall j :: 0 <= j < i ==> lines[j] != []
    ensures FirstEmpty(lines) == Some(i)
  {
    match FirstEmpty(lines)
    case None =>
    case Some(m) =>
  }

  /** A line that ends in CRLF. */
  predicate CrLfEnded(l: string) {
    |l| >= 2 && l[|l| - 2] == '\r' && l[|l| - 1] == '\n'
  }

  predicate NoneCrLfEnded(r: seq<string>) {
    forall k :: 0 <= k < |r| ==> !CrLfEnded(r[k])
  }

  /** How many of the lines end in CRLF. */
  function CrLfEndedCount(raws: seq<string>): nat {
    if raws == [] then 0 else (if CrLfEnded(raws[0]) then 1 else 0) + CrLfEndedCount(raws[1..])
  }

  lemma {:induction false} CrLfEndedCountZero(raws: seq<string>)
    ensures CrLfEndedCount(raws) == 0 <==> NoneCrLfEnded(raws)
    decreases |raws|
  {
    if raws != [] {
      CrLfEndedCountZero(raws[1..]);
      if CrLfEndedCount(raws) == 0 {
        forall k | 0 < k < |raws| ensures !CrLfEnded(raws[k]) {
          assert raws[k] == raws[1..][k - 1];
        }
      }
    }
  }

  /** Stripping a line ended by `\n` takes one character off it, or two when
      a `\r` preceded the `\n`. */
  lemma StripTerminatedLength(l: string)
    requires l != [] && l[|l| - 1] == '\n'
    ensures |StripLineEnding(l)| + 1 + (if CrLfEnded(l) then 1 else 0) == |l|
  {
    if CrLfEnded(l) {
      var h := l[..|l| - 2];
      assert l == h + "\r\n";
      StripCrLf(h);
    } else {
      StripLfLine(l);
    }
  }

  /** A line ended by a bare `\n` loses only the `\n`. */
  lemma StripLfLine(l: string)
    requires l != [] && l[|l| - 1] == '\n' && !CrLfEnded(l)
    ensures StripLineEnding(l) == l[..|l| - 1]
  {
    assert l[|l| - 1..] == "\n";
    var m := l[..|l| - 1];
    if |m| >= 1 {
      assert m[|m| - 1..] == [l[|l| - 2]];
    }
  }

  /** Lines that each end in `\n`. */
  predicate AllTerminated(raws: seq<string>) {
    forall k :: 0 <= k < |raws| ==> raws[k] != [] && raws[k][|raws[k]| - 1] == '\n'
  }

  /** Counting each stripped line's length plus one falls short of the raw
      length by exactly one byte per line that ended in CRLF. */
  lemma {:induction false} LengthsPlusOneShortfall(raws: seq<string>)
    requires AllTerminated(raws)
    ensures LengthsPlusOne(StripLineEndings(raws)) + CrLfEndedCount(raws) == |Concat(raws)|
    decreases |raws|
  {
    if raws != [] {
      assert AllTerminated(raws[1..]) by {
        forall k | 0 <= k < |raws[1..]| ensures raws[1..][k] != [] && raws[1..][k][|raws[1..][k]| - 1] == '\n' {
          assert raws[1..][k] == raws[k + 1];
        }
      }
      LengthsPlusOneShortfall(raws[1..]);
      StripTerminatedLength(raws[0]);
      assert StripLineEndings(raws)[1..] == StripLineEndings(raws[1..]);
    }
  }

  /** No `\r` directly before a `\n`. */
  predicate NoCrLf(s: string) {
    forall k :: 0 <= k < |s| - 1 ==> !(s[k] == '\r' && s[k + 1] == '\n')
  }

  lemma {:induction false} RawLinesOfNoCrLf(s: string)
    requires NoCrLf(s)
    ensures NoneCrLfEnded(RawLines(s))
    decreases |s|
  {
    if s != [] {
      var n := FirstLineLength(s);
      var r := RawLines(s);
      assert r[0] == s[..n];
      assert NoCrLf(s[n..]) by {
        forall k | 0 <= k < |s[n..]| - 1 ensures !(s[n..][k] == '\r' && s[n..][k + 1] == '\n') {
          assert s[n..][k] == s[n + k] && s[n..][k + 1] == s[n + k + 1];
        }
      }
      RawLinesOfNoCrLf(s[n..]);
      assert r[1..] == RawLines(s[n..]);
      forall k | 0 < k < |r| ensures !CrLfEnded(r[k]) {
        assert r[k] == r[1..][k - 1];
      }
    }
  }

  /** On text without CRLF line endings, the source's body extraction and
      the corrected one agree. */
  lemma GetBodyAgreesWithoutCrLf(e: Email)
    requires NoCrLf(e.data)
    ensures GetBodyAsWritten(e) == GetBody(e)
  {
    RawLinesOfNoCrLf(e.data);
    match FirstEmpty(Lines(e.data))
    case None =>
    case Some(i) =>
      GetBodyAsWrittenExactIff(e, i);
      NoneCrLfEndedPrefix(RawLines(e.data), i + 1);
  }

  lemma NoneCrLfEndedPrefix(r: seq<string>, n: nat)
    requires n <= |r| && NoneCrLfEnded(r)
    ensures NoneCrLfEnded(r[..n])
  {
    forall k | 0 <= k < n ensures !CrLfEnded(r[..n][k]) {
      assert r[..n][k] == r[k];
    }
  }

  /** The source's body offset, the stripped lengths plus one up to the first
      empty line, falls short of the true offset by one byte per line up to
      there that ended in CRLF. */
  lemma {:induction false} GetBodyAsWrittenOffset(e: Email, i: nat)
    requires FirstEmpty(Lines(e.data)) == Some(i)
    ensures i < |RawLines(e.data)|
    ensures var pre := RawLines(e.data)[..i + 1];
      LengthsPlusOne(Lines(e.data)[..i + 1]) + CrLfEndedCount(pre) == |Concat(pre)|
  {
    var raw := RawLines(e.data);
    var lines := Lines(e.data);
    assert lines == StripLineEndings(raw);
    TerminatedUpToFirstEmpty(e.data, i);
    BodyAsWrittenShortfall(raw, lines, i);
  }

  lemma {:induction false} BodyAsWrittenShortfall(raw: seq<string>, lines: seq<string>, i: nat)
    requires lines == StripLineEndings(raw) && i < |raw| && FirstEmpty(lines) == Some(i)
    requires AllTerminated(raw[..i + 1])
    ensures LengthsPlusOne(lines[..i + 1]) + CrLfEndedCount(raw[..i + 1]) == |Concat(raw[..i + 1])|
  {
    LengthsPlusOneShortfall(raw[..i + 1]);
    StripLineEndingsPrefix(raw, i + 1);
  }

  /** The source's body is the right one exactly when no line up to and
      including the first empty line ended in CRLF. */
  lemma {:induction false} GetBodyAsWrittenExactIff(e: Email, i: nat)
    requires FirstEmpty(Lines(e.data)) == Some(i)
    ensures i < |RawLines(e.data)|
    ensures GetBodyAsWritten(e) == GetBody(e) <==> NoneCrLfEnded(RawLines(e.data)[..i + 1])
  {
    var raw := RawLines(e.data);
    var l := LengthsPlusOne(Lines(e.data)[..i + 1]);
    var c := CrLfEndedCount(raw[..i + 1]);
    assert i < |raw| && l + c == |Concat(raw[..i + 1])| by {
      GetBodyAsWrittenOffset(e, i);
    }
    assert GetBodyAsWritten(e) == if l < |e.data| then Some(e.data[l..]) else None by {
      GetBodyAsWrittenAt(e, i);
    }
    assert GetBody(e) == if i + 1 < |raw| then Some(Concat(raw[i + 1..])) else None by {
      GetBodyAt(e, i);
    }
    BodyExactIff(e.data, raw, i, GetBody(e), GetBodyAsWritten(e), l, c);
  }

  /** Without an empty line neither extraction finds a body. */
  lemma GetBodyAsWrittenNoEmptyLine(e: Email)
    requires FirstEmpty(Lines(e.data)).None?
    ensures GetBodyAsWritten(e) == None && GetBody(e) == None
  {
  }

  /** With `g` the body after raw line `i` and `w` the text from offset `l`,
      `c` bytes before the end of that line, the two agree exactly when `c`
      is zero, that is when no raw line up to `i` ended in CRLF. */
  lemma {:induction false} BodyExactIff(d: string, raw: seq<string>, i: nat, g: Option<string>, w: Option<string>, l: nat, c: nat)
    requires Concat(raw) == d && (forall k :: 0 <= k < |raw| ==> raw[k] != []) && i < |raw|
    requires g == if i + 1 < |raw| then Some(Concat(raw[i + 1..])) else None
    requires c == CrLfEndedCount(raw[..i + 1]) && l + c == |Concat(raw[..i + 1])|
    requires w == if l < |d| then Some(d[l..]) else None
    ensures w == g <==> NoneCrLfEnded(raw[..i + 1])
  {
    var p := |Concat(raw[..i + 1])|;
    ConcatSplit(raw, i + 1);
    ConcatNonEmpty(raw[i + 1..]);
    CrLfEndedCountZero(raw[..i + 1]);
    assert d[p..] == Concat(raw[i + 1..]);
    if c > 0 {
      assert w == Some(d[l..]);
      assert |d[l..]| == |Concat(raw[i + 1..])| + c;
    }
  }

  lemma GetBodyAsWrittenAt(e: Email, i: nat)
    requires FirstEmpty(Lines(e.data)) == Some(i)
    ensures var start := LengthsPlusOne(Lines(e.data)[..i + 1]);
      GetBodyAsWritten(e) == if start < |e.data| then Some(e.data[start..]) else None
  {
    BodyAsWrittenAt(e.data, Lines(e.data), i);
  }

  lemma BodyAsWrittenAt(d: string, lines: seq<string>, i: nat)
    requires FirstEmpty(lines) == Some(i)
    ensures var start := LengthsPlusOne(lines[..i + 1]);
      BodyAsWrittenFrom(d, lines) == if start < |d| then Some(d[start..]) else None
  {
  }

  /** The raw lines up to the first empty line all end in `\n`. */
  lemma TerminatedUpToFirstEmpty(d: string, i: nat)
    requires FirstEmpty(Lines(d)) == Some(i)
    ensures i < |RawLines(d)| && AllTerminated(RawLines(d)[..i + 1])
  {
    var raw := RawLines(d);
    var lines := Lines(d);
    assert lines[i] == [];
    assert lines[i] == StripLineEnding(raw[i]);
    RawLinesTerminated(d);
    TerminatedPrefixOf(raw, i);
  }

  lemma TerminatedPrefixOf(raw: seq<string>, i: nat)
    requires i < |raw| && raw[i] != [] && StripLineEnding(raw[i]) == []
    requires TerminatedBeforeLast(raw)
    ensures AllTerminated(raw[..i + 1])
  {
    StripEmpty(raw[i]);
    var pre := raw[..i + 1];
    forall k | 0 <= k < |pre| ensures pre[k] != [] && pre[k][|pre[k]| - 1] == '\n' {
      assert pre[k] == raw[k];
    }
  }

  /** Only a bare terminator strips to the empty line. */
  lemma StripEmpty(raw: string)
    requires raw != [] && StripLineEnding(raw) == []
    ensures raw == "\n" || raw == "\r\n"
  {
  }

  lemma StripLineEndingsPrefix(raws: seq<string>, n: nat)
    requires n <= |raws|
    ensures StripLineEndings(raws[..n]) == StripLineEndings(raws)[..n]
  {
  }

  /** The source's body extraction returns a body that starts too early when
      the header lines end in CRLF: the line terminator of the empty line is
      returned as part of the body. */
  lemma GetBodyCrLfCounterexample()
    ensures GetBodyAsWritten(Email("s@e.com", ["r@e.com"], "A\r\n\r\nB")) == Some("\r\nB")
    ensures GetBody(Email("s@e.com", ["r@e.com"], "A\r\n\r\nB")) == Some("B")
  {
    ExampleAsWritten(Email("s@e.com", ["r@e.com"], "A\r\n\r\nB"));
    ExampleCorrected(Email("s@e.com", ["r@e.com"], "A\r\n\r\nB"));
  }

  lemma ExampleAsWritten(e: Email)
    requires e.data == "A\r\n\r\nB"
    ensures GetBodyAsWritten(e) == Some("\r\nB")
  {
    ExampleLineList();
    ExampleFirstEmpty(Lines(e.data));
    ExampleLengths();
    GetBodyAsWrittenAt(e, 1);
    ExampleSuffix(e.data);
  }

  lemma ExampleSuffix(d: string)
    requires d == "A\r\n\r\nB"
    ensures |d| == 6 && d[3..] == "\r\nB"
  {
  }

  lemma ExampleCorrected(e: Email)
    requires e.data == "A\r\n\r\nB"
    ensures GetBody(e) == Some("B")
  {
    ExampleLines();
    ExampleRawLines();
    var raw := RawLines(e.data);
    assert raw[2..] == ["B"];
    assert Concat(["B"]) == "B";
    GetBodyAt(e, 1);
  }

  lemma ExampleLengths()
    ensures LengthsPlusOne(["A", []]) == 3
  {
    var ls: seq<string> := ["A", []];
    assert ls[1..] == [[]];
    assert ls[1..][1..] == [];
  }

  lemma ExampleRawLines()
    ensures RawLines("A\r\n\r\nB") == ["A\r\n", "\r\n", "B"]
  {
    assert "A\r\n\r\nB" == "A\r\n" + ("\r\n" + "B");
    RawLinesCons("A\r\n", "\r\n" + "B");
    RawLinesCons("\r\n", "B");
    RawLinesOfUnterminated("B");
  }

  lemma ExampleLines()
    ensures Lines("A\r\n\r\nB") == ["A", [], "B"]
    ensures FirstEmpty(Lines("A\r\n\r\nB")) == Some(1)
    ensures Lines("A\r\n\r\nB")[..2] == ["A", []]
    ensures |Concat(RawLines("A\r\n\r\nB")[..2])| == 5
  {
    ExampleLineList();
    ExampleFirstEmpty(Lines("A\r\n\r\nB"));
    ExampleRawPrefix(RawLines("A\r\n\r\nB"));
  }

  lemma ExampleLineList()
    ensures Lines("A\r\n\r\nB") == ["A", [], "B"]
  {
    ExampleRawLines();
    ExampleStripped();
    var lines := Lines("A\r\n\r\nB");
    assert |lines| == 3 && lines[0] == "A" && lines[1] == [] && lines[2] == "B";
  }

  lemma ExampleFirstEmpty(lines: seq<string>)
    requires lines == ["A", [], "B"]
    ensures FirstEmpty(lines) == Some(1) && lines[..2] == ["A", []]
  {
    FirstEmptyAt(lines, 1);
  }

  lemma ExampleRawPrefix(raw: seq<string>)
    requires raw == RawLines("A\r\n\r\nB")
    ensures |Concat(raw[..2])| == 5
  {
    ExampleRawLines();
    assert raw[..2] == ["A\r\n", "\r\n"];
    ExamplePrefixLength();
  }

  lemma ExampleStripped()
    ensures StripLineEnding("A\r\n") == "A"
    ensures StripLineEnding("\r\n") == []
    ensures StripLineEnding("B") == "B"
  {
    ExampleStrippedHeader();
    ExampleStrippedEmpty();
    ExampleStrippedBody();
  }

  lemma ExampleStrippedHeader()
    ensures StripLineEnding("A\r\n") == "A"
  {
    assert "A" + "\r\n" == "A\r\n";
    StripCrLf("A");
  }

  lemma ExampleStrippedEmpty()
    ensures StripLineEnding("\r\n") == []
  {
    assert [] + "\r\n" == "\r\n";
    StripCrLf([]);
  }

  lemma ExampleStrippedBody()
    ensures StripLineEnding("B") == "B"
  {
    assert "B"[0..] != "\n";
  }

  /** A line ended by CRLF loses both characters. */
  lemma StripCrLf(h: string)
    ensures StripLineEnding(h + "\r\n") == h
  {
    var line := h + "\r\n";
    assert line[|line| - 1..] == "\n";
    var l := line[..|line| - 1];
    assert l == h + "\r";
    assert l[|l| - 1..] == "\r";
    assert l[..|l| - 1] == h;
  }

  lemma ExamplePrefixLength()
    ensures |Concat(["A\r\n", "\r\n"])| == 5
  {
    var ss: seq<string> := ["A\r\n", "\r\n"];
    assert ss[1..] == ["\r\n"];
    assert ss[1..][1..] == [];
  }
}
