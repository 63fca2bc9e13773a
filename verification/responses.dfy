/** SMTP replies: a code, a text and an optional block of capability lines,
    with their wire form (the multi-line form follows section 4.2.1 of
    RFC 5321). */
module Responses {
  import opened Wrappers
  import opened Text

  const CRLF: string := "\r\n"

  datatype Response = Response(code: string, message: string, multiline: Option<seq<string>>)

  function New(code: string, message: string): Response {
    Response(code, message, None)
  }

  function NewMultiline(code: string, message: string, lines: seq<string>): Response {
    Response(code, message, Some(lines))
  }

  function OkReply(): Response {
    New("250", "OK")
  }

  function Greeting(): Response {
    New("220", "Welcome to MogiMail")
  }

  function HeloReply(hostname: string, clientDomain: string): Response {
    New("250", hostname + " Hello " + clientDomain)
  }

  /** The text of the 354 reply, which tells the client how to end its data. */
  const DataStartText: string := "End data with <CR><LF>.<CR><LF>"

  function DataStart(): Response {
    New("354", DataStartText)
  }

  function QuitReply(): Response {
    New("221", "Bye")
  }

  function ErrorReply(code: string, message: string): Response {
    New(code, message)
  }

  /** The wire form of a reply: it opens with the code, followed by a space
      when the reply is a single line and by a dash when more lines follow,
      and it ends with CRLF. */
  function Format(r: Response): (w: string)
    ensures StartsWith(w, r.code) && |w| > |r.code|
    ensures w[|r.code|] == (if r.multiline.None? then ' ' else '-')
    ensures EndsWith(w, CRLF)
  {
    match r.multiline
    case Some(lines) => r.code + "-" + r.message + CRLF + FormatLines(r.code, lines)
    case None => r.code + " " + r.message + CRLF
  }

  /** The capability lines of a multi-line reply: every line but the last is
      continued with a dash after the code, the last has a space. */
  function FormatLines(code: string, lines: seq<string>): (s: string)
    ensures s == [] <==> lines == []
    ensures lines != [] ==> EndsWith(s, CRLF)
    decreases |lines|
  {
    if lines == [] then []
    else if |lines| == 1 then LastLine(code, lines[0])
    else DashLine(code, lines[0]) + FormatLines(code, lines[1..])
  }

  /** A capability line that more lines follow. */
  function DashLine(code: string, line: string): string {
    code + "-" + line + CRLF
  }

  /** The closing capability line. */
  function LastLine(code: string, line: string): string {
    code + " " + line + CRLF
  }

  predicate IsSuccess(r: Response) {
    StartsWith(r.code, "2")
  }

  predicate IsError(r: Response) {
    StartsWith(r.code, "4") || StartsWith(r.code, "5")
  }

  /** A reply is never both a success and an error. */
  lemma SuccessExcludesError(r: Response)
    ensures !(IsSuccess(r) && IsError(r))
  {
  }

  /** Reads a single-line reply back: the CRLF is dropped and the line is
      split at its first space into code and text. */
  function ParseSingleLine(wire: string): Option<(string, string)> {
    if !EndsWith(wire, CRLF) then None
    else
      var line := wire[..|wire| - |CRLF|];
      match Find(line, ' ')
      case None => None
      case Some(i) => Some((line[..i], line[i + 1..]))
  }

  /** The single-line wire form is `code SP message CRLF`, and when the code
      holds no space, it can be read back into the code and the message. */
  lemma {:induction false} FormatSingleLineRoundTrip(code: string, message: string)
    requires ' ' !in code
    ensures Format(New(code, message)) == code + " " + message + "\r\n"
    ensures ParseSingleLine(Format(New(code, message))) == Some((code, message))
  {
    var w := Format(New(code, message));
    var line := code + " " + message;
    assert w == line + CRLF;
    assert w[..|w| - |CRLF|] == line;
    assert w[|w| - |CRLF|..] == CRLF;
    assert line == code + (" " + message);
    FindAfter(code, ' ', " " + message);
    assert line[..|code|] == code;
    assert line[|code| + 1..] == message;
  }

  /** Capability lines rendered with a dash after the code. */
  function DashLines(code: string, lines: seq<string>): string
    decreases |lines|
  {
    if lines == [] then [] else DashLine(code, lines[0]) + DashLines(code, lines[1..])
  }

  /** A multi-line reply opens with `code-message`, continues every
      capability line but the last with a dash, and closes with the last
      capability line after a space; with no capability lines only the
      opening line is sent. */
  lemma FormatMultilineShape(code: string, message: string, lines: seq<string>)
    ensures lines == [] ==> Format(NewMultiline(code, message, lines)) == code + "-" + message + CRLF
    ensures lines != [] ==>
      Format(NewMultiline(code, message, lines))
      == code + "-" + message + CRLF + DashLines(code, lines[..|lines| - 1]) + LastLine(code, lines[|lines| - 1])
  {
    var opening := code + "-" + message + CRLF;
    assert Format(NewMultiline(code, message, lines)) == opening + FormatLines(code, lines);
    if lines == [] {
      assert opening + [] == opening;
    } else {
      FormatLinesShape(code, lines);
    }
  }

  lemma {:induction false} FormatLinesShape(code: string, lines: seq<string>)
    requires lines != []
    ensures FormatLines(code, lines) == DashLines(code, lines[..|lines| - 1]) + LastLine(code, lines[|lines| - 1])
    decreases |lines|
  {
    var n := |lines|;
    if n == 1 {
      assert lines[..0] == [];
      assert DashLines(code, []) == [];
    } else {
      var rest := lines[1..];
      var init := lines[..n - 1];
      assert rest[..n - 2] == init[1..];
      assert rest[n - 2] == lines[n - 1];
      assert init[0] == lines[0];
      var head := DashLine(code, lines[0]);
      var last := LastLine(code, lines[n - 1]);
      assert DashLines(code, init) == head + DashLines(code, init[1..]);
      assert FormatLines(code, lines) == head + FormatLines(code, rest);
      FormatLinesShape(code, rest);
      AppendAssoc(head, DashLines(code, init[1..]), last);
    }
  }

  lemma AppendAssoc<T>(a: seq<T>, b: seq<T>, c: seq<T>)
    ensures a + (b + c) == (a + b) + c
  {
  }

  /** The fixed replies are single-line and have these wire forms. */
  lemma FixedRepliesOnTheWire()
    ensures Format(OkReply()) == "250 OK\r\n"
    ensures Format(Greeting()) == "220 Welcome to MogiMail\r\n"
    ensures Format(QuitReply()) == "221 Bye\r\n"
    ensures Format(DataStart()) == "354 " + DataStartText + "\r\n"
  {
    OkOnTheWire();
    GreetingOnTheWire();
    QuitOnTheWire();
  }

  lemma OkOnTheWire()
    ensures Format(OkReply()) == "250 OK\r\n"
  {
    assert "250" + " " + "OK" + CRLF == "250 OK\r\n";
  }

  lemma GreetingOnTheWire()
    ensures Format(Greeting()) == "220 Welcome to MogiMail\r\n"
  {
    assert "220" + " " + "Welcome to MogiMail" + CRLF == "220 Welcome to MogiMail\r\n";
  }

  lemma QuitOnTheWire()
    ensures Format(QuitReply()) == "221 Bye\r\n"
  {
    assert "221" + " " + "Bye" + CRLF == "221 Bye\r\n";
  }

  /** The greeting reply names the server and then the client; an error
      reply is a plain single-line reply. */
  lemma ParameterisedReplies(hostname: string, client: string, code: string, message: string)
    ensures Format(HeloReply(hostname, client)) == "250 " + hostname + " Hello " + client + "\r\n"
    ensures ErrorReply(code, message) == New(code, message)
  {
  }

  /** Which fixed replies are successes: all but the intermediate 354. */
  lemma FixedRepliesClassified(hostname: string, client: string)
    ensures IsSuccess(OkReply()) && IsSuccess(QuitReply()) && IsSuccess(HeloReply(hostname, client))
    ensures IsSuccess(Greeting())
    ensures !IsSuccess(DataStart()) && !IsError(DataStart())
  {
    assert "354"[..1] == "3";
  }
}
