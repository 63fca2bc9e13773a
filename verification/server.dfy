/** The per-line driver of one client connection: every decoded line is
    trimmed, skipped when empty, and then either collected as mail text (in
    data mode) or dispatched as a command. The driver is a pure step
    function folded over the lines of the connection; what the server
    writes to the client and the messages it hands on are collected in the
    transcript of the fold. */
module Server {
  import opened Wrappers
  import opened Text
  import opened Errors
  import opened Responses
  import opened Emails
  import opened Sessions
  import opened Commands

  /** The reply sent for an error. */
  function ReplyFor(e: SmtpError): (r: Response)
    ensures IsError(r) && !IsSuccess(r) && r.multiline.None?
    ensures r.code == ResponseCode(e) && r.message == ResponseMessage(e)
  {
    ErrorReply(ResponseCode(e), ResponseMessage(e))
  }

  const TruncatedText: string := "Response too long (truncated)"

  /** The line sent in place of a reply that is too long. */
  function TruncatedWire(code: string): string {
    code + " " + TruncatedText + "\r\n"
  }

  /** The text written to the client for a reply: its wire form, or, when
      that is longer than a reply line may be, a single line with the same
      code saying that the reply was too long. */
  function SendResponse(r: Response): (wire: string)
    ensures StartsWith(wire, r.code)
    ensures |Format(r)| <= ReplyLineMaxLength ==> wire == Format(r)
    ensures |Format(r)| > ReplyLineMaxLength ==> wire == r.code + " " + TruncatedText + CRLF
    ensures |r.code| + 32 <= ReplyLineMaxLength ==> |wire| <= ReplyLineMaxLength
  {
    var formatted := Format(r);
    if |formatted| > ReplyLineMaxLength then Format(Responses.New(r.code, TruncatedText))
    else formatted
  }

  /** One line of mail text in data mode: the end marker `.` asks for the
      250 reply; anything else, a lone dot with more after it included, is
      collected verbatim. */
  function HandleDataLine(line: string, s: Session): (o: Outcome<Option<Response>>)
    ensures line == "." ==> o == Outcome(s, Ok(Some(OkReply())))
    ensures line != "." ==>
      && (o.result.Ok? <==> AddDataLine(s, line).result.Ok?)
      && o.session == AddDataLine(s, line).session
      && (o.result.Ok? ==> o.result.value.None?)
      && (o.result.Err? ==> o.result.error == AddDataLine(s, line).result.error)
  {
    if line == "." then Outcome(s, Ok(Some(OkReply())))
    else
      var o := AddDataLine(s, line);
      match o.result
      case Err(e) => Outcome(s, Err(e))
      case Ok(_) => Outcome(o.session, Ok(None))
  }

  /** The effect of one line: the next session, the text written back (if
      any), the message handed on (if any), and whether the connection
      ends. */
  datatype StepResult = StepResult(session: Session, reply: Option<string>, email: Option<Email>, close: bool)

  /** The driver on one decoded line. */
  function Step(hostname: string, s: Session, raw: string): (r: StepResult)
    ensures AllWhitespace(raw) ==> r == StepResult(s, None, None, false)
    ensures r.email.Some? ==>
      && s.inDataMode && Trim(raw) == "."
      && s.from.Some? && r.email.value == Email(s.from.value, s.to, Join(s.data, "\n"))
    ensures r.close ==> !s.inDataMode && r.session == s && r.email.None?
    ensures r.reply.None? ==> r.email.None? && !r.close
    ensures Valid(s) ==> Valid(r.session)
  {
    var command := Trim(raw);
    TrimEmptyIff(raw);
    if command == [] then StepResult(s, None, None, false)
    else if s.inDataMode then DataStep(s, command)
    else CommandStep(hostname, s, command)
  }

  /** A non-empty trimmed line in data mode. */
  function DataStep(s: Session, command: string): (r: StepResult)
    requires s.inDataMode
    ensures r.email.Some? ==>
      && command == "."
      && s.from.Some? && r.email.value == Email(s.from.value, s.to, Join(s.data, "\n"))
    ensures !r.close
    ensures r.reply.None? ==> r.email.None?
    ensures Valid(s) ==> Valid(r.session)
  {
    var o := HandleDataLine(command, s);
    match o.result
    case Ok(Some(response)) =>
      var wire := SendResponse(response);
      if response.code == "250" then
        var fin := FinishDataCollection(o.session);
        var email := if fin.result.Ok? then Some(fin.result.value) else None;
        StepResult(Reset(fin.session), Some(wire), email, false)
      else
        StepResult(Reset(o.session), Some(wire), None, false)
    case Ok(None) =>
      StepResult(o.session, None, None, false)
    case Err(e) =>
      StepResult(Reset(o.session), Some(SendResponse(ReplyFor(e))), None, false)
  }

  /** A non-empty trimmed line outside data mode: a command, whose failure
      is reported without touching the session. */
  function CommandStep(hostname: string, s: Session, command: string): (r: StepResult)
    ensures r.email.None? && r.reply.Some?
    ensures r.close ==> r.session == s
    ensures Valid(s) ==> Valid(r.session)
  {
    var o := ProcessCommand(hostname, command, s);
    match o.result
    case Ok(response) =>
      QuitKeepsSession(hostname, command, s);
      StepResult(o.session, Some(SendResponse(response)), None, response.code == "221")
    case Err(e) =>
      StepResult(o.session, Some(SendResponse(ReplyFor(e))), None, false)
  }

  /** A command whose reply is 221 is QUIT, which leaves the session as it
      was. */
  lemma QuitKeepsSession(hostname: string, line: string, s: Session)
    ensures var o := ProcessCommand(hostname, line, s);
      o.result.Ok? && o.result.value.code == "221" ==> o.session == s
  {
    var o := ProcessCommand(hostname, line, s);
    if o.result.Ok? {
      ProcessCommandReplies(hostname, line, s);
    }
  }

  // ---------------------------------------------------------------------
  // The connection

  /** What a connection has produced so far: the session, the text written
      back line by line, the messages handed on, and whether it has ended. */
  datatype Transcript = Transcript(session: Session, replies: seq<string>, emails: seq<Email>, closed: bool)

  /** What one step contributes to the transcript. */
  function StepTranscript(r: StepResult): Transcript {
    Transcript(r.session, ToSeq(r.reply), ToSeq(r.email), r.close)
  }

  /** The transcript of `first` followed by `next`. */
  function Then(first: Transcript, next: Transcript): Transcript {
    Transcript(next.session, first.replies + next.replies, first.emails + next.emails, next.closed)
  }

  /** The driver folded over the decoded lines, stopping after the line
      that ends the connection. */
  function Run(hostname: string, s: Session, lines: seq<string>): (t: Transcript)
    ensures |t.emails| <= |t.replies| <= |lines|
    ensures Valid(s) ==> Valid(t.session)
    decreases |lines|
  {
    if lines == [] then Transcript(s, [], [], false)
    else
      var r := Step(hostname, s, lines[0]);
      var now := StepTranscript(r);
      if r.close then now
      else
        Then(now, Run(hostname, r.session, lines[1..]))
  }

  /** The greeting, then the driver over the lines of the connection. */
  function Serve(hostname: string, lines: seq<string>): (t: Transcript)
    ensures t.replies != [] && t.replies[0] == "220 Welcome to MogiMail\r\n"
    ensures Valid(t.session)
  {
    FixedRepliesOnTheWire();
    var greeting := SendResponse(Greeting());
    var t := Run(hostname, Sessions.New(), lines);
    Transcript(t.session, [greeting] + t.replies, t.emails, t.closed)
  }

  /** Running two batches of lines is running the first and then the second
      from where the first left off; once the connection has ended, later
      lines are never read. */
  lemma {:induction false} RunAppend(hostname: string, s: Session, a: seq<string>, b: seq<string>)
    ensures var t := Run(hostname, s, a);
      Run(hostname, s, a + b) == if t.closed then t else Then(t, Run(hostname, t.session, b))
    decreases |a|
  {
    if a == [] {
      assert a + b == b;
      ThenEmpty(s, Run(hostname, s, b));
    } else {
      var r := Step(hostname, s, a[0]);
      RunOfCons(hostname, s, a, b);
      if !r.close {
        RunAppend(hostname, r.session, a[1..], b);
        var t1 := Run(hostname, r.session, a[1..]);
        ThenCarries(StepTranscript(r), t1, Run(hostname, t1.session, b));
      }
    }
  }

  /** One step of a non-empty batch, with or without more lines after it. */
  lemma RunOfCons(hostname: string, s: Session, a: seq<string>, b: seq<string>)
    requires a != []
    ensures var r := Step(hostname, s, a[0]);
      && Run(hostname, s, a) == (if r.close then StepTranscript(r) else Then(StepTranscript(r), Run(hostname, r.session, a[1..])))
      && Run(hostname, s, a + b) == (if r.close then StepTranscript(r) else Then(StepTranscript(r), Run(hostname, r.session, a[1..] + b)))
  {
    assert (a + b)[0] == a[0];
    assert (a + b)[1..] == a[1..] + b;
  }

  lemma ThenEmpty(s: Session, t: Transcript)
    ensures Then(Transcript(s, [], [], false), t) == t
  {
  }

  /** The transcript algebra behind `RunAppend`. */
  lemma ThenCarries(now: Transcript, t1: Transcript, t2: Transcript)
    ensures var t := Then(now, t1);
      Then(now, if t1.closed then t1 else Then(t1, t2)) == if t.closed then t else Then(t, t2)
  {
    if !t1.closed {
      ThenAssoc(now, t1, t2);
    }
  }

  lemma ThenAssoc(x: Transcript, y: Transcript, z: Transcript)
    ensures Then(x, Then(y, z)) == Then(Then(x, y), z)
  {
    assert x.replies + (y.replies + z.replies) == (x.replies + y.replies) + z.replies;
    assert x.emails + (y.emails + z.emails) == (x.emails + y.emails) + z.emails;
  }

  // ---------------------------------------------------------------------
  // Lines a client sends

  /** A mailbox `user@domain` that the address check accepts and that holds
      no whitespace. */
  datatype Mailbox = Mailbox(user: string, domain: string)

  function AddressOf(m: Mailbox): string {
    m.user + "@" + m.domain
  }

  predicate GoodMailbox(m: Mailbox) {
    && '@' !in m.user
    && 1 <= |m.user| <= UserMaxLength && 1 <= |m.domain| <= DomainMaxLength
    && NoWhitespace(m.user) && NoWhitespace(m.domain)
  }

  /** A command line of a verb and one argument word. */
  function CommandLine(v: Verb, arg: string): string {
    VerbName(v) + " " + arg
  }

  /** The argument word `FROM:<address>` or `TO:<address>`. */
  function PathText(k: PathKind, addr: string): string {
    Keyword(k) + "<" + addr + ">"
  }

  /** `HELO domain` */
  function HeloLine(domain: string): string {
    CommandLine(Helo, domain)
  }

  /** `MAIL FROM:<user@domain>` */
  function MailLine(m: Mailbox): string {
    CommandLine(Mail, PathText(FromPath, AddressOf(m)))
  }

  /** `RCPT TO:<user@domain>` */
  function RcptLine(m: Mailbox): string {
    CommandLine(Rcpt, PathText(ToPath, AddressOf(m)))
  }

  /** Mail text lines as the driver collects them: non-empty, trimmed, not
      the end marker, and within the text line limit. */
  predicate BodyLines(body: seq<string>) {
    forall k :: 0 <= k < |body| ==>
      body[k] != [] && Trimmed(body[k]) && body[k] != "." && |body[k]| + 2 <= TextLineMaxLength
  }

  /** Mail text lines as a client may send them, blank and padded ones
      included: once trimmed, no line is the end marker and every line fits
      the text line limit. */
  predicate TextLines(text: seq<string>) {
    forall k :: 0 <= k < |text| ==> Trim(text[k]) != "." && |Trim(text[k])| + 2 <= TextLineMaxLength
  }

  lemma GoodMailboxText(m: Mailbox)
    requires GoodMailbox(m)
    ensures NoWhitespace(AddressOf(m)) && |AddressOf(m)| <= UserMaxLength + 1 + DomainMaxLength
    ensures ValidateEmailAddress(AddressOf(m)) == Ok(())
  {
    NoWhitespaceConcat(m.user, "@");
    NoWhitespaceConcat(m.user + "@", m.domain);
    ValidateParts(m.user, m.domain);
  }

  /** The argument word `keyword<address>` of MAIL or RCPT. */
  lemma PathWord(k: PathKind, m: Mailbox)
    requires GoodMailbox(m)
    ensures var w := PathText(k, AddressOf(m));
      w != [] && NoWhitespace(w) && |w| <= |AddressOf(m)| + 7 && PathArgument(w, k) == Ok(AddressOf(m))
  {
    var kw := Keyword(k);
    assert |kw| <= 5;
    GoodMailboxText(m);
    KeywordNoWhitespace(k);
    BracketedNoWhitespace(kw, AddressOf(m));
    PathArgumentOfKeyword(k, AddressOf(m));
  }

  lemma KeywordNoWhitespace(k: PathKind)
    ensures NoWhitespace(Keyword(k)) && |Keyword(k)| <= 5
  {
    match k
    case FromPath => assert Keyword(k) == "FROM:";
    case ToPath => assert Keyword(k) == "TO:";
  }

  lemma BracketedNoWhitespace(kw: string, t: string)
    requires NoWhitespace(kw) && NoWhitespace(t)
    ensures NoWhitespace(kw + "<" + t + ">")
  {
    NoWhitespaceConcat(kw, "<");
    NoWhitespaceConcat(kw + "<", t);
    NoWhitespaceConcat(kw + "<" + t, ">");
  }

  /** A command line of two words is trimmed and splits back into them. */
  lemma TwoWordCommand(hostname: string, s: Session, v: Verb, arg: string)
    requires arg != [] && NoWhitespace(arg) && |arg| <= 400
    ensures var line := CommandLine(v, arg);
      line != [] && Trim(line) == line && ProcessCommand(hostname, line, s) == Dispatch(hostname, v, [VerbName(v), arg], s)
  {
    var name := VerbName(v);
    var line := CommandLine(v, arg);
    JoinPair(name, " ", arg);
    assert NoWhitespace(name) by {
      assert name in {"HELO", "MAIL", "RCPT", "DATA", "RSET", "NOOP", "QUIT"};
    }
    assert line[0] == name[0] && line[|line| - 1] == arg[|arg| - 1];
    TrimOfTrimmed(line);
    ToUpperOfUpper(name);
    ProcessWords(hostname, [name, arg], s, v);
  }

  /** A command line of one word. */
  lemma OneWordCommand(hostname: string, s: Session, v: Verb)
    ensures Trim(VerbName(v)) == VerbName(v)
    ensures ProcessCommand(hostname, VerbName(v), s) == Dispatch(hostname, v, [VerbName(v)], s)
  {
    var name := VerbName(v);
    assert NoWhitespace(name) by {
      assert name in {"HELO", "MAIL", "RCPT", "DATA", "RSET", "NOOP", "QUIT"};
    }
    TrimOfTrimmed(name);
    ToUpperOfUpper(name);
    assert Join([name], " ") == name;
    ProcessWords(hostname, [name], s, v);
  }

  /** The fixed replies are short enough to be sent as they are; the HELO
      reply is sent as it is exactly when host name and domain leave it
      within a reply line, and is otherwise replaced by the truncated line. */
  lemma FixedRepliesSent(hostname: string, domain: string)
    ensures SendResponse(OkReply()) == "250 OK\r\n"
    ensures SendResponse(QuitReply()) == "221 Bye\r\n"
    ensures SendResponse(DataStart()) == DataWire
    ensures |hostname| + |domain| + 13 <= ReplyLineMaxLength ==>
      SendResponse(HeloReply(hostname, domain)) == HeloWire(hostname, domain)
    ensures |hostname| + |domain| + 13 > ReplyLineMaxLength ==>
      SendResponse(HeloReply(hostname, domain)) == TruncatedWire("250")
  {
    FixedRepliesOnTheWire();
    HeloSent(hostname, domain);
  }

  // ---------------------------------------------------------------------
  // One line of each kind

  /** The wire form of the plain 250 reply. */
  const OkWire: string := "250 OK\r\n"

  /** The wire form of the 354 reply to DATA. */
  const DataWire: string := "354 " + DataStartText + "\r\n"

  /** The wire form of the 221 reply to QUIT. */
  const ByeWire: string := "221 Bye\r\n"

  lemma OkSent()
    ensures SendResponse(OkReply()) == OkWire
  {
    OkOnTheWire();
  }

  lemma DataStartSent()
    ensures SendResponse(DataStart()) == DataWire
  {
    assert Format(DataStart()) == "354 " + DataStartText + CRLF;
  }

  lemma ByeSent()
    ensures SendResponse(QuitReply()) == ByeWire
  {
    QuitOnTheWire();
  }

  /** Outside data mode a non-empty trimmed line is a command: its reply is
      sent, and the connection ends on 221. */
  lemma StepCommandOk(hostname: string, s: Session, line: string, next: Session, reply: Response)
    requires !s.inDataMode && line != [] && Trim(line) == line
    requires ProcessCommand(hostname, line, s) == Outcome(next, Ok(reply))
    ensures Step(hostname, s, line) == StepResult(next, Some(SendResponse(reply)), None, reply.code == "221")
  {
  }

  /** `StepCommandOk` once the wire form of the reply is known. */
  lemma StepCommandSent(hostname: string, s: Session, line: string, next: Session, reply: Response, wire: string, close: bool)
    requires !s.inDataMode && line != [] && Trim(line) == line
    requires ProcessCommand(hostname, line, s) == Outcome(next, Ok(reply))
    requires SendResponse(reply) == wire && (reply.code == "221" <==> close)
    ensures Step(hostname, s, line) == StepResult(next, Some(wire), None, close)
  {
    StepCommandOk(hostname, s, line, next, reply);
  }

  /** Outside data mode a refused command is answered with the error and
      the session stays as it was: no reset. */
  lemma StepCommandError(hostname: string, s: Session, line: string)
    requires !s.inDataMode && line != [] && Trim(line) == line
    requires ProcessCommand(hostname, line, s).result.Err?
    ensures Step(hostname, s, line)
      == StepResult(s, Some(SendResponse(ReplyFor(ProcessCommand(hostname, line, s).result.error))), None, false)
  {
  }

  lemma HeloCommand(hostname: string, s: Session, domain: string)
    requires domain != [] && NoWhitespace(domain) && |domain| <= DomainMaxLength
    ensures HeloLine(domain) != [] && Trim(HeloLine(domain)) == HeloLine(domain)
    ensures ProcessCommand(hostname, HeloLine(domain), s)
      == Outcome(SetClientDomain(s, domain).session, Ok(HeloReply(hostname, domain)))
  {
    var parts := [VerbName(Helo), domain];
    TwoWordCommand(hostname, s, Helo, domain);
    assert Dispatch(hostname, Helo, parts, s) == HandleHelo(hostname, parts, s);
    HeloHandled(hostname, parts, s, domain);
  }

  /** The HELO handler on a domain it accepts. */
  lemma HeloHandled(hostname: string, parts: seq<string>, s: Session, domain: string)
    requires |parts| >= 2 && parts[1] == domain && |domain| <= DomainMaxLength
    ensures HandleHelo(hostname, parts, s) == Outcome(SetClientDomain(s, domain).session, Ok(HeloReply(hostname, domain)))
  {
  }

  lemma StepHelo(hostname: string, s: Session, domain: string)
    requires !s.inDataMode && domain != [] && NoWhitespace(domain) && |domain| <= DomainMaxLength
    ensures Step(hostname, s, HeloLine(domain))
      == StepResult(SetClientDomain(s, domain).session, Some(HeloAnswer(hostname, domain)), None, false)
  {
    HeloStep(hostname, s, domain);
    HeloSent(hostname, domain);
  }

  lemma HeloStep(hostname: string, s: Session, domain: string)
    requires !s.inDataMode && domain != [] && NoWhitespace(domain) && |domain| <= DomainMaxLength
    ensures Step(hostname, s, HeloLine(domain))
      == StepResult(SetClientDomain(s, domain).session, Some(SendResponse(HeloReply(hostname, domain))), None, false)
  {
    HeloCommand(hostname, s, domain);
    StepCommandOk(hostname, s, HeloLine(domain), SetClientDomain(s, domain).session, HeloReply(hostname, domain));
  }

  lemma HeloSent(hostname: string, domain: string)
    ensures SendResponse(HeloReply(hostname, domain)) == HeloAnswer(hostname, domain)
  {
    ParameterisedReplies(hostname, domain, "", "");
    assert |HeloWire(hostname, domain)| == |hostname| + |domain| + 13;
  }

  /** The MAIL handler on an argument it accepts. */
  lemma MailHandled(parts: seq<string>, s: Session, addr: string)
    requires s.state == GreetingReceived && |parts| >= 2
    requires PathArgument(Join(parts[1..], " "), FromPath) == Ok(addr)
    requires ValidateEmailAddress(addr) == Ok(())
    ensures HandleMail(parts, s) == Outcome(SetSender(s, addr).session, Ok(OkReply()))
  {
    assert HandleMail(parts, s) == AcceptSender(addr, s);
    SenderAccepted(s, addr);
  }

  lemma SenderAccepted(s: Session, addr: string)
    requires s.state == GreetingReceived
    requires ValidateEmailAddress(addr) == Ok(())
    ensures AcceptSender(addr, s) == Outcome(SetSender(s, addr).session, Ok(OkReply()))
  {
    assert SetSender(s, addr).result.Ok?;
  }

  lemma MailCommand(hostname: string, s: Session, m: Mailbox)
    requires s.state == GreetingReceived && GoodMailbox(m)
    ensures MailLine(m) != [] && Trim(MailLine(m)) == MailLine(m)
    ensures ProcessCommand(hostname, MailLine(m), s) == Outcome(SetSender(s, AddressOf(m)).session, Ok(OkReply()))
  {
    var arg := PathText(FromPath, AddressOf(m));
    PathWord(FromPath, m);
    GoodMailboxText(m);
    TwoWordCommand(hostname, s, Mail, arg);
    var parts := [VerbName(Mail), arg];
    assert parts[1..] == [arg];
    assert Join(parts[1..], " ") == arg;
    DispatchMail(hostname, parts, s);
    MailHandled(parts, s, AddressOf(m));
  }

  lemma DispatchMail(hostname: string, parts: seq<string>, s: Session)
    ensures Dispatch(hostname, Mail, parts, s) == HandleMail(parts, s)
  {
  }

  lemma StepMail(hostname: string, s: Session, m: Mailbox)
    requires !s.inDataMode && s.state == GreetingReceived && GoodMailbox(m)
    ensures Step(hostname, s, MailLine(m))
      == StepResult(SetSender(s, AddressOf(m)).session, Some(OkWire), None, false)
  {
    MailCommand(hostname, s, m);
    StepOk(hostname, s, MailLine(m), SetSender(s, AddressOf(m)).session);
  }

  /** A command accepted with a plain 250 reply. */
  lemma StepOk(hostname: string, s: Session, line: string, next: Session)
    requires !s.inDataMode && line != [] && Trim(line) == line
    requires ProcessCommand(hostname, line, s) == Outcome(next, Ok(OkReply()))
    ensures Step(hostname, s, line) == StepResult(next, Some(OkWire), None, false)
  {
    OkSent();
    StepCommandSent(hostname, s, line, next, OkReply(), OkWire, false);
  }

  /** The RCPT handler on an argument it accepts. */
  lemma RcptHandled(parts: seq<string>, s: Session, addr: string)
    requires s.state in {MailReceived, RecipientsReceived} && |parts| >= 2 && |s.to| < MaxRecipients
    requires PathArgument(Join(parts[1..], " "), ToPath) == Ok(addr)
    requires ValidateEmailAddress(addr) == Ok(())
    ensures HandleRcpt(parts, s) == Outcome(AddRecipient(s, addr).session, Ok(OkReply()))
  {
    assert CanExecute(s.state, Rcpt);
  }

  lemma RecipientAccepted(s: Session, addr: string)
    requires s.state in {MailReceived, RecipientsReceived} && |s.to| < MaxRecipients
    requires ValidateEmailAddress(addr) == Ok(())
    ensures AcceptRecipient(addr, s) == Outcome(AddRecipient(s, addr).session, Ok(OkReply()))
  {
    assert AddRecipient(s, addr).result.Ok?;
  }

  lemma RcptCommand(hostname: string, s: Session, m: Mailbox)
    requires s.state in {MailReceived, RecipientsReceived} && GoodMailbox(m) && |s.to| < MaxRecipients
    ensures RcptLine(m) != [] && Trim(RcptLine(m)) == RcptLine(m)
    ensures ProcessCommand(hostname, RcptLine(m), s) == Outcome(AddRecipient(s, AddressOf(m)).session, Ok(OkReply()))
  {
    var arg := PathText(ToPath, AddressOf(m));
    PathWord(ToPath, m);
    GoodMailboxText(m);
    TwoWordCommand(hostname, s, Rcpt, arg);
    var parts := [VerbName(Rcpt), arg];
    assert parts[1..] == [arg];
    assert Join(parts[1..], " ") == arg;
    DispatchRcpt(hostname, parts, s);
    RcptHandled(parts, s, AddressOf(m));
  }

  lemma DispatchRcpt(hostname: string, parts: seq<string>, s: Session)
    ensures Dispatch(hostname, Rcpt, parts, s) == HandleRcpt(parts, s)
  {
  }

  lemma StepRcpt(hostname: string, s: Session, m: Mailbox)
    requires !s.inDataMode && s.state in {MailReceived, RecipientsReceived} && GoodMailbox(m)
    requires |s.to| < MaxRecipients
    ensures Step(hostname, s, RcptLine(m))
      == StepResult(AddRecipient(s, AddressOf(m)).session, Some(OkWire), None, false)
  {
    RcptCommand(hostname, s, m);
    StepOk(hostname, s, RcptLine(m), AddRecipient(s, AddressOf(m)).session);
  }

  /** A single word naming a verb, in any case. */
  predicate VerbWord(w: string, v: Verb) {
    w != [] && NoWhitespace(w) && |w| <= CommandLineMaxLength && ToUpper(w) == VerbName(v)
  }

  /** A one-word command line is trimmed and dispatched on itself. */
  lemma VerbWordCommand(hostname: string, s: Session, w: string, v: Verb)
    requires VerbWord(w, v)
    ensures Trim(w) == w && w != []
    ensures ProcessCommand(hostname, w, s) == Dispatch(hostname, v, [w], s)
  {
    assert Trimmed(w);
    TrimOfTrimmed(w);
    assert Join([w], " ") == w;
    ProcessWords(hostname, [w], s, v);
  }

  lemma DispatchData(hostname: string, parts: seq<string>, s: Session)
    requires s.state == RecipientsReceived && |parts| == 1
    ensures Dispatch(hostname, Data, parts, s) == Outcome(StartDataMode(s).session, Ok(DataStart()))
  {
  }

  lemma StepData(hostname: string, s: Session, w: string)
    requires !s.inDataMode && s.state == RecipientsReceived && VerbWord(w, Data)
    ensures Step(hostname, s, w)
      == StepResult(StartDataMode(s).session, Some(DataWire), None, false)
  {
    VerbWordCommand(hostname, s, w, Data);
    DispatchData(hostname, [w], s);
    DataStartSent();
    StepCommandSent(hostname, s, w, StartDataMode(s).session, DataStart(), DataWire, false);
  }

  lemma DispatchRset(hostname: string, parts: seq<string>, s: Session)
    requires s.state != Initial
    ensures Dispatch(hostname, Rset, parts, s) == Outcome(Reset(s), Ok(OkReply()))
  {
  }

  lemma StepRset(hostname: string, s: Session, w: string)
    requires !s.inDataMode && s.state != Initial && VerbWord(w, Rset)
    ensures Step(hostname, s, w) == StepResult(Reset(s), Some(OkWire), None, false)
  {
    VerbWordCommand(hostname, s, w, Rset);
    DispatchRset(hostname, [w], s);
    OkSent();
    StepCommandSent(hostname, s, w, Reset(s), OkReply(), OkWire, false);
  }

  lemma DispatchNoop(hostname: string, parts: seq<string>, s: Session)
    ensures Dispatch(hostname, Noop, parts, s) == Outcome(s, Ok(OkReply()))
  {
  }

  lemma StepNoop(hostname: string, s: Session, w: string)
    requires !s.inDataMode && VerbWord(w, Noop)
    ensures Step(hostname, s, w) == StepResult(s, Some(OkWire), None, false)
  {
    VerbWordCommand(hostname, s, w, Noop);
    DispatchNoop(hostname, [w], s);
    OkSent();
    StepCommandSent(hostname, s, w, s, OkReply(), OkWire, false);
  }

  lemma DispatchQuit(hostname: string, parts: seq<string>, s: Session)
    ensures Dispatch(hostname, Quit, parts, s) == Outcome(s, Ok(QuitReply()))
  {
  }

  lemma StepQuit(hostname: string, s: Session, w: string)
    requires !s.inDataMode && VerbWord(w, Quit)
    ensures Step(hostname, s, w) == StepResult(s, Some(ByeWire), None, true)
  {
    VerbWordCommand(hostname, s, w, Quit);
    DispatchQuit(hostname, [w], s);
    ByeSent();
    StepCommandSent(hostname, s, w, s, QuitReply(), ByeWire, true);
  }

  /** In data mode a line of text is collected silently. */
  lemma StepBodyLine(hostname: string, s: Session, line: string)
    requires s.inDataMode && line != [] && Trimmed(line) && line != "."
    requires AddDataLine(s, line).result.Ok?
    ensures Step(hostname, s, line) == StepResult(AddDataLine(s, line).session, None, None, false)
  {
    TrimOfTrimmed(line);
  }

  lemma StepInDataMode(hostname: string, s: Session, line: string)
    requires s.inDataMode && line != [] && Trim(line) == line
    ensures Step(hostname, s, line) == DataStep(s, line)
  {
  }

  lemma DataStepDot(s: Session)
    requires s.inDataMode && s.from.Some? && s.to != []
    ensures DataStep(s, ".")
      == StepResult(Reset(s), Some(OkWire), Some(Email(s.from.value, s.to, Join(s.data, "\n"))), false)
  {
    assert HandleDataLine(".", s) == Outcome(s, Ok(Some(OkReply())));
    OkSent();
    var fin := FinishDataCollection(s);
    assert fin.result.Ok?;
    assert Reset(fin.session) == Reset(s);
  }

  /** In data mode a line the session refuses is answered with the error
      and ends the transaction: no message is handed on. */
  lemma StepDataError(hostname: string, s: Session, line: string)
    requires s.inDataMode && line != [] && Trimmed(line) && line != "."
    requires AddDataLine(s, line).result.Err?
    ensures Step(hostname, s, line)
      == StepResult(Reset(s), Some(SendResponse(ReplyFor(AddDataLine(s, line).result.error))), None, false)
  {
    TrimOfTrimmed(line);
  }

  // ---------------------------------------------------------------------
  // Whole conversations

  /** A line that does not end the connection contributes its step and
      hands over to the rest. */
  lemma RunStep(hostname: string, s: Session, line: string, rest: seq<string>)
    requires !Step(hostname, s, line).close
    ensures Run(hostname, s, [line] + rest)
      == Then(StepTranscript(Step(hostname, s, line)), Run(hostname, Step(hostname, s, line).session, rest))
  {
    assert ([line] + rest)[0] == line;
    assert ([line] + rest)[1..] == rest;
  }

  /** A line answered with a reply and nothing else. */
  lemma RunThrough(hostname: string, s: Session, line: string, rest: seq<string>, next: Session, reply: string, t: Transcript)
    requires Step(hostname, s, line) == StepResult(next, Some(reply), None, false)
    requires Run(hostname, next, rest) == t
    ensures Run(hostname, s, [line] + rest) == Transcript(t.session, [reply] + t.replies, t.emails, t.closed)
  {
    RunStep(hostname, s, line, rest);
    assert [] + t.emails == t.emails;
  }

  /** QUIT ends the connection with 221: no later line is read. */
  lemma QuitEndsConnection(hostname: string, s: Session, w: string, rest: seq<string>)
    requires !s.inDataMode && VerbWord(w, Quit)
    ensures Run(hostname, s, [w] + rest) == Transcript(s, [ByeWire], [], true)
  {
    StepQuit(hostname, s, w);
    assert ([w] + rest)[0] == w;
  }

  /** The session after collecting `body` in data mode. */
  function Collected(s: Session, body: seq<string>): Session {
    s.(data := s.data + body, dataSize := AccountedSize(s.data + body))
  }

  /** In data mode, mail text lines as the driver collects them are
      collected silently, in order. */
  lemma {:induction false} RunCleanBody(hostname: string, s: Session, body: seq<string>)
    requires s.inDataMode && s.dataSize == AccountedSize(s.data)
    requires BodyLines(body) && AccountedSize(s.data + body) <= MaxDataSize
    ensures Run(hostname, s, body) == Transcript(Collected(s, body), [], [], false)
    decreases |body|
  {
    if body == [] {
      assert s.data + [] == s.data;
    } else {
      var line := body[0];
      var rest := body[1..];
      assert body == [line] + rest;
      BodyLinesTail(body);
      CollectOne(s, line, rest);
      var s1 := AddDataLine(s, line).session;
      StepBodyLine(hostname, s, line);
      RunCleanBody(hostname, s1, rest);
      RunSilent(hostname, s, line, rest, s1, Run(hostname, s1, rest));
    }
  }

  lemma BodyLinesTail(body: seq<string>)
    requires BodyLines(body) && body != []
    ensures body[0] != [] && Trimmed(body[0]) && body[0] != "." && |body[0]| + 2 <= TextLineMaxLength
    ensures BodyLines(body[1..])
  {
    var rest := body[1..];
    forall k | 0 <= k < |rest|
      ensures rest[k] != [] && Trimmed(rest[k]) && rest[k] != "." && |rest[k]| + 2 <= TextLineMaxLength
    {
      assert rest[k] == body[k + 1];
    }
  }

  /** Collecting one line of a body that fits the limits. */
  lemma CollectOne(s: Session, line: string, rest: seq<string>)
    requires s.inDataMode && s.dataSize == AccountedSize(s.data) && |line| + 2 <= TextLineMaxLength
    requires AccountedSize(s.data + ([line] + rest)) <= MaxDataSize
    ensures AddDataLine(s, line).result.Ok?
    ensures var s1 := AddDataLine(s, line).session;
      && s1.inDataMode && s1.dataSize == AccountedSize(s1.data)
      && AccountedSize(s1.data + rest) <= MaxDataSize
      && Collected(s1, rest) == Collected(s, [line] + rest)
  {
    assert s.data + ([line] + rest) == (s.data + [line]) + rest;
    AccountedSizeConcat(s.data + [line], rest);
    AccountedSizeAppend(s.data, line);
  }

  /** A line collected without a reply hands over to the rest. */
  lemma RunSilent(hostname: string, s: Session, line: string, rest: seq<string>, next: Session, t: Transcript)
    requires Step(hostname, s, line) == StepResult(next, None, None, false)
    requires Run(hostname, next, rest) == t
    ensures Run(hostname, s, [line] + rest) == t
  {
    RunStep(hostname, s, line, rest);
    ThenEmpty(next, t);
  }

  // ---------------------------------------------------------------------
  // Lines as they are read

  /** The lines the driver acts on: every line trimmed, the blank ones
      dropped. */
  function Clean(lines: seq<string>): (r: seq<string>)
    ensures |r| <= |lines|
    ensures forall k :: 0 <= k < |r| ==> r[k] != [] && Trimmed(r[k])
    decreases |lines|
  {
    if lines == [] then [] else CleanLine(lines[0]) + Clean(lines[1..])
  }

  /** One line as the driver acts on it: its trim, or nothing if blank. */
  function CleanLine(l: string): (r: seq<string>)
    ensures |r| <= 1
    ensures forall k :: 0 <= k < |r| ==> r[k] != [] && Trimmed(r[k])
  {
    var t := Trim(l);
    if t == [] then [] else [t]
  }

  /** Lines as read from the connection, each still ending in its CRLF. */
  function Terminated(lines: seq<string>): (r: seq<string>)
    ensures |r| == |lines|
    ensures forall k :: 0 <= k < |lines| ==> r[k] == lines[k] + CRLF
  {
    seq(|lines|, k requires 0 <= k < |lines| => lines[k] + CRLF)
  }

  /** The driver sees a line only through its trim. */
  lemma StepOfTrim(hostname: string, s: Session, raw: string)
    ensures Step(hostname, s, raw) == Step(hostname, s, Trim(raw))
  {
    var t := Trim(raw);
    assert Trim(t) == t by {
      TrimOfTrimmed(t);
    }
    SameTrimSameStep(hostname, s, raw, t);
  }

  lemma SameTrimSameStep(hostname: string, s: Session, a: string, b: string)
    requires Trim(a) == Trim(b)
    ensures Step(hostname, s, a) == Step(hostname, s, b)
  {
  }

  /** A connection runs exactly as the trimmed, non-blank lines it sends:
      padding and blank lines change nothing, in data mode or out of it. */
  lemma {:induction false} RunClean(hostname: string, s: Session, lines: seq<string>)
    ensures Run(hostname, s, lines) == Run(hostname, s, Clean(lines))
    decreases |lines|
  {
    if lines != [] {
      var t := Trim(lines[0]);
      var rest := Clean(lines[1..]);
      StepOfTrim(hostname, s, lines[0]);
      if t == [] {
        TrimEmptyIff(lines[0]);
        assert Clean(lines) == rest;
        ThenEmpty(s, Run(hostname, s, lines[1..]));
        RunClean(hostname, s, lines[1..]);
      } else {
        assert Clean(lines) == [t] + rest;
        assert ([t] + rest)[0] == t && ([t] + rest)[1..] == rest;
        var r := Step(hostname, s, t);
        if !r.close {
          RunClean(hostname, r.session, lines[1..]);
        }
      }
    }
  }

  lemma {:induction false} CleanAppend(a: seq<string>, b: seq<string>)
    ensures Clean(a + b) == Clean(a) + Clean(b)
    decreases |a|
  {
    if a == [] {
      assert a + b == b;
    } else {
      var h := CleanLine(a[0]);
      assert (a + b)[0] == a[0];
      assert (a + b)[1..] == a[1..] + b;
      CleanAppend(a[1..], b);
      assert Clean(a + b) == h + (Clean(a[1..]) + Clean(b));
    }
  }

  /** Lines that are already trimmed and non-blank are left as they are. */
  lemma {:induction false} CleanOfClean(lines: seq<string>)
    requires forall k :: 0 <= k < |lines| ==> lines[k] != [] && Trimmed(lines[k])
    ensures Clean(lines) == lines
    decreases |lines|
  {
    if lines != [] {
      var rest := lines[1..];
      assert Trimmed(lines[0]) && lines[0] != [];
      assert forall k :: 0 <= k < |rest| ==> rest[k] != [] && Trimmed(rest[k]) by {
        forall k | 0 <= k < |rest| ensures rest[k] != [] && Trimmed(rest[k]) {
          assert rest[k] == lines[k + 1];
        }
      }
      CleanOfClean(rest);
      CleanConsTrimmed(lines[0], rest);
      assert lines == [lines[0]] + rest;
    }
  }

  lemma CleanConsTrimmed(x: string, rest: seq<string>)
    requires x != [] && Trimmed(x)
    ensures Clean([x] + rest) == [x] + Clean(rest)
  {
    assert Trim(x) == x by {
      TrimOfTrimmed(x);
    }
    assert ([x] + rest)[0] == x && ([x] + rest)[1..] == rest;
  }

  lemma CleanIdempotent(lines: seq<string>)
    ensures Clean(Clean(lines)) == Clean(lines)
  {
    CleanOfClean(Clean(lines));
  }

  /** The CRLF a line is read with is trimmed away with the rest of its
      padding. */
  lemma TrimTerminated(l: string)
    ensures Trim(l + CRLF) == Trim(l)
  {
    var a, b := TrimSplit(l);
    assert AllWhitespace(CRLF) by {
      assert CRLF == ['\r', '\n'];
    }
    PaddedFurther(a, Trim(l), b, CRLF);
  }

  /** More padding after a padded trimmed line is trimmed away too. */
  lemma PaddedFurther(a: string, t: string, b: string, c: string)
    requires AllWhitespace(a) && AllWhitespace(b) && AllWhitespace(c) && Trimmed(t)
    ensures Trim(a + t + b + c) == Trim(a + t + b)
  {
    AllWhitespaceConcat(b, c);
    assert a + t + b + c == a + t + (b + c);
    TrimPadded(a, t, b + c);
    TrimPadded(a, t, b);
  }

  lemma {:induction false} CleanTerminated(lines: seq<string>)
    ensures Clean(Terminated(lines)) == Clean(lines)
    decreases |lines|
  {
    if lines != [] {
      var w := Terminated(lines);
      assert w[0] == lines[0] + CRLF;
      assert w[1..] == Terminated(lines[1..]);
      TrimTerminated(lines[0]);
      CleanTerminated(lines[1..]);
    }
  }

  /** A connection runs the same on the lines as read, each with its CRLF,
      as on the lines without it. */
  lemma RunTerminated(hostname: string, s: Session, lines: seq<string>)
    ensures Run(hostname, s, Terminated(lines)) == Run(hostname, s, lines)
  {
    RunClean(hostname, s, Terminated(lines));
    RunClean(hostname, s, lines);
    CleanTerminated(lines);
  }

  /** Mail text as a client may send it becomes, once cleaned, mail text as
      the driver collects it. */
  lemma {:induction false} TextLinesClean(text: seq<string>)
    requires TextLines(text)
    ensures BodyLines(Clean(text))
    decreases |text|
  {
    if text != [] {
      var t := Trim(text[0]);
      var head: seq<string> := if t == [] then [] else [t];
      var rest := text[1..];
      assert TextLines(rest) by {
        forall k | 0 <= k < |rest| ensures Trim(rest[k]) != "." && |Trim(rest[k])| + 2 <= TextLineMaxLength {
          assert rest[k] == text[k + 1];
        }
      }
      TextLinesClean(rest);
      assert Clean(text) == head + Clean(rest);
      assert BodyLines(head);
      BodyLinesAppend(head, Clean(rest));
    }
  }

  lemma BodyLinesAppend(a: seq<string>, b: seq<string>)
    requires BodyLines(a) && BodyLines(b)
    ensures BodyLines(a + b)
  {
    forall k | 0 <= k < |a + b|
      ensures (a + b)[k] != [] && Trimmed((a + b)[k]) && (a + b)[k] != "." && |(a + b)[k]| + 2 <= TextLineMaxLength
    {
      if k < |a| {
        assert (a + b)[k] == a[k];
      } else {
        assert (a + b)[k] == b[k - |a|];
      }
    }
  }

  /** In data mode, mail text lines as a client may send them are collected
      silently: blank lines are dropped, every other line is collected
      trimmed, in order. */
  lemma RunBody(hostname: string, s: Session, text: seq<string>)
    requires s.inDataMode && s.dataSize == AccountedSize(s.data)
    requires TextLines(text) && AccountedSize(s.data + Clean(text)) <= MaxDataSize
    ensures Run(hostname, s, text) == Transcript(Collected(s, Clean(text)), [], [], false)
    ensures Run(hostname, s, Terminated(text)) == Transcript(Collected(s, Clean(text)), [], [], false)
  {
    TextLinesClean(text);
    RunClean(hostname, s, text);
    RunCleanBody(hostname, s, Clean(text));
    RunTerminated(hostname, s, text);
  }

  /** `RCPT TO:<…>` for each mailbox, in order. */
  function RcptLines(ms: seq<Mailbox>): (r: seq<string>)
    ensures |r| == |ms|
    ensures forall k :: 0 <= k < |ms| ==> r[k] == RcptLine(ms[k])
    decreases |ms|
  {
    if ms == [] then [] else [RcptLine(ms[0])] + RcptLines(ms[1..])
  }

  /** The addresses of the mailboxes, in order. */
  function Addresses(ms: seq<Mailbox>): (r: seq<string>)
    ensures |r| == |ms|
    ensures forall k :: 0 <= k < |ms| ==> r[k] == AddressOf(ms[k])
    decreases |ms|
  {
    if ms == [] then [] else [AddressOf(ms[0])] + Addresses(ms[1..])
  }

  predicate GoodMailboxes(ms: seq<Mailbox>) {
    forall k :: 0 <= k < |ms| ==> GoodMailbox(ms[k])
  }

  /** `n` plain 250 replies. */
  function OkReplies(n: nat): (r: seq<string>)
    ensures |r| == n
    ensures forall k :: 0 <= k < n ==> r[k] == OkWire
  {
    if n == 0 then [] else [OkWire] + OkReplies(n - 1)
  }

  /** The session once RCPT has added each mailbox of `ms`, in order. */
  function WithRecipients(s: Session, ms: seq<Mailbox>): Session {
    if ms == [] then s else s.(to := s.to + Addresses(ms), state := RecipientsReceived)
  }

  /** RCPT for each mailbox in turn, within the recipient limit: each is
      answered 250 OK and appended to the recipients, and the rest of the
      connection carries on from the session that results. */
  lemma {:induction false} RunRcpts(hostname: string, s: Session, ms: seq<Mailbox>, rest: seq<string>, t: Transcript)
    requires !s.inDataMode && s.state in {MailReceived, RecipientsReceived}
    requires GoodMailboxes(ms) && |s.to| + |ms| <= MaxRecipients
    requires Run(hostname, WithRecipients(s, ms), rest) == t
    ensures Run(hostname, s, RcptLines(ms) + rest) == Transcript(t.session, OkReplies(|ms|) + t.replies, t.emails, t.closed)
    decreases |ms|
  {
    if ms == [] {
      assert RcptLines(ms) + rest == rest;
      assert OkReplies(0) + t.replies == t.replies;
    } else {
      var m := ms[0];
      var tail := ms[1..];
      var s1 := AddRecipient(s, AddressOf(m)).session;
      assert GoodMailbox(m) && GoodMailboxes(tail) by {
        GoodMailboxesTail(ms);
      }
      assert |AddressOf(m)| <= PathMaxLength by {
        GoodMailboxText(m);
      }
      assert !s1.inDataMode && s1.state == RecipientsReceived && |s1.to| == |s.to| + 1;
      assert Run(hostname, WithRecipients(s1, tail), rest) == t by {
        RecipientsAfterOne(s, ms);
      }
      RunRcpts(hostname, s1, tail, rest, t);
      assert Step(hostname, s, RcptLine(m)) == StepResult(s1, Some(OkWire), None, false) by {
        StepRcpt(hostname, s, m);
      }
      assert RcptLines(ms) + rest == [RcptLine(m)] + (RcptLines(tail) + rest) by {
        RcptLinesCons(ms);
        ConsAppend(RcptLine(m), RcptLines(tail), rest);
      }
      OkThen(hostname, s, RcptLine(m), RcptLines(tail), rest, s1, t, |tail|);
    }
  }

  lemma GoodMailboxesTail(ms: seq<Mailbox>)
    requires GoodMailboxes(ms) && ms != []
    ensures GoodMailbox(ms[0]) && GoodMailboxes(ms[1..])
  {
    var tail := ms[1..];
    forall k | 0 <= k < |tail| ensures GoodMailbox(tail[k]) {
      assert tail[k] == ms[k + 1];
    }
  }

  lemma RcptLinesCons(ms: seq<Mailbox>)
    requires ms != []
    ensures RcptLines(ms) == [RcptLine(ms[0])] + RcptLines(ms[1..])
  {
  }

  lemma ConsAppend<T>(x: T, xs: seq<T>, rest: seq<T>)
    ensures ([x] + xs) + rest == [x] + (xs + rest)
  {
  }

  /** A line answered 250 OK, followed by lines answered the same way. */
  lemma OkThen(hostname: string, s: Session, line: string, lines: seq<string>, rest: seq<string>, s1: Session, t: Transcript, n: nat)
    requires Step(hostname, s, line) == StepResult(s1, Some(OkWire), None, false)
    requires Run(hostname, s1, lines + rest) == Transcript(t.session, OkReplies(n) + t.replies, t.emails, t.closed)
    ensures Run(hostname, s, [line] + (lines + rest)) == Transcript(t.session, OkReplies(n + 1) + t.replies, t.emails, t.closed)
  {
    RunThrough(hostname, s, line, lines + rest, s1, OkWire,
      Transcript(t.session, OkReplies(n) + t.replies, t.emails, t.closed));
    OkRepliesCons(n, t.replies);
  }

  lemma OkRepliesCons(n: nat, tail: seq<string>)
    ensures [OkWire] + (OkReplies(n) + tail) == OkReplies(n + 1) + tail
  {
    assert OkReplies(n + 1) == [OkWire] + OkReplies(n);
  }

  /** Adding the first mailbox and then the others is adding them all. */
  lemma RecipientsAfterOne(s: Session, ms: seq<Mailbox>)
    requires ms != [] && s.state in {MailReceived, RecipientsReceived} && GoodMailbox(ms[0])
    requires |s.to| < MaxRecipients
    ensures WithRecipients(AddRecipient(s, AddressOf(ms[0])).session, ms[1..]) == WithRecipients(s, ms)
  {
    var x := AddressOf(ms[0]);
    assert |x| <= PathMaxLength by {
      GoodMailboxText(ms[0]);
    }
    var rest := ms[1..];
    var s1 := AddRecipient(s, x).session;
    assert s1 == s.(to := s.to + [x], state := RecipientsReceived);
    assert s.to + Addresses(ms) == s1.to + Addresses(rest) by {
      AddressesCons(ms);
      AppendAssoc(s.to, [x], Addresses(rest));
    }
    if rest == [] {
      assert s1.to + Addresses(rest) == s1.to;
    }
  }

  lemma AddressesCons(ms: seq<Mailbox>)
    requires ms != []
    ensures Addresses(ms) == [AddressOf(ms[0])] + Addresses(ms[1..])
  {
  }

  /** The lines of one mail transaction: MAIL, a RCPT for each recipient,
      DATA, the text and the end marker. */
  function TransactionLines(from: Mailbox, to: seq<Mailbox>, dataWord: string, body: seq<string>): seq<string> {
    [MailLine(from)] + (RcptLines(to) + ([dataWord] + (body + ["."])))
  }

  /** The replies to one transaction with `n` recipients: 250 for MAIL, 250
      for each RCPT, 354 for DATA and 250 for the end marker. */
  function TransactionReplies(n: nat): (r: seq<string>)
    ensures |r| == n + 3
  {
    [OkWire] + (OkReplies(n) + [DataWire, OkWire])
  }

  /** The message one transaction hands on. */
  function TransactionEmail(from: Mailbox, to: seq<Mailbox>, body: seq<string>): Email {
    Email(AddressOf(from), Addresses(to), Join(body, "\n"))
  }

  /** A transaction with one sender and between 1 and 100 recipients,
      started after HELO, gets 250 for MAIL, 250 for each RCPT, 354 and
      250, and hands on exactly one message to all the recipients in order,
      leaving the session as it was after HELO. The mail text may hold
      blank and padded lines, and the lines may be read with or without
      their CRLF: the message text is the trimmed non-blank text lines
      joined with newlines. */
  lemma Transaction(hostname: string, s: Session, from: Mailbox, to: seq<Mailbox>, dataWord: string, text: seq<string>)
    requires Valid(s) && s.state == GreetingReceived
    requires GoodMailbox(from) && GoodMailboxes(to) && 1 <= |to| <= MaxRecipients && VerbWord(dataWord, Data)
    requires TextLines(text) && AccountedSize(Clean(text)) <= MaxDataSize
    ensures Run(hostname, s, TransactionLines(from, to, dataWord, text))
      == Transcript(Reset(s), TransactionReplies(|to|), [TransactionEmail(from, to, Clean(text))], false)
    ensures Run(hostname, s, Terminated(TransactionLines(from, to, dataWord, text)))
      == Transcript(Reset(s), TransactionReplies(|to|), [TransactionEmail(from, to, Clean(text))], false)
  {
    var body := Clean(text);
    TextLinesClean(text);
    TransactionClean(hostname, s, from, to, dataWord, body);
    CleanTransactionLines(from, to, dataWord, text);
    RunClean(hostname, s, TransactionLines(from, to, dataWord, text));
    RunClean(hostname, s, TransactionLines(from, to, dataWord, body));
    RunTerminated(hostname, s, TransactionLines(from, to, dataWord, text));
  }

  /** Cleaning the lines of a transaction cleans its text. */
  lemma CleanTransactionLines(from: Mailbox, to: seq<Mailbox>, dataWord: string, text: seq<string>)
    ensures Clean(TransactionLines(from, to, dataWord, text)) == Clean(TransactionLines(from, to, dataWord, Clean(text)))
  {
    var head := [MailLine(from)] + (RcptLines(to) + [dataWord]);
    TransactionLinesShape(from, to, dataWord, text, head);
    TransactionLinesShape(from, to, dataWord, Clean(text), head);
    CleanInside(head, text, ["."]);
  }

  lemma TransactionLinesShape(from: Mailbox, to: seq<Mailbox>, dataWord: string, body: seq<string>, head: seq<string>)
    requires head == [MailLine(from)] + (RcptLines(to) + [dataWord])
    ensures TransactionLines(from, to, dataWord, body) == head + (body + ["."])
  {
  }

  /** Cleaning part of the lines first changes nothing. */
  lemma CleanInside(head: seq<string>, x: seq<string>, tail: seq<string>)
    ensures Clean(head + (x + tail)) == Clean(head + (Clean(x) + tail))
  {
    CleanAppend(head, x + tail);
    CleanAppend(x, tail);
    CleanAppend(head, Clean(x) + tail);
    CleanAppend(Clean(x), tail);
    CleanIdempotent(x);
  }

  /** `Transaction` on lines as the driver acts on them. */
  lemma TransactionClean(hostname: string, s: Session, from: Mailbox, to: seq<Mailbox>, dataWord: string, body: seq<string>)
    requires Valid(s) && s.state == GreetingReceived
    requires GoodMailbox(from) && GoodMailboxes(to) && 1 <= |to| <= MaxRecipients && VerbWord(dataWord, Data)
    requires BodyLines(body) && AccountedSize(body) <= MaxDataSize
    ensures Run(hostname, s, TransactionLines(from, to, dataWord, body))
      == Transcript(Reset(s), TransactionReplies(|to|), [TransactionEmail(from, to, body)], false)
  {
    var email := TransactionEmail(from, to, body);
    var s1 := SetSender(s, AddressOf(from)).session;
    StepMail(hostname, s, from);
    GoodMailboxText(from);
    var s2 := WithRecipients(s1, to);
    assert Reset(s2) == Reset(s);
    TransactionFromData(hostname, s2, from, to, dataWord, body, Reset(s));
    var tail := [dataWord] + (body + ["."]);
    RunRcpts(hostname, s1, to, tail, Transcript(Reset(s), [DataWire, OkWire], [email], false));
    RunThrough(hostname, s, MailLine(from), RcptLines(to) + tail, s1, OkWire,
      Transcript(Reset(s), OkReplies(|to|) + [DataWire, OkWire], [email], false));
  }

  /** From DATA on. */
  lemma TransactionFromData(hostname: string, s: Session, from: Mailbox, to: seq<Mailbox>, dataWord: string, body: seq<string>, home: Session)
    requires !s.inDataMode && s.state == RecipientsReceived && s.from == Some(AddressOf(from)) && s.to == Addresses(to)
    requires to != [] && VerbWord(dataWord, Data) && Reset(s) == home
    requires BodyLines(body) && AccountedSize(body) <= MaxDataSize
    ensures Run(hostname, s, [dataWord] + (body + ["."]))
      == Transcript(home, [DataWire, OkWire], [TransactionEmail(from, to, body)], false)
  {
    assert [DataWire] + [OkWire] == [DataWire, OkWire];
    var s3 := StartDataMode(s).session;
    StepData(hostname, s, dataWord);
    TransactionText(hostname, s3, from, to, body, home);
    RunThrough(hostname, s, dataWord, body + ["."], s3, DataWire,
      Transcript(home, [OkWire], [TransactionEmail(from, to, body)], false));
  }

  /** From the text on: the text is collected and the end marker hands it
      on. */
  lemma TransactionText(hostname: string, s: Session, from: Mailbox, to: seq<Mailbox>, body: seq<string>, home: Session)
    requires s.inDataMode && s.data == [] && s.dataSize == 0 && to != []
    requires s.from == Some(AddressOf(from)) && s.to == Addresses(to) && Reset(s) == home
    requires BodyLines(body) && AccountedSize(body) <= MaxDataSize
    ensures Run(hostname, s, body + ["."])
      == Transcript(home, [OkWire], [TransactionEmail(from, to, body)], false)
  {
    assert s.data + body == body;
    var s4 := Collected(s, body);
    assert s4.data == body && s4.from == s.from && s4.to == s.to;
    assert Reset(s4) == home;
    RunCleanBody(hostname, s, body);
    RunAppend(hostname, s, body, ["."]);
    var t2 := Run(hostname, s4, ["."]);
    DotRun(hostname, s4);
    ThenEmpty(s4, t2);
  }
  /** The end marker on its own. */
  lemma DotRun(hostname: string, s: Session)
    requires s.inDataMode && s.from.Some? && s.to != []
    ensures Run(hostname, s, ["."])
      == Transcript(Reset(s), [OkWire], [Email(s.from.value, s.to, Join(s.data, "\n"))], false)
  {
    var email := Email(s.from.value, s.to, Join(s.data, "\n"));
    assert ["."] + [] == ["."];
    assert [OkWire] + [] == [OkWire];
    assert [email] + [] == [email];
    StepDot(hostname, s);
    RunHandsOn(hostname, s, ".", [], Reset(s), OkWire, email, Transcript(Reset(s), [], [], false));
  }

  /** In data mode the end marker hands on the message, replies 250 and
      resets the session, keeping the client domain. */
  lemma StepDot(hostname: string, s: Session)
    requires s.inDataMode && s.from.Some? && s.to != []
    ensures Step(hostname, s, ".")
      == StepResult(Reset(s), Some(OkWire), Some(Email(s.from.value, s.to, Join(s.data, "\n"))), false)
  {
    DotIsTrimmed();
    StepInDataMode(hostname, s, ".");
    DataStepDot(s);
  }

  lemma DotIsTrimmed()
    ensures "." != [] && Trim(".") == "."
  {
    TrimOfTrimmed(".");
  }

  /** A line answered with a reply that also hands on a message. */
  lemma RunHandsOn(hostname: string, s: Session, line: string, rest: seq<string>, next: Session, reply: string, email: Email, t: Transcript)
    requires Step(hostname, s, line) == StepResult(next, Some(reply), Some(email), false)
    requires Run(hostname, next, rest) == t
    ensures Run(hostname, s, [line] + rest) == Transcript(t.session, [reply] + t.replies, [email] + t.emails, t.closed)
  {
    RunStep(hostname, s, line, rest);
  }

  /** A valid session right after HELO is its own reset. */
  lemma HomeIsReset(s: Session)
    requires Valid(s) && s.state == GreetingReceived
    ensures Reset(s) == s
  {
  }


  /** The mail of one transaction: a sender, the recipients and the text. */
  datatype Envelope = Envelope(from: Mailbox, to: seq<Mailbox>, body: seq<string>)

  predicate GoodEnvelope(e: Envelope) {
    && GoodMailbox(e.from) && GoodMailboxes(e.to) && 1 <= |e.to| <= MaxRecipients
    && TextLines(e.body) && AccountedSize(Clean(e.body)) <= MaxDataSize
  }

  function EnvelopeLines(e: Envelope, dataWord: string): seq<string> {
    TransactionLines(e.from, e.to, dataWord, e.body)
  }

  function EnvelopeEmail(e: Envelope): Email {
    TransactionEmail(e.from, e.to, Clean(e.body))
  }

  /** The lines of several transactions, one after the other. */
  function BatchLines(es: seq<Envelope>, dataWord: string): seq<string>
    decreases |es|
  {
    if es == [] then [] else EnvelopeLines(es[0], dataWord) + BatchLines(es[1..], dataWord)
  }

  /** The number of RCPT lines over several transactions. */
  function RecipientTotal(es: seq<Envelope>): nat
    decreases |es|
  {
    if es == [] then 0 else |es[0].to| + RecipientTotal(es[1..])
  }

  /** The replies to several transactions, in order. */
  function BatchReplies(es: seq<Envelope>): (r: seq<string>)
    ensures |r| == 3 * |es| + RecipientTotal(es)
    decreases |es|
  {
    if es == [] then [] else TransactionReplies(|es[0].to|) + BatchReplies(es[1..])
  }

  /** The messages of several transactions, in order. */
  function BatchEmails(es: seq<Envelope>): (r: seq<Email>)
    ensures |r| == |es|
    ensures forall k :: 0 <= k < |es| ==> r[k] == EnvelopeEmail(es[k])
    decreases |es|
  {
    if es == [] then [] else [EnvelopeEmail(es[0])] + BatchEmails(es[1..])
  }

  /** Transactions run back to back on one connection, each with its own
      sender and recipients, hand on one message each, in the order they
      were sent, and leave the session where it was after HELO. */
  lemma Batch(hostname: string, s: Session, es: seq<Envelope>, dataWord: string)
    requires Valid(s) && s.state == GreetingReceived && VerbWord(dataWord, Data)
    requires forall k :: 0 <= k < |es| ==> GoodEnvelope(es[k])
    ensures Run(hostname, s, BatchLines(es, dataWord)) == Transcript(s, BatchReplies(es), BatchEmails(es), false)
    ensures Run(hostname, s, Terminated(BatchLines(es, dataWord))) == Transcript(s, BatchReplies(es), BatchEmails(es), false)
  {
    BatchRun(hostname, s, es, dataWord);
    RunTerminated(hostname, s, BatchLines(es, dataWord));
  }

  lemma {:induction false} BatchRun(hostname: string, s: Session, es: seq<Envelope>, dataWord: string)
    requires Valid(s) && s.state == GreetingReceived && VerbWord(dataWord, Data)
    requires forall k :: 0 <= k < |es| ==> GoodEnvelope(es[k])
    ensures Run(hostname, s, BatchLines(es, dataWord)) == Transcript(s, BatchReplies(es), BatchEmails(es), false)
    decreases |es|
  {
    if es != [] {
      var e := es[0];
      var rest := es[1..];
      assert GoodEnvelope(e);
      assert forall k :: 0 <= k < |rest| ==> GoodEnvelope(rest[k]) by {
        forall k | 0 <= k < |rest| ensures GoodEnvelope(rest[k]) {
          assert rest[k] == es[k + 1];
        }
      }
      BatchThen(s, es);
      HomeIsReset(s);
      Transaction(hostname, s, e.from, e.to, dataWord, e.body);
      BatchRun(hostname, s, rest, dataWord);
      RunAppend(hostname, s, EnvelopeLines(e, dataWord), BatchLines(rest, dataWord));
    }
  }

  lemma BatchThen(s: Session, es: seq<Envelope>)
    requires es != []
    ensures Then(Transcript(s, TransactionReplies(|es[0].to|), [EnvelopeEmail(es[0])], false),
                 Transcript(s, BatchReplies(es[1..]), BatchEmails(es[1..]), false))
      == Transcript(s, BatchReplies(es), BatchEmails(es), false)
  {
  }

  /** RSET drops the transaction it interrupts: a sender and recipients
      given before RSET never reach a message, and the transaction after it
      goes through as if it had been the first. */
  lemma AbandonedSender(hostname: string, s: Session, dropped: Mailbox, rs: seq<Mailbox>, rsetWord: string, dataWord: string, e: Envelope)
    requires Valid(s) && s.state == GreetingReceived
    requires GoodMailbox(dropped) && GoodMailboxes(rs) && |rs| <= MaxRecipients
    requires VerbWord(rsetWord, Rset) && VerbWord(dataWord, Data) && GoodEnvelope(e)
    ensures Run(hostname, s, [MailLine(dropped)] + (RcptLines(rs) + ([rsetWord] + EnvelopeLines(e, dataWord))))
      == Transcript(s, [OkWire] + (OkReplies(|rs|) + ([OkWire] + TransactionReplies(|e.to|))), [EnvelopeEmail(e)], false)
    ensures Run(hostname, s, Terminated([MailLine(dropped)] + (RcptLines(rs) + ([rsetWord] + EnvelopeLines(e, dataWord)))))
      == Run(hostname, s, [MailLine(dropped)] + (RcptLines(rs) + ([rsetWord] + EnvelopeLines(e, dataWord))))
  {
    RunTerminated(hostname, s, [MailLine(dropped)] + (RcptLines(rs) + ([rsetWord] + EnvelopeLines(e, dataWord))));
    var tx := EnvelopeLines(e, dataWord);
    var s1 := SetSender(s, AddressOf(dropped)).session;
    GoodMailboxText(dropped);
    StepMail(hostname, s, dropped);
    var s2 := WithRecipients(s1, rs);
    StepRset(hostname, s2, rsetWord);
    HomeIsReset(s);
    assert Reset(s2) == s;
    Transaction(hostname, s, e.from, e.to, dataWord, e.body);
    var t := Transcript(s, TransactionReplies(|e.to|), [EnvelopeEmail(e)], false);
    RunThrough(hostname, s2, rsetWord, tx, s, OkWire, t);
    var t1 := Transcript(s, [OkWire] + TransactionReplies(|e.to|), [EnvelopeEmail(e)], false);
    RunRcpts(hostname, s1, rs, [rsetWord] + tx, t1);
    RunThrough(hostname, s, MailLine(dropped), RcptLines(rs) + ([rsetWord] + tx), s1, OkWire,
      Transcript(s, OkReplies(|rs|) + t1.replies, [EnvelopeEmail(e)], false));
  }
  /** MAIL before HELO is refused with 503 and changes nothing. */
  lemma MailBeforeHelo(hostname: string, s: Session, m: Mailbox)
    requires !s.inDataMode && s.state == Initial && GoodMailbox(m)
    ensures Step(hostname, s, MailLine(m))
      == StepResult(s, Some(OutOfSequenceWire("MAIL command requires HELO first")), None, false)
  {
    MailRefused(hostname, s, m);
    StepCommandError(hostname, s, MailLine(m));
    ErrorSent("MAIL command requires HELO first");
  }

  lemma MailRefused(hostname: string, s: Session, m: Mailbox)
    requires s.state == Initial && GoodMailbox(m)
    ensures MailLine(m) != [] && Trim(MailLine(m)) == MailLine(m)
    ensures ProcessCommand(hostname, MailLine(m), s) == Outcome(s, Err(InvalidState("MAIL command requires HELO first")))
  {
    var arg := PathText(FromPath, AddressOf(m));
    PathWord(FromPath, m);
    GoodMailboxText(m);
    TwoWordCommand(hostname, s, Mail, arg);
    DispatchMail(hostname, [VerbName(Mail), arg], s);
  }

  /** The wire form of a 503 reply. */
  function OutOfSequenceWire(msg: string): string {
    "503 " + ("Bad sequence of commands: " + msg) + "\r\n"
  }

  /** An InvalidState error is sent as `503 Bad sequence of commands:
      <detail>` when that fits a reply line, and otherwise as the truncated
      line with code 503. */
  lemma ErrorSent(msg: string)
    ensures |msg| + 32 <= ReplyLineMaxLength ==>
      SendResponse(ReplyFor(InvalidState(msg))) == OutOfSequenceWire(msg)
    ensures |msg| + 32 > ReplyLineMaxLength ==>
      SendResponse(ReplyFor(InvalidState(msg))) == TruncatedWire("503")
  {
    var text := "Bad sequence of commands: " + msg;
    assert ReplyFor(InvalidState(msg)) == Responses.New("503", text);
    OutOfSequenceFormat(text);
    assert |OutOfSequenceWire(msg)| == |msg| + 32;
  }

  lemma OutOfSequenceFormat(text: string)
    ensures Format(Responses.New("503", text)) == "503 " + text + "\r\n"
  {
    FormatSingleLineRoundTrip("503", text);
  }

  /** The wire form of the reply to `HELO domain`. */
  function HeloWire(hostname: string, domain: string): string {
    "250 " + hostname + " Hello " + domain + "\r\n"
  }

  /** What the client reads after a successful HELO: the reply when it fits
      a reply line, otherwise the truncated line with code 250. */
  function HeloAnswer(hostname: string, domain: string): string {
    if |hostname| + |domain| + 13 <= ReplyLineMaxLength then HeloWire(hostname, domain) else TruncatedWire("250")
  }

  /** A whole connection: the greeting, HELO, one transaction and QUIT.
      The client sees 220, 250, the four replies of the transaction and
      221, exactly one message is handed on, and whatever the client
      sends after QUIT is never read. */
  lemma Conversation(hostname: string, domain: string, e: Envelope, dataWord: string, quitWord: string, after: seq<string>)
    requires domain != [] && NoWhitespace(domain) && |domain| <= DomainMaxLength
    requires VerbWord(dataWord, Data) && VerbWord(quitWord, Quit) && GoodEnvelope(e)
    ensures var t := Serve(hostname, [HeloLine(domain)] + (EnvelopeLines(e, dataWord) + ([quitWord] + after)));
      && t.replies == ["220 Welcome to MogiMail\r\n", HeloAnswer(hostname, domain)] + TransactionReplies(|e.to|) + [ByeWire]
      && t.emails == [EnvelopeEmail(e)]
      && t.closed
      && t.session == SetClientDomain(Sessions.New(), domain).session
    ensures var lines := [HeloLine(domain)] + (EnvelopeLines(e, dataWord) + ([quitWord] + after));
      Serve(hostname, Terminated(lines)) == Serve(hostname, lines)
  {
    ServeTerminated(hostname, [HeloLine(domain)] + (EnvelopeLines(e, dataWord) + ([quitWord] + after)));
    var helo := HeloAnswer(hostname, domain);
    TwoInFront("220 Welcome to MogiMail\r\n", helo, TransactionReplies(|e.to|), [ByeWire]);
    ConversationRun(hostname, domain, e, dataWord, quitWord, after);
    FixedRepliesOnTheWire();
  }

  lemma TwoInFront<T>(x: T, y: T, xs: seq<T>, ys: seq<T>)
    ensures [x] + ([y] + xs + ys) == [x, y] + xs + ys
  {
  }

  /** A connection serves the same on the lines as read, each with its
      CRLF, as on the lines without it. */
  lemma ServeTerminated(hostname: string, lines: seq<string>)
    ensures Serve(hostname, Terminated(lines)) == Serve(hostname, lines)
  {
    RunTerminated(hostname, Sessions.New(), lines);
  }

  /** The connection after the greeting. */
  lemma ConversationRun(hostname: string, domain: string, e: Envelope, dataWord: string, quitWord: string, after: seq<string>)
    requires domain != [] && NoWhitespace(domain) && |domain| <= DomainMaxLength
    requires VerbWord(dataWord, Data) && VerbWord(quitWord, Quit) && GoodEnvelope(e)
    ensures Run(hostname, Sessions.New(), [HeloLine(domain)] + (EnvelopeLines(e, dataWord) + ([quitWord] + after)))
      == Transcript(SetClientDomain(Sessions.New(), domain).session,
           [HeloAnswer(hostname, domain)] + TransactionReplies(|e.to|) + [ByeWire], [EnvelopeEmail(e)], true)
  {
    var home := SetClientDomain(Sessions.New(), domain).session;
    var tx := EnvelopeLines(e, dataWord);
    assert [HeloAnswer(hostname, domain)] + (TransactionReplies(|e.to|) + [ByeWire])
      == [HeloAnswer(hostname, domain)] + TransactionReplies(|e.to|) + [ByeWire];
    ConversationTail(hostname, home, e, dataWord, quitWord, after);
    StepHelo(hostname, Sessions.New(), domain);
    RunThrough(hostname, Sessions.New(), HeloLine(domain), tx + ([quitWord] + after), home, HeloAnswer(hostname, domain),
      Transcript(home, TransactionReplies(|e.to|) + [ByeWire], [EnvelopeEmail(e)], true));
  }

  /** After HELO: the transaction, then QUIT. */
  lemma ConversationTail(hostname: string, home: Session, e: Envelope, dataWord: string, quitWord: string, after: seq<string>)
    requires Valid(home) && home.state == GreetingReceived
    requires VerbWord(dataWord, Data) && VerbWord(quitWord, Quit) && GoodEnvelope(e)
    ensures Run(hostname, home, EnvelopeLines(e, dataWord) + ([quitWord] + after))
      == Transcript(home, TransactionReplies(|e.to|) + [ByeWire], [EnvelopeEmail(e)], true)
  {
    HomeIsReset(home);
    Transaction(hostname, home, e.from, e.to, dataWord, e.body);
    QuitEndsConnection(hostname, home, quitWord, after);
    RunAppend(hostname, home, EnvelopeLines(e, dataWord), [quitWord] + after);
  }
}
