/** The command dispatcher: one command line, checked for length, split
    into words, matched on its verb and handed to the handler of that verb.
    Every check comes before the one mutating call, and every mutator checks
    before it writes, so a failed command leaves the session as it was. */
module Commands {
  import opened Wrappers
  import opened Text
  import opened Errors
  import opened Responses
  import opened Sessions

  // ---------------------------------------------------------------------
  // Addresses

  /** The address check: split at the first `@`; the local part is checked
      for length, then the domain, then both for being non-empty. A second
      `@` is left in the domain. */
  function ValidateEmailAddress(addr: string): (r: Result<()>)
    ensures '@' !in addr ==> r == Err(InvalidSyntax("Email address must contain @ symbol"))
    ensures r.Ok? ==> 3 <= |addr| <= UserMaxLength + 1 + DomainMaxLength
    ensures r.Err? ==> r.error.InvalidSyntax? || r.error.UserTooLong? || r.error.DomainTooLong?
  {
    match Find(addr, '@')
    case None => Err(InvalidSyntax("Email address must contain @ symbol"))
    case Some(at) =>
      var user := addr[..at];
      var domain := addr[at + 1..];
      if |user| > UserMaxLength then Err(UserTooLong(UserMaxLength))
      else if |domain| > DomainMaxLength then Err(DomainTooLong(DomainMaxLength))
      else if user == [] || domain == [] then Err(InvalidSyntax("Invalid email address format"))
      else Ok(())
  }

  /** The verdict on `user@domain` when `user` holds no `@`, in terms of the
      two parts: the local part's length is checked first, then the
      domain's, then neither may be empty. */
  lemma ValidateParts(user: string, domain: string)
    requires '@' !in user
    ensures ValidateEmailAddress(user + "@" + domain) ==
      if |user| > UserMaxLength then Err(UserTooLong(UserMaxLength))
      else if |domain| > DomainMaxLength then Err(DomainTooLong(DomainMaxLength))
      else if user == [] || domain == [] then Err(InvalidSyntax("Invalid email address format"))
      else Ok(())
  {
    var addr := user + "@" + domain;
    FindAfter(user, '@', "@" + domain);
    assert addr == user + ("@" + domain);
    assert addr[..|user|] == user;
    assert addr[|user| + 1..] == domain;
  }

  /** Every address with an `@` is `user@domain` with the first `@` as the
      separator, so `ValidateParts` decides every such address. */
  lemma SplitAtFirstAt(addr: string)
    requires '@' in addr
    ensures var at := Find(addr, '@').value;
      addr == addr[..at] + "@" + addr[at + 1..] && '@' !in addr[..at]
  {
  }

  // ---------------------------------------------------------------------
  // FROM:<path> and TO:<path>

  datatype PathKind = FromPath | ToPath

  /** The keyword that opens the argument, in upper case. */
  function Keyword(k: PathKind): (kw: string)
    ensures IsUpper(kw) && kw != []
  {
    match k
    case FromPath => "FROM:"
    case ToPath => "TO:"
  }

  function FormMessage(k: PathKind): string {
    match k
    case FromPath => "MAIL command must be 'MAIL FROM:<address>'"
    case ToPath => "RCPT command must be 'RCPT TO:<address>'"
  }

  function Label(k: PathKind): string {
    match k
    case FromPath => "FROM"
    case ToPath => "TO"
  }

  /** The path of a MAIL or RCPT argument: the keyword in any case, then,
      once surrounding whitespace is trimmed, a non-empty text in angle
      brackets, returned verbatim. */
  function PathArgument(arg: string, k: PathKind): (r: Result<string>)
    ensures r.Ok? ==>
      && StartsWith(ToUpper(arg), Keyword(k))
      && Trim(arg[|Keyword(k)|..]) == "<" + r.value + ">"
      && r.value != []
    ensures !StartsWith(ToUpper(arg), Keyword(k)) ==> r == Err(InvalidSyntax(FormMessage(k)))
    ensures r.Err? ==> r.error.InvalidSyntax?
  {
    var kw := Keyword(k);
    if !StartsWith(ToUpper(arg), kw) then Err(InvalidSyntax(FormMessage(k)))
    else
      var path := Trim(arg[|kw|..]);
      if !StartsWith(path, "<") || !EndsWith(path, ">") then
        Err(InvalidSyntax(Label(k) + " address must be enclosed in angle brackets"))
      else
        Bracketed(path);
        var addr := path[1..|path| - 1];
        if addr == [] then Err(InvalidSyntax(Label(k) + " address cannot be empty"))
        else Ok(addr)
  }

  lemma Bracketed(path: string)
    requires StartsWith(path, "<") && EndsWith(path, ">")
    ensures |path| >= 2 && path == "<" + path[1..|path| - 1] + ">"
  {
    assert path[0] == '<' && path[|path| - 1] == '>';
  }

  /** Reading back a well-formed argument: the keyword in any case, any
      whitespace, the address in angle brackets and any whitespace again
      give exactly that address. */
  lemma PathArgumentOf(k: PathKind, keyword: string, a: string, addr: string, b: string)
    requires ToUpper(keyword) == Keyword(k)
    requires AllWhitespace(a) && AllWhitespace(b) && addr != []
    ensures PathArgument(keyword + a + "<" + addr + ">" + b, k) == Ok(addr)
  {
    var p := "<" + addr + ">";
    var rest := a + p + b;
    assert keyword + a + "<" + addr + ">" + b == keyword + rest;
    KeywordPrefix(keyword, rest, Keyword(k));
    BracketedOf(addr);
    TrimPadded(a, p, b);
  }

  /** The plain form `keyword<address>`, with no whitespace. */
  lemma PathArgumentOfKeyword(k: PathKind, addr: string)
    requires addr != []
    ensures PathArgument(Keyword(k) + "<" + addr + ">", k) == Ok(addr)
  {
    var kw := Keyword(k);
    ToUpperOfUpper(kw);
    var e: string := [];
    assert kw + e + "<" + addr + ">" + e == kw + "<" + addr + ">";
    PathArgumentOf(k, kw, e, addr, e);
  }

  lemma KeywordPrefix(keyword: string, rest: string, kw: string)
    requires ToUpper(keyword) == kw
    ensures StartsWith(ToUpper(keyword + rest), kw)
    ensures (keyword + rest)[|kw|..] == rest
  {
    ToUpperAppend(keyword, rest);
    assert ToUpper(keyword + rest)[..|kw|] == kw;
  }

  lemma BracketedOf(addr: string)
    ensures var p := "<" + addr + ">";
      Trimmed(p) && StartsWith(p, "<") && EndsWith(p, ">") && p[1..|p| - 1] == addr
  {
    var p := "<" + addr + ">";
    assert p[0] == '<' && p[|p| - 1] == '>';
    assert p[..1] == "<" && p[|p| - 1..] == ">";
  }

  // ---------------------------------------------------------------------
  // Handlers

  /** HELO: the first argument becomes the client domain, later ones are
      ignored. */
  function HandleHelo(hostname: string, parts: seq<string>, s: Session): (o: Outcome<Response>)
    ensures |parts| < 2 ==> o == Outcome(s, Err(InvalidSyntax("HELO requires domain argument")))
    ensures |parts| >= 2 ==>
      (o.result.Ok? <==> |parts[1]| <= DomainMaxLength)
    ensures |parts| >= 2 && |parts[1]| > DomainMaxLength ==>
      o == Outcome(s, Err(DomainTooLong(DomainMaxLength)))
    ensures o.result.Ok? ==>
      && o.result.value == HeloReply(hostname, parts[1])
      && o.session == Reset(s.(clientDomain := Some(parts[1])))
    ensures o.result.Err? ==> o.session == s
    ensures Valid(s) ==> Valid(o.session)
  {
    if |parts| < 2 then Outcome(s, Err(InvalidSyntax("HELO requires domain argument")))
    else
      var domain := parts[1];
      var o := SetClientDomain(s, domain);
      match o.result
      case Err(e) => Outcome(s, Err(e))
      case Ok(_) => Outcome(o.session, Ok(HeloReply(hostname, domain)))
  }

  /** MAIL: opens a transaction with the given sender, in this order of
      checks: the state, an argument, the `FROM:` form, the address. */
  function HandleMail(parts: seq<string>, s: Session): (o: Outcome<Response>)
    ensures !CanExecute(s.state, Mail) ==>
      o == Outcome(s, Err(InvalidState("MAIL command requires HELO first")))
    ensures CanExecute(s.state, Mail) && |parts| < 2 ==>
      o == Outcome(s, Err(InvalidSyntax("MAIL requires FROM argument")))
    ensures o.result.Ok? ==>
      && |parts| >= 2
      && PathArgument(Join(parts[1..], " "), FromPath).Ok?
      && var addr := PathArgument(Join(parts[1..], " "), FromPath).value;
      && ValidateEmailAddress(addr).Ok?
      && o.session == SetSender(s, addr).session
      && o.result.value == OkReply()
    ensures CanExecute(s.state, Mail) && |parts| >= 2 ==>
      var path := PathArgument(Join(parts[1..], " "), FromPath);
      && (path.Err? ==> o == Outcome(s, Err(path.error)))
      && (path.Ok? && ValidateEmailAddress(path.value).Err? ==>
            o == Outcome(s, Err(ValidateEmailAddress(path.value).error)))
      && (path.Ok? && ValidateEmailAddress(path.value).Ok? ==> o.result.Ok?)
    ensures o.result.Err? ==> o.session == s && !o.result.error.PathTooLong?
    ensures Valid(s) ==> Valid(o.session)
  {
    if !CanExecute(s.state, Mail) then Outcome(s, Err(InvalidState("MAIL command requires HELO first")))
    else if |parts| < 2 then Outcome(s, Err(InvalidSyntax("MAIL requires FROM argument")))
    else
      match PathArgument(Join(parts[1..], " "), FromPath)
      case Err(e) => Outcome(s, Err(e))
      case Ok(addr) => AcceptSender(addr, s)
  }

  /** The checks of MAIL once the address is read off the argument: its
      form, then the session's own checks. */
  function AcceptSender(addr: string, s: Session): (o: Outcome<Response>)
    ensures o.result.Ok? ==>
      && ValidateEmailAddress(addr).Ok?
      && o.session == SetSender(s, addr).session
      && o.result.value == OkReply()
    ensures o.result.Ok? <==> ValidateEmailAddress(addr).Ok?
    ensures ValidateEmailAddress(addr).Err? ==> o == Outcome(s, Err(ValidateEmailAddress(addr).error))
    ensures o.result.Err? ==> o.session == s && !o.result.error.PathTooLong?
    ensures Valid(s) && CanExecute(s.state, Mail) ==> Valid(o.session)
  {
    match ValidateEmailAddress(addr)
    case Err(e) => Outcome(s, Err(e))
    case Ok(_) =>
      var o := SetSender(s, addr);
      match o.result
      case Err(e) => Outcome(s, Err(e))
      case Ok(_) => Outcome(o.session, Ok(OkReply()))
  }

  /** RCPT: adds a recipient, with the same order of checks as MAIL. */
  function HandleRcpt(parts: seq<string>, s: Session): (o: Outcome<Response>)
    ensures !CanExecute(s.state, Rcpt) ==>
      o == Outcome(s, Err(InvalidState("RCPT command requires MAIL first")))
    ensures CanExecute(s.state, Rcpt) && |parts| < 2 ==>
      o == Outcome(s, Err(InvalidSyntax("RCPT requires TO argument")))
    ensures o.result.Ok? ==>
      && |parts| >= 2
      && PathArgument(Join(parts[1..], " "), ToPath).Ok?
      && var addr := PathArgument(Join(parts[1..], " "), ToPath).value;
      && ValidateEmailAddress(addr).Ok?
      && o.session == AddRecipient(s, addr).session
      && o.session.to == s.to + [addr]
      && o.result.value == OkReply()
    ensures CanExecute(s.state, Rcpt) && |parts| >= 2 ==>
      var path := PathArgument(Join(parts[1..], " "), ToPath);
      && (path.Err? ==> o == Outcome(s, Err(path.error)))
      && (path.Ok? && ValidateEmailAddress(path.value).Err? ==>
            o == Outcome(s, Err(ValidateEmailAddress(path.value).error)))
      && (path.Ok? && ValidateEmailAddress(path.value).Ok? && |s.to| >= MaxRecipients ==>
            o == Outcome(s, Err(TooManyRecipients(MaxRecipients))))
      && (path.Ok? && ValidateEmailAddress(path.value).Ok? && |s.to| < MaxRecipients ==> o.result.Ok?)
    ensures o.result.Err? ==> o.session == s && !o.result.error.PathTooLong?
    ensures Valid(s) ==> Valid(o.session)
  {
    if !CanExecute(s.state, Rcpt) then Outcome(s, Err(InvalidState("RCPT command requires MAIL first")))
    else if |parts| < 2 then Outcome(s, Err(InvalidSyntax("RCPT requires TO argument")))
    else
      match PathArgument(Join(parts[1..], " "), ToPath)
      case Err(e) => Outcome(s, Err(e))
      case Ok(addr) => AcceptRecipient(addr, s)
  }

  /** The checks of RCPT once the address is read off the argument: its
      form, then the session's own checks. */
  function AcceptRecipient(addr: string, s: Session): (o: Outcome<Response>)
    ensures o.result.Ok? ==>
      && ValidateEmailAddress(addr).Ok?
      && o.session == AddRecipient(s, addr).session
      && o.session.to == s.to + [addr]
      && o.result.value == OkReply()
    ensures o.result.Ok? <==> ValidateEmailAddress(addr).Ok? && |s.to| < MaxRecipients
    ensures ValidateEmailAddress(addr).Err? ==> o == Outcome(s, Err(ValidateEmailAddress(addr).error))
    ensures ValidateEmailAddress(addr).Ok? && |s.to| >= MaxRecipients ==>
      o == Outcome(s, Err(TooManyRecipients(MaxRecipients)))
    ensures o.result.Err? ==> o.session == s && !o.result.error.PathTooLong?
    ensures Valid(s) && CanExecute(s.state, Rcpt) ==> Valid(o.session)
  {
    match ValidateEmailAddress(addr)
    case Err(e) => Outcome(s, Err(e))
    case Ok(_) =>
      var o := AddRecipient(s, addr);
      match o.result
      case Err(e) => Outcome(s, Err(e))
      case Ok(_) => Outcome(o.session, Ok(OkReply()))
  }

  /** DATA: enters data mode; takes no argument. */
  function HandleData(parts: seq<string>, s: Session): (o: Outcome<Response>)
    ensures o.result.Ok? <==> s.state == RecipientsReceived && |parts| <= 1
    ensures s.state != RecipientsReceived ==>
      o == Outcome(s, Err(InvalidState("DATA command requires RCPT first")))
    ensures s.state == RecipientsReceived && |parts| > 1 ==>
      o == Outcome(s, Err(InvalidSyntax("DATA command takes no arguments")))
    ensures o.result.Ok? ==>
      o.result.value == DataStart() && o.session.inDataMode && o.session.state == DataMode
      && o.session == StartDataMode(s).session
    ensures Valid(s) ==> Valid(o.session)
  {
    if !CanExecute(s.state, Data) then Outcome(s, Err(InvalidState("DATA command requires RCPT first")))
    else if |parts| > 1 then Outcome(s, Err(InvalidSyntax("DATA command takes no arguments")))
    else
      var o := StartDataMode(s);
      match o.result
      case Err(e) => Outcome(s, Err(e))
      case Ok(_) => Outcome(o.session, Ok(DataStart()))
  }

  /** RSET: drops the transaction once HELO has been seen. */
  function HandleRset(s: Session): (o: Outcome<Response>)
    ensures o.result.Ok? <==> s.state != Initial
    ensures o.result.Err? ==> o == Outcome(s, Err(InvalidState("RSET command requires HELO first")))
    ensures o.result.Ok? ==> o.session == Reset(s) && o.result.value == OkReply()
    ensures Valid(s) ==> Valid(o.session)
  {
    if !CanExecute(s.state, Rset) then Outcome(s, Err(InvalidState("RSET command requires HELO first")))
    else Outcome(Reset(s), Ok(OkReply()))
  }

  function HandleNoop(s: Session): (o: Outcome<Response>)
    ensures o == Outcome(s, Ok(OkReply()))
  {
    Outcome(s, Ok(OkReply()))
  }

  function HandleQuit(s: Session): (o: Outcome<Response>)
    ensures o == Outcome(s, Ok(QuitReply()))
  {
    Outcome(s, Ok(QuitReply()))
  }

  // ---------------------------------------------------------------------
  // The dispatcher

  /** The handler of a verb; every handler leaves the session alone when
      it fails. */
  function Dispatch(hostname: string, v: Verb, parts: seq<string>, s: Session): (o: Outcome<Response>)
    ensures o.result.Err? ==> o.session == s
    ensures Valid(s) ==> Valid(o.session)
  {
    match v
    case Helo => HandleHelo(hostname, parts, s)
    case Mail => HandleMail(parts, s)
    case Rcpt => HandleRcpt(parts, s)
    case Data => HandleData(parts, s)
    case Rset => HandleRset(s)
    case Noop => HandleNoop(s)
    case Quit => HandleQuit(s)
  }

  /** One command line: too long a line and a line without a recognised
      verb fail before anything else is looked at, and a failing command
      leaves the session as it was. */
  function ProcessCommand(hostname: string, line: string, s: Session): (o: Outcome<Response>)
    ensures |line| > CommandLineMaxLength ==> o == Outcome(s, Err(LineTooLong(CommandLineMaxLength)))
    ensures |line| <= CommandLineMaxLength && AllWhitespace(line) ==> o == Outcome(s, Err(InvalidCommand))
    ensures |line| <= CommandLineMaxLength && SplitWhitespace(line) != [] && ParseVerb(SplitWhitespace(line)[0]).None? ==>
      o == Outcome(s, Err(InvalidCommand))
    ensures o.result.Err? ==> o.session == s
    ensures Valid(s) ==> Valid(o.session)
  {
    if |line| > CommandLineMaxLength then Outcome(s, Err(LineTooLong(CommandLineMaxLength)))
    else
      var parts := SplitWhitespace(line);
      SplitWhitespaceEmptyIff(line);
      if parts == [] then Outcome(s, Err(InvalidCommand))
      else
        match ParseVerb(parts[0])
        case None => Outcome(s, Err(InvalidCommand))
        case Some(v) => Dispatch(hostname, v, parts, s)
  }

  /** A command line made of words separated by single spaces is dispatched
      on those words. */
  lemma ProcessWords(hostname: string, words: seq<string>, s: Session, v: Verb)
    requires forall i :: 0 <= i < |words| ==> words[i] != [] && NoWhitespace(words[i])
    requires |Join(words, " ")| <= CommandLineMaxLength
    requires words != [] && ToUpper(words[0]) == VerbName(v)
    ensures ProcessCommand(hostname, Join(words, " "), s) == Dispatch(hostname, v, words, s)
  {
    SplitJoinSpaces(words);
    ParseVerbName(v, words[0]);
  }

  /** The reply of a successful command: 250 for everything but DATA (354)
      and QUIT (221), which never ends a session elsewhere. */
  lemma ProcessCommandReplies(hostname: string, line: string, s: Session)
    requires ProcessCommand(hostname, line, s).result.Ok?
    ensures var r := ProcessCommand(hostname, line, s).result.value;
      && r.multiline.None?
      && r.code in {"250", "354", "221"}
      && (r.code == "221" <==> ParseVerb(SplitWhitespace(line)[0]) == Some(Quit))
      && (r.code == "354" <==> ParseVerb(SplitWhitespace(line)[0]) == Some(Data))
  {
  }

  /** A command word is admitted by the state gate exactly when its verb
      is, in whatever case it is written. */
  lemma CanExecuteCommandOfName(s: Session, word: string, v: Verb)
    requires ToUpper(word) == VerbName(v)
    ensures CanExecuteCommand(s, word) <==> CanExecute(s.state, v)
  {
    ParseVerbName(v, word);
  }
}
