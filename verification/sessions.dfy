/** The state of one SMTP session and its guarded mutators. A mutator that
    fails leaves the session as it was; one that succeeds changes exactly
    the fields listed in its contract. */
module Sessions {
  import opened Wrappers
  import opened Text
  import opened Errors
  import opened Emails

  datatype State = Initial | GreetingReceived | MailReceived | RecipientsReceived | DataMode

  /** `dataSize` counts each collected line with its CRLF. */
  datatype Session = Session(
    state: State,
    from: Option<string>,
    to: seq<string>,
    data: seq<string>,
    inDataMode: bool,
    dataSize: nat,
    clientDomain: Option<string>)

  /** The session after a mutating call, together with what the call
      returned. */
  datatype Outcome<T> = Outcome(session: Session, result: Result<T>)

  function New(): (r: Session)
    ensures r.state == Initial && EmptyTransaction(r) && r.clientDomain.None?
    ensures Valid(r)
  {
    Session(Initial, None, [], [], false, 0, None)
  }

  /** The transaction fields of the session: everything but the state and
      the client domain. */
  predicate EmptyTransaction(s: Session) {
    s.from.None? && s.to == [] && s.data == [] && !s.inDataMode && s.dataSize == 0
  }

  /** Back to the state after HELO: the transaction is dropped, the client
      domain is kept. */
  function Reset(s: Session): (r: Session)
    ensures r.state == GreetingReceived && EmptyTransaction(r)
    ensures r.clientDomain == s.clientDomain
    ensures s.clientDomain.Some? && |s.clientDomain.value| <= DomainMaxLength ==> Valid(r)
  {
    Session(GreetingReceived, None, [], [], false, 0, s.clientDomain)
  }

  /** Back to the state of a fresh session. */
  function FullReset(s: Session): (r: Session)
    ensures r == New()
  {
    Session(Initial, None, [], [], false, 0, None)
  }

  /** Two sessions reset to the same session exactly when they have the same
      client domain, and resetting twice is resetting once. */
  lemma ResetKeepsOnlyDomain(s: Session, t: Session)
    ensures Reset(s) == Reset(t) <==> s.clientDomain == t.clientDomain
    ensures Reset(Reset(s)) == Reset(s)
  {
  }

  /** MAIL FROM: a new transaction with this sender. */
  function SetSender(s: Session, sender: string): (o: Outcome<()>)
    ensures o.result.Err? <==> |sender| > PathMaxLength
    ensures o.result.Err? ==> o.result.error == PathTooLong(PathMaxLength) && o.session == s
    ensures o.result.Ok? ==>
      && o.session.state == MailReceived
      && o.session.from == Some(sender)
      && o.session.to == [] && o.session.data == [] && o.session.dataSize == 0
      && o.session.inDataMode == s.inDataMode && o.session.clientDomain == s.clientDomain
    ensures Valid(s) && CanExecute(s.state, Mail) ==> Valid(o.session)
  {
    if |sender| > PathMaxLength then Outcome(s, Err(PathTooLong(PathMaxLength)))
    else Outcome(s.(from := Some(sender), to := [], data := [], dataSize := 0, state := MailReceived), Ok(()))
  }

  /** RCPT TO: one more recipient at the end of the list. The path length
      is checked before the recipient count. */
  function AddRecipient(s: Session, recipient: string): (o: Outcome<()>)
    ensures o.result.Err? <==> |recipient| > PathMaxLength || |s.to| >= MaxRecipients
    ensures o.result.Err? ==> o.session == s
    ensures |recipient| > PathMaxLength ==> o.result == Err(PathTooLong(PathMaxLength))
    ensures |recipient| <= PathMaxLength && |s.to| >= MaxRecipients ==>
      o.result == Err(TooManyRecipients(MaxRecipients))
    ensures o.result.Ok? ==>
      && o.session.to == s.to + [recipient]
      && o.session.state == RecipientsReceived
      && o.session.from == s.from && o.session.data == s.data && o.session.dataSize == s.dataSize
      && o.session.inDataMode == s.inDataMode && o.session.clientDomain == s.clientDomain
    ensures |s.to| <= MaxRecipients ==> |o.session.to| <= MaxRecipients
    ensures Valid(s) && CanExecute(s.state, Rcpt) ==> Valid(o.session)
  {
    if |recipient| > PathMaxLength then Outcome(s, Err(PathTooLong(PathMaxLength)))
    else if |s.to| >= MaxRecipients then Outcome(s, Err(TooManyRecipients(MaxRecipients)))
    else Outcome(s.(to := s.to + [recipient], state := RecipientsReceived), Ok(()))
  }

  /** DATA: start collecting mail text, only once recipients are known. */
  function StartDataMode(s: Session): (o: Outcome<()>)
    ensures o.result.Ok? <==> s.state == RecipientsReceived
    ensures o.result.Err? ==>
      o.result.error == InvalidState("DATA command requires RCPT first") && o.session == s
    ensures o.result.Ok? ==>
      && o.session.state == DataMode && o.session.inDataMode
      && o.session.data == [] && o.session.dataSize == 0
      && o.session.from == s.from && o.session.to == s.to && o.session.clientDomain == s.clientDomain
    ensures Valid(s) ==> Valid(o.session)
  {
    if s.state != RecipientsReceived then Outcome(s, Err(InvalidState("DATA command requires RCPT first")))
    else Outcome(s.(inDataMode := true, data := [], dataSize := 0, state := DataMode), Ok(()))
  }

  /** The bytes the data of a transaction accounts for: each line with its
      CRLF. */
  function AccountedSize(lines: seq<string>): nat {
    if lines == [] then 0 else |lines[0]| + 2 + AccountedSize(lines[1..])
  }

  lemma {:induction false} AccountedSizeAppend(lines: seq<string>, line: string)
    ensures AccountedSize(lines + [line]) == AccountedSize(lines) + |line| + 2
    decreases |lines|
  {
    if lines == [] {
      assert [] + [line] == [line];
    } else {
      assert (lines + [line])[1..] == lines[1..] + [line];
      AccountedSizeAppend(lines[1..], line);
    }
  }

  /** The accounted size of lines read in two batches is the sum of the
      two batches' sizes. */
  lemma {:induction false} AccountedSizeConcat(a: seq<string>, b: seq<string>)
    ensures AccountedSize(a + b) == AccountedSize(a) + AccountedSize(b)
    decreases |a|
  {
    if a == [] {
      assert [] + b == b;
    } else {
      assert (a + b)[1..] == a[1..] + b;
      AccountedSizeConcat(a[1..], b);
    }
  }

  /** One line of mail text, kept verbatim. The line size, CRLF included,
      is checked against the text line limit before the running total is
      checked against the data limit. */
  function AddDataLine(s: Session, line: string): (o: Outcome<()>)
    ensures o.result.Err? <==>
      |line| + 2 > TextLineMaxLength || s.dataSize + |line| + 2 > MaxDataSize
    ensures o.result.Err? ==> o.session == s
    ensures |line| + 2 > TextLineMaxLength ==> o.result == Err(LineTooLong(TextLineMaxLength))
    ensures |line| + 2 <= TextLineMaxLength && s.dataSize + |line| + 2 > MaxDataSize ==>
      o.result == Err(TooMuchData(MaxDataSize))
    ensures o.result.Ok? ==>
      && o.session.data == s.data + [line]
      && o.session.state == s.state && o.session.inDataMode == s.inDataMode
      && o.session.from == s.from && o.session.to == s.to && o.session.clientDomain == s.clientDomain
    ensures s.dataSize == AccountedSize(s.data) ==> o.session.dataSize == AccountedSize(o.session.data)
    ensures s.dataSize <= MaxDataSize ==> o.session.dataSize <= MaxDataSize
    ensures Valid(s) && s.inDataMode ==> Valid(o.session)
  {
    var lineSize := |line| + 2;
    if lineSize > TextLineMaxLength then Outcome(s, Err(LineTooLong(TextLineMaxLength)))
    else if s.dataSize + lineSize > MaxDataSize then Outcome(s, Err(TooMuchData(MaxDataSize)))
    else
      AccountedSizeAppend(s.data, line);
      Outcome(s.(data := s.data + [line], dataSize := s.dataSize + lineSize), Ok(()))
  }

  /** End of the mail text: the collected message, its lines joined with
      `\n`. The sender, recipients and lines stay in the session; only the
      data mode is left. */
  function FinishDataCollection(s: Session): (o: Outcome<Email>)
    ensures o.result.Ok? <==> s.inDataMode && s.from.Some? && s.to != []
    ensures o.result.Err? ==> o.session == s
    ensures !s.inDataMode ==> o.result == Err(InvalidState("Not in data collection mode"))
    ensures s.inDataMode && s.from.None? ==> o.result == Err(InvalidState("No sender specified"))
    ensures s.inDataMode && s.from.Some? && s.to == [] ==>
      o.result == Err(InvalidState("No recipients specified"))
    ensures o.result.Ok? ==>
      && o.result.value.from == s.from.value && o.result.value.to == s.to
      && o.result.value.data == Join(s.data, "\n")
      && o.session.state == GreetingReceived && !o.session.inDataMode
      && o.session.from == s.from && o.session.to == s.to && o.session.data == s.data
      && o.session.dataSize == s.dataSize && o.session.clientDomain == s.clientDomain
    ensures Valid(s) && s.inDataMode ==> o.result.Ok? && Valid(Reset(o.session))
  {
    if !s.inDataMode then Outcome(s, Err(InvalidState("Not in data collection mode")))
    else if s.from.None? then Outcome(s, Err(InvalidState("No sender specified")))
    else if s.to == [] then Outcome(s, Err(InvalidState("No recipients specified")))
    else
      var email := Email(s.from.value, s.to, Join(s.data, "\n"));
      Outcome(s.(inDataMode := false, state := GreetingReceived), Ok(email))
  }

  /** HELO: record the client domain and start over from the greeted
      state. */
  function SetClientDomain(s: Session, domain: string): (o: Outcome<()>)
    ensures o.result.Err? <==> |domain| > DomainMaxLength
    ensures o.result.Err? ==> o.result.error == DomainTooLong(DomainMaxLength) && o.session == s
    ensures o.result.Ok? ==>
      o.session.clientDomain == Some(domain) && o.session.state == GreetingReceived
      && EmptyTransaction(o.session)
    ensures Valid(s) ==> Valid(o.session)
  {
    if |domain| > DomainMaxLength then Outcome(s, Err(DomainTooLong(DomainMaxLength)))
    else Outcome(Reset(s.(clientDomain := Some(domain), state := GreetingReceived)), Ok(()))
  }

  /** A successful HELO is a reset with the new domain: the old transaction
      and domain do not matter. */
  lemma SetClientDomainIsReset(s: Session, t: Session, domain: string)
    requires |domain| <= DomainMaxLength
    ensures SetClientDomain(s, domain).session == SetClientDomain(t, domain).session
    ensures SetClientDomain(s, domain).session == Reset(SetClientDomain(s, domain).session)
  {
  }

  // ---------------------------------------------------------------------
  // Verbs and the state gate

  datatype Verb = Helo | Mail | Rcpt | Data | Rset | Noop | Quit

  function VerbName(v: Verb): (name: string)
    ensures |name| == 4 && IsUpper(name)
  {
    match v
    case Helo => "HELO"
    case Mail => "MAIL"
    case Rcpt => "RCPT"
    case Data => "DATA"
    case Rset => "RSET"
    case Noop => "NOOP"
    case Quit => "QUIT"
  }

  /** The verb a word names, ignoring ASCII case. */
  function ParseVerb(word: string): (r: Option<Verb>)
    ensures r.Some? ==> ToUpper(word) == VerbName(r.value)
    ensures r.None? ==> forall v :: ToUpper(word) != VerbName(v)
  {
    var w := ToUpper(word);
    if w == "HELO" then Some(Helo)
    else if w == "MAIL" then Some(Mail)
    else if w == "RCPT" then Some(Rcpt)
    else if w == "DATA" then Some(Data)
    else if w == "RSET" then Some(Rset)
    else if w == "NOOP" then Some(Noop)
    else if w == "QUIT" then Some(Quit)
    else None
  }

  /** Every verb is recognised by its name in any case, and distinct verbs
      have distinct names. */
  lemma ParseVerbName(v: Verb, word: string)
    requires ToUpper(word) == VerbName(v)
    ensures ParseVerb(word) == Some(v)
  {
  }

  /** A word in any case names at most one verb, the one it parses to. */
  lemma ParseVerbExact(word: string)
    ensures forall v :: ToUpper(word) == VerbName(v) ==> ParseVerb(word) == Some(v)
  {
    forall v | ToUpper(word) == VerbName(v) {
      ParseVerbName(v, word);
    }
  }

  lemma VerbNameInjective(v: Verb, w: Verb)
    requires VerbName(v) == VerbName(w)
    ensures v == w
  {
    ParseVerbName(v, VerbName(v));
    ToUpperOfUpper(VerbName(v));
    ParseVerbName(w, VerbName(w));
    ToUpperOfUpper(VerbName(w));
  }

  /** Which verbs the state admits. */
  predicate CanExecute(state: State, v: Verb) {
    match v
    case Helo => true
    case Mail => state == GreetingReceived
    case Rcpt => state == MailReceived || state == RecipientsReceived
    case Data => state == RecipientsReceived
    case Rset => state != Initial
    case Noop => true
    case Quit => true
  }

  /** The gate on a command word: a word is admitted exactly when it names,
      in some case, a verb the state admits; unknown words never are. */
  predicate CanExecuteCommand(s: Session, command: string)
    ensures CanExecuteCommand(s, command)
      <==> exists v :: ToUpper(command) == VerbName(v) && CanExecute(s.state, v)
  {
    ParseVerbExact(command);
    match ParseVerb(command)
    case None => false
    case Some(v) => CanExecute(s.state, v)
  }

  /** A transaction is complete once it has a sender and recipients; on a
      valid session that is exactly when DATA is admitted. */
  predicate HasCompleteTransaction(s: Session)
    ensures Valid(s) ==> (HasCompleteTransaction(s) <==> CanExecute(s.state, Data))
  {
    s.from.Some? && s.to != [] && s.state == RecipientsReceived
  }

  // ---------------------------------------------------------------------
  // The session invariant

  /** What holds of every session the engine builds between two lines: the
      limits, the running size, and the agreement of the state with the
      fields it implies. */
  predicate Valid(s: Session) {
    && |s.to| <= MaxRecipients
    && s.dataSize == AccountedSize(s.data) && s.dataSize <= MaxDataSize
    && (s.inDataMode <==> s.state == DataMode)
    && (s.from.Some? <==> s.state in {MailReceived, RecipientsReceived, DataMode})
    && (s.to != [] <==> s.state in {RecipientsReceived, DataMode})
    && (s.data != [] ==> s.state == DataMode)
    && (s.clientDomain.Some? <==> s.state != Initial)
    && (s.clientDomain.Some? ==> |s.clientDomain.value| <= DomainMaxLength)
  }

  /** Whenever the session is valid, the gate of a verb can be read off the
      transaction: DATA is admitted exactly when the transaction is
      complete, MAIL exactly when none is open, and RCPT exactly when a
      sender is known outside data mode. */
  lemma GateMatchesTransaction(s: Session)
    requires Valid(s)
    ensures CanExecute(s.state, Data) <==> HasCompleteTransaction(s)
    ensures CanExecute(s.state, Mail) <==> s.clientDomain.Some? && s.from.None?
    ensures CanExecute(s.state, Rcpt) <==> s.from.Some? && !s.inDataMode
    ensures CanExecute(s.state, Rset) <==> s.clientDomain.Some?
  {
  }

  /** The message handed on is from the session's sender, to its
      recipients, and its text is shorter than the size accounted for the
      collected lines: each line loses its CRLF and gains at most one `\n`. */
  lemma DeliveredMessage(s: Session, sender: string, recipient: string)
    requires FinishDataCollection(s).result.Ok?
    ensures var e := FinishDataCollection(s).result.value;
      && (IsFromSender(e, sender) <==> s.from == Some(sender))
      && (recipient in e.to <==> recipient in s.to)
      && (s.data == [] ==> DataSize(e) == 0)
      && (s.data != [] ==> DataSize(e) + |s.data| + 1 == AccountedSize(s.data))
      && (Valid(s) ==> DataSize(e) <= MaxDataSize)
  {
    if s.data != [] {
      JoinedSize(s.data);
    }
  }

  lemma {:induction false} JoinedSize(lines: seq<string>)
    requires lines != []
    ensures |Join(lines, "\n")| + |lines| + 1 == AccountedSize(lines)
    decreases |lines|
  {
    if |lines| > 1 {
      JoinedSize(lines[1..]);
      assert Join(lines, "\n") == lines[0] + "\n" + Join(lines[1..], "\n");
    } else {
      assert lines[1..] == [];
    }
  }
}
