# MogiMail SMTP engine, modelled in Dafny

MogiMail is a small SMTP server that receives mail and hands each completed
message to a listener. This project models its per-connection engine:

- the session state machine (`SmtpSession`, `SmtpState`) and its guarded
  mutators, with the size limits of section 4.5.3 of RFC 821;
- the command dispatcher (`SmtpCommandHandler`): the line-length check,
  tokenising, case-insensitive verbs, the state gate, `FROM:<…>`/`TO:<…>`
  parsing and address validation;
- the error kinds with their reply codes and reply texts;
- replies and their wire form, including the multi-line form of section
  4.2.1 of RFC 5321;
- the received message and its read-only queries (recipient, sender,
  size, subject, body, text search);
- the per-line logic of the connection loop in `server.rs`:
  - trim each line and skip it when empty;
  - collect mail text or dispatch a command;
  - end the text at the `.` line;
  - reset after an error in the text;
  - replace a reply line that is too long;
  - close after 221.

The model is functional.

- **Mutators.** Each mutator takes a `Session` and returns an `Outcome`:
  the next session paired with the `Result` the source returns. This makes
  "an error changes nothing" a property of the result that can be proved.
- **The connection loop.** `Server.Step` is the body of the read loop,
  applied to one decoded line. It yields the next session, the text written
  back (if any), the message handed on (if any), and whether the connection
  ends. `Server.Run` folds `Step` over the lines and stops after the line
  that closes the connection. `Server.Serve` puts the greeting in front.
- **Strings.** Strings are ASCII `seq<char>`, so byte length, `to_uppercase`,
  `trim`, `split_whitespace` and the `[5..]`/`[3..]` slices agree with the
  source.

Modules follow the source files:

| module | models |
|---|---|
| `Errors` | `error.rs` |
| `Responses` | `response.rs` |
| `Emails` | `email.rs` |
| `Sessions` | `session.rs` |
| `Commands` | `commands.rs` |
| `Server` | the per-line part of `server.rs` |

`Text` and `Decimal` hold the string helpers the source takes from Rust's
standard library. `Wrappers` holds `Option`.

Where the code departs from RFC 821, the model follows the code:

- Blank lines in the mail text are dropped. The loop trims every line and
  skips empty ones before data mode is consulted (server.rs:112-115), so a
  message never holds an empty line. Under section 4.1.1 of RFC 821 (DATA),
  the mail data is every line up to the lone period, blank lines included.
- HELO uses only its first argument and ignores any further words
  (commands.rs:63). The grammar of section 4.1.2 of RFC 821 is
  `HELO <SP> <domain> <CRLF>`, one argument and nothing after it.
- An address needs `<` first and `>` last, nothing more (commands.rs:95,
  142), so `<<a@b>>` gives the path `<a@b>`. In section 4.1.2 of RFC 821 a
  `<path>` is one `<`, an optional source route, a mailbox and one `>`.
- The address validator splits at the first `@` and accepts a second one in
  the domain part (commands.rs:211-213). Section 4.1.2 of RFC 821 defines
  `<mailbox> ::= <local-part> "@" <domain>`, and a domain holds no `@`.
- There is no dot-unstuffing: `..` and `.x` are collected verbatim
  (server.rs:185-191). Section 4.5.2 of RFC 821 (transparency) has the
  receiver delete the first character of a line that starts with a period
  and holds more.

The validator also checks the two lengths before it checks for an empty
part (commands.rs:216-234), so an empty user part with a domain over 64
characters is refused as too long.

## Model

| member | source | states |
|---|---|---|
| Errors.ResponseMessage | src/smtp/error.rs:96-116 | the text of an InvalidState reply is `Bad sequence of commands: ` followed by the detail, of an InvalidSyntax reply `Syntax error: ` followed by the detail; the detail can be read back from the text by dropping that prefix |
| Errors.ErrorOfMessageRoundTrip | src/smtp/error.rs:96-116 | every error is read back from its reply text: no two error values share a text, so the reply text identifies the error, detail and maximum included |
| Errors.ResponseMessageInjective | src/smtp/error.rs:96-116 | two errors with the same reply text are the same error |
| Errors.FixedMessages | src/smtp/error.rs:98-114 | Io, InvalidCommand, NonUtf8Data, ConnectionClosed and ProtocolViolation reply `Service not available`, `Syntax error, command unrecognized`, `Invalid character encoding`, `Connection closed` and `Protocol violation`, and each of these texts is read back as its kind |
| Errors.ResponseCode | src/smtp/error.rs:78-94 | every error maps to a three-digit code that starts with 4 or 5; 421 exactly for Io and ConnectionClosed, 500 exactly for InvalidCommand, LineTooLong, NonUtf8Data and ProtocolViolation, 501 exactly for InvalidSyntax and the path, domain and user limits, 503 exactly for InvalidState, 552 exactly for the recipient and data limits |
| Errors.LimitMessageCarriesMax | src/smtp/error.rs:102-111 | a limit message is its fixed prefix, the carried maximum in decimal digits, and its fixed suffix; the digits parse back to the maximum |
| Errors.LimitMessageInjective | src/smtp/error.rs:102-111 | two limit errors of the same kind with the same message carry the same maximum |
| Errors.LimitMessagesAsSent | src/smtp/error.rs:52-73 | with the constants 64, 64, 256, 512, 1000, 100 and 10·1024·1024, the seven limit messages read "User name too long (max 64 characters)" … "Too much mail data (max 10485760 bytes)" |
| Responses.Format | src/smtp/response.rs:75-90 | the wire form opens with the code, then a space for a single-line reply or a dash when capability lines follow, and ends with CRLF |
| Responses.FormatSingleLineRoundTrip | src/smtp/response.rs:87-88 | a single-line reply is sent as code, space, message, CRLF; for a code without a space, dropping the CRLF and splitting at the first space gives back the code and the message |
| Responses.FormatMultilineShape | src/smtp/response.rs:76-86 | a multi-line reply opens with `code-message CRLF`; every capability line except the last is `code-line CRLF`; the last is `code line CRLF`; with no capability lines only the opening line is sent |
| Responses.FormatLinesShape | src/smtp/response.rs:78-85 | the capability block is the dash lines of all lines but the last, followed by the space line of the last |
| Responses.SuccessExcludesError | src/smtp/response.rs:93-100 | no reply is both a success and an error |
| Responses.FixedRepliesOnTheWire | src/smtp/response.rs:33-67 | the OK, greeting, QUIT and DATA replies go on the wire as `250 OK`, `220 Welcome to MogiMail`, `221 Bye` and `354 End data with <CR><LF>.<CR><LF>`, each followed by CRLF |
| Responses.ParameterisedReplies | src/smtp/response.rs:43-72 | the HELO reply is `250 <host> Hello <client>` and an error reply is a plain single-line reply with the given code and text |
| Responses.FixedRepliesClassified | src/smtp/response.rs:93-100 | the OK, greeting, QUIT and HELO replies are successes; the 354 reply is neither a success nor an error |
| Emails.HasRecipient | src/smtp/email.rs:33-35 | the answer is true exactly when the recipient is one of the message's recipients |
| Emails.ContainsText | src/smtp/email.rs:86-88 | the answer is true exactly when the text occurs at some offset of the message text |
| Emails.RawLines | src/smtp/email.rs:49 | the message text split after each `\n`: the pieces are non-empty, concatenate back to the text, and hold a `\n` at most as their last character |
| Emails.RawLinesTerminated | src/smtp/email.rs:49 | every piece but the last ends in `\n` |
| Emails.StripLineEndings | src/smtp/email.rs:49 | each line loses its final `\n` and a `\r` just before it, as `str::lines` does |
| Emails.DataSize | src/smtp/email.rs:43-45 | the size bounds the message: no text found in it is longer, and a body found is strictly shorter |
| Emails.GetSubject | src/smtp/email.rs:48-62 | a subject is found exactly when a header line before the first empty line starts with `Subject: ` or `subject: `, and it is the rest of the first such line |
| Emails.SubjectInFindsFirstSubjectLine | src/smtp/email.rs:48-62 | the subject scan finds a subject exactly when a line before the first empty line starts with `Subject: ` or `subject: `, and then returns the rest of the first such line |
| Emails.FirstEmpty | src/smtp/email.rs:69-75 | the index found is that of an empty line with no empty line before it; when none is found, no line is empty |
| Emails.GetBody | src/smtp/email.rs:65-83 | a body exists exactly when there is an empty line and some line follows it; the body is non-empty, is the text of the lines after the first empty line, and the text is the lines up to that empty line followed by the body |
| Emails.GetBodyAt | src/smtp/email.rs:65-83 | with the first empty line at index i, the body is the text of the lines after i, or none when line i is the last |
| Emails.GetBodyAfterHeaders | src/smtp/email.rs:65-83 | for header lines, an empty line and a body, all ended in `\n` or all in CRLF, the body found is exactly the body text, or none when it is empty |
| Emails.GetBodyAsWrittenOffset | src/smtp/email.rs:73 | the offset the source computes falls short of the true end of the header block by exactly the number of CRLF-ended lines in it |
| Emails.GetBodyAsWrittenExactIff | src/smtp/email.rs:65-83 | with an empty line present, the source's body extraction gives the true body exactly when no line up to and including the first empty line ends in CRLF |
| Emails.GetBodyAgreesWithoutCrLf | src/smtp/email.rs:73 | on text with no CRLF, the source's body extraction and the corrected one agree |
| Emails.GetBodyCrLfCounterexample | src/smtp/email.rs:73 | on `A\r\n\r\nB` the source's computation gives `\r\nB`, where the body is `B` |
| Sessions.Reset | src/smtp/session.rs:55-63 | the state becomes GreetingReceived; sender, recipients, lines, data mode and size are cleared; the client domain is kept, and with a recorded domain of at most 64 the result satisfies the session invariant |
| Sessions.ResetKeepsOnlyDomain | src/smtp/session.rs:55-63 | two sessions reset to the same session exactly when they have the same client domain; resetting twice is resetting once |
| Sessions.New | src/smtp/session.rs:42-52 | the new session is in Initial with an empty transaction and no client domain, and satisfies the session invariant |
| Sessions.FullReset | src/smtp/session.rs:66-74 | whatever the session, the result is the new session: state Initial, every field cleared, the client domain included |
| Sessions.SetSender | src/smtp/session.rs:77-90 | it fails exactly when the sender is longer than 256, with PathTooLong(256) and the session unchanged; on success the sender is set, recipients, lines and size are cleared, and the state is MailReceived; where the gate allows MAIL, the session invariant is kept |
| Sessions.AddRecipient | src/smtp/session.rs:93-109 | it fails exactly when the path is longer than 256 (PathTooLong, checked first) or 100 recipients are already held (TooManyRecipients), with the session unchanged; on success the recipient is appended at the end and the state is RecipientsReceived; where the gate allows RCPT, the session invariant is kept, so at most 100 recipients stay at most 100 |
| Sessions.StartDataMode | src/smtp/session.rs:112-124 | it succeeds exactly in RecipientsReceived, entering DataMode with data mode on and no lines; otherwise it fails with InvalidState and the session is unchanged; the session invariant is kept |
| Sessions.AddDataLine | src/smtp/session.rs:127-145 | it fails exactly when the line plus 2 exceeds 1000 (LineTooLong, checked first) or the running size plus the line plus 2 exceeds 10·1024·1024 (TooMuchData), with the session unchanged; on success the line is appended verbatim; in data mode on a valid session, the running size stays the sum of line lengths plus 2 and stays within the limit |
| Sessions.AccountedSizeConcat | src/smtp/session.rs:128 | the accounted size of two runs of lines is the sum of their sizes |
| Sessions.FinishDataCollection | src/smtp/session.rs:148-171 | it succeeds exactly in data mode with a sender and a recipient; otherwise it fails with the three InvalidState texts in the source's order and the session is unchanged; the message carries the sender, the recipients and the lines joined with `\n`; afterwards data mode is off and the state is GreetingReceived, with sender, recipients and lines left in place; on a valid session in data mode it always succeeds and the reset after it is valid |
| Sessions.DeliveredMessage | src/smtp/email.rs:38-45 | the finished message is from a sender exactly when the session's sender is that one, is to exactly the session's recipients, and its size is the accounted size less the number of lines plus one (zero with no lines), so never above 10·1024·1024 |
| Sessions.SetClientDomain | src/smtp/session.rs:174-185 | it fails exactly when the domain is longer than 64, with DomainTooLong(64) and the session unchanged; on success the domain is recorded, the state is GreetingReceived and the transaction is empty; the session invariant is kept |
| Sessions.SetClientDomainIsReset | src/smtp/session.rs:174-185 | a successful HELO gives the same session whatever came before, and that session is its own reset |
| Sessions.VerbName | src/smtp/commands.rs:39-47 | the seven verb names are four upper-case letters |
| Sessions.ParseVerb | src/smtp/commands.rs:37-47 | a word is recognised exactly when its upper-case form is one of the seven verb names, and then as that verb |
| Sessions.ParseVerbName | src/smtp/commands.rs:37-47 | a word whose upper-case form is a verb's name is recognised as that verb |
| Sessions.CanExecuteCommand | src/smtp/session.rs:188-203 | a command word is admitted exactly when, in some case, it names a verb the state admits; a word that names no verb never is |
| Sessions.HasCompleteTransaction | src/smtp/session.rs:216-218 | on a valid session a transaction is complete exactly when DATA is admitted |
| Sessions.GateMatchesTransaction | src/smtp/session.rs:216-218 | on a valid session, DATA is allowed exactly when the transaction is complete, MAIL exactly after HELO with no sender, RCPT exactly with a sender outside data mode, RSET exactly after HELO |
| Commands.CanExecuteCommandOfName | src/smtp/session.rs:188-203 | a verb word in any case is allowed exactly by the state table: HELO, NOOP, QUIT always; MAIL in GreetingReceived; RCPT in MailReceived or RecipientsReceived; DATA in RecipientsReceived; RSET outside Initial |
| Commands.ValidateEmailAddress | src/smtp/commands.rs:209-242 | an address without `@` is refused with InvalidSyntax; an accepted address is between 3 and 129 characters; every refusal is InvalidSyntax, UserTooLong or DomainTooLong |
| Commands.ValidateParts | src/smtp/commands.rs:209-242 | for `user@domain` with no `@` in the user part: UserTooLong above 64, then DomainTooLong above 64, then InvalidSyntax for an empty part, else accepted |
| Commands.SplitAtFirstAt | src/smtp/commands.rs:211-213 | an address with `@` is the text before its first `@`, the `@`, and the rest, and the text before holds no `@` |
| Commands.PathArgument | src/smtp/commands.rs:87-106 | a path is accepted only after the keyword in any case, as the non-empty text inside the angle brackets of the trimmed remainder; without the keyword the refusal is the form message; every refusal is InvalidSyntax |
| Commands.PathArgumentOf | src/smtp/commands.rs:87-106 | the keyword in any case, whitespace, `<addr>` with a non-empty addr, whitespace: the path accepted is exactly addr |
| Commands.HandleHelo | src/smtp/commands.rs:52-67 | without an argument InvalidSyntax and no change; otherwise it succeeds exactly when the first argument fits 64, a longer one is refused with `DomainTooLong` (max 64) and no change, and success records it as the client domain on a reset session and replies `<host> Hello <domain>`; later words are ignored; the session invariant is kept |
| Commands.HandleMail | src/smtp/commands.rs:70-114 | the checks in order: the gate (InvalidState), a missing argument (InvalidSyntax), the path form (its own error), the address (the validator's error); it succeeds exactly when all pass, with the session MAIL's mutator makes and 250 OK; a refusal changes nothing and is never PathTooLong; the session invariant is kept |
| Commands.AcceptSender | src/smtp/commands.rs:108-113 | it succeeds exactly when the address validates, with the session MAIL's mutator makes and 250 OK; otherwise it returns the validator's error and changes nothing; a refusal is never PathTooLong; where the gate allows MAIL, the session invariant is kept |
| Commands.HandleRcpt | src/smtp/commands.rs:117-161 | the same checks as MAIL with `TO:`, then the limit: with 100 recipients held a valid RCPT gives TooManyRecipients(100); it succeeds exactly when all checks pass, appending the address at the end of the recipients and replying 250 OK; a refusal changes nothing and is never PathTooLong; the session invariant is kept |
| Commands.AcceptRecipient | src/smtp/commands.rs:155-160 | it succeeds exactly when the address validates and fewer than 100 recipients are held, appending the address at the end and replying 250 OK; otherwise the validator's error, or TooManyRecipients(100), with no change; a refusal is never PathTooLong; where the gate allows RCPT, the session invariant is kept |
| Commands.HandleData | src/smtp/commands.rs:164-184 | it succeeds exactly in RecipientsReceived with no argument; the state is checked before the arguments; success enters data mode and replies 354; the session invariant is kept |
| Commands.HandleRset | src/smtp/commands.rs:187-196 | it succeeds exactly outside Initial, resetting the session and replying 250 OK; otherwise InvalidState and no change; the session invariant is kept |
| Commands.HandleNoop | src/smtp/commands.rs:199-201 | 250 OK, session unchanged |
| Commands.HandleQuit | src/smtp/commands.rs:204-206 | 221 Bye, session unchanged |
| Commands.Dispatch | src/smtp/commands.rs:39-48 | a refused command leaves the session unchanged; the session invariant is kept |
| Commands.ProcessCommand | src/smtp/commands.rs:20-49 | a line over 512 gives LineTooLong before anything else; a blank line, or one whose first word is no verb, gives InvalidCommand; any refusal leaves the session unchanged; the session invariant is kept |
| Commands.ProcessWords | src/smtp/commands.rs:32-47 | a line of words separated by single spaces is dispatched on its words, the verb chosen from the first word in any case |
| Commands.ProcessCommandReplies | src/smtp/commands.rs:39-48 | a successful command replies on a single line with 250, 354 or 221; 221 exactly for QUIT and 354 exactly for DATA |
| Server.ReplyFor | src/smtp/server.rs:139-142 | the reply to an error carries its code and text, is single-line, and is an error and not a success |
| Server.ErrorSent | src/smtp/error.rs:100 | an InvalidState error goes on the wire as `503 Bad sequence of commands: <detail>` CRLF when that line fits 512 characters (a detail of at most 480), and as `503 Response too long (truncated)` CRLF otherwise |
| Server.SendResponse | src/smtp/server.rs:196-213 | the text sent is the wire form when it fits 512, else `<same code> Response too long (truncated)` CRLF; it always starts with the code and, for codes of normal length, never exceeds 512 |
| Server.FixedRepliesSent | src/smtp/server.rs:202-210 | the OK, QUIT and DATA replies fit the limit and are sent unchanged; the HELO reply is sent as `250 <host> Hello <domain>` CRLF when host and domain together take at most 499 characters (the line is 13 characters longer, and the limit is 512), and as `250 Response too long (truncated)` CRLF otherwise |
| Server.HandleDataLine | src/smtp/server.rs:180-193 | the end marker `.` asks for 250 OK and changes nothing; any other line is collected verbatim, with the collector's errors and no reply |
| Server.Step | src/smtp/server.rs:112-166 | a blank line does nothing; a message is handed on only for the end marker in data mode and is the sender, recipients and lines joined with `\n`; the connection closes only outside data mode and then with the session unchanged; a line that gets no reply (a blank line, or a text line collected in data mode) hands on nothing and does not close; the session invariant is kept |
| Server.DataStep | src/smtp/server.rs:118-146 | in data mode a message is handed on only for `.`, the connection never closes, and a message comes only with a reply; the session invariant is kept |
| Server.CommandStep | src/smtp/server.rs:148-166 | outside data mode every command gets a reply and hands on no message; closing leaves the session unchanged; the session invariant is kept |
| Server.QuitKeepsSession | src/smtp/server.rs:150-154 | a command that replies 221 leaves the session as it was |
| Server.StepCommandError | src/smtp/server.rs:156-165 | a refused command is answered with its mapped code and text, and the session is not reset |
| Server.StepBodyLine | src/smtp/server.rs:135-137 | in data mode a line that fits is collected verbatim without a reply |
| Server.StepDataError | src/smtp/server.rs:138-145 | in data mode a line the collector refuses is answered with its mapped code and text, the session is reset and no message is handed on |
| Server.StepDot | src/smtp/server.rs:118-129 | in data mode `.` replies 250 OK, hands on the sender, recipients and lines joined with `\n`, and resets the session, keeping the client domain |
| Server.StepHelo | src/smtp/commands.rs:57-66 | for any host name, `HELO domain` records the domain on a reset session and is answered `250 <host> Hello <domain>` CRLF, or the truncated 250 line when that reply is longer than 512 |
| Server.StepMail | src/smtp/commands.rs:75-113 | after HELO, `MAIL FROM:<user@domain>` sets the sender and is answered 250 OK |
| Server.StepRcpt | src/smtp/commands.rs:122-160 | with a sender and fewer than 100 recipients, `RCPT TO:<user@domain>` appends the recipient and is answered 250 OK |
| Server.StepData | src/smtp/commands.rs:169-183 | with recipients, DATA in any case enters data mode and is answered 354 |
| Server.StepRset | src/smtp/commands.rs:187-196 | after HELO, RSET in any case resets the session and is answered 250 OK |
| Server.StepNoop | src/smtp/commands.rs:199-201 | NOOP in any case is answered 250 OK and changes nothing |
| Server.StepQuit | src/smtp/server.rs:150-154 | QUIT in any case is answered 221 Bye and closes the connection with the session unchanged |
| Server.MailBeforeHelo | src/smtp/commands.rs:75-79 | MAIL before HELO is answered `503 Bad sequence of commands: MAIL command requires HELO first` and changes nothing |
| Server.Run | src/smtp/server.rs:96-174 | a connection hands on at most one message per reply and sends at most one reply per line; the session invariant is kept |
| Server.RunAppend | src/smtp/server.rs:96-174 | running two batches of lines is running the first and then the second from where it left off; after the connection closes, later lines are never read |
| Server.QuitEndsConnection | src/smtp/server.rs:150-154 | outside data mode, QUIT gets `221 Bye` and nothing after it is read |
| Server.RunBody | src/smtp/server.rs:112-137 | in data mode, text lines that do not trim to `.` and fit the limits are read without any reply, with or without their CRLF: blank lines are dropped and every other line is collected trimmed, in order |
| Server.StepOfTrim | src/smtp/server.rs:112-119 | the driver acts on a line only through its trim: a line and its trim take the same step |
| Server.RunClean | src/smtp/server.rs:96-115 | a connection runs exactly as its lines trimmed, with the blank ones dropped, in data mode or out of it |
| Server.TrimTerminated | src/smtp/server.rs:100-112 | the CRLF a line is read with is trimmed away with the rest of its padding |
| Server.RunTerminated | src/smtp/server.rs:100-112 | lines read with their CRLF, as `read_until` leaves them, run the same as the lines without it |
| Server.ServeTerminated | src/smtp/server.rs:89-112 | a whole connection, greeting included, is served the same on lines with or without their CRLF |
| Server.DotRun | src/smtp/server.rs:118-129 | the end marker alone replies 250 OK and hands on exactly one message |
| Server.RunRcpts | src/smtp/commands.rs:117-161 | RCPT for each of several mailboxes, within the limit of 100, is answered 250 OK each time and appends them to the recipients in order |
| Server.Transaction | src/smtp/server.rs:112-166 | after HELO, MAIL, an RCPT for each of 1 to 100 recipients, DATA, the text and `.` get 250, 250 per RCPT, 354 and 250, hand on exactly one message to all the recipients in order with the text lines joined by `\n`, and return the session to its state after HELO; the text (lines that do not trim to `.` and fit the line and size limits) may hold blank and padded lines, and the lines may be read with their CRLF, and the message text is then the trimmed non-blank text lines |
| Server.Batch | tests/integration_tests.rs:304-364 | transactions sent back to back on one connection, each with its own sender and recipients, hand on one message each, in order, with three replies plus one per recipient each; the same holds for the lines read with their CRLF |
| Server.AbandonedSender | src/smtp/server.rs:384-429 | MAIL, any number of RCPTs and then RSET drop that sender and those recipients: the transaction after RSET goes through as if it were the first, and only its message is handed on; read with their CRLF, the lines run the same |
| Server.Serve | src/smtp/server.rs:89-93 | the first text sent on a connection is `220 Welcome to MogiMail` CRLF, and the session stays valid throughout |
| Server.Conversation | src/smtp/server.rs:89-166 | greeting, HELO, one transaction and QUIT, for any host name: the client sees 220, the HELO answer (`250 <host> Hello <domain>`, or the truncated 250 line when that is too long), 250 for MAIL, 250 for each RCPT, 354, 250 and 221, exactly one message is handed on, the connection closes, and nothing after QUIT is read; the lines read with their CRLF give the same connection |

## Left out

- TCP and stream I/O are not modelled: the listener, the accept loops, stream cloning, `read_until`, `write_all` and `flush` (server.rs:30-101, 169-172, 207-211). A connection is the sequence of lines it has already decoded, each with or without the CRLF that `read_until` leaves on it, and what it writes is the sequence of reply texts.
- UTF-8 lossy decoding (server.rs:104-110) is not modelled, because strings are ASCII. Unicode whitespace and Unicode case mapping in `trim`, `split_whitespace` and `to_uppercase` are left out for the same reason.
- The channel send (server.rs:127) is an append to the transcript's messages. The source ignores its result.
- The reception timestamp of a message (email.rs:28) reads a clock, so the message has no timestamp field.
- The `Io` error's payload is dropped, so `Io` is a kind without data. Only its code and text matter to the engine.
- EHLO is not modelled. It sits behind a build feature (response.rs:49-57, session.rs:190-191), and the dispatcher has no EHLO arm. The multi-line reply form it would use is modelled.
- Logging, `main`, the module re-exports and the example client are glue and are not modelled.
- `recipient_count` and `current_data_size` (session.rs:206-213) only return a field, so they are not modelled separately.
- `Email::new` is the `Email` constructor; the timestamp is the only thing it adds.
- Server.SendResponse: the bound `|wire| <= 512` is stated only for codes of at most 480 characters. A longer code makes even the truncated line too long, in the source as well.
- Sessions.SetSender, Sessions.AddRecipient, Sessions.AddDataLine and Sessions.FinishDataCollection state that they keep the session invariant only where the dispatcher calls them: after the state gate for MAIL or RCPT, and in data mode for the text. `Valid` is not preserved by an arbitrary call; for example, finishing the text leaves the lines in place until the `reset` that always follows it (server.rs:124-129), so that ensures is about the reset session.

## Findings

| source | as written | input that shows it | evidently intended | confidence | as-written member | corrected member |
|---|---|---|---|---|---|---|
| src/smtp/email.rs:73 | `get_body` takes the body offset to be the sum of each line's length plus one, over the lines `str::lines` yields up to the first empty line; those lines have their CRLF stripped, so each CRLF-ended line is counted one byte short | `A\r\n\r\nB` | the text after the empty line and its terminator, `B`; the source returns `\r\nB` | not executed | Emails.GetBodyCrLfCounterexample | Emails.GetBody |
