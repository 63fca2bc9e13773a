/** The error taxonomy of the SMTP engine, its size limits (section 4.5.3 of
    RFC 821) and the mapping from an error to the reply code and reply text
    sent to the client. */
module Errors {
  import opened Wrappers
  import opened Text
  import opened Decimal

  const UserMaxLength: nat := 64
  const DomainMaxLength: nat := 64
  /** Reverse-path or forward-path. */
  const PathMaxLength: nat := 256
  /** Command line, CRLF included. */
  const CommandLineMaxLength: nat := 512
  /** Reply line, CRLF included. */
  const ReplyLineMaxLength: nat := 512
  /** Text line of mail data, CRLF included. */
  const TextLineMaxLength: nat := 1000
  const MaxRecipients: nat := 100
  /** Total accounted size of the mail data of one transaction. */
  const MaxDataSize: nat := 10 * 1024 * 1024

  /** The failure kinds; the limit kinds carry the limit they report and the
      two free-text kinds carry their detail message. The payload of `Io` is
      not modelled. */
  datatype SmtpError =
    | Io
    | InvalidCommand
    | InvalidState(detail: string)
    | InvalidSyntax(detail: string)
    | LineTooLong(max: nat)
    | PathTooLong(max: nat)
    | TooManyRecipients(max: nat)
    | TooMuchData(max: nat)
    | DomainTooLong(max: nat)
    | UserTooLong(max: nat)
    | NonUtf8Data
    | ConnectionClosed
    | ProtocolViolation

  datatype Result<+T> = Ok(value: T) | Err(error: SmtpError)

  /** The reply code of an error: always a 4xx or 5xx code, and each code
      stands for exactly the kinds listed. */
  function ResponseCode(e: SmtpError): (code: string)
    ensures |code| == 3 && AllDigits(code)
    ensures code[0] == '4' || code[0] == '5'
    ensures code == "421" <==> e.Io? || e.ConnectionClosed?
    ensures code == "500" <==> e.InvalidCommand? || e.LineTooLong? || e.NonUtf8Data? || e.ProtocolViolation?
    ensures code == "501" <==> e.InvalidSyntax? || e.PathTooLong? || e.DomainTooLong? || e.UserTooLong?
    ensures code == "503" <==> e.InvalidState?
    ensures code == "552" <==> e.TooManyRecipients? || e.TooMuchData?
  {
    match e
    case Io => "421"
    case InvalidCommand => "500"
    case InvalidState(_) => "503"
    case InvalidSyntax(_) => "501"
    case LineTooLong(_) => "500"
    case PathTooLong(_) => "501"
    case TooManyRecipients(_) => "552"
    case TooMuchData(_) => "552"
    case DomainTooLong(_) => "501"
    case UserTooLong(_) => "501"
    case NonUtf8Data => "500"
    case ConnectionClosed => "421"
    case ProtocolViolation => "500"
  }

  const InvalidStatePrefix: string := "Bad sequence of commands: "
  const InvalidSyntaxPrefix: string := "Syntax error: "

  /** The reply text of an error. The two free-text kinds send their detail
      after a fixed prefix, and the limit kinds their limit in decimal
      between a fixed prefix and suffix. The kinds' descriptions
      (`Invalid command`, `Non-UTF-8 data encountered`, …) are never sent. */
  function ResponseMessage(e: SmtpError): (m: string)
    ensures e.InvalidState? ==> StartsWith(m, InvalidStatePrefix) && m[|InvalidStatePrefix|..] == e.detail
    ensures e.InvalidSyntax? ==> StartsWith(m, InvalidSyntaxPrefix) && m[|InvalidSyntaxPrefix|..] == e.detail
  {
    match e
    case Io => "Service not available"
    case InvalidCommand => "Syntax error, command unrecognized"
    case InvalidState(msg) => InvalidStatePrefix + msg
    case InvalidSyntax(msg) => InvalidSyntaxPrefix + msg
    case NonUtf8Data => "Invalid character encoding"
    case ConnectionClosed => "Connection closed"
    case ProtocolViolation => "Protocol violation"
    case LineTooLong(_) => LimitMessage(e)
    case PathTooLong(_) => LimitMessage(e)
    case TooManyRecipients(_) => LimitMessage(e)
    case TooMuchData(_) => LimitMessage(e)
    case DomainTooLong(_) => LimitMessage(e)
    case UserTooLong(_) => LimitMessage(e)
  }

  /** The text of a limit error: its kind's prefix, the limit in decimal,
      its kind's suffix. */
  function LimitMessage(e: SmtpError): string
    requires IsLimit(e)
  {
    LimitPrefix(e) + NatToString(e.max) + LimitSuffix(e)
  }

  predicate IsLimit(e: SmtpError) {
    e.LineTooLong? || e.PathTooLong? || e.TooManyRecipients? || e.TooMuchData?
    || e.DomainTooLong? || e.UserTooLong?
  }

  /** The fixed text in front of the number in a limit message. */
  function LimitPrefix(e: SmtpError): string
    requires IsLimit(e)
  {
    match e
    case LineTooLong(_) => "Line too long (max "
    case PathTooLong(_) => "Path too long (max "
    case TooManyRecipients(_) => "Too many recipients (max "
    case TooMuchData(_) => "Too much mail data (max "
    case DomainTooLong(_) => "Domain name too long (max "
    case UserTooLong(_) => "User name too long (max "
  }

  /** The fixed text after the number in a limit message. */
  function LimitSuffix(e: SmtpError): string
    requires IsLimit(e)
  {
    if e.TooManyRecipients? then ")"
    else if e.TooMuchData? then " bytes)"
    else " characters)"
  }

  // ---------------------------------------------------------------------
  // Reading an error back from its reply text

  /** The error a reply text reports, as a client would read it: the fixed
      texts, then the two prefixes followed by a detail, then the limit
      texts with a decimal limit. */
  function ErrorOfMessage(m: string): Option<SmtpError> {
    if m == "Service not available" then Some(Io)
    else if m == "Syntax error, command unrecognized" then Some(InvalidCommand)
    else if m == "Invalid character encoding" then Some(NonUtf8Data)
    else if m == "Connection closed" then Some(ConnectionClosed)
    else if m == "Protocol violation" then Some(ProtocolViolation)
    else if StartsWith(m, InvalidStatePrefix) then Some(InvalidState(m[|InvalidStatePrefix|..]))
    else if StartsWith(m, InvalidSyntaxPrefix) then Some(InvalidSyntax(m[|InvalidSyntaxPrefix|..]))
    else if IsLimitText(m, LineTooLong(0)) then Some(LimitFrom(m, LineTooLong(0)))
    else if IsLimitText(m, PathTooLong(0)) then Some(LimitFrom(m, PathTooLong(0)))
    else if IsLimitText(m, TooManyRecipients(0)) then Some(LimitFrom(m, TooManyRecipients(0)))
    else if IsLimitText(m, TooMuchData(0)) then Some(LimitFrom(m, TooMuchData(0)))
    else if IsLimitText(m, DomainTooLong(0)) then Some(LimitFrom(m, DomainTooLong(0)))
    else if IsLimitText(m, UserTooLong(0)) then Some(LimitFrom(m, UserTooLong(0)))
    else None
  }

  /** Whether `m` is a message of the limit kind of `k`: its prefix, a
      decimal number, its suffix. */
  predicate IsLimitText(m: string, k: SmtpError)
    requires IsLimit(k)
  {
    var p := LimitPrefix(k);
    var q := LimitSuffix(k);
    |p| + |q| < |m| && StartsWith(m, p) && EndsWith(m, q) && AllDigits(m[|p|..|m| - |q|])
  }

  /** The error of `k`'s kind carrying the number in `m`. */
  function LimitFrom(m: string, k: SmtpError): SmtpError
    requires IsLimit(k) && IsLimitText(m, k)
  {
    k.(max := ParseDecimal(m[|LimitPrefix(k)|..|m| - |LimitSuffix(k)|]))
  }

  /** Every reply text reads back as the error it was made from, so no two
      errors share a reply text. */
  lemma ErrorOfMessageRoundTrip(e: SmtpError)
    ensures ErrorOfMessage(ResponseMessage(e)) == Some(e)
  {
    if e.InvalidState? {
      InvalidStateRoundTrip(e.detail);
    } else if e.InvalidSyntax? {
      InvalidSyntaxRoundTrip(e.detail);
    } else if IsLimit(e) {
      LimitRoundTrip(e);
    } else {
      FixedMessages();
    }
  }

  /** The texts of the kinds without data. */
  lemma FixedMessages()
    ensures ResponseMessage(Io) == "Service not available"
    ensures ResponseMessage(InvalidCommand) == "Syntax error, command unrecognized"
    ensures ResponseMessage(NonUtf8Data) == "Invalid character encoding"
    ensures ResponseMessage(ConnectionClosed) == "Connection closed"
    ensures ResponseMessage(ProtocolViolation) == "Protocol violation"
    ensures ErrorOfMessage("Service not available") == Some(Io)
    ensures ErrorOfMessage("Syntax error, command unrecognized") == Some(InvalidCommand)
    ensures ErrorOfMessage("Invalid character encoding") == Some(NonUtf8Data)
    ensures ErrorOfMessage("Connection closed") == Some(ConnectionClosed)
    ensures ErrorOfMessage("Protocol violation") == Some(ProtocolViolation)
  {
  }

  lemma InvalidStateRoundTrip(detail: string)
    ensures ErrorOfMessage(ResponseMessage(InvalidState(detail))) == Some(InvalidState(detail))
  {
    var m := ResponseMessage(InvalidState(detail));
    PrefixChar(m, InvalidStatePrefix, 0);
    DiffersAt(m, "Service not available", 0);
    DiffersAt(m, "Syntax error, command unrecognized", 0);
    DiffersAt(m, "Invalid character encoding", 0);
    DiffersAt(m, "Connection closed", 0);
    DiffersAt(m, "Protocol violation", 0);
  }

  lemma InvalidSyntaxRoundTrip(detail: string)
    ensures ErrorOfMessage(ResponseMessage(InvalidSyntax(detail))) == Some(InvalidSyntax(detail))
  {
    var m := ResponseMessage(InvalidSyntax(detail));
    PrefixChar(m, InvalidSyntaxPrefix, 0);
    PrefixChar(m, InvalidSyntaxPrefix, 1);
    PrefixChar(m, InvalidSyntaxPrefix, 12);
    DiffersAt(m, "Service not available", 1);
    DiffersAt(m, "Syntax error, command unrecognized", 12);
    DiffersAt(m, "Invalid character encoding", 0);
    DiffersAt(m, "Connection closed", 0);
    DiffersAt(m, "Protocol violation", 0);
    DiffersAt(m, InvalidStatePrefix, 0);
  }

  /** A limit message reads back as its own kind and limit: it is none of
      the texts matched before it, and no text starts with the prefixes of two
      different limit kinds. */
  lemma LimitRoundTrip(e: SmtpError)
    requires IsLimit(e)
    ensures ErrorOfMessage(ResponseMessage(e)) == Some(e)
  {
    match e
    case LineTooLong(n) => LineRoundTrip(n);
    case PathTooLong(n) => PathRoundTrip(n);
    case TooManyRecipients(n) => RecipientsRoundTrip(n);
    case TooMuchData(n) => DataRoundTrip(n);
    case DomainTooLong(n) => DomainRoundTrip(n);
    case UserTooLong(n) => UserRoundTrip(n);
  }

  lemma LineRoundTrip(n: nat)
    ensures ErrorOfMessage(ResponseMessage(LineTooLong(n))) == Some(LineTooLong(n))
  {
    NotFixedNorFree(LineTooLong(n));
    LimitTextOf(LineTooLong(n));
  }

  lemma PathRoundTrip(n: nat)
    ensures ErrorOfMessage(ResponseMessage(PathTooLong(n))) == Some(PathTooLong(n))
  {
    var e := PathTooLong(n);
    var m := ResponseMessage(e);
    NotFixedNorFree(e);
    LimitTextOf(e);
    PrefixesClash(m, e, LineTooLong(0), 0);
  }

  lemma RecipientsRoundTrip(n: nat)
    ensures ErrorOfMessage(ResponseMessage(TooManyRecipients(n))) == Some(TooManyRecipients(n))
  {
    var e := TooManyRecipients(n);
    var m := ResponseMessage(e);
    NotFixedNorFree(e);
    LimitTextOf(e);
    PrefixesClash(m, e, LineTooLong(0), 0);
    PrefixesClash(m, e, PathTooLong(0), 0);
  }

  lemma DataRoundTrip(n: nat)
    ensures ErrorOfMessage(ResponseMessage(TooMuchData(n))) == Some(TooMuchData(n))
  {
    var e := TooMuchData(n);
    var m := ResponseMessage(e);
    NotFixedNorFree(e);
    LimitTextOf(e);
    PrefixesClash(m, e, LineTooLong(0), 0);
    PrefixesClash(m, e, PathTooLong(0), 0);
    SixthCharacters(n);
    PrefixesClash(m, e, TooManyRecipients(0), 5);
  }

  /** "Too many recipients" and "Too much mail data" part at their sixth
      character. */
  lemma SixthCharacters(n: nat)
    ensures LimitPrefix(TooMuchData(n))[5] == 'u' && LimitPrefix(TooManyRecipients(0))[5] == 'a'
  {
    var p := LimitPrefix(TooMuchData(n));
    var q := LimitPrefix(TooManyRecipients(0));
    assert p == "Too much mail data (max ";
    assert q == "Too many recipients (max ";
  }

  lemma DomainRoundTrip(n: nat)
    ensures ErrorOfMessage(ResponseMessage(DomainTooLong(n))) == Some(DomainTooLong(n))
  {
    var e := DomainTooLong(n);
    var m := ResponseMessage(e);
    NotFixedNorFree(e);
    LimitTextOf(e);
    PrefixesClash(m, e, LineTooLong(0), 0);
    PrefixesClash(m, e, PathTooLong(0), 0);
    PrefixesClash(m, e, TooManyRecipients(0), 0);
    PrefixesClash(m, e, TooMuchData(0), 0);
  }

  lemma UserRoundTrip(n: nat)
    ensures ErrorOfMessage(ResponseMessage(UserTooLong(n))) == Some(UserTooLong(n))
  {
    var e := UserTooLong(n);
    var m := ResponseMessage(e);
    NotFixedNorFree(e);
    LimitTextOf(e);
    PrefixesClash(m, e, LineTooLong(0), 0);
    PrefixesClash(m, e, PathTooLong(0), 0);
    PrefixesClash(m, e, TooManyRecipients(0), 0);
    PrefixesClash(m, e, TooMuchData(0), 0);
    PrefixesClash(m, e, DomainTooLong(0), 0);
  }

  /** A limit message is none of the fixed texts and starts with neither
      free-text prefix. */
  lemma NotFixedNorFree(e: SmtpError)
    requires IsLimit(e)
    ensures var m := ResponseMessage(e);
      && m != "Service not available" && m != "Syntax error, command unrecognized"
      && m != "Invalid character encoding" && m != "Connection closed" && m != "Protocol violation"
      && !StartsWith(m, InvalidStatePrefix) && !StartsWith(m, InvalidSyntaxPrefix)
  {
    var m := ResponseMessage(e);
    var p := LimitPrefix(e);
    assert StartsWith(m, p) by {
      LimitMessageCarriesMax(e);
    }
    PrefixChar(m, p, 0);
    PrefixChar(m, p, 1);
    DiffersAt(m, "Service not available", 0);
    DiffersAt(m, "Syntax error, command unrecognized", 0);
    DiffersAt(m, "Invalid character encoding", 0);
    DiffersAt(m, "Connection closed", 0);
    DiffersAt(m, "Protocol violation", if e.PathTooLong? then 1 else 0);
    DiffersAt(m, InvalidStatePrefix, 0);
    DiffersAt(m, InvalidSyntaxPrefix, 0);
  }

  /** A limit message is a text of its own kind, carrying its own limit. */
  lemma LimitTextOf(e: SmtpError)
    requires IsLimit(e)
    ensures IsLimitText(ResponseMessage(e), e.(max := 0))
    ensures LimitFrom(ResponseMessage(e), e.(max := 0)) == e
  {
    LimitMessageCarriesMax(e);
    assert LimitPrefix(e.(max := 0)) == LimitPrefix(e) && LimitSuffix(e.(max := 0)) == LimitSuffix(e);
  }

  /** A text that starts with the prefix of one limit kind is not a text of a
      kind whose prefix differs at index `i`. */
  lemma PrefixesClash(m: string, e: SmtpError, k: SmtpError, i: nat)
    requires IsLimit(e) && IsLimit(k) && StartsWith(m, LimitPrefix(e))
    requires i < |LimitPrefix(e)| && i < |LimitPrefix(k)| && LimitPrefix(e)[i] != LimitPrefix(k)[i]
    ensures !IsLimitText(m, k)
  {
    PrefixChar(m, LimitPrefix(e), i);
    DiffersAt(m, LimitPrefix(k), i);
  }

  /** A text with a prefix agrees with it at every index of the prefix. */
  lemma PrefixChar(m: string, p: string, i: nat)
    requires StartsWith(m, p) && i < |p|
    ensures i < |m| && m[i] == p[i]
  {
    assert m[..|p|][i] == m[i];
  }

  /** Texts that differ at an index are different, and neither is a prefix
      of the other. */
  lemma DiffersAt(m: string, s: string, i: nat)
    requires i < |m| && i < |s| && m[i] != s[i]
    ensures m != s && !StartsWith(m, s)
  {
  }

  /** Two errors with the same reply text are the same error. */
  lemma ResponseMessageInjective(e1: SmtpError, e2: SmtpError)
    requires ResponseMessage(e1) == ResponseMessage(e2)
    ensures e1 == e2
  {
    ErrorOfMessageRoundTrip(e1);
    ErrorOfMessageRoundTrip(e2);
  }

  /** A limit message carries its limit in decimal: between the fixed prefix
      and suffix of its kind sit digits whose value is the carried `max`. */
  lemma LimitMessageCarriesMax(e: SmtpError)
    requires IsLimit(e)
    ensures var m := ResponseMessage(e);
      var p := LimitPrefix(e);
      var q := LimitSuffix(e);
      && StartsWith(m, p) && EndsWith(m, q) && |p| + |q| < |m|
      && AllDigits(m[|p|..|m| - |q|])
      && ParseDecimal(m[|p|..|m| - |q|]) == e.max
  {
    var m := ResponseMessage(e);
    var p := LimitPrefix(e);
    var q := LimitSuffix(e);
    var d := NatToString(e.max);
    assert m == p + d + q;
    assert m[|p|..|m| - |q|] == d;
    ParseNatToString(e.max);
  }

  /** Two limit errors of the same kind give the same message only when they
      carry the same limit. */
  lemma LimitMessageInjective(e1: SmtpError, e2: SmtpError)
    requires IsLimit(e1) && IsLimit(e2) && LimitPrefix(e1) == LimitPrefix(e2)
    requires ResponseMessage(e1) == ResponseMessage(e2)
    ensures e1 == e2
  {
    LimitMessageCarriesMax(e1);
    LimitMessageCarriesMax(e2);
  }

  /** The texts sent for the limits the engine enforces. */
  lemma LimitMessagesAsSent()
    ensures ResponseMessage(UserTooLong(UserMaxLength)) == "User name too long (max 64 characters)"
    ensures ResponseMessage(DomainTooLong(DomainMaxLength)) == "Domain name too long (max 64 characters)"
    ensures ResponseMessage(PathTooLong(PathMaxLength)) == "Path too long (max 256 characters)"
    ensures ResponseMessage(LineTooLong(CommandLineMaxLength)) == "Line too long (max 512 characters)"
    ensures ResponseMessage(LineTooLong(TextLineMaxLength)) == "Line too long (max 1000 characters)"
    ensures ResponseMessage(TooManyRecipients(MaxRecipients)) == "Too many recipients (max 100)"
    ensures ResponseMessage(TooMuchData(MaxDataSize)) == "Too much mail data (max 10485760 bytes)"
  {
    UserLimitMessage();
    DomainLimitMessage();
    PathLimitMessage();
    CommandLineLimitMessage();
    TextLineLimitMessage();
    RecipientLimitMessage();
    DataLimitMessage();
  }

  lemma UserLimitMessage()
    ensures ResponseMessage(UserTooLong(UserMaxLength)) == "User name too long (max 64 characters)"
  {
    Digits64();
    assert "User name too long (max " + "64" + " characters)" == "User name too long (max 64 characters)";
  }

  lemma DomainLimitMessage()
    ensures ResponseMessage(DomainTooLong(DomainMaxLength)) == "Domain name too long (max 64 characters)"
  {
    Digits64();
    assert "Domain name too long (max " + "64" + " characters)" == "Domain name too long (max 64 characters)";
  }

  lemma PathLimitMessage()
    ensures ResponseMessage(PathTooLong(PathMaxLength)) == "Path too long (max 256 characters)"
  {
    Digits256();
    assert "Path too long (max " + "256" + " characters)" == "Path too long (max 256 characters)";
  }

  lemma CommandLineLimitMessage()
    ensures ResponseMessage(LineTooLong(CommandLineMaxLength)) == "Line too long (max 512 characters)"
  {
    Digits512();
    assert "Line too long (max " + "512" + " characters)" == "Line too long (max 512 characters)";
  }

  lemma TextLineLimitMessage()
    ensures ResponseMessage(LineTooLong(TextLineMaxLength)) == "Line too long (max 1000 characters)"
  {
    Digits1000();
    assert "Line too long (max " + "1000" + " characters)" == "Line too long (max 1000 characters)";
  }

  lemma RecipientLimitMessage()
    ensures ResponseMessage(TooManyRecipients(MaxRecipients)) == "Too many recipients (max 100)"
  {
    Digits100();
    assert "Too many recipients (max " + "100" + ")" == "Too many recipients (max 100)";
  }

  lemma DataLimitMessage()
    ensures ResponseMessage(TooMuchData(MaxDataSize)) == "Too much mail data (max 10485760 bytes)"
  {
    Digits10485760();
    assert "Too much mail data (max " + "10485760" + " bytes)" == "Too much mail data (max 10485760 bytes)";
  }

  lemma Digits64()
    ensures NatToString(64) == "64"
  {
    assert NatToString(64) == NatToString(6) + "4";
  }

  lemma Digits256()
    ensures NatToString(256) == "256"
  {
    assert NatToString(25) == NatToString(2) + "5";
    assert NatToString(256) == NatToString(25) + "6";
  }

  lemma Digits512()
    ensures NatToString(512) == "512"
  {
    assert NatToString(51) == NatToString(5) + "1";
    assert NatToString(512) == NatToString(51) + "2";
  }

  lemma Digits1000()
    ensures NatToString(1000) == "1000"
  {
    assert NatToString(10) == NatToString(1) + "0";
    assert NatToString(100) == NatToString(10) + "0";
    assert NatToString(1000) == NatToString(100) + "0";
  }

  lemma Digits100()
    ensures NatToString(100) == "100"
  {
    assert NatToString(10) == NatToString(1) + "0";
    assert NatToString(100) == NatToString(10) + "0";
  }

  lemma Digits10485760()
    ensures NatToString(10485760) == "10485760"
  {
    assert NatToString(10) == NatToString(1) + "0";
    assert NatToString(104) == NatToString(10) + "4";
    assert NatToString(1048) == NatToString(104) + "8";
    assert NatToString(10485) == NatToString(1048) + "5";
    assert NatToString(104857) == NatToString(10485) + "7";
    assert NatToString(1048576) == NatToString(104857) + "6";
    assert NatToString(10485760) == NatToString(1048576) + "0";
  }
}
