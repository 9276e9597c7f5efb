/** The SMTP channel of smtpd.py: a machine with a COMMAND and a DATA mode, driven by
    collect_incoming_data and found_terminator. `Chan` and `Handle` are its specification;
    the class SMTPChannel is the object itself, proved against them. */
module SmtpChannel {
  import opened Wrappers
  import opened Text

  const CRLF := "\r\n"
  const DOT_LINE := "\r\n.\r\n"

  /** The reply lines, each with its code and text. */
  datatype Reply =
    | Banner(fqdn: string, version: string)  // 220 <fqdn> <version>
    | Bye                                    // 221 Bye
    | Ok                                     // 250 Ok
    | Welcome(fqdn: string)                  // 250 <fqdn>
    | StartInput                             // 354 End data with <CR><LF>.<CR><LF>
    | BadSyntax                              // 500 Error: bad syntax
    | HeloSyntax                             // 501 Syntax: HELO hostname
    | NoopSyntax                             // 501 Syntax: NOOP
    | MailSyntax                             // 501 Syntax: MAIL FROM:<address>
    | RcptSyntax                             // 501 Syntax: RCPT TO: <address>
    | RsetSyntax                             // 501 Syntax: RSET
    | DataSyntax                             // 501 Syntax: DATA
    | NotImplemented(verb: string)           // 502 Error: command "<verb>" not implemented
    | DuplicateHelo                          // 503 Duplicate HELO/EHLO
    | NestedMail                             // 503 Error: nested MAIL command
    | NeedMail                               // 503 Error: need MAIL command
    | NeedRcpt                               // 503 Error: need RCPT command
    | Status(text: string)                   // whatever process_message returned

  datatype Mode = Command | Data

  /** The arguments of one process_message call (the peer is fixed for a channel). */
  datatype Envelope = Envelope(mailfrom: Option<string>, rcpttos: seq<string>, data: string)

  /** How process_message ends: it returns a status (None or a reply), or it raises, in which
      case the dispatcher closes the connection. */
  datatype Outcome = Returned(status: Option<string>) | Raised

  datatype Chan = Chan(
    fqdn: string,
    pieces: seq<string>,
    mode: Mode,
    greeting: Option<string>,
    mailfrom: Option<string>,
    rcpttos: seq<string>,
    data: string,
    terminator: string,
    open: bool,
    closing: bool)

  /** What one found_terminator call shows to the outside: a line answered by a reply, or a
      message handed to process_message. */
  datatype Entry =
    | Exchange(line: string, reply: Reply)
    | Submission(line: string, call: Envelope, outcome: Outcome)

  ghost predicate Valid(c: Chan) {
    && (c.terminator == match c.mode case Command => CRLF case Data => DOT_LINE)
    && (c.mode.Data? ==> c.rcpttos != [])
    && (c.rcpttos != [] ==> c.mailfrom.Some?)
    && (c.mailfrom.Some? ==> c.mailfrom.value != "")
    && (forall r :: r in c.rcpttos ==> r != "")
  }

  // ---------- parsing ----------

  /** Python truth of an optional string. */
  predicate Truthy(o: Option<string>) {
    o.Some? && o.value != ""
  }

  function Verb(line: string): string {
    match Find(line, " ")
    case None => Upper(line)
    case Some(i) => Upper(line[..i])
  }

  function Argument(line: string): Option<string> {
    match Find(line, " ")
    case None => None
    case Some(i) => Some(Strip(line[i + 1..]))
  }

  function Clip(s: string, n: nat): string {
    if n <= |s| then s[..n] else s
  }

  /** The private __getaddr, called only with a non-empty argument. */
  function GetAddr(keyword: string, arg: Option<string>): Option<string> {
    if !Truthy(arg) then None
    else if Upper(Clip(arg.value, |keyword|)) != keyword then None
    else
      var address := Strip(arg.value[|keyword|..]);
      if address == "" then Some(address)
      else if address[0] == '<' && address[|address| - 1] == '>' && address != "<>"
      then Some(address[1..|address| - 1])
      else Some(address)
  }

  // ---------- commands ----------

  function Helo(c: Chan, arg: Option<string>): (Chan, Reply) {
    if !Truthy(arg) then (c, HeloSyntax)
    else if Truthy(c.greeting) then (c, DuplicateHelo)
    else (c.(greeting := arg), Welcome(c.fqdn))
  }

  function Noop(c: Chan, arg: Option<string>): (Chan, Reply) {
    (c, if Truthy(arg) then NoopSyntax else Ok)
  }

  function Quit(c: Chan): (Chan, Reply) {
    (c.(closing := true), Bye)
  }

  function Mail(c: Chan, arg: Option<string>): (Chan, Reply) {
    var address := GetAddr("FROM:", arg);
    if !Truthy(address) then (c, MailSyntax)
    else if Truthy(c.mailfrom) then (c, NestedMail)
    else (c.(mailfrom := address), Ok)
  }

  function Rcpt(c: Chan, arg: Option<string>): (Chan, Reply) {
    if !Truthy(c.mailfrom) then (c, NeedMail)
    else
      var address := GetAddr("TO:", arg);
      if !Truthy(address) then (c, RcptSyntax)
      else (c.(rcpttos := c.rcpttos + [address.value]), Ok)
  }

  function Rset(c: Chan, arg: Option<string>): (Chan, Reply) {
    if Truthy(arg) then (c, RsetSyntax)
    else (c.(mailfrom := None, rcpttos := [], data := "", mode := Command), Ok)
  }

  function StartData(c: Chan, arg: Option<string>): (Chan, Reply) {
    if c.rcpttos == [] then (c, NeedRcpt)
    else if Truthy(arg) then (c, DataSyntax)
    else (c.(mode := Data, terminator := DOT_LINE), StartInput)
  }

  /** The commands that have a handler method. */
  datatype Word = HELO | NOOP | QUIT | MAIL | RCPT | RSET | DATA | OTHER

  function WordOf(verb: string): Word {
    if verb == "HELO" then HELO
    else if verb == "NOOP" then NOOP
    else if verb == "QUIT" then QUIT
    else if verb == "MAIL" then MAIL
    else if verb == "RCPT" then RCPT
    else if verb == "RSET" then RSET
    else if verb == "DATA" then DATA
    else OTHER
  }

  function Dispatch(c: Chan, verb: string, arg: Option<string>): (Chan, Reply) {
    match WordOf(verb)
    case HELO => Helo(c, arg)
    case NOOP => Noop(c, arg)
    case QUIT => Quit(c)
    case MAIL => Mail(c, arg)
    case RCPT => Rcpt(c, arg)
    case RSET => Rset(c, arg)
    case DATA => StartData(c, arg)
    case OTHER => (c, NotImplemented(verb))
  }

  // ---------- data ----------

  /** De-transparency of one line (section 4.5.2 of RFC 821). */
  function Unstuff(text: string): string {
    if text != "" && text[0] == '.' then text[1..] else text
  }

  function UnstuffAll(texts: seq<string>): (r: seq<string>)
    ensures |r| == |texts| && forall i :: 0 <= i < |texts| ==> r[i] == Unstuff(texts[i])
  {
    seq(|texts|, i requires 0 <= i < |texts| => Unstuff(texts[i]))
  }

  function MessageText(line: string): string {
    Join(UnstuffAll(SplitOn(line, CRLF)), "\n")
  }

  function CallOf(c: Chan, line: string): Envelope {
    Envelope(c.mailfrom, c.rcpttos, MessageText(line))
  }

  // ---------- found_terminator ----------

  function Finish(c: Chan, line: string, outcome: Outcome): Chan {
    var d := c.(data := MessageText(line));
    match outcome
    case Raised => d.(open := false)
    case Returned(_) => d.(rcpttos := [], mailfrom := None, mode := Command, terminator := CRLF)
  }

  function Handle(c0: Chan, outcome: Outcome): (Chan, Entry) {
    var line := Concat(c0.pieces);
    var c := c0.(pieces := []);
    match c.mode
    case Command =>
      if line == "" then (c, Exchange(line, BadSyntax))
      else
        var r := Dispatch(c, Verb(line), Argument(line));
        (r.0, Exchange(line, r.1))
    case Data =>
      (Finish(c, line, outcome), Submission(line, CallOf(c, line), outcome))
  }

  /** The replies one entry pushes. */
  function Pushed(e: Entry): seq<Reply> {
    match e
    case Exchange(_, reply) => [reply]
    case Submission(_, _, Raised) => []
    case Submission(_, _, Returned(status)) => [if Truthy(status) then Status(status.value) else Ok]
  }

  function Called(e: Entry): seq<Envelope> {
    match e
    case Exchange(_, _) => []
    case Submission(_, call, _) => [call]
  }

  lemma MailValid(c: Chan, arg: Option<string>)
    requires Valid(c)
    ensures Valid(Mail(c, arg).0)
  {
  }

  lemma RcptValid(c: Chan, arg: Option<string>)
    requires Valid(c)
    ensures Valid(Rcpt(c, arg).0)
  {
  }

  lemma DataValid(c: Chan, arg: Option<string>)
    requires Valid(c) && c.mode.Command?
    ensures Valid(StartData(c, arg).0) && Valid(Rset(c, arg).0)
  {
  }

  lemma DispatchValid(c: Chan, verb: string, arg: Option<string>)
    requires Valid(c) && c.mode.Command?
    ensures Valid(Dispatch(c, verb, arg).0)
  {
    match WordOf(verb)
    case MAIL => MailValid(c, arg);
    case RCPT => RcptValid(c, arg);
    case RSET => DataValid(c, arg);
    case DATA => DataValid(c, arg);
    case _ =>
  }

  lemma {:induction false} HandleValid(c: Chan, outcome: Outcome)
    requires Valid(c)
    ensures Valid(Handle(c, outcome).0)
  {
    if c.mode.Command? {
      var line := Concat(c.pieces);
      DispatchValid(c.(pieces := []), Verb(line), Argument(line));
    }
  }

  lemma HandleClearsPieces(c: Chan, outcome: Outcome)
    ensures Handle(c, outcome).0.pieces == []
  {
    if c.mode.Command? && Concat(c.pieces) != "" {
      var line, d := Concat(c.pieces), c.(pieces := []);
      assert Dispatch(d, Verb(line), Argument(line)).0.pieces == [];
    }
  }

  // ---------- the channel object ----------

  class SMTPChannel {
    const fqdn: string
    var pieces: seq<string>
    var mode: Mode
    var greeting: Option<string>
    var mailfrom: Option<string>
    var rcpttos: seq<string>
    var data: string
    var terminator: string
    var open: bool
    var closing: bool
    var sent: seq<Reply>
    var calls: seq<Envelope>

    ghost function State(): Chan
      reads this
    {
      Chan(fqdn, pieces, mode, greeting, mailfrom, rcpttos, data, terminator, open, closing)
    }

    constructor (fqdn: string, version: string)
      ensures State() == Chan(fqdn, [], Command, None, None, [], "", CRLF, true, false)
      ensures Valid(State())
      ensures sent == [Banner(fqdn, version)] && calls == []
    {
      this.fqdn := fqdn;
      pieces, mode, greeting, mailfrom, rcpttos, data := [], Command, None, None, [], "";
      open, closing, calls := true, false, [];
      sent := [Banner(fqdn, version)];
      terminator := CRLF;
    }

    method Push(msg: Reply)
      modifies this`sent
      ensures sent == old(sent) + [msg]
    {
      sent := sent + [msg];
    }

    method CollectIncomingData(text: string)
      modifies this`pieces
      ensures pieces == old(pieces) + [text]
    {
      pieces := pieces + [text];
    }

    /** `outcome` is how the server's process_message ends, if this call reaches it. */
    method FoundTerminator(outcome: Outcome)
      requires open && Valid(State())
      modifies this
      ensures State() == Handle(old(State()), outcome).0
      ensures Valid(State())
      ensures sent == old(sent) + Pushed(Handle(old(State()), outcome).1)
      ensures calls == old(calls) + Called(Handle(old(State()), outcome).1)
    {
      hide Dispatch, Finish, MessageText;
      HandleValid(State(), outcome);
      var line := Concat(pieces);
      pieces := [];
      if mode.Command? {
        if line == "" {
          Push(BadSyntax);
          return;
        }
        var command: string, arg: Option<string>;
        var i := Find(line, " ");
        if i.None? {
          command, arg := Upper(line), None;
        } else {
          command, arg := Upper(line[..i.value]), Some(Strip(line[i.value + 1..]));
        }
        CallCommand(command, arg);
      } else {
        SubmitMessage(line, outcome);
      }
    }

    /** The getattr dispatch on the command word. */
    method CallCommand(command: string, arg: Option<string>)
      requires mode.Command?
      modifies this
      ensures (State(), sent) == (Dispatch(old(State()), command, arg).0, old(sent)
          + [Dispatch(old(State()), command, arg).1])
      ensures calls == old(calls)
    {
      match WordOf(command) {
        case HELO => SmtpHelo(arg);
        case NOOP => SmtpNoop(arg);
        case QUIT => SmtpQuit();
        case MAIL => SmtpMail(arg);
        case RCPT => SmtpRcpt(arg);
        case RSET => SmtpRset(arg);
        case DATA => SmtpData(arg);
        case OTHER => Push(NotImplemented(command));
      }
    }

    /** The de-transparency loop. */
    static method UnstuffLines(texts: seq<string>) returns (lines: seq<string>)
      ensures lines == UnstuffAll(texts)
    {
      lines := [];
      for k := 0 to |texts|
        invariant |lines| == k && forall i :: 0 <= i < k ==> lines[i] == Unstuff(texts[i])
      {
        var text := texts[k];
        if text != "" && text[0] == '.' {
          lines := lines + [text[1..]];
        } else {
          lines := lines + [text];
        }
      }
    }

    /** Split, strip and join: the text of the message. */
    static method ReadMessage(line: string) returns (text: string)
      ensures text == MessageText(line)
    {
      var lines := UnstuffLines(SplitOn(line, CRLF));
      text := Join(lines, "\n");
    }

    /** The DATA branch of found_terminator. */
    method SubmitMessage(line: string, outcome: Outcome)
      modifies this
      ensures State() == Finish(old(State()), line, outcome)
      ensures sent == old(sent) + Pushed(Submission(line, CallOf(old(State()), line), outcome))
      ensures calls == old(calls) + [CallOf(old(State()), line)]
    {
      hide MessageText;
      data := ReadMessage(line);
      calls := calls + [Envelope(mailfrom, rcpttos, data)];
      if outcome.Raised? {
        open := false;
        return;
      }
      rcpttos := [];
      mailfrom := None;
      mode := Command;
      terminator := CRLF;
      assert State() == Finish(old(State()), line, outcome);
      if !Truthy(outcome.status) {
        Push(Ok);
      } else {
        Push(Status(outcome.status.value));
      }
    }

    method SmtpHelo(arg: Option<string>)
      modifies this`greeting, this`sent
      ensures (State(), sent) == (Helo(old(State()), arg).0, old(sent) + [Helo(old(State()), arg).1])
    {
      if !Truthy(arg) {
        Push(HeloSyntax);
        return;
      }
      if Truthy(greeting) {
        Push(DuplicateHelo);
      } else {
        greeting := arg;
        Push(Welcome(fqdn));
      }
    }

    method SmtpNoop(arg: Option<string>)
      modifies this`sent
      ensures sent == old(sent) + [Noop(old(State()), arg).1]
    {
      if Truthy(arg) {
        Push(NoopSyntax);
      } else {
        Push(Ok);
      }
    }

    method SmtpQuit()
      modifies this`closing, this`sent
      ensures (State(), sent) == (Quit(old(State())).0, old(sent) + [Quit(old(State())).1])
    {
      Push(Bye);
      closing := true;
    }

    method SmtpMail(arg: Option<string>)
      modifies this`mailfrom, this`sent
      ensures (State(), sent) == (Mail(old(State()), arg).0, old(sent) + [Mail(old(State()), arg).1])
    {
      var address := GetAddr("FROM:", arg);
      if !Truthy(address) {
        Push(MailSyntax);
        return;
      }
      if Truthy(mailfrom) {
        Push(NestedMail);
        return;
      }
      mailfrom := address;
      Push(Ok);
    }

    method SmtpRcpt(arg: Option<string>)
      modifies this`rcpttos, this`sent
      ensures (State(), sent) == (Rcpt(old(State()), arg).0, old(sent) + [Rcpt(old(State()), arg).1])
    {
      if !Truthy(mailfrom) {
        Push(NeedMail);
        return;
      }
      var address := GetAddr("TO:", arg);
      if !Truthy(address) {
        Push(RcptSyntax);
        return;
      }
      rcpttos := rcpttos + [address.value];
      Push(Ok);
    }

    method SmtpRset(arg: Option<string>)
      modifies this
      ensures (State(), sent) == (Rset(old(State()), arg).0, old(sent) + [Rset(old(State()), arg).1])
      ensures calls == old(calls)
    {
      if Truthy(arg) {
        Push(RsetSyntax);
        return;
      }
      mailfrom := None;
      rcpttos := [];
      data := "";
      mode := Command;
      Push(Ok);
    }

    method SmtpData(arg: Option<string>)
      modifies this`mode, this`terminator, this`sent
      ensures (State(), sent) == (StartData(old(State()), arg).0, old(sent) + [StartData(old(State()), arg).1])
    {
      if rcpttos == [] {
        Push(NeedRcpt);
        return;
      }
      if Truthy(arg) {
        Push(DataSyntax);
        return;
      }
      mode := Data;
      terminator := DOT_LINE;
      Push(StartInput);
    }
  }
}
