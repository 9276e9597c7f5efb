/** Whole runs of a channel, read through what the client sees: the lines it sent and the
    replies it got. The open transaction is recomputed from that transcript alone. */
module SmtpRuns {
  import opened Wrappers
  import opened Text
  import opened SmtpChannel

  datatype Event = Collect(text: string) | Found(outcome: Outcome)

  /** The channel after a sequence of calls, and one entry per found_terminator call. A closed
      channel gets no further calls. */
  function Run(c: Chan, events: seq<Event>): (r: (Chan, seq<Entry>))
    decreases |events|
  {
    if events == [] || !c.open then (c, [])
    else match events[0]
      case Collect(text) => Run(c.(pieces := c.pieces + [text]), events[1..])
      case Found(outcome) =>
        var h := Handle(c, outcome);
        var rest := Run(h.0, events[1..]);
        (rest.0, [h.1] + rest.1)
  }

  // ---------- the transcript read as transactions ----------

  /** What the client has been told was accepted. */
  datatype Act = Sender(address: string) | Recipient(address: string) | Begin | End

  function AddressIn(keyword: string, line: string): string {
    var a := GetAddr(keyword, Argument(line));
    if a.Some? then a.value else ""
  }

  function ActsOf(e: Entry): seq<Act> {
    match e
    case Exchange(line, reply) =>
      (match WordOf(Verb(line))
       case MAIL => if reply == Ok then [Sender(AddressIn("FROM:", line))] else []
       case RCPT => if reply == Ok then [Recipient(AddressIn("TO:", line))] else []
       case RSET => if reply == Ok then [End] else []
       case DATA => if reply == StartInput then [Begin] else []
       case _ => [])
    case Submission(_, _, outcome) => if outcome.Returned? then [End] else []
  }

  function Acts(history: seq<Entry>): seq<Act> {
    if history == [] then []
    else Acts(history[..|history| - 1]) + ActsOf(history[|history| - 1])
  }

  /** The acts since the last accepted RSET or completed delivery. */
  function OpenPart(acts: seq<Act>): seq<Act> {
    if acts == [] || acts[|acts| - 1].End? then []
    else OpenPart(acts[..|acts| - 1]) + [acts[|acts| - 1]]
  }

  function Recipients(addresses: seq<string>): (r: seq<Act>)
    ensures |r| == |addresses| && forall i :: 0 <= i < |r| ==> r[i] == Recipient(addresses[i])
  {
    seq(|addresses|, i requires 0 <= i < |addresses| => Recipient(addresses[i]))
  }

  /** One MAIL, then the recipients in order. */
  function Transaction(mailfrom: Option<string>, rcpttos: seq<string>): seq<Act> {
    (if mailfrom.Some? then [Sender(mailfrom.value)] else []) + Recipients(rcpttos)
  }

  /** The greeting accepted so far. */
  function Greeting(history: seq<Entry>): Option<string> {
    if history == [] then None
    else GreetingAfter(Greeting(history[..|history| - 1]), history[|history| - 1])
  }

  function GreetingAfter(greeting: Option<string>, e: Entry): Option<string> {
    if e.Exchange? && e.reply.Welcome? then Argument(e.line) else greeting
  }

  /** All a client needs to remember of the transcript. */
  datatype View = View(open: seq<Act>, greeting: Option<string>)

  function ViewOf(history: seq<Entry>): View {
    View(OpenPart(Acts(history)), Greeting(history))
  }

  /** The channel holds exactly the open transaction and the greeting. */
  ghost predicate Holds(c: Chan, v: View) {
    && v.open == Transaction(c.mailfrom, c.rcpttos) + (if c.mode.Data? then [Begin] else [])
    && v.greeting == c.greeting && (c.greeting.Some? ==> c.greeting.value != "")
  }

  // ---------- one step of the transcript ----------

  function Advance(open: seq<Act>, acts: seq<Act>): seq<Act> {
    if acts == [] then open else if acts[0].End? then [] else open + acts
  }

  function AdvanceView(v: View, e: Entry): View {
    View(Advance(v.open, ActsOf(e)), GreetingAfter(v.greeting, e))
  }

  lemma {:induction false} OpenAppend(acts: seq<Act>, more: seq<Act>)
    requires |more| <= 1
    ensures OpenPart(acts + more) == Advance(OpenPart(acts), more)
  {
    var s := acts + more;
    if more == [] {
      assert s == acts;
    } else {
      assert s[..|s| - 1] == acts && s[|s| - 1] == more[0] && more == [more[0]];
    }
  }

  lemma AtMostOneAct(e: Entry)
    ensures |ActsOf(e)| <= 1
  {
  }

  lemma {:induction false} ViewStep(history: seq<Entry>, e: Entry)
    ensures ViewOf(history + [e]) == AdvanceView(ViewOf(history), e)
  {
    var h := history + [e];
    assert h[..|h| - 1] == history && h[|h| - 1] == e;
    AtMostOneAct(e);
    OpenAppend(Acts(history), ActsOf(e));
  }

  // ---------- what every entry must satisfy ----------

  /** Each reply is decided by the line and the transcript before it. */
  ghost predicate Orderly(line: string, reply: Reply, v: View) {
    var arg := Argument(line);
    if line == "" then reply == BadSyntax
    else match WordOf(Verb(line))
      case HELO => (reply == HeloSyntax <==> !Truthy(arg))
                   && (reply.Welcome? <==> Truthy(arg) && v.greeting.None?)
                   && (reply == DuplicateHelo <==> Truthy(arg) && v.greeting.Some?)
      case NOOP => reply == if Truthy(arg) then NoopSyntax else Ok
      case QUIT => reply == Bye
      case MAIL => reply == if AddressIn("FROM:", line) == "" then MailSyntax
                            else if v.open != [] then NestedMail else Ok
      case RCPT => reply == if v.open == [] then NeedMail
                            else if AddressIn("TO:", line) == "" then RcptSyntax else Ok
      case RSET => reply == if Truthy(arg) then RsetSyntax else Ok
      case DATA => reply == if |v.open| < 2 then NeedRcpt else if Truthy(arg) then DataSyntax else StartInput
      case OTHER => reply == NotImplemented(Verb(line))
  }

  /** A process_message call carries the sender of the one open MAIL, exactly the open recipients
      in order, and the unstuffed text. */
  ghost predicate Faithful(line: string, call: Envelope, v: View) {
    && call.mailfrom.Some? && call.mailfrom.value != "" && call.rcpttos != []
    && v.open == Transaction(call.mailfrom, call.rcpttos) + [Begin]
    && call.data == MessageText(line)
  }

  ghost predicate Correct(e: Entry, v: View) {
    match e
    case Exchange(line, reply) => (v.open == [] || !v.open[|v.open| - 1].Begin?) && Orderly(line, reply, v)
    case Submission(line, call, _) => Faithful(line, call, v)
  }

  // ---------- one step of the channel ----------

  /** The step is correct and keeps the channel and the transcript together. */
  ghost predicate Fine(c: Chan, e: Entry, v: View) {
    Correct(e, v) && Holds(c, AdvanceView(v, e))
  }

  lemma HeloFine(c: Chan, line: string, v: View)
    requires Valid(c) && c.mode.Command? && Holds(c, v) && line != "" && WordOf(Verb(line)) == HELO
    ensures var r := Helo(c, Argument(line)); Fine(r.0, Exchange(line, r.1), v)
  {
  }

  lemma MailFine(c: Chan, line: string, v: View)
    requires Valid(c) && c.mode.Command? && Holds(c, v) && line != "" && WordOf(Verb(line)) == MAIL
    ensures var r := Mail(c, Argument(line)); Fine(r.0, Exchange(line, r.1), v)
  {
    var r := Mail(c, Argument(line));
    if r.1 == Ok {
      assert c.mailfrom.None? && c.rcpttos == [];
    }
  }

  lemma TransactionSnoc(mailfrom: Option<string>, rcpttos: seq<string>, address: string)
    ensures Transaction(mailfrom, rcpttos + [address]) == Transaction(mailfrom, rcpttos) + [Recipient(address)]
  {
    assert Recipients(rcpttos + [address]) == Recipients(rcpttos) + [Recipient(address)];
  }

  lemma RcptFine(c: Chan, line: string, v: View)
    requires Valid(c) && c.mode.Command? && Holds(c, v) && line != "" && WordOf(Verb(line)) == RCPT
    ensures var r := Rcpt(c, Argument(line)); Fine(r.0, Exchange(line, r.1), v)
  {
    var r := Rcpt(c, Argument(line));
    if c.mailfrom.Some? && r.1 == Ok {
      TransactionSnoc(c.mailfrom, c.rcpttos, AddressIn("TO:", line));
    }
  }

  lemma RsetFine(c: Chan, line: string, v: View)
    requires Valid(c) && c.mode.Command? && Holds(c, v) && line != "" && WordOf(Verb(line)) == RSET
    ensures var r := Rset(c, Argument(line)); Fine(r.0, Exchange(line, r.1), v)
  {
  }

  lemma DataFine(c: Chan, line: string, v: View)
    requires Valid(c) && c.mode.Command? && Holds(c, v) && line != "" && WordOf(Verb(line)) == DATA
    ensures var r := StartData(c, Argument(line)); Fine(r.0, Exchange(line, r.1), v)
  {
    assert |v.open| == (if c.mailfrom.Some? then 1 else 0) + |c.rcpttos|;
  }

  lemma {:induction false} CommandFine(c: Chan, line: string, v: View)
    requires Valid(c) && c.mode.Command? && Holds(c, v) && line != ""
    ensures var r := Dispatch(c, Verb(line), Argument(line)); Fine(r.0, Exchange(line, r.1), v)
  {
    match WordOf(Verb(line))
    case HELO => HeloFine(c, line, v);
    case MAIL => MailFine(c, line, v);
    case RCPT => RcptFine(c, line, v);
    case RSET => RsetFine(c, line, v);
    case DATA => DataFine(c, line, v);
    case _ =>
  }

  lemma {:induction false} HandleFine(c: Chan, outcome: Outcome, v: View)
    requires Valid(c) && Holds(c, v)
    ensures var r := Handle(c, outcome); Fine(r.0, r.1, v)
  {
    hide Dispatch, Finish, MessageText;
    var line := Concat(c.pieces);
    if c.mode.Command? {
      if line == "" {
        EmptyLine();
      } else {
        CommandFine(c.(pieces := []), line, v);
      }
    } else {
      SubmissionFine(c.(pieces := []), line, outcome, v);
    }
  }

  lemma SubmissionFine(c: Chan, line: string, outcome: Outcome, v: View)
    requires Valid(c) && c.mode.Data? && Holds(c, v)
    ensures Fine(Finish(c, line, outcome), Submission(line, CallOf(c, line), outcome), v)
  {
  }

  lemma EmptyLine()
    ensures Verb("") == "" && WordOf(Verb("")) == OTHER
  {
    assert Find("", " ").None?;
  }

  // ---------- the theorem ----------

  /** All entries of a run that continues `prior` are correct, and its final state holds what the
      whole transcript says. */
  ghost predicate Good(prior: seq<Entry>, r: (Chan, seq<Entry>)) {
    && Valid(r.0) && Holds(r.0, ViewOf(prior + r.1))
    && forall k :: 0 <= k < |r.1| ==> Correct(r.1[k], ViewOf(prior + r.1[..k]))
  }

  lemma PrefixShift(prior: seq<Entry>, e: Entry, tail: seq<Entry>, k: nat)
    requires 1 <= k <= |tail| + 1
    ensures prior + ([e] + tail)[..k] == (prior + [e]) + tail[..k - 1]
  {
  }

  lemma {:induction false} ConsCorrect(prior: seq<Entry>, e: Entry, tail: seq<Entry>, k: nat)
    requires Correct(e, ViewOf(prior)) && k <= |tail|
    requires forall j :: 0 <= j < |tail| ==> Correct(tail[j], ViewOf((prior + [e]) + tail[..j]))
    ensures Correct(([e] + tail)[k], ViewOf(prior + ([e] + tail)[..k]))
  {
    if k == 0 {
      assert prior + ([e] + tail)[..0] == prior;
    } else {
      PrefixShift(prior, e, tail, k);
    }
  }

  lemma {:induction false} ConsGood(prior: seq<Entry>, e: Entry, tail: (Chan, seq<Entry>))
    requires Correct(e, ViewOf(prior)) && Good(prior + [e], tail)
    ensures Good(prior, (tail.0, [e] + tail.1))
  {
    var all := [e] + tail.1;
    PrefixShift(prior, e, tail.1, |all|);
    assert all[..|all|] == all && tail.1[..|all| - 1] == tail.1;
    forall k | 0 <= k < |all| ensures Correct(all[k], ViewOf(prior + all[..k])) {
      ConsCorrect(prior, e, tail.1, k);
    }
  }

  lemma {:induction false} RunCorrect(c: Chan, events: seq<Event>, prior: seq<Entry>)
    requires Valid(c) && Holds(c, ViewOf(prior))
    ensures Good(prior, Run(c, events))
    decreases |events|
  {
    if events == [] || !c.open {
      assert prior + [] == prior;
    } else {
      match events[0]
      case Collect(text) =>
        RunCorrect(c.(pieces := c.pieces + [text]), events[1..], prior);
      case Found(outcome) =>
        var h := Handle(c, outcome);
        HandleValid(c, outcome);
        HandleFine(c, outcome, ViewOf(prior));
        ViewStep(prior, h.1);
        RunCorrect(h.0, events[1..], prior + [h.1]);
        ConsGood(prior, h.1, Run(h.0, events[1..]));
    }
  }

  /** A fresh channel, as its constructor leaves it. */
  function Fresh(fqdn: string): Chan {
    Chan(fqdn, [], Command, None, None, [], "", CRLF, true, false)
  }

  /** In every run, every process_message call gets the sender of the one MAIL accepted since the
      last accepted RSET or completed delivery, and exactly the recipients accepted since, in order;
      and every reply is the one the transcript before it calls for. */
  lemma EveryEntryCorrect(fqdn: string, events: seq<Event>)
    ensures var r := Run(Fresh(fqdn), events);
            && Valid(r.0)
            && forall k :: 0 <= k < |r.1| ==> Correct(r.1[k], ViewOf(r.1[..k]))
  {
    var r := Run(Fresh(fqdn), events);
    RunCorrect(Fresh(fqdn), events, []);
    forall k | 0 <= k < |r.1| ensures Correct(r.1[k], ViewOf(r.1[..k])) {
      assert [] + r.1[..k] == r.1[..k];
    }
  }

  // ---------- the replies, and the end of a connection ----------

  /** Everything the client reads back. */
  function Replies(entries: seq<Entry>): seq<Reply> {
    if entries == [] then [] else Pushed(entries[0]) + Replies(entries[1..])
  }

  predicate HasRaised(e: Entry) {
    e.Submission? && e.outcome.Raised?
  }

  /** What is sent for one call: the reply to a command; after a message 250 Ok when process_message
      returned None or an empty text, else that text; nothing when it raised. */
  lemma SentFor(line: string, reply: Reply, call: Envelope, status: string)
    ensures Pushed(Exchange(line, reply)) == [reply]
    ensures Pushed(Submission(line, call, Returned(None))) == [Ok]
    ensures Pushed(Submission(line, call, Returned(Some("")))) == [Ok]
    ensures status != "" ==> Pushed(Submission(line, call, Returned(Some(status)))) == [Status(status)]
    ensures Pushed(Submission(line, call, Raised)) == []
  {
  }

  /** What the channel has in the end as data is what it handed over. */
  lemma KeepsData(c: Chan, outcome: Outcome)
    requires c.mode.Data?
    ensures var r := Handle(c, outcome); r.1.Submission? && r.0.data == r.1.call.data
  {
  }

  lemma OneReply(e: Entry)
    ensures |Pushed(e)| == if HasRaised(e) then 0 else 1
  {
  }

  /** In every run each call is answered by exactly one reply, unless process_message raised: that is
      then the last call, and the connection is closed by nothing else. */
  lemma {:induction false} RunReplies(c: Chan, events: seq<Event>)
    requires c.open
    ensures var r := Run(c, events);
            && (forall k :: 0 <= k < |r.1| && HasRaised(r.1[k]) ==> k == |r.1| - 1)
            && (!r.0.open <==> r.1 != [] && HasRaised(r.1[|r.1| - 1]))
            && |Replies(r.1)| == if r.0.open then |r.1| else |r.1| - 1
    decreases |events|
  {
    if events != [] {
      match events[0]
      case Collect(text) =>
        RunReplies(c.(pieces := c.pieces + [text]), events[1..]);
      case Found(outcome) =>
        var h := Handle(c, outcome);
        hide Handle;
        OneReply(h.1);
        OpenUnlessRaised(c, outcome);
        if h.0.open {
          RunReplies(h.0, events[1..]);
        }
        RepliesCons(h.1, Run(h.0, events[1..]).1);
    }
  }

  lemma RepliesCons(e: Entry, tail: seq<Entry>)
    ensures Replies([e] + tail) == Pushed(e) + Replies(tail)
    ensures forall k :: 0 < k < |[e] + tail| ==> ([e] + tail)[k] == tail[k - 1]
  {
    assert ([e] + tail)[1..] == tail;
  }

  lemma OpenUnlessRaised(c: Chan, outcome: Outcome)
    requires c.open
    ensures Handle(c, outcome).0.open <==> !HasRaised(Handle(c, outcome).1)
  {
    hide Dispatch;
    DispatchKeeps(c.(pieces := []), Verb(Concat(c.pieces)), Argument(Concat(c.pieces)));
  }

  lemma DispatchKeeps(c: Chan, verb: string, arg: Option<string>)
    ensures Dispatch(c, verb, arg).0.open == c.open
    ensures Dispatch(c, verb, arg).0.closing <==> c.closing || WordOf(verb) == QUIT
  {
  }

  /** The client asked for the end of the connection. */
  predicate AskedToQuit(e: Entry) {
    e.Exchange? && e.line != "" && WordOf(Verb(e.line)) == QUIT
  }

  /** The channel is set to close after its output exactly when the client sent QUIT. */
  lemma {:induction false} ClosingIffQuit(c: Chan, events: seq<Event>)
    ensures Run(c, events).0.closing <==>
            c.closing || exists k :: 0 <= k < |Run(c, events).1| && AskedToQuit(Run(c, events).1[k])
    decreases |events|
  {
    if events != [] && c.open {
      match events[0]
      case Collect(text) =>
        ClosingIffQuit(c.(pieces := c.pieces + [text]), events[1..]);
      case Found(outcome) =>
        var h := Handle(c, outcome);
        ClosingStep(c, outcome);
        ClosingIffQuit(h.0, events[1..]);
        QuitAmong(h.1, Run(h.0, events[1..]).1);
    }
  }

  lemma ClosingStep(c: Chan, outcome: Outcome)
    ensures Handle(c, outcome).0.closing <==> c.closing || AskedToQuit(Handle(c, outcome).1)
  {
    hide Dispatch;
    DispatchKeeps(c.(pieces := []), Verb(Concat(c.pieces)), Argument(Concat(c.pieces)));
  }

  lemma QuitAmong(e: Entry, tail: seq<Entry>)
    ensures (exists k :: 0 <= k < |[e] + tail| && AskedToQuit(([e] + tail)[k])) <==>
            AskedToQuit(e) || exists k :: 0 <= k < |tail| && AskedToQuit(tail[k])
  {
    var all := [e] + tail;
    if AskedToQuit(e) {
      assert AskedToQuit(all[0]);
    }
    forall k | 0 <= k < |tail| && AskedToQuit(tail[k]) ensures exists j :: 0 <= j < |all| && AskedToQuit(all[j]) {
      assert all[k + 1] == tail[k];
    }
  }

  // ---------- chunking ----------

  /** The lines a run hands over: the text collected between two terminators, joined. */
  function Frames(pending: string, events: seq<Event>): seq<(string, Outcome)>
    decreases |events|
  {
    if events == [] then []
    else match events[0]
      case Collect(text) => Frames(pending + text, events[1..])
      case Found(outcome) => [(pending, outcome)] + Frames("", events[1..])
  }

  function RunFrames(c: Chan, frames: seq<(string, Outcome)>): seq<Entry>
    decreases |frames|
  {
    if frames == [] || !c.open then []
    else
      var h := Handle(c.(pieces := [frames[0].0]), frames[0].1);
      [h.1] + RunFrames(h.0, frames[1..])
  }

  lemma {:induction false} RunIsRunFrames(c: Chan, events: seq<Event>)
    ensures Run(c, events).1 == RunFrames(c.(pieces := []), Frames(Concat(c.pieces), events))
    decreases |events|
  {
    if events == [] || !c.open {
    } else if events[0].Collect? {
      RunIsRunFrames(c.(pieces := c.pieces + [events[0].text]), events[1..]);
      ConcatAppend(c.pieces, [events[0].text]);
      assert Concat([events[0].text]) == events[0].text;
    } else {
      var line := Concat(c.pieces);
      var h := Handle(c, events[0].outcome);
      assert Concat([line]) == line;
      assert c.(pieces := []).(pieces := [line]) == c.(pieces := [line]);
      assert h == Handle(c.(pieces := [line]), events[0].outcome);
      RunIsRunFrames(h.0, events[1..]);
      HandleClearsPieces(c, events[0].outcome);
    }
  }

  /** How the bytes were cut into collect_incoming_data calls never matters. */
  lemma ChunkingIrrelevant(c: Chan, one: seq<Event>, other: seq<Event>)
    requires Frames(Concat(c.pieces), one) == Frames(Concat(c.pieces), other)
    ensures Run(c, one).1 == Run(c, other).1
  {
    RunIsRunFrames(c, one);
    RunIsRunFrames(c, other);
  }
}
