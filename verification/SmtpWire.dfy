/** The bytes on the wire: framing by terminator, the transparency procedure of section 4.5.2 of
    RFC 821, and the round trip of whole client sessions. */
module SmtpWire {
  import opened Wrappers
  import opened Text
  import opened SmtpChannel
  import opened SmtpRuns

  // ---------- framing ----------

  datatype FeedResult = FeedResult(chan: Chan, entries: seq<Entry>, rest: string)

  function After(entries: seq<Entry>, f: FeedResult): FeedResult {
    f.(entries := entries + f.entries)
  }

  /** What one frame does to the channel. */
  type Framing = (Chan, string) -> (Chan, Entry)

  /** A channel fed with a byte stream: the bytes before the first terminator make a frame, and so
      on; `rest` is what no terminator has closed yet. */
  function Feed(c: Chan, wire: string, frame: Framing): FeedResult
    decreases |wire|
  {
    if !c.open || c.terminator == "" then FeedResult(c, [], wire)
    else match Find(wire, c.terminator)
      case None => FeedResult(c, [], wire)
      case Some(p) =>
        var h := frame(c, wire[..p]);
        After([h.1], Feed(h.0, wire[p + |c.terminator|..], frame))
  }

  ghost predicate GoesBefore(frame: Framing, c: Chan, wire: string, entries: seq<Entry>, d: Chan, rest: string) {
    Feed(c, wire + rest, frame) == After(entries, Feed(d, rest, frame))
  }

  /** Whatever follows, `wire` takes the channel from `c` to `d` and leaves these entries. */
  ghost predicate Goes(frame: Framing, c: Chan, wire: string, entries: seq<Entry>, d: Chan) {
    forall rest: string :: GoesBefore(frame, c, wire, entries, d, rest)
  }

  lemma GoesFrame(frame: Framing, c: Chan, line: string)
    requires c.open && c.terminator != ""
    requires forall rest: string :: Find(line + c.terminator + rest, c.terminator) == Some(|line|)
    ensures Goes(frame, c, line + c.terminator, [frame(c, line).1], frame(c, line).0)
  {
    forall rest: string
      ensures GoesBefore(frame, c, line + c.terminator, [frame(c, line).1], frame(c, line).0, rest)
    {
      var wire := line + c.terminator + rest;
      assert wire[..|line|] == line && wire[|line| + |c.terminator|..] == rest;
    }
  }

  lemma GoesNowhere(frame: Framing, c: Chan)
    ensures Goes(frame, c, "", [], c)
  {
    forall rest: string ensures GoesBefore(frame, c, "", [], c, rest) {
      assert "" + rest == rest;
      assert [] + Feed(c, rest, frame).entries == Feed(c, rest, frame).entries;
    }
  }

  lemma AfterAfter(e1: seq<Entry>, e2: seq<Entry>, f: FeedResult)
    ensures After(e1, After(e2, f)) == After(e1 + e2, f)
  {
    assert e1 + (e2 + f.entries) == (e1 + e2) + f.entries;
  }

  lemma GoesOn(frame: Framing, c: Chan, w1: string, e1: seq<Entry>, d: Chan, w2: string, e2: seq<Entry>, f: Chan)
    requires Goes(frame, c, w1, e1, d) && Goes(frame, d, w2, e2, f)
    ensures Goes(frame, c, w1 + w2, e1 + e2, f)
  {
    forall rest: string ensures GoesBefore(frame, c, w1 + w2, e1 + e2, f, rest) {
      assert w1 + w2 + rest == w1 + (w2 + rest);
      assert GoesBefore(frame, c, w1, e1, d, w2 + rest);
      assert GoesBefore(frame, d, w2, e2, f, rest);
      AfterAfter(e1, e2, Feed(f, rest, frame));
    }
  }

  /** The frame of an SMTP channel: the bytes are collected, then found_terminator runs. */
  function Frame(c: Chan, line: string, server: Envelope -> Outcome): (Chan, Entry) {
    Handle(c.(pieces := c.pieces + [line]), server(CallOf(c, line)))
  }

  function Serving(server: Envelope -> Outcome): Framing {
    (c: Chan, line: string) => Frame(c, line, server)
  }

  lemma ConcatOne(line: string)
    ensures Concat([line]) == line && Concat([] + [line]) == line
  {
    assert [] + [line] == [line];
  }

  // ---------- transparency ----------

  /** The sender's half of the procedure: a line that starts with a dot gets one more. */
  function Stuff(text: string): string {
    if text != "" && text[0] == '.' then "." + text else text
  }

  function StuffAll(lines: seq<string>): (r: seq<string>)
    ensures |r| == |lines| && forall i :: 0 <= i < |lines| ==> r[i] == Stuff(lines[i])
  {
    seq(|lines|, i requires 0 <= i < |lines| => Stuff(lines[i]))
  }

  lemma StuffFree(text: string)
    requires Free(text, CRLF)
    ensures Free(Stuff(text), CRLF)
  {
    var s := Stuff(text);
    if s != text {
      forall q: nat ensures !At(s, q, CRLF) {
        if q == 0 {
          NotAtByIndex(s, q, CRLF, 0);
        } else {
          AtShift(".", text, q, CRLF);
        }
      }
    }
  }

  /** Nothing in the stuffed text, followed by the terminator, looks like a terminator. */
  ghost predicate NoEarlyDot(text: string, tail: string) {
    forall q: nat :: q < |text| ==> !At(text + DOT_LINE + tail, q, DOT_LINE)
  }

  lemma NotAtByIndex(s: string, q: nat, pat: string, k: nat)
    requires k < |pat| && (q + k >= |s| || s[q + k] != pat[k])
    ensures !At(s, q, pat)
  {
    if At(s, q, pat) {
      AtIndex(s, q, pat, k);
    }
  }

  lemma DotLineStartsWithBreak(s: string, q: nat)
    ensures At(s, q, DOT_LINE) ==> At(s, q, CRLF)
  {
    if At(s, q, DOT_LINE) {
      AtIndex(s, q, DOT_LINE, 0);
      AtIndex(s, q, DOT_LINE, 1);
      assert s[q..q + 2] == CRLF;
    }
  }

  lemma DotFreeIn(line: string, after: string, q: nat)
    requires Free(line, CRLF) && q < |line|
    ensures !At(line + CRLF + after, q, DOT_LINE)
  {
    var s := line + CRLF + after;
    FindAfterFree(line, CRLF, after);
    assert !At(s, q, CRLF);
    DotLineStartsWithBreak(s, q);
  }

  lemma NoDotAtBreak(line: string, after: string, q: nat)
    requires |line| <= q < |line| + 2
    requires after != "" && (after[0] == '.' ==> |after| >= 2 && after[1] == '.')
    ensures !At(line + CRLF + after, q, DOT_LINE)
  {
    var s := line + CRLF + after;
    if q == |line| {
      if after[0] == '.' {
        NotAtByIndex(s, q, DOT_LINE, 3);
      } else {
        NotAtByIndex(s, q, DOT_LINE, 2);
      }
    } else {
      NotAtByIndex(s, q, DOT_LINE, 0);
    }
  }

  lemma AtShift(prefix: string, s: string, q: nat, pat: string)
    requires q >= |prefix|
    ensures At(prefix + s, q, pat) <==> At(s, q - |prefix|, pat)
  {
    if q + |pat| <= |prefix + s| {
      assert (prefix + s)[q..q + |pat|] == s[q - |prefix|..q - |prefix| + |pat|];
    }
  }

  /** The joined stuffed lines never start with a lone dot. */
  lemma StartOfStuffed(lines: seq<string>, tail: string)
    requires lines != []
    ensures var a := Join(StuffAll(lines), CRLF) + DOT_LINE + tail;
            a != "" && (a[0] == '.' ==> |a| >= 2 && a[1] == '.')
  {
    var st := StuffAll(lines);
    assert st[0] == Stuff(lines[0]);
  }

  lemma {:induction false} StuffedHasNoDotLine(lines: seq<string>, tail: string)
    requires lines != [] && forall l :: l in lines ==> Free(l, CRLF)
    ensures NoEarlyDot(Join(StuffAll(lines), CRLF), tail)
  {
    var st := StuffAll(lines);
    var text := Join(st, CRLF);
    StuffFree(lines[0]);
    if |lines| == 1 {
      assert text + DOT_LINE + tail == st[0] + CRLF + ("." + CRLF + tail);
      forall q: nat | q < |text| ensures !At(text + DOT_LINE + tail, q, DOT_LINE) {
        DotFreeIn(st[0], "." + CRLF + tail, q);
      }
    } else {
      var more := lines[1..];
      assert st[1..] == StuffAll(more);
      var after := Join(StuffAll(more), CRLF) + DOT_LINE + tail;
      StuffedHasNoDotLine(more, tail);
      StartOfStuffed(more, tail);
      assert text + DOT_LINE + tail == st[0] + CRLF + after;
      forall q: nat | q < |text| ensures !At(text + DOT_LINE + tail, q, DOT_LINE) {
        if q < |st[0]| {
          DotFreeIn(st[0], after, q);
        } else if q < |st[0]| + 2 {
          NoDotAtBreak(st[0], after, q);
        } else {
          AtShift(st[0] + CRLF, after, q, DOT_LINE);
        }
      }
    }
  }

  /** The first terminator match is exactly the end of the data. */
  lemma FirstMatchIsTheEnd(lines: seq<string>, tail: string)
    requires lines != [] && forall l :: l in lines ==> Free(l, CRLF)
    ensures var body := Join(StuffAll(lines), CRLF);
            Find(body + DOT_LINE + tail, DOT_LINE) == Some(|body|)
  {
    var body := Join(StuffAll(lines), CRLF);
    StuffedHasNoDotLine(lines, tail);
    var s := body + DOT_LINE + tail;
    assert s[|body|..|body| + |DOT_LINE|] == DOT_LINE;
    assert At(s, |body|, DOT_LINE);
    assert forall q: nat :: q < |body| ==> !At(s, q, DOT_LINE);
  }

  /** Split, strip and join undo stuffing: the delivered text is the lines joined with newline. */
  lemma UnstuffStuff(lines: seq<string>)
    requires lines != [] && forall l :: l in lines ==> Free(l, CRLF)
    ensures MessageText(Join(StuffAll(lines), CRLF)) == Join(lines, "\n")
  {
    var st := StuffAll(lines);
    forall p | p in st ensures Free(p, CRLF) {
      var i :| 0 <= i < |st| && st[i] == p;
      assert lines[i] in lines;
      StuffFree(lines[i]);
    }
    SplitJoin(st, CRLF);
    assert UnstuffAll(st) == lines by {
      forall i | 0 <= i < |st| ensures Unstuff(st[i]) == lines[i] {
        assert st[i] == Stuff(lines[i]);
      }
    }
  }

  // ---------- the data section as section 4.5.2 of RFC 821 sends it ----------

  /** Every line followed by CR LF, then the line with the single dot. */
  function DataWire(lines: seq<string>): string {
    if lines == [] then "." + CRLF else Stuff(lines[0]) + CRLF + DataWire(lines[1..])
  }

  lemma {:induction false} DataWireJoin(lines: seq<string>)
    requires lines != []
    ensures DataWire(lines) == Join(StuffAll(lines), CRLF) + DOT_LINE
  {
    var st := StuffAll(lines);
    if |lines| == 1 {
      assert DataWire(lines[1..]) == "." + CRLF;
    } else {
      assert st[1..] == StuffAll(lines[1..]);
      DataWireJoin(lines[1..]);
    }
  }

  /** The first terminator match ends exactly where the data section ends. */
  predicate FramedAtEnd(lines: seq<string>, tail: string) {
    var f := Find(DataWire(lines) + tail, DOT_LINE);
    f.Some? && f.value + |DOT_LINE| == |DataWire(lines)|
  }

  /** A data section is framed as sent, whatever follows, exactly when it has a line. */
  lemma {:induction false} FramedIffNonEmpty(lines: seq<string>)
    requires forall l :: l in lines ==> Free(l, CRLF)
    ensures (forall tail :: FramedAtEnd(lines, tail)) <==> lines != []
  {
    if lines == [] {
      assert !FramedAtEnd(lines, "");
    } else {
      DataWireJoin(lines);
      forall tail ensures FramedAtEnd(lines, tail) {
        FirstMatchIsTheEnd(lines, tail);
      }
    }
  }

  lemma FindIs(s: string, pat: string, p: nat)
    requires At(s, p, pat) && forall q: nat :: q < p ==> !At(s, q, pat)
    ensures Find(s, pat) == Some(p)
  {
  }

  const LONE_DOT := "." + CRLF

  lemma LoneDotStart(tail: string)
    ensures !At(LONE_DOT + tail, 0, DOT_LINE) && !At(LONE_DOT + tail, 2, DOT_LINE)
    ensures At(LONE_DOT + tail, 1, DOT_LINE) <==> At(tail, 0, LONE_DOT)
  {
    var s := LONE_DOT + tail;
    NotAtByIndex(s, 0, DOT_LINE, 0);
    NotAtByIndex(s, 2, DOT_LINE, 0);
    if |tail| >= 3 {
      assert s[1..6] == CRLF + tail[..3];
      assert DOT_LINE == CRLF + LONE_DOT;
      assert tail[0..3] == tail[..3];
      if CRLF + tail[..3] == CRLF + LONE_DOT {
        assert (CRLF + tail[..3])[2..] == tail[..3] && (CRLF + LONE_DOT)[2..] == LONE_DOT;
      }
    }
  }

  /** Where the terminator is first seen after the dot of an empty section. */
  function AfterLoneDot(tail: string): Option<nat> {
    if At(tail, 0, LONE_DOT) then Some(1)
    else match Find(tail, DOT_LINE)
      case None => None
      case Some(p) => Some(p + 3)
  }

  lemma {:induction false} FindAfterLoneDot(tail: string)
    ensures Find(LONE_DOT + tail, DOT_LINE) == AfterLoneDot(tail)
  {
    var s := LONE_DOT + tail;
    LoneDotStart(tail);
    forall q: nat ensures q >= 3 ==> (At(s, q, DOT_LINE) <==> At(tail, q - 3, DOT_LINE)) {
      if q >= 3 {
        AtShift(LONE_DOT, tail, q, DOT_LINE);
      }
    }
    if AfterLoneDot(tail).Some? {
      FindIs(s, DOT_LINE, AfterLoneDot(tail).value);
    }
  }

  // ---------- whole sessions ----------

  datatype Message = Message(sender: string, recipients: seq<string>, lines: seq<string>)

  function MailLine(address: string): string { "MAIL FROM:<" + address + ">" }

  function RcptLine(address: string): string { "RCPT TO:<" + address + ">" }

  function RcptWire(addresses: seq<string>): string {
    if addresses == [] then "" else RcptLine(addresses[0]) + CRLF + RcptWire(addresses[1..])
  }

  function SessionWire(m: Message): string {
    MailLine(m.sender) + CRLF + RcptWire(m.recipients) + ("DATA" + CRLF) + DataWire(m.lines)
  }

  function SessionsWire(ms: seq<Message>): string {
    if ms == [] then "" else SessionWire(ms[0]) + SessionsWire(ms[1..])
  }

  function ToEnvelope(m: Message): Envelope {
    Envelope(Some(m.sender), m.recipients, Join(m.lines, "\n"))
  }

  /** What the client must observe: one-line non-empty addresses, at least one recipient, and at
      least one line of text. */
  ghost predicate WellFormed(m: Message) {
    && m.sender != "" && Free(m.sender, CRLF)
    && m.recipients != [] && (forall r :: r in m.recipients ==> r != "" && Free(r, CRLF))
    && m.lines != [] && (forall l :: l in m.lines ==> Free(l, CRLF))
  }

  ghost predicate Ready(c: Chan) {
    Valid(c) && c.pieces == [] && c.open && c.mode.Command? && c.mailfrom.None? && c.rcpttos == []
  }

  lemma WrapFree(prefix: string, address: string)
    requires Free(address, CRLF) && '\r' !in prefix
    ensures Free(prefix + address + ">", CRLF)
  {
    var s := prefix + address + ">";
    forall q: nat ensures !At(s, q, CRLF) {
      if q < |prefix| || q >= |prefix| + |address| {
        NotAtByIndex(s, q, CRLF, 0);
      } else if q + 1 == |prefix| + |address| {
        NotAtByIndex(s, q, CRLF, 1);
      } else {
        AtShift(prefix, address + ">", q, CRLF);
        var k := q - |prefix|;
        assert !At(address, k, CRLF);
        assert (address + ">")[k..k + 2] == address[k..k + 2];
      }
    }
  }

  /** A command line "WORD KEY:<address>" parses to its word and its address. */
  lemma ParseLine(word: string, keyword: string, address: string)
    requires ' ' !in word && keyword != "" && !IsSpace(keyword[0]) && address != ""
    requires Upper(keyword) == keyword
    ensures var line := word + " " + (keyword + "<" + address + ">");
            Verb(line) == Upper(word) && GetAddr(keyword, Argument(line)) == Some(address)
  {
    var arg := keyword + "<" + address + ">";
    var line := word + " " + arg;
    FreeOfChar(word, ' ');
    FindAfterFree(word, " ", arg);
    assert line[..|word|] == word && line[|word| + 1..] == arg;
    StripNothing(arg);
    assert arg[..|keyword|] == keyword;
    var b := arg[|keyword|..];
    assert b == "<" + address + ">";
    StripNothing(b);
    assert b[1..|b| - 1] == address;
    assert |b| > 2;
  }

  /** The argument of a command, with white space around it. */
  lemma SpacedArgument(word: string, a: string, arg: string, d: string)
    requires ' ' !in word && AllSpace(a) && AllSpace(d) && Tight(arg)
    ensures Verb(word + " " + (a + arg + d)) == Upper(word)
    ensures Argument(word + " " + (a + arg + d)) == Some(arg)
  {
    var line := word + " " + (a + arg + d);
    FreeOfChar(word, ' ');
    FindAfterFree(word, " ", a + arg + d);
    assert line[..|word|] == word && line[|word| + 1..] == a + arg + d;
    StripAround(a, arg, d);
  }

  /** The keyword may be in any case, with white space before the address; a pair of angle brackets
      around the address is taken off, except around nothing. */
  lemma {:induction false} AddressForms(keyword: string, kw: string, b: string, address: string)
    requires kw != "" && Upper(kw) == keyword && AllSpace(b) && address != "" && Tight(address)
    ensures GetAddr(keyword, Some(kw + (b + address))) ==
            if address[0] == '<' && address[|address| - 1] == '>' && address != "<>"
            then Some(address[1..|address| - 1]) else Some(address)
  {
    var arg := kw + (b + address);
    assert arg[..|keyword|] == kw && arg[|keyword|..] == b + address;
    assert b + address == b + address + "";
    StripAround(b, address, "");
  }

  /** The handlers, by the text of the command word in any case. */
  lemma {:induction false} CommandWords(word: string)
    ensures WordOf(Upper(word)) == HELO <==> Lower(word) == "helo"
    ensures WordOf(Upper(word)) == NOOP <==> Lower(word) == "noop"
    ensures WordOf(Upper(word)) == QUIT <==> Lower(word) == "quit"
    ensures WordOf(Upper(word)) == MAIL <==> Lower(word) == "mail"
    ensures WordOf(Upper(word)) == RCPT <==> Lower(word) == "rcpt"
    ensures WordOf(Upper(word)) == RSET <==> Lower(word) == "rset"
    ensures WordOf(Upper(word)) == DATA <==> Lower(word) == "data"
  {
    SameLetters(word, "HELO", "helo");
    SameLetters(word, "NOOP", "noop");
    SameLetters(word, "QUIT", "quit");
    SameLetters(word, "MAIL", "mail");
    SameLetters(word, "RCPT", "rcpt");
    SameLetters(word, "RSET", "rset");
    SameLetters(word, "DATA", "data");
    DistinctWords();
  }

  lemma DistinctWords()
    ensures "HELO"[0] == 'H' && "NOOP"[0] == 'N' && "QUIT"[0] == 'Q' && "MAIL"[0] == 'M' && "DATA"[0] == 'D'
    ensures "RCPT"[1] == 'C' && "RSET"[1] == 'S' && "RCPT"[0] == 'R' && "RSET"[0] == 'R'
  {
  }

  /** A word is all capitals of `up` exactly when it is all small letters of `low`. */
  lemma SameLetters(word: string, up: string, low: string)
    requires |up| == |low| && forall i :: 0 <= i < |up| ==> 'A' <= up[i] <= 'Z' && low[i] as int == up[i] as int + 32
    ensures Upper(word) == up <==> Lower(word) == low
  {
    if Upper(word) == up {
      forall i | 0 <= i < |word| ensures Lower(word)[i] == low[i] {
        assert UpperChar(word[i]) == up[i];
      }
    }
    if Lower(word) == low {
      forall i | 0 <= i < |word| ensures Upper(word)[i] == up[i] {
        assert LowerChar(word[i]) == low[i];
      }
    }
  }

  lemma MailParse(address: string)
    requires address != "" && Free(address, CRLF)
    ensures WordOf(Verb(MailLine(address))) == MAIL
    ensures GetAddr("FROM:", Argument(MailLine(address))) == Some(address)
    ensures Free(MailLine(address), CRLF)
  {
    assert Upper("FROM:") == "FROM:" && Upper("MAIL") == "MAIL";
    hide Verb, Argument, GetAddr, Upper;
    ParseLine("MAIL", "FROM:", address);
    assert MailLine(address) == "MAIL" + " " + ("FROM:" + "<" + address + ">");
    WrapFree("MAIL FROM:<", address);
  }

  lemma RcptParse(address: string)
    requires address != "" && Free(address, CRLF)
    ensures WordOf(Verb(RcptLine(address))) == RCPT
    ensures GetAddr("TO:", Argument(RcptLine(address))) == Some(address)
    ensures Free(RcptLine(address), CRLF)
  {
    assert Upper("TO:") == "TO:" && Upper("RCPT") == "RCPT";
    hide Verb, Argument, GetAddr, Upper;
    ParseLine("RCPT", "TO:", address);
    assert RcptLine(address) == "RCPT" + " " + ("TO:" + "<" + address + ">");
    WrapFree("RCPT TO:<", address);
  }

  lemma DataParse()
    ensures WordOf(Verb("DATA")) == DATA && Argument("DATA") == None && Free("DATA", CRLF)
  {
    assert Upper("DATA") == "DATA";
    forall q: nat ensures !At("DATA", q, CRLF) && !At("DATA", q, " ") {
      NotAtByIndex("DATA", q, CRLF, 0);
      NotAtByIndex("DATA", q, " ", 0);
    }
  }

  ghost predicate Idle(c: Chan) {
    Valid(c) && c.pieces == [] && c.open
  }

  /** A command line in COMMAND mode is answered through Dispatch. */
  lemma {:induction false} FeedCommand(server: Envelope -> Outcome, c: Chan, line: string)
    requires Idle(c) && c.mode.Command? && line != "" && Free(line, CRLF)
    ensures var r := Dispatch(c, Verb(line), Argument(line));
            Goes(Serving(server), c, line + CRLF, [Exchange(line, r.1)], r.0)
  {
    forall rest: string ensures Find(line + CRLF + rest, CRLF) == Some(|line|) {
      FindAfterFree(line, CRLF, rest);
    }
    GoesFrame(Serving(server), c, line);
    ConcatOne(line);
    var d := c.(pieces := c.pieces + [line]);
    assert d.(pieces := []) == c;
  }

  function RcptExchanges(addresses: seq<string>): (r: seq<Entry>) {
    if addresses == [] then []
    else [Exchange(RcptLine(addresses[0]), Ok)] + RcptExchanges(addresses[1..])
  }

  function WithRecipients(c: Chan, addresses: seq<string>): Chan {
    c.(rcpttos := c.rcpttos + addresses)
  }

  lemma {:induction false} FeedRcpt(server: Envelope -> Outcome, c: Chan, address: string)
    requires Idle(c) && c.mode.Command? && c.mailfrom.Some? && address != "" && Free(address, CRLF)
    ensures Goes(Serving(server), c, RcptLine(address) + CRLF,
                 [Exchange(RcptLine(address), Ok)], WithRecipients(c, [address]))
    ensures Idle(WithRecipients(c, [address]))
  {
    RcptParse(address);
    hide Goes, Serving, RcptLine, Verb, Argument, GetAddr, Free;
    FeedCommand(server, c, RcptLine(address));
  }

  lemma OneMoreRecipient(c: Chan, addresses: seq<string>)
    requires addresses != []
    ensures WithRecipients(WithRecipients(c, [addresses[0]]), addresses[1..]) == WithRecipients(c, addresses)
  {
    assert (c.rcpttos + [addresses[0]]) + addresses[1..] == c.rcpttos + addresses;
  }

  lemma {:induction false} FeedRecipients(server: Envelope -> Outcome, c: Chan, addresses: seq<string>)
    requires Idle(c) && c.mode.Command? && c.mailfrom.Some?
    requires forall r :: r in addresses ==> r != "" && Free(r, CRLF)
    ensures Goes(Serving(server), c, RcptWire(addresses), RcptExchanges(addresses), WithRecipients(c, addresses))
    decreases |addresses|
  {
    if addresses == [] {
      assert c.rcpttos + addresses == c.rcpttos;
      GoesNowhere(Serving(server), c);
    } else {
      var a, more := addresses[0], addresses[1..];
      assert a in addresses;
      var d := WithRecipients(c, [a]);
      FeedRcpt(server, c, a);
      assert forall r :: r in more ==> r in addresses;
      FeedRecipients(server, d, more);
      OneMoreRecipient(c, addresses);
      GoesOn(Serving(server), c, RcptLine(a) + CRLF, [Exchange(RcptLine(a), Ok)], d,
             RcptWire(more), RcptExchanges(more), WithRecipients(c, addresses));
    }
  }

  lemma {:induction false} FeedData(server: Envelope -> Outcome, c: Chan, lines: seq<string>)
    requires Idle(c) && c.mode.Data?
    requires lines != [] && forall l :: l in lines ==> Free(l, CRLF)
    ensures var body, call := Join(StuffAll(lines), CRLF), Envelope(c.mailfrom, c.rcpttos, Join(lines, "\n"));
            Goes(Serving(server), c, DataWire(lines), [Submission(body, call, server(call))],
                 Finish(c, body, server(call)))
  {
    var body := Join(StuffAll(lines), CRLF);
    DataWireJoin(lines);
    forall rest: string ensures Find(body + DOT_LINE + rest, DOT_LINE) == Some(|body|) {
      FirstMatchIsTheEnd(lines, rest);
    }
    UnstuffStuff(lines);
    GoesFrame(Serving(server), c, body);
    ConcatOne(body);
    var d := c.(pieces := c.pieces + [body]);
    assert d.(pieces := []) == c;
  }

  /** The whole conversation of one message, as the client sees it. */
  function SessionEntries(m: Message, outcome: Outcome): seq<Entry> {
    [Exchange(MailLine(m.sender), Ok)] + RcptExchanges(m.recipients) + [Exchange("DATA", StartInput)] +
    [Submission(Join(StuffAll(m.lines), CRLF), ToEnvelope(m), outcome)]
  }

  /** The channel after the session: reset, or closed when process_message raised. */
  function SessionEnd(c: Chan, m: Message, outcome: Outcome): Chan {
    var full := c.(mailfrom := Some(m.sender), rcpttos := m.recipients, mode := Data, terminator := DOT_LINE);
    Finish(full, Join(StuffAll(m.lines), CRLF), outcome)
  }

  lemma {:induction false} FeedMail(server: Envelope -> Outcome, c: Chan, address: string)
    requires Ready(c) && address != "" && Free(address, CRLF)
    ensures Idle(c.(mailfrom := Some(address)))
    ensures Goes(Serving(server), c, MailLine(address) + CRLF,
                 [Exchange(MailLine(address), Ok)], c.(mailfrom := Some(address)))
  {
    MailParse(address);
    hide Goes, Serving, MailLine, Verb, Argument, GetAddr, Free;
    FeedCommand(server, c, MailLine(address));
  }

  lemma {:induction false} FeedDataCommand(server: Envelope -> Outcome, c: Chan)
    requires Idle(c) && c.mode.Command? && c.rcpttos != []
    ensures Idle(c.(mode := Data, terminator := DOT_LINE))
    ensures Goes(Serving(server), c, "DATA" + CRLF,
                 [Exchange("DATA", StartInput)], c.(mode := Data, terminator := DOT_LINE))
  {
    DataParse();
    FeedCommand(server, c, "DATA");
  }

  /** One well-formed session: every command is accepted, and the server is called once with
      exactly the sender, the recipients in order and the lines. */
  lemma {:induction false} SessionDelivered(server: Envelope -> Outcome, c: Chan, m: Message)
    requires Ready(c) && WellFormed(m)
    ensures var outcome := server(ToEnvelope(m));
            && Goes(Serving(server), c, SessionWire(m), SessionEntries(m, outcome), SessionEnd(c, m, outcome))
            && (outcome.Returned? ==> Ready(SessionEnd(c, m, outcome)))
  {
    var f := Serving(server);
    var outcome := server(ToEnvelope(m));
    var c1 := c.(mailfrom := Some(m.sender));
    var c2 := WithRecipients(c1, m.recipients);
    assert c1.rcpttos + m.recipients == m.recipients;
    var c3 := c2.(mode := Data, terminator := DOT_LINE);
    FeedMail(server, c, m.sender);
    FeedRecipients(server, c1, m.recipients);
    assert Idle(c2);
    FeedDataCommand(server, c2);
    FeedData(server, c3, m.lines);
    var w1, w2, w3 := MailLine(m.sender) + CRLF, RcptWire(m.recipients), "DATA" + CRLF;
    var e1, e2, e3 := [Exchange(MailLine(m.sender), Ok)], RcptExchanges(m.recipients), [Exchange("DATA", StartInput)];
    GoesOn(f, c, w1, e1, c1, w2, e2, c2);
    GoesOn(f, c, w1 + w2, e1 + e2, c2, w3, e3, c3);
    GoesOn(f, c, w1 + w2 + w3, e1 + e2 + e3, c3, DataWire(m.lines),
           [Submission(Join(StuffAll(m.lines), CRLF), ToEnvelope(m), outcome)], SessionEnd(c, m, outcome));
  }

  function Calls(entries: seq<Entry>): seq<Envelope> {
    if entries == [] then [] else Called(entries[0]) + Calls(entries[1..])
  }

  lemma {:induction false} CallsAppend(a: seq<Entry>, b: seq<Entry>)
    ensures Calls(a + b) == Calls(a) + Calls(b)
  {
    if a == [] {
      assert a + b == b;
    } else {
      assert (a + b)[1..] == a[1..] + b;
      CallsAppend(a[1..], b);
    }
  }

  lemma {:induction false} NoCallsInRcpts(addresses: seq<string>)
    ensures Calls(RcptExchanges(addresses)) == []
  {
    if addresses != [] {
      NoCallsInRcpts(addresses[1..]);
      assert RcptExchanges(addresses)[1..] == RcptExchanges(addresses[1..]);
    }
  }

  lemma SessionCalls(m: Message, outcome: Outcome)
    ensures Calls(SessionEntries(m, outcome)) == [ToEnvelope(m)]
  {
    var first := [Exchange(MailLine(m.sender), Ok)];
    var begin := [Exchange("DATA", StartInput)];
    var last := Submission(Join(StuffAll(m.lines), CRLF), ToEnvelope(m), outcome);
    CallsAppend(first + RcptExchanges(m.recipients) + begin, [last]);
    CallsAppend(first + RcptExchanges(m.recipients), begin);
    CallsAppend(first, RcptExchanges(m.recipients));
    NoCallsInRcpts(m.recipients);
    assert [last][1..] == [];
    assert Calls([last]) == [ToEnvelope(m)];
  }

  function Envelopes(ms: seq<Message>): seq<Envelope> {
    if ms == [] then [] else [ToEnvelope(ms[0])] + Envelopes(ms[1..])
  }

  /** The round trip: any number of sessions on one connection are delivered one for one, nothing
      is left over, and the channel is ready for the next. */
  lemma {:induction false} SessionsDelivered(server: Envelope -> Outcome, c: Chan, ms: seq<Message>)
    requires Ready(c)
    requires forall m :: m in ms ==> WellFormed(m) && server(ToEnvelope(m)).Returned?
    ensures var r := Feed(c, SessionsWire(ms), Serving(server));
            Calls(r.entries) == Envelopes(ms) && r.rest == "" && Ready(r.chan)
    decreases |ms|
  {
    if ms == [] {
    } else {
      var m, more := ms[0], ms[1..];
      assert m in ms;
      var outcome := server(ToEnvelope(m));
      var d := SessionEnd(c, m, outcome);
      SessionDelivered(server, c, m);
      SessionsDelivered(server, d, more);
      SessionCalls(m, outcome);
      CallsAppend(SessionEntries(m, outcome), Feed(d, SessionsWire(more), Serving(server)).entries);
      assert GoesBefore(Serving(server), c, SessionWire(m), SessionEntries(m, outcome), d, SessionsWire(more));
    }
  }

  // ---------- the client's side ----------

  lemma HeloParse(name: string)
    requires name != "" && Tight(name) && Free(name, CRLF)
    ensures WordOf(Verb("HELO " + name)) == HELO && Argument("HELO " + name) == Some(name)
    ensures Free("HELO " + name, CRLF)
  {
    assert Upper("HELO") == "HELO";
    hide Verb, Argument, Upper, Free;
    assert "HELO" + " " + ("" + name + "") == "HELO " + name;
    SpacedArgument("HELO", "", name, "");
    FreeAfter("HELO ", name);
  }

  lemma FreeAfter(prefix: string, s: string)
    requires '\r' !in prefix && Free(s, CRLF)
    ensures Free(prefix + s, CRLF)
  {
    forall q: nat ensures !At(prefix + s, q, CRLF) {
      if q < |prefix| {
        NotAtByIndex(prefix + s, q, CRLF, 0);
      } else {
        AtShift(prefix, s, q, CRLF);
      }
    }
  }

  /** A client that greets is answered with the name of the host, and its greeting is kept. */
  lemma {:induction false} GreetingDelivered(server: Envelope -> Outcome, c: Chan, name: string)
    requires Ready(c) && c.greeting.None? && name != "" && Tight(name) && Free(name, CRLF)
    ensures Goes(Serving(server), c, "HELO " + name + CRLF, [Exchange("HELO " + name, Welcome(c.fqdn))],
                 c.(greeting := Some(name)))
  {
    HeloParse(name);
    FeedCommand(server, c, "HELO " + name);
  }

  function Oks(n: nat): seq<Reply> {
    seq(n, _ => Ok)
  }

  lemma {:induction false} RcptReplies(addresses: seq<string>)
    ensures Replies(RcptExchanges(addresses)) == Oks(|addresses|)
  {
    if addresses != [] {
      var first, more := [Exchange(RcptLine(addresses[0]), Ok)], RcptExchanges(addresses[1..]);
      RcptReplies(addresses[1..]);
      assert (first + more)[1..] == more;
    }
  }

  lemma {:induction false} RepliesAppend(a: seq<Entry>, b: seq<Entry>)
    ensures Replies(a + b) == Replies(a) + Replies(b)
  {
    if a == [] {
      assert a + b == b;
    } else {
      assert (a + b)[1..] == a[1..] + b;
      RepliesAppend(a[1..], b);
    }
  }

  /** What the client of a session reads: 250 Ok for the sender and for each recipient, 354 for DATA,
      and then 250 Ok, or what the server returned. */
  lemma {:induction false} SessionReplies(m: Message, status: Option<string>)
    ensures Replies(SessionEntries(m, Returned(status)))
         == [Ok] + Oks(|m.recipients|) + [StartInput, if status.Some? && status.value != "" then Status(status.value)
                                                      else Ok]
  {
    var mail, data := Exchange(MailLine(m.sender), Ok), Exchange("DATA", StartInput);
    var last := Submission(Join(StuffAll(m.lines), CRLF), ToEnvelope(m), Returned(status));
    var rcpts := RcptExchanges(m.recipients);
    RcptReplies(m.recipients);
    RepliesAppend([mail] + rcpts + [data], [last]);
    RepliesAppend([mail] + rcpts, [data]);
    RepliesAppend([mail], rcpts);
    OneByOne(mail);
    OneByOne(data);
    OneByOne(last);
    TwoLast([Ok] + Oks(|m.recipients|), StartInput, Pushed(last)[0]);
  }

  lemma TwoLast(s: seq<Reply>, a: Reply, b: Reply)
    ensures s + [a] + [b] == s + [a, b]
  {
  }

  lemma OneByOne(e: Entry)
    ensures Replies([e]) == Pushed(e)
  {
    assert [e][1..] == [];
    assert Pushed(e) + [] == Pushed(e);
  }

  // ---------- what an empty data section does ----------

  lemma LoneDotText(line: string)
    ensures MessageText(LONE_DOT + line) == "\n" + MessageText(line)
  {
    var parts := SplitOn(line, CRLF);
    NoBreakInDot();
    SplitFirst(".", CRLF, line);
    assert "." + CRLF + line == LONE_DOT + line;
    assert UnstuffAll(["."] + parts) == [""] + UnstuffAll(parts);
    JoinCons("", UnstuffAll(parts), "\n");
  }

  lemma NoBreakInDot()
    ensures Free(".", CRLF)
  {
    forall q: nat ensures !At(".", q, CRLF) {
    }
  }

  lemma DotText()
    ensures MessageText(".") == ""
  {
    NoBreakInDot();
    assert SplitOn(".", CRLF) == ["."];
    assert "."[1..] == "" && Unstuff(".") == "";
    assert UnstuffAll(["."]) == [""];
  }

  /** The bytes after the lone dot: a second lone dot delivers the empty message; otherwise
      everything up to the next terminator is delivered as text after an empty line; without one,
      nothing is answered. */
  lemma {:induction false} EmptySection(server: Envelope -> Outcome, c: Chan, tail: string)
    requires Idle(c) && c.mode.Data?
    ensures var wire := DataWire([]) + tail;
            match AfterLoneDot(tail)
            case None => Feed(c, wire, Serving(server)) == FeedResult(c, [], wire)
            case Some(p) =>
              var text := if p == 1 then "" else "\n" + MessageText(tail[..p - 3]);
              var call := Envelope(c.mailfrom, c.rcpttos, text);
              Feed(c, wire, Serving(server)) == After([Submission(wire[..p], call, server(call))],
                Feed(Finish(c, wire[..p], server(call)), tail[p + 2..], Serving(server)))
  {
    hide Feed;
    FindAfterLoneDot(tail);
    FedTo(server, c, DataWire([]) + tail, AfterLoneDot(tail));
    if AfterLoneDot(tail).Some? {
      var p := AfterLoneDot(tail).value;
      hide Find, Finish;
      LoneDotCut(tail, p);
    }
  }

  /** In DATA mode, everything up to the first terminator is one message. */
  lemma FedTo(server: Envelope -> Outcome, c: Chan, wire: string, cut: Option<nat>)
    requires Idle(c) && c.mode.Data? && Find(wire, DOT_LINE) == cut
    ensures match cut
            case None => Feed(c, wire, Serving(server)) == FeedResult(c, [], wire)
            case Some(p) =>
              var call := CallOf(c, wire[..p]);
              Feed(c, wire, Serving(server)) == After([Submission(wire[..p], call, server(call))],
                Feed(Finish(c, wire[..p], server(call)), wire[p + 5..], Serving(server)))
  {
    hide CallOf, Finish, Find, Serving;
    if cut.Some? {
      DataFrame(server, c, wire[..cut.value]);
    }
  }

  lemma DataFrame(server: Envelope -> Outcome, c: Chan, line: string)
    requires Idle(c) && c.mode.Data?
    ensures var call := CallOf(c, line);
            Serving(server)(c, line) == (Finish(c, line, server(call)), Submission(line, call, server(call)))
  {
    hide MessageText, Finish;
    ConcatOne(line);
    assert c.(pieces := c.pieces + [line]).(pieces := []) == c;
  }

  lemma LoneDotCut(tail: string, p: nat)
    requires AfterLoneDot(tail) == Some(p)
    ensures p <= |DataWire([]) + tail| - 5 && (p == 1 || p >= 3)
    ensures var wire := DataWire([]) + tail;
            && wire[p + 5..] == tail[p + 2..]
            && MessageText(wire[..p]) == if p == 1 then "" else "\n" + MessageText(tail[..p - 3])
  {
    hide MessageText;
    var wire := DataWire([]) + tail;
    if p == 1 {
      DotText();
      assert wire[..1] == ".";
    } else {
      LoneDotText(tail[..p - 3]);
      assert wire[..p] == LONE_DOT + tail[..p - 3];
    }
  }

  function RcptLines(addresses: seq<string>): seq<string> {
    if addresses == [] then [] else [RcptLine(addresses[0])] + RcptLines(addresses[1..])
  }

  /** Everything the client of a session sends, as lines. */
  function AllLines(m: Message): seq<string> {
    [MailLine(m.sender)] + RcptLines(m.recipients) + ["DATA"] + m.lines
  }

  lemma PlainLine(line: string, more: seq<string>)
    requires line != "" && line[0] != '.'
    ensures line + CRLF + DataWire(more) == DataWire([line] + more)
  {
    assert ([line] + more)[1..] == more;
  }

  lemma {:induction false} RcptsAreLines(addresses: seq<string>, more: seq<string>)
    ensures RcptWire(addresses) + DataWire(more) == DataWire(RcptLines(addresses) + more)
  {
    if addresses == [] {
      assert "" + DataWire(more) == DataWire(more);
      assert [] + more == more;
    } else {
      RcptsAreLines(addresses[1..], more);
      RcptStart(addresses[0]);
      OneMoreLine(RcptLine(addresses[0]), RcptWire(addresses[1..]), RcptLines(addresses[1..]), more);
    }
  }

  lemma OneMoreLine(first: string, wire: string, lines: seq<string>, more: seq<string>)
    requires first != "" && first[0] != '.' && wire + DataWire(more) == DataWire(lines + more)
    ensures first + CRLF + wire + DataWire(more) == DataWire([first] + lines + more)
  {
    PlainLine(first, lines + more);
    hide DataWire;
    assert [first] + (lines + more) == [first] + lines + more;
    assert first + CRLF + (wire + DataWire(more)) == first + CRLF + wire + DataWire(more);
  }

  lemma RcptStart(address: string)
    ensures RcptLine(address) != "" && RcptLine(address)[0] == 'R'
  {
  }

  /** A whole session is itself a data section. */
  lemma SessionIsSection(m: Message)
    ensures SessionWire(m) == DataWire(AllLines(m))
  {
    var mail, data := MailLine(m.sender), "DATA";
    assert data[0] == 'D' && mail[0] == 'M';
    PlainLine(data, m.lines);
    RcptsAreLines(m.recipients, [data] + m.lines);
    PlainLine(mail, RcptLines(m.recipients) + ([data] + m.lines));
    FourParts(mail, RcptLines(m.recipients), data, m.lines);
    FourTexts(mail + CRLF, RcptWire(m.recipients), data + CRLF, DataWire(m.lines));
  }

  lemma FourParts(a: string, b: seq<string>, c: string, d: seq<string>)
    ensures [a] + b + [c] + d == [a] + (b + ([c] + d))
  {
  }

  lemma FourTexts(a: string, b: string, c: string, d: string)
    ensures a + b + c + d == a + (b + (c + d))
  {
  }

  lemma {:induction false} RcptLinesFree(addresses: seq<string>)
    requires forall r :: r in addresses ==> r != "" && Free(r, CRLF)
    ensures forall l :: l in RcptLines(addresses) ==> Free(l, CRLF)
  {
    if addresses != [] {
      assert addresses[0] in addresses;
      RcptParse(addresses[0]);
      var more := addresses[1..];
      assert forall r :: r in more ==> r in addresses;
      RcptLinesFree(more);
    }
  }

  lemma AllLinesFree(m: Message)
    requires WellFormed(m)
    ensures forall l :: l in AllLines(m) ==> Free(l, CRLF)
  {
    MailParse(m.sender);
    RcptLinesFree(m.recipients);
    DataParse();
  }

  lemma LoneDotFramed(lines: seq<string>, rest: string)
    requires lines != [] && lines[0] != "" && lines[0][0] != '.' && forall l :: l in lines ==> Free(l, CRLF)
    ensures var body := LONE_DOT + Join(StuffAll(lines), CRLF);
            Find(body + DOT_LINE + rest, DOT_LINE) == Some(|body|)
  {
    var text := Join(StuffAll(lines), CRLF);
    var tail := text + DOT_LINE + rest;
    FirstMatchIsTheEnd(lines, rest);
    FindAfterLoneDot(tail);
    assert LONE_DOT + tail == LONE_DOT + text + DOT_LINE + rest;
    assert StuffAll(lines)[0] == lines[0];
    assert tail[0] == lines[0][0];
    assert LONE_DOT[0] == '.';
    NotAtByIndex(tail, 0, LONE_DOT, 0);
  }

  /** The session that follows an empty section is swallowed: its commands and lines become the text
      of the message that was to be empty. */
  lemma {:induction false} NextSessionSwallowed(server: Envelope -> Outcome, c: Chan, m: Message)
    requires Idle(c) && c.mode.Data? && WellFormed(m)
    ensures var body := LONE_DOT + Join(StuffAll(AllLines(m)), CRLF);
            var call := Envelope(c.mailfrom, c.rcpttos, "\n" + Join(AllLines(m), "\n"));
            Goes(Serving(server), c, DataWire([]) + SessionWire(m), [Submission(body, call, server(call))],
                 Finish(c, body, server(call)))
  {
    var lines := AllLines(m);
    var body := LONE_DOT + Join(StuffAll(lines), CRLF);
    AllLinesFree(m);
    SessionIsSection(m);
    DataWireJoin(lines);
    assert DataWire([]) + SessionWire(m) == body + DOT_LINE;
    assert lines[0] == MailLine(m.sender) && lines[0][0] == 'M';
    forall rest: string ensures Find(body + DOT_LINE + rest, DOT_LINE) == Some(|body|) {
      LoneDotFramed(lines, rest);
    }
    LoneDotText(Join(StuffAll(lines), CRLF));
    UnstuffStuff(lines);
    GoesFrame(Serving(server), c, body);
    ConcatOne(body);
    assert c.(pieces := c.pieces + [body]).(pieces := []) == c;
  }

  // ---------- a fed stream is a run ----------

  type Handler = (Chan, Outcome) -> (Chan, Entry)

  /** A run with any handler in the place of found_terminator. */
  function RunWith(handle: Handler, c: Chan, events: seq<Event>): (Chan, seq<Entry>)
    decreases |events|
  {
    if events == [] || !c.open then (c, [])
    else match events[0]
      case Collect(text) => RunWith(handle, c.(pieces := c.pieces + [text]), events[1..])
      case Found(outcome) =>
        var h := handle(c, outcome);
        var rest := RunWith(handle, h.0, events[1..]);
        (rest.0, [h.1] + rest.1)
  }

  function FoundTerminator(): Handler {
    (c: Chan, outcome: Outcome) => Handle(c, outcome)
  }

  lemma {:induction false} RunIsRunWith(c: Chan, events: seq<Event>)
    ensures Run(c, events) == RunWith(FoundTerminator(), c, events)
    decreases |events|
  {
    if events != [] && c.open {
      match events[0]
      case Collect(text) => RunIsRunWith(c.(pieces := c.pieces + [text]), events[1..]);
      case Found(outcome) => RunIsRunWith(Handle(c, outcome).0, events[1..]);
    }
  }

  lemma RunWithFrame(handle: Handler, c: Chan, line: string, outcome: Outcome, more: seq<Event>)
    requires c.open
    ensures var h := handle(c.(pieces := c.pieces + [line]), outcome); var tail := RunWith(handle, h.0, more);
            RunWith(handle, c, [Collect(line), Found(outcome)] + more) == (tail.0, [h.1] + tail.1)
  {
    var events := [Collect(line), Found(outcome)] + more;
    assert events[1..] == [Found(outcome)] + more;
    assert events[1..][1..] == more;
  }

  /** A frame is one collected piece and one call of the handler. */
  ghost predicate Agrees(handle: Handler, frame: Framing, end: (Chan, string) -> Outcome, c: Chan, line: string) {
    frame(c, line) == handle(c.(pieces := c.pieces + [line]), end(c, line))
  }

  lemma {:induction false} FeedIsRunWith(handle: Handler, frame: Framing, end: (Chan, string) -> Outcome, c: Chan,
      wire: string)
    returns (events: seq<Event>)
    requires forall d: Chan, l: string :: Agrees(handle, frame, end, d, l)
    ensures var f := Feed(c, wire, frame); RunWith(handle, c, events) == (f.chan, f.entries)
    decreases |wire|
  {
    if c.open && c.terminator != "" && Find(wire, c.terminator).Some? {
      var p := Find(wire, c.terminator).value;
      var line := wire[..p];
      assert Agrees(handle, frame, end, c, line);
      var more := FeedIsRunWith(handle, frame, end, frame(c, line).0, wire[p + |c.terminator|..]);
      RunWithFrame(handle, c, line, end(c, line), more);
      events := [Collect(line), Found(end(c, line))] + more;
    } else {
      events := [];
    }
  }

  /** Every fed byte stream is one of the runs of the channel object: the same entries come from
      one collect_incoming_data and one found_terminator call per frame. */
  lemma {:induction false} FeedIsRun(server: Envelope -> Outcome, c: Chan, wire: string) returns (events: seq<Event>)
    ensures var f := Feed(c, wire, Serving(server)); Run(c, events) == (f.chan, f.entries)
  {
    var end := (d: Chan, l: string) => server(CallOf(d, l));
    assert forall d: Chan, l: string :: Agrees(FoundTerminator(), Serving(server), end, d, l);
    events := FeedIsRunWith(FoundTerminator(), Serving(server), end, c, wire);
    RunIsRunWith(c, events);
  }
}
