/** The proxies behind the channel: PureProxy inserts a trace header, MailmanProxy partitions the
    recipients between the mailing lists and the real server. */
module SmtpProxy {
  import opened Wrappers
  import opened Text

  const NEWLINE := "\n"

  // ---------- PureProxy ----------

  /** Where the header goes: the first empty line, or the end when there is none. */
  ghost predicate HeaderEnd(lines: seq<string>, i: nat) {
    && i <= |lines|
    && (forall k :: 0 <= k < i ==> lines[k] != "")
    && (i < |lines| ==> lines[i] == "")
  }

  function FirstBlank(lines: seq<string>): (i: nat)
    ensures HeaderEnd(lines, i)
  {
    if lines == [] || lines[0] == "" then 0 else FirstBlank(lines[1..]) + 1
  }

  lemma HeaderEndUnique(lines: seq<string>, i: nat, j: nat)
    requires HeaderEnd(lines, i) && HeaderEnd(lines, j)
    ensures i == j
  {
  }

  function PeerLine(peer: string): string { "X-Peer: " + peer }

  /** The text with the header line in place. */
  function WithPeer(data: string, peer: string): string {
    var lines := SplitOn(data, NEWLINE);
    var at := FirstBlank(lines);
    Join(lines[..at] + [PeerLine(peer)] + lines[at..], NEWLINE)
  }

  /** PureProxy.process_message up to the delivery. */
  method AddPeer(peer: string, data: string) returns (text: string)
    ensures text == WithPeer(data, peer)
  {
    var lines := SplitOn(data, NEWLINE);
    var i := 0;
    while i < |lines| && lines[i] != ""
      invariant 0 <= i <= |lines|
      invariant forall k :: 0 <= k < i ==> lines[k] != ""
    {
      i := i + 1;
    }
    HeaderEndUnique(lines, i, FirstBlank(lines));
    lines := lines[..i] + [PeerLine(peer)] + lines[i..];
    text := Join(lines, NEWLINE);
  }

  function Without(lines: seq<string>, at: nat): seq<string>
    requires at < |lines|
  {
    lines[..at] + lines[at + 1..]
  }

  lemma PeerLineFree(peer: string)
    requires '\n' !in peer
    ensures Free(PeerLine(peer), NEWLINE)
  {
    FreeOfChar(PeerLine(peer), '\n');
  }

  /** The lines of the new text are the old lines with the one header line at the header's end,
      and taking it out again gives back the original text. */
  lemma PeerLineInserted(data: string, peer: string)
    requires '\n' !in peer
    ensures var lines, after := SplitOn(data, NEWLINE), SplitOn(WithPeer(data, peer), NEWLINE);
            exists at: nat :: HeaderEnd(lines, at)
              && after == lines[..at] + ["X-Peer: " + peer] + lines[at..]
              && Join(Without(after, at), NEWLINE) == data
  {
    var lines := SplitOn(data, NEWLINE);
    var at := FirstBlank(lines);
    var all := lines[..at] + [PeerLine(peer)] + lines[at..];
    SplitPiecesFree(data, NEWLINE);
    PeerLineFree(peer);
    forall p | p in all ensures Free(p, NEWLINE) {
      assert p in lines || p == PeerLine(peer);
    }
    SplitJoin(all, NEWLINE);
    assert Without(all, at) == lines;
    JoinSplit(data, NEWLINE);
    assert HeaderEnd(lines, at);
  }

  lemma SplitMail(headers: seq<string>, body: string)
    requires headers != [] && forall h :: h in headers ==> '\n' !in h
    ensures SplitOn(Join(headers, NEWLINE) + NEWLINE + (NEWLINE + body), NEWLINE)
        == headers + ([""] + SplitOn(body, NEWLINE))
  {
    FreeOfChar("", '\n');
    SplitFirst("", NEWLINE, body);
    assert "" + NEWLINE + body == NEWLINE + body;
    SplitHeaders(headers, NEWLINE + body);
  }

  lemma JoinMail(headers: seq<string>, peer: string, body: string)
    requires headers != []
    ensures Join(headers + ([PeerLine(peer)] + ([""] + SplitOn(body, NEWLINE))), NEWLINE)
         == Join(headers, NEWLINE) + NEWLINE + (PeerLine(peer) + NEWLINE + ("" + NEWLINE + body))
  {
    var tail := [""] + SplitOn(body, NEWLINE);
    JoinAppend(headers, [PeerLine(peer)] + tail, NEWLINE);
    JoinCons(PeerLine(peer), tail, NEWLINE);
    JoinCons("", SplitOn(body, NEWLINE), NEWLINE);
    JoinSplit(body, NEWLINE);
  }

  /** Byte for byte: with a header block and a body, only the header line is new. */
  lemma BodyUnchanged(headers: seq<string>, body: string, peer: string)
    requires headers != [] && forall h :: h in headers ==> h != "" && '\n' !in h
    ensures WithPeer(Join(headers, NEWLINE) + NEWLINE + (NEWLINE + body), peer)
         == Join(headers, NEWLINE) + NEWLINE + ("X-Peer: " + peer) + NEWLINE + (NEWLINE + body)
  {
    var tail := [""] + SplitOn(body, NEWLINE);
    var at := FirstBlank(headers + tail);
    SplitMail(headers, body);
    FirstBlankAfter(headers, tail);
    assert (headers + tail)[..at] == headers && (headers + tail)[at..] == tail;
    assert headers + [PeerLine(peer)] + tail == headers + ([PeerLine(peer)] + tail);
    JoinMail(headers, peer, body);
    assert Join(headers, NEWLINE) + NEWLINE + (PeerLine(peer) + NEWLINE + ("" + NEWLINE + body))
        == Join(headers, NEWLINE) + NEWLINE + PeerLine(peer) + NEWLINE + (NEWLINE + body);
  }

  lemma FirstBlankAfter(headers: seq<string>, tail: seq<string>)
    requires tail != [] && tail[0] == "" && forall h :: h in headers ==> h != ""
    ensures FirstBlank(headers + tail) == |headers|
  {
    var lines := headers + tail;
    assert lines[|headers|] == "";
    assert forall k :: 0 <= k < |headers| ==> lines[k] == headers[k] && headers[k] in headers;
    HeaderEndUnique(lines, |headers|, FirstBlank(lines));
  }

  lemma SplitHeaders(headers: seq<string>, rest: string)
    requires headers != [] && forall h :: h in headers ==> '\n' !in h
    ensures SplitOn(Join(headers, NEWLINE) + NEWLINE + rest, NEWLINE) == headers + SplitOn(rest, NEWLINE)
  {
    forall h | h in headers ensures Free(h, NEWLINE) {
      FreeOfChar(h, '\n');
    }
    SplitPiecesFree(rest, NEWLINE);
    JoinSplit(rest, NEWLINE);
    JoinAppend(headers, SplitOn(rest, NEWLINE), NEWLINE);
    SplitJoin(headers + SplitOn(rest, NEWLINE), NEWLINE);
  }

  // ---------- MailmanProxy ----------

  predicate IsListCommand(command: string) {
    command in ["", "admin", "owner", "request", "join", "leave"]
  }

  /** The list and the command a recipient names, if it is for a mailing list. */
  function ListTarget(rcpt: string, listExists: string -> bool): Option<(string, string)> {
    var local := SplitOn(Lower(rcpt), "@")[0];
    var parts := SplitOn(local, "-");
    if |parts| > 2 then None
    else
      var listname := parts[0];
      var command := if |parts| == 2 then parts[1] else "";
      if !listExists(listname) || !IsListCommand(command) then None
      else Some((listname, command))
  }

  lemma CommandsPlain(command: string)
    requires IsListCommand(command)
    ensures '-' !in command
  {
  }

  lemma {:induction false} JoinPair(a: string, b: string)
    ensures Join([a, b], "-") == a + "-" + b
  {
    assert [a, b][1..] == [b];
  }

  /** The part of an address before the first @, or all of it. */
  ghost predicate IsLocal(local: string, address: string) {
    '@' !in local && (address == local || local + "@" <= address)
  }

  lemma LocalPart(local: string, address: string)
    requires IsLocal(local, address)
    ensures SplitOn(address, "@")[0] == local
  {
    FreeOfChar(local, '@');
    if address != local {
      var domain := address[|local + "@"|..];
      assert address == local + "@" + domain;
      SplitFirst(local, "@", domain);
    }
  }

  /** A recipient is for list l with command c exactly when its lower-cased local part is l-c, or
      just l for the empty command, l has no dash and exists, and c is one of the six commands. */
  lemma {:induction false} ListTargetIff(rcpt: string, local: string, listExists: string -> bool, l: string, c: string)
    requires IsLocal(local, Lower(rcpt))
    ensures ListTarget(rcpt, listExists) == Some((l, c)) <==>
              && '-' !in l && listExists(l)
              && (c == "" || c == "admin" || c == "owner" || c == "request" || c == "join" || c == "leave")
              && (local == l + "-" + c || (c == "" && local == l))
  {
    LocalPart(local, Lower(rcpt));
    TargetIff(rcpt, local, listExists, l, c);
    TheCommands(c);
  }

  lemma TheCommands(c: string)
    ensures IsListCommand(c) <==>
              c == "" || c == "admin" || c == "owner" || c == "request" || c == "join" || c == "leave"
  {
  }

  lemma {:induction false} TargetIff(rcpt: string, local: string, listExists: string -> bool, l: string, c: string)
    requires local == SplitOn(Lower(rcpt), "@")[0]
    ensures ListTarget(rcpt, listExists) == Some((l, c)) <==>
              && '-' !in l && listExists(l) && IsListCommand(c)
              && (local == l + "-" + c || (c == "" && local == l))
  {
    var parts := SplitOn(local, "-");
    JoinSplit(local, "-");
    SplitPiecesFree(local, "-");
    if ListTarget(rcpt, listExists) == Some((l, c)) {
      assert parts[0] in parts;
      CharNotInFree(l, '-');
      if |parts| == 2 {
        assert parts == [l, c];
        JoinPair(l, c);
      }
    }
    if '-' !in l && IsListCommand(c) {
      CommandsPlain(c);
      FreeOfChar(l, '-');
      FreeOfChar(c, '-');
      SplitFirst(l, "-", c);
    }
  }

  datatype Job = Job(rcpt: string, listname: string, command: string)

  /** What a recipient means: the list and command, or None for a recipient to forward. */
  type Target = string -> Option<(string, string)>

  function Targets(listExists: string -> bool): Target {
    (rcpt: string) => ListTarget(rcpt, listExists)
  }

  function JobFor(rcpt: string, target: Target): seq<Job> {
    match target(rcpt)
    case None => []
    case Some(t) => [Job(rcpt, t.0, t.1)]
  }

  function JobsOf(rcpttos: seq<string>, target: Target): seq<Job> {
    if rcpttos == [] then [] else JobFor(rcpttos[0], target) + JobsOf(rcpttos[1..], target)
  }

  /** The recipients that are, or are not, for a list, in their order. */
  function Select(rcpttos: seq<string>, target: Target, forList: bool): seq<string> {
    if rcpttos == [] then []
    else (if target(rcpttos[0]).Some? == forList then [rcpttos[0]] else []) + Select(rcpttos[1..], target, forList)
  }

  /** list.remove: the first occurrence goes; None for the ValueError. */
  function RemoveFirst(items: seq<string>, x: string): Option<seq<string>> {
    if items == [] then None
    else if items[0] == x then Some(items[1..])
    else match RemoveFirst(items[1..], x)
      case None => None
      case Some(rest) => Some([items[0]] + rest)
  }

  function RemoveEach(items: seq<string>, xs: seq<string>): Option<seq<string>>
    decreases |xs|
  {
    if xs == [] then Some(items)
    else match RemoveFirst(items, xs[0])
      case None => None
      case Some(rest) => RemoveEach(rest, xs[1..])
  }

  lemma {:induction false} RemoveSkips(before: seq<string>, x: string, after: seq<string>)
    requires x !in before
    ensures RemoveFirst(before + [x] + after, x) == Some(before + after)
  {
    var s := before + [x] + after;
    if before == [] {
      assert s[1..] == after && before + after == after;
    } else {
      RemoveSkips(before[1..], x, after);
      assert s[1..] == before[1..] + [x] + after;
      assert [before[0]] + (before[1..] + after) == before + after;
    }
  }

  lemma {:induction false} RemoveNeedsMember(items: seq<string>, x: string)
    ensures RemoveFirst(items, x).Some? <==> x in items
  {
    if items != [] {
      RemoveNeedsMember(items[1..], x);
    }
  }

  /** Removing every list recipient by first occurrence, duplicates and all, leaves exactly the
      others in order, and no removal fails. */
  lemma {:induction false} RemovalIsFilter(before: seq<string>, rcpttos: seq<string>, target: Target)
    requires forall r :: r in before ==> target(r).None?
    ensures RemoveEach(before + rcpttos, Select(rcpttos, target, true))
         == Some(before + Select(rcpttos, target, false))
    decreases |rcpttos|
  {
    if rcpttos == [] {
    } else {
      var r, more := rcpttos[0], rcpttos[1..];
      var rest := Select(more, target, true);
      if target(r).Some? {
        assert before + rcpttos == before + [r] + more;
        RemoveSkips(before, r, more);
        RemovalIsFilter(before, more, target);
        assert ([r] + rest)[1..] == rest;
        assert [] + Select(more, target, false) == Select(more, target, false);
      } else {
        assert before + rcpttos == (before + [r]) + more;
        RemovalIsFilter(before + [r], more, target);
        assert [] + rest == rest;
        assert (before + [r]) + Select(more, target, false) == before + ([r] + Select(more, target, false));
      }
    }
  }

  /** Nobody is lost and nobody is served twice. */
  lemma {:induction false} PartitionKeepsAll(rcpttos: seq<string>, target: Target)
    ensures multiset(Select(rcpttos, target, true)) + multiset(Select(rcpttos, target, false)) == multiset(rcpttos)
  {
    if rcpttos == [] {
    } else {
      PartitionKeepsAll(rcpttos[1..], target);
      assert rcpttos == [rcpttos[0]] + rcpttos[1..];
    }
  }

  function RcptsOf(jobs: seq<Job>): (r: seq<string>)
    ensures |r| == |jobs| && forall i :: 0 <= i < |jobs| ==> r[i] == jobs[i].rcpt
  {
    seq(|jobs|, i requires 0 <= i < |jobs| => jobs[i].rcpt)
  }

  /** The jobs are the list recipients in order, each with its list and command. */
  lemma {:induction false} JobsAreSelected(rcpttos: seq<string>, target: Target)
    ensures RcptsOf(JobsOf(rcpttos, target)) == Select(rcpttos, target, true)
    ensures forall j :: j in JobsOf(rcpttos, target) ==> target(j.rcpt) == Some((j.listname, j.command))
  {
    if rcpttos != [] {
      JobsAreSelected(rcpttos[1..], target);
      var head, more := JobFor(rcpttos[0], target), JobsOf(rcpttos[1..], target);
      assert RcptsOf(head + more) == RcptsOf(head) + RcptsOf(more);
    }
  }

  lemma {:induction false} JobsSnoc(rcpttos: seq<string>, rcpt: string, target: Target)
    ensures JobsOf(rcpttos + [rcpt], target) == JobsOf(rcpttos, target) + JobFor(rcpt, target)
  {
    if rcpttos == [] {
      assert [rcpt][1..] == [];
      assert [] + [rcpt] == [rcpt];
      assert JobFor(rcpt, target) + [] == [] + JobFor(rcpt, target);
    } else {
      var head, more := JobFor(rcpttos[0], target), rcpttos[1..];
      JobsSnoc(more, rcpt, target);
      assert (rcpttos + [rcpt])[1..] == more + [rcpt];
      assert head + (JobsOf(more, target) + JobFor(rcpt, target))
          == (head + JobsOf(more, target)) + JobFor(rcpt, target);
    }
  }

  /** The Python list of recipients: one object, shared by the channel and the proxy. */
  class RecipientList {
    var items: seq<string>

    constructor (items: seq<string>)
      ensures this.items == items
    {
      this.items := items;
    }

    /** list.remove, for a member */
    method Remove(x: string)
      requires x in items
      modifies this
      ensures RemoveFirst(old(items), x) == Some(items)
    {
      var i := 0;
      while items[i] != x
        invariant 0 <= i < |items| && x !in items[..i]
        invariant exists k :: i <= k < |items| && items[k] == x
        decreases |items| - i
      {
        assert items[..i + 1] == items[..i] + [items[i]];
        i := i + 1;
      }
      RemoveSkips(items[..i], x, items[i + 1..]);
      assert items == items[..i] + [x] + items[i + 1..];
      items := items[..i] + items[i + 1..];
    }
  }

  /** The first loop: the list and command of every recipient that has them. */
  method CollectJobs(rcpttos: RecipientList, listExists: string -> bool) returns (listnames: seq<Job>)
    ensures listnames == JobsOf(rcpttos.items, Targets(listExists))
  {
    var all := rcpttos.items;
    listnames := [];
    for k := 0 to |all|
      invariant listnames == JobsOf(all[..k], Targets(listExists))
    {
      var rcpt := all[k];
      JobsSnoc(all[..k], rcpt, Targets(listExists));
      assert all[..k + 1] == all[..k] + [rcpt];
      var job := FindJob(rcpt, listExists);
      listnames := listnames + job;
    }
    assert all[..|all|] == all;
  }

  /** The body of that loop; an empty result is its `continue`. */
  method FindJob(rcpt: string, listExists: string -> bool) returns (job: seq<Job>)
    ensures job == JobFor(rcpt, Targets(listExists))
  {
    var local := SplitOn(Lower(rcpt), "@")[0];
    var parts := SplitOn(local, "-");
    if |parts| > 2 {
      return [];
    }
    var listname := parts[0];
    var command := "";
    if |parts| == 2 {
      command := parts[1];
    }
    if !listExists(listname) || !IsListCommand(command) {
      return [];
    }
    return [Job(rcpt, listname, command)];
  }

  /** The recipient part of MailmanProxy.process_message: the list jobs are collected, and the
      shared list keeps exactly the recipients to forward. */
  method Partition(rcpttos: RecipientList, listExists: string -> bool) returns (listnames: seq<Job>)
    modifies rcpttos
    ensures listnames == JobsOf(old(rcpttos.items), Targets(listExists))
    ensures rcpttos.items == Select(old(rcpttos.items), Targets(listExists), false)
  {
    ghost var all, target := rcpttos.items, Targets(listExists);
    listnames := CollectJobs(rcpttos, listExists);
    JobsAreSelected(all, target);
    RemovalIsFilter([], all, target);
    assert [] + all == all && [] + Select(all, target, false) == Select(all, target, false);
    RemoveJobs(rcpttos, listnames, Select(all, target, false));
  }

  /** The second loop. */
  method RemoveJobs(rcpttos: RecipientList, listnames: seq<Job>, ghost left: seq<string>)
    requires RemoveEach(rcpttos.items, RcptsOf(listnames)) == Some(left)
    modifies rcpttos
    ensures rcpttos.items == left
  {
    ghost var xs := RcptsOf(listnames);
    for k := 0 to |listnames|
      invariant RemoveEach(rcpttos.items, xs[k..]) == Some(left)
    {
      assert xs[k..][0] == listnames[k].rcpt && xs[k..][1..] == xs[k + 1..];
      RemoveNeedsMember(rcpttos.items, listnames[k].rcpt);
      rcpttos.Remove(listnames[k].rcpt);
    }
  }
}
