/** What a conversation asks of the dispatcher, the drop folder, the push and the disk, as
    its trace shows it. */
module Requests {
  import opened Text
  import opened Protocol
  import opened Connection
  import Transport

  datatype Request = RunCommand(cmd: string) | ListPushable | Push(name: string)

  /** A request and what came of it. */
  datatype Ask = Ask(request: Request, answer: string)

  /** The requests a trace shows, oldest first; a command without a reply was answered by
      nothing. */
  function Asks(trace: seq<Event>): seq<Ask> {
    if trace == [] then [] else Shown(Asks(trace[..|trace| - 1]), trace[|trace| - 1])
  }

  function Shown(asks: seq<Ask>, e: Event): seq<Ask> {
    var n := |asks| - 1;
    match e
    case Dispatched(cmd) => asks + [Ask(RunCommand(cmd), "")]
    case Answered(text) =>
      if n >= 0 && asks[n].request.RunCommand? then asks[n := asks[n].(answer := text)] else asks
    case Listed(text) => asks + [Ask(ListPushable, text)]
    case Pushed(name, wire) => asks + [Ask(Push(name), wire)]
    case _ => asks
  }

  /** The names of the files a trace shows created, oldest first. */
  function Creations(trace: seq<Event>): seq<string> {
    if trace == [] then []
    else
      var e := trace[|trace| - 1];
      Creations(trace[..|trace| - 1]) + if e.Opened? then [e.name] else []
  }

  /** An event that shows no request and creates no file. */
  predicate Silent(e: Event) { !e.Dispatched? && !e.Answered? && !e.Listed? && !e.Pushed? && !e.Opened? }

  predicate AllSilent(es: seq<Event>) { forall i :: 0 <= i < |es| ==> Silent(es[i]) }

  lemma {:induction false} SilentAdds(trace: seq<Event>, es: seq<Event>)
    requires AllSilent(es)
    ensures Asks(trace + es) == Asks(trace) && Creations(trace + es) == Creations(trace)
  {
    if es == [] {
      assert trace + es == trace;
    } else {
      var n := |es| - 1;
      assert (trace + es)[..|trace + es| - 1] == trace + es[..n];
      SilentAdds(trace, es[..n]);
      assert Silent(es[n]);
    }
  }

  lemma OneMoreEvent(trace: seq<Event>, e: Event)
    ensures Asks(trace + [e]) == Shown(Asks(trace), e)
    ensures Creations(trace + [e]) == Creations(trace) + if e.Opened? then [e.name] else []
  {
    assert (trace + [e])[..|trace|] == trace;
  }

  lemma TwoMoreEvents(trace: seq<Event>, a: Event, b: Event)
    ensures Asks(trace + [a, b]) == Shown(Shown(Asks(trace), a), b)
    ensures Creations(trace + [a, b]) ==
            Creations(trace) + (if a.Opened? then [a.name] else []) + if b.Opened? then [b.name] else []
  {
    OneMoreEvent(trace, a);
    assert trace + [a, b] == trace + [a] + [b];
    OneMoreEvent(trace + [a], b);
  }

  /** The request a command line makes. */
  function Requested(cmd: string): Request {
    if cmd == "push_file_list" then ListPushable
    else if |cmd| > 10 && cmd[..10] == "push_file:" then Push(cmd[10..])
    else RunCommand(cmd)
  }

  /** One command asks once, and shows the answer. */
  lemma CommandAsks(trace: seq<Event>, m: Mode, cmd: string, text: string)
    ensures Asks(trace + HandleCommand(m, cmd, text).events) == Asks(trace) + [Ask(Requested(cmd), text)]
    ensures Creations(trace + HandleCommand(m, cmd, text).events) == Creations(trace)
  {
    var es := HandleCommand(m, cmd, text).events;
    if |es| == 1 {
      assert es == [es[0]];
      OneMoreEvent(trace, es[0]);
    } else {
      assert es == [es[0], es[1]];
      TwoMoreEvents(trace, es[0], es[1]);
    }
  }

  /** The request an event shows. */
  function RequestOf(e: Event): Request
    requires e.Dispatched? || e.Listed? || e.Pushed?
  {
    match e
    case Dispatched(cmd) => RunCommand(cmd)
    case Listed(_) => ListPushable
    case Pushed(name, _) => Push(name)
  }

  /** Every push a trace shows was asked for under that name and brought forth what it
      shows; and every other request was made as shown. */
  lemma {:induction false} ShownWasAsked(trace: seq<Event>, k: nat) returns (i: nat)
    requires k < |trace| && (trace[k].Dispatched? || trace[k].Listed? || trace[k].Pushed?)
    ensures i < |Asks(trace)| && Asks(trace)[i].request == RequestOf(trace[k])
    ensures trace[k].Pushed? ==> Asks(trace)[i].answer == trace[k].wire
    ensures trace[k].Listed? ==> Asks(trace)[i].answer == trace[k].text
  {
    var n := |trace| - 1;
    if k < n {
      i := ShownWasAsked(trace[..n], k);
    } else {
      i := |Asks(trace[..n])|;
    }
  }

  lemma PayloadIsSilent(s: string, e: Event)
    requires Silent(e)
    ensures AllSilent(StoredAll(s)) && AllSilent([e]) && AllSilent(StoredAll(s) + [e])
  {
  }

  lemma FileDataIsSilent(outcome: int, c: Conn)
    requires c.InRange() && Counting(c.Mode()) && PayloadReady(c)
    ensures Asks(FileData(outcome, c).parser.trace) == Asks(c.parser.trace)
    ensures Creations(FileData(outcome, c).parser.trace) == Creations(c.parser.trace)
  {
    hide Asks, Creations;
    if outcome < 0 {
      PayloadIsSilent("", Sent(CmdFail));
      SilentAdds(c.parser.trace, [Sent(CmdFail)]);
    } else {
      var data := c.Rest()[..Min(outcome, Writable(c))];
      PayloadIsSilent(data, Sent(FileOk));
      var es := Store(c.Mode(), data).events;
      SilentAdds(c.parser.trace, es);
      assert c.parser.trace + es + [] == c.parser.trace + es;
    }
  }

  /** The trace shows exactly the requests that were made and the files that were created,
      and every push put on the wire what a push of its name may put there. */
  ghost predicate Shows(trace: seq<Event>, asks: seq<Ask>, created: seq<string>) {
    && Asks(trace) == asks && Creations(trace) == created
    && forall i :: 0 <= i < |asks| && asks[i].request.Push? ==>
         Transport.PushOf(asks[i].request.name, asks[i].answer)
  }

  lemma ShowsNothing()
    ensures Shows([], [], [])
  {
  }

  lemma ShowsSame(trace: seq<Event>, later: seq<Event>, asks: seq<Ask>, created: seq<string>)
    requires Shows(trace, asks, created)
    requires Asks(later) == Asks(trace) && Creations(later) == Creations(trace)
    ensures Shows(later, asks, created)
  {
  }

  lemma ShowsReply(trace: seq<Event>, e: Event, asks: seq<Ask>, created: seq<string>)
    requires Shows(trace, asks, created) && Silent(e)
    ensures Shows(trace + [e], asks, created)
  {
    SilentAdds(trace, [e]);
  }

  lemma ShowsAuth(trace: seq<Event>, m: Mode, pin: string, v: Verdict, asks: seq<Ask>, created: seq<string>)
    requires Shows(trace, asks, created)
    ensures Shows(trace + HandleAuth(m, pin, v).events, asks, created)
  {
    hide Asks, Creations, Transport.PushOf;
    SilentAdds(trace, HandleAuth(m, pin, v).events);
  }

  lemma ShowsCommand(trace: seq<Event>, m: Mode, cmd: string, text: string, asks: seq<Ask>, created: seq<string>)
    requires Shows(trace, asks, created)
    requires Requested(cmd).Push? ==> Transport.PushOf(Requested(cmd).name, text)
    ensures Shows(trace + HandleCommand(m, cmd, text).events, asks + [Ask(Requested(cmd), text)], created)
  {
    hide HandleCommand, Requested;
    CommandAsks(trace, m, cmd, text);
  }

  lemma ShowsOpen(trace: seq<Event>, m: Mode, fd: int, asks: seq<Ask>, created: seq<string>)
    requires Shows(trace, asks, created) && 0 < m.expected <= MAX_RECEIVE_FILE_BYTES
    ensures Shows(trace + OnOpen(m, fd).events, asks, created + if fd >= 0 then [m.name] else [])
  {
    hide Asks, Creations, Transport.PushOf;
    if fd < 0 {
      ShowsReply(trace, Sent(CmdFail), asks, created);
      assert created + [] == created;
    } else {
      TwoMoreEvents(trace, Opened(m.name, m.expected), Sent(ReadyForFile));
    }
  }

  lemma ShowsFileData(outcome: int, c: Conn, asks: seq<Ask>, created: seq<string>)
    requires c.InRange() && Counting(c.Mode()) && PayloadReady(c)
    requires Shows(c.parser.trace, asks, created)
    ensures Shows(FileData(outcome, c).parser.trace, asks, created)
  {
    hide FileData, PayloadReady;
    FileDataIsSilent(outcome, c);
    ShowsSame(c.parser.trace, FileData(outcome, c).parser.trace, asks, created);
  }
}
