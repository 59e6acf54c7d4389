/** What the buffered, chunked session keeps of the one-pass reference: everything, up to
    end markers that arrive late and lines that wait for the next chunk. */
module Refinement {
  import opened Text
  import opened Protocol
  import opened Connection
  import Framing

  // ---- traces up to replies to late end markers ------------------------

  /** A trace without the replies that late end markers provoke. */
  function Erase(trace: seq<Event>): (t: seq<Event>)
    ensures |t| <= |trace|
  {
    if trace == [] then []
    else
      var e := trace[|trace| - 1];
      Erase(trace[..|trace| - 1]) + if e == StraySentinel then [] else [e]
  }

  lemma {:induction false} EraseAppend(a: seq<Event>, b: seq<Event>)
    ensures Erase(a + b) == Erase(a) + Erase(b)
  {
    if b == [] {
      assert a + b == a;
    } else {
      var n := |b| - 1;
      assert (a + b)[..|a + b| - 1] == a + b[..n];
      EraseAppend(a, b[..n]);
    }
  }

  lemma {:induction false} EraseNothing(trace: seq<Event>)
    ensures StraySentinel !in trace ==> Erase(trace) == trace
    ensures |Erase(trace)| == |trace| ==> Erase(trace) == trace
  {
    if trace != [] {
      var n := |trace| - 1;
      EraseNothing(trace[..n]);
      assert trace == trace[..n] + [trace[n]];
    }
  }

  lemma ErasePrefix(a: seq<Event>, b: seq<Event>)
    requires a <= b
    ensures Erase(a) <= Erase(b)
  {
    EraseAppend(a, b[|a|..]);
    assert b == a + b[|a|..];
  }

  // ---- dropped and late end markers ------------------------------------

  function Skips(log: seq<Input>): nat {
    if log == [] then 0
    else Skips(log[..|log| - 1]) + if log[|log| - 1] == Skip then 1 else 0
  }

  /** The same state, and the same events but for `extra` replies to end markers. */
  predicate Alike(p: Parser, q: Parser, extra: nat) {
    p.mode == q.mode && Erase(p.trace) == Erase(q.trace) && |q.trace| == |p.trace| + extra
  }

  lemma FeedAlike(w: World, p: Parser, q: Parser, extra: nat, i: Input)
    requires Alike(p, q, extra)
    ensures Alike(Feed(w, p, i), Feed(w, q, i), extra)
  {
    var es := Step(w, p.mode, i).events;
    EraseAppend(p.trace, es);
    EraseAppend(q.trace, es);
  }

  /** Reading an end marker after a file replies once and is otherwise like dropping it. */
  lemma SentinelAlike(w: World, p: Parser, q: Parser, extra: nat)
    requires Alike(p, q, extra) && AtSentinel(p.mode)
    ensures Alike(Feed(w, p, Skip), FeedAll(w, q, Bytes(SENTINEL)), extra + 1)
  {
    hide HandleHeader, HandleAuth, FeedAll, Bytes, Chomp, Pin;
    assert SENTINEL == "FILE_END" + "\n";
    FeedLine(w, q, "FILE_END");
    EraseAppend(q.trace, [StraySentinel]);
    assert Erase([StraySentinel]) == [];
    assert p.trace + [] == p.trace;
  }

  /** Dropping end markers changes nothing but the replies to them. */
  lemma {:induction false} LogAlike(w: World, log: seq<Input>)
    requires Faultless(log) && InputsFit(w, log)
    ensures Alike(Replay(w, log), Reference(w, Expand(log)), Skips(log))
  {
    if log != [] {
      var n := |log| - 1;
      var rest, i := log[..n], log[n];
      InputsFitPrefix(w, log);
      LogAlike(w, rest);
      var p, q := Replay(w, rest), Reference(w, Expand(rest));
      BytesAppend(Expand(rest), Raw(i));
      ReplayAppend(w, Bytes(Expand(rest)), Bytes(Raw(i)));
      if i == Skip {
        assert AtSentinel(p.mode);
        SentinelAlike(w, p, q, Skips(rest));
      } else {
        assert Bytes(Raw(i)) == [i];
        FeedOne(w, q, i);
        FeedAlike(w, p, q, Skips(rest), i);
      }
    } else {
      assert Bytes("") == [];
    }
  }

  // ---- refinement under any chunking -----------------------------------

  /** Up to replies to late end markers, a session without a write error has done what
      the reference does on the bytes it consumed, which is a prefix of what the
      reference does on everything received. */
  lemma PrefixOfReference(w: World, c: Conn)
    requires Sound(w, c) && Faultless(c.log)
    ensures Erase(c.parser.trace) == Erase(Reference(w, c.stream[..c.pos]).trace)
    ensures Erase(c.parser.trace) <= Erase(Reference(w, c.stream).trace)
  {
    LogAlike(w, c.log);
    ErasedReferenceGrows(w, c.stream[..c.pos], c.stream);
  }

  /** When no end marker follows a payload, the session's trace is exactly a prefix. */
  lemma ExactPrefixOfReference(w: World, ws: nat -> int, chunks: seq<string>)
    requires Faultless(Run(w, ws, chunks).log)
    requires StraySentinel !in Reference(w, Concat(chunks)).trace
    ensures Run(w, ws, chunks).parser.trace <= Reference(w, Concat(chunks)).trace
  {
    ExactPrefix(w, Run(w, ws, chunks));
  }

  lemma ExactPrefix(w: World, c: Conn)
    requires Sound(w, c) && Faultless(c.log)
    requires StraySentinel !in Reference(w, c.stream).trace
    ensures c.parser.trace <= Reference(w, c.stream).trace
  {
    LogAlike(w, c.log);
    var seen := Reference(w, c.stream[..c.pos]).trace;
    ReferenceGrows(w, c.stream[..c.pos], c.stream[c.pos..]);
    assert c.stream == c.stream[..c.pos] + c.stream[c.pos..];
    assert StraySentinel !in seen;
    EraseNothing(seen);
    EraseNothing(c.parser.trace);
  }

  ghost predicate OneExtends<T>(a: seq<T>, b: seq<T>) { a <= b || b <= a }

  lemma PrefixesOfOne<T>(a: seq<T>, b: seq<T>, s: seq<T>)
    requires a <= s && b <= s
    ensures OneExtends(a, b)
  {
    if |a| <= |b| { assert a == b[..|a|]; } else { assert b == a[..|b|]; }
  }

  /** Two sessions in the same world that received streams of which one extends the
      other, cut and written in any two ways: one has done a prefix of what the other
      has, up to replies to late end markers. */
  lemma Confluence(w: World, ws1: nat -> int, chunks1: seq<string>,
                   ws2: nat -> int, chunks2: seq<string>)
    requires Concat(chunks1) <= Concat(chunks2)
    requires Faultless(Run(w, ws1, chunks1).log) && Faultless(Run(w, ws2, chunks2).log)
    ensures OneExtends(Erase(Run(w, ws1, chunks1).parser.trace),
                       Erase(Run(w, ws2, chunks2).parser.trace))
  {
    Confluent(w, Run(w, ws1, chunks1), Run(w, ws2, chunks2));
  }

  lemma ErasedReferenceGrows(w: World, a: string, b: string)
    requires a <= b
    ensures Erase(Reference(w, a).trace) <= Erase(Reference(w, b).trace)
  {
    ReferenceGrows(w, a, b[|a|..]);
    assert b == a + b[|a|..];
    ErasePrefix(Reference(w, a).trace, Reference(w, b).trace);
  }

  lemma Confluent(w: World, c1: Conn, c2: Conn)
    requires Sound(w, c1) && Faultless(c1.log) && Sound(w, c2) && Faultless(c2.log)
    requires c1.stream <= c2.stream
    ensures OneExtends(Erase(c1.parser.trace), Erase(c2.parser.trace))
  {
    var all := Erase(Reference(w, c2.stream).trace);
    assert Erase(c2.parser.trace) <= all by { PrefixOfReference(w, c2); }
    assert Erase(c1.parser.trace) <= all by {
      PrefixOfReference(w, c1);
      ErasedReferenceGrows(w, c1.stream, c2.stream);
    }
    PrefixesOfOne(Erase(c1.parser.trace), Erase(c2.parser.trace), all);
  }

  // ---- how far a session lags behind the reference ---------------------

  /** Something readable could be handled at once, but waits for the next chunk. */
  predicate Stalled(c: Conn)
    requires c.InRange()
  {
    LineReady(c) || PayloadReady(c)
  }

  /** A call never leaves the end marker of a just completed file at the read head. */
  predicate Settled(c: Conn)
    requires c.InRange()
  {
    !c.Closed() && c.Mode().stage != DATA && c.Mode().afterFile ==> !(SENTINEL <= c.Rest())
  }

  lemma OnDataSettles(w: World, ws: nat -> int, c: Conn, data: string)
    requires Sound(w, c)
    ensures Settled(OnData(w, ws, c, data))
  {
    var d := c.(stream := c.stream + data);
    if !c.Closed() && !(c.Mode().stage == AUTH && |d.stream| > AUTH_MAX_BUFFER) {
      var e := Digest(w, d);
      if PayloadReady(e) {
        FileDataSettles(ws(e.writes), e);
      } else if SENTINEL <= e.Rest() {
        assert e.Rest()[8] == '\n';
      }
    }
  }

  lemma FileDataSettles(outcome: int, c: Conn)
    requires c.InRange() && Counting(c.Mode()) && PayloadReady(c)
    ensures Settled(FileData(outcome, c))
  {
    if outcome >= 0 {
      var data := c.Rest()[..Min(outcome, Writable(c))];
      var stored := c.(writes := c.writes + 1).Consume(|data|, Bytes(data), Store(c.Mode(), data));
      assert FileData(outcome, c) == DropSentinel(stored);
    } else {
      assert FileData(outcome, c).Rest() == "";
    }
  }

  lemma RunSettles(w: World, ws: nat -> int, chunks: seq<string>)
    ensures Settled(Run(w, ws, chunks))
  {
    if chunks != [] {
      var n := |chunks| - 1;
      OnDataSettles(w, ws, Run(w, ws, chunks[..n]), chunks[n]);
    }
  }

  lemma {:induction false} ClosedStays(w: World, p: Parser, log: seq<Input>)
    requires p.mode.closed
    ensures FeedAll(w, p, log) == p
  {
    if log != [] { ClosedStays(w, p, log[..|log| - 1]); }
    assert p.trace + [] == p.trace;
  }

  /** The reference, continued from the session's state over its unread bytes. */
  lemma ReferenceContinues(w: World, c: Conn)
    requires Sound(w, c) && Faultless(c.log)
    ensures Alike(FeedAll(w, c.parser, Bytes(c.Rest())), Reference(w, c.stream), Skips(c.log))
  {
    LogAlike(w, c.log);
    BytesAppend(c.stream[..c.pos], c.Rest());
    assert c.stream == c.stream[..c.pos] + c.Rest();
    ReplayAppend(w, Bytes(c.stream[..c.pos]), Bytes(c.Rest()));
    FeedAllAlike(w, c.parser, Reference(w, c.stream[..c.pos]), Skips(c.log), Bytes(c.Rest()));
  }

  lemma {:induction false} FeedAllAlike(w: World, p: Parser, q: Parser, extra: nat, log: seq<Input>)
    requires Alike(p, q, extra)
    ensures Alike(FeedAll(w, p, log), FeedAll(w, q, log), extra)
  {
    if log != [] {
      var n := |log| - 1;
      FeedAllAlike(w, p, q, extra, log[..n]);
      FeedAlike(w, FeedAll(w, p, log[..n]), FeedAll(w, q, log[..n]), extra, log[n]);
    }
  }

  /** Events that are not all replies to late end markers survive erasing. */
  lemma ReactionSpeaks(p: Parser, r: Reaction, later: Parser)
    requires Erase(r.events) != [] && p.After(r).trace <= later.trace
    ensures |Erase(later.trace)| > |Erase(p.trace)|
  {
    EraseAppend(p.trace, r.events);
    ErasePrefix(p.After(r).trace, later.trace);
  }

  /** Unread bytes whose reaction survives erasing would add to the trace. */
  lemma HeadSpeaks(w: World, c: Conn, n: nat, r: Reaction)
    requires c.InRange() && n <= |c.Rest()|
    requires FeedAll(w, c.parser, Bytes(c.Rest()[..n])) == c.parser.After(r) && Erase(r.events) != []
    ensures |Erase(FeedAll(w, c.parser, Bytes(c.Rest())).trace)| > |Erase(c.parser.trace)|
  {
    var head, tail := c.Rest()[..n], c.Rest()[n..];
    assert c.Rest() == head + tail;
    BytesAppend(head, tail);
    FeedAllAppend(w, c.parser, Bytes(head), Bytes(tail));
    FeedAllExtends(w, FeedAll(w, c.parser, Bytes(head)), Bytes(tail));
    ReactionSpeaks(c.parser, r, FeedAll(w, c.parser, Bytes(c.Rest())));
  }

  lemma WaitingLineSpeaks(w: World, c: Conn)
    requires Sound(w, c) && Settled(c) && LineReady(c)
    ensures |Erase(FeedAll(w, c.parser, Bytes(c.Rest())).trace)| > |Erase(c.parser.trace)|
  {
    var raw := FirstLine(c);
    FeedLine(w, c.parser, raw);
    assert !IsStray(c.Mode(), raw) by { assert raw + "\n" == c.Rest()[..|raw| + 1]; }
    var r := HandleLine(w, c.Mode(), raw);
    EraseNothing(r.events);
    HeadSpeaks(w, c, |raw| + 1, r);
  }

  lemma WaitingPayloadSpeaks(w: World, c: Conn)
    requires Sound(w, c) && PayloadReady(c)
    ensures |Erase(FeedAll(w, c.parser, Bytes(c.Rest())).trace)| > |Erase(c.parser.trace)|
  {
    var head := c.Rest()[..1];
    FeedPayload(w, c.parser, head);
    var r := Store(c.Mode(), head);
    assert r.events[0] == Stored(head[0]);
    EraseNothing(r.events);
    HeadSpeaks(w, c, 1, r);
  }

  /** Exactly when a session has nothing it could do at once, it has done all that the
      reference does on the stream received so far. */
  lemma CaughtUpIffNotStalled(w: World, ws: nat -> int, chunks: seq<string>)
    requires Faultless(Run(w, ws, chunks).log) && !Overflows(w, chunks)
    ensures Erase(Run(w, ws, chunks).parser.trace) == Erase(Reference(w, Concat(chunks)).trace)
            <==> !Stalled(Run(w, ws, chunks))
  {
    OverflowIff(w, ws, chunks);
    RunSettles(w, ws, chunks);
    CaughtUp(w, Run(w, ws, chunks));
  }

  lemma CaughtUp(w: World, c: Conn)
    requires Sound(w, c) && Settled(c) && Faultless(c.log) && !c.overflow
    ensures Erase(c.parser.trace) == Erase(Reference(w, c.stream).trace) <==> !Stalled(c)
  {
    ReferenceContinues(w, c);
    if Stalled(c) {
      if LineReady(c) { WaitingLineSpeaks(w, c); } else { WaitingPayloadSpeaks(w, c); }
    } else if c.Mode().closed {
      ClosedStays(w, c.parser, Bytes(c.Rest()));
    } else if c.Mode().stage == DATA {
      assert Bytes(c.Rest()) == [];
    } else {
      FeedPartialLine(w, c.parser, c.Rest());
    }
  }

  /** However one stream is cut and written: two sessions that are not stalled have done
      the same, up to replies to late end markers. */
  lemma ChunkingIsIrrelevant(w: World, ws1: nat -> int, chunks1: seq<string>,
                             ws2: nat -> int, chunks2: seq<string>)
    requires Concat(chunks1) == Concat(chunks2)
    requires Faultless(Run(w, ws1, chunks1).log) && Faultless(Run(w, ws2, chunks2).log)
    requires !Overflows(w, chunks1) && !Overflows(w, chunks2)
    requires !Stalled(Run(w, ws1, chunks1)) && !Stalled(Run(w, ws2, chunks2))
    ensures Erase(Run(w, ws1, chunks1).parser.trace) == Erase(Run(w, ws2, chunks2).parser.trace)
  {
    hide Run;
    CaughtUpIffNotStalled(w, ws1, chunks1);
    CaughtUpIffNotStalled(w, ws2, chunks2);
  }

  /** What follows a completed file in the buffer, less a whole end marker. */
  function AfterPayload(c: Conn): string
    requires c.InRange() && 0 <= c.Mode().expected - c.Mode().received <= |c.Rest()|
  {
    var tail := c.Rest()[c.Mode().expected - c.Mode().received..];
    if SENTINEL <= tail then tail[|SENTINEL|..] else tail
  }

  /** The payload at hand meets a disk that takes less than it is offered, or completes
      a file behind which a further line is already buffered. */
  predicate LeavesWork(outcome: int, c: Conn)
    requires c.InRange()
  {
    && PayloadReady(c)
    && 0 <= outcome
    && 0 < c.Mode().expected - c.Mode().received
    && (|| outcome < Writable(c)
        || (Writable(c) == c.Mode().expected - c.Mode().received && '\n' in AfterPayload(c)))
  }

  /** A call leaves something undone exactly when the lines it handles lead to payload
      that leaves work. */
  lemma StalledIff(w: World, ws: nat -> int, c: Conn, data: string)
    requires Sound(w, c) && !c.Closed()
    requires c.Mode().stage == AUTH ==> |c.stream + data| <= AUTH_MAX_BUFFER
    ensures var d := Digest(w, c.(stream := c.stream + data));
            Stalled(OnData(w, ws, c, data)) <==> LeavesWork(ws(d.writes), d)
  {
    ProcessStalls(w, ws, c.(stream := c.stream + data));
  }

  lemma ProcessStalls(w: World, ws: nat -> int, c: Conn)
    requires c.InRange() && Counting(c.Mode())
    ensures Stalled(Process(w, ws, c)) <==> LeavesWork(ws(Digest(w, c).writes), Digest(w, c))
  {
    var d := Digest(w, c);
    if PayloadReady(d) { FileDataStalls(ws(d.writes), d); }
  }

  lemma FileDataStalls(outcome: int, c: Conn)
    requires c.InRange() && Counting(c.Mode()) && PayloadReady(c)
    ensures Stalled(FileData(outcome, c)) <==> LeavesWork(outcome, c)
  {
    if outcome >= 0 {
      var n := Min(outcome, Writable(c));
      var data := c.Rest()[..n];
      var stored := c.(writes := c.writes + 1).Consume(n, Bytes(data), Store(c.Mode(), data));
      StoreCounts(c.Mode(), data);
      assert stored.Rest() == c.Rest()[n..];
      if stored.Mode().stage != DATA {
        assert n == Writable(c) == c.Mode().expected - c.Mode().received;
        assert DropSentinel(stored).Rest() == AfterPayload(c);
      }
    }
  }

  /** The family of inputs that leave work without any short write: a line sent in one
      segment behind the last payload bytes is not handled by the call that receives it,
      although the same bytes in two segments are. */
  lemma PipelinedLineWaits(w: World, ws: nat -> int, c: Conn, data: string, line: string)
    requires Sound(w, c) && !c.Closed() && c.Mode().stage == DATA && c.Rest() == ""
    requires |data| == c.Mode().expected - c.Mode().received && ws(c.writes) >= |data|
    requires '\n' !in line && line != "FILE_END"
    ensures OnData(w, ws, c, data + (line + "\n")).parser == c.parser.After(Store(c.Mode(), data))
    ensures OnData(w, ws, c, data + (line + "\n")).Rest() == line + "\n"
    ensures Store(c.Mode(), data).mode.stage == HEADER
    ensures OnData(w, ws, OnData(w, ws, c, data), line + "\n").parser
            == c.parser.After(Store(c.Mode(), data)).After(HandleLine(w, Store(c.Mode(), data).mode, line))
  {
    assert !(SENTINEL <= line + "\n") by { LineIsNoSentinel(line); }
    SegmentCompletesFile(w, ws, c, data, line + "\n");
    LineAfterFile(w, ws, c, data, line);
  }

  lemma LineIsNoSentinel(line: string)
    requires '\n' !in line && line != "FILE_END"
    ensures !(SENTINEL <= line + "\n")
  {
    assert SENTINEL[8] == '\n' && SENTINEL[..8] == "FILE_END";
  }

  lemma LineAfterFile(w: World, ws: nat -> int, c: Conn, data: string, line: string)
    requires Sound(w, c) && !c.Closed() && c.Mode().stage == DATA && c.Rest() == ""
    requires |data| == c.Mode().expected - c.Mode().received && ws(c.writes) >= |data|
    requires '\n' !in line
    ensures Store(c.Mode(), data).mode.stage == HEADER
    ensures OnData(w, ws, OnData(w, ws, c, data), line + "\n").parser
            == c.parser.After(Store(c.Mode(), data)).After(HandleLine(w, Store(c.Mode(), data).mode, line))
  {
    StoreCounts(c.Mode(), data);
    assert data + "" == data;
    SegmentCompletesFile(w, ws, c, data, "");
    OnDataSound(w, ws, c, data);
    SegmentIsOneLine(w, ws, OnData(w, ws, c, data), line);
  }

  lemma SegmentCompletesFile(w: World, ws: nat -> int, c: Conn, data: string, more: string)
    requires Sound(w, c) && !c.Closed() && c.Mode().stage == DATA && c.Rest() == ""
    requires |data| == c.Mode().expected - c.Mode().received && ws(c.writes) >= |data|
    requires !(SENTINEL <= more)
    ensures var d := OnData(w, ws, c, data + more);
            && d.parser == c.parser.After(Store(c.Mode(), data))
            && d.Rest() == more && d.overflow == c.overflow
  {
    var b := c.(stream := c.stream + (data + more));
    assert b.Rest() == data + more;
    assert b.Rest()[..|data|] == data && b.Rest()[|data|..] == more;
    assert PayloadReady(b) && Digest(w, b) == b && Writable(b) == |data|;
  }

  lemma SegmentIsOneLine(w: World, ws: nat -> int, c: Conn, line: string)
    requires Sound(w, c) && !c.Closed() && c.Mode().stage == HEADER && c.Rest() == ""
    requires '\n' !in line
    ensures OnData(w, ws, c, line + "\n").parser == c.parser.After(HandleLine(w, c.Mode(), line))
  {
    var b := c.(stream := c.stream + (line + "\n"));
    assert b.Rest() == line + "\n";
    assert b.Rest()[|line|] == '\n' && line == b.Rest()[..|line|];
    FirstIndexUnique(b.Rest(), '\n', |line|);
    assert FirstLine(b) == line;
    TakeLineLeaves(w, b, line);
  }

  lemma TakeLineLeaves(w: World, c: Conn, line: string)
    requires c.InRange() && LineReady(c) && FirstLine(c) == line && c.Rest() == line + "\n"
    ensures Digest(w, c) == TakeLine(w, c) && TakeLine(w, c).Rest() == ""
  {
  }

  // ---- payload after a write error -------------------------------------

  /** A failed write throws away what is buffered and goes back to reading lines. */
  lemma FaultDropsSegment(w: World, ws: nat -> int, c: Conn, data: string)
    requires Sound(w, c) && !c.Closed() && c.Mode().stage == DATA && c.Rest() == ""
    requires data != "" && ws(c.writes) < 0
    ensures var d := OnData(w, ws, c, data);
            d.parser == c.parser.After(OnFault(c.Mode())) && d.Rest() == "" && d.overflow == c.overflow
  {
    var b := c.(stream := c.stream + data);
    assert b.Rest() == data;
    assert PayloadReady(b) && Digest(w, b) == b;
  }

  lemma PayloadIsStored(w: World, ws: nat -> int, c: Conn, data: string)
    requires Sound(w, c) && !c.Closed() && c.Mode().stage == DATA && c.Rest() == ""
    requires 0 < |data| < c.Mode().expected - c.Mode().received && ws(c.writes) >= |data|
    ensures var d := OnData(w, ws, c, data);
            d.parser == c.parser.After(Store(c.Mode(), data)) && d.Rest() == "" && d.overflow == c.overflow
            && d.writes == c.writes + 1
  {
    var b := c.(stream := c.stream + data);
    assert b.Rest() == data && b.Rest()[..|data|] == data && b.Rest()[|data|..] == "";
    assert PayloadReady(b) && Digest(w, b) == b && Writable(b) == |data|;
  }

  /** What a write error turns payload into: a line inside the announced payload is stored
      if the writes succeed, and obeyed as a command if the one before it failed. */
  lemma PayloadIsObeyed(w: World, good: nat -> int, bad: nat -> int, c: Conn,
                        data: string, blanks: string, cmd: string)
    requires Sound(w, c) && !c.Closed() && c.Mode().stage == DATA && c.Rest() == ""
    requires AllIn(blanks, {' '}) && cmd != "" && cmd[0] != ' '
    requires '\n' !in cmd && cmd[|cmd| - 1] != '\r'
    requires var line := Framing.Command(blanks, cmd) + "\n";
             && data != "" && |data| + |line| < c.Mode().expected - c.Mode().received
             && bad(c.writes) < 0 && good(c.writes) >= |data| && good(c.writes + 1) >= |line|
    ensures var line := Framing.Command(blanks, cmd) + "\n";
            var stored := c.parser.After(Store(c.Mode(), data));
            OnData(w, good, OnData(w, good, c, data), line).parser == stored.After(Store(stored.mode, line))
    ensures var line := Framing.Command(blanks, cmd) + "\n";
            var lost := c.parser.After(OnFault(c.Mode()));
            OnData(w, bad, OnData(w, bad, c, data), line).parser
            == lost.After(HandleCommand(lost.mode.(afterFile := false), cmd, w.answer(lost.mode.answers)))
  {
    hide OnData, Replay, Expand, InputsFit, HandleCommand, HandleHeader, HandleLine, Framing.Command, Chomp;
    var line := Framing.Command(blanks, cmd);
    PayloadIsStored(w, good, c, data);
    OnDataSound(w, good, c, data);
    PayloadIsStored(w, good, OnData(w, good, c, data), line + "\n");
    FaultDropsSegment(w, bad, c, data);
    OnDataSound(w, bad, c, data);
    var d := OnData(w, bad, c, data);
    Framing.CommandIsOneLine(blanks, cmd);
    SegmentIsOneLine(w, bad, d, line);
    Framing.LineIsHeader(w, d.Mode(), line);
    Framing.CommandReads(d.Mode().(afterFile := false), blanks, cmd, w.fd(d.Mode().opens), w.answer(d.Mode().answers));
  }

  // ---- the cap before authentication -----------------------------------

  /** Before authentication an open session has never received more than the cap. */
  lemma {:induction false} PreAuthBounded(w: World, ws: nat -> int, chunks: seq<string>)
    ensures var c := Run(w, ws, chunks);
            !c.Closed() && c.Mode().stage == AUTH ==> |Concat(chunks)| <= 4096
  {
    if chunks != [] {
      var n := |chunks| - 1;
      StaysInAuth(w, ws, Run(w, ws, chunks[..n]), chunks[n]);
    }
  }

  lemma StaysInAuth(w: World, ws: nat -> int, c: Conn, data: string)
    requires Sound(w, c)
    ensures var d := OnData(w, ws, c, data);
            !d.Closed() && d.Mode().stage == AUTH ==> |d.stream| <= AUTH_MAX_BUFFER
  {
    hide Replay, Expand, InputsFit, Process;
    if !c.Closed() && c.Mode().stage != AUTH {
      NeverBackToAuth(w, ws, c.(stream := c.stream + data));
    }
  }

  lemma NeverBackToAuth(w: World, ws: nat -> int, c: Conn)
    requires c.InRange() && Counting(c.Mode()) && c.Mode().stage != AUTH
    ensures Process(w, ws, c).Mode().stage != AUTH
  {
    hide Digest;
    LinesStayOut(w, c);
  }

  lemma {:induction false} LinesStayOut(w: World, c: Conn)
    requires c.InRange() && c.Mode().stage != AUTH
    ensures Digest(w, c).Mode().stage != AUTH
    decreases |c.Rest()|
  {
    hide HandleLine;
    if LineReady(c) { LinesStayOut(w, TakeLine(w, c)); }
  }

  predicate AuthOpen(m: Mode) { m.stage == AUTH && !m.closed }

  /** Some chunk finds the reference still waiting for a PIN on everything before it, and
      brings the number of bytes received above the cap. */
  ghost predicate Overflows(w: World, chunks: seq<string>) {
    exists k :: 0 <= k < |chunks| && Bursts(w, chunks, k)
  }

  ghost predicate Bursts(w: World, chunks: seq<string>, k: nat)
    requires k < |chunks|
  {
    && AuthOpen(Reference(w, Concat(chunks[..k])).mode)
    && |Concat(chunks[..k + 1])| > 4096
  }

  /** Exactly when the cap closes a session, whatever the disk does. */
  lemma {:induction false} OverflowIff(w: World, ws: nat -> int, chunks: seq<string>)
    ensures Run(w, ws, chunks).overflow <==> Overflows(w, chunks)
  {
    hide Reference, AuthOpen, OnData, Overflows, Bursts;
    if chunks == [] {
      assert !Overflows(w, chunks) by { NothingOverflows(w); }
    } else {
      var n := |chunks| - 1;
      var before, c := chunks[..n], Run(w, ws, chunks[..n]);
      OverflowIff(w, ws, before);
      OverflowsGrows(w, chunks);
      OnDataBursts(w, ws, chunks);
    }
  }

  lemma NothingOverflows(w: World)
    ensures !Overflows(w, [])
  {
  }

  lemma OnDataBursts(w: World, ws: nat -> int, chunks: seq<string>)
    requires chunks != []
    ensures var n := |chunks| - 1;
            var c := Run(w, ws, chunks[..n]);
            OnData(w, ws, c, chunks[n]).overflow <==> c.overflow || Bursts(w, chunks, n)
  {
    hide Reference, AuthOpen, OnData, Truthful, Run;
    var n := |chunks| - 1;
    var c := Run(w, ws, chunks[..n]);
    OnDataOverflows(w, ws, c, chunks[n]);
    if !c.overflow { StaysTruthful(w, ws, chunks[..n]); }
    assert chunks[..n + 1] == chunks;
  }

  lemma OverflowsGrows(w: World, chunks: seq<string>)
    requires chunks != []
    ensures var n := |chunks| - 1;
            Overflows(w, chunks) <==> Overflows(w, chunks[..n]) || Bursts(w, chunks, n)
  {
    hide Reference, AuthOpen, Concat;
    var n := |chunks| - 1;
    var before := chunks[..n];
    forall k | 0 <= k < n ensures Bursts(w, before, k) == Bursts(w, chunks, k) {
      assert before[..k] == chunks[..k] && before[..k + 1] == chunks[..k + 1];
    }
    if Overflows(w, before) {
      var k :| 0 <= k < |before| && Bursts(w, before, k);
      assert Bursts(w, chunks, k);
    }
    if Overflows(w, chunks) && !Bursts(w, chunks, n) {
      var k :| 0 <= k < |chunks| && Bursts(w, chunks, k);
      assert Bursts(w, before, k);
    }
  }

  lemma OnDataOverflows(w: World, ws: nat -> int, c: Conn, data: string)
    requires c.InRange() && Counting(c.Mode())
    ensures OnData(w, ws, c, data).overflow
            <==> c.overflow || (AuthOpen(c.Mode()) && |c.stream + data| > AUTH_MAX_BUFFER)
  {
    hide Process;
    ProcessExtends(w, ws, c.(stream := c.stream + data));
  }

  /** A session that is waiting for a PIN has dropped nothing, and one that is not would
      not be waiting either if it had read everything received at once. */
  ghost predicate Truthful(w: World, c: Conn)
    requires c.InRange()
  {
    if AuthOpen(c.Mode()) then c.log == Bytes(c.stream[..c.pos])
    else !AuthOpen(Reference(w, c.stream).mode)
  }

  lemma {:induction false} NeverWaitsAgain(w: World, p: Parser, log: seq<Input>)
    requires !AuthOpen(p.mode)
    ensures !AuthOpen(FeedAll(w, p, log).mode)
  {
    hide HandleLine;
    if log != [] { NeverWaitsAgain(w, p, log[..|log| - 1]); }
  }

  lemma ReferenceMovedOn(w: World, a: string, b: string)
    requires !AuthOpen(Reference(w, a).mode)
    ensures !AuthOpen(Reference(w, a + b).mode)
  {
    hide AuthOpen;
    BytesAppend(a, b);
    ReplayAppend(w, Bytes(a), Bytes(b));
    NeverWaitsAgain(w, Reference(w, a), Bytes(b));
  }

  lemma {:induction false} StaysTruthful(w: World, ws: nat -> int, chunks: seq<string>)
    requires !Run(w, ws, chunks).overflow
    ensures var c := Run(w, ws, chunks);
            Truthful(w, c) && (AuthOpen(c.Mode()) <==> AuthOpen(Reference(w, c.stream).mode))
  {
    hide OnData, Reference;
    if chunks != [] {
      var n := |chunks| - 1;
      var c := Run(w, ws, chunks[..n]);
      OnDataOverflows(w, ws, c, chunks[n]);
      StaysTruthful(w, ws, chunks[..n]);
      OnDataTruthful(w, ws, c, chunks[n]);
    }
    if AuthOpen(Run(w, ws, chunks).Mode()) { WaitingTogether(w, Run(w, ws, chunks)); }
  }

  lemma OnDataTruthful(w: World, ws: nat -> int, c: Conn, data: string)
    requires c.InRange() && Counting(c.Mode()) && Sound(w, c)
    requires Truthful(w, c) && !OnData(w, ws, c, data).overflow
    ensures var d := OnData(w, ws, c, data);
            Truthful(w, d) && (AuthOpen(d.Mode()) ==> '\n' !in d.Rest())
  {
    hide Reference, Bytes, Sound, FileData, Digest;
    var d := c.(stream := c.stream + data);
    if !AuthOpen(c.Mode()) {
      ReferenceMovedOn(w, c.stream, data);
    } else {
      assert d.stream[..d.pos] == c.stream[..c.pos];
    }
    ReceiveSound(w, c, data);
    DigestTruthful(w, d);
    var e := Digest(w, d);
    if PayloadReady(e) { FileDataStaysOut(ws(e.writes), e); }
  }

  lemma FileDataStaysOut(outcome: int, c: Conn)
    requires c.InRange() && Counting(c.Mode()) && PayloadReady(c)
    ensures FileData(outcome, c).Mode().stage != AUTH
  {
  }

  lemma {:induction false} DigestTruthful(w: World, c: Conn)
    requires c.InRange() && Sound(w, c) && Truthful(w, c)
    ensures Truthful(w, Digest(w, c))
    decreases |c.Rest()|
  {
    hide Reference, Bytes, Sound, HandleLine;
    if LineReady(c) {
      TakeLineSound(w, c);
      TakeLineTruthful(w, c);
      DigestTruthful(w, TakeLine(w, c));
    }
  }

  lemma TakeLineTruthful(w: World, c: Conn)
    requires Sound(w, c) && Truthful(w, c) && LineReady(c)
    ensures Truthful(w, TakeLine(w, c))
  {
    hide HandleLine, Bytes, Expand, Replay, InputsFit;
    var d := TakeLine(w, c);
    if AuthOpen(c.Mode()) {
      var raw := FirstLine(c);
      BytesAppend(c.stream[..c.pos], raw + "\n");
      assert c.stream[..c.pos] + (raw + "\n") == d.stream[..d.pos];
      TakeLineSound(w, c);
      if !AuthOpen(d.Mode()) {
        ReferenceMovedOn(w, d.stream[..d.pos], d.Rest());
        assert d.stream[..d.pos] + d.Rest() == d.stream;
      }
    }
  }

  /** Behind what it has read, only an unfinished line separates a waiting session from
      the reference. */
  lemma WaitingTogether(w: World, c: Conn)
    requires Sound(w, c) && Truthful(w, c) && AuthOpen(c.Mode()) && '\n' !in c.Rest()
    ensures AuthOpen(Reference(w, c.stream).mode)
  {
    hide Bytes, Replay, FeedAll;
    BytesAppend(c.stream[..c.pos], c.Rest());
    assert c.stream == c.stream[..c.pos] + c.Rest();
    ReplayAppend(w, c.log, Bytes(c.Rest()));
    FeedPartialLine(w, c.parser, c.Rest());
  }

  /** The cap makes authentication depend on how the stream is cut: a correct PIN with too
      much behind it in one segment closes the session unheard, while the same bytes in
      two segments are accepted. */
  lemma OverflowDependsOnCuts(w: World, ws: nat -> int, pin: string, data: string)
    requires w.auth(0) == Accepted && '\n' !in pin
    requires |pin| + 1 <= AUTH_MAX_BUFFER < |pin| + 1 + |data|
    ensures OnData(w, ws, FRESH, pin + "\n" + data).overflow
    ensures OnData(w, ws, FRESH, pin + "\n" + data).parser.trace == []
    ensures var c := OnData(w, ws, OnData(w, ws, FRESH, pin + "\n"), data);
            !c.overflow && [Judged(Pin(Chomp(pin))), Sent(AuthOk)] <= c.parser.trace
  {
    assert OnData(w, ws, FRESH, pin + "\n" + data)
        == FRESH.(stream := "" + (pin + "\n" + data), overflow := true);
    PinSegmentAccepted(w, ws, pin);
    LaterExtends(w, ws, OnData(w, ws, FRESH, pin + "\n"), data);
  }

  lemma PinSegmentAccepted(w: World, ws: nat -> int, pin: string)
    requires w.auth(0) == Accepted && '\n' !in pin && |pin| + 1 <= AUTH_MAX_BUFFER
    ensures var d := OnData(w, ws, FRESH, pin + "\n");
            && d.parser.trace == [Judged(Pin(Chomp(pin))), Sent(AuthOk)]
            && d.Mode().stage == HEADER && !d.Closed()
  {
    hide Process, HandleLine, Pin, Chomp;
    var c := FRESH.(stream := pin + "\n");
    assert "" + (pin + "\n") == pin + "\n";
    ProcessesPin(w, ws, c, pin);
    PinLineAccepted(w, pin);
    assert [] + [Judged(Pin(Chomp(pin))), Sent(AuthOk)] == [Judged(Pin(Chomp(pin))), Sent(AuthOk)];
  }

  lemma ProcessesPin(w: World, ws: nat -> int, c: Conn, pin: string)
    requires c == FRESH.(stream := pin + "\n") && '\n' !in pin
    ensures Process(w, ws, c).parser == START.After(HandleLine(w, START.mode, pin))
    ensures !Process(w, ws, c).overflow
  {
    hide HandleLine;
    assert c.Rest() == pin + "\n";
    assert c.Rest()[|pin|] == '\n' && pin == c.Rest()[..|pin|];
    FirstIndexUnique(c.Rest(), '\n', |pin|);
    assert FirstLine(c) == pin;
    TakeLineLeaves(w, c, pin);
  }

  lemma PinLineAccepted(w: World, pin: string)
    requires w.auth(0) == Accepted
    ensures HandleLine(w, START.mode, pin) ==
            Reaction(START.mode.(stage := HEADER), [Judged(Pin(Chomp(pin))), Sent(AuthOk)])
  {
    hide Pin, Chomp;
  }

  /** Later chunks never take back an event, and never overflow an authenticated session. */
  lemma LaterExtends(w: World, ws: nat -> int, c: Conn, data: string)
    requires c.InRange() && Counting(c.Mode()) && c.Mode().stage != AUTH && !c.Closed()
    ensures var d := OnData(w, ws, c, data);
            c.parser.trace <= d.parser.trace && !d.overflow
  {
    hide Process;
    ProcessExtends(w, ws, c.(stream := c.stream + data));
  }

  lemma OnDataExtends(w: World, ws: nat -> int, c: Conn, data: string)
    requires c.InRange() && Counting(c.Mode())
    ensures c.parser.trace <= OnData(w, ws, c, data).parser.trace
  {
    hide Process;
    ProcessExtends(w, ws, c.(stream := c.stream + data));
  }

  lemma ProcessExtends(w: World, ws: nat -> int, c: Conn)
    requires c.InRange() && Counting(c.Mode())
    ensures c.parser.trace <= Process(w, ws, c).parser.trace && Process(w, ws, c).overflow == c.overflow
  {
    hide Digest;
    DigestExtends(w, c);
  }

  lemma {:induction false} DigestExtends(w: World, c: Conn)
    requires c.InRange()
    ensures c.parser.trace <= Digest(w, c).parser.trace && Digest(w, c).overflow == c.overflow
    decreases |c.Rest()|
  {
    hide HandleLine;
    if LineReady(c) { DigestExtends(w, TakeLine(w, c)); }
  }
}
