/** The buffered session object: a growing buffer with a lazy read head, one file
    descriptor, and the shared authentication state. */
module ClientSessions {
  import opened Text
  import opened Protocol
  import opened Connection
  import Book = AuthBook
  import opened SessionManagement
  import Refinement
  import opened Requests
  import Transport

  /** Dead bytes tolerated in front of the read head. */
  const COMPACT_AT := 262144

  /** What one PIN line with verdict `v` adds to a history, refreshes aside: a ban check,
      the comparison with the window, and the registration of its outcome. */
  ghost predicate IsRound(before: seq<Book.Op>, after: seq<Book.Op>, ip: string, pin: string, v: Verdict) {
    var n := |before|;
    && before <= after
    && |after| == n + (if v == Blocked then 1 else 3)
    && after[n].Check? && after[n].ip == ip && after[n].blocked == (v == Blocked)
    && (v != Blocked ==> after[n + 1] == Book.Judge(pin, v == Accepted))
    && (v == Accepted ==> after[n + 2] == Book.Pass(ip))
    && (v == Refused ==> after[n + 2].Fail? && after[n + 2].ip == ip)
  }

  /** The shared state has served one PIN line, and is free for the next. */
  ghost predicate Served(before: seq<Book.Op>, after: seq<Book.Op>, ip: string, pin: string, v: Verdict) {
    && before <= after
    && IsRound(WithoutRefreshes(before), WithoutRefreshes(after), ip, pin, v)
    && (Book.Turns(before) == Some(Book.Free) ==> Book.Turns(after) == Some(Book.Free))
  }

  /** A ban check found this IP free, then this PIN was ruled valid, then the success was
      registered, with nothing but refreshes in between. */
  ghost predicate AdmitsAt(h: seq<Book.Op>, ip: string, pin: string, c: nat, j: nat, p: nat)
    requires c < j < p < |h|
  {
    && h[c].Check? && h[c].ip == ip && !h[c].blocked
    && h[j] == Book.Judge(pin, true)
    && h[p] == Book.Pass(ip)
    && OnlyRefreshes(h[..c + 1], h[..j]) && OnlyRefreshes(h[..j + 1], h[..p])
  }

  ghost predicate AdmittedBy(h: seq<Book.Op>, ip: string, pin: string) {
    exists c, j, p :: 0 <= c < j < p < |h| && AdmitsAt(h, ip, pin, c, j, p)
  }

  /** A PIN was judged and answered AUTH_OK here. */
  ghost predicate Welcomed(trace: seq<Event>, k: nat) {
    k + 1 < |trace| && trace[k].Judged? && trace[k + 1] == Sent(AuthOk)
  }

  /** The conversation was answered AUTH_OK for a PIN by which the IP was admitted. */
  ghost predicate Admitted(h: seq<Book.Op>, ip: string, trace: seq<Event>) {
    exists k :: 0 <= k < |trace| && Welcomed(trace, k) && AdmittedBy(h, ip, trace[k].pin)
  }

  /** The shared state has served any number of PIN lines, is free for the next, and has
      admitted a conversation that left authentication on the way. */
  ghost predicate Continues(before: seq<Book.Op>, after: seq<Book.Op>, ip: string,
                            from: Stage, to: Stage, trace: seq<Event>) {
    && before <= after
    && (Book.Turns(before) == Some(Book.Free) ==> Book.Turns(after) == Some(Book.Free))
    && (from == AUTH && to != AUTH ==> Admitted(after, ip, trace))
  }

  lemma ContinuesOn(a: seq<Book.Op>, b: seq<Book.Op>, c: seq<Book.Op>, ip: string,
                    s: Stage, t: Stage, u: Stage, trace: seq<Event>, longer: seq<Event>)
    requires Continues(a, b, ip, s, t, trace) && Continues(b, c, ip, t, u, longer) && trace <= longer
    ensures Continues(a, c, ip, s, u, longer)
  {
    hide Admitted;
    if Admitted(b, ip, trace) { StaysAdmitted(b, c, ip, trace, longer); }
  }

  lemma ContinuesSame(h: seq<Book.Op>, ip: string, s: Stage, trace: seq<Event>)
    ensures Continues(h, h, ip, s, s, trace)
  {
  }

  lemma StaysAdmitted(b: seq<Book.Op>, c: seq<Book.Op>, ip: string, trace: seq<Event>, longer: seq<Event>)
    requires b <= c && trace <= longer && Admitted(b, ip, trace)
    ensures Admitted(c, ip, longer)
  {
    hide AdmitsAt;
    var k :| 0 <= k < |trace| && Welcomed(trace, k) && AdmittedBy(b, ip, trace[k].pin);
    var pin := trace[k].pin;
    var i, j, p :| 0 <= i < j < p < |b| && AdmitsAt(b, ip, pin, i, j, p);
    AdmitsLater(b, c, ip, pin, i, j, p);
    assert Welcomed(longer, k) && longer[k].pin == pin;
  }

  lemma AdmitsLater(b: seq<Book.Op>, c: seq<Book.Op>, ip: string, pin: string, i: nat, j: nat, p: nat)
    requires i < j < p < |b| && b <= c && AdmitsAt(b, ip, pin, i, j, p)
    ensures AdmitsAt(c, ip, pin, i, j, p)
  {
    assert c[..i + 1] == b[..i + 1] && c[..j] == b[..j] && c[..j + 1] == b[..j + 1] && c[..p] == b[..p];
  }

  /** Serving a PIN line and reacting to its verdict continues the shared state. */
  lemma ServedContinues(before: seq<Book.Op>, after: seq<Book.Op>, ip: string, pin: string, v: Verdict,
                        p: Parser, q: Parser, to: Stage)
    requires Served(before, after, ip, pin, v) && (to != AUTH ==> v == Accepted)
    requires q == p.After(Protocol.HandleAuth(p.mode, pin, v))
    ensures Continues(before, after, ip, AUTH, to, q.trace)
  {
    hide WithoutRefreshes, Book.Turns, OnlyRefreshes;
    if v == Accepted {
      var i, j, s := RoundTakesPlace(before, after, ip, pin, v);
      assert AdmitsAt(after, ip, pin, i, j, s);
      var k := |p.trace|;
      assert q.trace == p.trace + [Judged(pin), Sent(AuthOk)];
      assert Welcomed(q.trace, k) && q.trace[k].pin == pin;
    }
  }

  /** Where a served PIN line's ban check, ruling and success stand in the history: nothing
      but refreshes comes between the line and these. */
  lemma RoundTakesPlace(before: seq<Book.Op>, after: seq<Book.Op>, ip: string, pin: string, v: Verdict)
    returns (i: nat, j: nat, p: nat)
    requires Served(before, after, ip, pin, v)
    ensures |before| <= i < |after| && after[i].Check? && after[i].ip == ip && after[i].blocked == (v == Blocked)
    ensures OnlyRefreshes(before, after[..i])
    ensures v != Blocked ==>
              && i < j < |after| && after[j] == Book.Judge(pin, v == Accepted)
              && OnlyRefreshes(after[..i + 1], after[..j])
    ensures v == Accepted ==>
              j < p < |after| && after[p] == Book.Pass(ip) && OnlyRefreshes(after[..j + 1], after[..p])
  {
    hide WithoutRefreshes, Book.Turns;
    var done, all := WithoutRefreshes(before), WithoutRefreshes(after);
    var t := after[|before|..];
    assert after == before + t;
    WithoutRefreshesAppend(before, t);
    assert all[|done|..] == WithoutRefreshes(t);
    var k := FirstKept(t);
    i := |before| + k;
    assert after[..i] == before + t[..k];
    j, p := i, i;
    if v != Blocked {
      var t' := t[k + 1..];
      var k' := FirstKept(t');
      j := i + 1 + k';
      assert after[..j] == after[..i + 1] + t'[..k'];
      assert after[j] == t'[k'];
      if v == Accepted {
        var t'' := t'[k' + 1..];
        assert after[j + 1..] == t'';
        var k'' := FirstKept(t'');
        p := j + 1 + k'';
        assert after[..p] == after[..j + 1] + t''[..k''];
        assert after[p] == t''[k''];
      }
    }
  }

  lemma BlockedIsServed(before: seq<Book.Op>, h0: seq<Book.Op>, check: Book.Op, after: seq<Book.Op>, pin: string)
    requires check.Check? && check.blocked
    requires OnlyRefreshes(before, h0) && OnlyRefreshes(h0 + [check], after)
    ensures Served(before, after, check.ip, pin, Blocked)
  {
    RefreshesKeepTurn(before, h0);
    OneMoreOp(h0, check);
    RefreshesKeepTurn(h0 + [check], after);
  }

  lemma RulingIsServed(before: seq<Book.Op>, h0: seq<Book.Op>, check: Book.Op, h1: seq<Book.Op>, judge: Book.Op,
                       h2: seq<Book.Op>, outcome: Book.Op, after: seq<Book.Op>, v: Verdict)
    requires check.Check? && !check.blocked && judge.Judge?
    requires OnlyRefreshes(before, h0) && OnlyRefreshes(h0 + [check], h1)
    requires OnlyRefreshes(h1 + [judge], h2) && OnlyRefreshes(h2 + [outcome], after)
    requires v == if judge.ok then Accepted else Refused
    requires if judge.ok then outcome == Book.Pass(check.ip) else outcome.Fail? && outcome.ip == check.ip
    ensures Served(before, after, check.ip, judge.pin, v)
  {
    hide WithoutRefreshes, Book.Turns;
    RefreshesKeepTurn(before, h0);
    OneMoreOp(h0, check);
    RefreshesKeepTurn(h0 + [check], h1);
    OneMoreOp(h1, judge);
    RefreshesKeepTurn(h1 + [judge], h2);
    OneMoreOp(h2, outcome);
    RefreshesKeepTurn(h2 + [outcome], after);
    var done := WithoutRefreshes(before);
    assert WithoutRefreshes(after) == done + [check] + [judge] + [outcome];
  }

  /** Payload bytes were written, without looking whether the file is complete. */
  function Written(m: Mode, data: string): Reaction {
    Reaction(m.(received := m.received + |data|), StoredAll(data))
  }

  /** The file is complete. */
  function Completed(m: Mode): Reaction {
    Reaction(m.(received := 0, stage := HEADER, afterFile := true), [Sent(FileOk)])
  }

  /** The connection after `n` payload bytes were written, complete or not. */
  function StoredPart(c: Conn, n: nat): (d: Conn)
    requires c.InRange() && n <= |c.Rest()|
    ensures d.InRange()
  {
    var data := c.Rest()[..n];
    c.Consume(n, Bytes(data), Written(c.Mode(), data))
  }

  /** The connection after everything unread was thrown away. */
  function Lost(c: Conn): (d: Conn)
    requires c.InRange()
    ensures d.InRange()
  {
    c.Consume(|c.Rest()|, [Fault(c.Rest())], OnFault(c.Mode()))
  }

  /** Writing, and then completing the file if it is complete, is `FileData`. */
  lemma FileDataInParts(outcome: int, n: nat, c: Conn, asked: Conn)
    requires c.InRange() && Counting(c.Mode()) && PayloadReady(c) && asked == c.(writes := c.writes + 1)
    requires outcome >= 0 && n == Min(outcome, Writable(c))
    ensures FileData(outcome, c) ==
            var d := StoredPart(asked, n);
            if d.Mode().received >= d.Mode().expected then DropSentinel(d.React(Completed(d.Mode()))) else d
  {
    hide Bytes, StoredAll;
    var data := c.Rest()[..n];
    assert c.parser.trace + StoredAll(data) + [Sent(FileOk)] == c.parser.trace + (StoredAll(data) + [Sent(FileOk)]);
  }

  lemma FileDataLost(outcome: int, c: Conn, asked: Conn)
    requires c.InRange() && Counting(c.Mode()) && PayloadReady(c) && asked == c.(writes := c.writes + 1)
    requires outcome < 0
    ensures FileData(outcome, c) == Lost(asked)
  {
  }

  lemma OnOpenIs(p: Parser, fd: int)
    requires 0 < p.mode.expected <= MAX_RECEIVE_FILE_BYTES
    ensures var asked := p.mode.(opens := p.mode.opens + 1);
            p.After(OnOpen(p.mode, fd)) ==
            if fd < 0 then Parser(asked, p.trace + [Sent(CmdFail)])
            else Parser(asked.(received := 0, stage := DATA),
                        p.trace + [Opened(p.mode.name, p.mode.expected), Sent(ReadyForFile)])
  {
  }

  /** One round of the processing loop. */
  function Round(w: World, ws: nat -> int, c: Conn): (d: Conn)
    requires c.InRange() && Counting(c.Mode())
    ensures d.InRange() && Counting(d.Mode())
  {
    if LineReady(c) then TakeLine(w, c)
    else if PayloadReady(c) then FileData(ws(c.writes), c)
    else c
  }

  lemma RoundExtends(w: World, ws: nat -> int, c: Conn)
    requires c.InRange() && Counting(c.Mode())
    ensures c.parser.trace <= Round(w, ws, c).parser.trace
  {
    hide HandleLine;
  }

  lemma ProcessByRounds(w: World, ws: nat -> int, c: Conn)
    requires c.InRange() && Counting(c.Mode())
    ensures Process(w, ws, c) == if LineReady(c) then Process(w, ws, Round(w, ws, c)) else Round(w, ws, c)
  {
    hide FileData, TakeLine;
  }

  lemma TakeLineIs(w: World, c: Conn, raw: string)
    requires c.InRange() && LineReady(c) && raw == c.Rest()[..IndexOf(c.Rest(), '\n')]
    ensures TakeLine(w, c) == Conn(c.parser.After(HandleLine(w, c.Mode(), raw)), c.stream,
                                   c.pos + |raw| + 1, c.overflow, c.writes, c.log + Bytes(raw + "\n"))
  {
    hide HandleLine, Bytes;
  }

  lemma SentinelIsNotChomped()
    ensures Chomp("FILE_END") == "FILE_END"
  {
  }

  lemma NothingLeft(w: World, ws: nat -> int, c: Conn)
    requires c.InRange() && Counting(c.Mode())
    requires c.Closed() || c.Rest() == ""
    ensures Process(w, ws, c) == c
  {
  }

  /** The outside was asked at most once more, and answered `x`. */
  ghost predicate Heard<T>(before: seq<T>, after: seq<T>, x: T) {
    after == before || after == before + [x]
  }

  /** The outside was asked for at most one text more, and answered `text`. */
  ghost predicate HeardText(before: seq<Ask>, after: seq<Ask>, text: string) {
    after == before || (|after| == |before| + 1 && before <= after && after[|before|].answer == text)
  }

  class ClientSession {
    const remoteIp: string
    const sessionMgr: SessionManager
    var stage: Stage
    var buffer: string
    var bufferOffset: nat
    var authAttempts: nat
    var closed: bool
    var fileName: string
    var expectedBytes: nat
    var receivedBytes: nat
    var fileFd: int

    // the session in the terms of `Connection`
    ghost var parser: Parser
    ghost var stream: string
    ghost var pos: nat
    ghost var overflow: bool
    ghost var log: seq<Input>

    // what the outside was asked and answered, in order; each request records itself
    ghost var verdicts: seq<Verdict>
    ghost var fds: seq<int>          // what opening files returned
    ghost var created: seq<string>   // the names of the files that were created
    ghost var asks: seq<Ask>         // commands, listings and pushes, with their answers
    ghost var written: seq<int>      // what the disk answered to writes

    ghost var chunks: seq<string>    // everything received, call by call
    ghost var file: string           // contents of the file behind `fileFd`
    ghost var moved: nat             // bytes moved by threshold compactions
    ghost var lean: bool             // no such compaction moved more than COMPACT_AT bytes

    ghost function View(): Conn
      reads this`parser, this`stream, this`pos, this`overflow, this`written, this`log
    {
      Conn(parser, stream, pos, overflow, |written|, log)
    }

    /** Does this world give the answers the session has received so far? */
    ghost predicate Agrees(w: World, ws: nat -> int)
      reads this`verdicts, this`fds, this`asks, this`written
    {
      && (forall i :: 0 <= i < |verdicts| ==> w.auth(i) == verdicts[i])
      && (forall i :: 0 <= i < |fds| ==> w.fd(i) == fds[i])
      && (forall i :: 0 <= i < |asks| ==> w.answer(i) == asks[i].answer)
      && (forall i :: 0 <= i < |written| ==> ws(i) == written[i])
    }

    /** In every world that gives these answers, the session is where the run of its
        chunks is. */
    ghost predicate Follows()
      reads this`verdicts, this`fds, this`asks, this`written, this`chunks,
            this`parser, this`stream, this`pos, this`overflow, this`log
    {
      forall w: World, ws: nat -> int :: Agrees(w, ws) ==> View() == Run(w, ws, chunks)
    }

    /** Whatever answers a session received, some world gives them. */
    lemma SomeWorldAgrees() returns (w: World, ws: nat -> int)
      ensures Agrees(w, ws)
    {
      var vs, fs, ts, os := verdicts, fds, asks, written;
      w := World((i: nat) => if i < |vs| then vs[i] else Refused,
                 (i: nat) => if i < |fs| then fs[i] else -1,
                 (i: nat) => if i < |ts| then ts[i].answer else "");
      ws := (i: nat) => if i < |os| then os[i] else -1;
    }

    /** A round in all agreeing worlds takes no event back, since there is such a world. */
    lemma RoundOnlyAdds(c: Conn)
      requires c.InRange() && Counting(c.Mode())
      requires forall w, ws :: Agrees(w, ws) ==> View() == Round(w, ws, c)
      ensures c.parser.trace <= parser.trace
    {
      var w, ws := SomeWorldAgrees();
      RoundExtends(w, ws, c);
    }

    lemma ChunkOnlyAdds(c: Conn, data: string)
      requires c.InRange() && Counting(c.Mode())
      requires forall w, ws :: Agrees(w, ws) ==> View() == Connection.OnData(w, ws, c, data)
      ensures c.parser.trace <= parser.trace
    {
      var w, ws := SomeWorldAgrees();
      Refinement.OnDataExtends(w, ws, c, data);
    }

    /** The answers on record are those from before, and perhaps more. */
    ghost predicate Extends(vs: seq<Verdict>, fs: seq<int>, ts: seq<Ask>, os: seq<int>)
      reads this`verdicts, this`fds, this`asks, this`written
    {
      vs <= verdicts && fs <= fds && ts <= asks && os <= written
    }

    /** The fields are those of the parser. */
    ghost predicate Tied()
      reads this`stage, this`authAttempts, this`closed, this`overflow, this`fileName, this`expectedBytes,
            this`receivedBytes, this`parser, this`fds, this`asks
    {
      var m := parser.mode;
      && stage == m.stage && authAttempts == m.attempts && closed == (m.closed || overflow)
      && fileName == m.name && expectedBytes == m.expected && receivedBytes == m.received
      && |fds| == m.opens && |asks| == m.answers
    }

    ghost predicate StateOk()
      reads this`stage, this`authAttempts, this`closed, this`overflow, this`fileName, this`expectedBytes,
            this`receivedBytes, this`parser, this`fds, this`asks, this`fileFd, this`verdicts
    {
      && Tied()
      && Counting(parser.mode)
      && (stage == DATA <==> fileFd >= 0)
      && (closed ==> stage == AUTH)
      && (stage == AUTH && !closed ==> |verdicts| == authAttempts < AUTH_ATTEMPTS_PER_CONNECTION)
    }

    /** The buffer behind the read head is the unconsumed part of the stream, the dead part
        in front of it is bounded, and threshold compactions have moved no more bytes in
        total than were consumed, if none of them moved more than the threshold. */
    ghost predicate Synced()
      reads this`buffer, this`bufferOffset, this`stream, this`pos, this`moved, this`lean
    {
      && bufferOffset <= |buffer| && bufferOffset <= COMPACT_AT
      && pos <= |stream| && buffer[bufferOffset..] == stream[pos..]
      && (lean ==> moved + bufferOffset <= pos)
    }

    /** Nothing was ever removed from the buffer. */
    ghost predicate Whole()
      reads this`buffer, this`bufferOffset, this`stream, this`pos
    {
      buffer == stream && bufferOffset == pos && |buffer| <= AUTH_MAX_BUFFER
    }

    ghost predicate BufferOk()
      reads this`buffer, this`bufferOffset, this`stream, this`pos, this`moved, this`lean, this`closed, this`stage
    {
      && pos <= |stream|
      && (!closed ==> Synced())
      && (!closed && stage == AUTH ==> Whole())
    }

    /** The open file holds exactly the bytes consumed since its header. */
    ghost predicate FileKept()
      reads this`receivedBytes, this`pos, this`stream, this`file
    {
      receivedBytes <= pos <= |stream| && file == stream[pos - receivedBytes..pos]
    }

    ghost predicate Recorded()
      reads this`parser, this`asks, this`created
    {
      Shows(parser.trace, asks, created)
    }

    ghost predicate Valid()
      reads this`stage, this`buffer, this`bufferOffset, this`authAttempts, this`closed, this`fileName,
            this`expectedBytes, this`receivedBytes, this`fileFd, this`parser, this`stream, this`pos,
            this`overflow, this`verdicts, this`fds, this`asks, this`file, this`moved, this`lean,
            this`created
    {
      StateOk() && BufferOk() && (stage == DATA ==> FileKept()) && Recorded()
    }

    constructor (ip: string, mgr: SessionManager)
      ensures Valid() && Follows() && View() == FRESH && chunks == []
      ensures remoteIp == ip && sessionMgr == mgr
    {
      remoteIp, sessionMgr := ip, mgr;
      stage, buffer, bufferOffset, authAttempts, closed := AUTH, "", 0, 0, false;
      fileName, expectedBytes, receivedBytes, fileFd := "", 0, 0, -1;
      parser, stream, pos, overflow, log := START, "", 0, false, [];
      verdicts, fds, created, asks, written, chunks, file := [], [], [], [], [], [], "";
      moved, lean := 0, true;
      ShowsNothing();
    }

    // ---- the buffer ----------------------------------------------------

    method CompactBuffer()
      requires bufferOffset <= |buffer|
      modifies this`buffer, this`bufferOffset
      ensures bufferOffset == 0 && buffer == old(buffer[bufferOffset..])
      ensures old(Synced()) ==> Synced()
    {
      if bufferOffset == 0 { return; }
      buffer := buffer[bufferOffset..];
      bufferOffset := 0;
    }

    /** The next `n` bytes are consumed, as `inputs`. */
    method ConsumeBuffer(n: nat, ghost inputs: seq<Input>)
      requires Synced() && bufferOffset + n <= |buffer|
      modifies this`buffer, this`bufferOffset, this`moved, this`lean, this`pos, this`log
      ensures Synced() && (old(Whole()) ==> Whole())
      ensures |buffer| - bufferOffset == old(|buffer| - bufferOffset) - n
      ensures pos == old(pos) + n && log == old(log) + inputs
      ensures bufferOffset == if old(bufferOffset) + n > 262144 then 0 else old(bufferOffset) + n
    {
      assert buffer[bufferOffset + n..] == stream[pos + n..];
      pos, log := pos + n, log + inputs;
      bufferOffset := bufferOffset + n;
      if bufferOffset > COMPACT_AT {
        ghost var residue := |buffer| - bufferOffset;
        lean := lean && residue <= COMPACT_AT;
        moved := moved + residue;
        CompactBuffer();
      }
    }

    lemma SyncedRest()
      requires Synced()
      ensures bufferOffset <= |buffer|
      ensures View().InRange() && View().Rest() == buffer[bufferOffset..]
    {
    }

    // ---- responses -----------------------------------------------------

    method SendResponse(response: string, ghost e: Event)
      requires Texts(e) == [response]
      modifies this`parser
      ensures parser == Parser(old(parser.mode), old(parser.trace) + [e])
    {
      Note(e);
    }

    ghost method Note(e: Event)
      modifies this`parser
      ensures parser == Parser(old(parser.mode), old(parser.trace) + [e])
    {
      parser := parser.(trace := parser.trace + [e]);
    }

    // ---- the operating system: any answer it may give, and the record of it ----

    /** `open()` of a file for writing, which truncates it. */
    method OpenFile(name: string) returns (fd: int)
      modifies this`fds, this`created, this`file
      ensures fds == old(fds) + [fd]
      ensures created == old(created) + (if fd >= 0 then [name] else [])
      ensures file == if fd >= 0 then "" else old(file)
    {
      fd := *;
      fds := fds + [fd];
      if fd >= 0 { created, file := created + [name], ""; }
    }

    /** `write()` of `data` to the open file: the disk fails, or takes as much of the data as
        it would take of anything. */
    method WriteFile(data: string) returns (n: int)
      modifies this`written, this`file
      ensures |written| == |old(written)| + 1 && old(written) <= written
      ensures var outcome := written[|old(written)|];
              n == if outcome < 0 then -1 else Min(outcome, |data|)
      ensures file == old(file) + if n < 0 then "" else data[..n]
    {
      var outcome: int := *;
      n := if outcome < 0 then -1 else Min(outcome, |data|);
      written := written + [outcome];
      file := file + if n < 0 then "" else data[..n];
    }

    method Dispatch(cmd: string) returns (answer: string)
      modifies this`asks
      ensures asks == old(asks) + [Ask(RunCommand(cmd), answer)]
    {
      answer := *;
      asks := asks + [Ask(RunCommand(cmd), answer)];
    }

    method ListFiles() returns (listing: string)
      modifies this`asks
      ensures asks == old(asks) + [Ask(ListPushable, listing)]
    {
      listing := *;
      asks := asks + [Ask(ListPushable, listing)];
    }

    /** Everything a push puts on the wire, for any file and any behaviour of the sends. */
    method PushFile(filename: string) returns (wire: string)
      modifies this`asks
      ensures asks == old(asks) + [Ask(Push(filename), wire)]
      ensures Transport.PushOf(filename, wire)
    {
      var entry: Transport.Entry := *;
      var sends: seq<Transport.Outcome> := *;
      var reply, payload, used, broken := Transport.PushFile(filename, entry, sends);
      wire := reply + payload;
      Transport.PushIs(filename, entry, sends, reply, payload, used, broken);
      asks := asks + [Ask(Push(filename), wire)];
    }

    // ---- authentication ------------------------------------------------

    method TrimTail(s: string) returns (t: string)
      ensures t == TrimBack(s, PIN_TAIL)
    {
      t := s;
      while t != "" && (t[|t| - 1] == ' ' || t[|t| - 1] == '\t' || t[|t| - 1] == '\r')
        invariant TrimBack(t, PIN_TAIL) == TrimBack(s, PIN_TAIL)
        decreases |t|
      {
        t := t[..|t| - 1];
      }
    }

    method TrimHead(s: string) returns (t: string)
      ensures t == TrimFront(s, PIN_HEAD)
    {
      t := s;
      while t != "" && (t[0] == ' ' || t[0] == '\t')
        invariant TrimFront(t, PIN_HEAD) == TrimFront(s, PIN_HEAD)
        decreases |t|
      {
        t := t[1..];
      }
    }

    /** The PIN a line presents. */
    method ExtractPin(line: string) returns (pin: string)
      ensures pin == Pin(line)
    {
      pin := line;
      if |pin| > 5 && pin[..5] == "AUTH:" {
        pin := pin[5..];
      }
      pin := TrimTail(pin);
      pin := TrimHead(pin);
    }

    /** The calls on the shared state that one PIN line makes, with refreshes by the other
        thread possible before, between and after them. */
    method Judge(pin: string) returns (v: Verdict)
      requires sessionMgr.Valid()
      modifies sessionMgr
      ensures sessionMgr.Valid()
      ensures Served(old(sessionMgr.history), sessionMgr.history, remoteIp, pin, v)
    {
      hide Served, OnlyRefreshes;
      sessionMgr.RefreshThread();
      ghost var h0 := sessionMgr.history;
      var blocked := sessionMgr.IsIpBlocked(remoteIp);
      ghost var check := Book.Check(remoteIp, sessionMgr.clock, blocked);
      sessionMgr.RefreshThread();
      ghost var h1 := sessionMgr.history;
      if blocked {
        BlockedIsServed(old(sessionMgr.history), h0, check, h1, pin);
        return Blocked;
      }
      var ok := sessionMgr.ValidateKey(pin);
      sessionMgr.RefreshThread();
      ghost var h2 := sessionMgr.history;
      ghost var outcome;
      if ok {
        v := Accepted;
        sessionMgr.RegisterAuthSuccess(remoteIp);
        outcome := Book.Pass(remoteIp);
      } else {
        v := Refused;
        sessionMgr.RegisterAuthFailure(remoteIp);
        outcome := Book.Fail(remoteIp, sessionMgr.clock);
      }
      sessionMgr.RefreshThread();
      RulingIsServed(old(sessionMgr.history), h0, check, h1, Book.Judge(pin, ok), h2, outcome,
                     sessionMgr.history, v);
    }

    ghost method SetMode(m: Mode)
      modifies this`parser
      ensures parser == Parser(m, old(parser.trace))
      ensures old(Recorded()) ==> Recorded()
    {
      parser := parser.(mode := m);
    }

    /** Act on the verdict `v` about `pin`. */
    method React(pin: string, v: Verdict)
      requires StateOk() && stage == AUTH && !closed
      modifies this`stage, this`authAttempts, this`closed, this`verdicts, this`parser
      ensures StateOk() && stage != DATA && verdicts == old(verdicts) + [v]
      ensures stage != AUTH ==> v == Accepted
      ensures old(Recorded()) ==> Recorded()
      ensures parser == old(parser).After(Protocol.HandleAuth(old(parser.mode), pin, v))
    {
      hide Shows;
      ghost var p, r := parser, Protocol.HandleAuth(parser.mode, pin, v);
      verdicts := verdicts + [v];
      match v {
        case Blocked =>
          SendResponse("AUTH_BLOCKED\n", Sent(AuthBlocked));
          closed := true;
        case Accepted =>
          Note(Judged(pin));
          SendResponse("AUTH_OK\n", Sent(AuthOk));
          stage := HEADER;
        case Refused =>
          Note(Judged(pin));
          SendResponse("AUTH_FAIL\n", Sent(AuthFail));
          authAttempts := authAttempts + 1;
          if authAttempts >= AUTH_ATTEMPTS_PER_CONNECTION {
            closed := true;
          }
      }
      assert parser.trace == p.trace + r.events;
      parser := parser.(mode := r.mode);
      assert Tied() && Counting(parser.mode);
      if old(Recorded()) { ShowsAuth(p.trace, p.mode, pin, v, asks, created); }
    }

    method HandleAuth(line: string)
      requires StateOk() && stage == AUTH && !closed && sessionMgr.Valid()
      modifies this`stage, this`authAttempts, this`closed, this`verdicts, this`parser, sessionMgr
      ensures StateOk() && stage != DATA && sessionMgr.Valid()
      ensures |verdicts| == |old(verdicts)| + 1 && old(verdicts) <= verdicts
      ensures old(Recorded()) ==> Recorded()
      ensures stage != AUTH ==> verdicts[|old(verdicts)|] == Accepted
      ensures Served(old(sessionMgr.history), sessionMgr.history, remoteIp, Pin(line), verdicts[|old(verdicts)|])
      ensures parser ==
              old(parser).After(Protocol.HandleAuth(old(parser.mode), Pin(line), verdicts[|old(verdicts)|]))
    {
      hide Served, Protocol.HandleAuth, StateOk, Pin, Shows;
      var pin := ExtractPin(line);
      var v := Judge(pin);
      assert StateOk();
      React(pin, v);
    }

    // ---- headers -------------------------------------------------------

    method HandleCommand(cmd: string)
      requires StateOk() && stage == HEADER
      modifies this`asks, this`parser
      ensures StateOk() && |asks| == |old(asks)| + 1 && old(asks) <= asks
      ensures parser == old(parser).After(Protocol.HandleCommand(old(parser.mode), cmd, asks[|old(asks)|].answer))
      ensures old(Recorded()) ==> Recorded()
    {
      hide Shows, Transport.PushOf;
      ghost var p := parser;
      var text;
      if cmd == "push_file_list" {
        text := ListFiles();
        SendResponse(text, Listed(text));
      } else if |cmd| > 10 && cmd[..10] == "push_file:" {
        text := PushFile(cmd[10..]);
        SendResponse(text, Pushed(cmd[10..], text));
      } else {
        Note(Dispatched(cmd));
        text := Dispatch(cmd);
        if text != "" {
          SendResponse(text, Answered(text));
        }
      }
      ghost var r := Protocol.HandleCommand(p.mode, cmd, text);
      assert parser.trace == p.trace + r.events;
      parser := parser.(mode := r.mode);
      if old(Recorded()) { ShowsCommand(p.trace, p.mode, cmd, text, old(asks), created); }
    }

    /** The reaction is the one to whatever opening the file returned, if it came to that. */
    method HandleFileStart(line: string)
      requires StateOk() && stage == HEADER
      modifies this`stage, this`fileName, this`expectedBytes, this`receivedBytes, this`fileFd,
               this`file, this`fds, this`created, this`parser
      ensures StateOk() && stage != AUTH && old(fds) <= fds && |fds| <= |old(fds)| + 1
      ensures old(Recorded()) ==> Recorded()
      ensures stage == DATA ==> receivedBytes == 0 && file == ""
      ensures forall fd :: Heard(old(fds), fds, fd) ==>
                parser == old(parser).After(Protocol.HandleFileStart(old(parser.mode), line, fd))
    {
      hide Stoull, LastIndexOf, Flatten, Protocol.HandleFileSize, Shows, Heard;
      var lastColon := LastIndexOf(line, ':');
      if lastColon <= 11 {
        SendResponse("CMD_FAIL\n", Sent(CmdFail));
        if old(Recorded()) { ShowsReply(old(parser.trace), Sent(CmdFail), asks, created); }
        return;
      }
      fileName := Flatten(line[11..lastColon]);
      SetMode(parser.mode.(name := fileName));
      var size := Stoull(line[lastColon + 1..]);
      if size.None? {
        SendResponse("CMD_FAIL\n", Sent(CmdFail));
        if old(Recorded()) { ShowsReply(old(parser.trace), Sent(CmdFail), asks, created); }
        return;
      }
      HandleFileSize(size.value);
    }

    method HandleFileSize(size: nat)
      requires StateOk() && stage == HEADER
      modifies this`stage, this`expectedBytes, this`receivedBytes, this`fileFd,
               this`file, this`fds, this`created, this`parser
      ensures StateOk() && stage != AUTH && old(fds) <= fds && |fds| <= |old(fds)| + 1
      ensures old(Recorded()) ==> Recorded()
      ensures stage == DATA ==> receivedBytes == 0 && file == ""
      ensures forall fd :: Heard(old(fds), fds, fd) ==>
                parser == old(parser).After(Protocol.HandleFileSize(old(parser.mode), size, fd))
    {
      hide OnOpen, Shows;
      expectedBytes := size;
      SetMode(parser.mode.(expected := size));
      if expectedBytes == 0 {
        SendResponse("CMD_FAIL\n", Sent(CmdFail));
        if old(Recorded()) { ShowsReply(old(parser.trace), Sent(CmdFail), asks, created); }
        return;
      }
      if expectedBytes > MAX_RECEIVE_FILE_BYTES {
        SendResponse("CMD_FAIL\n", Sent(CmdFail));
        if old(Recorded()) { ShowsReply(old(parser.trace), Sent(CmdFail), asks, created); }
        return;
      }
      OpenAnnounced();
    }

    method OpenAnnounced()
      requires StateOk() && stage == HEADER && 0 < expectedBytes <= MAX_RECEIVE_FILE_BYTES
      modifies this`stage, this`receivedBytes, this`fileFd, this`file, this`fds, this`created, this`parser
      ensures StateOk() && stage != AUTH && (stage == DATA ==> receivedBytes == 0 && file == "")
      ensures |fds| == |old(fds)| + 1 && old(fds) <= fds
      ensures parser == old(parser).After(OnOpen(old(parser.mode), fds[|old(fds)|]))
      ensures old(Recorded()) ==> Recorded()
    {
      hide Shows, OnOpen;
      ghost var p := parser;
      fileFd := OpenFile(fileName);
      OnOpenIs(p, fileFd);
      if fileFd < 0 {
        SendResponse("CMD_FAIL\n", Sent(CmdFail));
        parser := parser.(mode := parser.mode.(opens := parser.mode.opens + 1));
      } else {
        StartReceiving();
      }
      if old(Recorded()) { ShowsOpen(p.trace, p.mode, fileFd, asks, old(created)); }
    }

    method StartReceiving()
      requires stage == HEADER
      modifies this`stage, this`receivedBytes, this`parser
      ensures stage == DATA && receivedBytes == 0
      ensures parser == Parser(old(parser.mode).(received := 0, stage := DATA, opens := old(parser.mode).opens + 1),
                               old(parser.trace) + [Opened(fileName, expectedBytes), Sent(ReadyForFile)])
    {
      ghost var trace := parser.trace;
      Note(Opened(fileName, expectedBytes));
      receivedBytes := 0;
      stage := DATA;
      SendResponse("READY_FOR_FILE\n", Sent(ReadyForFile));
      assert parser.trace == trace + [Opened(fileName, expectedBytes), Sent(ReadyForFile)];
      parser := parser.(mode := parser.mode.(received := 0, stage := DATA, opens := parser.mode.opens + 1));
    }

    /** `stray` says that the line is the late end marker of the file just completed. */
    method HandleHeader(line: string, ghost stray: bool)
      requires StateOk() && stage == HEADER
      requires stray ==> line == "FILE_END"
      modifies this`stage, this`fileName, this`expectedBytes, this`receivedBytes, this`fileFd,
               this`file, this`fds, this`created, this`asks, this`parser
      ensures StateOk() && stage != AUTH && old(fds) <= fds && old(asks) <= asks
      ensures |fds| <= |old(fds)| + 1 && |asks| <= |old(asks)| + 1
      ensures old(Recorded()) ==> Recorded()
      ensures stage == DATA ==> receivedBytes == 0 && file == ""
      ensures forall fd, text :: Heard(old(fds), fds, fd) && HeardText(old(asks), asks, text) ==>
                parser == old(parser).After(
                  if stray then Reaction(old(parser.mode), [StraySentinel])
                  else Protocol.HandleHeader(old(parser.mode), line, fd, text))
    {
      hide Protocol.HandleCommand, Protocol.HandleFileStart, TrimFront, Shows;
      if |line| >= 4 && line[..4] == "CMD:" {
        assert line[..4][0] == line[0];
        var cmd := TrimSpaces(line[4..]);
        HandleCommand(cmd);
      } else if |line| >= 11 && line[..11] == "FILE_START:" {
        HandleFileStart(line);
      } else {
        ghost var e := if stray then StraySentinel else Sent(UnknownRequest);
        SendResponse("UNKNOWN_REQUEST\n", e);
        if old(Recorded()) { ShowsReply(old(parser.trace), e, asks, created); }
      }
    }

    method TrimSpaces(s: string) returns (t: string)
      ensures t == TrimFront(s, {' '})
    {
      t := s;
      while t != "" && t[0] == ' '
        invariant TrimFront(t, {' '}) == TrimFront(s, {' '})
        decreases |t|
      {
        t := t[1..];
      }
    }

    // ---- file data -----------------------------------------------------

    lemma NothingStored()
      requires pos <= |stream| && receivedBytes == 0 && file == ""
      ensures FileKept()
    {
    }

    lemma InStep()
      requires StateOk()
      ensures Tied() && Counting(parser.mode)
      ensures stage == parser.mode.stage && closed == View().Closed() && (closed ==> stage == AUTH)
      ensures parser.mode.expected == expectedBytes && parser.mode.received == receivedBytes
    {
    }

    lemma ViewIsSane()
      requires Valid()
      ensures View().InRange() && Counting(View().Mode())
    {
    }

    /** The file is ahead of the buffer by the next `n` bytes. */
    ghost predicate FileAhead(n: nat)
      reads this`receivedBytes, this`pos, this`stream, this`file
    {
      receivedBytes <= pos && pos + n <= |stream| && file == stream[pos - receivedBytes..pos + n]
    }

    lemma FileGetsAhead(before: string, n: nat)
      requires Synced() && bufferOffset + n <= |buffer| && receivedBytes <= pos
      requires before == stream[pos - receivedBytes..pos]
      requires file == before + buffer[bufferOffset..bufferOffset + n]
      ensures FileAhead(n)
    {
      assert buffer[bufferOffset..bufferOffset + n] == buffer[bufferOffset..][..n] == stream[pos..][..n];
      assert stream[pos..][..n] == stream[pos..pos + n];
    }

    /** `n` payload bytes have gone to disk. */
    method StorePart(n: nat)
      requires StateOk() && Synced() && FileAhead(n) && stage == DATA && bufferOffset + n <= |buffer|
      modifies this`buffer, this`bufferOffset, this`moved, this`lean, this`pos, this`log,
               this`receivedBytes, this`parser
      ensures Synced() && FileKept() && Tied() && (receivedBytes < expectedBytes ==> StateOk())
      ensures parser.mode.received == receivedBytes && parser.mode.expected == expectedBytes
      ensures old(View()).InRange() && n <= |old(View()).Rest()| && View() == StoredPart(old(View()), n)
    {
      hide StoredAll, Bytes;
      ghost var c := View();
      StoreBytes(n);
      parser := parser.After(Written(parser.mode, c.Rest()[..n]));
    }

    method StoreBytes(n: nat)
      requires Synced() && FileAhead(n) && bufferOffset + n <= |buffer|
      modifies this`buffer, this`bufferOffset, this`moved, this`lean, this`pos, this`log, this`receivedBytes
      ensures Synced() && FileKept()
      ensures receivedBytes == old(receivedBytes) + n
      ensures pos == old(pos) + n && log == old(log) + Bytes(stream[old(pos)..][..n])
    {
      ghost var data := buffer[bufferOffset..bufferOffset + n];
      assert data == buffer[bufferOffset..][..n] == stream[pos..][..n];
      receivedBytes := receivedBytes + n;
      ConsumeBuffer(n, Bytes(data));
    }

    /** The last byte is written: close the file, acknowledge, drop a buffered end marker. */
    method FinishFile()
      requires Synced() && Tied() && !closed && stage == DATA && receivedBytes >= expectedBytes
      modifies this`buffer, this`bufferOffset, this`moved, this`lean, this`pos, this`log,
               this`fileFd, this`receivedBytes, this`stage, this`parser
      ensures Synced() && StateOk() && stage == HEADER && bufferOffset == 0
      ensures View() == DropSentinel(old(View()).React(Completed(old(parser.mode))))
    {
      hide Synced, Whole, DropSentinel, StateOk, Tied, Completed;
      Acknowledge();
      DropMarker();
      SyncedRest();
      CompactBuffer();
    }

    method Acknowledge()
      requires Tied() && !closed && stage == DATA
      modifies this`fileFd, this`receivedBytes, this`stage, this`parser
      ensures StateOk() && stage == HEADER
      ensures parser == old(parser).After(Completed(old(parser.mode)))
    {
      fileFd := -1;
      receivedBytes := 0;
      stage := HEADER;
      SendResponse("FILE_OK\n", Sent(FileOk));
      parser := parser.(mode := Completed(parser.mode).mode);
    }

    method DropMarker()
      requires Synced() && StateOk() && stage == HEADER
      modifies this`buffer, this`bufferOffset, this`moved, this`lean, this`pos, this`log, this`parser
      ensures Synced() && StateOk()
      ensures View() == DropSentinel(old(View()))
    {
      hide Synced, Whole;
      SyncedRest();
      if SENTINEL <= buffer[bufferOffset..] {
        ConsumeBuffer(|SENTINEL|, [Skip]);
        parser := parser.After(OnSkip(parser.mode));
      }
    }

    /** The write failed: drop the file and everything buffered. */
    method AbandonFile()
      requires StateOk() && Synced() && stage == DATA
      modifies this`buffer, this`bufferOffset, this`fileFd, this`stage, this`pos, this`log, this`parser
      ensures StateOk() && Synced() && stage == HEADER
      ensures buffer == "" && bufferOffset == 0
      ensures old(View()).InRange() && View() == Lost(old(View()))
    {
      ghost var lost := stream[pos..];
      pos, log := |stream|, log + [Fault(lost)];
      fileFd := -1;
      SendResponse("CMD_FAIL\n", Sent(CmdFail));
      parser := parser.(mode := OnFault(parser.mode).mode);
      stage := HEADER;
      buffer := "";
      bufferOffset := 0;
    }

    method WriteToFile(toWrite: nat) returns (n: int)
      requires Synced() && FileKept() && bufferOffset + toWrite <= |buffer|
      modifies this`written, this`file
      ensures |written| == |old(written)| + 1 && old(written) <= written
      ensures var outcome := written[|old(written)|];
              n == if outcome < 0 then -1 else Min(outcome, toWrite)
      ensures file == old(file) + if n < 0 then "" else buffer[bufferOffset..bufferOffset + n]
      ensures n >= 0 ==> FileAhead(n)
    {
      var data := buffer[bufferOffset..bufferOffset + toWrite];
      n := WriteFile(data);
      if n >= 0 {
        assert data[..n] == buffer[bufferOffset..bufferOffset + n];
        FileGetsAhead(old(file), n);
      }
    }

    /** One write of everything that is both buffered and missing. */
    method HandleFileData()
      requires Valid() && stage == DATA && bufferOffset < |buffer|
      modifies this`buffer, this`bufferOffset, this`moved, this`lean, this`pos, this`log, this`file,
               this`fileFd, this`receivedBytes, this`stage, this`written, this`parser
      ensures Valid() && stage != AUTH && (stage == HEADER ==> bufferOffset == 0)
      ensures |written| == |old(written)| + 1 && old(written) <= written
      ensures View() == FileData(written[|old(written)|], old(View()))
      ensures Wrote(written[|old(written)|], old(View()), View())
      ensures var outcome, unread := written[|old(written)|], old(buffer[bufferOffset..]);
              file == old(file) + if outcome < 0 then ""
                                  else unread[..Min(outcome, Min(|unread|, old(expectedBytes - receivedBytes)))]
    {
      hide FileData, Wrote, DropSentinel, StoredPart, Lost, Synced, FileKept, FileAhead, Whole, StateOk, Tied, Shows;
      InStep();
      SyncedRest();
      ghost var c := View();
      var remaining := expectedBytes - receivedBytes;
      var toWrite := Min(|buffer| - bufferOffset, remaining);
      var n := WriteToFile(toWrite);
      ghost var outcome, asked := written[|old(written)|], View();
      ShowsFileData(outcome, c, asks, created);
      FileDataWrites(outcome, c);
      if n < 0 {
        FileDataLost(outcome, c, asked);
        AbandonFile();
        return;
      }
      FileDataInParts(outcome, n, c, asked);
      StorePart(n);
      if receivedBytes >= expectedBytes {
        FinishFile();
      }
      SyncedRest();
    }

    // ---- the loop ------------------------------------------------------

    /** Take one line, newline at `nl`, off the buffer. */
    method NextLine(nl: nat) returns (line: string, ghost raw: string)
      requires Synced() && nl == IndexOf(buffer[bufferOffset..], '\n')
      modifies this`buffer, this`bufferOffset, this`moved, this`lean, this`pos, this`log
      ensures Synced() && (old(Whole()) ==> Whole())
      ensures |buffer| - bufferOffset < old(|buffer| - bufferOffset)
      ensures raw == old(stream[pos..])[..nl] && line == Chomp(raw)
      ensures pos == old(pos) + nl + 1 && log == old(log) + Bytes(raw + "\n")
    {
      line := buffer[bufferOffset..][..nl];
      raw := line;
      ConsumeBuffer(nl + 1, Bytes(raw + "\n"));
      if line != "" && line[|line| - 1] == '\r' {
        line := line[..|line| - 1];
      }
    }

    /** A line ends the time in which an end marker may follow a file. */
    ghost method ForgetFile()
      requires StateOk() && stage != DATA
      modifies this`parser
      ensures StateOk() && parser == old(parser).(mode := old(parser.mode).(afterFile := false))
      ensures old(Recorded()) ==> Recorded()
    {
      SetMode(parser.mode.(afterFile := false));
    }

    /** Handle the line `raw`, less its carriage return. */
    method DispatchLine(line: string, ghost raw: string)
      requires StateOk() && stage != DATA && !closed && sessionMgr.Valid() && line == Chomp(raw)
      modifies this`stage, this`authAttempts, this`closed, this`fileName, this`expectedBytes,
               this`receivedBytes, this`fileFd, this`file, this`verdicts, this`fds, this`created, this`asks, this`parser,
               sessionMgr
      ensures StateOk() && (stage == AUTH ==> old(stage) == AUTH)
      ensures stage == DATA ==> receivedBytes == 0 && file == ""
      ensures sessionMgr.Valid()
      ensures Continues(old(sessionMgr.history), sessionMgr.history, remoteIp, old(stage), stage, parser.trace)
      ensures Extends(old(verdicts), old(fds), old(asks), written)
      ensures old(parser.mode).stage != DATA
      ensures old(Recorded()) ==> Recorded()
      ensures forall w, ws :: Agrees(w, ws) ==>
                parser == old(parser).After(Protocol.HandleLine(w, old(parser.mode), raw))
    {
      hide Protocol.HandleHeader, Protocol.HandleAuth, Pin, Chomp, Served, Admitted, Book.Turns, Recorded;
      SentinelIsNotChomped();
      ghost var stray := IsStray(parser.mode, raw);
      ForgetFile();
      if stage == AUTH {
        ghost var before, p := sessionMgr.history, parser;
        HandleAuth(line);
        ServedContinues(before, sessionMgr.history, remoteIp, Pin(line), verdicts[|old(verdicts)|],
                        p, parser, stage);
      } else {
        HandleHeader(line, stray);
        forall w, ws | Agrees(w, ws)
          ensures parser == old(parser).After(Protocol.HandleLine(w, old(parser.mode), raw))
        {
          assert Heard(old(fds), fds, w.fd(|old(fds)|)) && HeardText(old(asks), asks, w.answer(|old(asks)|));
        }
      }
    }

    method HandleLine(nl: nat)
      requires Valid() && stage != DATA && !closed && sessionMgr.Valid()
      requires nl == IndexOf(buffer[bufferOffset..], '\n')
      modifies this, sessionMgr
      ensures Valid() && |buffer| - bufferOffset < old(|buffer| - bufferOffset)
      ensures Extends(old(verdicts), old(fds), old(asks), old(written))
      ensures sessionMgr.Valid()
      ensures Continues(old(sessionMgr.history), sessionMgr.history, remoteIp, old(stage), stage, parser.trace)
      ensures forall w, ws :: Agrees(w, ws) ==> View() == TakeLine(w, old(View()))
    {
      hide SessionManager.Valid, Protocol.HandleLine, Continues, Bytes, Agrees, Extends, IndexOf, Chomp,
        Synced, Whole, StateOk, Tied, FileKept, Recorded, TakeLine, FirstLine;
      InStep();
      SyncedRest();
      ghost var c := View();
      var line, raw := NextLine(nl);
      SyncedRest();
      DispatchLine(line, raw);
      if stage == DATA { NothingStored(); }
      LineIsTaken(c, raw);
    }

    lemma LineIsTaken(c: Conn, raw: string)
      requires c.InRange() && LineReady(c) && raw == c.Rest()[..IndexOf(c.Rest(), '\n')]
      requires stream == c.stream && pos == c.pos + |raw| + 1 && overflow == c.overflow
      requires |written| == c.writes && log == c.log + Bytes(raw + "\n")
      requires forall w, ws :: Agrees(w, ws) ==> parser == c.parser.After(Protocol.HandleLine(w, c.parser.mode, raw))
      ensures forall w, ws :: Agrees(w, ws) ==> View() == TakeLine(w, c)
    {
      hide Protocol.HandleLine, TakeLine, Agrees, Bytes;
      forall w, ws | Agrees(w, ws) ensures View() == TakeLine(w, c) {
        TakeLineIs(w, c, raw);
      }
    }

    /** One round of the loop; `more` is false when the loop is left. */
    method ProcessRound() returns (more: bool)
      requires Valid() && !closed && bufferOffset < |buffer| && sessionMgr.Valid()
      modifies this, sessionMgr
      ensures Valid() && sessionMgr.Valid()
      ensures Continues(old(sessionMgr.history), sessionMgr.history, remoteIp, old(stage), stage, parser.trace)
      ensures Extends(old(verdicts), old(fds), old(asks), old(written))
      ensures more ==> |buffer| - bufferOffset < old(|buffer| - bufferOffset)
      ensures more <==> LineReady(old(View()))
      ensures forall w, ws :: Agrees(w, ws) ==> View() == Round(w, ws, old(View()))
    {
      hide Synced, FileData, Wrote, TakeLine, Recorded, Book.Turns;
      SyncedRest();
      if stage == DATA {
        HandleFileData();
        return false;
      }
      var nl := IndexOf(buffer[bufferOffset..], '\n');
      if nl < 0 {
        return false;
      }
      HandleLine(nl);
      return true;
    }

    method ProcessBuffer()
      requires Valid() && sessionMgr.Valid()
      modifies this, sessionMgr
      ensures Valid() && sessionMgr.Valid()
      ensures Continues(old(sessionMgr.history), sessionMgr.history, remoteIp, old(stage), stage, parser.trace)
      ensures Extends(old(verdicts), old(fds), old(asks), old(written))
      ensures forall w, ws :: Agrees(w, ws) ==> View() == Process(w, ws, old(View()))
    {
      hide Round, Process, Synced, Whole, FileKept, Recorded, Book.Turns;
      ghost var c := View();
      var more := true;
      while more && !closed && |buffer| - bufferOffset > 0
        invariant Valid() && sessionMgr.Valid()
        invariant Continues(old(sessionMgr.history), sessionMgr.history, remoteIp, old(stage), stage, parser.trace)
        invariant Extends(old(verdicts), old(fds), old(asks), old(written))
        invariant forall w, ws :: Agrees(w, ws) ==>
                    Process(w, ws, c) == if more then Process(w, ws, View()) else View()
        decreases more, |buffer| - bufferOffset
      {
        ghost var d, h, s := View(), sessionMgr.history, stage;
        more := ProcessRound();
        RoundOnlyAdds(d);
        ContinuesOn(old(sessionMgr.history), h, sessionMgr.history, remoteIp, old(stage), s, stage,
                    d.parser.trace, parser.trace);
        forall w, ws | Agrees(w, ws)
          ensures Process(w, ws, c) == if more then Process(w, ws, View()) else View()
        {
          ProcessByRounds(w, ws, d);
        }
      }
      if more {
        if !closed { SyncedRest(); }
        forall w, ws | Agrees(w, ws) ensures Process(w, ws, View()) == View() {
          NothingLeft(w, ws, View());
        }
      }
    }

    /** One received chunk: in every world that gives the answers the session has
        received, the session ends exactly where `Connection.OnData` says. */
    method OnData(data: string)
      requires Valid() && sessionMgr.Valid()
      modifies this, sessionMgr
      ensures Valid() && sessionMgr.Valid()
      ensures Continues(old(sessionMgr.history), sessionMgr.history, remoteIp, old(stage), stage, parser.trace)
      ensures forall w, ws :: Agrees(w, ws) ==> View() == Connection.OnData(w, ws, old(View()), data)
      ensures chunks == old(chunks) + [data]
      ensures old(Follows()) ==> Follows()
    {
      hide Run, Connection.OnData, SessionManager.Valid, Continues, Valid;
      ghost var before := chunks;
      Receive(data);
      chunks := before + [data];
      forall w, ws | Agrees(w, ws)
        ensures Run(w, ws, chunks) == Connection.OnData(w, ws, Run(w, ws, before), data)
      {
        RunMore(w, ws, before, data);
      }
    }

    method Receive(data: string)
      requires Valid() && sessionMgr.Valid()
      modifies this, sessionMgr
      ensures Valid() && sessionMgr.Valid()
      ensures Continues(old(sessionMgr.history), sessionMgr.history, remoteIp, old(stage), stage, parser.trace)
      ensures Extends(old(verdicts), old(fds), old(asks), old(written))
      ensures forall w, ws :: Agrees(w, ws) ==> View() == Connection.OnData(w, ws, old(View()), data)
    {
      hide Process, SessionManager.Valid, Recorded, Continues;
      ContinuesSame(sessionMgr.history, remoteIp, stage, parser.trace);
      if closed {
        stream := stream + data;
        return;
      }
      assert stream[pos..] + data == (stream + data)[pos..];
      assert buffer[bufferOffset..] + data == (buffer + data)[bufferOffset..];
      buffer := buffer + data;
      stream := stream + data;
      if stage == AUTH && |buffer| > AUTH_MAX_BUFFER {
        closed := true;
        overflow := true;
        return;
      }
      assert stage == DATA ==> FileKept();
      ProcessBuffer();
    }
  }
}
