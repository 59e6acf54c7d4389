/** A connection as the daemon drives it: one call per received chunk, at most one disk
    write per call, and an end marker dropped only when it is wholly buffered.

    The buffer itself (read head, compaction) is not here; `ClientSession` supplies it. */
module Connection {
  import opened Text
  import opened Protocol

  const AUTH_MAX_BUFFER := 4096

  datatype Conn = Conn(
    parser: Parser,
    stream: string,      // every byte received
    pos: nat,            // how many of them are consumed
    overflow: bool,      // closed by the pre-authentication cap
    writes: nat,         // disk writes so far
    log: seq<Input>      // the consumed bytes, as the parser reads them
  ) {
    predicate InRange() { pos <= |stream| }

    function Rest(): string
      requires InRange()
    {
      stream[pos..]
    }

    predicate Closed() { parser.mode.closed || overflow }

    function Mode(): Mode { parser.mode }

    function React(r: Reaction): Conn { this.(parser := parser.After(r)) }

    /** Consume the next `n` bytes as `inputs`, with reaction `r`. */
    function Consume(n: nat, inputs: seq<Input>, r: Reaction): (c: Conn)
      requires InRange() && n <= |Rest()|
      ensures c.InRange() && c.Rest() == Rest()[n..]
    {
      this.(pos := pos + n, log := log + inputs, parser := parser.After(r))
    }
  }

  const FRESH := Conn(START, "", 0, false, 0, [])

  /** Is a whole line readable in a stage that reads lines? */
  predicate LineReady(c: Conn)
    requires c.InRange()
  {
    !c.Closed() && c.Mode().stage != DATA && '\n' in c.Rest()
  }

  /** Is payload readable in the stage that reads payload? */
  predicate PayloadReady(c: Conn)
    requires c.InRange()
  {
    !c.Closed() && c.Mode().stage == DATA && c.Rest() != ""
  }

  /** The line `TakeLine` takes off the buffer. */
  function FirstLine(c: Conn): (raw: string)
    requires c.InRange() && '\n' in c.Rest()
    ensures '\n' !in raw && |raw| < |c.Rest()| && raw + "\n" == c.Rest()[..|raw| + 1]
  {
    c.Rest()[..IndexOf(c.Rest(), '\n')]
  }

  function TakeLine(w: World, c: Conn): (d: Conn)
    requires c.InRange() && LineReady(c)
    ensures d.InRange() && |d.Rest()| < |c.Rest()| && d.stream == c.stream
    ensures Counting(d.Mode())
  {
    var raw := FirstLine(c);
    c.Consume(|raw| + 1, Bytes(raw + "\n"), HandleLine(w, c.Mode(), raw))
  }

  /** Handle every whole line until the buffer, the connection or the stage ends. */
  function Digest(w: World, c: Conn): (d: Conn)
    requires c.InRange()
    ensures d.InRange() && !LineReady(d) && d.stream == c.stream
    ensures Counting(c.Mode()) ==> Counting(d.Mode())
    decreases |c.Rest()|
  {
    if LineReady(c) then Digest(w, TakeLine(w, c)) else c
  }

  /** How many buffered bytes belong to the file being received. */
  function Writable(c: Conn): int
    requires c.InRange()
  {
    Min(|c.Rest()|, c.Mode().expected - c.Mode().received)
  }

  /** One `write()`; `outcome` below zero is a failure, otherwise it is how much the
      disk would take. */
  function FileData(outcome: int, c: Conn): (d: Conn)
    requires c.InRange() && Counting(c.Mode()) && PayloadReady(c)
    ensures d.InRange() && d.stream == c.stream && Counting(d.Mode())
  {
    var asked := c.(writes := c.writes + 1);
    if outcome < 0 then
      asked.Consume(|c.Rest()|, [Fault(c.Rest())], OnFault(c.Mode()))
    else
      var data := c.Rest()[..Min(outcome, Writable(c))];
      DropSentinel(asked.Consume(|data|, Bytes(data), Store(c.Mode(), data)))
  }

  /** What one write does, said of the unread bytes and the bytes still missing: as much of
      both as the disk takes is stored, in order; with the last missing byte the file is
      acknowledged and an end marker behind it dropped; a failure loses everything unread. */
  ghost predicate Wrote(outcome: int, c: Conn, d: Conn)
    requires c.InRange() && d.InRange()
  {
    var unread, missing := c.Rest(), c.Mode().expected - c.Mode().received;
    if outcome < 0 then
      && d.Mode().stage == HEADER && d.Rest() == ""
      && d.parser.trace == c.parser.trace + [Sent(CmdFail)]
    else
      var n := Min(outcome, Min(|unread|, missing));
      && 0 <= n <= |unread|
      && d.parser.trace == c.parser.trace + StoredAll(unread[..n]) + (if n == missing then [Sent(FileOk)] else [])
      && (n == missing ==>
            && d.Mode().stage == HEADER
            && d.Rest() == if "FILE_END\n" <= unread[n..] then unread[n + 9..] else unread[n..])
      && (n < missing ==>
            d.Mode().stage == DATA && d.Mode().received == c.Mode().received + n && d.Rest() == unread[n..])
  }

  lemma FileDataWrites(outcome: int, c: Conn)
    requires c.InRange() && Counting(c.Mode()) && PayloadReady(c)
    ensures Wrote(outcome, c, FileData(outcome, c))
  {
    hide StoredAll, Bytes;
    if outcome >= 0 {
      var data := c.Rest()[..Min(outcome, Writable(c))];
      var trace := c.parser.trace;
      assert trace + StoredAll(data) + [Sent(FileOk)] == trace + (StoredAll(data) + [Sent(FileOk)]);
      assert trace + StoredAll(data) + [] == trace + StoredAll(data);
      var stored := c.(writes := c.writes + 1).Consume(|data|, Bytes(data), Store(c.Mode(), data));
      assert stored.Rest() == c.Rest()[|data|..];
      assert stored.parser.trace + [] == stored.parser.trace;
    }
  }

  /** A completed file swallows an end marker that is already wholly buffered. */
  function DropSentinel(c: Conn): (d: Conn)
    requires c.InRange()
    ensures d.InRange() && d.stream == c.stream
    ensures Counting(c.Mode()) ==> Counting(d.Mode())
  {
    if c.Mode().stage != DATA && SENTINEL <= c.Rest()
    then c.Consume(|SENTINEL|, [Skip], OnSkip(c.Mode()))
    else c
  }

  function Process(w: World, ws: nat -> int, c: Conn): (d: Conn)
    requires c.InRange() && Counting(c.Mode())
    ensures d.InRange() && d.stream == c.stream && Counting(d.Mode())
  {
    var d := Digest(w, c);
    if PayloadReady(d) then FileData(ws(d.writes), d) else d
  }

  /** One received chunk. */
  function OnData(w: World, ws: nat -> int, c: Conn, data: string): (d: Conn)
    requires c.InRange() && Counting(c.Mode())
    ensures d.InRange() && d.stream == c.stream + data && Counting(d.Mode())
  {
    var d := c.(stream := c.stream + data);
    if c.Closed() then d
    else if c.Mode().stage == AUTH && |d.stream| > AUTH_MAX_BUFFER then d.(overflow := true)
    else Process(w, ws, d)
  }

  // ---- the reference refinement ----------------------------------------

  /** The consumed bytes, read one at a time by the reference parser, lead exactly here. */
  ghost predicate Sound(w: World, c: Conn) {
    && c.InRange()
    && Counting(c.Mode())
    && c.Mode().line == ""
    && Replay(w, c.log) == c.parser
    && Expand(c.log) == c.stream[..c.pos]
    && InputsFit(w, c.log)
  }

  /** An end marker is dropped only right after a completed file, and a write fails only
      while a file is received. */
  ghost predicate InputsFit(w: World, log: seq<Input>) {
    forall i :: 0 <= i < |log| ==> InPlace(Replay(w, log[..i]).mode, log[i])
  }

  predicate InPlace(m: Mode, i: Input) {
    match i
    case Byte(_) => true
    case Skip => AtSentinel(m)
    case Fault(_) => m.stage == DATA
  }

  predicate AtSentinel(m: Mode) {
    !m.closed && m.afterFile && m.line == "" && m.stage == HEADER
  }

  /** Consuming what is next in the stream, as the parser would, keeps the relation. */
  lemma ConsumeSound(w: World, c: Conn, n: nat, inputs: seq<Input>, r: Reaction)
    requires Sound(w, c) && n <= |c.Rest()|
    requires FeedAll(w, c.parser, inputs) == c.parser.After(r)
    requires Expand(inputs) == c.Rest()[..n]
    requires Counting(r.mode) && r.mode.line == ""
    requires forall i :: 0 <= i < |inputs| ==> inputs[i].Byte? || (i == 0 && InPlace(c.Mode(), inputs[i]))
    ensures Sound(w, c.Consume(n, inputs, r))
  {
    hide FeedAll, Replay, Expand, Counting, InputsFit;
    ReplayAppend(w, c.log, inputs);
    ExpandAppend(c.log, inputs);
    InputsFitAppend(w, c.log, inputs);
    assert c.stream[..c.pos] + c.Rest()[..n] == c.stream[..c.pos + n];
  }

  lemma InputsFitAppend(w: World, log: seq<Input>, inputs: seq<Input>)
    requires InputsFit(w, log)
    requires forall i :: 0 <= i < |inputs| ==>
               inputs[i].Byte? || (i == 0 && InPlace(Replay(w, log).mode, inputs[i]))
    ensures InputsFit(w, log + inputs)
  {
    hide Replay, AtSentinel;
    var all := log + inputs;
    forall i | 0 <= i < |all|
      ensures InPlace(Replay(w, all[..i]).mode, all[i])
    {
      if i < |log| {
        assert all[..i] == log[..i];
      } else if i == |log| {
        assert all[..i] == log;
      }
    }
  }

  lemma InputsFitPrefix(w: World, log: seq<Input>)
    requires InputsFit(w, log) && log != []
    ensures InputsFit(w, log[..|log| - 1])
    ensures InPlace(Replay(w, log[..|log| - 1]).mode, log[|log| - 1])
  {
    hide Replay, InPlace;
    var n := |log| - 1;
    forall k | 0 <= k < n
      ensures InPlace(Replay(w, log[..n][..k]).mode, log[..n][k])
    {
      assert log[..n][..k] == log[..k];
    }
  }

  lemma TakeLineSound(w: World, c: Conn)
    requires Sound(w, c) && LineReady(c)
    ensures Sound(w, TakeLine(w, c))
  {
    hide HandleLine, Bytes;
    var raw := FirstLine(c);
    ConsumeLineSound(w, c, raw, HandleLine(w, c.Mode(), raw));
  }

  lemma ConsumeLineSound(w: World, c: Conn, raw: string, r: Reaction)
    requires Sound(w, c) && LineReady(c)
    requires '\n' !in raw && |raw| < |c.Rest()| && raw + "\n" == c.Rest()[..|raw| + 1]
    requires r == HandleLine(w, c.Mode(), raw)
    ensures Sound(w, c.Consume(|raw| + 1, Bytes(raw + "\n"), r))
  {
    hide HandleLine, Bytes, FeedAll, Expand;
    FeedLine(w, c.parser, raw);
    ExpandBytes(raw + "\n");
    ConsumeSound(w, c, |raw| + 1, Bytes(raw + "\n"), r);
  }

  lemma {:induction false} DigestSound(w: World, c: Conn)
    requires Sound(w, c)
    ensures Sound(w, Digest(w, c))
    decreases |c.Rest()|
  {
    if LineReady(c) {
      TakeLineSound(w, c);
      DigestSound(w, TakeLine(w, c));
    }
  }

  lemma FeedOne(w: World, p: Parser, i: Input)
    ensures FeedAll(w, p, [i]) == Feed(w, p, i)
    ensures Expand([i]) == Raw(i)
  {
    assert [i][..0] == [];
    assert FeedAll(w, p, []) == p;
    assert Expand([]) + Raw(i) == Raw(i);
  }

  lemma StoreCounts(m: Mode, data: string)
    requires m.stage == DATA && Counting(m) && |data| <= m.expected - m.received
    ensures Counting(Store(m, data).mode) && Store(m, data).mode.line == m.line
    ensures Store(m, data).mode.stage != DATA && m.line == "" ==> AtSentinel(Store(m, data).mode)
  {
  }

  lemma DropSentinelSound(w: World, c: Conn)
    requires Sound(w, c)
    requires c.Mode().stage != DATA ==> AtSentinel(c.Mode())
    ensures Sound(w, DropSentinel(c))
  {
    if c.Mode().stage != DATA && SENTINEL <= c.Rest() {
      FeedOne(w, c.parser, Skip);
      ConsumeSound(w, c, |SENTINEL|, [Skip], OnSkip(c.Mode()));
    }
  }

  lemma FileDataSound(w: World, outcome: int, c: Conn)
    requires Sound(w, c) && PayloadReady(c)
    ensures Sound(w, FileData(outcome, c))
  {
    hide FeedAll, Replay, Expand, InputsFit;
    var asked := c.(writes := c.writes + 1);
    if outcome < 0 {
      var f := Fault(c.Rest());
      FeedOne(w, c.parser, f);
      ConsumeSound(w, asked, |c.Rest()|, [f], OnFault(c.Mode()));
    } else {
      var n := Min(outcome, Writable(c));
      var data := c.Rest()[..n];
      FeedPayload(w, c.parser, data);
      ExpandBytes(data);
      StoreCounts(c.Mode(), data);
      ConsumeSound(w, asked, n, Bytes(data), Store(c.Mode(), data));
      DropSentinelSound(w, asked.Consume(n, Bytes(data), Store(c.Mode(), data)));
    }
  }

  lemma ReceiveSound(w: World, c: Conn, data: string)
    requires Sound(w, c)
    ensures Sound(w, c.(stream := c.stream + data))
  {
    hide Replay, Expand;
    var d := c.(stream := c.stream + data);
    assert d.stream[..d.pos] == c.stream[..c.pos];
  }

  lemma OnDataSound(w: World, ws: nat -> int, c: Conn, data: string)
    requires Sound(w, c)
    ensures Sound(w, OnData(w, ws, c, data))
  {
    hide Replay, Expand, InputsFit, FileData, Digest;
    var d := c.(stream := c.stream + data);
    ReceiveSound(w, c, data);
    DigestSound(w, d);
    var e := Digest(w, d);
    if PayloadReady(e) { FileDataSound(w, ws(e.writes), e); }
    assert Sound(w, d.(overflow := true));
  }

  // ---- whole runs ------------------------------------------------------

  function Concat(chunks: seq<string>): string {
    if chunks == [] then "" else Concat(chunks[..|chunks| - 1]) + chunks[|chunks| - 1]
  }

  /** The state after receiving `chunks`, one call each. */
  ghost function Run(w: World, ws: nat -> int, chunks: seq<string>): (c: Conn)
    ensures Sound(w, c)
    ensures c.stream == Concat(chunks)
  {
    if chunks == [] then
      FRESH
    else
      var c := Run(w, ws, chunks[..|chunks| - 1]);
      OnDataSound(w, ws, c, chunks[|chunks| - 1]);
      OnData(w, ws, c, chunks[|chunks| - 1])
  }

  lemma RunMore(w: World, ws: nat -> int, chunks: seq<string>, data: string)
    ensures Run(w, ws, chunks + [data]) == OnData(w, ws, Run(w, ws, chunks), data)
  {
    hide OnData;
    assert (chunks + [data])[..|chunks|] == chunks;
  }

  /** No write has failed so far. */
  predicate Faultless(log: seq<Input>) {
    forall i :: 0 <= i < |log| ==> !log[i].Fault?
  }
}
