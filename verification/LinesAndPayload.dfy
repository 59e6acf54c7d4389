/** Where the handled lines and the announced payloads of a connection lie in its stream,
    and exactly when payload is handled as a line. */
module LinesAndPayload {
  import opened Text
  import opened Protocol
  import opened Connection
  import opened Traces

  /** A stretch of the stream, from one position up to another. */
  datatype Span = Span(from: int, to: int)

  predicate EndsLine(m: Mode, i: Input) { !m.closed && m.stage != DATA && i == Byte('\n') }

  /** Where in the stream the handled lines stand, their newlines included. */
  function Lines(w: World, log: seq<Input>): seq<Span> {
    if log == [] then []
    else
      var n := |log| - 1;
      var m := Replay(w, log[..n]).mode;
      Lines(w, log[..n]) +
      if EndsLine(m, log[n]) then [Span(|Expand(log[..n])| - |m.line|, |Expand(log)|)] else []
  }

  /** Every line ends before an upload's announced payload begins, or begins after it ends. */
  ghost predicate Apart(lines: seq<Span>, us: seq<Upload>, starts: seq<nat>)
    requires |us| == |starts|
  {
    forall i, k :: 0 <= i < |lines| && 0 <= k < |us| ==>
      lines[i].to <= starts[k] || starts[k] + us[k].size <= lines[i].from
  }

  // ---- writes that lose less than the rest of their file ---------------

  /** A failed write threw away less than was still missing of its file, so that the rest
      of the announced payload is yet to come. */
  predicate Spills(m: Mode, i: Input) { i.Fault? && |i.lost| < m.expected - m.received }

  ghost predicate SpillsAt(w: World, log: seq<Input>, i: nat)
    requires i < |log|
  {
    Spills(Replay(w, log[..i]).mode, log[i])
  }

  ghost predicate LineAt(w: World, log: seq<Input>, j: nat)
    requires j < |log|
  {
    EndsLine(Replay(w, log[..j]).mode, log[j])
  }

  ghost predicate Spilt(w: World, log: seq<Input>) {
    exists i :: 0 <= i < |log| && SpillsAt(w, log, i)
  }

  /** Some write spilt, and some line was handled after it. */
  ghost predicate LineAfterSpill(w: World, log: seq<Input>) {
    exists i, j :: 0 <= i < j < |log| && SpillsAt(w, log, i) && LineAt(w, log, j)
  }

  lemma SpiltMore(w: World, log: seq<Input>)
    requires log != []
    ensures var n := |log| - 1;
            && (Spilt(w, log) <==> Spilt(w, log[..n]) || SpillsAt(w, log, n))
            && (LineAfterSpill(w, log) <==>
                  LineAfterSpill(w, log[..n]) || (Spilt(w, log[..n]) && LineAt(w, log, n)))
  {
    hide Spills, EndsLine, Replay;
    var n := |log| - 1;
    forall i | 0 <= i < n
      ensures SpillsAt(w, log[..n], i) == SpillsAt(w, log, i) && LineAt(w, log[..n], i) == LineAt(w, log, i)
    {
      assert log[..n][..i] == log[..i];
    }
    if Spilt(w, log[..n]) {
      var i :| 0 <= i < n && SpillsAt(w, log[..n], i);
      assert SpillsAt(w, log, i);
    }
    if LineAfterSpill(w, log[..n]) {
      var i, j :| 0 <= i < j < n && SpillsAt(w, log[..n], i) && LineAt(w, log[..n], j);
      assert SpillsAt(w, log, i) && LineAt(w, log, j);
    }
    if LineAfterSpill(w, log) {
      var i, j :| 0 <= i < j < |log| && SpillsAt(w, log, i) && LineAt(w, log, j);
      assert SpillsAt(w, log[..n], i);
      if j < n { assert LineAt(w, log[..n], j); }
    }
  }

  // ---- the three states of a connection --------------------------------

  /** Nothing is spilt: what is handled lies before the unfinished line, but for the upload
      in progress. */
  ghost predicate Parted(m: Mode, lines: seq<Span>, us: seq<Upload>, starts: seq<nat>, n: nat)
    requires |us| == |starts|
  {
    && Apart(lines, us, starts)
    && (forall i :: 0 <= i < |lines| ==> lines[i].to <= n - |m.line|)
    && (forall k :: 0 <= k < |us| && (m.stage != DATA || k < |us| - 1) ==>
          starts[k] + us[k].size <= n - |m.line|)
    && (m.stage == DATA ==>
          && us != [] && m.line == ""
          && us[|us| - 1].size == m.expected && starts[|us| - 1] + m.received == n)
  }

  /** Payload is spilt and the next line will begin inside it. */
  ghost predicate Pending(m: Mode, lines: seq<Span>, us: seq<Upload>, starts: seq<nat>, n: nat)
    requires |us| == |starts|
  {
    && Apart(lines, us, starts)
    && m.stage == HEADER && !m.afterFile && us != []
    && starts[|us| - 1] <= n - |m.line| < starts[|us| - 1] + us[|us| - 1].size
  }

  ghost predicate State(m: Mode, spilt: bool, mixed: bool,
                        lines: seq<Span>, us: seq<Upload>, starts: seq<nat>, n: nat) {
    && |us| == |starts|
    && if mixed then !Apart(lines, us, starts)
       else if spilt then Pending(m, lines, us, starts, n)
       else Parted(m, lines, us, starts, n)
  }

  /** More lines and uploads may follow, and the announced sizes stay. */
  ghost predicate Grows(us: seq<Upload>, us': seq<Upload>) {
    |us| <= |us'| && forall k :: 0 <= k < |us| ==> us'[k].size == us[k].size
  }

  lemma WriteAllGrows(us: seq<Upload>, es: seq<Event>)
    requires |es| <= 2
    ensures Grows(us, WriteAll(us, es))
  {
  }

  /** Lines and payload that have met stay so. */
  lemma StaysMixed(lines: seq<Span>, us: seq<Upload>, starts: seq<nat>,
                   lines': seq<Span>, us': seq<Upload>, starts': seq<nat>)
    requires |us| == |starts| && |us'| == |starts'| && !Apart(lines, us, starts)
    requires lines <= lines' && starts <= starts' && Grows(us, us')
    ensures !Apart(lines', us', starts')
  {
    var i, k :| 0 <= i < |lines| && 0 <= k < |us|
                && lines[i].to > starts[k] && starts[k] + us[k].size > lines[i].from;
    assert lines'[i] == lines[i] && starts'[k] == starts[k] && us'[k].size == us[k].size;
  }

  /** The first line after a spill begins inside the announced payload. */
  lemma LineMixes(m: Mode, lines: seq<Span>, us: seq<Upload>, starts: seq<nat>, n: nat)
    requires |us| == |starts| && Pending(m, lines, us, starts, n)
    ensures !Apart(lines + [Span(n - |m.line|, n + 1)], us, starts)
  {
    var lines' := lines + [Span(n - |m.line|, n + 1)];
    var i, k := |lines|, |us| - 1;
    assert lines'[i].to > starts[k] && starts[k] + us[k].size > lines'[i].from;
  }

  lemma LineParts(m: Mode, r: Reaction, lines: seq<Span>, us: seq<Upload>, starts: seq<nat>, n: nat)
    requires m.stage != DATA && LineEvents(m, r) && r.mode.line == ""
    requires |us| == |starts| && Parted(m, lines, us, starts, n)
    ensures |WriteAll(us, r.events)| == |starts| + if r.mode.stage == DATA then 1 else 0
    ensures Parted(r.mode, lines + [Span(n - |m.line|, n + 1)], WriteAll(us, r.events),
                   starts + if r.mode.stage == DATA then [n + 1] else [], n + 1)
  {
    if r.mode.stage == DATA {
      var u := Upload(r.events[0].name, r.mode.expected, "", false);
      assert WriteAll(us, r.events) == us + [u];
    } else {
      assert forall k :: 0 <= k < |r.events| ==> NoFile(r.events[k]);
      assert WriteAll(us, r.events) == us;
    }
  }

  lemma ByteParts(m: Mode, c: char, lines: seq<Span>, us: seq<Upload>, starts: seq<nat>, n: nat)
    requires Counting(m) && m.stage == DATA && |Store(m, [c]).events| <= 2
    requires |us| == |starts| && Parted(m, lines, us, starts, n)
    ensures |WriteAll(us, Store(m, [c]).events)| == |starts|
    ensures Parted(Store(m, [c]).mode, lines, WriteAll(us, Store(m, [c]).events), starts, n + 1)
  {
    var es := Store(m, [c]).events;
    assert es[0] == Stored(c);
    WriteAllGrows(us, es);
  }

  /** A failed write ends the upload in progress, spilt or not. */
  lemma FaultParts(m: Mode, i: Input, lines: seq<Span>, us: seq<Upload>, starts: seq<nat>, n: nat)
    requires Counting(m) && m.stage == DATA && !m.afterFile && i.Fault?
    requires |us| == |starts| && Parted(m, lines, us, starts, n)
    ensures State(OnFault(m).mode, Spills(m, i), false, lines, us, starts, n + |i.lost|)
  {
    hide Apart;
  }

  lemma NothingParts(m: Mode, m': Mode, lines: seq<Span>, us: seq<Upload>, starts: seq<nat>, n: nat, n': nat)
    requires m.stage != DATA && m'.stage != DATA && n - |m.line| <= n' - |m'.line|
    requires |us| == |starts| && Parted(m, lines, us, starts, n)
    ensures Parted(m', lines, us, starts, n')
  {
    hide Apart;
  }

  /** One input, in a connection where nothing is spilt. */
  lemma PartedStep(w: World, m: Mode, i: Input, lines: seq<Span>, us: seq<Upload>, starts: seq<nat>, n: nat)
    requires Counting(m) && InPlace(m, i) && (m.stage == DATA ==> !m.afterFile)
    requires |Step(w, m, i).events| <= 2
    requires |us| == |starts| && Parted(m, lines, us, starts, n)
    ensures var r, n' := Step(w, m, i), n + |Raw(i)|;
            State(r.mode, Spills(m, i), false,
                  lines + (if EndsLine(m, i) then [Span(n - |m.line|, n')] else []),
                  WriteAll(us, r.events),
                  starts + (if m.stage != DATA && r.mode.stage == DATA then [n'] else []), n')
  {
    hide Parted, Pending, HandleLine, LineEvents, Store;
    assert lines + [] == lines && starts + [] == starts;
    if EndsLine(m, i) {
      LineWrites(w, m.(line := ""), m.line);
      LineParts(m, Step(w, m, i), lines, us, starts, n);
    } else if i.Fault? {
      FaultParts(m, i, lines, us, starts, n);
    } else if m.stage == DATA {
      ByteParts(m, i.c, lines, us, starts, n);
    } else {
      NothingParts(m, Step(w, m, i).mode, lines, us, starts, n, n + |Raw(i)|);
    }
  }

  /** One input, in a connection with spilt payload: no file is open and no end marker can
      be dropped, so only a byte of a line may follow. */
  lemma PendingStep(w: World, m: Mode, i: Input, lines: seq<Span>, us: seq<Upload>, starts: seq<nat>, n: nat)
    requires InPlace(m, i) && !m.closed && !EndsLine(m, i)
    requires |us| == |starts| && Pending(m, lines, us, starts, n)
    ensures Step(w, m, i).events == [] && !Spills(m, i) && Step(w, m, i).mode.stage == HEADER
    ensures Pending(Step(w, m, i).mode, lines, us, starts, n + |Raw(i)|)
  {
    hide Apart, HandleLine;
  }

  lemma StateStep(w: World, m: Mode, i: Input, spilt: bool, mixed: bool,
                  lines: seq<Span>, us: seq<Upload>, starts: seq<nat>, n: nat)
    requires Counting(m) && InPlace(m, i) && (m.stage == DATA ==> !m.afterFile) && (m.stage == HEADER ==> !m.closed)
    requires |Step(w, m, i).events| <= 2
    requires State(m, spilt, mixed, lines, us, starts, n)
    requires var r := Step(w, m, i);
             |WriteAll(us, r.events)| == |starts| + if m.stage != DATA && r.mode.stage == DATA then 1 else 0
    ensures var r, n' := Step(w, m, i), n + |Raw(i)|;
            State(r.mode, spilt || Spills(m, i), mixed || (spilt && EndsLine(m, i)),
                  lines + (if EndsLine(m, i) then [Span(n - |m.line|, n')] else []),
                  WriteAll(us, r.events),
                  starts + (if m.stage != DATA && r.mode.stage == DATA then [n'] else []), n')
  {
    hide Parted, Pending, Apart, Step, Grows, WriteAll;
    var r, n' := Step(w, m, i), n + |Raw(i)|;
    var lines' := lines + if EndsLine(m, i) then [Span(n - |m.line|, n')] else [];
    var starts' := starts + if m.stage != DATA && r.mode.stage == DATA then [n'] else [];
    WriteAllGrows(us, r.events);
    if mixed {
      StaysMixed(lines, us, starts, lines', WriteAll(us, r.events), starts');
    } else if !spilt {
      PartedStep(w, m, i, lines, us, starts, n);
    } else if EndsLine(m, i) {
      LineMixes(m, lines, us, starts, n);
      StaysMixed(lines', us, starts, lines', WriteAll(us, r.events), starts');
    } else {
      PendingIsOpen(m, lines, us, starts, n);
      PendingStep(w, m, i, lines, us, starts, n);
      assert WriteAll(us, []) == us by { WriteAllNothing(us); }
      assert lines' == lines && starts' == starts;
    }
  }

  lemma PendingIsOpen(m: Mode, lines: seq<Span>, us: seq<Upload>, starts: seq<nat>, n: nat)
    requires |us| == |starts| && Pending(m, lines, us, starts, n)
    ensures m.stage == HEADER
  {
  }

  lemma WriteAllNothing(us: seq<Upload>)
    ensures WriteAll(us, []) == us
  {
  }

  /** Only a connection that waits for a PIN is ever closed by what it reads. */
  lemma StepStaysOpen(w: World, m: Mode, i: Input, phase: Option<Phase>)
    requires Fits(m, phase) && (m.stage != AUTH ==> !m.closed)
    ensures Step(w, m, i).mode.stage != AUTH ==> !Step(w, m, i).mode.closed
  {
    hide HandleHeader, ScanFrom, Next, Pin, Chomp;
    StepSpeaks(w, m, i, phase);
    if m.stage != AUTH { NeverOver(phase.value, Step(w, m, i).events); }
  }

  lemma {:induction false} OpenBehindAuth(w: World, log: seq<Input>)
    ensures Replay(w, log).mode.stage != AUTH ==> !Replay(w, log).mode.closed
  {
    hide Step, Fits, Scan;
    if log != [] {
      var n := |log| - 1;
      var p := Replay(w, log[..n]);
      OpenBehindAuth(w, log[..n]);
      ReplaySpeaks(w, log[..n]);
      StepStaysOpen(w, p.mode, log[n], Scan(p.trace));
    }
  }

  lemma ModesOfRuns(w: World, log: seq<Input>)
    ensures var m := Replay(w, log).mode;
            Counting(m) && (m.stage == DATA ==> !m.afterFile) && (m.stage == HEADER ==> !m.closed)
  {
    ReplaySpeaks(w, log);
    OpenBehindAuth(w, log);
  }

  lemma {:induction false} ReplayState(w: World, log: seq<Input>)
    requires InputsFit(w, log)
    ensures var p := Replay(w, log);
            State(p.mode, Spilt(w, log), LineAfterSpill(w, log),
                  Lines(w, log), Uploads(p.trace), Starts(w, log), |Expand(log)|)
  {
    hide State, Scan, WriteAll, Uploads, Step, InputsFit, InPlace, Spilt, LineAfterSpill;
    if log == [] {
      NothingYet(w);
    } else {
      var n := |log| - 1;
      InputsFitPrefix(w, log);
      ReplayState(w, log[..n]);
      var p := Replay(w, log[..n]);
      ModesOfRuns(w, log[..n]);
      StepEvents(w, p.mode, log[n]);
      UploadsAppend(p.trace, Step(w, p.mode, log[n]).events);
      SameNumber(w, log);
      SameNumber(w, log[..n]);
      SpiltMore(w, log);
      StateStep(w, p.mode, log[n], Spilt(w, log[..n]), LineAfterSpill(w, log[..n]),
                Lines(w, log[..n]), Uploads(p.trace), Starts(w, log[..n]), |Expand(log[..n])|);
    }
  }

  lemma SameNumber(w: World, log: seq<Input>)
    requires InputsFit(w, log)
    ensures |Uploads(Replay(w, log).trace)| == |Starts(w, log)|
  {
    ReplayKeepsFiles(w, log);
  }

  lemma NothingYet(w: World)
    ensures State(START.mode, Spilt(w, []), LineAfterSpill(w, []), [], Uploads(START.trace), [], 0)
  {
  }

  // ---- lines are stretches of the stream -------------------------------

  /** A stretch of the stream that is one line and its newline. */
  ghost predicate IsLine(at: Span, stream: string) {
    && 0 <= at.from < at.to <= |stream|
    && stream[at.to - 1] == '\n' && '\n' !in stream[at.from..at.to - 1]
  }

  /** The unfinished line is what the stream ends with. */
  ghost predicate EndsWithLine(m: Mode, stream: string) {
    && (m.stage == DATA ==> m.line == "")
    && (!m.closed ==> |m.line| <= |stream| && m.line == stream[|stream| - |m.line|..] && '\n' !in m.line)
  }

  lemma StepEndsWithLine(w: World, m: Mode, i: Input, stream: string)
    requires Counting(m) && InPlace(m, i)
    requires EndsWithLine(m, stream)
    ensures EndsWithLine(Step(w, m, i).mode, stream + Raw(i))
    ensures EndsLine(m, i) ==> IsLine(Span(|stream| - |m.line|, |stream + Raw(i)|), stream + Raw(i))
  {
    hide HandleLine;
    var longer := stream + Raw(i);
    if EndsLine(m, i) {
      assert longer[|stream| - |m.line|..|stream|] == stream[|stream| - |m.line|..];
    } else if !m.closed && i.Byte? && m.stage != DATA {
      assert longer[|stream| - |m.line|..] == m.line + [i.c];
    }
  }

  lemma {:induction false} ReplayLines(w: World, log: seq<Input>)
    requires InputsFit(w, log)
    ensures EndsWithLine(Replay(w, log).mode, Expand(log))
    ensures forall i :: 0 <= i < |Lines(w, log)| ==> IsLine(Lines(w, log)[i], Expand(log))
  {
    hide EndsWithLine, IsLine, Step, InputsFit, InPlace;
    if log == [] {
      NothingEndsWithLine();
    } else {
      var n := |log| - 1;
      InputsFitPrefix(w, log);
      ReplayLines(w, log[..n]);
      ReplaySpeaks(w, log[..n]);
      StepEndsWithLine(w, Replay(w, log[..n]).mode, log[n], Expand(log[..n]));
      StillLines(Lines(w, log[..n]), Expand(log[..n]), Raw(log[n]));
    }
  }

  lemma NothingEndsWithLine()
    ensures EndsWithLine(START.mode, "")
  {
  }

  lemma StillLines(lines: seq<Span>, stream: string, more: string)
    requires forall i :: 0 <= i < |lines| ==> IsLine(lines[i], stream)
    ensures forall i :: 0 <= i < |lines| ==> IsLine(lines[i], stream + more)
  {
    forall i | 0 <= i < |lines| ensures IsLine(lines[i], stream + more) {
      var at := lines[i];
      assert IsLine(at, stream);
      assert (stream + more)[at.from..at.to - 1] == stream[at.from..at.to - 1];
    }
  }

  // ---- when payload is handled as a line -------------------------------

  /** Over every run, whatever the chunks, short writes and write errors: the handled lines
      are newline-terminated stretches of the stream, and a byte of an announced payload is
      handled as part of one exactly when some failed write threw away less than was missing
      of its file and a line was handled afterwards. */
  lemma PayloadIsALineIff(w: World, ws: nat -> int, chunks: seq<string>)
    ensures var c := Run(w, ws, chunks);
            && (forall i :: 0 <= i < |Lines(w, c.log)| ==> IsLine(Lines(w, c.log)[i], Concat(chunks)))
            && |Uploads(c.parser.trace)| == |Starts(w, c.log)|
            && (Apart(Lines(w, c.log), Uploads(c.parser.trace), Starts(w, c.log)) <==>
                  !LineAfterSpill(w, c.log))
  {
    hide Run, IsLine, Apart, Lines, LineAfterSpill;
    SoundLines(w, Run(w, ws, chunks));
  }

  lemma SoundLines(w: World, c: Conn)
    requires Sound(w, c)
    ensures |Uploads(c.parser.trace)| == |Starts(w, c.log)|
    ensures Apart(Lines(w, c.log), Uploads(c.parser.trace), Starts(w, c.log)) <==> !LineAfterSpill(w, c.log)
    ensures forall i :: 0 <= i < |Lines(w, c.log)| ==> IsLine(Lines(w, c.log)[i], c.stream)
  {
    hide Replay, Expand, InputsFit, IsLine, Apart, Lines, Uploads, Starts, EndsWithLine, Counting, Spilt, LineAfterSpill;
    ReplayState(w, c.log);
    ReplayLines(w, c.log);
    StillLines(Lines(w, c.log), c.stream[..c.pos], c.stream[c.pos..]);
    assert c.stream == c.stream[..c.pos] + c.stream[c.pos..];
  }

  /** In particular never as long as no write has failed. */
  lemma PayloadIsNeverALine(w: World, ws: nat -> int, chunks: seq<string>)
    requires Faultless(Run(w, ws, chunks).log)
    ensures var c := Run(w, ws, chunks);
            && |Uploads(c.parser.trace)| == |Starts(w, c.log)|
            && Apart(Lines(w, c.log), Uploads(c.parser.trace), Starts(w, c.log))
  {
    hide Run, IsLine, Apart, Lines;
    PayloadIsALineIff(w, ws, chunks);
    NoSpill(w, Run(w, ws, chunks).log);
  }

  lemma NoSpill(w: World, log: seq<Input>)
    requires Faultless(log)
    ensures !LineAfterSpill(w, log)
  {
  }
}
