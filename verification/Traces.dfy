/** The shape of every trace a connection can produce, and the uploads it records. */
module Traces {
  import opened Text
  import opened Protocol
  import opened Connection

  // ---- the grammar of a conversation -----------------------------------

  datatype Phase =
    | Guessing(fails: nat)      // waiting for a PIN
    | Judging(fails: nat)       // a PIN was compared, the verdict is due
    | Idle(answerable: bool, afterFile: bool)
    | Announced(size: nat)      // a file was created, READY_FOR_FILE is due
    | Receiving(left: nat)
    | Full                      // the last byte was written, FILE_OK is due
    | Over

  const QUIET := Some(Idle(false, false))

  function Next(phase: Phase, e: Event): Option<Phase> {
    match phase
    case Guessing(k) =>
      if e.Judged? then Some(Judging(k))
      else if e == Sent(AuthBlocked) then Some(Over)
      else None
    case Judging(k) =>
      if e == Sent(AuthOk) then QUIET
      else if e == Sent(AuthFail) then Some(if k + 1 >= 3 then Over else Guessing(k + 1))
      else None
    case Idle(answerable, afterFile) =>
      if e.Dispatched? then Some(Idle(true, false))
      else if e.Answered? then if answerable then QUIET else None
      else if e.Listed? || e.Pushed? || e == Sent(CmdFail) || e == Sent(UnknownRequest) then QUIET
      else if e.StraySentinel? then if afterFile then QUIET else None
      else if e.Opened? && 0 < e.size <= MAX_RECEIVE_FILE_BYTES then Some(Announced(e.size))
      else None
    case Announced(size) =>
      if e == Sent(ReadyForFile) then Some(Receiving(size)) else None
    case Receiving(left) =>
      if e.Stored? && left > 0 then Some(if left == 1 then Full else Receiving(left - 1))
      else if e == Sent(CmdFail) then QUIET
      else None
    case Full =>
      if e == Sent(FileOk) then Some(Idle(false, true)) else None
    case Over => None
  }

  function ScanFrom(phase: Option<Phase>, es: seq<Event>): Option<Phase>
    decreases es
  {
    if es == [] then phase
    else if phase.None? then None
    else ScanFrom(Next(phase.value, es[0]), es[1..])
  }

  /** The phase a conversation is in, or `None` when it breaks the grammar. */
  function Scan(trace: seq<Event>): Option<Phase> { ScanFrom(Some(Guessing(0)), trace) }

  lemma {:induction false} ScanAppend(phase: Option<Phase>, a: seq<Event>, b: seq<Event>)
    ensures ScanFrom(phase, a + b) == ScanFrom(ScanFrom(phase, a), b)
    decreases a
  {
    if a == [] {
      assert a + b == b;
    } else if phase.None? {
    } else {
      assert (a + b)[1..] == a[1..] + b;
      ScanAppend(Next(phase.value, a[0]), a[1..], b);
    }
  }

  /** The phase that goes with a parser's mode. */
  predicate Fits(m: Mode, phase: Option<Phase>) {
    && phase.Some?
    && Counting(m)
    && (m.closed ==> phase.value == Over)
    && (!m.closed ==>
          match m.stage
          case AUTH => phase.value == Guessing(m.attempts) && m.attempts < 3 && !m.afterFile
          case HEADER => phase.value.Idle? && (m.afterFile ==> phase.value.afterFile)
          case DATA => phase.value == Receiving(m.expected - m.received) && !m.afterFile)
  }

  /** From the phase that fits `m`, the reaction's events lead to the one that fits next. */
  predicate Speaks(m: Mode, phase: Option<Phase>, r: Reaction) {
    Fits(m, phase) ==> Fits(r.mode, ScanFrom(phase, r.events))
  }

  lemma ScanOne(phase: Option<Phase>, a: Event)
    ensures phase.Some? ==> ScanFrom(phase, [a]) == Next(phase.value, a)
  {
    assert [a][1..] == [];
  }

  lemma ScanTwo(phase: Option<Phase>, a: Event, b: Event)
    ensures phase.Some? ==> ScanFrom(phase, [a, b]) == ScanFrom(Next(phase.value, a), [b])
  {
    assert [a, b][1..] == [b];
  }

  lemma AuthSpeaks(m: Mode, pin: string, v: Verdict, phase: Option<Phase>)
    requires m.stage == AUTH && !m.closed
    ensures Speaks(m, phase, HandleAuth(m, pin, v))
  {
    if Fits(m, phase) {
      match v
      case Blocked => ScanOne(phase, Sent(AuthBlocked));
      case Accepted => ScanJudgement(m.attempts, pin, AuthOk);
      case Refused => ScanJudgement(m.attempts, pin, AuthFail);
    }
  }

  lemma ScanJudgement(fails: nat, pin: string, reply: Reply)
    ensures ScanFrom(Some(Guessing(fails)), [Judged(pin), Sent(reply)]) == Next(Judging(fails), Sent(reply))
  {
    ScanTwo(Some(Guessing(fails)), Judged(pin), Sent(reply));
    ScanOne(Some(Judging(fails)), Sent(reply));
  }

  lemma CommandSpeaks(m: Mode, cmd: string, text: string, phase: Option<Phase>)
    requires m.stage == HEADER && !m.closed && !m.afterFile
    ensures Speaks(m, phase, HandleCommand(m, cmd, text))
  {
    var es := HandleCommand(m, cmd, text).events;
    if Fits(m, phase) {
      ScanOne(phase, es[0]);
      if |es| == 2 {
        ScanTwo(phase, es[0], es[1]);
        ScanOne(Next(phase.value, es[0]), es[1]);
      }
    }
  }

  lemma FileSizeSpeaks(m: Mode, size: nat, fd: int, phase: Option<Phase>)
    requires m.stage == HEADER && !m.closed && !m.afterFile
    ensures Speaks(m, phase, HandleFileSize(m, size, fd))
  {
    var es := HandleFileSize(m, size, fd).events;
    if Fits(m, phase) {
      ScanOne(phase, es[0]);
      if |es| == 2 {
        ScanTwo(phase, es[0], es[1]);
        ScanOne(Next(phase.value, es[0]), es[1]);
      }
    }
  }

  lemma FileStartSpeaks(m: Mode, line: string, fd: int, phase: Option<Phase>)
    requires m.stage == HEADER && !m.closed && !m.afterFile
    ensures Speaks(m, phase, HandleFileStart(m, line, fd))
  {
    if phase.Some? { ScanOne(phase, Sent(CmdFail)); }
    var colon := LastIndexOf(line, ':');
    if colon > 11 {
      var named := m.(name := Flatten(line[11..colon]));
      var size := Stoull(line[colon + 1..]);
      if size.Some? { FileSizeSpeaks(named, size.value, fd, phase); }
    }
  }

  lemma HeaderSpeaks(m: Mode, line: string, fd: int, text: string, phase: Option<Phase>)
    requires m.stage == HEADER && !m.closed && !m.afterFile
    ensures Speaks(m, phase, HandleHeader(m, line, fd, text))
  {
    if |line| >= 4 && line[..4] == "CMD:" {
      CommandSpeaks(m, TrimFront(line[4..], {' '}), text, phase);
    } else if |line| >= 11 && line[..11] == "FILE_START:" {
      FileStartSpeaks(m, line, fd, phase);
    } else {
      ScanOne(phase, Sent(UnknownRequest));
    }
  }

  lemma LineSpeaks(w: World, m: Mode, raw: string, phase: Option<Phase>)
    requires m.stage != DATA && !m.closed
    ensures Speaks(m, phase, HandleLine(w, m, raw))
  {
    var next := m.(afterFile := false);
    if m.stage == AUTH {
      AuthSpeaks(next, Pin(Chomp(raw)), w.auth(m.attempts), phase);
    } else if IsStray(m, raw) {
      ScanOne(phase, StraySentinel);
    } else {
      HeaderSpeaks(next, Chomp(raw), w.fd(m.opens), w.answer(m.answers), phase);
    }
  }

  lemma ByteStoredSpeaks(m: Mode, c: char, phase: Option<Phase>)
    requires m.stage == DATA
    ensures Speaks(m, phase, Store(m, [c]))
  {
    if Fits(m, phase) {
      var es := Store(m, [c]).events;
      assert es[0] == Stored(c);
      if |es| == 1 {
        assert es == [es[0]];
        ScanOne(phase, es[0]);
      } else {
        assert es == [es[0], Sent(FileOk)];
        ScanTwo(phase, es[0], es[1]);
        ScanOne(Next(phase.value, es[0]), es[1]);
      }
    }
  }

  lemma StepSpeaks(w: World, m: Mode, i: Input, phase: Option<Phase>)
    ensures Speaks(m, phase, Step(w, m, i))
  {
    if !m.closed {
      match i
      case Byte(c) =>
        if m.stage == DATA {
          ByteStoredSpeaks(m, c, phase);
        } else if c == '\n' {
          LineSpeaks(w, m.(line := ""), m.line, phase);
        }
      case Skip =>
      case Fault(_) => if phase.Some? { ScanOne(phase, Sent(CmdFail)); }
    }
  }

  lemma {:induction false} ReplaySpeaks(w: World, log: seq<Input>)
    ensures Fits(Replay(w, log).mode, Scan(Replay(w, log).trace))
  {
    if log != [] {
      var n := |log| - 1;
      ReplaySpeaks(w, log[..n]);
      var p := Replay(w, log[..n]);
      StepSpeaks(w, p.mode, log[n], Scan(p.trace));
      ScanAppend(Some(Guessing(0)), p.trace, Step(w, p.mode, log[n]).events);
    }
  }

  /** Every run, with any chunking, short writes and write errors, keeps to the grammar,
      and the phase reached is the one its stage names. */
  lemma RunSpeaks(w: World, ws: nat -> int, chunks: seq<string>)
    ensures Fits(Run(w, ws, chunks).Mode(), Scan(Run(w, ws, chunks).parser.trace))
  {
    ReplaySpeaks(w, Run(w, ws, chunks).log);
  }

  // ---- what the grammar means ------------------------------------------

  predicate IsGuess(e: Event) { e.Judged? || e == Sent(AuthFail) || e == Sent(AuthBlocked) }

  function Count<T(==)>(t: seq<T>, e: T): nat {
    if t == [] then 0 else (if t[0] == e then 1 else 0) + Count(t[1..], e)
  }

  /** At most one AUTH_OK, at most three refusals, and only two if AUTH_OK comes. */
  lemma {:induction false} GuessesAreFew(t: seq<Event>, fails: nat)
    requires fails < 3 && ScanFrom(Some(Guessing(fails)), t).Some?
    ensures Count(t, Sent(AuthFail)) + fails <= 3
    ensures Count(t, Sent(AuthOk)) <= 1
    ensures Count(t, Sent(AuthOk)) == 1 ==> Count(t, Sent(AuthFail)) + fails <= 2
  {
    if |t| >= 2 && t[0].Judged? {
      ScanTwoSteps(Guessing(fails), t);
      if t[1] == Sent(AuthOk) {
        NoMoreGuesses(Idle(false, false), t[2..]);
      } else if fails + 1 < 3 {
        GuessesAreFew(t[2..], fails + 1);
      } else {
        NothingWhenOver(t[2..]);
      }
      CountTwo(t, Sent(AuthFail));
      CountTwo(t, Sent(AuthOk));
    } else if |t| >= 1 {
      if !t[0].Judged? { NothingWhenOver(t[1..]); }
      assert t == [t[0]] && t[1..] == [];
    }
  }

  /** Nothing but guesses and refusals comes before AUTH_OK. */
  lemma {:induction false} GuessesFirst(t: seq<Event>, fails: nat, i: nat)
    requires fails < 3 && ScanFrom(Some(Guessing(fails)), t).Some?
    requires i < |t| && !IsGuess(t[i])
    ensures Sent(AuthOk) in t[..i + 1]
  {
    if |t| >= 2 && t[0].Judged? {
      ScanTwoSteps(Guessing(fails), t);
      if t[1] == Sent(AuthOk) {
        assert t[..i + 1][1] == Sent(AuthOk);
      } else if fails + 1 < 3 {
        GuessesFirst(t[2..], fails + 1, i - 2);
        assert t[..i + 1] == t[..2] + t[2..][..i - 1];
      } else {
        NothingWhenOver(t[2..]);
      }
    } else if !t[0].Judged? {
      NothingWhenOver(t[1..]);
    }
  }

  /** A conversation is over exactly after AUTH_BLOCKED or the third refusal. */
  lemma {:induction false} OverAfterRefusal(t: seq<Event>, fails: nat)
    requires fails < 3 && ScanFrom(Some(Guessing(fails)), t).Some?
    ensures ScanFrom(Some(Guessing(fails)), t) == Some(Over) <==>
            t != [] && (t[|t| - 1] == Sent(AuthBlocked) || Count(t, Sent(AuthFail)) + fails == 3)
  {
    if |t| >= 2 && t[0].Judged? {
      ScanTwoSteps(Guessing(fails), t);
      CountTwo(t, Sent(AuthFail));
      if t[1] == Sent(AuthOk) {
        NoMoreGuesses(Idle(false, false), t[2..]);
        NeverOver(Idle(false, false), t[2..]);
      } else if fails + 1 < 3 {
        OverAfterRefusal(t[2..], fails + 1);
      } else {
        NothingWhenOver(t[2..]);
      }
    } else if |t| >= 1 {
      if !t[0].Judged? { NothingWhenOver(t[1..]); }
      assert t == [t[0]] && t[1..] == [];
    }
  }

  lemma {:induction false} NeverOver(phase: Phase, t: seq<Event>)
    requires !phase.Guessing? && !phase.Judging? && !phase.Over? && ScanFrom(Some(phase), t).Some?
    ensures ScanFrom(Some(phase), t) != Some(Over)
    ensures t != [] ==> t[|t| - 1] != Sent(AuthBlocked)
    decreases t
  {
    if t != [] { NeverOver(Next(phase, t[0]).value, t[1..]); }
  }

  /** What every run owes to authentication: nothing but guesses and refusals comes before
      AUTH_OK, and a session the parser closed ended in AUTH_BLOCKED or a third refusal. */
  lemma RunGuesses(w: World, ws: nat -> int, chunks: seq<string>)
    ensures var t := Run(w, ws, chunks).parser.trace;
            && Count(t, Sent(AuthOk)) <= 1
            && Count(t, Sent(AuthFail)) <= 3 - Count(t, Sent(AuthOk))
            && (forall i :: 0 <= i < |t| && !IsGuess(t[i]) ==> Sent(AuthOk) in t[..i + 1])
    ensures var c := Run(w, ws, chunks);
            var t := c.parser.trace;
            c.Mode().closed ==>
              t != [] && (t[|t| - 1] == Sent(AuthBlocked) || Count(t, Sent(AuthFail)) == 3)
  {
    hide Run;
    RunSpeaks(w, ws, chunks);
    var t := Run(w, ws, chunks).parser.trace;
    GuessesAreFew(t, 0);
    OverAfterRefusal(t, 0);
    forall i | 0 <= i < |t| && !IsGuess(t[i]) ensures Sent(AuthOk) in t[..i + 1] {
      GuessesFirst(t, 0, i);
    }
  }

  lemma ScanTwoSteps(phase: Phase, t: seq<Event>)
    requires |t| >= 2 && Next(phase, t[0]).Some?
    ensures ScanFrom(Some(phase), t) == ScanFrom(Next(Next(phase, t[0]).value, t[1]), t[2..])
  {
    assert t[1..][1..] == t[2..];
  }

  lemma CountTwo<T>(t: seq<T>, e: T)
    requires |t| >= 2
    ensures Count(t, e) == (if t[0] == e then 1 else 0) + (if t[1] == e then 1 else 0) + Count(t[2..], e)
  {
    assert t[1..][1..] == t[2..];
  }

  lemma NothingWhenOver(t: seq<Event>)
    requires ScanFrom(Some(Over), t).Some?
    ensures t == []
  {
  }

  lemma {:induction false} NoMoreGuesses(phase: Phase, t: seq<Event>)
    requires !phase.Guessing? && !phase.Judging? && ScanFrom(Some(phase), t).Some?
    ensures Count(t, Sent(AuthFail)) == 0 && Count(t, Sent(AuthOk)) == 0
    decreases t
  {
    if t != [] { NoMoreGuesses(Next(phase, t[0]).value, t[1..]); }
  }

  /** How many stored bytes `t` begins with. */
  function StoredRun(t: seq<Event>): (k: nat)
    ensures k <= |t|
    ensures forall i :: 0 <= i < k ==> t[i].Stored?
    ensures k < |t| ==> !t[k].Stored?
  {
    if t != [] && t[0].Stored? then 1 + StoredRun(t[1..]) else 0
  }

  lemma {:induction false} ReceivingShape(left: nat, t: seq<Event>)
    requires left > 0 && ScanFrom(Some(Receiving(left)), t).Some?
    ensures var k := StoredRun(t);
            || (k == |t| && k <= left)
            || (k < |t| && k == left && t[k] == Sent(FileOk))
            || (k < |t| && k < left && t[k] == Sent(CmdFail))
  {
    if t != [] && t[0].Stored? {
      if left == 1 {
        assert Next(Receiving(left), t[0]) == Some(Full);
        if |t| > 1 { ScanTwoSteps(Receiving(left), t); }
      } else {
        ReceivingShape(left - 1, t[1..]);
      }
    }
  }

  /** Every accepted upload is answered by READY_FOR_FILE, then by its bytes being stored,
      and then exactly by FILE_OK after the declared number of them or by CMD_FAIL before,
      unless the trace ends first. */
  lemma UploadShape(trace: seq<Event>, i: nat)
    requires Scan(trace).Some? && i < |trace| && trace[i].Opened?
    ensures i + 1 < |trace| ==> trace[i + 1] == Sent(ReadyForFile)
    ensures i + 2 <= |trace| ==>
              var t := trace[i + 2..];
              var k := StoredRun(t);
              || (k == |t| && k <= trace[i].size)
              || (k < |t| && k == trace[i].size && t[k] == Sent(FileOk))
              || (k < |t| && k < trace[i].size && t[k] == Sent(CmdFail))
  {
    assert trace == trace[..i] + trace[i..];
    ScanAppend(Some(Guessing(0)), trace[..i], trace[i..]);
    var phase := Scan(trace[..i]);
    assert trace[i..][0] == trace[i];
    assert phase.Some? && Next(phase.value, trace[i]).Some?;
    if i + 1 < |trace| {
      ScanTwoSteps(phase.value, trace[i..]);
      assert trace[i..][1] == trace[i + 1] && trace[i..][2..] == trace[i + 2..];
      ReceivingShape(trace[i].size, trace[i + 2..]);
    }
  }

  // ---- received files --------------------------------------------------

  datatype Upload = Upload(name: string, size: nat, bytes: string, done: bool)

  /** The uploads a trace records, oldest first. What stands on disk under a name that was
      uploaded twice is the last of them, since a file is truncated when it is opened. */
  function Uploads(trace: seq<Event>): seq<Upload> {
    if trace == [] then [] else Write(Uploads(trace[..|trace| - 1]), trace[|trace| - 1])
  }

  function Write(us: seq<Upload>, e: Event): seq<Upload> {
    var n := |us| - 1;
    match e
    case Opened(name, size) => us + [Upload(name, size, "", false)]
    case Stored(c) => if n < 0 then us else us[n := us[n].(bytes := us[n].bytes + [c])]
    case Sent(FileOk) => if n < 0 then us else us[n := us[n].(done := true)]
    case _ => us
  }

  /** Where in the stream each upload's payload begins. */
  function Starts(w: World, log: seq<Input>): seq<nat> {
    if log == [] then []
    else
      var n := |log| - 1;
      var before, after := Replay(w, log[..n]).mode, Replay(w, log).mode;
      Starts(w, log[..n]) +
      if before.stage != DATA && after.stage == DATA then [|Expand(log)|] else []
  }

  /** Every upload holds the stream bytes that follow its header's newline, and a finished
      one exactly as many as were declared. */
  ghost predicate Faithful(us: seq<Upload>, starts: seq<nat>, stream: string) {
    && |us| == |starts|
    && forall k :: 0 <= k < |us| ==> Slice(us[k], starts[k], stream)
  }

  ghost predicate Slice(u: Upload, start: nat, stream: string) {
    && 0 < start && start + |u.bytes| <= |stream|
    && stream[start - 1] == '\n'
    && u.bytes == stream[start..start + |u.bytes|]
    && (u.done ==> |u.bytes| == u.size)
  }

  /** The upload in progress is the last one and ends where the stream does. */
  ghost predicate InProgress(m: Mode, us: seq<Upload>, starts: seq<nat>, stream: string) {
    m.stage == DATA ==>
      && us != [] && |us| == |starts|
      && us[|us| - 1].size == m.expected && |us[|us| - 1].bytes| == m.received
      && !us[|us| - 1].done
      && starts[|us| - 1] + m.received == |stream|
  }

  lemma {:induction false} UploadsAppend(a: seq<Event>, b: seq<Event>)
    requires |b| <= 2
    ensures Uploads(a + b) == WriteAll(Uploads(a), b)
  {
    if |b| == 0 {
      assert a + b == a;
    } else if |b| == 1 {
      assert (a + b)[..|a|] == a;
    } else {
      UploadsAppend(a, b[..1]);
      assert (a + b)[..|a| + 1] == a + b[..1];
    }
  }

  predicate NoFile(e: Event) { !e.Opened? && !e.Stored? && e != Sent(FileOk) }

  /** The events of a handled line: none about files, or a file being created. */
  predicate LineEvents(m: Mode, r: Reaction) {
    && |r.events| <= 2
    && (r.mode.stage != DATA ==> forall e :: e in r.events ==> NoFile(e))
    && (r.mode.stage == DATA ==>
          r.mode.received == 0 &&
          |r.events| == 2 && r.events[0].Opened? && r.events[0].size == r.mode.expected &&
          r.events[1] == Sent(ReadyForFile))
  }

  lemma LineWrites(w: World, m: Mode, raw: string)
    requires m.stage != DATA
    ensures LineEvents(m, HandleLine(w, m, raw))
  {
    var next := m.(afterFile := false);
    if m.stage == AUTH {
      AuthWrites(next, Pin(Chomp(raw)), w.auth(m.attempts));
    } else {
      HeaderWrites(next, Chomp(raw), w.fd(m.opens), w.answer(m.answers));
    }
  }

  lemma AuthWrites(m: Mode, pin: string, v: Verdict)
    requires m.stage == AUTH
    ensures LineEvents(m, HandleAuth(m, pin, v))
  {
  }

  lemma HeaderWrites(m: Mode, line: string, fd: int, text: string)
    requires m.stage == HEADER
    ensures LineEvents(m, HandleHeader(m, line, fd, text))
  {
    if |line| >= 4 && line[..4] == "CMD:" {
      CommandWrites(m, TrimFront(line[4..], {' '}), text);
    } else if |line| >= 11 && line[..11] == "FILE_START:" {
      FileStartWrites(m, line, fd);
    }
  }

  lemma CommandWrites(m: Mode, cmd: string, text: string)
    requires m.stage == HEADER
    ensures LineEvents(m, HandleCommand(m, cmd, text))
  {
  }

  lemma FileStartWrites(m: Mode, line: string, fd: int)
    requires m.stage != DATA
    ensures LineEvents(m, HandleFileStart(m, line, fd))
  {
    var colon := LastIndexOf(line, ':');
    if colon > 11 {
      var named := m.(name := Flatten(line[11..colon]));
      var size := Stoull(line[colon + 1..]);
      if size.Some? { FileSizeWrites(named, size.value, fd); }
    }
  }

  lemma FileSizeWrites(m: Mode, size: nat, fd: int)
    requires m.stage != DATA
    ensures LineEvents(m, HandleFileSize(m, size, fd))
  {
  }

  /** More of the stream leaves a slice of it what it was. */
  lemma FaithfulLonger(us: seq<Upload>, starts: seq<nat>, stream: string, more: string)
    requires Faithful(us, starts, stream)
    ensures Faithful(us, starts, stream + more)
  {
    forall k | 0 <= k < |us| ensures Slice(us[k], starts[k], stream + more) {
      assert Slice(us[k], starts[k], stream);
    }
  }

  lemma ByteKept(m: Mode, us: seq<Upload>, starts: seq<nat>, stream: string, c: char)
    requires Counting(m) && m.stage == DATA
    requires Faithful(us, starts, stream) && InProgress(m, us, starts, stream)
    ensures Faithful(Write(us, Stored(c)), starts, stream + [c])
    ensures m.received + 1 < m.expected ==>
              InProgress(m.(received := m.received + 1), Write(us, Stored(c)), starts, stream + [c])
    ensures m.received + 1 == m.expected ==>
              Faithful(Write(Write(us, Stored(c)), Sent(FileOk)), starts, stream + [c])
  {
    hide Slice;
    FaithfulLonger(us, starts, stream, [c]);
    var n := |us| - 1;
    assert Slice(us[n], starts[n], stream);
    ByteSlice(us[n], starts[n], stream, c);
    var u := us[n].(bytes := us[n].bytes + [c]);
    LastReplaced(us, starts, stream + [c], u);
    if m.received + 1 == m.expected {
      LastReplaced(Write(us, Stored(c)), starts, stream + [c], u.(done := true));
    }
  }

  lemma ByteSlice(u: Upload, start: nat, stream: string, c: char)
    requires Slice(u, start, stream) && !u.done && start + |u.bytes| == |stream|
    ensures Slice(u.(bytes := u.bytes + [c]), start, stream + [c])
    ensures |u.bytes| + 1 == u.size ==> Slice(u.(bytes := u.bytes + [c], done := true), start, stream + [c])
  {
  }

  lemma LastReplaced(us: seq<Upload>, starts: seq<nat>, stream: string, u: Upload)
    requires Faithful(us, starts, stream) && us != []
    requires Slice(u, starts[|us| - 1], stream)
    ensures Faithful(us[|us| - 1 := u], starts, stream)
  {
    var after := us[|us| - 1 := u];
    forall k | 0 <= k < |after| ensures Slice(after[k], starts[k], stream) {
      if k < |us| - 1 { assert Slice(us[k], starts[k], stream); }
    }
  }

  /** The uploads after at most two more events. */
  function WriteAll(us: seq<Upload>, es: seq<Event>): seq<Upload>
    requires |es| <= 2
  {
    if |es| == 0 then us else if |es| == 1 then Write(us, es[0]) else Write(Write(us, es[0]), es[1])
  }

  lemma LineKept(m: Mode, r: Reaction, us: seq<Upload>, starts: seq<nat>, stream: string)
    requires m.stage != DATA && LineEvents(m, r)
    requires Faithful(us, starts, stream) && stream != "" && stream[|stream| - 1] == '\n'
    ensures var starts' := starts + if r.mode.stage == DATA then [|stream|] else [];
            && Faithful(WriteAll(us, r.events), starts', stream)
            && InProgress(r.mode, WriteAll(us, r.events), starts', stream)
  {
    if r.mode.stage == DATA {
      var u := Upload(r.events[0].name, r.mode.expected, "", false);
      assert WriteAll(us, r.events) == us + [u];
      assert Slice(u, |stream|, stream);
    } else {
      assert forall k :: 0 <= k < |r.events| ==> NoFile(r.events[k]);
      assert WriteAll(us, r.events) == us;
      assert starts + [] == starts;
    }
  }

  lemma StepKept(w: World, m: Mode, i: Input, us: seq<Upload>, starts: seq<nat>, stream: string)
    requires Counting(m)
    requires Faithful(us, starts, stream) && InProgress(m, us, starts, stream)
    requires |Step(w, m, i).events| <= 2
    requires i == Skip ==> m.stage != DATA
    ensures var r := Step(w, m, i);
            var starts' := starts + if m.stage != DATA && r.mode.stage == DATA
                                    then [|stream + Raw(i)|] else [];
            && Faithful(WriteAll(us, r.events), starts', stream + Raw(i))
            && InProgress(r.mode, WriteAll(us, r.events), starts', stream + Raw(i))
  {
    FaithfulLonger(us, starts, stream, Raw(i));
    assert starts + [] == starts;
    if m.closed {
    } else if i.Byte? && m.stage == DATA {
      ByteKept(m, us, starts, stream, i.c);
    } else if i.Byte? && i.c == '\n' {
      LineWrites(w, m.(line := ""), m.line);
      LineKept(m.(line := ""), Step(w, m, i), us, starts, stream + Raw(i));
    }
  }

  lemma StepEvents(w: World, m: Mode, i: Input)
    ensures |Step(w, m, i).events| <= 2
  {
    if !m.closed && i.Byte? && m.stage != DATA && i.c == '\n' {
      LineWrites(w, m.(line := ""), m.line);
    }
  }

  lemma {:induction false} ReplayKeepsFiles(w: World, log: seq<Input>)
    requires InputsFit(w, log)
    ensures Faithful(Uploads(Replay(w, log).trace), Starts(w, log), Expand(log))
    ensures InProgress(Replay(w, log).mode, Uploads(Replay(w, log).trace), Starts(w, log), Expand(log))
  {
    if log != [] {
      var n := |log| - 1;
      InputsFitPrefix(w, log);
      ReplayKeepsFiles(w, log[..n]);
      var p := Replay(w, log[..n]);
      ReplaySpeaks(w, log[..n]);
      StepEvents(w, p.mode, log[n]);
      UploadsAppend(p.trace, Step(w, p.mode, log[n]).events);
      StepKept(w, p.mode, log[n], Uploads(p.trace), Starts(w, log[..n]), Expand(log[..n]));
    }
  }

  /** Over every run, whatever the chunks, short writes and write errors: each received
      file holds consecutive bytes of the stream from just after its header's newline, as
      many as were declared if it was acknowledged, and the file being received holds
      every byte consumed since its header. */
  lemma FilesAreStreamSlices(w: World, ws: nat -> int, chunks: seq<string>)
    ensures var c := Run(w, ws, chunks);
            && Faithful(Uploads(c.parser.trace), Starts(w, c.log), Concat(chunks))
            && InProgress(c.Mode(), Uploads(c.parser.trace), Starts(w, c.log), Concat(chunks)[..c.pos])
  {
    SoundFiles(w, Run(w, ws, chunks));
  }

  lemma SoundFiles(w: World, c: Conn)
    requires Sound(w, c)
    ensures Faithful(Uploads(c.parser.trace), Starts(w, c.log), c.stream)
    ensures InProgress(c.Mode(), Uploads(c.parser.trace), Starts(w, c.log), c.stream[..c.pos])
  {
    ReplayKeepsFiles(w, c.log);
    FaithfulLonger(Uploads(c.parser.trace), Starts(w, c.log), c.stream[..c.pos], c.stream[c.pos..]);
    assert c.stream == c.stream[..c.pos] + c.stream[c.pos..];
  }

  // ---- no byte is stored twice -----------------------------------------

  /** The bytes of each upload end before the next header's newline. */
  ghost predicate Disjoint(us: seq<Upload>, starts: seq<nat>)
    requires |us| == |starts|
  {
    forall j, k :: 0 <= j < k < |us| ==> starts[j] + |us[j].bytes| < starts[k]
  }

  /** Only the last upload ever changes. */
  lemma WriteKeepsDisjoint(us: seq<Upload>, starts: seq<nat>, e: Event)
    requires |us| == |starts| && Disjoint(us, starts) && !e.Opened?
    ensures |Write(us, e)| == |starts| && Disjoint(Write(us, e), starts)
  {
  }

  lemma OpenedBehind(us: seq<Upload>, starts: seq<nat>, stream: string, e: Event)
    requires Faithful(us, starts, stream) && Disjoint(us, starts) && e.Opened?
    ensures Disjoint(Write(us, e), starts + [|stream| + 1])
  {
    forall j | 0 <= j < |us| ensures starts[j] + |us[j].bytes| <= |stream| {
      assert Slice(us[j], starts[j], stream);
    }
  }

  lemma StepDisjoint(w: World, m: Mode, i: Input, us: seq<Upload>, starts: seq<nat>, stream: string)
    requires |Step(w, m, i).events| <= 2
    requires Faithful(us, starts, stream) && Disjoint(us, starts)
    ensures var r := Step(w, m, i);
            var us' := WriteAll(us, r.events);
            var starts' := starts + if m.stage != DATA && r.mode.stage == DATA
                                    then [|stream + Raw(i)|] else [];
            |us'| == |starts'| && Disjoint(us', starts')
  {
    hide HandleLine, Slice, Disjoint, Write;
    var es := Step(w, m, i).events;
    assert starts + [] == starts;
    if !m.closed && i.Byte? && m.stage != DATA && i.c == '\n' {
      LineWrites(w, m.(line := ""), m.line);
      LineDisjoint(m, Step(w, m, i), us, starts, stream);
    } else {
      assert forall k :: 0 <= k < |es| ==> !es[k].Opened?;
      NothingOpened(us, starts, es);
    }
  }

  lemma NothingOpened(us: seq<Upload>, starts: seq<nat>, es: seq<Event>)
    requires |us| == |starts| && Disjoint(us, starts) && |es| <= 2
    requires forall k :: 0 <= k < |es| ==> !es[k].Opened?
    ensures |WriteAll(us, es)| == |starts| && Disjoint(WriteAll(us, es), starts)
  {
    hide Disjoint, Write;
    if |es| > 0 { WriteKeepsDisjoint(us, starts, es[0]); }
    if |es| > 1 { WriteKeepsDisjoint(Write(us, es[0]), starts, es[1]); }
  }

  lemma LineDisjoint(m: Mode, r: Reaction, us: seq<Upload>, starts: seq<nat>, stream: string)
    requires m.stage != DATA && LineEvents(m, r)
    requires Faithful(us, starts, stream) && Disjoint(us, starts)
    ensures var us' := WriteAll(us, r.events);
            var starts' := starts + if r.mode.stage == DATA then [|stream| + 1] else [];
            |us'| == |starts'| && Disjoint(us', starts')
  {
    if r.mode.stage == DATA {
      OpenedBehind(us, starts, stream, r.events[0]);
    } else {
      forall k | 0 <= k < |r.events| ensures !r.events[k].Opened? {
        assert NoFile(r.events[k]);
      }
      NothingOpened(us, starts, r.events);
      assert starts + [] == starts;
    }
  }

  lemma {:induction false} ReplayDisjoint(w: World, log: seq<Input>)
    requires InputsFit(w, log)
    ensures |Uploads(Replay(w, log).trace)| == |Starts(w, log)|
    ensures Disjoint(Uploads(Replay(w, log).trace), Starts(w, log))
  {
    hide InputsFit, Faithful, Disjoint, Step, Uploads, InPlace;
    if log == [] {
      NothingStored();
    } else {
      var n := |log| - 1;
      InputsFitPrefix(w, log);
      ReplayDisjoint(w, log[..n]);
      ReplayKeepsFiles(w, log[..n]);
      var p := Replay(w, log[..n]);
      StepEvents(w, p.mode, log[n]);
      UploadsAppend(p.trace, Step(w, p.mode, log[n]).events);
      StepDisjoint(w, p.mode, log[n], Uploads(p.trace), Starts(w, log[..n]), Expand(log[..n]));
    }
  }

  lemma NothingStored()
    ensures Uploads([]) == [] && Disjoint([], [])
  {
  }

  /** Over every run, failed transfers included, no byte of the stream is stored twice: an
      upload's bytes end before the newline of the next upload's header. */
  lemma UploadsAreDisjoint(w: World, ws: nat -> int, chunks: seq<string>)
    ensures var c := Run(w, ws, chunks);
            |Uploads(c.parser.trace)| == |Starts(w, c.log)| && Disjoint(Uploads(c.parser.trace), Starts(w, c.log))
  {
    ReplayDisjoint(w, Run(w, ws, chunks).log);
  }
}
