/** The wire protocol of one connection as a parser that reads one byte at a time.

    It knows nothing of buffers, reads, short writes or calls, so it is the reference
    against which the daemon's buffered session is judged. */
module Protocol {
  import opened Text

  const AUTH_ATTEMPTS_PER_CONNECTION := 3
  const MAX_RECEIVE_FILE_BYTES := 0x8000_0000

  datatype Stage = AUTH | HEADER | DATA

  /** What the authentication state says about one PIN line. */
  datatype Verdict = Blocked | Accepted | Refused

  datatype Reply =
    | AuthBlocked | AuthOk | AuthFail
    | CmdFail | UnknownRequest | ReadyForFile | FileOk

  function Render(r: Reply): string {
    match r
    case AuthBlocked => "AUTH_BLOCKED\n"
    case AuthOk => "AUTH_OK\n"
    case AuthFail => "AUTH_FAIL\n"
    case CmdFail => "CMD_FAIL\n"
    case UnknownRequest => "UNKNOWN_REQUEST\n"
    case ReadyForFile => "READY_FOR_FILE\n"
    case FileOk => "FILE_OK\n"
  }

  /** No two replies read alike, and each is one line. */
  lemma RepliesAreLines(a: Reply, b: Reply)
    ensures Render(a) == Render(b) ==> a == b
    ensures var s := Render(a); s[|s| - 1] == '\n' && '\n' !in s[..|s| - 1]
  {
    var s, t := Render(a), Render(b);
    if s == t {
      assert |s| == |t| && s[0] == t[0] && s[5] == t[5];
    }
  }

  /** One observable step of a connection. */
  datatype Event =
    | Judged(pin: string)                   // a PIN was compared with the window
    | Sent(reply: Reply)
    | StraySentinel                         // UNKNOWN_REQUEST sent for a late FILE_END line
    | Dispatched(cmd: string)
    | Answered(text: string)                // the dispatcher's non-empty answer
    | Listed(text: string)                  // the listing of pushable files
    | Pushed(name: string, wire: string)    // everything `pushFile` sent
    | Opened(name: string, size: nat)       // a received file was created
    | Stored(c: char)                       // one byte was written to it

  /** The answers of the outside world, each indexed by how often it was asked. */
  datatype World = World(
    auth: nat -> Verdict,
    fd: nat -> int,         // what open() returned
    answer: nat -> string   // what the dispatcher, the listing or a push produced
  )

  /** Everything about a connection that decides what it does next. */
  datatype Mode = Mode(
    stage: Stage,
    line: string,       // the unfinished line, without its newline
    attempts: nat,      // wrong PINs so far
    closed: bool,
    afterFile: bool,    // a file was completed and no line has been read since
    name: string,
    expected: nat,
    received: nat,
    opens: nat,
    answers: nat
  )

  datatype Reaction = Reaction(mode: Mode, events: seq<Event>)

  datatype Parser = Parser(mode: Mode, trace: seq<Event>) {
    function After(r: Reaction): Parser { Parser(r.mode, trace + r.events) }
  }

  const START := Parser(Mode(AUTH, "", 0, false, false, "", 0, 0, 0, 0), [])

  const SENTINEL: string := "FILE_END\n"

  /** While a file is being received, the bytes still missing are a positive number, so
      the unsigned difference of the two counters never wraps. */
  predicate Counting(m: Mode) {
    m.stage == DATA ==> !m.closed && m.received < m.expected <= MAX_RECEIVE_FILE_BYTES
  }

  // ---- lines -----------------------------------------------------------

  /** A line loses one carriage return before it is handled. */
  function Chomp(raw: string): string {
    if raw != "" && raw[|raw| - 1] == '\r' then raw[..|raw| - 1] else raw
  }

  const PIN_TAIL: set<char> := {' ', '\t', '\r'}
  const PIN_HEAD: set<char> := {' ', '\t'}

  function StripAuthPrefix(line: string): string {
    if |line| > 5 && line[..5] == "AUTH:" then line[5..] else line
  }

  /** The PIN a line presents. */
  function Pin(line: string): string {
    TrimFront(TrimBack(StripAuthPrefix(line), PIN_TAIL), PIN_HEAD)
  }

  /** The verdict `v` about `pin` is in. */
  function HandleAuth(m: Mode, pin: string, v: Verdict): (r: Reaction)
    ensures Spoken(m, r)
  {
    match v
    case Blocked => Reaction(m.(closed := true), [Sent(AuthBlocked)])
    case Accepted => Reaction(m.(stage := HEADER), [Judged(pin), Sent(AuthOk)])
    case Refused =>
      Reaction(m.(attempts := m.attempts + 1,
                  closed := m.attempts + 1 >= AUTH_ATTEMPTS_PER_CONNECTION),
               [Judged(pin), Sent(AuthFail)])
  }

  /** A command, for which the outside produces `text`. */
  function HandleCommand(m: Mode, cmd: string, text: string): (r: Reaction)
    ensures Spoken(m, r)
  {
    var asked := m.(answers := m.answers + 1);
    if cmd == "push_file_list" then Reaction(asked, [Listed(text)])
    else if |cmd| > 10 && cmd[..10] == "push_file:" then Reaction(asked, [Pushed(cmd[10..], text)])
    else if text == "" then Reaction(asked, [Dispatched(cmd)])
    else Reaction(asked, [Dispatched(cmd), Answered(text)])
  }

  /** `FILE_START:<name>:<size>`, split at the last colon because names may hold colons;
      opening the file, if it comes to that, returns `fd`. */
  function HandleFileStart(m: Mode, line: string, fd: int): (r: Reaction)
    ensures Spoken(m, r)
  {
    var colon := LastIndexOf(line, ':');
    if colon <= 11 then Reaction(m, [Sent(CmdFail)])
    else
      var named := m.(name := Flatten(line[11..colon]));
      match Stoull(line[colon + 1..])
      case None => Reaction(named, [Sent(CmdFail)])
      case Some(size) => HandleFileSize(named, size, fd)
  }

  function HandleFileSize(m: Mode, size: nat, fd: int): (r: Reaction)
    ensures Spoken(m, r)
  {
    var sized := m.(expected := size);
    if size == 0 || size > MAX_RECEIVE_FILE_BYTES then Reaction(sized, [Sent(CmdFail)])
    else OnOpen(sized, fd)
  }

  /** The announced file could be created, or not. */
  function OnOpen(m: Mode, fd: int): (r: Reaction)
    requires 0 < m.expected <= MAX_RECEIVE_FILE_BYTES
    ensures Spoken(m, r)
  {
    var asked := m.(opens := m.opens + 1);
    if fd < 0 then Reaction(asked, [Sent(CmdFail)])
    else Reaction(asked.(received := 0, stage := DATA), [Opened(m.name, m.expected), Sent(ReadyForFile)])
  }

  function HandleHeader(m: Mode, line: string, fd: int, text: string): (r: Reaction)
    ensures Spoken(m, r)
  {
    if |line| >= 4 && line[..4] == "CMD:" then HandleCommand(m, TrimFront(line[4..], {' '}), text)
    else if |line| >= 11 && line[..11] == "FILE_START:" then HandleFileStart(m, line, fd)
    else Reaction(m, [Sent(UnknownRequest)])
  }

  /** Handling a line always has an observable effect, leaves the unfinished line alone,
      never returns to authentication, and opens a file only with an admissible size. */
  predicate Spoken(m: Mode, r: Reaction) {
    && r.events != []
    && StraySentinel !in r.events
    && r.mode.line == m.line
    && (m.stage != AUTH ==> r.mode.stage != AUTH)
    && (m.stage != DATA && !m.closed ==> Counting(r.mode))
  }

  /** Is this line the legacy end marker of the file that was just completed? */
  predicate IsStray(m: Mode, raw: string) {
    m.stage != AUTH && m.afterFile && raw == "FILE_END"
  }

  /** A whole line `raw`, newline removed, has arrived. */
  function HandleLine(w: World, m: Mode, raw: string): (r: Reaction)
    requires m.stage != DATA
    ensures r.mode.line == m.line && (m.stage != AUTH ==> r.mode.stage != AUTH)
    ensures !m.closed ==> Counting(r.mode)
    ensures !IsStray(m, raw) ==> r.events != [] && StraySentinel !in r.events
  {
    var next := m.(afterFile := false);
    if m.stage == AUTH then HandleAuth(next, Pin(Chomp(raw)), w.auth(m.attempts))
    else if IsStray(m, raw) then Reaction(next, [StraySentinel])
    else HandleHeader(next, Chomp(raw), w.fd(m.opens), w.answer(m.answers))
  }

  // ---- bytes -----------------------------------------------------------

  function StoredAll(s: string): (es: seq<Event>)
    ensures |es| == |s|
    ensures forall i :: 0 <= i < |s| ==> es[i] == Stored(s[i])
  {
    seq(|s|, i requires 0 <= i < |s| => Stored(s[i]))
  }

  /** Some payload bytes were written; the file may now be complete. */
  function Store(m: Mode, s: string): Reaction
    requires m.stage == DATA
  {
    var more := m.(received := m.received + |s|);
    if more.received >= more.expected
    then Reaction(more.(received := 0, stage := HEADER, afterFile := true), StoredAll(s) + [Sent(FileOk)])
    else Reaction(more, StoredAll(s))
  }

  /** What a connection reads: a byte, a dropped end marker, or the loss of everything
      buffered after a failed write to disk. */
  datatype Input = Byte(c: char) | Skip | Fault(lost: string)

  function OnSkip(m: Mode): Reaction { Reaction(m.(afterFile := false), []) }

  function OnFault(m: Mode): Reaction { Reaction(m.(stage := HEADER), [Sent(CmdFail)]) }

  function Step(w: World, m: Mode, i: Input): Reaction {
    if m.closed then Reaction(m, [])
    else match i
      case Byte(c) =>
        if m.stage == DATA then Store(m, [c])
        else if c == '\n' then HandleLine(w, m.(line := ""), m.line)
        else Reaction(m.(line := m.line + [c]), [])
      case Skip => OnSkip(m)
      case Fault(_) => if m.stage == DATA then OnFault(m) else Reaction(m, [])
  }

  function Feed(w: World, p: Parser, i: Input): Parser { p.After(Step(w, p.mode, i)) }

  function Replay(w: World, log: seq<Input>): Parser {
    if log == [] then START else Feed(w, Replay(w, log[..|log| - 1]), log[|log| - 1])
  }

  function FeedAll(w: World, p: Parser, log: seq<Input>): Parser {
    if log == [] then p else Feed(w, FeedAll(w, p, log[..|log| - 1]), log[|log| - 1])
  }

  function Bytes(s: string): (log: seq<Input>)
    ensures |log| == |s|
    ensures forall i :: 0 <= i < |s| ==> log[i] == Byte(s[i])
  {
    seq(|s|, i requires 0 <= i < |s| => Byte(s[i]))
  }

  /** The stream bytes an input stands for. */
  function Raw(i: Input): string {
    match i
    case Byte(c) => [c]
    case Skip => SENTINEL
    case Fault(lost) => lost
  }

  function Expand(log: seq<Input>): string {
    if log == [] then "" else Expand(log[..|log| - 1]) + Raw(log[|log| - 1])
  }

  /** The reference: the parser's state after reading the whole of `s` in one pass. */
  function Reference(w: World, s: string): Parser { Replay(w, Bytes(s)) }

  /** What an event puts on the wire, as one response. */
  function Texts(e: Event): seq<string> {
    match e
    case Sent(reply) => [Render(reply)]
    case StraySentinel => [Render(UnknownRequest)]
    case Answered(text) => [text]
    case Listed(text) => [text]
    case Pushed(_, wire) => [wire]
    case _ => []
  }

  // ---- elementary facts about runs of the parser -----------------------

  lemma {:induction false} FeedAllAppend(w: World, p: Parser, a: seq<Input>, b: seq<Input>)
    ensures FeedAll(w, p, a + b) == FeedAll(w, FeedAll(w, p, a), b)
  {
    if b == [] {
      assert a + b == a;
    } else {
      var n := |b| - 1;
      assert (a + b)[..|a + b| - 1] == a + b[..n];
      FeedAllAppend(w, p, a, b[..n]);
    }
  }

  lemma {:induction false} ReplayIsFeedAll(w: World, log: seq<Input>)
    ensures Replay(w, log) == FeedAll(w, START, log)
  {
    if log != [] { ReplayIsFeedAll(w, log[..|log| - 1]); }
  }

  lemma ReplayAppend(w: World, a: seq<Input>, b: seq<Input>)
    ensures Replay(w, a + b) == FeedAll(w, Replay(w, a), b)
  {
    ReplayIsFeedAll(w, a + b);
    ReplayIsFeedAll(w, a);
    FeedAllAppend(w, START, a, b);
  }

  lemma {:induction false} ExpandAppend(a: seq<Input>, b: seq<Input>)
    ensures Expand(a + b) == Expand(a) + Expand(b)
  {
    if b == [] {
      assert a + b == a;
    } else {
      var n := |b| - 1;
      assert (a + b)[..|a + b| - 1] == a + b[..n];
      ExpandAppend(a, b[..n]);
    }
  }

  lemma {:induction false} ExpandBytes(s: string)
    ensures Expand(Bytes(s)) == s
  {
    if s != "" {
      var n := |s| - 1;
      assert Bytes(s)[..n] == Bytes(s[..n]);
      ExpandBytes(s[..n]);
    }
  }

  lemma BytesAppend(a: string, b: string)
    ensures Bytes(a + b) == Bytes(a) + Bytes(b)
  {
  }

  lemma FeedOneMore(w: World, p: Parser, s: string, c: char)
    ensures FeedAll(w, p, Bytes(s + [c])) == Feed(w, FeedAll(w, p, Bytes(s)), Byte(c))
  {
    var log := Bytes(s + [c]);
    assert log[..|log| - 1] == Bytes(s);
  }

  /** Bytes that complete no line only lengthen the unfinished one. */
  lemma {:induction false} FeedPartialLine(w: World, p: Parser, s: string)
    requires !p.mode.closed && p.mode.stage != DATA && '\n' !in s
    ensures FeedAll(w, p, Bytes(s)) == p.(mode := p.mode.(line := p.mode.line + s))
  {
    if s == "" {
      assert p.mode.line + s == p.mode.line;
    } else {
      var n := |s| - 1;
      assert s[..n] + [s[n]] == s;
      FeedOneMore(w, p, s[..n], s[n]);
      FeedPartialLine(w, p, s[..n]);
      assert p.mode.line + s == p.mode.line + s[..n] + [s[n]];
      assert p.trace + [] == p.trace;
    }
  }

  lemma FeedLine(w: World, p: Parser, raw: string)
    requires !p.mode.closed && p.mode.stage != DATA && '\n' !in raw && p.mode.line == ""
    ensures FeedAll(w, p, Bytes(raw + "\n")) == p.After(HandleLine(w, p.mode, raw))
  {
    FeedOneMore(w, p, raw, '\n');
    FeedPartialLine(w, p, raw);
    assert p.mode.line + raw == raw;
    assert p.mode.(line := raw).(line := "") == p.mode;
  }

  lemma StoreOneMore(p: Parser, s: string, c: char)
    requires p.mode.stage == DATA && p.mode.received + |s| < p.mode.expected
    ensures p.After(Store(p.mode, s)).After(Store(Store(p.mode, s).mode, [c])) == p.After(Store(p.mode, s + [c]))
  {
    assert StoredAll(s + [c]) == StoredAll(s) + StoredAll([c]);
    var tail := Store(Store(p.mode, s).mode, [c]).events;
    assert p.trace + (StoredAll(s) + tail) == p.trace + StoredAll(s) + tail;
  }

  lemma StoreNothing(p: Parser)
    requires p.mode.stage == DATA && p.mode.received < p.mode.expected
    ensures p.After(Store(p.mode, "")) == p
  {
    assert StoredAll("") == [];
    assert p.trace + [] == p.trace;
  }

  /** Writing payload bytes in one piece or one at a time is the same. */
  lemma {:induction false} FeedPayload(w: World, p: Parser, s: string)
    requires !p.mode.closed && p.mode.stage == DATA && p.mode.received < p.mode.expected
    requires |s| <= p.mode.expected - p.mode.received
    ensures FeedAll(w, p, Bytes(s)) == p.After(Store(p.mode, s))
  {
    if s == "" {
      StoreNothing(p);
    } else {
      var n := |s| - 1;
      assert s[..n] + [s[n]] == s;
      FeedOneMore(w, p, s[..n], s[n]);
      FeedPayload(w, p, s[..n]);
      StoreOneMore(p, s[..n], s[n]);
    }
  }

  /** A parser never takes an event back. */
  lemma {:induction false} FeedAllExtends(w: World, p: Parser, log: seq<Input>)
    ensures p.trace <= FeedAll(w, p, log).trace
  {
    if log != [] {
      FeedAllExtends(w, p, log[..|log| - 1]);
    }
  }

  /** The reference trace grows with the stream. */
  lemma ReferenceGrows(w: World, a: string, b: string)
    ensures Reference(w, a).trace <= Reference(w, a + b).trace
  {
    BytesAppend(a, b);
    ReplayAppend(w, Bytes(a), Bytes(b));
    FeedAllExtends(w, Reference(w, a), Bytes(b));
  }
}
