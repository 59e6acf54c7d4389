/** What a client writes and what the daemon reads back: upload headers and PIN lines. */
module Framing {
  import opened Text
  import opened Protocol

  // ---- FILE_START ------------------------------------------------------

  /** The header line, without its newline, that announces an upload. */
  function FileStart(name: string, size: nat): string {
    "FILE_START:" + name + ":" + Print(size)
  }

  lemma FileStartSplits(name: string, size: nat)
    ensures var line := FileStart(name, size);
            var colon := 11 + |name|;
            && |line| > colon && line[..11] == "FILE_START:"
            && LastIndexOf(line, ':') == colon
            && line[11..colon] == name && line[colon + 1..] == Print(size)
  {
    SignedStartSplits(name, "", Print(size));
    assert FileStart(name, size) == SignedStart(name, "", Print(size));
    assert "" + Print(size) == Print(size);
  }

  /** Announcing any name, colons included, with any admissible size opens a file with the
      flattened name of the same length and exactly that size. */
  lemma FileStartRoundTrip(m: Mode, name: string, size: nat, fd: int, text: string)
    requires name != "" && 1 <= size <= MAX_RECEIVE_FILE_BYTES && fd >= 0
    ensures HandleHeader(m, FileStart(name, size), fd, text) ==
            Reaction(m.(name := Flatten(name), expected := size, received := 0,
                        opens := m.opens + 1, stage := DATA),
                     [Opened(Flatten(name), size), Sent(ReadyForFile)])
  {
    HeaderIsFileStart(m, FileStart(name, size), fd, text);
    FileStartOpens(m, name, size, fd);
    FileSizeOpens(m.(name := Flatten(name)), size, fd);
  }

  lemma FileSizeOpens(m: Mode, size: nat, fd: int)
    requires 1 <= size <= MAX_RECEIVE_FILE_BYTES && fd >= 0
    ensures HandleFileSize(m, size, fd) ==
            Reaction(m.(expected := size, received := 0, opens := m.opens + 1, stage := DATA),
                     [Opened(m.name, size), Sent(ReadyForFile)])
  {
  }

  lemma HeaderIsFileStart(m: Mode, line: string, fd: int, text: string)
    requires |line| >= 11 && line[..11] == "FILE_START:"
    ensures HandleHeader(m, line, fd, text) == HandleFileStart(m, line, fd)
  {
    assert line[..4] == line[..11][..4] == "FILE";
    assert line[..4][0] == 'F';
    assert "CMD:"[0] == 'C';
  }

  /** A header that splits into a name and a readable size is handled as that size. */
  lemma FileStartReads(m: Mode, line: string, name: string, size: nat, fd: int)
    requires name != "" && |line| > 11 + |name| && LastIndexOf(line, ':') == 11 + |name|
    requires line[11..11 + |name|] == name && Stoull(line[12 + |name|..]) == Some(size)
    ensures HandleFileStart(m, line, fd) == HandleFileSize(m.(name := Flatten(name)), size, fd)
  {
    hide HandleFileSize, Stoull, LastIndexOf, Flatten;
  }

  lemma FileStartOpens(m: Mode, name: string, size: nat, fd: int)
    requires name != "" && size < ULLONG_RANGE
    ensures HandleFileStart(m, FileStart(name, size), fd)
            == HandleFileSize(m.(name := Flatten(name)), size, fd)
  {
    hide HandleFileStart, Stoull;
    FileStartSplits(name, size);
    StoullOfPrint(size);
    FileStartReads(m, FileStart(name, size), name, size, fd);
  }

  lemma FileStartIsOneLine(name: string, size: nat)
    requires '\n' !in name
    ensures '\n' !in FileStart(name, size) && Chomp(FileStart(name, size)) == FileStart(name, size)
    ensures FileStart(name, size) != "FILE_END"
  {
    var line := FileStart(name, size);
    var digits := Print(size);
    assert forall i :: 0 <= i < |digits| ==> IsDigit(digits[i]);
    assert line[|line| - 1] == digits[|digits| - 1];
    assert line[5] == 'S' && "FILE_END"[5] == 'E';
  }

  lemma HeaderLineOpens(w: World, p: Parser, name: string, size: nat)
    requires !p.mode.closed && p.mode.stage == HEADER && p.mode.line == ""
    requires name != "" && '\n' !in name && 1 <= size <= MAX_RECEIVE_FILE_BYTES
    requires w.fd(p.mode.opens) >= 0
    ensures FeedAll(w, p, Bytes(FileStart(name, size) + "\n")) ==
            p.After(Reaction(p.mode.(afterFile := false, name := Flatten(name), expected := size,
                                     received := 0, opens := p.mode.opens + 1, stage := DATA),
                             [Opened(Flatten(name), size), Sent(ReadyForFile)]))
  {
    FileStartIsOneLine(name, size);
    FeedLine(w, p, FileStart(name, size));
    FileStartRoundTrip(p.mode.(afterFile := false), name, size, w.fd(p.mode.opens), w.answer(p.mode.answers));
    LineIsHeader(w, p.mode, FileStart(name, size));
  }

  lemma LineIsHeader(w: World, m: Mode, line: string)
    requires m.stage == HEADER && line != "FILE_END" && Chomp(line) == line
    ensures HandleLine(w, m, line) == HandleHeader(m.(afterFile := false), line, w.fd(m.opens), w.answer(m.answers))
  {
  }

  /** A whole upload, from header to acknowledgement, for every name and every content:
      exactly the content is stored, and the connection is ready for the next line. */
  lemma UploadRoundTrip(w: World, p: Parser, name: string, content: string)
    requires !p.mode.closed && p.mode.stage == HEADER && p.mode.line == ""
    requires name != "" && '\n' !in name && 1 <= |content| <= MAX_RECEIVE_FILE_BYTES
    requires w.fd(p.mode.opens) >= 0
    ensures var q := FeedAll(w, p, Bytes(FileStart(name, |content|) + "\n" + content));
            && q.trace == p.trace + [Opened(Flatten(name), |content|), Sent(ReadyForFile)]
                          + StoredAll(content) + [Sent(FileOk)]
            && q.mode == p.mode.(afterFile := true, name := Flatten(name), expected := |content|,
                                 received := 0, opens := p.mode.opens + 1)
  {
    hide FeedAll, HandleLine, Bytes, StoredAll, Flatten, FileStart;
    var header := FileStart(name, |content|) + "\n";
    BytesAppend(header, content);
    FeedAllAppend(w, p, Bytes(header), Bytes(content));
    HeaderLineOpens(w, p, name, |content|);
    var open := FeedAll(w, p, Bytes(header));
    FeedPayload(w, open, content);
    assert open.trace + (StoredAll(content) + [Sent(FileOk)])
        == open.trace + StoredAll(content) + [Sent(FileOk)];
  }

  /** Sizes of nothing or too much are refused, whatever the name, and nothing is opened. */
  lemma FileStartRefuses(m: Mode, name: string, size: nat, fd: int, text: string)
    requires name != "" && (size == 0 || MAX_RECEIVE_FILE_BYTES < size < ULLONG_RANGE)
    ensures HandleHeader(m, FileStart(name, size), fd, text) ==
            Reaction(m.(name := Flatten(name), expected := size), [Sent(CmdFail)])
  {
    HeaderIsFileStart(m, FileStart(name, size), fd, text);
    FileStartOpens(m, name, size, fd);
  }

  /** A header whose size is digits behind a sign or none. */
  function SignedStart(name: string, sign: string, digits: string): string {
    "FILE_START:" + name + ":" + sign + digits
  }

  /** What the daemon takes such a size for: behind a minus it is negated modulo 2^64. */
  function SignedSize(sign: string, value: nat): int {
    if sign == "-" then ULLONG_RANGE - value else value
  }

  /** Which sizes open a file, for all digit strings and all signs: exactly those that fit
      64 bits and are then taken for 1 to 2^31 bytes. The rest are refused. */
  lemma SignedSizeOpens(m: Mode, name: string, sign: string, digits: string, fd: int, text: string)
    requires m.stage == HEADER && name != "" && fd >= 0
    requires sign in {"", "+", "-"} && digits != "" && AllDigits(digits)
    ensures var r := HandleHeader(m, SignedStart(name, sign, digits), fd, text);
            var size := SignedSize(sign, Value(digits));
            && (r.mode.stage == DATA <==> Value(digits) < ULLONG_RANGE && 1 <= size <= 0x8000_0000)
            && r.events == if r.mode.stage == DATA then [Opened(Flatten(name), size), Sent(ReadyForFile)]
                           else [Sent(CmdFail)]
  {
    hide HandleHeader, HandleFileStart, Stoull, Value, LastIndexOf, Flatten, SignedStart;
    var line := SignedStart(name, sign, digits);
    SignedStartSplits(name, sign, digits);
    HeaderIsFileStart(m, line, fd, text);
    StoullOfSigned(sign, digits);
    if Value(digits) >= ULLONG_RANGE {
      FileStartUnreadable(m, line, name, fd);
    } else {
      var size := if sign == "-" then (ULLONG_RANGE - Value(digits)) % ULLONG_RANGE else Value(digits);
      FileStartReads(m, line, name, size, fd);
    }
  }

  /** In particular a minus sign opens a file exactly before 2^64 less 1 to 2^31. */
  lemma NegativeSizeWraps(m: Mode, name: string, digits: string, fd: int, text: string)
    requires m.stage == HEADER && name != "" && fd >= 0
    requires digits != "" && AllDigits(digits)
    ensures HandleHeader(m, SignedStart(name, "-", digits), fd, text).mode.stage == DATA
            <==> 0xffff_ffff_8000_0000 <= Value(digits) <= 0xffff_ffff_ffff_ffff
  {
    hide HandleHeader, Value, SignedStart;
    SignedSizeOpens(m, name, "-", digits, fd, text);
  }

  lemma FileStartUnreadable(m: Mode, line: string, name: string, fd: int)
    requires name != "" && |line| > 11 + |name| && LastIndexOf(line, ':') == 11 + |name|
    requires line[11..11 + |name|] == name && Stoull(line[12 + |name|..]) == None
    ensures HandleFileStart(m, line, fd) == Reaction(m.(name := Flatten(name)), [Sent(CmdFail)])
  {
    hide HandleFileSize, Stoull, LastIndexOf, Flatten;
  }

  lemma SignedStartSplits(name: string, sign: string, digits: string)
    requires sign in {"", "+", "-"} && AllDigits(digits)
    ensures var line := SignedStart(name, sign, digits);
            && |line| > 11 + |name| && line[..11] == "FILE_START:"
            && LastIndexOf(line, ':') == 11 + |name|
            && line[11..11 + |name|] == name && line[12 + |name|..] == sign + digits
  {
    hide LastIndexOf, AllDigits;
    NoColon(sign, digits);
    StartSplits(name, sign + digits);
    Regroups("FILE_START:" + name + ":", sign, digits);
  }

  lemma Regroups(a: string, b: string, c: string)
    ensures a + b + c == a + (b + c)
  {
  }

  lemma NoColon(sign: string, digits: string)
    requires sign in {"", "+", "-"} && AllDigits(digits)
    ensures ':' !in sign + digits
  {
    assert forall i :: 0 <= i < |digits| ==> IsDigit(digits[i]);
  }

  lemma StartSplits(name: string, size: string)
    requires ':' !in size
    ensures var line := "FILE_START:" + name + ":" + size;
            && |line| > 11 + |name| && line[..11] == "FILE_START:"
            && LastIndexOf(line, ':') == 11 + |name|
            && line[11..11 + |name|] == name && line[12 + |name|..] == size
  {
    hide LastIndexOf;
    var line := "FILE_START:" + name + ":" + size;
    var colon := 11 + |name|;
    assert line[colon] == ':' && line[colon + 1..] == size;
    LastIndexUnique(line, ':', colon);
  }

  // ---- commands --------------------------------------------------------

  /** The line, without its newline, that asks for a command. */
  function Command(blanks: string, cmd: string): string { "CMD:" + blanks + cmd }

  lemma CommandReads(m: Mode, blanks: string, cmd: string, fd: int, text: string)
    requires AllIn(blanks, {' '}) && (cmd == "" || cmd[0] != ' ')
    ensures HandleHeader(m, Command(blanks, cmd), fd, text) == HandleCommand(m, cmd, text)
  {
    hide TrimFront, HandleCommand;
    var line := Command(blanks, cmd);
    assert line[..4] == "CMD:" && line[4..] == blanks + cmd;
    TrimFrontDrops(blanks, cmd, {' '});
  }

  lemma CommandIsOneLine(blanks: string, cmd: string)
    requires AllIn(blanks, {' '}) && cmd != "" && '\n' !in cmd && cmd[|cmd| - 1] != '\r'
    ensures '\n' !in Command(blanks, cmd) && Chomp(Command(blanks, cmd)) == Command(blanks, cmd)
    ensures Command(blanks, cmd) != "FILE_END"
  {
    var line := Command(blanks, cmd);
    assert forall i :: 0 <= i < |blanks| ==> blanks[i] == ' ';
    assert line[|line| - 1] == cmd[|cmd| - 1];
    assert line[0] == 'C' && "FILE_END"[0] == 'F';
  }

  /** A command line, whatever blanks precede the command, hands exactly the command to
      the dispatcher, to the listing, or to the push, and sends back what comes of it. */
  lemma CommandRoundTrip(w: World, p: Parser, blanks: string, cmd: string)
    requires !p.mode.closed && p.mode.stage == HEADER && p.mode.line == ""
    requires AllIn(blanks, {' '}) && cmd != "" && cmd[0] != ' '
    requires '\n' !in cmd && cmd[|cmd| - 1] != '\r'
    ensures var q := FeedAll(w, p, Bytes(Command(blanks, cmd) + "\n"));
            var text := w.answer(p.mode.answers);
            && q.mode == p.mode.(afterFile := false, answers := p.mode.answers + 1)
            && q.trace == p.trace +
                 if cmd == "push_file_list" then [Listed(text)]
                 else if |cmd| > 10 && cmd[..10] == "push_file:" then [Pushed(cmd[10..], text)]
                 else if text == "" then [Dispatched(cmd)]
                 else [Dispatched(cmd), Answered(text)]
  {
    hide HandleHeader, FeedAll, Bytes;
    CommandIsOneLine(blanks, cmd);
    FeedLine(w, p, Command(blanks, cmd));
    LineIsHeader(w, p.mode, Command(blanks, cmd));
    CommandReads(p.mode.(afterFile := false), blanks, cmd, w.fd(p.mode.opens), w.answer(p.mode.answers));
  }

  // ---- PIN lines -------------------------------------------------------

  /** A number PIN survives every framing a client may use: the optional prefix, leading
      blanks, and trailing blanks and carriage returns. */
  lemma PinThroughFraming(prefix: string, head: string, pin: string, tail: string)
    requires prefix == "" || prefix == "AUTH:"
    requires AllIn(head, PIN_HEAD) && AllIn(tail, PIN_TAIL)
    requires pin != "" && AllDigits(pin)
    ensures Pin(Chomp(prefix + head + pin + tail)) == pin
  {
    var cut := if tail != "" && tail[|tail| - 1] == '\r' then tail[..|tail| - 1] else tail;
    var line := prefix + head + pin + cut;
    ChompTail(prefix + head + pin, tail, cut);
    assert IsDigit(pin[0]) && IsDigit(pin[|pin| - 1]);
    assert StripAuthPrefix(line) == head + pin + cut by { StripsPrefix(prefix, head, pin, cut); }
    assert (head + pin)[|head + pin| - 1] == pin[|pin| - 1];
    TrimBackDrops(head + pin, cut, PIN_TAIL);
    TrimFrontDrops(head, pin, PIN_HEAD);
  }

  lemma ChompTail(s: string, tail: string, cut: string)
    requires s != "" && IsDigit(s[|s| - 1])
    requires cut == if tail != "" && tail[|tail| - 1] == '\r' then tail[..|tail| - 1] else tail
    ensures Chomp(s + tail) == s + cut
  {
    if tail == "" {
      assert s + tail == s;
    } else {
      assert (s + tail)[|s + tail| - 1] == tail[|tail| - 1];
      assert (s + tail)[..|s + tail| - 1] == s + tail[..|tail| - 1];
    }
  }

  lemma StripsPrefix(prefix: string, head: string, pin: string, cut: string)
    requires prefix == "" || prefix == "AUTH:"
    requires AllIn(head, PIN_HEAD) && pin != "" && IsDigit(pin[0])
    ensures StripAuthPrefix(prefix + head + pin + cut) == head + pin + cut
  {
    var rest := head + pin + cut;
    assert prefix + head + pin + cut == prefix + rest;
    if prefix == "" {
      assert prefix + rest == rest;
      assert rest[0] == if head == "" then pin[0] else head[0];
      assert rest[0] != 'A';
      if |rest| > 5 { assert rest[..5][0] == rest[0]; }
      assert "AUTH:"[0] == 'A';
    } else {
      assert (prefix + rest)[..5] == prefix && (prefix + rest)[5..] == rest;
    }
  }

  /** Every value drawn from the range prints as exactly `digits` digits without a leading
      zero, and is the PIN that any framing of it presents. */
  lemma DrawnPinsAreFramed(digits: nat, v: nat, prefix: string, head: string, tail: string)
    requires 1 <= digits && Power10(digits - 1) <= v <= Power10(digits) - 1
    requires prefix == "" || prefix == "AUTH:"
    requires AllIn(head, PIN_HEAD) && AllIn(tail, PIN_TAIL)
    ensures |Print(v)| == digits && Print(v)[0] != '0'
    ensures Pin(Chomp(prefix + head + Print(v) + tail)) == Print(v)
  {
    PrintLength(v, digits);
    PinThroughFraming(prefix, head, Print(v), tail);
  }
}
