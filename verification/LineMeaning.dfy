/** What the lines of a conversation mean: a relation between a line's text and what it
    brings about, given by how the text is composed and not by how it is taken apart. */
module LineMeaning {
  import opened Text
  import opened Protocol
  import opened Connection
  import opened Traces
  import opened LinesAndPayload

  // ---- how lines are composed ------------------------------------------

  /** `line` is `raw` without a carriage return at its end, of which at most one is cut. */
  predicate IsChomped(raw: string, line: string) {
    raw == line + "\r" || (raw == line && (line == "" || line[|line| - 1] != '\r'))
  }

  lemma ChompIff(raw: string, line: string)
    ensures Chomp(raw) == line <==> IsChomped(raw, line)
  {
    if raw != "" && raw[|raw| - 1] == '\r' {
      assert raw == raw[..|raw| - 1] + "\r";
      if raw == line + "\r" { assert raw[..|raw| - 1] == line; }
    } else {
      assert (line + "\r")[|line|] == '\r';
    }
  }

  predicate IsBlank(c: char) { c == ' ' || c == '\t' }

  predicate IsEmpty(c: char) { c == ' ' || c == '\t' || c == '\r' }

  predicate AllBlank(s: string) { forall i :: 0 <= i < |s| ==> IsBlank(s[i]) }

  predicate AllEmpty(s: string) { forall i :: 0 <= i < |s| ==> IsEmpty(s[i]) }

  /** A PIN in its frame: the prefix exactly if it is there with something behind it, then
      blanks, the PIN, and blanks or carriage returns. */
  predicate FramedBy(line: string, prefix: string, head: string, pin: string, tail: string) {
    && line == prefix + (head + pin + tail)
    && prefix == (if |line| > 5 && line[..5] == "AUTH:" then "AUTH:" else "")
    && AllBlank(head) && AllEmpty(tail)
    && (pin != "" ==> !IsBlank(pin[0]) && !IsEmpty(pin[|pin| - 1]))
  }

  ghost predicate Frames(line: string, pin: string) {
    exists prefix, head, tail :: FramedBy(line, prefix, head, pin, tail)
  }

  /** Every line frames exactly one PIN, and that is the one the session judges. */
  lemma PinIff(line: string, pin: string)
    ensures Pin(line) == pin <==> Frames(line, pin)
  {
    hide FramedBy, Pin;
    var prefix, head, tail := PinIsFramed(line);
    if Frames(line, pin) {
      var pre, h, t :| FramedBy(line, pre, h, pin, t);
      FramedIsPin(line, pre, h, pin, t);
    }
  }

  lemma HeadSet(s: string)
    ensures AllIn(s, PIN_HEAD) == AllBlank(s)
  {
  }

  lemma TailSet(s: string)
    ensures AllIn(s, PIN_TAIL) == AllEmpty(s)
  {
  }

  lemma BackParts(s: string) returns (tail: string)
    ensures s == TrimBack(s, PIN_TAIL) + tail && AllEmpty(tail)
    ensures var t := TrimBack(s, PIN_TAIL); t != "" ==> !IsEmpty(t[|t| - 1])
  {
    hide TrimBack;
    var t := TrimBack(s, PIN_TAIL);
    tail := s[|t|..];
    TailSet(tail);
  }

  lemma FrontParts(s: string) returns (head: string)
    ensures s == head + TrimFront(s, PIN_HEAD) && AllBlank(head)
    ensures var t := TrimFront(s, PIN_HEAD); t != "" ==> !IsBlank(t[0]) && s != "" && t[|t| - 1] == s[|s| - 1]
  {
    hide TrimFront;
    var t := TrimFront(s, PIN_HEAD);
    head := s[..|s| - |t|];
    HeadSet(head);
  }

  lemma PinIsFramed(line: string) returns (prefix: string, head: string, tail: string)
    ensures FramedBy(line, prefix, head, Pin(line), tail)
  {
    hide TrimBack, TrimFront, AllBlank, AllEmpty, AllIn, IsBlank, IsEmpty, StripAuthPrefix;
    prefix := PrefixIsStripped(line);
    var rest := StripAuthPrefix(line);
    tail := BackParts(rest);
    var front := TrimBack(rest, PIN_TAIL);
    head := FrontParts(front);
    var pin := Pin(line);
    assert rest == head + pin + tail;
  }

  lemma PrefixIsStripped(line: string) returns (prefix: string)
    ensures prefix == if |line| > 5 && line[..5] == "AUTH:" then "AUTH:" else ""
    ensures line == prefix + StripAuthPrefix(line) && StripAuthPrefix(line) == line[|prefix|..]
  {
    prefix := if |line| > 5 && line[..5] == "AUTH:" then "AUTH:" else "";
    if |line| > 5 { assert line == line[..5] + line[5..]; }
  }

  lemma FramedIsPin(line: string, prefix: string, head: string, pin: string, tail: string)
    requires FramedBy(line, prefix, head, pin, tail)
    ensures Pin(line) == pin
  {
    hide TrimBack, TrimFront, AllBlank, AllEmpty, StripAuthPrefix;
    var same := PrefixIsStripped(line);
    assert StripAuthPrefix(line) == head + pin + tail;
    FrameIsTrimmed(head, pin, tail);
  }

  lemma FrameIsTrimmed(head: string, pin: string, tail: string)
    requires AllBlank(head) && AllEmpty(tail)
    requires pin != "" ==> !IsBlank(pin[0]) && !IsEmpty(pin[|pin| - 1])
    ensures TrimFront(TrimBack(head + pin + tail, PIN_TAIL), PIN_HEAD) == pin
  {
    hide TrimBack, TrimFront;
    HeadSet(head);
    TailSet(tail);
    if pin == "" {
      TailSet(head + tail);
      assert head + pin + tail == "" + (head + tail);
      TrimBackDrops("", head + tail, PIN_TAIL);
    } else {
      assert (head + pin)[|head + pin| - 1] == pin[|pin| - 1];
      TrimBackDrops(head + pin, tail, PIN_TAIL);
      TrimFrontDrops(head, pin, PIN_HEAD);
    }
  }

  /** `CMD:`, any spaces, and a command that does not begin with one. */
  ghost predicate Commands(line: string, cmd: string) {
    exists blanks :: CommandBehind(line, blanks, cmd)
  }

  predicate CommandBehind(line: string, blanks: string, cmd: string) {
    && line == "CMD:" + (blanks + cmd)
    && (forall i :: 0 <= i < |blanks| ==> blanks[i] == ' ')
    && (cmd != "" ==> cmd[0] != ' ')
  }

  lemma CommandIff(line: string, cmd: string)
    ensures Commands(line, cmd) <==> |line| >= 4 && line[..4] == "CMD:" && TrimFront(line[4..], {' '}) == cmd
  {
    hide CommandBehind, TrimFront;
    if |line| >= 4 && line[..4] == "CMD:" {
      var blanks := CommandIsBehind(line);
    }
    if Commands(line, cmd) {
      var blanks :| CommandBehind(line, blanks, cmd);
      CommandIsTrimmed(line, blanks, cmd);
    }
  }

  lemma CommandIsBehind(line: string) returns (blanks: string)
    requires |line| >= 4 && line[..4] == "CMD:"
    ensures CommandBehind(line, blanks, TrimFront(line[4..], {' '}))
  {
    hide TrimFront;
    var rest := line[4..];
    var cmd := TrimFront(rest, {' '});
    blanks := rest[..|rest| - |cmd|];
    assert line == line[..4] + rest && rest == blanks + cmd;
  }

  lemma CommandIsTrimmed(line: string, blanks: string, cmd: string)
    requires CommandBehind(line, blanks, cmd)
    ensures |line| >= 4 && line[..4] == "CMD:" && TrimFront(line[4..], {' '}) == cmd
  {
    hide TrimFront;
    assert line[..4] == "CMD:" && line[4..] == blanks + cmd;
    TrimFrontDrops(blanks, cmd, {' '});
  }

  predicate IsWhite(c: char) {
    c == ' ' || c == '\t' || c == '\n' || c == '\r' || c == 11 as char || c == 12 as char
  }

  predicate AllWhite(s: string) { forall i :: 0 <= i < |s| ==> IsWhite(s[i]) }

  /** White space, a sign or none, digits that fit 64 bits, and anything that does not begin
      with a digit: a minus sign negates modulo 2^64. */
  predicate NumeralBy(s: string, n: nat, spaces: string, sign: string, digits: string, rest: string) {
    && s == spaces + (sign + (digits + rest))
    && AllWhite(spaces) && (sign == "" || sign == "+" || sign == "-")
    && digits != "" && AllDigits(digits) && (rest != "" ==> !IsDigit(rest[0]))
    && Reads(n, sign, digits)
  }

  predicate Reads(n: nat, sign: string, digits: string)
    requires AllDigits(digits)
  {
    var v := Value(digits);
    && v < 0x1_0000_0000_0000_0000
    && n == if sign == "-" && v > 0 then 0x1_0000_0000_0000_0000 - v else v
  }

  ghost predicate Numeral(s: string, n: nat) {
    exists spaces, sign, digits, rest :: NumeralBy(s, n, spaces, sign, digits, rest)
  }

  /** A text is read as a number exactly if it is a numeral of it. */
  lemma StoullIff(s: string, n: nat)
    ensures Stoull(s) == Some(n) <==> Numeral(s, n)
  {
    hide Stoull, NumeralBy;
    if Stoull(s) == Some(n) {
      var spaces, sign, digits, rest := StoullIsNumeral(s, n);
    }
    if Numeral(s, n) {
      var spaces, sign, digits, rest :| NumeralBy(s, n, spaces, sign, digits, rest);
      NumeralIsRead(s, n, spaces, sign, digits, rest);
    }
  }

  lemma WhiteSet(s: string)
    ensures AllIn(s, SPACES) == AllWhite(s)
  {
  }

  lemma WhiteParts(s: string) returns (spaces: string)
    ensures s == spaces + TrimFront(s, SPACES) && AllWhite(spaces)
  {
    hide TrimFront;
    var t := TrimFront(s, SPACES);
    spaces := s[..|s| - |t|];
    WhiteSet(spaces);
  }

  lemma StoullIsNumeral(s: string, n: nat) returns (spaces: string, sign: string, digits: string, rest: string)
    requires Stoull(s) == Some(n)
    ensures NumeralBy(s, n, spaces, sign, digits, rest)
  {
    hide TrimFront, DigitPrefix, Reads, AllWhite, AllDigits, AllIn, IsDigit, Stoull, NumeralBy;
    spaces := WhiteParts(s);
    sign, digits := StoullParts(s, n);
    var t := TrimFront(s, SPACES);
    rest := DigitsAndRest(t[|sign|..]);
    Assembled(s, n, spaces, t, sign, t[|sign|..], digits, rest);
  }

  lemma Assembled(s: string, n: nat, spaces: string, t: string, sign: string, u: string, digits: string, rest: string)
    requires s == spaces + t && sign <= t && u == t[|sign|..] && u == digits + rest
    requires AllWhite(spaces) && (sign == "" || sign == "+" || sign == "-")
    requires digits != "" && AllDigits(digits) && (rest != "" ==> !IsDigit(rest[0])) && Reads(n, sign, digits)
    ensures NumeralBy(s, n, spaces, sign, digits, rest)
  {
    hide Reads, AllWhite, AllDigits, IsDigit;
    assert t == sign + u;
  }

  lemma StoullParts(s: string, n: nat) returns (sign: string, digits: string)
    requires Stoull(s) == Some(n)
    ensures sign == "" || sign == "+" || sign == "-"
    ensures var t := TrimFront(s, SPACES);
            sign <= t && digits == DigitPrefix(t[|sign|..]) && digits != "" && Reads(n, sign, digits)
  {
    hide TrimFront, DigitPrefix, Value;
    var t := TrimFront(s, SPACES);
    sign := if t != "" && (t[0] == '-' || t[0] == '+') then [t[0]] else "";
    digits := DigitPrefix(t[|sign|..]);
  }

  lemma DigitsAndRest(u: string) returns (rest: string)
    ensures u == DigitPrefix(u) + rest && (rest != "" ==> !IsDigit(rest[0]))
  {
    rest := u[|DigitPrefix(u)|..];
  }

  lemma NumeralIsRead(s: string, n: nat, spaces: string, sign: string, digits: string, rest: string)
    requires NumeralBy(s, n, spaces, sign, digits, rest)
    ensures Stoull(s) == Some(n)
  {
    hide TrimFront, DigitPrefix, Value, AllDigits, AllWhite;
    var u := digits + rest;
    SpacesAreTrimmed(spaces, sign, digits, rest);
    DigitsEnd(digits, rest);
    if sign == "" {
      assert sign + u == u && u[0] == digits[0];
      FirstIsDigit(digits);
    } else {
      assert (sign + u)[0] == sign[0] && (sign + u)[1..] == u;
    }
  }

  lemma FirstIsDigit(digits: string)
    requires digits != "" && AllDigits(digits)
    ensures IsDigit(digits[0])
  {
  }

  lemma SpacesAreTrimmed(spaces: string, sign: string, digits: string, rest: string)
    requires AllWhite(spaces) && (sign == "" || sign == "+" || sign == "-") && digits != "" && AllDigits(digits)
    ensures TrimFront(spaces + (sign + (digits + rest)), SPACES) == sign + (digits + rest)
  {
    hide TrimFront, AllWhite, AllIn;
    var t := sign + (digits + rest);
    assert t[0] == if sign == "" then digits[0] else sign[0];
    FirstIsDigit(digits);
    NoSpace(t[0]);
    WhiteSet(spaces);
    TrimFrontDrops(spaces, t, SPACES);
  }

  lemma NoSpace(c: char)
    requires IsDigit(c) || c == '-' || c == '+'
    ensures c !in SPACES
  {
  }

  lemma {:induction false} DigitsEnd(digits: string, rest: string)
    requires AllDigits(digits) && (rest != "" ==> !IsDigit(rest[0]))
    ensures DigitPrefix(digits + rest) == digits
  {
    if digits == "" {
      assert digits + rest == rest;
    } else {
      assert (digits + rest)[1..] == digits[1..] + rest;
      DigitsEnd(digits[1..], rest);
    }
  }

  // ---- FILE_START ------------------------------------------------------

  /** `FILE_START:`, a name, and behind the last colon the size. */
  predicate Announces(line: string, name: string, size: string) {
    line == "FILE_START:" + (name + (":" + size)) && ':' !in size
  }

  /** The announcement of a file that may be received. */
  ghost predicate Admissible(line: string, name: string, n: nat) {
    exists size :: Announces(line, name, size) && name != "" && Numeral(size, n) && 1 <= n <= 0x8000_0000
  }

  predicate IsFlat(name: string, flat: string) {
    && |flat| == |name|
    && forall i :: 0 <= i < |name| ==> flat[i] == if name[i] == '/' || name[i] == '\\' then '_' else name[i]
  }

  lemma AnnouncesIff(line: string, name: string, size: string)
    requires "FILE_START:" <= line
    ensures var colon := LastIndexOf(line, ':');
            Announces(line, name, size) <==>
            colon >= 11 && name == line[11..colon] && size == line[colon + 1..]
  {
    hide LastIndexOf;
    var colon := LastIndexOf(line, ':');
    if Announces(line, name, size) {
      AnnouncedSplits(line, name, size);
    } else if colon >= 11 {
      assert line == line[..11] + (line[11..colon] + ([line[colon]] + line[colon + 1..]));
    }
  }

  lemma AnnouncedSplits(line: string, name: string, size: string)
    requires Announces(line, name, size)
    ensures |line| > 11 + |name| && LastIndexOf(line, ':') == 11 + |name|
    ensures name == line[11..11 + |name|] && size == line[12 + |name|..]
  {
    hide LastIndexOf;
    var rest := name + (":" + size);
    assert line[11..] == rest;
    assert rest[..|name|] == name && rest[|name|] == ':' && rest[|name| + 1..] == size;
    assert line[11 + |name|] == ':' && line[12 + |name|..] == size;
    LastIndexUnique(line, ':', 11 + |name|);
  }

  // ---- what a header line brings about ---------------------------------

  /** One command asks the outside once: for the listing, for a push of the name behind
      `push_file:`, or, in any other case, for the command itself. */
  ghost predicate CommandMeans(m: Mode, cmd: string, text: string, r: Reaction) {
    && r.mode == m.(answers := m.answers + 1)
    && (cmd == "push_file_list" ==> r.events == [Listed(text)])
    && (forall name :: name != "" && cmd == "push_file:" + name ==> r.events == [Pushed(name, text)])
    && (cmd != "push_file_list" && !("push_file:" < cmd) ==>
          r.events == if text == "" then [Dispatched(cmd)] else [Dispatched(cmd), Answered(text)])
  }

  /** An admissible announcement opens its file, if the file can be created. */
  ghost predicate UploadMeans(m: Mode, name: string, n: nat, fd: int, r: Reaction) {
    && IsFlat(name, r.mode.name)
    && (fd >= 0 ==>
          && r.mode == m.(name := r.mode.name, expected := n, received := 0, opens := m.opens + 1, stage := DATA)
          && r.events == [Opened(r.mode.name, n), Sent(ReadyForFile)])
    && (fd < 0 ==>
          && r.mode == m.(name := r.mode.name, expected := n, opens := m.opens + 1)
          && r.events == [Sent(CmdFail)])
  }

  /** Nothing is opened; the name and the size of the last announcement may change. */
  ghost predicate RefusalMeans(m: Mode, r: Reaction) {
    r.mode == m.(name := r.mode.name, expected := r.mode.expected) && r.events == [Sent(CmdFail)]
  }

  ghost predicate HeaderMeans(m: Mode, line: string, fd: int, text: string, r: Reaction) {
    if "CMD:" <= line then exists cmd :: Commands(line, cmd) && CommandMeans(m, cmd, text, r)
    else if "FILE_START:" <= line then
      && (forall name, n :: Admissible(line, name, n) ==> UploadMeans(m, name, n, fd, r))
      && ((forall name, n :: !Admissible(line, name, n)) ==> RefusalMeans(m, r))
    else r == Reaction(m, [Sent(UnknownRequest)])
  }

  /** Every header line brings about what it means, and nothing else. */
  lemma HeaderIsMeant(m: Mode, line: string, fd: int, text: string)
    requires m.stage == HEADER
    ensures HeaderMeans(m, line, fd, text, HandleHeader(m, line, fd, text))
  {
    hide CommandMeans, UploadMeans, RefusalMeans, Commands, Admissible, HandleCommand, HandleFileStart, TrimFront;
    PrefixIsSlice("CMD:", line);
    PrefixIsSlice("FILE_START:", line);
    if "CMD:" <= line {
      var cmd := TrimFront(line[4..], {' '});
      CommandIff(line, cmd);
      CommandIsMeant(m, cmd, text);
    } else if "FILE_START:" <= line {
      UploadIsMeant(m, line, fd);
    }
  }

  lemma PrefixIsSlice(prefix: string, line: string)
    ensures prefix <= line <==> |line| >= |prefix| && line[..|prefix|] == prefix
  {
  }

  lemma CommandIsMeant(m: Mode, cmd: string, text: string)
    ensures CommandMeans(m, cmd, text, HandleCommand(m, cmd, text))
  {
    PrefixIsSlice("push_file:", cmd);
    assert "push_file_list"[9] == '_' && "push_file:"[9] == ':';
    forall name | name != "" && cmd == "push_file:" + name
      ensures HandleCommand(m, cmd, text).events == [Pushed(name, text)]
    {
      assert cmd[9] == ':' && cmd[..10] == "push_file:" && cmd[10..] == name;
    }
  }

  lemma UploadIsMeant(m: Mode, line: string, fd: int)
    requires m.stage == HEADER && "FILE_START:" <= line
    ensures forall name, n :: Admissible(line, name, n) ==> UploadMeans(m, name, n, fd, HandleFileStart(m, line, fd))
    ensures (forall name, n :: !Admissible(line, name, n)) ==> RefusalMeans(m, HandleFileStart(m, line, fd))
  {
    hide Admissible, UploadMeans, RefusalMeans, HandleFileStart;
    forall name, n | Admissible(line, name, n)
      ensures UploadMeans(m, name, n, fd, HandleFileStart(m, line, fd))
    {
      AdmissibleOpens(m, line, name, n, fd);
    }
    if forall name, n :: !Admissible(line, name, n) { InadmissibleIsRefused(m, line, fd); }
  }

  lemma AdmissibleOpens(m: Mode, line: string, name: string, n: nat, fd: int)
    requires Admissible(line, name, n)
    ensures UploadMeans(m, name, n, fd, HandleFileStart(m, line, fd))
  {
    hide Stoull, LastIndexOf, Numeral, Announces;
    var size :| Announces(line, name, size) && name != "" && Numeral(size, n) && 1 <= n <= 0x8000_0000;
    AnnouncedSplits(line, name, size);
    StoullIff(size, n);
  }

  lemma InadmissibleIsRefused(m: Mode, line: string, fd: int)
    requires "FILE_START:" <= line && forall name, n :: !Admissible(line, name, n)
    ensures RefusalMeans(m, HandleFileStart(m, line, fd))
  {
    hide Stoull, LastIndexOf, Numeral, Announces, Flatten, OnOpen;
    var colon := LastIndexOf(line, ':');
    if colon > 11 {
      var name, size := line[11..colon], line[colon + 1..];
      AnnouncesIff(line, name, size);
      if Stoull(size).Some? {
        var n := Stoull(size).value;
        StoullIff(size, n);
        assert !Admissible(line, name, n);
      }
    }
  }

  /** A whole line in the header stage, whatever it says: the connection reacts to its text,
      less a carriage return, as that means; the late end marker of a completed file is the
      one exception. */
  lemma EveryLineIsMeant(w: World, p: Parser, raw: string) returns (line: string, r: Reaction)
    requires !p.mode.closed && p.mode.stage == HEADER && p.mode.line == "" && '\n' !in raw
    ensures FeedAll(w, p, Bytes(raw + "\n")) == p.After(r) && IsChomped(raw, line)
    ensures var m := p.mode.(afterFile := false);
            if p.mode.afterFile && raw == "FILE_END" then r == Reaction(m, [StraySentinel])
            else HeaderMeans(m, line, w.fd(m.opens), w.answer(m.answers), r)
  {
    hide FeedAll, HandleHeader, HeaderMeans, IsChomped, Chomp;
    FeedLine(w, p, raw);
    line, r := Chomp(raw), HandleLine(w, p.mode, raw);
    ChompIff(raw, line);
    HeaderIsMeant(p.mode.(afterFile := false), line, w.fd(p.mode.opens), w.answer(p.mode.answers));
  }

  /** A whole line before authentication: the PIN it frames is judged unless the IP is
      banned, and the third wrong one closes the connection. */
  lemma EveryPinLineIsMeant(w: World, p: Parser, raw: string) returns (line: string, pin: string)
    requires !p.mode.closed && p.mode.stage == AUTH && p.mode.line == "" && '\n' !in raw
    ensures IsChomped(raw, line) && Frames(line, pin)
    ensures var m := p.mode.(afterFile := false);
            FeedAll(w, p, Bytes(raw + "\n")) == p.After(
              match w.auth(m.attempts)
              case Blocked => Reaction(m.(closed := true), [Sent(AuthBlocked)])
              case Accepted => Reaction(m.(stage := HEADER), [Judged(pin), Sent(AuthOk)])
              case Refused => Reaction(m.(attempts := m.attempts + 1, closed := m.attempts >= 2),
                                       [Judged(pin), Sent(AuthFail)]))
  {
    hide FeedAll, IsChomped, Frames, Chomp, Pin;
    FeedLine(w, p, raw);
    line := Chomp(raw);
    pin := Pin(line);
    ChompIff(raw, line);
    PinIff(line, pin);
  }

  // ---- where events come from ------------------------------------------

  /** This line may bring this event about. */
  ghost predicate Says(raw: string, e: Event) {
    exists line :: IsChomped(raw, line) && SaidBy(line, e)
  }

  ghost predicate SaidBy(line: string, e: Event) {
    match e
    case Judged(pin) => Frames(line, pin)
    case Dispatched(cmd) => Commands(line, cmd) && cmd != "push_file_list" && !("push_file:" < cmd)
    case Listed(_) => Commands(line, "push_file_list")
    case Pushed(name, _) => name != "" && Commands(line, "push_file:" + name)
    case Opened(flat, n) => exists name :: IsFlat(name, flat) && Admissible(line, name, n)
    case _ => true
  }

  predicate NeedsLine(e: Event) { e.Judged? || e.Dispatched? || e.Listed? || e.Pushed? || e.Opened? }

  lemma LineSays(w: World, m: Mode, raw: string, k: nat)
    requires m.stage != DATA && k < |HandleLine(w, m, raw).events|
    requires NeedsLine(HandleLine(w, m, raw).events[k])
    ensures Says(raw, HandleLine(w, m, raw).events[k])
  {
    hide SaidBy, HandleAuth, HandleHeader, IsChomped, Chomp, Pin;
    var line := Chomp(raw);
    ChompIff(raw, line);
    var next := m.(afterFile := false);
    if m.stage == AUTH {
      PinSays(next, line, w.auth(m.attempts), k);
    } else if !IsStray(m, raw) {
      HeaderSays(next, line, w.fd(m.opens), w.answer(m.answers), k);
    }
  }

  lemma PinSays(m: Mode, line: string, v: Verdict, k: nat)
    requires k < |HandleAuth(m, Pin(line), v).events|
    requires NeedsLine(HandleAuth(m, Pin(line), v).events[k])
    ensures SaidBy(line, HandleAuth(m, Pin(line), v).events[k])
  {
    hide Pin, Frames;
    PinIff(line, Pin(line));
  }

  lemma HeaderSays(m: Mode, line: string, fd: int, text: string, k: nat)
    requires m.stage == HEADER && k < |HandleHeader(m, line, fd, text).events|
    requires NeedsLine(HandleHeader(m, line, fd, text).events[k])
    ensures SaidBy(line, HandleHeader(m, line, fd, text).events[k])
  {
    hide HandleHeader, Commands, Admissible, CommandMeans, UploadMeans;
    HeaderIsMeant(m, line, fd, text);
    var r := HandleHeader(m, line, fd, text);
    if "CMD:" <= line {
      var cmd :| Commands(line, cmd) && CommandMeans(m, cmd, text, r);
      CommandSays(m, line, cmd, text, r, k);
    } else if "FILE_START:" <= line {
      var name, n :| Admissible(line, name, n);
      UploadSays(m, line, name, n, fd, r, k);
    }
  }

  lemma CommandSays(m: Mode, line: string, cmd: string, text: string, r: Reaction, k: nat)
    requires Commands(line, cmd) && CommandMeans(m, cmd, text, r) && k < |r.events| && NeedsLine(r.events[k])
    ensures SaidBy(line, r.events[k])
  {
    hide Commands;
    if "push_file:" < cmd {
      assert cmd == "push_file:" + cmd[10..];
      assert "push_file_list"[9] == '_' && "push_file:"[9] == ':';
    }
  }

  lemma UploadSays(m: Mode, line: string, name: string, n: nat, fd: int, r: Reaction, k: nat)
    requires Admissible(line, name, n) && UploadMeans(m, name, n, fd, r) && k < |r.events| && NeedsLine(r.events[k])
    ensures SaidBy(line, r.events[k])
  {
    hide Admissible, IsFlat;
  }

  /** Some handled line of the stream says this event. */
  ghost predicate Stands(lines: seq<Span>, stream: string, e: Event) {
    exists i :: 0 <= i < |lines| && IsLine(lines[i], stream) && Says(stream[lines[i].from..lines[i].to - 1], e)
  }

  lemma StillStands(lines: seq<Span>, stream: string, e: Event, lines': seq<Span>, more: string)
    requires Stands(lines, stream, e) && lines <= lines'
    ensures Stands(lines', stream + more, e)
  {
    hide Says;
    var i :| 0 <= i < |lines| && IsLine(lines[i], stream) && Says(stream[lines[i].from..lines[i].to - 1], e);
    var at := lines[i];
    assert lines'[i] == at;
    assert (stream + more)[at.from..at.to - 1] == stream[at.from..at.to - 1];
  }

  lemma {:induction false} ReplayStands(w: World, log: seq<Input>, k: nat)
    requires InputsFit(w, log) && k < |Replay(w, log).trace| && NeedsLine(Replay(w, log).trace[k])
    ensures Stands(Lines(w, log), Expand(log), Replay(w, log).trace[k])
  {
    hide InputsFit, InPlace, Stands, Step, NeedsLine;
    var n := |log| - 1;
    InputsFitPrefix(w, log);
    var p := Replay(w, log[..n]);
    if k < |p.trace| {
      ReplayStands(w, log[..n], k);
      StillStands(Lines(w, log[..n]), Expand(log[..n]), p.trace[k], Lines(w, log), Raw(log[n]));
    } else {
      ReplaySpeaks(w, log[..n]);
      ReplayLines(w, log[..n]);
      StepStands(w, p.mode, log[n], Lines(w, log[..n]), Expand(log[..n]), k - |p.trace|);
    }
  }

  lemma StepStands(w: World, m: Mode, i: Input, lines: seq<Span>, stream: string, k: nat)
    requires Counting(m) && InPlace(m, i) && EndsWithLine(m, stream)
    requires k < |Step(w, m, i).events| && NeedsLine(Step(w, m, i).events[k])
    ensures EndsLine(m, i)
    ensures Stands(lines + [Span(|stream| - |m.line|, |stream + Raw(i)|)], stream + Raw(i), Step(w, m, i).events[k])
  {
    hide HandleLine, Says, Stands, IsLine;
    var longer := stream + Raw(i);
    var at := Span(|stream| - |m.line|, |longer|);
    StepEndsWithLine(w, m, i, stream);
    OnlyLinesSay(w, m, i, k);
    assert longer[at.from..at.to - 1] == m.line;
    LineSays(w, m.(line := ""), m.line, k);
    LastStands(lines, at, longer, Step(w, m, i).events[k]);
  }

  lemma OnlyLinesSay(w: World, m: Mode, i: Input, k: nat)
    requires k < |Step(w, m, i).events| && NeedsLine(Step(w, m, i).events[k])
    ensures EndsLine(m, i)
  {
    hide HandleLine;
  }

  lemma LastStands(lines: seq<Span>, at: Span, stream: string, e: Event)
    requires IsLine(at, stream) && Says(stream[at.from..at.to - 1], e)
    ensures Stands(lines + [at], stream, e)
  {
    hide Says, IsLine;
    assert (lines + [at])[|lines|] == at;
  }

  /** Over every run: each judged PIN, each command carried out, each listing, each push and
      each file opened stands in the stream as a handled line that says exactly that. */
  lemma EventsAreSaid(w: World, ws: nat -> int, chunks: seq<string>, k: nat)
    requires var c := Run(w, ws, chunks);
             k < |c.parser.trace| && NeedsLine(c.parser.trace[k])
    ensures var c := Run(w, ws, chunks);
            Stands(Lines(w, c.log), Concat(chunks), c.parser.trace[k])
  {
    hide Run, Stands, NeedsLine;
    SoundStands(w, Run(w, ws, chunks), k);
  }

  lemma SoundStands(w: World, c: Conn, k: nat)
    requires Sound(w, c) && k < |c.parser.trace| && NeedsLine(c.parser.trace[k])
    ensures Stands(Lines(w, c.log), c.stream, c.parser.trace[k])
  {
    hide Replay, Expand, InputsFit, Stands, Lines, NeedsLine;
    ReplayStands(w, c.log, k);
    StillStands(Lines(w, c.log), c.stream[..c.pos], c.parser.trace[k], Lines(w, c.log), c.stream[c.pos..]);
    assert c.stream == c.stream[..c.pos] + c.stream[c.pos..];
  }

  /** Some line of the stream says this event. */
  ghost predicate SaidIn(stream: string, e: Event) {
    exists at :: IsLine(at, stream) && Says(stream[at.from..at.to - 1], e)
  }

  lemma StandingIsSaid(lines: seq<Span>, stream: string, e: Event)
    requires Stands(lines, stream, e)
    ensures SaidIn(stream, e)
  {
    hide Says;
    var i :| 0 <= i < |lines| && IsLine(lines[i], stream) && Says(stream[lines[i].from..lines[i].to - 1], e);
  }

  // ---- corollaries -----------------------------------------------------

  /** Which header lines open a file, for every line that begins like an announcement. */
  lemma UploadLineOpensIff(m: Mode, line: string, fd: int, text: string)
    requires m.stage == HEADER && "FILE_START:" <= line
    ensures HandleHeader(m, line, fd, text).mode.stage == DATA
            <==> fd >= 0 && exists name, n :: Admissible(line, name, n)
  {
    hide HandleHeader, Admissible, IsFlat;
    assert line[0] == 'F' && "CMD:"[0] == 'C';
    HeaderIsMeant(m, line, fd, text);
    if name, n :| Admissible(line, name, n) {
      assert UploadMeans(m, name, n, fd, HandleHeader(m, line, fd, text));
    }
  }

  /** A line that is neither a command nor an announcement changes nothing, and is answered
      UNKNOWN_REQUEST: under another name if it is the late end marker of a file. */
  lemma UnknownLine(w: World, p: Parser, raw: string, line: string)
    requires !p.mode.closed && p.mode.stage == HEADER && p.mode.line == "" && '\n' !in raw
    requires IsChomped(raw, line) && !("CMD:" <= line) && !("FILE_START:" <= line)
    ensures FeedAll(w, p, Bytes(raw + "\n")) ==
            Parser(p.mode.(afterFile := false),
                   p.trace + [if p.mode.afterFile && raw == "FILE_END" then StraySentinel else Sent(UnknownRequest)])
  {
    hide FeedAll, IsChomped;
    var l, r := EveryLineIsMeant(w, p, raw);
    ChompIff(raw, line);
    ChompIff(raw, l);
  }
}
