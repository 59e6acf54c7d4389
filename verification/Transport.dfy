/** The loops that stream bytes to a client through sends that take less than offered,
    would block, or break. */
module Transport {
  import opened Text

  /** What one `send` or `SSL_write` does with the bytes it is offered. */
  datatype Outcome = Took(n: nat) | WouldBlock | Broken

  const CHUNK := 131072

  function OutcomeAt(sends: seq<Outcome>, i: nat, offered: nat): Outcome {
    if i < |sends| then sends[i] else Took(offered)
  }

  /** Sending went from send `i` up to send `next` and stopped at the first break, if there
      was one. */
  predicate StopsAtBreak(sends: seq<Outcome>, i: nat, next: nat, broken: bool) {
    && i <= next <= |sends|
    && (broken ==> i < next && sends[next - 1] == Broken)
    && forall k :: i <= k < (if broken then next - 1 else next) ==> sends[k] != Broken
  }

  /** How many bytes these sends would take. */
  function TakenBy(sends: seq<Outcome>): nat {
    if sends == [] then 0
    else
      var n := |sends| - 1;
      TakenBy(sends[..n]) + if sends[n].Took? then sends[n].n else 0
  }

  lemma OneMoreSend(sends: seq<Outcome>, i: nat, next: nat)
    requires i <= next < |sends|
    ensures TakenBy(sends[i..next + 1])
            == TakenBy(sends[i..next]) + if sends[next].Took? then sends[next].n else 0
  {
    assert sends[i..next + 1][..next - i] == sends[i..next];
  }

  /** Of `offered` bytes, `taken` went out by these sends: all of them once that many were
      taken or the sends are at their end, and otherwise exactly as many as were taken. */
  predicate Accounted(sends: seq<Outcome>, i: nat, next: nat, offered: nat, taken: nat)
    requires i <= next <= |sends|
  {
    && (taken < offered ==> taken == TakenBy(sends[i..next]))
    && (taken >= offered ==> taken == offered && (next == |sends| || TakenBy(sends[i..next]) >= offered))
  }

  /** Sends one response. Without TLS it is a single `send` whose result is ignored; over
      TLS the loop goes on until everything is taken or the connection breaks, and nothing
      is sent after that. Stalls are finite: after `sends`, everything offered is taken.
      `used` is how many of the sends were made. */
  method SendResponse(tls: bool, response: string, sends: seq<Outcome>) returns (wire: string, used: nat)
    ensures wire <= response && used <= |sends|
    ensures !tls ==> wire == match OutcomeAt(sends, 0, |response|)
                             case Took(n) => response[..Min(n, |response|)]
                             case _ => ""
    ensures tls && wire != response ==> used > 0 && sends[used - 1] in {Broken, Took(0)}
    ensures tls ==> forall k :: 0 <= k < used - 1 ==> sends[k] != Broken && sends[k] != Took(0)
    ensures tls && |response| <= INT_MAX ==> Accounted(sends, 0, used, |response|, |wire|)
  {
    used := 0;
    if !tls {
      match OutcomeAt(sends, 0, |response|) {
        case Took(n) => wire := response[..Min(n, |response|)];
        case _ => wire := "";
      }
      return;
    }
    wire := "";
    var sent := 0;
    assert sends[0..0] == [];
    while sent < |response|
      invariant 0 <= sent <= |response| && wire == response[..sent]
      invariant used <= |sends|
      invariant forall k :: 0 <= k < used ==> sends[k] != Broken && sends[k] != Took(0)
      invariant |response| <= INT_MAX ==> Accounted(sends, 0, used, |response|, sent)
      decreases |sends| - used, |response| - sent
    {
      var chunk := Min(|response| - sent, INT_MAX);
      var outcome := OutcomeAt(sends, used, chunk);
      if used < |sends| {
        OneMoreSend(sends, 0, used);
        used := used + 1;
      }
      match outcome
      case WouldBlock => continue;
      case Broken => break;
      case Took(n) =>
        if n == 0 { break; }
        var taken := Min(n, chunk);
        assert wire + response[sent..sent + taken] == response[..sent + taken];
        wire := wire + response[sent..sent + taken];
        sent := sent + taken;
    }
  }

  // ---- pushing a file to the client ------------------------------------

  /** What the drop folder holds under a name. The size is what the directory says; the
      content is what reading yields, and may by then be longer or shorter. */
  datatype Entry =
    | Absent
    | Regular(size: nat, readable: bool, content: string)

  /** Everything behind the last slash or backslash. */
  function SafeName(filename: string): (safe: string)
    ensures '/' !in safe && '\\' !in safe
    ensures |safe| <= |filename| && safe == filename[|filename| - |safe|..]
    ensures |safe| < |filename| ==> filename[|filename| - |safe| - 1] in {'/', '\\'}
  {
    var cut := Max(LastIndexOf(filename, '/'), LastIndexOf(filename, '\\'));
    NoneBehind(filename, '/', cut);
    NoneBehind(filename, '\\', cut);
    filename[cut + 1..]
  }

  function Max(a: int, b: int): int { if a >= b then a else b }

  lemma NoneBehind(s: string, c: char, cut: int)
    requires LastIndexOf(s, c) <= cut < |s|
    ensures c !in s[cut + 1..]
  {
    var j := LastIndexOf(s, c);
    if j >= 0 {
      assert s[cut + 1..] == s[j + 1..][cut - j..];
    } else {
      assert forall x :: x in s[cut + 1..] ==> x in s;
    }
  }

  /** Offers the untaken rest of `buf` until all of it is taken or a send fails; `wire` is
      what the sends took, in the order they took it, and `i` counts the sends. */
  method SendChunk(buf: string, sends: seq<Outcome>, i: nat) returns (wire: string, next: nat, broken: bool)
    requires i <= |sends|
    ensures wire <= buf && (broken <==> wire != buf)
    ensures StopsAtBreak(sends, i, next, broken)
    ensures Accounted(sends, i, next, |buf|, |wire|)
  {
    wire, next, broken := "", i, false;
    var totalWritten := 0;
    assert sends[i..i] == [];
    while totalWritten < |buf|
      invariant 0 <= totalWritten <= |buf| && wire == buf[..totalWritten]
      invariant StopsAtBreak(sends, i, next, false) && Accounted(sends, i, next, |buf|, totalWritten)
      decreases |sends| - next, |buf| - totalWritten
    {
      var offered := |buf| - totalWritten;
      var outcome := OutcomeAt(sends, next, offered);
      if next < |sends| {
        OneMoreSend(sends, i, next);
        next := next + 1;
      }
      match outcome
      case WouldBlock => continue;
      case Broken =>
        broken := true;
        return;
      case Took(k) =>
        var taken := Min(k, offered);
        assert wire + buf[totalWritten..totalWritten + taken] == buf[..totalWritten + taken];
        wire := wire + buf[totalWritten..totalWritten + taken];
        totalWritten := totalWritten + taken;
    }
  }

  /** What a push of `filename` puts on the wire: a reply, and behind the header of a
      readable file as much of its content as the sends took. */
  ghost predicate Pushes(filename: string, entry: Entry, sends: seq<Outcome>,
                         reply: string, payload: string, used: nat, broken: bool) {
    && (entry.Absent? ==> reply == "PUSH_ERROR:file_not_found\n")
    && (entry.Regular? && entry.size == 0 ==> reply == "PUSH_ERROR:empty_file\n")
    && (entry.Regular? && entry.size > 0 && !entry.readable ==> reply == "PUSH_ERROR:cannot_open\n")
    && (entry.Absent? || entry.size == 0 || !entry.readable ==> payload == "" && !broken)
    && (entry.Regular? && entry.size > 0 && entry.readable ==>
          && reply == "FILE_PUSH:" + SafeName(filename) + ":" + Print(entry.size) + "\n"
          && payload <= entry.content && |payload| <= entry.size
          && (!broken <==> payload == entry.content[..Min(entry.size, |entry.content|)]))
    && StopsAtBreak(sends, 0, used, broken)
  }

  /** Some file and some behaviour of the sends put exactly this on the wire. */
  ghost predicate PushOf(filename: string, wire: string) {
    exists entry, sends, reply, payload, used, broken ::
      Pushes(filename, entry, sends, reply, payload, used, broken) && wire == reply + payload
  }

  lemma PushIs(filename: string, entry: Entry, sends: seq<Outcome>,
               reply: string, payload: string, used: nat, broken: bool)
    requires Pushes(filename, entry, sends, reply, payload, used, broken)
    ensures PushOf(filename, reply + payload)
  {
    hide Pushes;
    var wire := reply + payload;
    assert Pushes(filename, entry, sends, reply, payload, used, broken) && wire == reply + payload;
  }

  /** Streams a file from the drop folder. `reply` goes out as a response, `payload` is
      what the sends took of the file, `used` how many of them were made, and `broken` says
      that the last of these failed. */
  method PushFile(filename: string, entry: Entry, sends: seq<Outcome>)
    returns (reply: string, payload: string, used: nat, broken: bool)
    ensures Pushes(filename, entry, sends, reply, payload, used, broken)
  {
    payload, used, broken := "", 0, false;
    var safe := SafeName(filename);
    if entry.Absent? { reply := "PUSH_ERROR:file_not_found\n"; return; }
    var fileSize := entry.size;
    if fileSize == 0 { reply := "PUSH_ERROR:empty_file\n"; return; }
    if !entry.readable { reply := "PUSH_ERROR:cannot_open\n"; return; }
    reply := "FILE_PUSH:" + safe + ":" + Print(fileSize) + "\n";
    payload, used, broken := StreamFile(entry.content, fileSize, sends);
  }

  /** The read-and-send loop: what is sent is the file in order, without gaps or
      repetitions, never more than the announced size, and all of it unless a send fails;
      nothing is sent after that. `at` is where the file will be read next, `sent` what the
      loop counts. */
  method StreamFile(content: string, fileSize: nat, sends: seq<Outcome>)
    returns (payload: string, used: nat, broken: bool)
    ensures payload <= content && |payload| <= fileSize
    ensures !broken <==> payload == content[..Min(fileSize, |content|)]
    ensures StopsAtBreak(sends, 0, used, broken)
  {
    payload, used, broken := "", 0, false;
    var sent, at := 0, 0;
    while sent < fileSize
      invariant 0 <= at == sent <= fileSize && at <= |content|
      invariant payload == content[..sent]
      invariant StopsAtBreak(sends, 0, used, false)
      decreases fileSize - sent
    {
      var n := Min(Min(CHUNK, fileSize - sent), |content| - at);   // gcount of the read
      var buf := content[at..at + n];
      at := at + n;
      if n <= 0 { break; }
      var wire;
      wire, used, broken := SendChunk(buf, sends, used);
      assert content[..sent] + wire == content[..sent + |wire|];
      payload := payload + wire;
      if broken {
        assert |payload| < Min(fileSize, |content|);
        return;
      }
      sent := sent + |wire|;
    }
  }

  // ---- what the client reads back --------------------------------------

  /** The client's reading of a push: the size its header line announces. */
  function AnnouncedSize(reply: string): Option<nat> {
    var nl := IndexOf(reply, '\n');
    if nl < 0 then None else
      var line := reply[..nl];
      Stoull(line[LastIndexOf(line, ':') + 1..])
  }

  /** The header of a push announces the size to a client that splits it at its newline
      and last colon, as long as the name has no newline. */
  lemma PushHeaderRoundTrip(safe: string, size: nat)
    requires '\n' !in safe && size < ULLONG_RANGE
    ensures AnnouncedSize("FILE_PUSH:" + safe + ":" + Print(size) + "\n") == Some(size)
  {
    var digits := Print(size);
    var line := "FILE_PUSH:" + safe + ":" + digits;
    assert forall i :: 0 <= i < |digits| ==> IsDigit(digits[i]);
    var colon := 10 + |safe|;
    assert line[colon] == ':' && line[colon + 1..] == digits;
    LastIndexUnique(line, ':', colon);
    var reply := line + "\n";
    assert reply[|line|] == '\n' && reply[..|line|] == line;
    FirstIndexUnique(reply, '\n', |line|);
    StoullOfPrint(size);
  }
}
