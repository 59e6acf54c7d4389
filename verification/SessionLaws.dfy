/** The laws about runs, of the session object. */
module SessionLaws {
  import opened Text
  import opened Protocol
  import opened Connection
  import opened Refinement
  import opened Traces
  import opened LinesAndPayload
  import opened LineMeaning
  import opened Requests
  import Transport
  import opened ClientSessions

  /** A session is always a run of its chunks, in every world it cannot tell from its own, of
      which there is one. */
  lemma SessionIsRun(s: ClientSession)
    requires s.Follows()
    ensures exists w, ws :: s.Agrees(w, ws) && s.View() == Run(w, ws, s.chunks)
  {
    var w, ws := s.SomeWorldAgrees();
    assert s.Agrees(w, ws);
  }

  /** A session up to its first write error has done a prefix of what the reference does on
      everything received, up to replies to late end markers, and the cap has closed it
      exactly when it overflows. */
  lemma SessionRefines(s: ClientSession, w: World, ws: nat -> int)
    requires s.Follows() && s.Agrees(w, ws)
    ensures Faultless(s.log) ==> Erase(s.parser.trace) <= Erase(Reference(w, Concat(s.chunks)).trace)
    ensures s.overflow <==> Overflows(w, s.chunks)
  {
    hide Erase, Reference, Overflows, Run, Faultless, Sound;
    var c := Run(w, ws, s.chunks);
    assert s.View() == c && Sound(w, c);
    OverflowIff(w, ws, s.chunks);
    if Faultless(c.log) { PrefixOfReference(w, c); }
  }

  /** A session keeps to the grammar, and the file it has open holds exactly the bytes the
      upload in progress has stored. */
  lemma SessionKeepsFiles(s: ClientSession)
    requires s.Valid() && s.Follows()
    ensures Fits(s.parser.mode, Scan(s.parser.trace))
    ensures s.stage == DATA ==>
              var us := Uploads(s.parser.trace);
              us != [] && us[|us| - 1] == Upload(us[|us| - 1].name, s.expectedBytes, s.file, false)
  {
    hide Run, Uploads, Scan, Fits, Faithful, Concat, Starts;
    var w, ws := s.SomeWorldAgrees();
    var c := Run(w, ws, s.chunks);
    assert s.View() == c;
    RunSpeaks(w, ws, s.chunks);
    FilesAreStreamSlices(w, ws, s.chunks);
    if s.stage == DATA {
      SoundFiles(w, c);
      OpenFileIsUpload(s, Uploads(s.parser.trace), Starts(w, s.log));
    }
  }

  /** The uploads of a session are disjoint slices of what it received, each behind the
      newline at which the parser began to receive; and lines and announced payloads keep
      apart exactly if no line followed a write that spilt. */
  lemma SessionParts(s: ClientSession, w: World, ws: nat -> int)
    requires s.Follows() && s.Agrees(w, ws)
    ensures var us, starts := Uploads(s.parser.trace), Starts(w, s.log);
            && Faithful(us, starts, Concat(s.chunks)) && Disjoint(us, starts)
            && (Apart(Lines(w, s.log), us, starts) <==> !LineAfterSpill(w, s.log))
  {
    hide Run, Uploads, Concat, Starts, Slice, Disjoint, Apart, Lines, LineAfterSpill, IsLine;
    assert s.View() == Run(w, ws, s.chunks);
    FilesAreStreamSlices(w, ws, s.chunks);
    UploadsAreDisjoint(w, ws, s.chunks);
    PayloadIsALineIff(w, ws, s.chunks);
  }

  lemma OpenFileIsUpload(s: ClientSession, us: seq<Upload>, starts: seq<nat>)
    requires s.Valid() && s.stage == DATA && s.pos <= |s.stream|
    requires Faithful(us, starts, s.stream) && InProgress(s.parser.mode, us, starts, s.stream[..s.pos])
    ensures us != [] && us[|us| - 1] == Upload(us[|us| - 1].name, s.expectedBytes, s.file, false)
  {
    var n := |us| - 1;
    assert Slice(us[n], starts[n], s.stream);
    assert starts[n] == s.pos - s.receivedBytes;
  }

  /** Each PIN a session judged, each command it had carried out, each listing, each push
      and each file it created is said by a line it received. */
  lemma SessionWasTold(s: ClientSession, k: nat)
    requires s.Follows() && k < |s.parser.trace| && NeedsLine(s.parser.trace[k])
    ensures SaidIn(Concat(s.chunks), s.parser.trace[k])
  {
    hide Run, Stands, SaidIn, NeedsLine, Concat, Lines;
    var w, ws := s.SomeWorldAgrees();
    assert s.View() == Run(w, ws, s.chunks);
    EventsAreSaid(w, ws, s.chunks, k);
    StandingIsSaid(Lines(w, s.log), Concat(s.chunks), s.parser.trace[k]);
  }

  /** What the trace of a session shows was really asked: each command of the dispatcher,
      each listing of the drop folder, each push under its own name with exactly the bytes
      a push of that name puts on the wire; and the files created are those it shows. */
  lemma SessionAsksAsShown(s: ClientSession, k: nat)
    requires s.Valid() && k < |s.parser.trace|
    ensures var e := s.parser.trace[k];
            && (e.Dispatched? ==> exists i :: 0 <= i < |s.asks| && s.asks[i].request == RunCommand(e.cmd))
            && (e.Listed? ==> Ask(ListPushable, e.text) in s.asks)
            && (e.Pushed? ==> Ask(Push(e.name), e.wire) in s.asks && Transport.PushOf(e.name, e.wire))
    ensures s.created == Creations(s.parser.trace)
  {
    hide Asks, Creations, Transport.PushOf;
    assert Shows(s.parser.trace, s.asks, s.created);
    var e := s.parser.trace[k];
    if e.Dispatched? || e.Listed? || e.Pushed? {
      var i := ShownWasAsked(s.parser.trace, k);
      assert e.Listed? ==> s.asks[i] == Ask(ListPushable, e.text);
      assert e.Pushed? ==> s.asks[i] == Ask(Push(e.name), e.wire);
    }
  }
}
