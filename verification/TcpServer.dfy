/** The server: many sessions, one shared authentication state. */
module TcpServers {
  import opened Text
  import Protocol
  import Admission
  import LineMeaning
  import SessionLaws
  import opened Connection
  import Book = AuthBook
  import opened SessionManagement
  import opened ClientSessions

  const MAX_CLIENTS := 64

  /** What one `recv` or `SSL_read` yields; a call ends when nothing more is there. */
  datatype Read = Data(bytes: string) | Eof | Failed

  /** The chunks received before the stream ends or fails. */
  function Received(arrivals: seq<Read>): seq<string> {
    if arrivals == [] || !arrivals[0].Data? then [] else [arrivals[0].bytes] + Received(arrivals[1..])
  }

  /** They are all that arrived, in order, up to the first end or failure. */
  lemma {:induction false} ReceivedIsAll(arrivals: seq<Read>)
    ensures var r := Received(arrivals);
            && |r| <= |arrivals|
            && (forall i :: 0 <= i < |r| ==> arrivals[i] == Data(r[i]))
            && (|r| < |arrivals| ==> !arrivals[|r|].Data?)
  {
    if arrivals != [] && arrivals[0].Data? {
      ReceivedIsAll(arrivals[1..]);
    }
  }

  /** Does the call end with the connection being removed? */
  predicate Ends(arrivals: seq<Read>) { exists r :: r in arrivals && !r.Data? }

  /** A session is a run of its chunks, and is past authentication only if its IP was
      admitted by a PIN that the session itself presented. */
  ghost predicate SessionOk(s: ClientSession, mgr: SessionManager)
    reads s, mgr
  {
    && s.Valid() && s.Follows() && s.sessionMgr == mgr
    && (s.stage != Protocol.AUTH ==> Admitted(mgr.history, s.remoteIp, s.parser.trace))
  }

  class TcpServer {
    const sessionMgr: SessionManager
    var clients: map<int, ClientSession>

    ghost predicate Valid()
      reads this, sessionMgr, clients.Values
    {
      && sessionMgr.Valid() && Book.Turns(sessionMgr.history) == Some(Book.Free)
      && |clients| <= MAX_CLIENTS
      && (forall fd :: fd in clients ==> SessionOk(clients[fd], sessionMgr))
      && (forall f, g :: f in clients && g in clients && f != g ==> clients[f] != clients[g])
    }

    constructor (mgr: SessionManager)
      requires mgr.Valid() && Book.Turns(mgr.history) == Some(Book.Free)
      ensures Valid() && sessionMgr == mgr && clients == map[]
    {
      sessionMgr := mgr;
      clients := map[];
    }

    /** `fd` is what accept() returned, `host` the peer's address. */
    method AcceptConnection(fd: int, host: string)
      requires Valid()
      modifies this
      ensures Valid()
      ensures if fd < 0 || |old(clients)| >= 64 then clients == old(clients)
              else fd in clients && fresh(clients[fd]) && clients[fd].remoteIp == host
                   && clients[fd].View() == FRESH && clients == old(clients)[fd := clients[fd]]
    {
      if fd < 0 {
        return;
      }
      if |clients| >= MAX_CLIENTS {
        return;
      }
      var session := new ClientSession(host, sessionMgr);
      OneMoreKey(clients, fd, session);
      clients := clients[fd := session];
    }

    method RemoveClient(fd: int)
      requires Valid()
      modifies this
      ensures Valid() && clients == old(clients) - {fd}
    {
      FewerKeys(clients, fd);
      clients := clients - {fd};
    }

    /** The refresh thread, while no client has anything to say. */
    method Idle()
      requires Valid()
      modifies sessionMgr
      ensures Valid() && OnlyRefreshes(old(sessionMgr.history), sessionMgr.history)
    {
      hide ClientSession.Valid, ClientSession.Follows, SessionManager.Valid, Book.Turns;
      sessionMgr.RefreshThread();
      RefreshesKeepTurn(old(sessionMgr.history), sessionMgr.history);
      StayAdmitted(old(sessionMgr.history), clients.Keys);
    }

    /** One chunk for the session of `fd`. */
    method Deliver(fd: int, data: string)
      requires Valid() && fd in clients
      modifies sessionMgr, clients[fd]
      ensures Valid() && old(sessionMgr.history) <= sessionMgr.history
      ensures clients[fd].chunks == old(clients[fd].chunks) + [data]
    {
      hide ClientSession.Valid, ClientSession.Follows, SessionManager.Valid, Book.Turns, Admitted, Connection.OnData;
      ghost var s := clients[fd];
      ghost var c := s.View();
      s.ViewIsSane();
      clients[fd].OnData(data);
      s.ChunkOnlyAdds(c, data);
      if Admitted(old(sessionMgr.history), s.remoteIp, c.parser.trace) {
        StaysAdmitted(old(sessionMgr.history), sessionMgr.history, s.remoteIp, c.parser.trace, s.parser.trace);
      }
      StayAdmitted(old(sessionMgr.history), clients.Keys - {fd});
    }

    lemma StayAdmitted(before: seq<Book.Op>, fds: set<int>)
      requires before <= sessionMgr.history && fds <= clients.Keys
      requires forall f :: f in fds && clients[f].stage != Protocol.AUTH ==>
                 Admitted(before, clients[f].remoteIp, clients[f].parser.trace)
      ensures forall f :: f in fds && clients[f].stage != Protocol.AUTH ==>
                Admitted(sessionMgr.history, clients[f].remoteIp, clients[f].parser.trace)
    {
      forall f | f in fds && clients[f].stage != Protocol.AUTH
        ensures Admitted(sessionMgr.history, clients[f].remoteIp, clients[f].parser.trace)
      {
        StaysAdmitted(before, sessionMgr.history, clients[f].remoteIp, clients[f].parser.trace, clients[f].parser.trace);
      }
    }

    /** Everything readable on `fd` goes to its own session, in order; no other session
        changes, and the shared state has served whole PIN lines only. */
    method HandleClientData(fd: int, arrivals: seq<Read>)
      requires Valid()
      modifies this, sessionMgr, if fd in clients then {clients[fd]} else {}
      ensures Valid() && old(sessionMgr.history) <= sessionMgr.history
      ensures clients == if Ends(arrivals) then old(clients) - {fd} else old(clients)
      ensures fd in old(clients) ==>
                var s := old(clients[fd]);
                s.Follows() && s.chunks == old(s.chunks) + Received(arrivals)
    {
      hide ClientSession.Valid, ClientSession.Follows, SessionManager.Valid, Book.Turns;
      if fd !in clients {
        assert clients - {fd} == clients;
        return;
      }
      var session := clients[fd];
      var i := 0;
      while i < |arrivals|
        invariant 0 <= i <= |arrivals|
        invariant Valid() && old(sessionMgr.history) <= sessionMgr.history
        invariant clients == old(clients)
        invariant forall k :: 0 <= k < i ==> arrivals[k].Data?
        invariant session.chunks + Received(arrivals[i..]) == old(session.chunks) + Received(arrivals)
      {
        if !arrivals[i].Data? {
          assert arrivals[i] in arrivals;
          RemoveClient(fd);
          return;
        }
        Deliver(fd, arrivals[i].bytes);
        assert arrivals[i..][1..] == arrivals[i + 1..];
        i := i + 1;
      }
    }
  }

  /** However many connections an IP opens: from any moment on, at most
      5 * (span / 30s + 1) of its wrong PINs fall within any span, until one succeeds. */
  lemma ServerGuessRate(server: TcpServer, from: nat, ip: string, span: nat)
    requires server.Valid() && from <= |server.sessionMgr.history|
    requires Book.Pass(ip) !in server.sessionMgr.history[from..]
    requires var a := Book.FailTimes(server.sessionMgr.history[from..], ip);
             a != [] ==> a[|a| - 1] <= a[0] + span
    ensures |Book.FailTimes(server.sessionMgr.history[from..], ip)|
            <= 5 * (span / 30_000_000_000 + 1)
  {
    var h := server.sessionMgr.history;
    assert h[..from] + h[from..] == h;
    Book.GuessRate(h[..from], h[from..], ip, span);
  }

  /** In the running server every ban is an IP's first, and lasts 30 seconds. */
  lemma ServerBansNeverEscalate(server: TcpServer, ip: string)
    requires server.Valid() && ip in server.sessionMgr.blockedUntil
    ensures Book.Get(server.sessionMgr.banCount, ip) == 1
    ensures exists t :: t in Book.FailTimes(server.sessionMgr.history, ip)
                        && server.sessionMgr.blockedUntil[ip] == t + 30_000_000_000
  {
    var h := server.sessionMgr.history;
    Book.BansNeverEscalate(h, ip);
    Book.Bookkeeping(h, ip);
    Book.SinceAreFailures(h, ip);
    var t := Book.Since(h, ip)[4];
    assert t in Book.FailTimes(h, ip);
  }

  /** No session of a running server is past authentication unless it was answered AUTH_OK
      for a PIN that a line it received frames and that was then one of the last twelve,
      ruled on in one turn between a ban check that found the session's IP free and the
      registration of its success. */
  lemma OnlyCurrentPinsAdmit(server: TcpServer, fd: int)
    requires server.Valid() && fd in server.clients && server.clients[fd].stage != Protocol.AUTH
    ensures var h, s := server.sessionMgr.history, server.clients[fd];
            exists k, c, j, p ::
              && 0 <= k < |s.parser.trace| && Welcomed(s.parser.trace, k)
              && LineMeaning.SaidIn(Concat(s.chunks), s.parser.trace[k])
              && 0 <= c < j < p < |h| && Admission.LawfullyAt(h, s.remoteIp, s.parser.trace[k].pin, c, j, p)
  {
    hide ClientSession.Valid, ClientSession.Follows, Book.Turns, Book.Genuine, AdmitsAt, Admission.LawfullyAt, LineMeaning.SaidIn;
    var h, s := server.sessionMgr.history, server.clients[fd];
    assert SessionOk(s, server.sessionMgr);
    var k :| 0 <= k < |s.parser.trace| && Welcomed(s.parser.trace, k)
             && AdmittedBy(h, s.remoteIp, s.parser.trace[k].pin);
    var pin := s.parser.trace[k].pin;
    var c, j, p :| 0 <= c < j < p < |h| && AdmitsAt(h, s.remoteIp, pin, c, j, p);
    Admission.AdmittedLawfully(h, s.remoteIp, pin, c, j, p);
    SessionLaws.SessionWasTold(s, k);
    assert Admission.LawfullyAt(h, s.remoteIp, pin, c, j, p);
  }

  lemma OneMoreKey<T>(m: map<int, T>, k: int, x: T)
    ensures |m[k := x]| <= |m| + 1
  {
    assert m[k := x].Keys == m.Keys + {k};
  }

  lemma FewerKeys<T>(m: map<int, T>, k: int)
    ensures |m - {k}| <= |m|
  {
    assert (m - {k}).Keys == m.Keys - {k};
  }
}
