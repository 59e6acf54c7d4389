/** The shared authentication state as a function of the history of calls on it.

    Every mutex-protected method is one operation; the operations of all connections and
    of the PIN refresh thread form one history. Times are readings of the monotone clock. */
module AuthBook {
  import opened Text

  const MAX_RECENT_PINS := 12
  const AUTH_FAIL_THRESHOLD := 5
  const AUTH_BAN_INITIAL_SECS := 30
  const AUTH_BAN_MAX_SECS := 3600

  /** Clock ticks in a second: the clock counts nanoseconds. */
  const SECOND: nat := 1_000_000_000

  const FIRST_BAN: nat := AUTH_BAN_INITIAL_SECS * SECOND

  datatype Op =
    | Refresh(pin: string)                           // generateSession
    | Check(ip: string, now: nat, blocked: bool)     // isIpBlocked and its answer
    | Judge(pin: string, ok: bool)                   // validateKey and its answer
    | Fail(ip: string, now: nat)                     // registerAuthFailure
    | Pass(ip: string)                               // registerAuthSuccess

  datatype Book = Book(
    recent: seq<string>,
    current: string,
    failures: map<string, nat>,
    until: map<string, nat>,
    bans: map<string, nat>
  )

  const EMPTY := Book([], "", map[], map[], map[])

  function Get(m: map<string, nat>, k: string): nat { if k in m then m[k] else 0 }

  /** How long a ban lasts when `earlier` bans are on record: doubling, with a cap. */
  function BanSeconds(earlier: nat): (secs: nat)
    ensures AUTH_BAN_INITIAL_SECS <= secs <= AUTH_BAN_MAX_SECS
  {
    Min(AUTH_BAN_INITIAL_SECS * Power2(earlier), AUTH_BAN_MAX_SECS)
  }

  /** The first ban lasts 30 seconds; each further one twice as long, up to an hour. */
  lemma BansDouble(n: nat)
    ensures BanSeconds(0) == 30
    ensures BanSeconds(n + 1) == Min(2 * BanSeconds(n), 3600)
  {
    assert Power2(0) == 1;
    assert Power2(n + 1) == 2 * Power2(n);
  }

  predicate IsBlocked(b: Book, ip: string, now: nat) {
    ip in b.until && b.until[ip] > now
  }

  function Remove(m: map<string, nat>, k: string): map<string, nat> { m - {k} }

  function Clear(b: Book, ip: string): Book {
    b.(failures := Remove(b.failures, ip), until := Remove(b.until, ip), bans := Remove(b.bans, ip))
  }

  function Rotate(recent: seq<string>, pin: string): seq<string> {
    var longer := recent + [pin];
    if |longer| > MAX_RECENT_PINS then longer[1..] else longer
  }

  function RegisterFailure(b: Book, ip: string, now: nat): Book {
    var failures := Get(b.failures, ip) + 1;
    if failures >= AUTH_FAIL_THRESHOLD then
      b.(failures := b.failures[ip := 0],
         bans := b.bans[ip := Get(b.bans, ip) + 1],
         until := b.until[ip := now + BanSeconds(Get(b.bans, ip)) * SECOND])
    else
      b.(failures := b.failures[ip := failures])
  }

  function Apply(b: Book, op: Op): Book {
    match op
    case Refresh(pin) => b.(recent := Rotate(b.recent, pin), current := pin)
    case Check(ip, now, _) => if ip in b.until && b.until[ip] <= now then Clear(b, ip) else b
    case Judge(_, _) => b
    case Fail(ip, now) => RegisterFailure(b, ip, now)
    case Pass(ip) => Clear(b, ip)
  }

  function Replay(h: seq<Op>): Book {
    if h == [] then EMPTY else Apply(Replay(h[..|h| - 1]), h[|h| - 1])
  }

  predicate IsTimed(op: Op) { op.Check? || op.Fail? }

  /** The latest clock reading in a history. */
  function LastTime(h: seq<Op>): nat {
    if h == [] then 0
    else if IsTimed(h[|h| - 1]) then h[|h| - 1].now
    else LastTime(h[..|h| - 1])
  }

  /** The clock never goes back, and the recorded answers are the ones given. */
  predicate Genuine(h: seq<Op>) {
    h == [] ||
    (var n := |h| - 1;
     var b, op := Replay(h[..n]), h[n];
     && Genuine(h[..n])
     && (IsTimed(op) ==> op.now >= LastTime(h[..n]))
     && (op.Check? ==> op.blocked == IsBlocked(b, op.ip, op.now))
     && (op.Judge? ==> op.ok == (op.pin in b.recent)))
  }

  // ---- the simple form: failures since the last reset ------------------

  /** When the latest ban among these failures ends. */
  function BanEnd(fails: seq<nat>): nat
    requires |fails| >= AUTH_FAIL_THRESHOLD
  {
    var n := |fails| / AUTH_FAIL_THRESHOLD;
    fails[AUTH_FAIL_THRESHOLD * n - 1] + BanSeconds(n - 1) * SECOND
  }

  predicate BanOver(fails: seq<nat>, now: nat) {
    |fails| >= AUTH_FAIL_THRESHOLD && BanEnd(fails) <= now
  }

  /** The times of an IP's failures since its last success or noticed ban expiry. */
  function Since(h: seq<Op>, ip: string): seq<nat> {
    if h == [] then []
    else
      var before := Since(h[..|h| - 1], ip);
      match h[|h| - 1]
      case Fail(who, now) => if who == ip then before + [now] else before
      case Pass(who) => if who == ip then [] else before
      case Check(who, now, _) => if who == ip && BanOver(before, now) then [] else before
      case Refresh(_) => before
      case Judge(_, _) => before
  }

  /** The three tables of one IP, as one list of failure times determines them. */
  predicate Tallies(b: Book, ip: string, fails: seq<nat>) {
    && Get(b.failures, ip) == |fails| % AUTH_FAIL_THRESHOLD
    && Get(b.bans, ip) == |fails| / AUTH_FAIL_THRESHOLD
    && (ip in b.bans <==> |fails| >= AUTH_FAIL_THRESHOLD)
    && (ip in b.until <==> |fails| >= AUTH_FAIL_THRESHOLD)
    && (ip in b.until ==> b.until[ip] == BanEnd(fails))
  }

  lemma FailTallies(b: Book, ip: string, fails: seq<nat>, now: nat)
    requires Tallies(b, ip, fails)
    ensures Tallies(RegisterFailure(b, ip, now), ip, fails + [now])
  {
    var more := fails + [now];
    if |fails| % AUTH_FAIL_THRESHOLD == AUTH_FAIL_THRESHOLD - 1 {
      assert |more| == AUTH_FAIL_THRESHOLD * (|fails| / AUTH_FAIL_THRESHOLD + 1);
      assert |more| / AUTH_FAIL_THRESHOLD == |fails| / AUTH_FAIL_THRESHOLD + 1;
    } else {
      assert |more| / AUTH_FAIL_THRESHOLD == |fails| / AUTH_FAIL_THRESHOLD;
      if |fails| >= AUTH_FAIL_THRESHOLD { assert BanEnd(more) == BanEnd(fails); }
    }
  }

  /** The bookkeeping law: after any history at all, an IP's failure count, ban count and
      ban expiry are those its failures since the last reset determine. In particular the
      j-th ban starts at exactly the 5j-th failure and lasts min(30 * 2^(j-1), 3600)
      seconds, the failure count is below five, and ban entries exist exactly for IPs with
      a positive ban count. */
  lemma {:induction false} Bookkeeping(h: seq<Op>, ip: string)
    ensures Tallies(Replay(h), ip, Since(h, ip))
  {
    if h != [] {
      var n := |h| - 1;
      Bookkeeping(h[..n], ip);
      var b, fails := Replay(h[..n]), Since(h[..n], ip);
      match h[n]
      case Fail(who, now) => if who == ip { FailTallies(b, ip, fails, now); }
      case _ =>
    }
  }

  /** The ban that one more failure starts. */
  lemma EscalationLaw(h: seq<Op>, ip: string, now: nat, j: nat)
    requires j >= 1 && |Since(h, ip)| + 1 == 5 * j
    ensures var b := Replay(h + [Fail(ip, now)]);
            && ip in b.until && b.until[ip] == now + BanSeconds(j - 1) * SECOND
            && Get(b.bans, ip) == j && Get(b.failures, ip) == 0
  {
    var h' := h + [Fail(ip, now)];
    assert h'[..|h|] == h;
    Bookkeeping(h', ip);
    assert |Since(h', ip)| / AUTH_FAIL_THRESHOLD == j;
  }

  lemma {:induction false} GenuinePrefix(h: seq<Op>, n: nat)
    requires Genuine(h) && n <= |h|
    ensures Genuine(h[..n])
    decreases |h|
  {
    if n < |h| {
      GenuinePrefix(h[..|h| - 1], n);
      assert h[..|h| - 1][..n] == h[..n];
    } else {
      assert h[..n] == h;
    }
  }

  /** A ban check answers yes exactly while the ban that the recorded failures determine
      has not ended. */
  lemma CheckIsByFailures(h: seq<Op>, i: nat)
    requires Genuine(h) && i < |h| && h[i].Check?
    ensures var fails := Since(h[..i], h[i].ip);
            h[i].blocked <==> |fails| >= AUTH_FAIL_THRESHOLD && BanEnd(fails) > h[i].now
  {
    GenuinePrefix(h, i + 1);
    assert h[..i + 1][..i] == h[..i];
    Bookkeeping(h[..i], h[i].ip);
  }

  // ---- the PIN window --------------------------------------------------

  function Pins(h: seq<Op>): seq<string> {
    if h == [] then []
    else Pins(h[..|h| - 1]) + if h[|h| - 1].Refresh? then [h[|h| - 1].pin] else []
  }

  function Last<T>(s: seq<T>, n: nat): seq<T> { if |s| <= n then s else s[|s| - n..] }

  /** The window is always the last twelve PINs issued, and ends with the current one. */
  lemma {:induction false} WindowIsHistory(h: seq<Op>)
    ensures Replay(h).recent == Last(Pins(h), 12)
    ensures Pins(h) != [] ==> Replay(h).current == Pins(h)[|Pins(h)| - 1]
  {
    if h != [] {
      var n := |h| - 1;
      WindowIsHistory(h[..n]);
      if h[n].Refresh? { RotateLast(Pins(h[..n]), h[n].pin); }
    }
  }

  lemma RotateLast(ps: seq<string>, pin: string)
    ensures Rotate(Last(ps, MAX_RECENT_PINS), pin) == Last(ps + [pin], MAX_RECENT_PINS)
  {
  }

  /** A PIN is accepted exactly while fewer than twelve PINs have followed one of its
      issues. */
  lemma PinLifetime(h: seq<Op>, pin: string)
    ensures pin in Replay(h).recent <==>
            exists k :: 0 <= k < |Pins(h)| && |Pins(h)| - k <= 12 && Pins(h)[k] == pin
  {
    hide Pins, Replay;
    WindowIsHistory(h);
    LastHolds(Pins(h), MAX_RECENT_PINS, pin);
  }

  lemma LastHolds<T>(s: seq<T>, n: nat, x: T)
    ensures x in Last(s, n) <==> exists k :: 0 <= k < |s| && |s| - k <= n && s[k] == x
  {
    var last := Last(s, n);
    var gone := |s| - |last|;
    if x in last {
      var i :| 0 <= i < |last| && last[i] == x;
      assert s[gone + i] == x;
    }
    if k :| 0 <= k < |s| && |s| - k <= n && s[k] == x {
      assert last[k - gone] == x;
    }
  }

  /** A PIN is ruled valid exactly when it is one of the last twelve issued before. */
  lemma RulingIsByWindow(h: seq<Op>, i: nat)
    requires Genuine(h) && i < |h| && h[i].Judge?
    ensures var ps := Pins(h[..i]);
            h[i].ok <==> exists k :: 0 <= k < |ps| && |ps| - k <= 12 && ps[k] == h[i].pin
  {
    GenuinePrefix(h, i + 1);
    assert h[..i + 1][..i] == h[..i];
    PinLifetime(h[..i], h[i].pin);
  }

  // ---- the daemon's discipline -----------------------------------------

  /** Where the one server thread is in handling a PIN line. */
  datatype Turn = Free | Admitted(ip: string) | Ruled(ip: string, ok: bool)

  /** `handleAuth`: ask for a ban, compare the PIN, register the outcome. Refreshes come
      from another thread at any time. */
  function TurnAfter(turn: Turn, op: Op): Option<Turn> {
    if op.Refresh? then Some(turn)
    else match turn
      case Free =>
        if op.Check? then Some(if op.blocked then Free else Admitted(op.ip)) else None
      case Admitted(ip) =>
        if op.Judge? then Some(Ruled(ip, op.ok)) else None
      case Ruled(ip, ok) =>
        if (ok && op == Pass(ip)) || (!ok && op.Fail? && op.ip == ip) then Some(Free) else None
  }

  function Turns(h: seq<Op>): Option<Turn> {
    if h == [] then Some(Free)
    else
      match Turns(h[..|h| - 1])
      case None => None
      case Some(turn) => TurnAfter(turn, h[|h| - 1])
  }

  /** A history the daemon can produce, up to any moment. */
  predicate Served(h: seq<Op>) { Genuine(h) && Turns(h).Some? }

  predicate MidTurn(h: seq<Op>, ip: string) {
    Turns(h).Some? && !Turns(h).value.Free? && Turns(h).value.ip == ip
  }

  /** On the daemon's path an IP never has more than five failures on record, and never
      five while its PIN is being judged. */
  lemma {:induction false} FewOnRecord(h: seq<Op>, ip: string)
    requires Served(h)
    ensures |Since(h, ip)| <= 5
    ensures MidTurn(h, ip) ==> |Since(h, ip)| < 5
  {
    if h != [] {
      var n := |h| - 1;
      FewOnRecord(h[..n], ip);
      Bookkeeping(h[..n], ip);
    }
  }

  /** Hence bans never escalate in the daemon: every ban is an IP's first, and lasts 30
      seconds from its fifth failure, although ten failures in a row would double it. */
  lemma BansNeverEscalate(h: seq<Op>, ip: string)
    requires Served(h)
    ensures var b := Replay(h);
            && Get(b.bans, ip) <= 1
            && (ip in b.until ==>
                  |Since(h, ip)| == 5 && b.until[ip] == Since(h, ip)[4] + 30_000_000_000)
  {
    FewOnRecord(h, ip);
    Bookkeeping(h, ip);
    assert Power2(0) == 1;
  }

  /** Ten direct failures do escalate: the law is about the class, not the daemon. */
  lemma DirectFailuresEscalate(ip: string, now: nat)
    ensures var h := seq(10, _ => Fail(ip, now));
            Replay(h).until == map[ip := now + 60 * SECOND] && !Served(h)
  {
    var h := seq(10, _ => Fail(ip, now));
    var nine := h[..9];
    assert nine == seq(9, _ => Fail(ip, now));
    SinceFailures(ip, now, 9);
    assert h == nine + [Fail(ip, now)];
    EscalationLaw(nine, ip, now, 2);
    assert Power2(1) == 2 * Power2(0);
    OnlyFailures(ip, now, 10);
    assert h[..1] == [Fail(ip, now)];
    NotServed(h);
  }

  lemma {:induction false} SinceFailures(ip: string, now: nat, n: nat)
    ensures |Since(seq(n, _ => Fail(ip, now)), ip)| == n
  {
    if n > 0 {
      assert seq(n, _ => Fail(ip, now))[..n - 1] == seq(n - 1, _ => Fail(ip, now));
      SinceFailures(ip, now, n - 1);
    }
  }

  lemma {:induction false} OnlyFailures(ip: string, now: nat, n: nat)
    ensures Replay(seq(n, _ => Fail(ip, now))).until.Keys <= {ip}
  {
    if n > 0 {
      assert seq(n, _ => Fail(ip, now))[..n - 1] == seq(n - 1, _ => Fail(ip, now));
      OnlyFailures(ip, now, n - 1);
    }
  }

  lemma {:induction false} NotServed(h: seq<Op>)
    requires h != [] && h[0].Fail?
    ensures Turns(h).None?
  {
    if |h| > 1 {
      NotServed(h[..|h| - 1]);
    } else {
      assert h[..0] == [];
    }
  }

  lemma ServedPrefix(h: seq<Op>, n: nat)
    requires Served(h) && n <= |h|
    ensures Served(h[..n])
    decreases |h| - n
  {
    if n == |h| {
      assert h[..n] == h;
    } else {
      ServedPrefix(h, n + 1);
      assert h[..n + 1][..n] == h[..n];
    }
  }

  /** No PIN, right or wrong, is ruled on while a ban of its IP stands. */
  lemma NoRulingUnderBan(h: seq<Op>, i: nat)
    requires Served(h) && i < |h| && (h[i].Pass? || h[i].Fail?)
    ensures h[i].ip !in Replay(h[..i]).until
  {
    ServedPrefix(h, i);
    ServedPrefix(h, i + 1);
    assert h[..i + 1][..i] == h[..i];
    FewOnRecord(h[..i], h[i].ip);
    Bookkeeping(h[..i], h[i].ip);
  }

  // ---- the guess rate --------------------------------------------------

  /** The times of all wrong PINs from an IP. */
  function FailTimes(h: seq<Op>, ip: string): seq<nat> {
    if h == [] then []
    else
      var op := h[|h| - 1];
      FailTimes(h[..|h| - 1], ip) + if op.Fail? && op.ip == ip then [op.now] else []
  }

  /** The failures on record are among all failures. */
  lemma {:induction false} SinceAreFailures(h: seq<Op>, ip: string)
    ensures forall i :: 0 <= i < |Since(h, ip)| ==> Since(h, ip)[i] in FailTimes(h, ip)
  {
    if h != [] { SinceAreFailures(h[..|h| - 1], ip); }
  }

  predicate Sorted(a: seq<nat>) { forall i, j :: 0 <= i <= j < |a| ==> a[i] <= a[j] }

  /** Any six consecutive failures span at least one ban. */
  predicate Spaced(a: seq<nat>) {
    forall i :: 0 <= i && i + AUTH_FAIL_THRESHOLD < |a| ==> a[i] + FIRST_BAN <= a[i + AUTH_FAIL_THRESHOLD]
  }

  /** How the failures `a` of a window relate to those on record and to the clock. */
  predicate Paced(a: seq<nat>, record: seq<nat>, clock: nat) {
    && Sorted(a) && Spaced(a)
    && (forall i :: 0 <= i < |a| ==> a[i] <= clock)
    && (a != [] && record != [] ==> a[|a| - 1] == record[|record| - 1])
    && (|a| > |record| ==> a[|a| - |record| - 1] + FIRST_BAN <= clock)
  }

  lemma FailPaced(a: seq<nat>, record: seq<nat>, clock: nat, now: nat)
    requires Paced(a, record, clock) && |record| < AUTH_FAIL_THRESHOLD && now >= clock
    ensures Paced(a + [now], record + [now], now)
  {
    var more := a + [now];
    forall i | 0 <= i && i + AUTH_FAIL_THRESHOLD < |more|
      ensures more[i] + FIRST_BAN <= more[i + AUTH_FAIL_THRESHOLD]
    {
      if i + AUTH_FAIL_THRESHOLD == |a| {
        assert a[i] <= a[|a| - |record| - 1];
      }
    }
  }

  lemma ResetPaced(a: seq<nat>, record: seq<nat>, clock: nat, now: nat)
    requires Paced(a, record, clock) && |record| == AUTH_FAIL_THRESHOLD && now >= clock
    requires BanOver(record, now)
    ensures Paced(a, [], now)
  {
    assert Power2(0) == 1;
    assert record[4] + FIRST_BAN <= now;
  }

  lemma ServedLast(h: seq<Op>, op: Op)
    requires Served(h + [op])
    ensures Served(h) && (IsTimed(op) ==> op.now >= LastTime(h))
    ensures op.Fail? ==> MidTurn(h, op.ip)
  {
    assert (h + [op])[..|h|] == h;
  }

  /** The next operation of a served history keeps the pace. */
  lemma StepPaced(h: seq<Op>, op: Op, a: seq<nat>, ip: string)
    requires Served(h + [op]) && op != Pass(ip)
    requires Paced(a, Since(h, ip), LastTime(h))
    ensures Paced(if op.Fail? && op.ip == ip then a + [op.now] else a,
                  Since(h + [op], ip), LastTime(h + [op]))
  {
    hide Genuine, Replay, Turns, Sorted, Spaced, BanEnd;
    assert (h + [op])[..|h|] == h;
    ServedLast(h, op);
    FewOnRecord(h, ip);
    if op.Fail? && op.ip == ip {
      FailPaced(a, Since(h, ip), LastTime(h), op.now);
    } else if op.Check? && op.ip == ip && BanOver(Since(h, ip), op.now) {
      ResetPaced(a, Since(h, ip), LastTime(h), op.now);
    }
  }

  lemma {:induction false} WindowPaced(before: seq<Op>, window: seq<Op>, ip: string)
    requires Served(before + window) && Pass(ip) !in window
    ensures Paced(FailTimes(window, ip), Since(before + window, ip), LastTime(before + window))
  {
    if window != [] {
      var n := |window| - 1;
      var h := before + window[..n];
      assert before + window == h + [window[n]];
      assert (before + window)[..|h|] == h;
      ServedPrefix(before + window, |h|);
      WindowPaced(before, window[..n], ip);
      StepPaced(h, window[n], FailTimes(window[..n], ip), ip);
      assert FailTimes(window[..n], ip) + [] == FailTimes(window[..n], ip);
    }
  }

  lemma {:induction false} SpacedReach(a: seq<nat>, k: nat)
    requires Spaced(a) && AUTH_FAIL_THRESHOLD * k < |a|
    ensures a[0] + FIRST_BAN * k <= a[AUTH_FAIL_THRESHOLD * k]
  {
    if k > 0 {
      SpacedReach(a, k - 1);
      assert a[AUTH_FAIL_THRESHOLD * (k - 1)] + FIRST_BAN <= a[AUTH_FAIL_THRESHOLD * (k - 1) + AUTH_FAIL_THRESHOLD];
    }
  }

  /** The guess rate over all connections: in any stretch of a history without a success
      from an IP, at most 5 * (T / 30s + 1) wrong PINs from it fall within any time T. */
  lemma GuessRate(before: seq<Op>, window: seq<Op>, ip: string, span: nat)
    requires Served(before + window) && Pass(ip) !in window
    requires var a := FailTimes(window, ip); a != [] ==> a[|a| - 1] <= a[0] + span
    ensures |FailTimes(window, ip)| <= 5 * (span / 30_000_000_000 + 1)
  {
    WindowPaced(before, window, ip);
    var a := FailTimes(window, ip);
    if a != [] {
      var k := (|a| - 1) / AUTH_FAIL_THRESHOLD;
      SpacedReach(a, k);
      assert FIRST_BAN * k <= span;
      assert k <= span / FIRST_BAN by { DivideMonotone(k, span); }
    }
  }

  lemma DivideMonotone(k: nat, span: nat)
    requires FIRST_BAN * k <= span
    ensures k <= span / FIRST_BAN
  {
  }
}
