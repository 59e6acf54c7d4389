/** The authentication state shared by all connections and the PIN refresh thread. */
module SessionManagement {
  import opened Text
  import opened AuthBook

  const PAIRING_PIN_DIGITS := 6

  /** The largest number of digits for which the bounds fit the source's `int`. */
  const MAX_INT_DIGITS := 9

  /** The bounds from which a PIN with `digits` digits is drawn. */
  method PinRange(digits: int) returns (minVal: int, maxVal: int)
    requires 1 <= digits <= MAX_INT_DIGITS
    ensures minVal == Power10(digits - 1) && maxVal == Power10(digits) - 1
    ensures minVal <= maxVal <= INT_MAX
  {
    minVal := 1;
    var i := 1;
    while i < digits
      invariant 1 <= i <= digits
      invariant minVal == Power10(i - 1)
    {
      minVal := minVal * 10;
      i := i + 1;
    }
    maxVal := minVal * 10 - 1;
    assert maxVal <= INT_MAX by { Power10Bounded(digits); }
  }

  lemma Power10Bounded(e: nat)
    requires 1 <= e <= MAX_INT_DIGITS
    ensures Power10(e) <= 1_000_000_000
  {
    assert Power10(1) == 10 && Power10(2) == 100 && Power10(3) == 1000;
    assert Power10(4) == 10_000 && Power10(5) == 100_000 && Power10(6) == 1_000_000;
    assert Power10(7) == 10_000_000 && Power10(8) == 100_000_000 && Power10(9) == 1_000_000_000;
  }

  /** Draws a PIN uniformly between the bounds; any value may come. */
  method GeneratePin() returns (pin: string)
    ensures |pin| == 6 && AllDigits(pin) && pin[0] != '0'
  {
    var minVal, maxVal := PinRange(PAIRING_PIN_DIGITS);
    var v: int := *;
    if v < minVal || v > maxVal { v := minVal; }
    PrintLength(v, PAIRING_PIN_DIGITS);
    pin := Print(v);
  }

  /** Every operation added to `before` is a PIN refresh. */
  ghost predicate OnlyRefreshes(before: seq<Op>, after: seq<Op>) {
    && before <= after
    && forall i :: |before| <= i < |after| ==> after[i].Refresh?
  }

  lemma {:induction false} RefreshesKeepTurn(before: seq<Op>, after: seq<Op>)
    requires OnlyRefreshes(before, after)
    ensures Turns(after) == Turns(before)
    ensures WithoutRefreshes(after) == WithoutRefreshes(before)
  {
    if before != after {
      var n := |after| - 1;
      assert before <= after[..n];
      RefreshesKeepTurn(before, after[..n]);
    } else {
      assert before == after;
    }
  }

  function WithoutRefreshes(h: seq<Op>): seq<Op> {
    if h == [] then []
    else WithoutRefreshes(h[..|h| - 1]) + if h[|h| - 1].Refresh? then [] else [h[|h| - 1]]
  }

  lemma {:induction false} WithoutRefreshesAppend(a: seq<Op>, b: seq<Op>)
    ensures WithoutRefreshes(a + b) == WithoutRefreshes(a) + WithoutRefreshes(b)
  {
    if b == [] {
      assert a + b == a;
    } else {
      var n := |b| - 1;
      assert (a + b)[..|a + b| - 1] == a + b[..n];
      WithoutRefreshesAppend(a, b[..n]);
    }
  }

  /** Where the first operation that is not a refresh stands. */
  lemma {:induction false} FirstKept(h: seq<Op>) returns (i: nat)
    requires WithoutRefreshes(h) != []
    ensures i < |h| && h[i] == WithoutRefreshes(h)[0] && OnlyRefreshes([], h[..i])
    ensures WithoutRefreshes(h[i + 1..]) == WithoutRefreshes(h)[1..]
    decreases |h|
  {
    assert h == h[..1] + h[1..] && h[..1] == [h[0]];
    WithoutRefreshesAppend(h[..1], h[1..]);
    assert WithoutRefreshes([]) == [] && h[..1][..0] == [];
    if h[0].Refresh? {
      assert WithoutRefreshes(h) == WithoutRefreshes(h[1..]);
      var j := FirstKept(h[1..]);
      i := j + 1;
      assert h[1..][j + 1..] == h[i + 1..] && h[..i] == [h[0]] + h[1..][..j];
    } else {
      i := 0;
    }
  }

  lemma OneMoreOp(h: seq<Op>, op: Op)
    ensures Turns(h).Some? ==> Turns(h + [op]) == TurnAfter(Turns(h).value, op)
    ensures !op.Refresh? ==> WithoutRefreshes(h + [op]) == WithoutRefreshes(h) + [op]
  {
    assert (h + [op])[..|h|] == h;
  }

  class SessionManager {
    var recentPins: seq<string>
    var currentPin: string
    var authFailures: map<string, nat>
    var blockedUntil: map<string, nat>
    var banCount: map<string, nat>
    var clock: nat                       // the latest reading of the monotone clock
    ghost var history: seq<Op>           // every call so far

    ghost predicate Valid()
      reads this
    {
      && Genuine(history)
      && clock >= LastTime(history)
      && Replay(history) == Contents()
    }

    ghost function Contents(): Book
      reads this
    {
      Book(recentPins, currentPin, authFailures, blockedUntil, banCount)
    }

    constructor ()
      ensures Valid() && history == []
    {
      recentPins, currentPin := [], "";
      authFailures, blockedUntil, banCount := map[], map[], map[];
      clock := 0;
      history := [];
    }

    /** `steady_clock::now()`: any reading that is not earlier than the last. */
    method Now() returns (now: nat)
      modifies this`clock
      ensures now == clock && clock >= old(clock)
    {
      var elapsed: int := *;
      if elapsed > 0 { clock := clock + elapsed; }
      now := clock;
    }

    ghost method Record(op: Op)
      requires Genuine(history) && clock >= LastTime(history)
      requires IsTimed(op) ==> LastTime(history) <= op.now <= clock
      requires op.Check? ==> op.blocked == IsBlocked(Replay(history), op.ip, op.now)
      requires op.Judge? ==> op.ok == (op.pin in Replay(history).recent)
      modifies this`history
      ensures history == old(history) + [op]
      ensures Genuine(history) && clock >= LastTime(history)
      ensures Replay(history) == Apply(Replay(old(history)), op)
    {
      history := history + [op];
      assert history[..|history| - 1] == old(history);
    }

    /** `persisted` is the PIN found in the session file, if there is one. */
    method GenerateSession(preservePin: bool, persisted: Option<string>)
      requires Valid()
      modifies this
      ensures Valid() && clock == old(clock)
      ensures history == old(history) + [Refresh(currentPin)]
      ensures if preservePin && persisted.Some? then currentPin == persisted.value
              else |currentPin| == 6 && AllDigits(currentPin) && currentPin[0] != '0'
    {
      if preservePin && persisted.Some? {
        currentPin := persisted.value;
      } else {
        currentPin := GeneratePin();
      }
      recentPins := recentPins + [currentPin];
      if |recentPins| > MAX_RECENT_PINS {
        recentPins := recentPins[1..];
      }
      Record(Refresh(currentPin));
    }

    /** What the refresh thread may do between two calls of the server thread. */
    method RefreshThread()
      requires Valid()
      modifies this
      ensures Valid() && OnlyRefreshes(old(history), history)
    {
      var rounds: int := *;
      while rounds > 0
        invariant Valid() && OnlyRefreshes(old(history), history)
      {
        GenerateSession(false, None);
        rounds := rounds - 1;
      }
    }

    method ValidateKey(pin: string) returns (ok: bool)
      requires Valid()
      modifies this`history
      ensures Valid() && history == old(history) + [Judge(pin, ok)]
      ensures ok <==> pin in recentPins
    {
      ok := pin in recentPins;
      Record(Judge(pin, ok));
    }

    method IsIpBlocked(ip: string) returns (blocked: bool)
      requires Valid()
      modifies this
      ensures Valid() && clock >= old(clock)
      ensures history == old(history) + [Check(ip, clock, blocked)]
      ensures blocked <==> ip in blockedUntil
    {
      hide Genuine, Replay;
      if ip !in blockedUntil {
        var t := Now();
        Record(Check(ip, t, false));
        return false;
      }
      var now := Now();
      if blockedUntil[ip] <= now {
        ghost var op := Check(ip, now, false);
        blockedUntil := Remove(blockedUntil, ip);
        authFailures := Remove(authFailures, ip);
        banCount := Remove(banCount, ip);
        Record(op);
        return false;
      }
      Record(Check(ip, now, true));
      return true;
    }

    /** How long the next ban lasts after `nBans` earlier ones. */
    method BanLength(nBans: nat) returns (secs: nat)
      ensures secs == BanSeconds(nBans) == Min(30 * Power2(nBans), 3600)
    {
      secs := AUTH_BAN_INITIAL_SECS;
      var i := 0;
      while i < nBans && secs < AUTH_BAN_MAX_SECS
        invariant 0 <= i <= nBans
        invariant secs == AUTH_BAN_INITIAL_SECS * Power2(i)
        invariant secs < 2 * AUTH_BAN_MAX_SECS
      {
        secs := secs * 2;
        i := i + 1;
      }
      DoublingStops(i, nBans, secs);
      secs := Min(secs, AUTH_BAN_MAX_SECS);
    }

    method RegisterAuthFailure(ip: string)
      requires Valid()
      modifies this
      ensures Valid() && clock >= old(clock)
      ensures history == old(history) + [Fail(ip, clock)]
    {
      hide BanSeconds, Genuine, Replay, LastTime;
      ghost var book := Contents();
      var failures := Get(authFailures, ip) + 1;
      authFailures := authFailures[ip := failures];
      var now := Now();   // the moment of this failure; the source asks only when it bans
      if failures >= AUTH_FAIL_THRESHOLD {
        var nBans := Get(banCount, ip);
        banCount := banCount[ip := nBans + 1];
        var secs := BanLength(nBans);
        blockedUntil := blockedUntil[ip := now + secs * SECOND];
        authFailures := authFailures[ip := 0];
        assert authFailures == book.failures[ip := 0];
      }
      assert Contents() == RegisterFailure(book, ip, now);
      Record(Fail(ip, now));
    }

    method RegisterAuthSuccess(ip: string)
      requires Valid()
      modifies this
      ensures Valid() && clock == old(clock)
      ensures history == old(history) + [Pass(ip)]
    {
      authFailures := Remove(authFailures, ip);
      blockedUntil := Remove(blockedUntil, ip);
      banCount := Remove(banCount, ip);
      Record(Pass(ip));
    }
  }

  /** A doubling that stopped at the cap has the capped value of the full doubling. */
  lemma DoublingStops(i: nat, n: nat, secs: nat)
    requires i <= n && secs == AUTH_BAN_INITIAL_SECS * Power2(i)
    requires i < n ==> secs >= AUTH_BAN_MAX_SECS
    ensures Min(secs, AUTH_BAN_MAX_SECS) == BanSeconds(n)
  {
    if i < n { Power2Grows(i, n); }
  }

  lemma {:induction false} Power2Grows(i: nat, n: nat)
    requires i <= n
    ensures Power2(i) <= Power2(n)
    decreases n - i
  {
    if i < n { Power2Grows(i + 1, n); }
  }
}
