/** From a PIN drawn by the daemon to its acceptance from a client. */
module Admission {
  import opened Text
  import Protocol
  import opened AuthBook
  import Framing
  import SM = SessionManagement
  import ClientSessions

  /** No ban of this IP stands at this time. */
  predicate Free(h: seq<Op>, ip: string, now: nat) {
    var fails := Since(h, ip);
    |fails| < AUTH_FAIL_THRESHOLD || BanEnd(fails) <= now
  }

  /** One of the last twelve PINs issued. */
  ghost predicate Current(h: seq<Op>, pin: string) {
    exists k :: 0 <= k < |Pins(h)| && |Pins(h)| - k <= 12 && Pins(h)[k] == pin
  }

  lemma RulingsAreCurrent(h: seq<Op>, i: nat)
    requires Genuine(h) && i < |h| && h[i].Judge?
    ensures h[i].ok <==> Current(h[..i], h[i].pin)
  {
    RulingIsByWindow(h, i);
  }

  /** What the shared state can answer to a PIN line is determined: the ban check says no
      exactly when no ban stands, and the PIN is ruled valid exactly when it is current. */
  lemma AnswersAreDetermined(h: seq<Op>, ip: string, now: nat, pin: string, blocked: bool, ok: bool)
    requires Genuine(h) && now >= LastTime(h)
    ensures Genuine(h + [Check(ip, now, blocked), Judge(pin, ok)]) <==>
            blocked == !Free(h, ip, now) && ok == Current(h, pin)
  {
    var checked := h + [Check(ip, now, blocked)];
    var judged := h + [Check(ip, now, blocked), Judge(pin, ok)];
    assert checked[..|h|] == h;
    assert judged[..|h| + 1] == checked;
    Bookkeeping(h, ip);
    PinLifetime(checked, pin);
    assert Pins(checked) == Pins(h) + [] == Pins(h);
  }

  /** A PIN that the daemon drew, in any framing a client may use, from an IP without a
      standing ban: it is ruled valid as long as it is one of the last twelve, and only
      then. */
  lemma DrawnPinIsAdmitted(h: seq<Op>, ip: string, now: nat, digits: nat, v: nat,
                           prefix: string, head: string, tail: string)
    requires Genuine(h) && now >= LastTime(h) && Free(h, ip, now)
    requires 1 <= digits && Power10(digits - 1) <= v <= Power10(digits) - 1
    requires prefix == "" || prefix == "AUTH:"
    requires AllIn(head, Protocol.PIN_HEAD) && AllIn(tail, Protocol.PIN_TAIL)
    ensures var pin := Protocol.Pin(Protocol.Chomp(prefix + head + Print(v) + tail));
            && |pin| == digits
            && Genuine(h + [Check(ip, now, false), Judge(pin, Current(h, Print(v)))])
            && !Genuine(h + [Check(ip, now, false), Judge(pin, !Current(h, Print(v)))])
  {
    Framing.DrawnPinsAreFramed(digits, v, prefix, head, tail);
    AnswersAreDetermined(h, ip, now, Print(v), false, true);
    AnswersAreDetermined(h, ip, now, Print(v), false, false);
  }

  /** Refreshes change nothing for the ban of an IP. */
  lemma {:induction false} RefreshesKeepFree(before: seq<Op>, after: seq<Op>, ip: string)
    requires SM.OnlyRefreshes(before, after)
    ensures Since(after, ip) == Since(before, ip) && LastTime(after) == LastTime(before)
  {
    if before != after {
      var n := |after| - 1;
      assert before <= after[..n];
      RefreshesKeepFree(before, after[..n], ip);
    }
  }

  /** The verdict on a served PIN line: a refusal without a ruling exactly when a ban stood
      at the check, and otherwise an acceptance exactly when the PIN was one of the last
      twelve at its ruling. Refreshes may come before the check and the ruling. */
  lemma VerdictIsDetermined(before: seq<Op>, after: seq<Op>, ip: string, pin: string, v: Protocol.Verdict)
    returns (i: nat, j: nat)
    requires Genuine(after) && ClientSessions.Served(before, after, ip, pin, v)
    ensures |before| <= i < |after| && after[i].Check? && after[i].now >= LastTime(before)
    ensures v == Protocol.Blocked <==> !Free(before, ip, after[i].now)
    ensures v != Protocol.Blocked ==>
              && i < j < |after| && after[j] == Judge(pin, v == Protocol.Accepted)
              && (v == Protocol.Accepted <==> Current(after[..j], pin))
  {
    hide ClientSessions.Served, Since, BanEnd, Current;
    var p;
    i, j, p := ClientSessions.RoundTakesPlace(before, after, ip, pin, v);
    CheckIsByFailures(after, i);
    GenuinePrefix(after, i + 1);
    assert after[..i + 1][..i] == after[..i];
    RefreshesKeepFree(before, after[..i], ip);
    if v != Protocol.Blocked { RulingsAreCurrent(after, j); }
  }

  /** From the draw to the header stage: a client that sends a PIN the daemon drew, in any
      framing, is answered AUTH_OK and may go on if no ban of it stands when its line comes
      to the check and the PIN is one of the last twelve when it comes to the ruling,
      whatever refreshes come while the line is served. */
  lemma DrawnPinOpensSession(w: Protocol.World, p: Protocol.Parser, before: seq<Op>, after: seq<Op>, ip: string,
                             digits: nat, v: nat, prefix: string, head: string, tail: string)
    requires p.mode.stage == Protocol.AUTH && !p.mode.closed && p.mode.line == ""
    requires 1 <= digits && Power10(digits - 1) <= v <= Power10(digits) - 1
    requires prefix == "" || prefix == "AUTH:"
    requires AllIn(head, Protocol.PIN_HEAD) && AllIn(tail, Protocol.PIN_TAIL)
    requires Genuine(after) && ClientSessions.Served(before, after, ip, Print(v), w.auth(p.mode.attempts))
    requires forall i :: |before| <= i < |after| && after[i].Check? ==> Free(before, ip, after[i].now)
    requires forall j :: |before| <= j < |after| && after[j].Judge? ==> Current(after[..j], Print(v))
    ensures var line := prefix + head + Print(v) + tail;
            Protocol.FeedAll(w, p, Protocol.Bytes(line + "\n")) ==
            p.After(Protocol.Reaction(p.mode.(stage := Protocol.HEADER, afterFile := false),
                                      [Protocol.Judged(Print(v)), Protocol.Sent(Protocol.AuthOk)]))
  {
    hide ClientSessions.Served, Current, Since, BanEnd, Genuine, Power10, Protocol.Bytes, Protocol.FeedAll,
      Protocol.Pin, Protocol.Chomp, Print;
    var line := prefix + head + Print(v) + tail;
    var i, j := VerdictIsDetermined(before, after, ip, Print(v), w.auth(p.mode.attempts));
    assert w.auth(p.mode.attempts) == Protocol.Accepted;
    Framing.DrawnPinsAreFramed(digits, v, prefix, head, tail);
    assert '\n' !in line by { NoNewline(prefix, head, Print(v), tail); }
    Protocol.FeedLine(w, p, line);
  }

  lemma NoNewline(prefix: string, head: string, pin: string, tail: string)
    requires prefix == "" || prefix == "AUTH:"
    requires AllIn(head, Protocol.PIN_HEAD) && AllIn(tail, Protocol.PIN_TAIL) && AllDigits(pin)
    ensures '\n' !in prefix + head + pin + tail
  {
  }

  // ---- every success is earned -----------------------------------------

  /** The ban check, the ruling and the success by which this PIN admitted the IP, at a
      time when no ban of the IP stood and the PIN was one of the last twelve. */
  ghost predicate LawfullyAt(h: seq<Op>, ip: string, pin: string, c: nat, j: nat, p: nat)
    requires c < j < p < |h|
  {
    && ClientSessions.AdmitsAt(h, ip, pin, c, j, p)
    && Free(h[..c], ip, h[c].now)
    && Current(h[..j], pin)
  }

  lemma AdmittedLawfully(h: seq<Op>, ip: string, pin: string, c: nat, j: nat, p: nat)
    requires Genuine(h) && c < j < p < |h| && ClientSessions.AdmitsAt(h, ip, pin, c, j, p)
    ensures LawfullyAt(h, ip, pin, c, j, p)
  {
    hide SM.OnlyRefreshes;
    CheckIsByFailures(h, c);
    RulingsAreCurrent(h, j);
  }

  /** Where the turn that a history is in began. */
  lemma {:induction false} TurnHasPlace(h: seq<Op>) returns (c: nat, j: nat)
    requires Turns(h).Some? && !Turns(h).value.Free?
    ensures c < |h| && h[c].Check? && h[c].ip == Turns(h).value.ip && !h[c].blocked
    ensures Turns(h).value.Admitted? ==> SM.OnlyRefreshes(h[..c + 1], h)
    ensures Turns(h).value.Ruled? ==>
              && c < j < |h| && h[j].Judge? && h[j].ok == Turns(h).value.ok
              && SM.OnlyRefreshes(h[..c + 1], h[..j]) && SM.OnlyRefreshes(h[..j + 1], h)
  {
    var n := |h| - 1;
    var before := h[..n];
    if h[n].Refresh? {
      c, j := TurnHasPlace(before);
      assert before[..c + 1] == h[..c + 1];
      if Turns(h).value.Ruled? { assert before[..j] == h[..j] && before[..j + 1] == h[..j + 1]; }
    } else if h[n].Judge? {
      c, j := TurnHasPlace(before);
      j := n;
      assert before[..c + 1] == h[..c + 1] && h[..j + 1] == h;
    } else {
      c, j := n, n;
      assert h[..c + 1] == h;
    }
  }

  /** Over every history of the daemon, all connections included: each registered success
      follows its own free ban check and its own ruling on a then current PIN. */
  lemma SuccessIsEarned(h: seq<Op>, p: nat) returns (c: nat, j: nat)
    requires Served(h) && p < |h| && h[p].Pass?
    ensures c < j < p && h[j].Judge? && LawfullyAt(h, h[p].ip, h[j].pin, c, j, p)
  {
    hide LawfullyAt, Genuine;
    ServedPrefix(h, p + 1);
    assert h[..p + 1][..p] == h[..p];
    c, j := TurnHasPlace(h[..p]);
    assert h[..p][..c + 1] == h[..c + 1] && h[..p][..j] == h[..j] && h[..p][..j + 1] == h[..j + 1];
    AdmittedLawfully(h, h[p].ip, h[j].pin, c, j, p);
  }
}
