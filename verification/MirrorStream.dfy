/** The mirror stream: `[uint32 big-endian length][payload]` frames, read from a socket
    that hands out any fragments it likes. */
module MirrorStream {
  import opened Text

  newtype byte = x: int | 0 <= x < 0x100

  const MAX_FRAME_BYTES := 24 * 1024 * 1024
  const UINT32_RANGE := 0x1_0000_0000

  // ---- the byte arithmetic of the header -------------------------------

  /** `x << k` on 32 bits. */
  function ShiftLeft(x: nat, k: nat): nat { x * Power2(k) % UINT32_RANGE }

  /** `a | b`, bit by bit. */
  function Or(a: nat, b: nat): nat
    decreases a + b
  {
    if a == 0 && b == 0 then 0
    else (if a % 2 == 1 || b % 2 == 1 then 1 else 0) + 2 * Or(a / 2, b / 2)
  }

  /** The length the source computes from four header bytes. */
  function Decode(h: seq<byte>): nat
    requires |h| == 4
  {
    Or(Or(Or(ShiftLeft(h[0] as nat, 24), ShiftLeft(h[1] as nat, 16)), ShiftLeft(h[2] as nat, 8)), h[3] as nat)
  }

  /** The positional value of four bytes, most significant first. */
  function Positional(h: seq<byte>): nat
    requires |h| == 4
  {
    ((h[0] as nat * 256 + h[1] as nat) * 256 + h[2] as nat) * 256 + h[3] as nat
  }

  lemma {:induction false} OrZero(a: nat)
    ensures Or(a, 0) == a
  {
    if a > 0 { OrZero(a / 2); }
  }

  /** Or-ing in bits below all set ones adds them. */
  lemma {:induction false} OrAdds(x: nat, k: nat, y: nat)
    requires y < Power2(k)
    ensures Or(x * Power2(k), y) == x * Power2(k) + y
    decreases k
  {
    if k == 0 {
      OrZero(x);
    } else {
      var p := Power2(k - 1);
      var a := x * Power2(k);
      assert a == 2 * (x * p);
      OrAdds(x, k - 1, y / 2);
      if a == 0 && y == 0 {
      } else {
        assert a % 2 == 0 && a / 2 == x * p;
        assert Or(a, y) == (if y % 2 == 1 then 1 else 0) + 2 * Or(x * p, y / 2);
      }
    }
  }

  lemma Powers()
    ensures Power2(8) == 0x100 && Power2(16) == 0x1_0000 && Power2(24) == 0x100_0000
  {
    assert Power2(1) == 2 && Power2(2) == 4 && Power2(4) == 16;
    assert Power2(5) == 32 && Power2(8) == 0x100 && Power2(9) == 0x200 && Power2(10) == 0x400;
    assert Power2(12) == 0x1000 && Power2(14) == 0x4000 && Power2(16) == 0x1_0000;
    assert Power2(18) == 0x4_0000 && Power2(20) == 0x10_0000 && Power2(22) == 0x40_0000;
  }

  lemma ShiftsFit(a: nat, b: nat, c: nat)
    requires a < 256 && b < 256 && c < 256
    ensures ShiftLeft(a, 24) == a * Power2(24)
    ensures ShiftLeft(b, 16) == b * 0x1_0000 < Power2(24)
    ensures ShiftLeft(c, 8) == c * 0x100 < Power2(16)
  {
    hide Power2;
    Powers();
  }

  /** Shifting and or-ing the header bytes gives their positional value. */
  lemma DecodeIsPositional(h: seq<byte>)
    requires |h| == 4
    ensures Decode(h) == Positional(h)
  {
    hide Or, Power2, ShiftLeft;
    var a, b, c, d := h[0] as nat, h[1] as nat, h[2] as nat, h[3] as nat;
    Powers();
    ShiftsFit(a, b, c);
    OrAdds(a, 24, ShiftLeft(b, 16));
    assert a * Power2(24) + b * 0x1_0000 == (a * 256 + b) * Power2(16);
    OrAdds(a * 256 + b, 16, ShiftLeft(c, 8));
    assert (a * 256 + b) * Power2(16) + c * 0x100 == ((a * 256 + b) * 256 + c) * Power2(8);
    OrAdds((a * 256 + b) * 256 + c, 8, d);
  }

  /** The four bytes of a 32-bit number, most significant first. */
  function Encode(n: nat): (h: seq<byte>)
    requires n < UINT32_RANGE
    ensures |h| == 4
  {
    var q := n / 256;
    [(q / 256 / 256) as byte, (q / 256 % 256) as byte, (q % 256) as byte, (n % 256) as byte]
  }

  lemma EncodePositional(n: nat)
    requires n < UINT32_RANGE
    ensures Positional(Encode(n)) == n
  {
    var q := n / 256;
    var r := q / 256;
    assert n == q * 256 + n % 256 && q == r * 256 + q % 256 && r == r / 256 * 256 + r % 256;
  }

  /** The length header written for any 32-bit number is computed back to it. */
  lemma LengthRoundTrip(n: nat)
    requires n < UINT32_RANGE
    ensures Decode(Encode(n)) == n
  {
    DecodeIsPositional(Encode(n));
    EncodePositional(n);
  }

  // ---- frames ----------------------------------------------------------

  predicate ValidLength(n: nat) { 0 < n <= MAX_FRAME_BYTES }

  predicate ValidFrames(ps: seq<seq<byte>>) {
    forall i :: 0 <= i < |ps| ==> ValidLength(|ps[i]|)
  }

  /** The payloads of the longest valid frame prefix of a stream. */
  function Frames(s: seq<byte>): seq<seq<byte>> {
    if |s| < 4 then []
    else
      var len := Positional(s[..4]);
      if !ValidLength(len) || 4 + len > |s| then []
      else [s[4..4 + len]] + Frames(s[4 + len..])
  }

  /** What a sender writes for a list of payloads. */
  function Serialize(ps: seq<seq<byte>>): seq<byte>
    requires ValidFrames(ps)
  {
    if ps == [] then [] else Encode(|ps[0]|) + ps[0] + Serialize(ps[1..])
  }

  /** Whatever follows it, a serialised list of payloads is read back as those payloads,
      in order. */
  lemma {:induction false} FramesRoundTrip(ps: seq<seq<byte>>, tail: seq<byte>)
    requires ValidFrames(ps)
    ensures Frames(Serialize(ps) + tail) == ps + Frames(tail)
  {
    hide Encode, Positional, Frames;
    if ps == [] {
      assert Serialize(ps) + tail == tail && ps + Frames(tail) == Frames(tail);
    } else {
      var p, rest := ps[0], Serialize(ps[1..]) + tail;
      SerializeSplits(ps, tail);
      FramesRoundTrip(ps[1..], tail);
      EncodePositional(|p|);
      FrameFirst(Encode(|p|), p, rest);
      assert [p] + (ps[1..] + Frames(tail)) == ps + Frames(tail);
    }
  }

  lemma SerializeSplits(ps: seq<seq<byte>>, tail: seq<byte>)
    requires ValidFrames(ps) && ps != []
    ensures Serialize(ps) + tail == Encode(|ps[0]|) + ps[0] + (Serialize(ps[1..]) + tail)
  {
    hide Encode;
    var head := Encode(|ps[0]|) + ps[0];
    assert head + Serialize(ps[1..]) + tail == head + (Serialize(ps[1..]) + tail);
  }

  lemma FrameFirst(h: seq<byte>, p: seq<byte>, rest: seq<byte>)
    requires |h| == 4 && ValidLength(|p|) && Positional(h) == |p|
    ensures Frames(h + p + rest) == [p] + Frames(rest)
  {
    var s := h + p + rest;
    assert s[..4] == h && s[4..4 + |p|] == p && s[4 + |p|..] == rest;
  }

  /** The frames of any stream are a valid frame prefix of it, and the longest one. */
  lemma FramesAreLongest(s: seq<byte>, ps: seq<seq<byte>>, tail: seq<byte>)
    requires (forall i :: 0 <= i < |ps| ==> 1 <= |ps[i]| <= 25_165_824) && s == Serialize(ps) + tail
    ensures ps <= Frames(s)
  {
    FramesRoundTrip(ps, tail);
  }

  lemma {:induction false} FramesArePrefix(s: seq<byte>)
    ensures forall i :: 0 <= i < |Frames(s)| ==> 1 <= |Frames(s)[i]| <= 25_165_824
    ensures ValidFrames(Frames(s)) && Serialize(Frames(s)) <= s
  {
    hide Encode, Positional;
    if |s| >= 4 {
      var len := Positional(s[..4]);
      if ValidLength(len) && 4 + len <= |s| {
        FramesArePrefix(s[4 + len..]);
        PositionalEncodes(s[..4]);
        var ps := Frames(s);
        assert ps[0] == s[4..4 + len] && ps[1..] == Frames(s[4 + len..]);
        assert s == s[..4] + s[4..4 + len] + s[4 + len..];
      }
    }
  }

  lemma PositionalEncodes(h: seq<byte>)
    requires |h| == 4
    ensures Positional(h) < UINT32_RANGE && Encode(Positional(h)) == h
  {
    var a, b, c, d := h[0] as nat, h[1] as nat, h[2] as nat, h[3] as nat;
    var n := Positional(h);
    var q := (a * 256 + b) * 256 + c;
    assert n == q * 256 + d;
    assert n / 256 == q && n % 256 == d;
    assert q / 256 == a * 256 + b && q % 256 == c;
    assert (a * 256 + b) / 256 == a && (a * 256 + b) % 256 == b;
  }

  // ---- the reader ------------------------------------------------------

  /** A connected socket. A reliable one fails only at the end of its data. */
  class Socket {
    const data: seq<byte>
    const reliable: bool
    var pos: nat

    ghost predicate Valid()
      reads this
    {
      pos <= |data|
    }

    /** `recv` into `buf[got..]`: a failure, or any positive number of bytes. */
    method Recv(buf: array<byte>, got: nat, max: nat) returns (n: int)
      requires Valid() && max > 0 && got + max <= buf.Length
      modifies this, buf
      ensures Valid() && n <= max
      ensures n <= 0 ==> pos == old(pos) && buf[..] == old(buf[..])
      ensures n <= 0 && reliable ==> pos == |data|
      ensures n > 0 ==> pos == old(pos) + n && buf[..got] == old(buf[..got])
                        && buf[got..got + n] == data[old(pos)..pos]
    {
      n := *;
      var left := |data| - pos;
      if n > max { n := max; }
      if n > left { n := left; }
      if n <= 0 && reliable && left > 0 { n := 1; }
      if n <= 0 { return; }
      var i := 0;
      while i < n
        invariant 0 <= i <= n && pos == old(pos)
        invariant buf[..got] == old(buf[..got])
        invariant buf[got..got + i] == data[pos..pos + i]
      {
        buf[got + i] := data[pos + i];
        assert buf[got..got + i + 1] == buf[got..got + i] + [data[pos + i]];
        i := i + 1;
      }
      pos := pos + n;
    }
  }

  lemma SlicesJoin(s: seq<byte>, a: nat, b: nat, c: nat)
    requires a <= b <= c <= |s|
    ensures s[a..b] + s[b..c] == s[a..c]
  {
  }

  lemma SliceOfRest(s: seq<byte>, p: nat, a: nat, b: nat)
    requires p + a <= p + b <= |s|
    ensures s[p..][a..b] == s[p + a..p + b] && s[p..][b..] == s[p + b..]
  {
  }

  /** Fills `buf[..count]` with the next bytes, however they are fragmented. */
  method ReadExact(s: Socket, buf: array<byte>, count: nat) returns (ok: bool)
    requires s.Valid() && count <= buf.Length
    modifies s, buf
    ensures s.Valid() && s.pos >= old(s.pos)
    ensures ok ==> s.pos == old(s.pos) + count && buf[..count] == s.data[old(s.pos)..s.pos]
    ensures !ok && s.reliable ==> old(s.pos) + count > |s.data|
  {
    var got := 0;
    while got < count
      invariant 0 <= got <= count && s.Valid() && s.pos == old(s.pos) + got
      invariant buf[..got] == s.data[old(s.pos)..s.pos]
    {
      var n := s.Recv(buf, got, count - got);
      if n <= 0 {
        return false;
      }
      SlicesJoin(s.data, old(s.pos), s.pos - n, s.pos);
      assert buf[..got + n] == buf[..got] + buf[got..got + n];
      got := got + n;
    }
    return true;
  }

  /** How many of the first `n` payloads were allocated and accepted downstream. */
  function Accepted(n: nat, pushed: nat -> bool): nat {
    if n == 0 then 0 else Accepted(n - 1, pushed) + if pushed(n - 1) then 1 else 0
  }

  datatype Turn = Payload(bytes: seq<byte>) | Stop

  /** One turn of the read loop: the first frame of what is left, or the end. */
  method ReadFrame(s: Socket) returns (turn: Turn)
    requires s.Valid()
    modifies s
    ensures s.Valid() && s.pos >= old(s.pos)
    ensures turn.Payload? ==>
              && s.pos > old(s.pos)
              && Frames(old(s.data[s.pos..])) == [turn.bytes] + Frames(s.data[s.pos..])
    ensures turn.Stop? && s.reliable ==> Frames(old(s.data[s.pos..])) == []
  {
    hide Positional, Decode;
    ghost var rest := s.data[s.pos..];
    var hdr := new byte[4];
    var ok := ReadExact(s, hdr, 4);
    if !ok {
      return Stop;
    }
    SliceOfRest(s.data, old(s.pos), 0, 4);
    assert hdr[..] == rest[..4];
    DecodeIsPositional(hdr[..]);
    var len := Decode(hdr[..]);
    if len == 0 || len > MAX_FRAME_BYTES {
      return Stop;
    }
    var payload := new byte[len];
    ok := ReadExact(s, payload, len);
    if !ok {
      return Stop;
    }
    SliceOfRest(s.data, old(s.pos), 4, 4 + len);
    assert payload[..] == rest[4..4 + len] && s.data[s.pos..] == rest[4 + len..];
    return Payload(payload[..]);
  }

  /** The read loop. `running(i)` is the flag at the i-th turn, `pushed(i)` whether the
      i-th payload could be allocated and pushed. Whatever happens, the payloads read are
      the first frames of the stream; if the socket is reliable and nobody stops the
      loop, they are all of them. */
  method ReadFrames(s: Socket, running: nat -> bool, pushed: nat -> bool)
    returns (frames: seq<seq<byte>>, counted: nat)
    requires s.Valid()
    modifies s
    ensures frames <= Frames(old(s.data[s.pos..]))
    ensures s.reliable && (forall i :: running(i)) ==> frames == Frames(old(s.data[s.pos..]))
    ensures counted == Accepted(|frames|, pushed)
  {
    ghost var all := Frames(s.data[s.pos..]);
    frames, counted := [], 0;
    var i := 0;
    while running(i)
      invariant s.Valid() && i == |frames|
      invariant all == frames + Frames(s.data[s.pos..])
      invariant counted == Accepted(|frames|, pushed)
      decreases |s.data| - s.pos
    {
      ghost var rest := Frames(s.data[s.pos..]);
      var turn := ReadFrame(s);
      if turn.Stop? {
        return;
      }
      assert frames + rest == frames + [turn.bytes] + Frames(s.data[s.pos..]);
      frames := frames + [turn.bytes];
      if pushed(i) {
        counted := counted + 1;
      }
      i := i + 1;
    }
  }
}
