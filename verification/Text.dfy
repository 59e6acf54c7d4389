/** The string operations the session code takes from the C and C++ libraries,
    each with the contract that the protocol proofs rely on. */
module Text {

  datatype Option<+T> = None | Some(value: T)

  /** `memchr` over the readable bytes: the first position of `c`, or -1. */
  function IndexOf(s: string, c: char): (i: int)
    ensures -1 <= i < |s|
    ensures i == -1 <==> c !in s
    ensures i >= 0 ==> s[i] == c && c !in s[..i]
  {
    if s == "" then -1
    else if s[0] == c then 0
    else
      var j := IndexOf(s[1..], c);
      if j < 0 then -1 else
        assert s[..j + 1] == [s[0]] + s[1..][..j];
        j + 1
  }

  /** `std::string::rfind`: the last position of `c`, or -1. */
  function LastIndexOf(s: string, c: char): (i: int)
    ensures -1 <= i < |s|
    ensures i == -1 <==> c !in s
    ensures i >= 0 ==> s[i] == c && c !in s[i + 1..]
  {
    if s == "" then -1
    else
      var n := |s| - 1;
      assert s == s[..n] + [s[n]];
      if s[n] == c then n else
        var j := LastIndexOf(s[..n], c);
        assert j >= 0 ==> s[j + 1..] == s[..n][j + 1..] + [s[n]];
        j
  }

  /** The last position is the only one followed by no further `c`. */
  lemma LastIndexUnique(s: string, c: char, i: nat)
    requires i < |s| && s[i] == c && c !in s[i + 1..]
    ensures LastIndexOf(s, c) == i
  {
  }

  lemma FirstIndexUnique(s: string, c: char, i: nat)
    requires i < |s| && s[i] == c && c !in s[..i]
    ensures IndexOf(s, c) == i
  {
  }

  function Min(a: int, b: int): (m: int)
    ensures m <= a && m <= b && (m == a || m == b)
  {
    if a <= b then a else b
  }

  // ---- trimming --------------------------------------------------------

  function TrimBack(s: string, cut: set<char>): (t: string)
    ensures t <= s && AllIn(s[|t|..], cut)
    ensures t != "" ==> t[|t| - 1] !in cut
  {
    if s != "" && s[|s| - 1] in cut then
      var t := TrimBack(s[..|s| - 1], cut);
      assert s[|t|..] == s[..|s| - 1][|t|..] + [s[|s| - 1]];
      t
    else s
  }

  function TrimFront(s: string, cut: set<char>): (t: string)
    ensures |t| <= |s| && t == s[|s| - |t|..] && AllIn(s[..|s| - |t|], cut)
    ensures t != "" ==> t[0] !in cut
  {
    if s != "" && s[0] in cut then
      var t := TrimFront(s[1..], cut);
      assert s[..|s| - |t|] == [s[0]] + s[1..][..|s| - 1 - |t|];
      t
    else s
  }

  predicate AllIn(s: string, cut: set<char>) {
    forall i :: 0 <= i < |s| ==> s[i] in cut
  }

  /** A run of cut characters behind a kept one is exactly what is trimmed. */
  lemma {:induction false} TrimBackDrops(s: string, tail: string, cut: set<char>)
    requires AllIn(tail, cut)
    requires s == "" || s[|s| - 1] !in cut
    ensures TrimBack(s + tail, cut) == s
  {
    if tail == "" {
      assert s + tail == s;
    } else {
      var n := |tail| - 1;
      assert (s + tail)[..|s + tail| - 1] == s + tail[..n];
      TrimBackDrops(s, tail[..n], cut);
    }
  }

  lemma {:induction false} TrimFrontDrops(head: string, s: string, cut: set<char>)
    requires AllIn(head, cut)
    requires s == "" || s[0] !in cut
    ensures TrimFront(head + s, cut) == s
  {
    if head == "" {
      assert head + s == s;
    } else {
      assert (head + s)[1..] == head[1..] + s;
      TrimFrontDrops(head[1..], s, cut);
    }
  }

  lemma NothingToTrim(s: string, cut: set<char>)
    requires s != "" && s[0] !in cut
    ensures TrimFront(s, cut) == s
  {
  }

  /** Both `std::replace` calls on a received file name. */
  function Flatten(s: string): (t: string)
    ensures |t| == |s|
    ensures forall i :: 0 <= i < |s| ==> t[i] == if s[i] == '/' || s[i] == '\\' then '_' else s[i]
  {
    seq(|s|, i requires 0 <= i < |s| => if s[i] == '/' || s[i] == '\\' then '_' else s[i])
  }

  // ---- powers and bounds -----------------------------------------------

  /** The largest `int` of the source. */
  const INT_MAX := 0x7fff_ffff

  function Power2(n: nat): (p: nat)
    ensures p >= 1
  {
    if n == 0 then 1 else 2 * Power2(n - 1)
  }

  // ---- decimal numbers -------------------------------------------------

  predicate IsDigit(c: char) { '0' <= c <= '9' }

  predicate AllDigits(s: string) {
    forall i :: 0 <= i < |s| ==> IsDigit(s[i])
  }

  function Power10(e: nat): (p: nat)
    ensures p >= 1
  {
    if e == 0 then 1 else 10 * Power10(e - 1)
  }

  /** `std::to_string` of an unsigned number. */
  function Print(n: nat): (s: string)
    ensures s != "" && AllDigits(s)
  {
    var d := ('0' as int + n % 10) as char;
    if n < 10 then [d] else Print(n / 10) + [d]
  }

  /** The positional value of a digit string. */
  function Value(s: string): nat
    requires AllDigits(s)
  {
    if s == "" then 0
    else Value(s[..|s| - 1]) * 10 + (s[|s| - 1] as int - '0' as int)
  }

  lemma {:induction false} ValueOfPrint(n: nat)
    ensures Value(Print(n)) == n
  {
    var s := Print(n);
    if n < 10 {
      assert s[..|s| - 1] == "";
    } else {
      ValueOfPrint(n / 10);
      assert s[..|s| - 1] == Print(n / 10);
    }
  }

  function Digit(c: char): nat
    requires IsDigit(c)
  {
    c as int - '0' as int
  }

  /** Each digit counts by its position: one more in front of `s` counts 10^|s|. */
  lemma {:induction false} ValueIsPositional(c: char, s: string)
    requires IsDigit(c) && AllDigits(s)
    ensures Value([c] + s) == Digit(c) * Power10(|s|) + Value(s)
  {
    hide Digit;
    if s == "" {
      ValueOfDigit(c);
      assert [c] + s == [c];
    } else {
      var n := |s| - 1;
      assert ([c] + s)[..|s|] == [c] + s[..n] && ([c] + s)[|s|] == s[n];
      ValueIsPositional(c, s[..n]);
      TimesTen(Digit(c), Power10(n));
    }
  }

  lemma ValueOfDigit(c: char)
    requires IsDigit(c)
    ensures Value([c]) == Digit(c)
  {
    assert [c][..0] == "";
  }

  lemma TimesTen(d: nat, p: nat)
    ensures d * (10 * p) == 10 * (d * p)
  {
  }

  /** A number with `d` digits prints as exactly `d` characters, none a leading zero. */
  lemma {:induction false} PrintLength(n: nat, d: nat)
    requires d >= 1
    requires Power10(d - 1) <= n < Power10(d)
    ensures |Print(n)| == d && Print(n)[0] != '0'
  {
    if d == 1 {
      assert Power10(1) == 10 * Power10(0);
    } else {
      assert Power10(d - 1) == 10 * Power10(d - 2);
      assert Power10(d) == 10 * Power10(d - 1);
      PrintLength(n / 10, d - 1);
    }
  }

  function DigitPrefix(s: string): (t: string)
    ensures t <= s && AllDigits(t)
    ensures |t| < |s| ==> !IsDigit(s[|t|])
  {
    if s != "" && IsDigit(s[0]) then [s[0]] + DigitPrefix(s[1..]) else ""
  }

  const ULLONG_RANGE: nat := 0x1_0000_0000_0000_0000

  const SPACES: set<char> := {' ', '\t', '\n', '\r', 11 as char, 12 as char}

  /** `std::stoull` in base 10: leading white space, an optional sign, digits, then
      anything. `None` stands for both exceptions (no digits, magnitude too large); a
      minus sign negates modulo 2^64. */
  function Stoull(s: string): (r: Option<nat>)
    ensures r.Some? ==> r.value < ULLONG_RANGE
  {
    var t := TrimFront(s, SPACES);
    var signed := t != "" && (t[0] == '-' || t[0] == '+');
    var digits := DigitPrefix(if signed then t[1..] else t);
    if digits == "" || Value(digits) >= ULLONG_RANGE then None
    else if signed && t[0] == '-' then Some((ULLONG_RANGE - Value(digits)) % ULLONG_RANGE)
    else Some(Value(digits))
  }

  lemma {:induction false} DigitPrefixOfDigits(s: string)
    requires AllDigits(s)
    ensures DigitPrefix(s) == s
  {
    if s != "" { DigitPrefixOfDigits(s[1..]); }
  }

  /** Printing and reading back a 64-bit number are inverse. */
  lemma StoullOfPrint(n: nat)
    requires n < ULLONG_RANGE
    ensures Stoull(Print(n)) == Some(n)
  {
    ValueOfPrint(n);
    StoullOfDigits(Print(n));
  }

  /** Digits alone are read as their positional value. */
  lemma StoullOfDigits(s: string)
    requires s != "" && AllDigits(s) && Value(s) < ULLONG_RANGE
    ensures Stoull(s) == Some(Value(s))
  {
    hide Stoull;
    StoullOfSigned("", s);
    assert "" + s == s;
  }

  /** Behind any sign digits are read as their positional value, and as its negation modulo
      2^64 if the sign is a minus, unless that value does not fit 64 bits. */
  lemma StoullOfSigned(sign: string, digits: string)
    requires sign in {"", "+", "-"} && digits != "" && AllDigits(digits)
    ensures Stoull(sign + digits) ==
            if Value(digits) >= ULLONG_RANGE then None
            else if sign == "-" then Some((ULLONG_RANGE - Value(digits)) % ULLONG_RANGE)
            else Some(Value(digits))
  {
    hide TrimFront, DigitPrefix, Value;
    SignedIsTrimmed(sign, digits);
    DigitPrefixOfDigits(digits);
    if sign == "" {
      assert sign + digits == digits && IsDigit(digits[0]);
    } else {
      assert (sign + digits)[0] == sign[0] && (sign + digits)[1..] == digits;
    }
  }

  lemma SignedIsTrimmed(sign: string, digits: string)
    requires sign in {"", "+", "-"} && digits != "" && AllDigits(digits)
    ensures TrimFront(sign + digits, SPACES) == sign + digits
  {
    hide TrimFront;
    var s := sign + digits;
    assert s[0] == if sign == "" then digits[0] else sign[0];
    assert IsDigit(digits[0]);
    NothingToTrim(s, SPACES);
  }
}
