/** Typing text on the virtual keyboard: the character table, the events, and a keyboard
    that reads them back. */
module VirtualKeyboard {
  import opened Text

  // event types and codes of the Linux input subsystem
  const EV_SYN := 0
  const EV_KEY := 1
  const SYN_REPORT := 0
  const KEY_LEFTSHIFT := 42

  /** One table entry; code 0 means that the character cannot be typed. */
  datatype KeyMap = KeyMap(code: int, shift: bool)

  const UNMAPPED := KeyMap(0, false)

  /** What a US keyboard types for a key, plain or with shift. */
  function CharOf(code: int, shift: bool): Option<char> {
    match code
    case 2 => Some(if shift then '!' else '1')
    case 3 => Some(if shift then '@' else '2')
    case 4 => Some(if shift then '#' else '3')
    case 5 => Some(if shift then '$' else '4')
    case 6 => Some(if shift then '%' else '5')
    case 7 => Some(if shift then '^' else '6')
    case 8 => Some(if shift then '&' else '7')
    case 9 => Some(if shift then '*' else '8')
    case 10 => Some(if shift then '(' else '9')
    case 11 => Some(if shift then ')' else '0')
    case 12 => Some(if shift then '_' else '-')
    case 13 => Some(if shift then '+' else '=')
    case 15 => if shift then None else Some('\t')
    case 16 => Some(if shift then 'Q' else 'q')
    case 17 => Some(if shift then 'W' else 'w')
    case 18 => Some(if shift then 'E' else 'e')
    case 19 => Some(if shift then 'R' else 'r')
    case 20 => Some(if shift then 'T' else 't')
    case 21 => Some(if shift then 'Y' else 'y')
    case 22 => Some(if shift then 'U' else 'u')
    case 23 => Some(if shift then 'I' else 'i')
    case 24 => Some(if shift then 'O' else 'o')
    case 25 => Some(if shift then 'P' else 'p')
    case 26 => Some(if shift then '{' else '[')
    case 27 => Some(if shift then '}' else ']')
    case 28 => if shift then None else Some('\n')
    case 30 => Some(if shift then 'A' else 'a')
    case 31 => Some(if shift then 'S' else 's')
    case 32 => Some(if shift then 'D' else 'd')
    case 33 => Some(if shift then 'F' else 'f')
    case 34 => Some(if shift then 'G' else 'g')
    case 35 => Some(if shift then 'H' else 'h')
    case 36 => Some(if shift then 'J' else 'j')
    case 37 => Some(if shift then 'K' else 'k')
    case 38 => Some(if shift then 'L' else 'l')
    case 39 => Some(if shift then ':' else ';')
    case 40 => Some(if shift then '\"' else '\'')
    case 41 => Some(if shift then '~' else '`')
    case 43 => Some(if shift then '|' else '\\')
    case 44 => Some(if shift then 'Z' else 'z')
    case 45 => Some(if shift then 'X' else 'x')
    case 46 => Some(if shift then 'C' else 'c')
    case 47 => Some(if shift then 'V' else 'v')
    case 48 => Some(if shift then 'B' else 'b')
    case 49 => Some(if shift then 'N' else 'n')
    case 50 => Some(if shift then 'M' else 'm')
    case 51 => Some(if shift then '<' else ',')
    case 52 => Some(if shift then '>' else '.')
    case 53 => Some(if shift then '?' else '/')
    case 57 => if shift then None else Some(' ')
    case _ => None
  }

  /** Printable ASCII, newline and tab. */
  predicate Typeable(c: char) { ' ' <= c <= '~' || c == '\n' || c == '\t' }

  /** The table maps exactly the characters in `mapped`, each to a key that types it. */
  predicate Maps(table: seq<KeyMap>, mapped: set<char>) {
    && |table| == 128
    && (forall i :: 0 <= i < 128 ==> (table[i].code != 0 <==> i as char in mapped))
    && (forall i :: 0 <= i < 128 && table[i].code != 0 ==>
          CharOf(table[i].code, table[i].shift) == Some(i as char))
  }

  /** The finished table: every typeable character, and nothing else. */
  predicate Complete(table: seq<KeyMap>) {
    && |table| == 128
    && (forall i :: 0 <= i < 128 ==> (table[i].code != 0 <==> Typeable(i as char)))
    && (forall i :: 0 <= i < 128 && table[i].code != 0 ==>
          CharOf(table[i].code, table[i].shift) == Some(i as char))
  }

  /** No two characters share a key and shift state. */
  lemma TableIsInjective(table: seq<KeyMap>, i: nat, j: nat)
    requires Complete(table) && i < 128 && j < 128
    requires table[i].code != 0 && table[i] == table[j]
    ensures i == j
  {
    assert CharOf(table[i].code, table[i].shift) == Some(i as char);
    assert CharOf(table[j].code, table[j].shift) == Some(j as char);
    assert (i as char) as int == i && (j as char) as int == j;
  }

  const A_TO_D: set<char> := {
    'a', 'A', 'b', 'B', 'c', 'C', 'd', 'D'
  }

  const E_TO_H: set<char> := {
    'e', 'E', 'f', 'F', 'g', 'G', 'h', 'H'
  }

  const I_TO_L: set<char> := {
    'i', 'I', 'j', 'J', 'k', 'K', 'l', 'L'
  }

  const M_TO_P: set<char> := {
    'm', 'M', 'n', 'N', 'o', 'O', 'p', 'P'
  }

  const Q_TO_T: set<char> := {
    'q', 'Q', 'r', 'R', 's', 'S', 't', 'T'
  }

  const U_TO_W: set<char> := {
    'u', 'U', 'v', 'V', 'w', 'W'
  }

  const X_TO_Z: set<char> := {
    'x', 'X', 'y', 'Y', 'z', 'Z'
  }

  const DIGITS: set<char> := {
    '1', '2', '3', '4', '5', '6', '7', '8', '9', '0'
  }

  const SPACES_AND_BANG: set<char> := {
    ' ', '\n', '\t', '!'
  }

  const SHIFTED_DIGITS: set<char> := {
    '@', '#', '$', '%', '^', '&', '*', '(', ')'
  }

  const SIGNS: set<char> := {
    '-', '_', '=', '+', '[', '{'
  }

  const MORE_SIGNS: set<char> := {
    ']', '}', '\\', '|'
  }

  const PUNCTUATION: set<char> := {
    ';', ':', '\'', '\"', ',', '<'
  }

  const LAST_ROW: set<char> := {
    '.', '>', '/', '?', '`', '~'
  }

  const LETTERS: set<char> := A_TO_D + E_TO_H + I_TO_L + M_TO_P + Q_TO_T + U_TO_W + X_TO_Z

  const SYMBOLS: set<char> :=
    SPACES_AND_BANG + SHIFTED_DIGITS + SIGNS + MORE_SIGNS + PUNCTUATION + LAST_ROW

  const ALL_CHARACTERS: set<char> := LETTERS + DIGITS + SYMBOLS

  /** The groups together are all typeable characters. */
  lemma GroupsAreTypeable(c: char)
    ensures c in ALL_CHARACTERS <==> Typeable(c)
  {
    LettersAreGrouped(c);
    assert c in DIGITS <==> '0' <= c <= '9';
    if ' ' <= c <= '/' {
      LowSymbolsAreGrouped(c);
    } else if ':' <= c <= '@' || '[' <= c <= '`' || '{' <= c <= '~' {
      HighSymbolsAreGrouped(c);
    } else if c in SPACES_AND_BANG || c in SHIFTED_DIGITS || c in SIGNS || c in MORE_SIGNS || c in PUNCTUATION || c in LAST_ROW {
      SymbolsAreTypeable(c);
    }
  }

  lemma LettersAreGrouped(c: char)
    ensures c in A_TO_D <==> 'a' <= c <= 'd' || 'A' <= c <= 'D'
    ensures c in E_TO_H <==> 'e' <= c <= 'h' || 'E' <= c <= 'H'
    ensures c in I_TO_L <==> 'i' <= c <= 'l' || 'I' <= c <= 'L'
    ensures c in M_TO_P <==> 'm' <= c <= 'p' || 'M' <= c <= 'P'
    ensures c in Q_TO_T <==> 'q' <= c <= 't' || 'Q' <= c <= 'T'
    ensures c in U_TO_W <==> 'u' <= c <= 'w' || 'U' <= c <= 'W'
    ensures c in X_TO_Z <==> 'x' <= c <= 'z' || 'X' <= c <= 'Z'
  {
  }

  lemma LowSymbolsAreGrouped(c: char)
    requires ' ' <= c <= '/'
    ensures c in SPACES_AND_BANG || c in SHIFTED_DIGITS || c in SIGNS || c in MORE_SIGNS || c in PUNCTUATION || c in LAST_ROW
  {
  }

  lemma HighSymbolsAreGrouped(c: char)
    requires ':' <= c <= '@' || '[' <= c <= '`' || '{' <= c <= '~'
    ensures c in SHIFTED_DIGITS || c in SIGNS || c in MORE_SIGNS || c in PUNCTUATION || c in LAST_ROW
  {
  }

  lemma SymbolsAreTypeable(c: char)
    requires c in SPACES_AND_BANG || c in SHIFTED_DIGITS || c in SIGNS || c in MORE_SIGNS || c in PUNCTUATION || c in LAST_ROW
    ensures Typeable(c)
  {
  }

  // ---- events ----------------------------------------------------------

  datatype InputEvent = InputEvent(kind: int, code: int, value: int)

  const SYN := InputEvent(EV_SYN, SYN_REPORT, 0)

  function Key(code: int, value: int): seq<InputEvent> { [InputEvent(EV_KEY, code, value), SYN] }

  /** The events of one key stroke. */
  function Stroke(m: KeyMap): seq<InputEvent> {
    (if m.shift then Key(KEY_LEFTSHIFT, 1) else []) + Key(m.code, 1) + Key(m.code, 0)
    + (if m.shift then Key(KEY_LEFTSHIFT, 0) else [])
  }

  /** Is this byte of a text typed at all? Bytes outside ASCII are skipped. */
  predicate IsTyped(table: seq<KeyMap>, c: char)
    requires |table| == 128
  {
    c as int < 128 && table[c as int].code != 0
  }

  function Strokes(table: seq<KeyMap>, text: string): seq<InputEvent>
    requires |table| == 128
  {
    if text == "" then []
    else
      var c := text[|text| - 1];
      Strokes(table, text[..|text| - 1]) + if IsTyped(table, c) then Stroke(table[c as int]) else []
  }

  // ---- a keyboard that reads the events --------------------------------

  datatype Keyboard = Keyboard(shift: bool, down: set<int>, typed: string)

  const IDLE := Keyboard(false, {}, "")

  function Press(k: Keyboard, e: InputEvent): Keyboard {
    if e.kind != EV_KEY then k
    else if e.code == KEY_LEFTSHIFT then k.(shift := e.value == 1)
    else if e.value == 1 then
      var c := CharOf(e.code, k.shift);
      k.(down := k.down + {e.code}, typed := if c.Some? then k.typed + [c.value] else k.typed)
    else k.(down := k.down - {e.code})
  }

  function PressAll(k: Keyboard, es: seq<InputEvent>): Keyboard
    decreases |es|
  {
    if es == [] then k else PressAll(Press(k, es[0]), es[1..])
  }

  lemma {:induction false} PressAppend(k: Keyboard, a: seq<InputEvent>, b: seq<InputEvent>)
    ensures PressAll(k, a + b) == PressAll(PressAll(k, a), b)
    decreases |a|
  {
    if a == [] {
      assert a + b == b;
    } else {
      assert (a + b)[1..] == a[1..] + b;
      PressAppend(Press(k, a[0]), a[1..], b);
    }
  }

  lemma PressKey(k: Keyboard, code: int, value: int)
    ensures PressAll(k, Key(code, value)) == Press(k, InputEvent(EV_KEY, code, value))
  {
    var es := Key(code, value);
    assert es[1..] == [SYN] && [SYN][1..] == [];
    var k1 := Press(k, es[0]);
    assert PressAll(k1, [SYN]) == PressAll(Press(k1, SYN), []);
  }

  /** A stroke types its character and leaves every key as it was. */
  lemma StrokeTypes(k: Keyboard, m: KeyMap, c: char)
    requires !k.shift && k.down == {} && CharOf(m.code, m.shift) == Some(c)
    ensures PressAll(k, Stroke(m)) == k.(typed := k.typed + [c])
  {
    var before := if m.shift then Key(KEY_LEFTSHIFT, 1) else [];
    var after := if m.shift then Key(KEY_LEFTSHIFT, 0) else [];
    PressAppend(k, before + Key(m.code, 1) + Key(m.code, 0), after);
    PressAppend(k, before + Key(m.code, 1), Key(m.code, 0));
    PressAppend(k, before, Key(m.code, 1));
    PressKey(k, KEY_LEFTSHIFT, 1);
    var k1 := PressAll(k, before);
    assert k1 == k.(shift := m.shift);
    PressKey(k1, m.code, 1);
    var k2 := Press(k1, InputEvent(EV_KEY, m.code, 1));
    PressKey(k2, m.code, 0);
    var k3 := Press(k2, InputEvent(EV_KEY, m.code, 0));
    assert k3.down == {};
    PressKey(k3, KEY_LEFTSHIFT, 0);
  }

  /** A text without its characters that cannot be typed. */
  function TypeableOf(text: string): string {
    if text == "" then ""
    else
      var c := text[|text| - 1];
      TypeableOf(text[..|text| - 1]) + if Typeable(c) then [c] else ""
  }

  /** A keyboard that reads the events of a text types that text, less the characters that
      cannot be typed, and no key or shift stays down. */
  lemma {:induction false} TypingRoundTrip(table: seq<KeyMap>, text: string)
    requires Complete(table)
    ensures PressAll(IDLE, Strokes(table, text)) == Keyboard(false, {}, TypeableOf(text))
  {
    hide CharOf, Stroke;
    if text != "" {
      var n := |text| - 1;
      var c := text[n];
      TypingRoundTrip(table, text[..n]);
      if IsTyped(table, c) {
        assert (c as int) as char == c;
        PressAppend(IDLE, Strokes(table, text[..n]), Stroke(table[c as int]));
        StrokeTypes(Keyboard(false, {}, TypeableOf(text[..n])), table[c as int], c);
      } else {
        assert c as int < 128 ==> (c as int) as char == c;
        assert Strokes(table, text) == Strokes(table, text[..n]);
        assert TypeableOf(text) == TypeableOf(text[..n]);
      }
    }
  }

  // ---- the device ------------------------------------------------------

  class VirtualInput {
    var initialized: bool
    const asciiMap: array<KeyMap>
    var written: seq<InputEvent>    // everything written to the keyboard device
    ghost var mapped: set<char>

    ghost predicate Valid()
      reads this, asciiMap
    {
      Maps(asciiMap[..], mapped) && (initialized ==> Complete(asciiMap[..]))
    }

    constructor ()
      ensures Valid() && !initialized && mapped == {} && written == [] && fresh(asciiMap)
    {
      initialized, written, mapped := false, [], {};
      asciiMap := new KeyMap[128](_ => UNMAPPED);
    }

    /** One line of the table: the key must be one that types the character. */
    method Map(c: char, code: int, shift: bool)
      requires Valid() && !initialized && c as int < 128 && code != 0
      requires CharOf(code, shift) == Some(c)
      modifies asciiMap, this`mapped
      ensures Valid() && mapped == old(mapped) + {c}
    {
      hide CharOf;
      asciiMap[c as int] := KeyMap(code, shift);
      mapped := mapped + {c};
      forall i | 0 <= i < 128
        ensures asciiMap[i].code != 0 <==> i as char in mapped
        ensures asciiMap[i].code != 0 ==> CharOf(asciiMap[i].code, asciiMap[i].shift) == Some(i as char)
      {
        assert (i as char) as int == i;
        assert asciiMap[i] == if i == c as int then KeyMap(code, shift) else old(asciiMap[..])[i];
      }
    }

    method FillAToD()
      requires Valid() && !initialized
      modifies asciiMap, this`mapped
      ensures Valid() && mapped == old(mapped) + A_TO_D
    {
      hide Valid;
      Map('a', 30, false); Map('A', 30, true);
      Map('b', 48, false); Map('B', 48, true);
      Map('c', 46, false); Map('C', 46, true);
      Map('d', 32, false); Map('D', 32, true);
    }

    method FillEToH()
      requires Valid() && !initialized
      modifies asciiMap, this`mapped
      ensures Valid() && mapped == old(mapped) + E_TO_H
    {
      hide Valid;
      Map('e', 18, false); Map('E', 18, true);
      Map('f', 33, false); Map('F', 33, true);
      Map('g', 34, false); Map('G', 34, true);
      Map('h', 35, false); Map('H', 35, true);
    }

    method FillIToL()
      requires Valid() && !initialized
      modifies asciiMap, this`mapped
      ensures Valid() && mapped == old(mapped) + I_TO_L
    {
      hide Valid;
      Map('i', 23, false); Map('I', 23, true);
      Map('j', 36, false); Map('J', 36, true);
      Map('k', 37, false); Map('K', 37, true);
      Map('l', 38, false); Map('L', 38, true);
    }

    method FillMToP()
      requires Valid() && !initialized
      modifies asciiMap, this`mapped
      ensures Valid() && mapped == old(mapped) + M_TO_P
    {
      hide Valid;
      Map('m', 50, false); Map('M', 50, true);
      Map('n', 49, false); Map('N', 49, true);
      Map('o', 24, false); Map('O', 24, true);
      Map('p', 25, false); Map('P', 25, true);
    }

    method FillQToT()
      requires Valid() && !initialized
      modifies asciiMap, this`mapped
      ensures Valid() && mapped == old(mapped) + Q_TO_T
    {
      hide Valid;
      Map('q', 16, false); Map('Q', 16, true);
      Map('r', 19, false); Map('R', 19, true);
      Map('s', 31, false); Map('S', 31, true);
      Map('t', 20, false); Map('T', 20, true);
    }

    method FillUToW()
      requires Valid() && !initialized
      modifies asciiMap, this`mapped
      ensures Valid() && mapped == old(mapped) + U_TO_W
    {
      hide Valid;
      Map('u', 22, false); Map('U', 22, true);
      Map('v', 47, false); Map('V', 47, true);
      Map('w', 17, false); Map('W', 17, true);
    }

    method FillXToZ()
      requires Valid() && !initialized
      modifies asciiMap, this`mapped
      ensures Valid() && mapped == old(mapped) + X_TO_Z
    {
      hide Valid;
      Map('x', 45, false); Map('X', 45, true);
      Map('y', 21, false); Map('Y', 21, true);
      Map('z', 44, false); Map('Z', 44, true);
    }

    method FillDigits()
      requires Valid() && !initialized
      modifies asciiMap, this`mapped
      ensures Valid() && mapped == old(mapped) + DIGITS
    {
      hide Valid;
      Map('1', 2, false); Map('2', 3, false);
      Map('3', 4, false); Map('4', 5, false);
      Map('5', 6, false); Map('6', 7, false);
      Map('7', 8, false); Map('8', 9, false);
      Map('9', 10, false); Map('0', 11, false);
    }

    method FillSpaces()
      requires Valid() && !initialized
      modifies asciiMap, this`mapped
      ensures Valid() && mapped == old(mapped) + SPACES_AND_BANG
    {
      hide Valid;
      Map(' ', 57, false); Map('\n', 28, false);
      Map('\t', 15, false); Map('!', 2, true);
    }

    method FillShiftedDigits()
      requires Valid() && !initialized
      modifies asciiMap, this`mapped
      ensures Valid() && mapped == old(mapped) + SHIFTED_DIGITS
    {
      hide Valid;
      Map('@', 3, true); Map('#', 4, true);
      Map('$', 5, true); Map('%', 6, true);
      Map('^', 7, true); Map('&', 8, true);
      Map('*', 9, true); Map('(', 10, true);
      Map(')', 11, true);
    }

    method FillSigns()
      requires Valid() && !initialized
      modifies asciiMap, this`mapped
      ensures Valid() && mapped == old(mapped) + SIGNS
    {
      hide Valid;
      Map('-', 12, false); Map('_', 12, true);
      Map('=', 13, false); Map('+', 13, true);
      Map('[', 26, false); Map('{', 26, true);
    }

    method FillMoreSigns()
      requires Valid() && !initialized
      modifies asciiMap, this`mapped
      ensures Valid() && mapped == old(mapped) + MORE_SIGNS
    {
      hide Valid;
      Map(']', 27, false); Map('}', 27, true);
      Map('\\', 43, false); Map('|', 43, true);
    }

    method FillPunctuation()
      requires Valid() && !initialized
      modifies asciiMap, this`mapped
      ensures Valid() && mapped == old(mapped) + PUNCTUATION
    {
      hide Valid;
      Map(';', 39, false); Map(':', 39, true);
      Map('\'', 40, false); Map('\"', 40, true);
      Map(',', 51, false); Map('<', 51, true);
    }

    method FillLastRow()
      requires Valid() && !initialized
      modifies asciiMap, this`mapped
      ensures Valid() && mapped == old(mapped) + LAST_ROW
    {
      hide Valid;
      Map('.', 52, false); Map('>', 52, true);
      Map('/', 53, false); Map('?', 53, true);
      Map('`', 41, false); Map('~', 41, true);
    }

    method FillLetters()
      requires Valid() && !initialized
      modifies asciiMap, this`mapped
      ensures Valid() && mapped == old(mapped) + LETTERS
    {
      hide Valid;
      FillAToD();
      FillEToH();
      FillIToL();
      FillMToP();
      FillQToT();
      FillUToW();
      FillXToZ();
    }

    method FillSymbols()
      requires Valid() && !initialized
      modifies asciiMap, this`mapped
      ensures Valid() && mapped == old(mapped) + SYMBOLS
    {
      hide Valid;
      FillSpaces();
      FillShiftedDigits();
      FillSigns();
      FillMoreSigns();
      FillPunctuation();
      FillLastRow();
    }

    method InitAsciiMap()
      requires Valid() && !initialized && mapped == {}
      modifies asciiMap, this`mapped
      ensures Valid() && Complete(asciiMap[..])
    {
      hide Valid, Complete, Typeable;
      FillLetters();
      FillDigits();
      FillSymbols();
      FinishTable();
    }

    lemma FinishTable()
      requires Valid() && mapped == ALL_CHARACTERS
      ensures Complete(asciiMap[..])
    {
      hide CharOf;
      forall c: char ensures c in mapped <==> Typeable(c) {
        GroupsAreTypeable(c);
      }
    }

    /** `mouseOk` and `keyboardOk` say whether the two devices could be created. */
    method Init(mouseOk: bool, keyboardOk: bool) returns (ok: bool)
      requires Valid() && !initialized && mapped == {}
      modifies this, asciiMap
      ensures Valid() && initialized == ok == (mouseOk && keyboardOk) && written == old(written)
    {
      if !mouseOk || !keyboardOk {
        return false;
      }
      InitAsciiMap();
      initialized := true;
      return true;
    }

    method Emit(kind: int, code: int, value: int)
      modifies this`written
      ensures written == old(written) + [InputEvent(kind, code, value)]
    {
      written := written + [InputEvent(kind, code, value)];
    }

    method EmitKey(code: int, value: int)
      modifies this`written
      ensures written == old(written) + Key(code, value)
    {
      Emit(EV_KEY, code, value);
      Emit(EV_SYN, SYN_REPORT, 0);
    }

    method TypeKeyCode(code: int, shift: bool)
      modifies this`written
      ensures written == old(written) + Stroke(KeyMap(code, shift))
    {
      if shift {
        EmitKey(KEY_LEFTSHIFT, 1);
      }
      EmitKey(code, 1);
      EmitKey(code, 0);
      if shift {
        EmitKey(KEY_LEFTSHIFT, 0);
      }
    }

    method TypeText(text: string)
      requires Valid()
      modifies this`written
      ensures Valid()
      ensures written == old(written) + if initialized then Strokes(asciiMap[..], text) else []
    {
      if !initialized {
        return;
      }
      var i := 0;
      while i < |text|
        invariant 0 <= i <= |text|
        invariant written == old(written) + Strokes(asciiMap[..], text[..i])
      {
        var c := text[i];
        assert text[..i + 1][..i] == text[..i] && text[..i + 1][i] == c;
        i := i + 1;
        if c as int >= 128 { continue; }
        var m := asciiMap[c as int];
        if m.code != 0 {
          TypeKeyCode(m.code, m.shift);
        }
      }
      assert text[..|text|] == text;
    }
  }
}
