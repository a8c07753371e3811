/** Key names of the hotkey configuration (src/config/keys.rs): the table
    from configured names to keyboard keys, and the name written for a key. */
module Keys {
  import opened Base
  import opened Text

  /** The keyboard keys. Letters and digits carry their character and
      value; the keys outside the name table are represented by a few
      modifiers and the code of an unidentified key. */
  datatype Key =
    | Letter(c: char)
    | Num(n: nat)
    | Return | Escape | Backspace | Tab | Space
    | Minus | Equal | LeftBracket | RightBracket | BackSlash | SemiColon
    | Quote | BackQuote | Comma | Dot | Slash | CapsLock
    | F1 | F2 | F3 | F4 | F5 | F6 | F7 | F8 | F9 | F10 | F11 | F12
    | Insert | Delete | Home | End | PageUp | PageDown
    | LeftArrow | RightArrow | UpArrow | DownArrow
    | Alt | ControlLeft | ShiftLeft | MetaLeft | PrintScreen | NumLock
    | Unknown(code: nat)
  {
    /** A letter key is one of A to Z, a digit key one of 0 to 9. */
    predicate Valid() {
      (Letter? ==> 'A' <= c <= 'Z') && (Num? ==> n < 10)
    }
  }

  predicate IsUpperAscii(c: char) {
    'A' <= c <= 'Z'
  }

  /** The table on an upper-cased name: letters and digits, then the named
      keys with their aliases; anything else is not a key. */
  function Lookup(u: string): (k: Option<Key>)
    ensures k.Some? ==> k.value.Valid()
  {
    if |u| == 1 && IsUpperAscii(u[0]) then Some(Letter(u[0]))
    else if |u| == 1 && IsDigit(u[0]) then Some(Num(DigitValue(u[0])))
    else match u
      case "ENTER" => Some(Return)
      case "ESC" => Some(Escape)
      case "ESCAPE" => Some(Escape)
      case "BACKSPACE" => Some(Backspace)
      case "TAB" => Some(Tab)
      case "SPACE" => Some(Space)
      case "MINUS" => Some(Minus)
      case "EQUAL" => Some(Equal)
      case "LEFTBRACKET" => Some(LeftBracket)
      case "RIGHTBRACKET" => Some(RightBracket)
      case "BACKSLASH" => Some(BackSlash)
      case "SEMICOLON" => Some(SemiColon)
      case "APOSTROPHE" => Some(Quote)
      case "GRAVE" => Some(BackQuote)
      case "COMMA" => Some(Comma)
      case "DOT" => Some(Dot)
      case "PERIOD" => Some(Dot)
      case "SLASH" => Some(Slash)
      case "CAPSLOCK" => Some(CapsLock)
      case "F1" => Some(F1)
      case "F2" => Some(F2)
      case "F3" => Some(F3)
      case "F4" => Some(F4)
      case "F5" => Some(F5)
      case "F6" => Some(F6)
      case "F7" => Some(F7)
      case "F8" => Some(F8)
      case "F9" => Some(F9)
      case "F10" => Some(F10)
      case "F11" => Some(F11)
      case "F12" => Some(F12)
      case "INSERT" => Some(Insert)
      case "DELETE" => Some(Delete)
      case "HOME" => Some(Home)
      case "END" => Some(End)
      case "PAGEUP" => Some(PageUp)
      case "PAGEDOWN" => Some(PageDown)
      case "LEFT" => Some(LeftArrow)
      case "RIGHT" => Some(RightArrow)
      case "UP" => Some(UpArrow)
      case "DOWN" => Some(DownArrow)
      case _ => None
  }

  /** `string_to_key`: the table, looked up case-insensitively. */
  function StringToKey(s: string): Option<Key> {
    Lookup(Upper(s))
  }

  /** The `Debug` name of a key. */
  function DebugName(k: Key): string
    requires k.Valid()
  {
    match k
    case Letter(c) => "Key" + [c]
    case Num(n) => "Num" + [DigitChar(n)]
    case Return => "Return"
    case Escape => "Escape"
    case Backspace => "Backspace"
    case Tab => "Tab"
    case Space => "Space"
    case Minus => "Minus"
    case Equal => "Equal"
    case LeftBracket => "LeftBracket"
    case RightBracket => "RightBracket"
    case BackSlash => "BackSlash"
    case SemiColon => "SemiColon"
    case Quote => "Quote"
    case BackQuote => "BackQuote"
    case Comma => "Comma"
    case Dot => "Dot"
    case Slash => "Slash"
    case CapsLock => "CapsLock"
    case F1 => "F1"
    case F2 => "F2"
    case F3 => "F3"
    case F4 => "F4"
    case F5 => "F5"
    case F6 => "F6"
    case F7 => "F7"
    case F8 => "F8"
    case F9 => "F9"
    case F10 => "F10"
    case F11 => "F11"
    case F12 => "F12"
    case Insert => "Insert"
    case Delete => "Delete"
    case Home => "Home"
    case End => "End"
    case PageUp => "PageUp"
    case PageDown => "PageDown"
    case LeftArrow => "LeftArrow"
    case RightArrow => "RightArrow"
    case UpArrow => "UpArrow"
    case DownArrow => "DownArrow"
    case Alt => "Alt"
    case ControlLeft => "ControlLeft"
    case ShiftLeft => "ShiftLeft"
    case MetaLeft => "MetaLeft"
    case PrintScreen => "PrintScreen"
    case NumLock => "NumLock"
    case Unknown(code) => "Unknown(" + NatToDigits(code) + ")"
  }

  /** `key_to_string`: the debug name, upper-cased. */
  function KeyToString(k: Key): (r: string)
    requires k.Valid()
    ensures forall i :: 0 <= i < |r| ==> !IsLowerAscii(r[i])
  {
    Upper(DebugName(k))
  }

  /** The key name stored in the layout file. */
  datatype KeyWrapper = KeyWrapper(name: string) {
    /** `as_key`. */
    function AsKey(): (k: Option<Key>)
      ensures k == StringToKey(name)
    {
      StringToKey(name)
    }
  }

  /** `KeyWrapper::default()`: the empty name. */
  function DefaultWrapper(): (w: KeyWrapper)
    ensures w.AsKey().None?
  {
    KeyWrapper("")
  }

  /** `KeyWrapper::from_key`. */
  function FromKey(k: Key): (w: KeyWrapper)
    requires k.Valid()
    ensures forall i :: 0 <= i < |w.name| ==> !IsLowerAscii(w.name[i])
  {
    KeyWrapper(KeyToString(k))
  }

  // ---------------------------------------------------------------------

  /** Looking a name up is looking up its upper-cased form. */
  lemma CaseInsensitive(s: string)
    ensures StringToKey(s) == StringToKey(Upper(s))
  {
    UpperIdempotent(s);
  }

  /** Every letter, in either case, names its letter key, and every digit
      its digit key. */
  lemma LettersAndDigits(c: char)
    ensures IsUpperAscii(c) ==> StringToKey([c]) == Some(Letter(c))
    ensures IsUpperAscii(c) ==> StringToKey([(c as int + 32) as char]) == Some(Letter(c))
    ensures IsDigit(c) ==> StringToKey([c]) == Some(Num(DigitValue(c)))
  {
    if IsUpperAscii(c) {
      var lower := (c as int + 32) as char;
      assert Upper([lower]) == [c];
      assert Upper([c]) == [c];
    }
    if IsDigit(c) {
      assert Upper([c]) == [c];
    }
  }

  /** "Esc" and "Escape" name the same key, so do "Dot" and "Period", and
      "Enter" names Return. */
  lemma Aliases()
    ensures StringToKey("esc") == StringToKey("Escape") == Some(Escape)
    ensures StringToKey("dot") == StringToKey("Period") == Some(Dot)
    ensures StringToKey("Enter") == Some(Return)
  {
    assert Upper("esc") == "ESC";
    assert Upper("Escape") == "ESCAPE";
    assert Upper("dot") == "DOT";
    assert Upper("Period") == "PERIOD";
    assert Upper("Enter") == "ENTER";
  }

  /** Names outside the table are not keys: the empty name of the default
      wrapper, and a key's debug name such as "KEYA". */
  lemma NotInTable()
    ensures StringToKey("") == None
    ensures StringToKey("KeyA") == None && KeyToString(Letter('A')) == "KEYA"
    ensures FromKey(Letter('A')).AsKey() == None
  {
    assert Upper("KeyA") == "KEYA";
    assert Upper("KEYA") == "KEYA";
    assert Upper("") == "";
  }

  /** The name written for a letter key, a digit key or an unidentified
      key is never read back as a key: "KEYA", "NUM1" and "UNKNOWN(7)" are
      not in the table. */
  lemma WrittenNameNotReadBack(k: Key)
    requires k.Valid() && (k.Letter? || k.Num? || k.Unknown?)
    ensures FromKey(k).AsKey() == None
  {
    match k
    case Letter(c) => LetterNotReadBack(c);
    case Num(n) => NumNotReadBack(n);
    case Unknown(code) => UnknownNotReadBack(code);
  }

  lemma LetterNotReadBack(c: char)
    requires IsUpperAscii(c)
    ensures FromKey(Letter(c)).AsKey() == None
  {
    UpperAppend("Key", [c]);
    assert Upper("Key") == "KEY";
    assert Upper([c]) == [c];
    WrittenAs(Letter(c), "KEY" + [c]);
    NotATableName("KEY" + [c]);
  }

  lemma NumNotReadBack(n: nat)
    requires n < 10
    ensures FromKey(Num(n)).AsKey() == None
  {
    var d := DigitChar(n);
    UpperAppend("Num", [d]);
    assert Upper("Num") == "NUM";
    assert Upper([d]) == [d];
    WrittenAs(Num(n), "NUM" + [d]);
    NotATableName("NUM" + [d]);
  }

  lemma UnknownNotReadBack(code: nat)
    ensures FromKey(Unknown(code)).AsKey() == None
  {
    var digits := NatToDigits(code);
    var written := "UNKNOWN(" + digits + ")";
    assert DebugName(Unknown(code)) == "Unknown(" + digits + ")";
    assert Upper("Unknown(" + digits + ")") == written by {
      UpperAppend("Unknown(" + digits, ")");
      UpperAppend("Unknown(", digits);
      assert Upper("Unknown(") == "UNKNOWN(";
      UpperOfDigits(digits);
      assert Upper(")") == ")";
    }
    WrittenAs(Unknown(code), written);
    NotATableName(written);
  }

  /** Digits are their own upper case. */
  lemma UpperOfDigits(s: string)
    requires AllDigits(s)
    ensures Upper(s) == s
  {
  }

  /** Among the named keys some names read back and some do not: Space is
      written "SPACE", which the table has, while Return is written
      "RETURN" and the up arrow "UPARROW", which it lacks. */
  lemma NamedKeysWrittenBack()
    ensures FromKey(Space).AsKey() == Some(Space)
    ensures FromKey(Return).AsKey() == None
    ensures FromKey(UpArrow).AsKey() == None
  {
    SpaceWrittenBack();
    ReturnNotWrittenBack();
    UpArrowNotWrittenBack();
  }

  lemma SpaceWrittenBack()
    ensures FromKey(Space).AsKey() == Some(Space)
  {
    assert Upper("Space") == "SPACE";
    WrittenAs(Space, "SPACE");
  }

  lemma ReturnNotWrittenBack()
    ensures FromKey(Return).AsKey() == None
  {
    assert Upper("Return") == "RETURN";
    WrittenAs(Return, "RETURN");
  }

  lemma UpArrowNotWrittenBack()
    ensures FromKey(UpArrow).AsKey() == None
  {
    assert Upper("UpArrow") == "UPARROW";
    WrittenAs(UpArrow, "UPARROW");
  }

  lemma WrittenAs(k: Key, written: string)
    requires k.Valid() && KeyToString(k) == written
    ensures FromKey(k).AsKey() == Lookup(written)
  {
    UpperIdempotent(DebugName(k));
  }

  /** A name of three or more characters starting with K, N or U is not in
      the table. */
  lemma NotATableName(u: string)
    requires |u| >= 3 && (u[0] == 'K' || u[0] == 'N' || u[0] == 'U')
    ensures Lookup(u) == None
  {
    assert u[0] != "ENTER"[0];
  }

  lemma UpperAppend(a: string, b: string)
    ensures Upper(a + b) == Upper(a) + Upper(b)
  {
  }
}
