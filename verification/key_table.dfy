/** The key-name table of src/MapEventKeyCode.ts: every symbolic key name a
    pattern may use, mapped to the `key`, `keyCode` and `code` a browser
    reports for that key, with the browser and platform corrections applied
    once at start-up. */
module KeyTable {
  import opened JsText

  /** The three representations of a key. */
  datatype KeyEntry = KeyEntry(key: string, keyCode: nat, code: string)

  /** Which representation a listener matches on (`'key' | 'keyCode' | 'code'`). */
  datatype EventType = Key | KeyCode | Code

  /** The order in which the event handlers visit the representations. */
  const EventTypes: seq<EventType> := [Key, KeyCode, Code]

  /** A representation as the string it becomes when the source joins it into
      a trigger key or a sequence record; key codes are rendered in decimal. */
  function Field(e: KeyEntry, t: EventType): string {
    match t
    case Key => e.key
    case KeyCode => DecimalString(e.keyCode)
    case Code => e.code
  }

  /** Entries whose name is a single ASCII letter (source lines 499-758). */
  function LetterKeys(c: char): Option<KeyEntry> {
    match c
    case 'a' => Some(KeyEntry("a", 65, "KeyA"))
    case 'A' => Some(KeyEntry("A", 65, "KeyA"))
    case 'b' => Some(KeyEntry("b", 66, "KeyB"))
    case 'B' => Some(KeyEntry("B", 66, "KeyB"))
    case 'c' => Some(KeyEntry("c", 67, "KeyC"))
    case 'C' => Some(KeyEntry("C", 67, "KeyC"))
    case 'd' => Some(KeyEntry("d", 68, "KeyD"))
    case 'D' => Some(KeyEntry("D", 68, "KeyD"))
    case 'e' => Some(KeyEntry("e", 69, "KeyE"))
    case 'E' => Some(KeyEntry("E", 69, "KeyE"))
    case 'f' => Some(KeyEntry("f", 70, "KeyF"))
    case 'F' => Some(KeyEntry("F", 70, "KeyF"))
    case 'g' => Some(KeyEntry("g", 71, "KeyG"))
    case 'G' => Some(KeyEntry("G", 71, "KeyG"))
    case 'h' => Some(KeyEntry("h", 72, "KeyH"))
    case 'H' => Some(KeyEntry("H", 72, "KeyH"))
    case 'i' => Some(KeyEntry("i", 73, "KeyI"))
    case 'I' => Some(KeyEntry("I", 73, "KeyI"))
    case 'j' => Some(KeyEntry("j", 74, "KeyJ"))
    case 'J' => Some(KeyEntry("J", 74, "KeyJ"))
    case 'k' => Some(KeyEntry("k", 75, "KeyK"))
    case 'K' => Some(KeyEntry("K", 75, "KeyK"))
    case 'l' => Some(KeyEntry("l", 76, "KeyL"))
    case 'L' => Some(KeyEntry("L", 76, "KeyL"))
    case 'm' => Some(KeyEntry("m", 77, "KeyM"))
    case 'M' => Some(KeyEntry("M", 77, "KeyM"))
    case 'n' => Some(KeyEntry("n", 78, "KeyN"))
    case 'N' => Some(KeyEntry("N", 78, "KeyN"))
    case 'o' => Some(KeyEntry("o", 79, "KeyO"))
    case 'O' => Some(KeyEntry("O", 79, "KeyO"))
    case 'p' => Some(KeyEntry("p", 80, "KeyP"))
    case 'P' => Some(KeyEntry("P", 80, "KeyP"))
    case 'q' => Some(KeyEntry("q", 81, "KeyQ"))
    case 'Q' => Some(KeyEntry("Q", 81, "KeyQ"))
    case 'r' => Some(KeyEntry("r", 82, "KeyR"))
    case 'R' => Some(KeyEntry("R", 82, "KeyR"))
    case 's' => Some(KeyEntry("s", 83, "KeyS"))
    case 'S' => Some(KeyEntry("S", 83, "KeyS"))
    case 't' => Some(KeyEntry("t", 84, "KeyT"))
    case 'T' => Some(KeyEntry("T", 84, "KeyT"))
    case 'u' => Some(KeyEntry("u", 85, "KeyU"))
    case 'U' => Some(KeyEntry("U", 85, "KeyU"))
    case 'v' => Some(KeyEntry("v", 86, "KeyV"))
    case 'V' => Some(KeyEntry("V", 86, "KeyV"))
    case 'w' => Some(KeyEntry("w", 87, "KeyW"))
    case 'W' => Some(KeyEntry("W", 87, "KeyW"))
    case 'x' => Some(KeyEntry("x", 88, "KeyX"))
    case 'X' => Some(KeyEntry("X", 88, "KeyX"))
    case 'y' => Some(KeyEntry("y", 89, "KeyY"))
    case 'Y' => Some(KeyEntry("Y", 89, "KeyY"))
    case 'z' => Some(KeyEntry("z", 90, "KeyZ"))
    case 'Z' => Some(KeyEntry("Z", 90, "KeyZ"))
    case _ => None
  }

  /** Entries whose name is a single punctuation character or digit (source
      lines 208-312 and 320-418). */
  function SymbolKeys(c: char): Option<KeyEntry> {
    match c
    case ',' => Some(KeyEntry(",", 188, "Comma"))
    case '<' => Some(KeyEntry("<", 188, "Comma"))
    case '.' => Some(KeyEntry(".", 190, "Period"))
    case '>' => Some(KeyEntry(">", 190, "Period"))
    case '/' => Some(KeyEntry("/", 191, "Slash"))
    case '?' => Some(KeyEntry("?", 191, "Slash"))
    case '`' => Some(KeyEntry("`", 192, "Backquote"))
    case '~' => Some(KeyEntry("~", 192, "Backquote"))
    case '[' => Some(KeyEntry("[", 219, "BracketLeft"))
    case '{' => Some(KeyEntry("{", 219, "BracketLeft"))
    case '\\' => Some(KeyEntry("\\", 220, ""))
    case '|' => Some(KeyEntry("|", 220, ""))
    case ']' => Some(KeyEntry("]", 221, "BracketRight"))
    case '}' => Some(KeyEntry("]", 221, "BracketRight"))
    case '\'' => Some(KeyEntry("'", 222, "Quote"))
    case '"' => Some(KeyEntry("\"", 222, "Quote"))
    case ';' => Some(KeyEntry(";", 186, "Semicolon"))
    case ':' => Some(KeyEntry(";", 186, "Semicolon"))
    case '-' => Some(KeyEntry("-", 189, "Minus"))
    case '_' => Some(KeyEntry("_", 189, "Minus"))
    case '=' => Some(KeyEntry("=", 187, "Equal"))
    case '0' => Some(KeyEntry("0", 48, "Digit0"))
    case ')' => Some(KeyEntry(")", 48, "Digit0"))
    case '1' => Some(KeyEntry("1", 49, "Digit1"))
    case '!' => Some(KeyEntry("!", 49, "Digit1"))
    case '2' => Some(KeyEntry("2", 50, "Digit2"))
    case '@' => Some(KeyEntry("@", 50, "Digit2"))
    case '3' => Some(KeyEntry("3", 51, "Digit3"))
    case '#' => Some(KeyEntry("#", 51, "Digit3"))
    case '4' => Some(KeyEntry("4", 52, "Digit4"))
    case '$' => Some(KeyEntry("$", 52, "Digit4"))
    case '5' => Some(KeyEntry("5", 53, "Digit5"))
    case '%' => Some(KeyEntry("%", 53, "Digit5"))
    case '6' => Some(KeyEntry("6", 54, "Digit6"))
    case '^' => Some(KeyEntry("^", 54, "Digit6"))
    case '7' => Some(KeyEntry("7", 55, "Digit7"))
    case '&' => Some(KeyEntry("&", 55, "Digit7"))
    case '8' => Some(KeyEntry("8", 56, "Digit8"))
    case '*' => Some(KeyEntry("*", 56, "Digit8"))
    case '9' => Some(KeyEntry("9", 57, "Digit9"))
    case '(' => Some(KeyEntry("(", 57, "Digit9"))
    case _ => None
  }

  /** Control and editing keys with longer names (lines 8-206) and the
      `equal` alias for a literal plus (line 313). */
  function ControlKeys(name: string): Option<KeyEntry> {
    match name
    case "cancel" => Some(KeyEntry("Cancel", 3, "Cancel"))
    case "backspace" => Some(KeyEntry("Backspace", 8, "Backspace"))
    case "tab" => Some(KeyEntry("Tab", 9, "Tab"))
    case "clear" => Some(KeyEntry("Clear", 12, "Clear"))
    case "enter" => Some(KeyEntry("Enter", 13, "Enter"))
    case "shift" => Some(KeyEntry("Shift", 16, "ShiftLeft"))
    case "shiftLeft" => Some(KeyEntry("Shift", 16, "ShiftLeft"))
    case "shiftRight" => Some(KeyEntry("Shift", 16, "ShiftRight"))
    case "ctrl" => Some(KeyEntry("Control", 17, "ControlLeft"))
    case "ctrlLeft" => Some(KeyEntry("Control", 17, "ControlLeft"))
    case "ctrlRight" => Some(KeyEntry("Control", 17, "ControlRight"))
    case "alt" => Some(KeyEntry("Alt", 18, "AltLeft"))
    case "altLeft" => Some(KeyEntry("Alt", 18, "AltLeft"))
    case "altRight" => Some(KeyEntry("Alt", 18, "AltRight"))
    case "menu" => Some(KeyEntry("ContextMenu", 18, "ContextMenu"))
    case "pause" => Some(KeyEntry("Pause", 19, "Pause"))
    case "break" => Some(KeyEntry("Pause", 19, "Pause"))
    case "capslock" => Some(KeyEntry("CapsLock", 20, "CapsLock"))
    case "escape" => Some(KeyEntry("Escape", 27, "Escape"))
    case "esc" => Some(KeyEntry("Escape", 27, "Escape"))
    case "space" => Some(KeyEntry(" ", 32, "Space"))
    case "spacebar" => Some(KeyEntry(" ", 32, "Space"))
    case "pageUp" => Some(KeyEntry("PageUp", 33, "PageUp"))
    case "pageDown" => Some(KeyEntry("PageDown", 34, "PageDown"))
    case "end" => Some(KeyEntry("End", 35, "End"))
    case "home" => Some(KeyEntry("Home", 36, "Home"))
    case "left" => Some(KeyEntry("ArrowLeft", 37, "ArrowLeft"))
    case "up" => Some(KeyEntry("ArrowUp", 38, "ArrowUp"))
    case "right" => Some(KeyEntry("ArrowRight", 39, "ArrowRight"))
    case "down" => Some(KeyEntry("ArrowDown", 40, "ArrowDown"))
    case "select" => Some(KeyEntry("Select", 41, "Select"))
    case "printScreen" => Some(KeyEntry("PrintScreen", 42, "PrintScreen"))
    case "execute" => Some(KeyEntry("Execute", 43, "Execute"))
    case "snapshot" => Some(KeyEntry("SnapShot", 44, "SnapShot"))
    case "insert" => Some(KeyEntry("Insert", 45, "Insert"))
    case "ins" => Some(KeyEntry("Insert", 45, "Insert"))
    case "delete" => Some(KeyEntry("Delete", 46, "Delete"))
    case "del" => Some(KeyEntry("Delete", 46, "Delete"))
    case "help" => Some(KeyEntry("Help", 47, "Help"))
    case "scrollLock" => Some(KeyEntry("ScrollLock", 145, "ScrollLock"))
    case "equal" => Some(KeyEntry("+", 187, "Equal"))
    case _ => None
  }

  /** The numpad block (lines 422-496). */
  function NumpadKeys(name: string): Option<KeyEntry> {
    match name
    case "numpad0" => Some(KeyEntry("0", 96, "Numpad0"))
    case "numpad1" => Some(KeyEntry("1", 97, "Numpad1"))
    case "numpad2" => Some(KeyEntry("2", 98, "Numpad2"))
    case "numpad3" => Some(KeyEntry("3", 99, "Numpad3"))
    case "numpad4" => Some(KeyEntry("4", 100, "Numpad4"))
    case "numpad5" => Some(KeyEntry("5", 101, "Numpad5"))
    case "numpad6" => Some(KeyEntry("6", 102, "Numpad6"))
    case "numpad7" => Some(KeyEntry("7", 103, "Numpad7"))
    case "numpad8" => Some(KeyEntry("8", 104, "Numpad8"))
    case "numpad9" => Some(KeyEntry("9", 105, "Numpad9"))
    case "numpadDivide" => Some(KeyEntry("/", 111, "NumpadDivide"))
    case "numpadMultiply" => Some(KeyEntry("*", 106, "NumpadMultiply"))
    case "numpadSubtract" => Some(KeyEntry("-", 109, "NumpadSubtract"))
    case "numpadAdd" => Some(KeyEntry("+", 107, "NumpadAdd"))
    case "numpadEnter" => Some(KeyEntry("+", 109, "NumpadEnter"))
    case _ => None
  }

  /** The command keys (lines 761-775). */
  function CommandKeys(name: string): Option<KeyEntry> {
    match name
    case "command" => Some(KeyEntry("Meta", 91, "MetaLeft"))
    case "commandLeft" => Some(KeyEntry("Meta", 91, "MetaLeft"))
    case "commandRight" => Some(KeyEntry("Meta", 93, "MetaRight"))
    case _ => None
  }

  /** Entries whose name is longer than one character. */
  function NamedKeys(name: string): Option<KeyEntry> {
    if ControlKeys(name).Some? then ControlKeys(name)
    else if NumpadKeys(name).Some? then NumpadKeys(name)
    else CommandKeys(name)
  }

  /** The table literal of lines 7-776, before any correction. */
  function BaseEntry(name: string): Option<KeyEntry> {
    if |name| == 1 then
      if IsAsciiLetter(name[0]) then LetterKeys(name[0]) else SymbolKeys(name[0])
    else NamedKeys(name)
  }

  /** The table as the process sees it: the literal, with the `keyCode` of some
      names overwritten by start-up corrections. Corrections can only rewrite a
      `keyCode`; names, `key` and `code` are fixed by the literal. */
  datatype KeyTable = KeyTable(keyCodeOverrides: map<string, nat>)

  const Base := KeyTable(map[])

  /** `keyNames[name]`, or `None` where the source would read `undefined`. */
  function Entry(t: KeyTable, name: string): Option<KeyEntry> {
    match BaseEntry(name)
    case None => None
    case Some(e) => Some(if name in t.keyCodeOverrides then e.(keyCode := t.keyCodeOverrides[name]) else e)
  }

  predicate Has(t: KeyTable, name: string) {
    Entry(t, name).Some?
  }

  /** `keyNames[name][eventType]`, the empty string standing for a name the
      table lacks (callers only ask for names they have checked). */
  function Rep(t: KeyTable, name: string, et: EventType): string {
    match Entry(t, name)
    case None => ""
    case Some(e) => Field(e, et)
  }

  /** `keyNames[name].keyCode = code` for a name the table has. */
  function SetKeyCode(t: KeyTable, name: string, code: nat): (r: KeyTable)
    requires Has(t, name)
    ensures Has(r, name) && Entry(r, name) == Some(Entry(t, name).value.(keyCode := code))
    ensures forall n | n != name :: Entry(r, n) == Entry(t, n)
  {
    KeyTable(t.keyCodeOverrides[name := code])
  }

  /** What the start-up code reads from `navigator`. */
  datatype Environment = Environment(userAgent: string, platform: string)

  /** `isMac`: the platform string mentions `Mac` (line 794). */
  predicate IsMac(env: Environment) {
    Contains(env.platform, "Mac")
  }

  predicate IsFirefox(env: Environment) {
    Contains(env.userAgent, "Firefox")
  }

  /** Firefox reports other key codes for `;`, `-` and `=` (lines 778-782). */
  function FirefoxPatch(t: KeyTable): KeyTable
    requires Has(t, ";") && Has(t, "-") && Has(t, "=")
  {
    var t1 := SetKeyCode(t, ";", 59);
    var t2 := SetKeyCode(t1, "-", 173);
    SetKeyCode(t2, "=", 61)
  }

  /** The three mutually exclusive command-key corrections of lines 783-792. */
  datatype MacBranch = MacSafariOrChrome | MacOpera | MacFirefox | NoMacBranch

  function ChooseMacBranch(env: Environment): MacBranch {
    if IsMac(env) && (Contains(env.userAgent, "Safari") || Contains(env.userAgent, "Chrome")) then MacSafariOrChrome
    else if IsMac(env) && Contains(env.userAgent, "Opera") then MacOpera
    else if IsMac(env) && IsFirefox(env) then MacFirefox
    else NoMacBranch
  }

  function MacPatch(t: KeyTable, env: Environment): KeyTable
    requires Has(t, "commandLeft") && Has(t, "commandRight")
  {
    match ChooseMacBranch(env)
    case MacSafariOrChrome => SetKeyCode(SetKeyCode(t, "commandLeft", 91), "commandRight", 93)
    case MacOpera => SetKeyCode(SetKeyCode(t, "commandLeft", 17), "commandRight", 17)
    case MacFirefox => SetKeyCode(SetKeyCode(t, "commandLeft", 224), "commandRight", 224)
    case NoMacBranch => t
  }

  /** The table after module initialisation in the given environment. */
  function StartupTable(env: Environment): KeyTable {
    var t := if IsFirefox(env) then FirefoxPatch(Base) else Base;
    MacPatch(t, env)
  }

  /** The Firefox correction rewrites exactly the `keyCode` of `;`, `-` and `=`. */
  lemma FirefoxPatchEffect(t: KeyTable)
    requires Has(t, ";") && Has(t, "-") && Has(t, "=")
    ensures forall n | n != ";" && n != "-" && n != "=" :: Entry(FirefoxPatch(t), n) == Entry(t, n)
    ensures Entry(FirefoxPatch(t), ";") == Some(Entry(t, ";").value.(keyCode := 59))
    ensures Entry(FirefoxPatch(t), "-") == Some(Entry(t, "-").value.(keyCode := 173))
    ensures Entry(FirefoxPatch(t), "=") == Some(Entry(t, "=").value.(keyCode := 61))
  {
    var t1 := SetKeyCode(t, ";", 59);
    var t2 := SetKeyCode(t1, "-", 173);
  }

  /** The command-key corrections touch only the `keyCode` of `commandLeft` and
      `commandRight`, and the branch taken fixes both codes. */
  lemma MacPatchEffect(t: KeyTable, env: Environment)
    requires Has(t, "commandLeft") && Has(t, "commandRight")
    ensures forall n | n != "commandLeft" && n != "commandRight" :: Entry(MacPatch(t, env), n) == Entry(t, n)
    ensures ChooseMacBranch(env) == NoMacBranch ==> MacPatch(t, env) == t
    ensures ChooseMacBranch(env) != NoMacBranch ==> IsMac(env)
    ensures var l := Entry(MacPatch(t, env), "commandLeft");
            var r := Entry(MacPatch(t, env), "commandRight");
            && l.Some? && l.value.key == Entry(t, "commandLeft").value.key && l.value.code == Entry(t, "commandLeft").value.code
            && r.Some? && r.value.key == Entry(t, "commandRight").value.key && r.value.code == Entry(t, "commandRight").value.code
            && (ChooseMacBranch(env) == MacSafariOrChrome ==> l.value.keyCode == 91 && r.value.keyCode == 93)
            && (ChooseMacBranch(env) == MacOpera ==> l.value.keyCode == 17 && r.value.keyCode == 17)
            && (ChooseMacBranch(env) == MacFirefox ==> l.value.keyCode == 224 && r.value.keyCode == 224)
  {
    match ChooseMacBranch(env)
    case MacSafariOrChrome => var t1 := SetKeyCode(t, "commandLeft", 91);
    case MacOpera => var t1 := SetKeyCode(t, "commandLeft", 17);
    case MacFirefox => var t1 := SetKeyCode(t, "commandLeft", 224);
    case NoMacBranch =>
  }

  /** Off a Mac platform no command-key correction applies: the start-up
      table is the literal one, with only the Firefox correction if any. */
  lemma NonMacStartup(env: Environment)
    ensures !IsMac(env) ==> ChooseMacBranch(env) == NoMacBranch
    ensures !IsMac(env) ==> StartupTable(env) == (if IsFirefox(env) then FirefoxPatch(Base) else Base)
  {
  }

  /** Start-up corrections only ever rewrite key codes of `;`, `-`, `=` and the
      two command keys; every other entry is the literal's. */
  lemma StartupTableEntries(env: Environment, n: string)
    ensures Has(StartupTable(env), n) <==> BaseEntry(n).Some?
    ensures Has(StartupTable(env), n) ==>
      && Entry(StartupTable(env), n).value.key == BaseEntry(n).value.key
      && Entry(StartupTable(env), n).value.code == BaseEntry(n).value.code
    ensures n != ";" && n != "-" && n != "=" && n != "commandLeft" && n != "commandRight" ==>
      Entry(StartupTable(env), n) == BaseEntry(n)
  {
    var t := if IsFirefox(env) then FirefoxPatch(Base) else Base;
    if IsFirefox(env) {
      FirefoxPatchEffect(Base);
    }
    MacPatchEffect(t, env);
  }

  lemma BaseModifierAliases()
    ensures BaseEntry("shift").Some? && BaseEntry("shift") == BaseEntry("shiftLeft")
    ensures BaseEntry("ctrl") == BaseEntry("ctrlLeft")
    ensures BaseEntry("alt") == BaseEntry("altLeft")
  {
  }

  lemma BaseAliases()
    ensures BaseEntry("escape").Some? && BaseEntry("escape") == BaseEntry("esc")
    ensures BaseEntry("space") == BaseEntry("spacebar")
  {
  }

  lemma BaseEditingAliases()
    ensures BaseEntry("insert") == BaseEntry("ins")
    ensures BaseEntry("delete") == BaseEntry("del")
  {
  }

  lemma BaseEqualAlias()
    ensures BaseEntry("equal").Some? && BaseEntry("equal").value.key == "+"
    ensures BaseEntry("=").Some? && BaseEntry("equal").value.code == BaseEntry("=").value.code
  {
  }

  /** Alias names resolve to identical records in every environment. */
  lemma AliasesAgree(env: Environment)
    ensures Has(StartupTable(env), "shift")
    ensures Entry(StartupTable(env), "shift") == Entry(StartupTable(env), "shiftLeft")
    ensures Entry(StartupTable(env), "ctrl") == Entry(StartupTable(env), "ctrlLeft")
    ensures Entry(StartupTable(env), "alt") == Entry(StartupTable(env), "altLeft")
    ensures Has(StartupTable(env), "escape")
    ensures Entry(StartupTable(env), "escape") == Entry(StartupTable(env), "esc")
    ensures Entry(StartupTable(env), "space") == Entry(StartupTable(env), "spacebar")
    ensures Entry(StartupTable(env), "insert") == Entry(StartupTable(env), "ins")
    ensures Entry(StartupTable(env), "delete") == Entry(StartupTable(env), "del")
  {
    BaseModifierAliases();
    BaseAliases();
    BaseEditingAliases();
    StartupTableEntries(env, "shift");
    StartupTableEntries(env, "shiftLeft");
    StartupTableEntries(env, "ctrl");
    StartupTableEntries(env, "ctrlLeft");
    StartupTableEntries(env, "alt");
    StartupTableEntries(env, "altLeft");
    StartupTableEntries(env, "escape");
    StartupTableEntries(env, "esc");
    StartupTableEntries(env, "space");
    StartupTableEntries(env, "spacebar");
    StartupTableEntries(env, "insert");
    StartupTableEntries(env, "ins");
    StartupTableEntries(env, "delete");
    StartupTableEntries(env, "del");
  }

  /** The name `equal` stands for a literal plus: its `key` is `+` while the
      name itself contains no pattern separator, in every environment. */
  lemma EqualIsPlusAlias(env: Environment)
    ensures Has(StartupTable(env), "equal")
    ensures Entry(StartupTable(env), "equal").value.key == "+"
    ensures Entry(StartupTable(env), "equal").value.code == Entry(StartupTable(env), "=").value.code
    ensures '+' !in "equal" && !Contains("equal", "->")
  {
    BaseEqualAlias();
    StartupTableEntries(env, "equal");
    StartupTableEntries(env, "=");
    EqualHasNoSeparator();
  }

  lemma EqualHasNoSeparator()
    ensures '+' !in "equal" && !Contains("equal", "->")
  {
    forall i | 0 <= i <= |"equal"| - 2 ensures !OccursAt("equal", "->", i) {
      assert "equal"[i] != '-';
    }
  }

  /** The lower- and upper-case name of a letter share `keyCode` and `code`,
      and each has itself as `key`. */
  predicate SameLetterEntry(lo: Option<KeyEntry>, up: Option<KeyEntry>, lower: char, upper: char) {
    && lo.Some? && up.Some?
    && lo.value.keyCode == up.value.keyCode && lo.value.code == up.value.code
    && lo.value.key == [lower] && up.value.key == [upper]
  }

  lemma LetterPairsAtoF(c: char)
    requires 'a' <= c <= 'f'
    ensures SameLetterEntry(LetterKeys(c), LetterKeys(UpperChar(c)), c, UpperChar(c))
  {
    match c
    case 'a' => assert SameLetterEntry(LetterKeys('a'), LetterKeys('A'), 'a', 'A');
    case 'b' => assert SameLetterEntry(LetterKeys('b'), LetterKeys('B'), 'b', 'B');
    case 'c' => assert SameLetterEntry(LetterKeys('c'), LetterKeys('C'), 'c', 'C');
    case 'd' => assert SameLetterEntry(LetterKeys('d'), LetterKeys('D'), 'd', 'D');
    case 'e' => assert SameLetterEntry(LetterKeys('e'), LetterKeys('E'), 'e', 'E');
    case 'f' => assert SameLetterEntry(LetterKeys('f'), LetterKeys('F'), 'f', 'F');
  }

  lemma LetterPairsGtoL(c: char)
    requires 'g' <= c <= 'l'
    ensures SameLetterEntry(LetterKeys(c), LetterKeys(UpperChar(c)), c, UpperChar(c))
  {
    match c
    case 'g' => assert SameLetterEntry(LetterKeys('g'), LetterKeys('G'), 'g', 'G');
    case 'h' => assert SameLetterEntry(LetterKeys('h'), LetterKeys('H'), 'h', 'H');
    case 'i' => assert SameLetterEntry(LetterKeys('i'), LetterKeys('I'), 'i', 'I');
    case 'j' => assert SameLetterEntry(LetterKeys('j'), LetterKeys('J'), 'j', 'J');
    case 'k' => assert SameLetterEntry(LetterKeys('k'), LetterKeys('K'), 'k', 'K');
    case 'l' => assert SameLetterEntry(LetterKeys('l'), LetterKeys('L'), 'l', 'L');
  }

  lemma LetterPairsMtoR(c: char)
    requires 'm' <= c <= 'r'
    ensures SameLetterEntry(LetterKeys(c), LetterKeys(UpperChar(c)), c, UpperChar(c))
  {
    match c
    case 'm' => assert SameLetterEntry(LetterKeys('m'), LetterKeys('M'), 'm', 'M');
    case 'n' => assert SameLetterEntry(LetterKeys('n'), LetterKeys('N'), 'n', 'N');
    case 'o' => assert SameLetterEntry(LetterKeys('o'), LetterKeys('O'), 'o', 'O');
    case 'p' => assert SameLetterEntry(LetterKeys('p'), LetterKeys('P'), 'p', 'P');
    case 'q' => assert SameLetterEntry(LetterKeys('q'), LetterKeys('Q'), 'q', 'Q');
    case 'r' => assert SameLetterEntry(LetterKeys('r'), LetterKeys('R'), 'r', 'R');
  }

  lemma LetterPairsStoW(c: char)
    requires 's' <= c <= 'w'
    ensures SameLetterEntry(LetterKeys(c), LetterKeys(UpperChar(c)), c, UpperChar(c))
  {
    match c
    case 's' => assert SameLetterEntry(LetterKeys('s'), LetterKeys('S'), 's', 'S');
    case 't' => assert SameLetterEntry(LetterKeys('t'), LetterKeys('T'), 't', 'T');
    case 'u' => assert SameLetterEntry(LetterKeys('u'), LetterKeys('U'), 'u', 'U');
    case 'v' => assert SameLetterEntry(LetterKeys('v'), LetterKeys('V'), 'v', 'V');
    case 'w' => assert SameLetterEntry(LetterKeys('w'), LetterKeys('W'), 'w', 'W');
  }

  lemma LetterPairsXtoZ(c: char)
    requires 'x' <= c <= 'z'
    ensures SameLetterEntry(LetterKeys(c), LetterKeys(UpperChar(c)), c, UpperChar(c))
  {
    match c
    case 'x' => assert SameLetterEntry(LetterKeys('x'), LetterKeys('X'), 'x', 'X');
    case 'y' => assert SameLetterEntry(LetterKeys('y'), LetterKeys('Y'), 'y', 'Y');
    case 'z' => assert SameLetterEntry(LetterKeys('z'), LetterKeys('Z'), 'z', 'Z');
  }

  /** Upper- and lower-case letter names differ only in the case of `key`, in
      every environment. */
  lemma LetterCasePairs(env: Environment, c: char)
    requires 'a' <= c <= 'z'
    ensures SameLetterEntry(Entry(StartupTable(env), [c]), Entry(StartupTable(env), [UpperChar(c)]), c, UpperChar(c))
    ensures LowerChar(UpperChar(c)) == c
  {
    if c <= 'f' { LetterPairsAtoF(c); } else if c <= 'l' { LetterPairsGtoL(c); } else if c <= 'r' { LetterPairsMtoR(c); } else if c <= 'w' { LetterPairsStoW(c); } else { LetterPairsXtoZ(c); }
    assert BaseEntry([c]) == LetterKeys(c);
    assert BaseEntry([UpperChar(c)]) == LetterKeys(UpperChar(c));
    StartupTableEntries(env, [c]);
    StartupTableEntries(env, [UpperChar(c)]);
  }

  /** A single-letter name is in every table, with itself as `key`: the key
      codes are the only fields a patch rewrites. */
  lemma LetterKeyIsName(t: KeyTable, c: char)
    requires IsAsciiLetter(c)
    ensures Has(t, [c]) && Rep(t, [c], Key) == [c]
  {
    var lo := LowerChar(c);
    if lo <= 'f' { LetterPairsAtoF(lo); } else if lo <= 'l' { LetterPairsGtoL(lo); } else if lo <= 'r' { LetterPairsMtoR(lo); } else if lo <= 'w' { LetterPairsStoW(lo); } else { LetterPairsXtoZ(lo); }
    assert c == lo || c == UpperChar(lo);
    assert BaseEntry([c]) == LetterKeys(c);
  }
}
