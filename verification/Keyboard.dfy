/** The line editor of student-distrib/keyboard.c on top of the screen. */
module Keyboards {
  import opened Bytes
  import opened Screens

  const BUF_SIZE := 1024
  const LINE_MAX := 128

  // Scan codes with a meaning of their own.
  const BACKSPACE: Byte := 0x0E
  const TAB: Byte := 0x0F
  const ENTER: Byte := 0x1C
  const LEFT_CTRL: Byte := 0x1D
  const LETTER_L: Byte := 0x26
  const LEFT_SHIFT: Byte := 0x2A
  const RIGHT_SHIFT: Byte := 0x36
  const CAPS_LOCK: Byte := 0x3A

  /** The four translation tables. */
  datatype Tables = Tables(norm: seq<Byte>, capNorm: seq<Byte>, shiftNorm: seq<Byte>, capShift: seq<Byte>) {
    /** Only the codes above translate to backspace, tab and newline, and nothing to carriage return. */
    ghost predicate Ok() {
      && |norm| == |capNorm| == |shiftNorm| == |capShift| == 128
      && norm[BACKSPACE] == 8 && norm[TAB] == 9 && norm[ENTER] == 10
      && forall code {:trigger IsText(code)} :: 0 <= code <= 0x3A && IsText(code) ==>
           && norm[code] !in {8, 9, 10, 13}
           && !IsNewline(capNorm[code]) && !IsNewline(shiftNorm[code]) && !IsNewline(capShift[code])
    }

    function Char(caps: bool, shift: bool, code: Byte): Byte
      requires Ok() && code <= 0x3A
    {
      if caps then (if shift then capShift[code] else capNorm[code])
      else (if shift then shiftNorm[code] else norm[code])
    }
  }

  predicate IsText(code: int) {
    code != BACKSPACE && code != TAB && code != ENTER
  }

  datatype Modifiers = Modifiers(caps: bool, shiftLeft: bool, shiftRight: bool, ctrl: bool) {
    /** Presses set a flag, releases clear it; caps lock toggles. */
    function Next(code: Byte): Modifiers {
      Modifiers(if code == CAPS_LOCK then !caps else caps,
                code == LEFT_SHIFT || (shiftLeft && code != 0xAA),
                code == RIGHT_SHIFT || (shiftRight && code != 0xB6),
                code == LEFT_CTRL || (ctrl && code != 0x9D))
    }
  }

  /** The editor as values: the line being typed, how many characters may be rubbed out, the last
      finished line and whether it is still unread, and what has been printed. */
  datatype Console = Console(mods: Modifiers, line: seq<Byte>, rubs: nat, stored: seq<Byte>, readable: bool, log: Log) {
    predicate Ok() {
      |line| <= LINE_MAX && log.Ok()
    }

    /** One scan code; `shown` is what a Ctrl+1/2/3 report prints. */
    function Press(code: Byte, tables: Tables, shown: seq<Byte>): (c: Console)
      requires Ok() && tables.Ok()
      ensures c.Ok()
    {
      var m := mods.Next(code);
      if m.ctrl && code == LETTER_L then
        Console(m, [], 0, [], readable, CLEARED)
      else if m.ctrl && 2 <= code <= 4 then
        this.(mods := m, log := CLEARED.PutAll(shown))
      else if code > 0x3A then
        this.(mods := m)
      else if code == ENTER then
        Console(m, [], 0, line + [NEWLINE], true, log.Put(NEWLINE))
      else if code == BACKSPACE then
        if rubs == 0 then this.(mods := m) else
        this.(mods := m, line := if line == [] then [] else line[..|line| - 1], rubs := rubs - 1, log := log.Rub())
      else if code == TAB then
        this.(mods := m, rubs := rubs + 2, log := log.Put(BLANK).Put(BLANK))
      else if code in {RIGHT_SHIFT, LEFT_SHIFT, LEFT_CTRL, CAPS_LOCK} || |line| == LINE_MAX then
        this.(mods := m)
      else
        var c := tables.Char(m.caps, m.shiftLeft || m.shiftRight, code);
        this.(mods := m, line := line + [c], rubs := rubs + 1, log := log.Put(c))
    }

    /** What terminal_write prints: its bytes are stored over the front of the line being typed, but
        the count starts from the length of that line, and can lead past the buffer into what lies `behind`. */
    function WriteText(bytes: seq<Byte>, behind: seq<Byte>): seq<Byte> {
      seq(|line| + |bytes|, i requires 0 <= i =>
        if i < |bytes| then bytes[i] else if i < |line| then line[i]
        else if BUF_SIZE <= i < BUF_SIZE + |behind| then behind[i - BUF_SIZE] else 0)
    }

    function Write(bytes: seq<Byte>, behind: seq<Byte>): (c: Console)
      requires Ok()
      ensures c.Ok()
    {
      this.(line := [], rubs := 0, log := log.PutAll(WriteText(bytes, behind)))
    }

    function Read(): Console {
      this.(stored := [], readable := false)
    }
  }

  class Keyboard {
    const tables: Tables
    const buffer: array<Byte>
    const storage: array<Byte>
    const screen: Screen
    var mods: Modifiers
    var contentCounter: nat
    var storageCounter: nat
    var backspacable: nat
    var readable: bool

    ghost predicate Valid()
      reads this, buffer, storage, screen, screen.video
    {
      && tables.Ok() && screen.Valid()
      && buffer.Length == BUF_SIZE && storage.Length == BUF_SIZE && buffer != storage
      && (buffer as object) != screen.video && (storage as object) != screen.video
      && contentCounter <= LINE_MAX && storageCounter <= LINE_MAX + 1
      && (forall i :: contentCounter <= i < BUF_SIZE ==> buffer[i] == 0)
    }

    ghost function View(): Console
      requires Valid()
      reads this, buffer, storage, screen, screen.video
    {
      Console(mods, buffer[..contentCounter], backspacable, storage[..storageCounter], readable, screen.log)
    }

    constructor (tables: Tables)
      requires tables.Ok()
      ensures Valid() && fresh(buffer) && fresh(storage) && fresh(screen) && fresh(screen.video)
      ensures View() == Console(Modifiers(false, false, false, false), [], 0, [], false, CLEARED)
    {
      this.tables := tables;
      buffer := new Byte[BUF_SIZE](_ => 0);
      storage := new Byte[BUF_SIZE](_ => 0);
      screen := new Screen();
      mods := Modifiers(false, false, false, false);
      contentCounter, storageCounter, backspacable, readable := 0, 0, 0, false;
    }

    /** clear_buf() */
    method ClearBuf()
      requires buffer.Length == BUF_SIZE
      modifies this`contentCounter, buffer
      ensures contentCounter == 0 && forall i :: 0 <= i < BUF_SIZE ==> buffer[i] == 0
    {
      var i := 0;
      while i < BUF_SIZE
        invariant 0 <= i <= BUF_SIZE
        invariant forall k :: 0 <= k < i ==> buffer[k] == 0
      {
        buffer[i] := 0;
        i := i + 1;
      }
      contentCounter := 0;
    }

    /** clear_storage_buf() */
    method ClearStorageBuf()
      requires storage.Length == BUF_SIZE
      modifies this`storageCounter, storage
      ensures storageCounter == 0
    {
      var i := 0;
      while i < BUF_SIZE
        invariant 0 <= i <= BUF_SIZE
      {
        storage[i] := 0;
        i := i + 1;
      }
      storageCounter := 0;
    }

    /** process_keyboard_input() */
    method ProcessKey(code: Byte, shown: seq<Byte>)
      requires Valid()
      modifies this, buffer, storage, screen, screen.video
      ensures Valid() && View() == old(View()).Press(code, tables, shown)
    {
      hide ShowsCells, Extend, PadRow, Blanks;
      assert IsText(code) || code in {BACKSPACE, TAB, ENTER};
      mods := mods.Next(code);
      if mods.ctrl && code == LETTER_L {
        ClearAll();
      } else if mods.ctrl && 2 <= code <= 4 {
        screen.Clear();
        screen.Puts(shown);
      } else if code > 0x3A {
      } else if tables.norm[code] == 10 {
        FinishLine();
      } else if tables.norm[code] == 8 {
        RubOut();
      } else if tables.norm[code] == 9 {
        TypeTab();
      } else if code in {RIGHT_SHIFT, LEFT_SHIFT, LEFT_CTRL, CAPS_LOCK} {
      } else if contentCounter < LINE_MAX {
        TypeChar(tables.Char(mods.caps, mods.shiftLeft || mods.shiftRight, code));
      }
    }

    /** Ctrl+L; the readable flag stays as it is. */
    method ClearAll()
      requires Valid()
      modifies this, buffer, storage, screen, screen.video
      ensures Valid() && View() == Console(old(mods), [], 0, [], old(readable), CLEARED)
    {
      screen.Clear();
      ClearBuf();
      backspacable := 0;
      ClearStorageBuf();
    }

    /** The tab key: two blanks that can be erased but are not in the line. */
    method TypeTab()
      requires Valid()
      modifies this, screen, screen.video
      ensures Valid()
      ensures var was := old(View());
              View() == was.(rubs := was.rubs + 2, log := was.log.Put(BLANK).Put(BLANK))
    {
      hide Shows;
      screen.Putc(BLANK);
      screen.Putc(BLANK);
      backspacable := backspacable + 2;
    }

    /** A text key: echo and store. */
    method TypeChar(c: Byte)
      requires Valid() && contentCounter < LINE_MAX
      modifies this, buffer, screen, screen.video
      ensures Valid() && unchanged(storage)
      ensures var was := old(View());
              View() == was.(line := was.line + [c], rubs := was.rubs + 1, log := was.log.Put(c))
    {
      hide Shows;
      screen.Putc(c);
      buffer[contentCounter] := c;
      contentCounter := contentCounter + 1;
      backspacable := backspacable + 1;
    }

    /** ENTER: the line and a newline go to the storage buffer. */
    method FinishLine()
      requires Valid()
      modifies this, buffer, storage, screen, screen.video
      ensures Valid()
      ensures View() == Console(old(mods), [], 0, old(View()).line + [NEWLINE], true, old(screen.log).Put(NEWLINE))
    {
      hide Shows;
      screen.Putc(NEWLINE);
      backspacable := 0;
      readable := false;
      ClearStorageBuf();
      var i := 0;
      while i < contentCounter
        modifies this`storageCounter, storage
        invariant 0 <= i <= contentCounter && storageCounter == i
        invariant storage[..i] == buffer[..i]
      {
        storage[i] := buffer[i];
        storageCounter := storageCounter + 1;
        i := i + 1;
      }
      storage[i] := NEWLINE;
      storageCounter := storageCounter + 1;
      readable := true;
      assert storage[..storageCounter] == buffer[..contentCounter] + [NEWLINE];
      ClearBuf();
    }

    /** BACKSPACE: one cell of the screen and one character of the line, if there is one. */
    method RubOut()
      requires Valid()
      modifies this, buffer, screen, screen.video
      ensures Valid() && unchanged(storage)
      ensures View() == old(View()).Press(BACKSPACE, tables, []).(mods := old(mods))
    {
      hide Shows;
      if backspacable > 0 {
        screen.BackSpace();
        backspacable := backspacable - 1;
        if contentCounter > 0 {
          contentCounter := contentCounter - 1;
          buffer[contentCounter] := 0;
        }
      }
    }

    /** terminal_write(), with print_buf() inlined; `behind` is the memory behind the buffer. */
    method TerminalWrite(buf: seq<Byte>, behind: seq<Byte>) returns (written: nat)
      requires Valid() && |buf| <= BUF_SIZE && LINE_MAX <= |behind|
      modifies this, buffer, screen, screen.video
      ensures Valid() && View() == old(View()).Write(buf, behind)
      ensures written == |old(View()).WriteText(buf, behind)|
    {
      ghost var text := View().WriteText(buf, behind);
      ghost var was := buffer[..];
      var n := contentCounter + |buf|;
      var i := 0;
      while i < |buf|
        modifies buffer
        invariant 0 <= i <= |buf|
        invariant Written(was, buffer[..], 0, buf[..i])
      {
        buffer[i] := buf[i];
        i := i + 1;
      }
      var memory := buffer[..] + behind;
      assert memory[..n] == text;
      screen.Puts(memory[..n]);
      written := n;
      ClearBuf();
      backspacable := 0;
    }

    /** terminal_read(), entered once the readable flag is up. */
    method TerminalRead(nbytes: int) returns (bytes: seq<Byte>)
      requires Valid() && readable
      modifies this, storage
      ensures Valid() && View() == old(View()).Read()
      ensures bytes == First(old(View()).stored, nbytes)
    {
      bytes := [];
      var i := 0;
      while i < storageCounter && i < nbytes
        invariant 0 <= i <= storageCounter && (i <= nbytes || i == 0) && bytes == storage[..i]
      {
        bytes := bytes + [storage[i]];
        i := i + 1;
      }
      ClearStorageBuf();
      readable := false;
    }
  }
}
