/** Whole runs of the line editor: what the screen shows is what the next read returns. */
module Editing {
  import opened Bytes
  import opened Screens
  import opened Keyboards

  datatype Event = Key(code: Byte, shown: seq<Byte>) | Write(bytes: seq<Byte>, behind: seq<Byte>) | Read

  function Step(s: Console, e: Event, tables: Tables): (r: Console)
    requires s.Ok() && tables.Ok()
    ensures r.Ok()
  {
    match e
    case Key(code, shown) => s.Press(code, tables, shown)
    case Write(bytes, behind) => s.Write(bytes, behind)
    case Read => s.Read()
  }

  function Run(s: Console, es: seq<Event>, tables: Tables): (r: Console)
    requires s.Ok() && tables.Ok()
    ensures r.Ok()
    decreases |es|
  {
    if es == [] then s else Run(Step(s, es[0], tables), es[1..], tables)
  }

  /** The line is on the screen, in the cells just before the cursor. */
  predicate LineVisible(log: Log, line: seq<Byte>) {
    |line| <= |log.cells| && |line| <= log.Cursor() && log.cells[|log.cells| - |line|..] == line
  }

  /** Exactly the characters of the line can be rubbed out, and they are what the user sees. */
  predicate Coherent(s: Console) {
    s.Ok() && s.rubs == |s.line| && LineVisible(s.log, s.line)
  }

  predicate IsReport(s: Console, e: Event) {
    e.Key? && s.mods.Next(e.code).ctrl && 2 <= e.code <= 4
  }

  /** Not the tab key, and not a Ctrl+1/2/3 report unless what it prints happens to end in the line. */
  predicate Harmless(s: Console, e: Event) {
    && (e.Key? ==> e.code != TAB)
    && (IsReport(s, e) ==> LineVisible(CLEARED.PutAll(e.shown), s.line))
  }

  /** In particular every key but tab is harmless, reports included, while no line is being typed; and
      without a report it is harmless always. */
  lemma PlainIsHarmless(s: Console, e: Event)
    requires s.Ok() && (e.Key? ==> e.code != TAB) && (IsReport(s, e) ==> s.line == [])
    ensures Harmless(s, e)
  {
    if e.Key? {
      var log := CLEARED.PutAll(e.shown);
      assert log.cells[|log.cells|..] == [];
    }
  }

  /** The reports of the source end in a newline: they displace every line whose last character is not blank. */
  lemma ReportDisplacesLine(s: Console, e: Event)
    requires s.Ok() && IsReport(s, e) && e.shown != [] && IsNewline(e.shown[|e.shown| - 1])
    requires s.line != [] && s.line[|s.line| - 1] != BLANK
    ensures !Harmless(s, e)
  {
    var cells := CLEARED.PutAll(e.shown[..|e.shown| - 1]).cells;
    var log := CLEARED.PutAll(e.shown);
    assert log.cells == PadRow(cells) && log.cells[|log.cells| - 1] == BLANK;
    assert |s.line| <= |log.cells| ==> log.cells[|log.cells| - |s.line|..][|s.line| - 1] == BLANK;
  }

  predicate HarmlessRun(s: Console, es: seq<Event>, tables: Tables)
    requires s.Ok() && tables.Ok()
    decreases |es|
  {
    es == [] || (Harmless(s, es[0]) && HarmlessRun(Step(s, es[0], tables), es[1..], tables))
  }

  predicate AlwaysCoherent(s: Console, es: seq<Event>, tables: Tables)
    requires s.Ok() && tables.Ok()
    decreases |es|
  {
    Coherent(s) && (es == [] || AlwaysCoherent(Step(s, es[0], tables), es[1..], tables))
  }

  lemma PutIsVisible(log: Log, line: seq<Byte>, c: Byte)
    requires log.Ok() && LineVisible(log, line) && |line| < LINE_MAX && !IsNewline(c)
    ensures LineVisible(log.Put(c), line + [c])
  {
    var l := log.Put(c);
    assert l.cells[|l.cells| - (|line| + 1)..] == log.cells[|log.cells| - |line|..] + [c];
  }

  lemma RubIsVisible(log: Log, line: seq<Byte>)
    requires log.Ok() && LineVisible(log, line) && line != []
    ensures LineVisible(log.Rub(), line[..|line| - 1])
  {
    var l := log.Rub();
    assert l.cells[|l.cells| - (|line| - 1)..] == log.cells[|log.cells| - |line|..][..|line| - 1];
  }

  lemma NothingIsVisible(log: Log)
    requires log.Ok()
    ensures LineVisible(log, [])
  {}

  /** One event keeps the editor coherent exactly when it is harmless. */
  lemma StepIsCoherent(s: Console, e: Event, tables: Tables)
    requires Coherent(s) && tables.Ok()
    ensures Coherent(Step(s, e, tables)) <==> Harmless(s, e)
  {
    hide LineVisible, Extend, PadRow;
    NothingIsVisible(Step(s, e, tables).log);
    if e.Key? {
      assert IsText(e.code) || e.code in {BACKSPACE, TAB, ENTER};
      var m := s.mods.Next(e.code);
      if e.code == BACKSPACE && s.line != [] {
        RubIsVisible(s.log, s.line);
      } else if IsText(e.code) && e.code <= 0x3A && |s.line| < LINE_MAX {
        var c := tables.Char(m.caps, m.shiftLeft || m.shiftRight, e.code);
        PutIsVisible(s.log, s.line, c);
      }
    }
  }

  /** A whole run is coherent throughout exactly when each of its events is harmless where it occurs. */
  lemma {:induction false} RunIsCoherent(s: Console, es: seq<Event>, tables: Tables)
    requires Coherent(s) && tables.Ok()
    ensures AlwaysCoherent(s, es, tables) <==> HarmlessRun(s, es, tables)
    ensures HarmlessRun(s, es, tables) ==> Coherent(Run(s, es, tables))
    decreases |es|
  {
    if es != [] {
      StepIsCoherent(s, es[0], tables);
      var t := Step(s, es[0], tables);
      if Coherent(t) {
        RunIsCoherent(t, es[1..], tables);
      }
    }
  }

  /** In a coherent state the cells of the video memory before the cursor spell the line. */
  lemma LineIsOnScreen(v: seq<Cell>, x: int, y: int, s: Console)
    requires Coherent(s) && Shows(v, x, y, s.log)
    ensures |s.line| <= COLS * y + x < CELLS
    ensures forall j :: 0 <= j < |s.line| ==> v[COLS * y + x - |s.line| + j] == Cell(s.line[j], ATTRIB)
  {
    forall j | 0 <= j < |s.line| ensures v[COLS * y + x - |s.line| + j] == Cell(s.line[j], ATTRIB) {
      assert s.log.cells[|s.log.cells| - |s.line|..][j] == s.line[j];
    }
  }

  /** Why the tab key is left out: 'a', tab, backspace leaves an 'a' on the screen and an empty line. */
  lemma TabLosesACharacter(tables: Tables)
    requires tables.Ok()
    ensures var start := Console(Modifiers(false, false, false, false), [], 0, [], false, CLEARED);
            var s := Run(start, [Key(0x1E, []), Key(TAB, []), Key(BACKSPACE, [])], tables);
            s.line == [] && s.rubs == 2 && s.log.cells == [tables.norm[0x1E], BLANK]
  {
    assert IsText(0x1E);
    var start := Console(Modifiers(false, false, false, false), [], 0, [], false, CLEARED);
    var es := [Key(0x1E, []), Key(TAB, []), Key(BACKSPACE, [])];
    var s1 := Step(start, es[0], tables);
    var s2 := Step(s1, es[1], tables);
    assert s1.line == [tables.norm[0x1E]];
    assert es[1..][0] == es[1] && es[1..][1..] == [es[2]];
    assert Run(s2, [es[2]], tables) == Run(Step(s2, es[2], tables), [], tables);
  }

  // ---- The edited line ----

  datatype Edit = Type(c: Byte) | Erase | Reset | Idle

  /** What a key means to a line editor that knows nothing of screens or counters. */
  function EditOf(m: Modifiers, code: Byte, tables: Tables): Edit
    requires tables.Ok()
  {
    if m.ctrl && code == LETTER_L then Reset
    else if code > 0x3A || (m.ctrl && 2 <= code <= 4) then Idle
    else if code == ENTER then Reset
    else if code == BACKSPACE then Erase
    else if code in {TAB, RIGHT_SHIFT, LEFT_SHIFT, LEFT_CTRL, CAPS_LOCK} then Idle
    else Type(tables.Char(m.caps, m.shiftLeft || m.shiftRight, code))
  }

  function Apply(line: seq<Byte>, e: Edit): seq<Byte> {
    match e
    case Type(c) => if |line| < LINE_MAX then line + [c] else line
    case Erase => if line == [] then [] else line[..|line| - 1]
    case Reset => []
    case Idle => line
  }

  /** The line after typing `keys`, starting from `line`. */
  function Edited(line: seq<Byte>, m: Modifiers, keys: seq<Event>, tables: Tables): seq<Byte>
    requires tables.Ok() && forall e :: e in keys ==> e.Key?
    decreases |keys|
  {
    if keys == [] then line else
      var m' := m.Next(keys[0].code);
      Edited(Apply(line, EditOf(m', keys[0].code, tables)), m', keys[1..], tables)
  }

  lemma StepEdits(s: Console, e: Event, tables: Tables)
    requires Coherent(s) && tables.Ok() && e.Key? && Harmless(s, e)
    ensures var t := Step(s, e, tables);
            t.mods == s.mods.Next(e.code) && t.line == Apply(s.line, EditOf(t.mods, e.code, tables))
  {}

  lemma {:induction false} RunEdits(s: Console, keys: seq<Event>, tables: Tables)
    requires Coherent(s) && tables.Ok() && (forall e :: e in keys ==> e.Key?)
    requires HarmlessRun(s, keys, tables)
    ensures Run(s, keys, tables).line == Edited(s.line, s.mods, keys, tables)
    ensures Coherent(Run(s, keys, tables))
    decreases |keys|
  {
    if keys != [] {
      StepIsCoherent(s, keys[0], tables);
      StepEdits(s, keys[0], tables);
      hide Step, Apply, EditOf, Harmless;
      RunEdits(Step(s, keys[0], tables), keys[1..], tables);
    }
  }

  /** After any harmless key run and Enter, a read of `n` bytes returns the first `n` bytes of the
      edited line and its newline, which is at most 128 characters and a newline. */
  lemma ReadReturnsEditedLine(s: Console, keys: seq<Event>, tables: Tables, n: int)
    requires Coherent(s) && tables.Ok() && (forall e :: e in keys ==> e.Key?)
    requires HarmlessRun(s, keys, tables)
    ensures var line := Edited(s.line, s.mods, keys, tables);
            var r := Step(Run(s, keys, tables), Key(ENTER, []), tables);
            && |line| <= LINE_MAX && r.readable && r.line == []
            && First(r.stored, n) == First(line + [NEWLINE], n)
  {
    RunEdits(s, keys, tables);
  }

  /** A write prints its own bytes, and counts only them, exactly when no line is being typed. */
  lemma WritePrintsItsBytes(s: Console, bytes: seq<Byte>, behind: seq<Byte>)
    ensures s.WriteText(bytes, behind) == bytes <==> s.line == []
    ensures |s.WriteText(bytes, behind)| == |s.line| + |bytes|
  {}
}
