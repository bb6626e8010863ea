/** What the line editor makes of plain sequences of scan codes. */
module Typing {
  import opened Bytes
  import opened Screens
  import opened Keyboards
  import opened Editing

  // ---- The tables of the source ----

  /** One table: the two rows of digits and letters, and what lies between and behind them. */
  function Table(digits: string, top: string, middle: string, bottom: string): seq<Byte> {
    [0, 27] + Ascii(digits) + [8, 9] + Ascii(top) + [10, 0] + Ascii(middle) + [0, 92] + Ascii(bottom)
    + [0, 42, 0, 32] + seq(70, _ => 0)
  }

  function Norm(): seq<Byte> { Table("1234567890-=", "qwertyuiop[]", "asdfghjkl;'`", "zxcvbnm,./") }

  function CapNorm(): seq<Byte> { Table("1234567890-=", "QWERTYUIOP[]", "ASDFGHJKL:'`", "ZXCVBNM,./") }

  function ShiftNorm(): seq<Byte> { Table("!@#$%^&*()_+", "QWERTYUIOP{}", "ASDFGHJKL:\"~", "ZXCVBNM<>?") }

  function CapShift(): seq<Byte> { Table("!@#$%^&*()_+", "qwertyuiop{}", "asdfghjkl:\"~", "zxcvbnm<>?") }

  function SourceTables(): Tables {
    Tables(Norm(), CapNorm(), ShiftNorm(), CapShift())
  }

  /** Only three keys of a table translate to backspace, tab and newline, and none to carriage return. */
  ghost predicate TableOk(t: seq<Byte>) {
    && |t| == 128 && t[0x0E] == 8 && t[0x0F] == 9 && t[0x1C] == 10
    && forall code {:trigger t[code]} :: 0 <= code < 128 && code !in {0x0E, 0x0F, 0x1C} ==> t[code] !in {8, 9, 10, 13}
  }

  predicate Graphic(text: string) {
    forall i :: 0 <= i < |text| ==> ' ' < text[i] <= '~'
  }

  lemma TableIsOk(digits: string, top: string, middle: string, bottom: string)
    requires |digits| == |top| == |middle| == 12 && |bottom| == 10
    requires Graphic(digits) && Graphic(top) && Graphic(middle) && Graphic(bottom)
    ensures TableOk(Table(digits, top, middle, bottom))
  {
    hide Ascii, Graphic;
    AsciiText(digits);
    AsciiText(top);
    AsciiText(middle);
    AsciiText(bottom);
  }

  lemma AsciiText(text: string)
    requires Graphic(text)
    ensures |Ascii(text)| == |text| && forall i :: 0 <= i < |text| ==> 32 < Ascii(text)[i] < 127
  {}

  lemma NormIsOk()
    ensures TableOk(Norm())
  {
    hide Table;
    TableIsOk("1234567890-=", "qwertyuiop[]", "asdfghjkl;'`", "zxcvbnm,./");
  }

  lemma CapNormIsOk()
    ensures TableOk(CapNorm())
  {
    hide Table;
    TableIsOk("1234567890-=", "QWERTYUIOP[]", "ASDFGHJKL:'`", "ZXCVBNM,./");
  }

  lemma ShiftNormIsOk()
    ensures TableOk(ShiftNorm())
  {
    hide Table;
    TableIsOk("!@#$%^&*()_+", "QWERTYUIOP{}", "ASDFGHJKL:\"~", "ZXCVBNM<>?");
  }

  lemma CapShiftIsOk()
    ensures TableOk(CapShift())
  {
    hide Table;
    TableIsOk("!@#$%^&*()_+", "qwertyuiop{}", "asdfghjkl:\"~", "zxcvbnm<>?");
  }

  /** The tables of the source are as the editor needs them. */
  lemma SourceTablesAreOk()
    ensures SourceTables().Ok()
  {
    hide Norm, CapNorm, ShiftNorm, CapShift;
    NormIsOk();
    CapNormIsOk();
    ShiftNormIsOk();
    CapShiftIsOk();
  }

  // ---- Modifier keys ----

  const RELEASED := Modifiers(false, false, false, false)

  /** The last press or release code of the key was the press. */
  ghost predicate Held(codes: seq<Byte>, press: Byte, release: Byte) {
    exists i :: 0 <= i < |codes| && codes[i] == press && LastOf(codes, i, release)
  }

  ghost predicate LastOf(codes: seq<Byte>, i: int, release: Byte) {
    forall j :: i < j < |codes| && 0 <= j ==> codes[j] != release
  }

  function Count(codes: seq<Byte>, code: Byte): nat {
    if codes == [] then 0 else Count(codes[..|codes| - 1], code) + if codes[|codes| - 1] == code then 1 else 0
  }

  /** The flags after these codes. */
  function After(m: Modifiers, codes: seq<Byte>): Modifiers {
    if codes == [] then m else After(m, codes[..|codes| - 1]).Next(codes[|codes| - 1])
  }

  lemma HeldGrows(codes: seq<Byte>, c: Byte, press: Byte, release: Byte)
    requires press != release
    ensures Held(codes + [c], press, release) <==> c == press || (Held(codes, press, release) && c != release)
  {
    var more := codes + [c];
    if c == press {
      assert more[|codes|] == press && LastOf(more, |codes|, release);
    }
    if Held(codes, press, release) && c != release {
      var i :| 0 <= i < |codes| && codes[i] == press && LastOf(codes, i, release);
      assert more[i] == press && LastOf(more, i, release);
    }
    if Held(more, press, release) && c != press {
      var i :| 0 <= i < |more| && more[i] == press && LastOf(more, i, release);
      assert i < |codes| && more[|codes|] == c;
      assert forall j :: 0 <= j < |codes| ==> more[j] == codes[j];
      assert codes[i] == press && LastOf(codes, i, release);
    }
  }

  /** After any codes from released keys: Ctrl or a shift is down exactly when the last press or release code
      of that key was the press, and caps lock is on exactly when its code came an odd number of times. */
  lemma {:induction false} FlagsByCodes(codes: seq<Byte>)
    ensures var m := After(RELEASED, codes);
      && (m.ctrl <==> Held(codes, 0x1D, 0x9D))
      && (m.shiftLeft <==> Held(codes, 0x2A, 0xAA)) && (m.shiftRight <==> Held(codes, 0x36, 0xB6))
      && (m.caps <==> Count(codes, 0x3A) % 2 == 1)
    decreases |codes|
  {
    if codes != [] {
      var rest, c := codes[..|codes| - 1], codes[|codes| - 1];
      FlagsByCodes(rest);
      assert codes == rest + [c];
      HeldGrows(rest, c, 0x1D, 0x9D);
      HeldGrows(rest, c, 0x2A, 0xAA);
      HeldGrows(rest, c, 0x36, 0xB6);
      hide Held;
    }
  }

  /** The scan codes of a key run. */
  function Codes(keys: seq<Event>): seq<Byte>
    requires forall e :: e in keys ==> e.Key?
  {
    if keys == [] then [] else Codes(keys[..|keys| - 1]) + [keys[|keys| - 1].code]
  }

  lemma {:induction false} RunLast(s: Console, es: seq<Event>, e: Event, tables: Tables)
    requires s.Ok() && tables.Ok()
    ensures Run(s, es + [e], tables) == Step(Run(s, es, tables), e, tables)
    decreases |es|
  {
    hide Step;
    if es == [] {
      assert ([] + [e])[1..] == [];
    } else {
      assert (es + [e])[1..] == es[1..] + [e];
      RunLast(Step(s, es[0], tables), es[1..], e, tables);
    }
  }

  /** The editor's flags depend on nothing but the codes. */
  lemma {:induction false} FlagsOfRun(s: Console, keys: seq<Event>, tables: Tables)
    requires s.Ok() && tables.Ok() && forall e :: e in keys ==> e.Key?
    ensures Run(s, keys, tables).mods == After(s.mods, Codes(keys))
    decreases |keys|
  {
    if keys != [] {
      var rest, e := keys[..|keys| - 1], keys[|keys| - 1];
      assert keys == rest + [e];
      RunLast(s, rest, e, tables);
      FlagsOfRun(s, rest, tables);
      KeyTakesFlags(Run(s, rest, tables), e, tables);
      assert Codes(keys) == Codes(rest) + [e.code];
      hide Run, Step;
    }
  }

  lemma KeyTakesFlags(s: Console, e: Event, tables: Tables)
    requires s.Ok() && tables.Ok() && e.Key?
    ensures Step(s, e, tables).mods == s.mods.Next(e.code)
  {}

  /** A key that types something: none of backspace, tab, enter, Ctrl, the shifts, caps lock and what is above
      it; not L, and not 1, 2 or 3, while Ctrl is down. */
  predicate Types(code: Byte, ctrl: bool) {
    && code < 0x3A && code !in {0x0E, 0x0F, 0x1C, 0x1D, 0x2A, 0x36}
    && (ctrl ==> code != 0x26 && code !in {2, 3, 4})
  }

  /** After any run of keys from released keys, the next text key is echoed and appended to the line, from the
      table for caps lock and shift as the codes tell. */
  lemma TypedFrom(s: Console, keys: seq<Event>, code: Byte, shown: seq<Byte>, tables: Tables)
    requires s.Ok() && s.mods == RELEASED && tables.Ok() && (forall e :: e in keys ==> e.Key?)
    requires Types(code, Held(Codes(keys), 0x1D, 0x9D)) && |Run(s, keys, tables).line| < 128
    ensures var codes, t, u := Codes(keys), Run(s, keys, tables), Run(s, keys + [Key(code, shown)], tables);
      var caps, shift := Count(codes, 0x3A) % 2 == 1, Held(codes, 0x2A, 0xAA) || Held(codes, 0x36, 0xB6);
      var c := if caps && shift then tables.capShift[code] else if caps then tables.capNorm[code]
               else if shift then tables.shiftNorm[code] else tables.norm[code];
      u.line == t.line + [c] && u.log == t.log.Put(c) && u.rubs == t.rubs + 1
  {
    hide Held, Run, Count;
    RunLast(s, keys, Key(code, shown), tables);
    FlagsOfRun(s, keys, tables);
    FlagsByCodes(Codes(keys));
    TextKey(Run(s, keys, tables), code, shown, tables);
  }

  lemma TextKey(t: Console, code: Byte, shown: seq<Byte>, tables: Tables)
    requires t.Ok() && tables.Ok() && Types(code, t.mods.ctrl) && |t.line| < 128
    ensures var u, m := Step(t, Key(code, shown), tables), t.mods;
      var shift := m.shiftLeft || m.shiftRight;
      var c := if m.caps && shift then tables.capShift[code] else if m.caps then tables.capNorm[code]
               else if shift then tables.shiftNorm[code] else tables.norm[code];
      u.line == t.line + [c] && u.log == t.log.Put(c) && u.rubs == t.rubs + 1
  {}

  /** A full line takes no more, and the other keys do what is engraved on them. */
  lemma OtherKeys(t: Console, code: Byte, shown: seq<Byte>, tables: Tables)
    requires t.Ok() && tables.Ok()
    ensures var u := Step(t, Key(code, shown), tables);
      && u.mods == t.mods.Next(code)
      && (Types(code, t.mods.ctrl) && |t.line| == 128 ==> u == t.(mods := u.mods))
      && (code == 0x26 && t.mods.ctrl ==> u == Console(u.mods, [], 0, [], t.readable, CLEARED))
      && (code in {2, 3, 4} && t.mods.ctrl ==> u == t.(mods := u.mods, log := CLEARED.PutAll(shown)))
      && (code == 0x0E && t.rubs == 0 ==> u == t.(mods := u.mods))
      && (code == 0x0E && t.rubs > 0 ==>
            && u.line == t.line[..if t.line == [] then 0 else |t.line| - 1]
            && u.rubs == t.rubs - 1 && u.log == t.log.Rub())
      && (code == 0x0F ==> u.line == t.line && u.rubs == t.rubs + 2 && u.log == t.log.Put(32).Put(32))
      && (code == 0x1C ==> u == Console(u.mods, [], 0, t.line + [10], true, t.log.Put(10)))
      && (code >= 0x3A || code in {0x1D, 0x2A, 0x36} ==> u == t.(mods := u.mods))
  {}

  /** Shift pressed and released, then a key: the plain table. */
  lemma ReleasedShiftTypesPlain(tables: Tables)
    requires tables.Ok()
    ensures var start := Console(RELEASED, [], 0, [], false, CLEARED);
      Run(start, [Key(0x2A, []), Key(0xAA, []), Key(0x1E, [])], tables).line == [tables.norm[0x1E]]
  {
    var start, keys := Console(RELEASED, [], 0, [], false, CLEARED), [Key(0x2A, []), Key(0xAA, [])];
    assert Codes(keys) == [0x2A, 0xAA] by {
      assert Codes(keys[..1][..0]) == [];
      assert Codes(keys[..1]) == [0x2A];
    }
    assert keys + [Key(0x1E, [])] == [Key(0x2A, []), Key(0xAA, []), Key(0x1E, [])];
    RunLast(start, [Key(0x2A, [])], Key(0xAA, []), tables);
    RunLast(start, [], Key(0x2A, []), tables);
    assert [Key(0x2A, [])] + [Key(0xAA, [])] == keys && [] + [Key(0x2A, [])] == [Key(0x2A, [])];
    OtherKeys(start, 0x2A, [], tables);
    OtherKeys(Step(start, Key(0x2A, []), tables), 0xAA, [], tables);
    RunLast(start, keys, Key(0x1E, []), tables);
    TextKey(Run(start, keys, tables), 0x1E, [], tables);
  }

  // ---- Writing over a line ----

  /** A write prints its bytes, then the tail of the line being typed if that is longer, then NULs up to the
      end of the buffer, then what lies behind it: as many characters as both have together. */
  lemma WriteOverLine(s: Console, bytes: seq<Byte>, behind: seq<Byte>)
    requires s.Ok() && |bytes| <= 1024 && |behind| >= 128
    ensures var n, k := |s.line| + |bytes|, if |bytes| < |s.line| then |s.line| else |bytes|;
      s.WriteText(bytes, behind) == bytes + (if |bytes| < |s.line| then s.line[|bytes|..] else [])
                                    + seq(Min(n, 1024) - k, _ => 0) + if n > 1024 then behind[..n - 1024] else []
  {}

  // ---- When a read returns ----

  predicate IsEnter(e: Event) {
    e.Key? && e.code == 0x1C
  }

  /** Enter came, and no read since. */
  ghost predicate LineWaits(es: seq<Event>) {
    exists i :: 0 <= i < |es| && IsEnter(es[i]) && NoReadAfter(es, i)
  }

  ghost predicate NoReadAfter(es: seq<Event>, i: int) {
    forall j :: i < j < |es| && 0 <= j ==> !es[j].Read?
  }

  lemma LineWaitsGrows(es: seq<Event>, e: Event)
    ensures LineWaits(es + [e]) <==> IsEnter(e) || (LineWaits(es) && !e.Read?)
  {
    var more := es + [e];
    if IsEnter(e) {
      assert IsEnter(more[|es|]) && NoReadAfter(more, |es|);
    }
    if LineWaits(es) && !e.Read? {
      var i :| 0 <= i < |es| && IsEnter(es[i]) && NoReadAfter(es, i);
      assert IsEnter(more[i]) && NoReadAfter(more, i);
    }
    if LineWaits(more) && !IsEnter(e) {
      var i :| 0 <= i < |more| && IsEnter(more[i]) && NoReadAfter(more, i);
      assert i < |es| && more[|es|] == e;
      assert forall j :: 0 <= j < |es| ==> more[j] == es[j];
      assert IsEnter(es[i]) && NoReadAfter(es, i);
    }
  }

  /** In every run of keys, writes and reads from the start a read can return exactly when Enter has been
      pressed since the last one. */
  lemma {:induction false} ReadableByEvents(s: Console, es: seq<Event>, tables: Tables)
    requires s.Ok() && !s.readable && tables.Ok()
    ensures Run(s, es, tables).readable <==> LineWaits(es)
    decreases |es|
  {
    if es != [] {
      var rest, e := es[..|es| - 1], es[|es| - 1];
      assert es == rest + [e];
      RunLast(s, rest, e, tables);
      ReadableByEvents(s, rest, tables);
      LineWaitsGrows(rest, e);
      EventReadable(Run(s, rest, tables), e, tables);
      hide Run, Step, LineWaits;
    }
  }

  lemma EventReadable(s: Console, e: Event, tables: Tables)
    requires s.Ok() && tables.Ok()
    ensures Step(s, e, tables).readable <==> IsEnter(e) || (s.readable && !e.Read?)
    ensures e.Read? ==> Step(s, e, tables).stored == []
  {}
}
