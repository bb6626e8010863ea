/** Number to text: itoa, strrev and the %#x conversion of printf (student-distrib/lib.c). */
module Numerals {
  import opened Arithmetic
  import opened Bytes
  import opened CStrings

  const ZERO: Byte := 48

  predicate IsRadix(radix: nat) {
    2 <= radix <= 36
  }

  /** Entry `d` of the lookup table "0123456789ABC...XYZ". */
  function DigitChar(d: nat): Byte
    requires d < 36
  {
    if d < 10 then ZERO + d else 55 + d
  }

  /** What a character is worth as a digit; 36 for a character that is no digit. */
  function DigitValue(c: Byte): nat {
    if ZERO <= c < ZERO + 10 then c - ZERO else if 65 <= c < 91 then c - 55 else 36
  }

  function Zeros(n: nat): seq<Byte> {
    seq(n, _ => ZERO)
  }

  /** The number a text stands for, most significant digit first. */
  function Value(s: seq<Byte>, radix: nat): nat {
    if s == [] then 0 else Value(s[..|s| - 1], radix) * radix + DigitValue(s[|s| - 1])
  }

  predicate AllDigits(s: seq<Byte>, radix: nat) {
    forall i :: 0 <= i < |s| ==> DigitValue(s[i]) < radix
  }

  /** A nonempty text of digits, with no leading zero unless it is "0" itself. */
  predicate IsNumeral(s: seq<Byte>, radix: nat) {
    s != [] && AllDigits(s, radix) && (s[0] == ZERO ==> |s| == 1)
  }

  /** The digits of a positive number; nothing for zero. */
  function Digits(v: nat, radix: nat): (s: seq<Byte>)
    requires IsRadix(radix)
    decreases v
  {
    if v == 0 then [] else
      DivMod(v, radix);
      Digits(v / radix, radix) + [DigitChar(v % radix)]
  }

  function Numeral(v: nat, radix: nat): seq<Byte>
    requires IsRadix(radix)
  {
    if v == 0 then [ZERO] else Digits(v, radix)
  }

  lemma ValuePush(s: seq<Byte>, c: Byte, radix: nat)
    ensures Value(s + [c], radix) == Value(s, radix) * radix + DigitValue(c)
  {
    assert (s + [c])[..|s|] == s;
  }

  lemma {:induction false} DigitsMean(v: nat, radix: nat)
    requires IsRadix(radix)
    ensures Value(Digits(v, radix), radix) == v && AllDigits(Digits(v, radix), radix)
    ensures v != 0 ==> Digits(v, radix) != [] && Digits(v, radix)[0] != ZERO
    decreases v
  {
    if v != 0 {
      DivMod(v, radix);
      var q, d := v / radix, v % radix;
      DigitsMean(q, radix);
      ValuePush(Digits(q, radix), DigitChar(d), radix);
    }
  }

  /** Reading itoa's text back gives the number, and the text has no leading zeros. */
  lemma NumeralReadsBack(v: nat, radix: nat)
    requires 2 <= radix <= 36
    ensures IsNumeral(Numeral(v, radix), radix) && Value(Numeral(v, radix), radix) == v
  {
    DigitsMean(v, radix);
    assert Value([ZERO], radix) == Value([], radix) * radix;
  }

  lemma {:induction false} DigitsOfValue(s: seq<Byte>, radix: nat)
    requires IsRadix(radix) && AllDigits(s, radix) && (s != [] ==> s[0] != ZERO)
    ensures Digits(Value(s, radix), radix) == s
    ensures s != [] ==> Value(s, radix) != 0
    decreases |s|
  {
    if s != [] {
      var init, c := s[..|s| - 1], s[|s| - 1];
      DigitsOfValue(init, radix);
      var q := Value(init, radix);
      DivModOf(q, DigitValue(c), radix);
      if init != [] {
        MulAtLeast(q, radix);
      }
      assert s == init + [c];
    }
  }

  /** The text is the only one: every numeral is what itoa produces for its value. */
  lemma NumeralIsUnique(s: seq<Byte>, radix: nat)
    requires IsRadix(radix) && IsNumeral(s, radix)
    ensures Numeral(Value(s, radix), radix) == s
  {
    if s[0] == ZERO {
      assert Value(s, radix) == Value([], radix) * radix;
    } else {
      DigitsOfValue(s, radix);
    }
  }

  function Power(b: nat, e: nat): nat {
    if e == 0 then 1 else b * Power(b, e - 1)
  }

  lemma QuotientBound(v: nat, q: nat, d: nat, radix: nat, p: nat, b: nat)
    requires v == q * radix + d && v < b * p && b <= radix
    ensures q < p
  {
    assert p * radix == p * b + p * (radix - b);
    if p <= q {
      MulMonotone(p, q + 1, radix);
    }
  }

  lemma {:induction false} DigitsFit(v: nat, radix: nat, b: nat, e: nat)
    requires IsRadix(radix) && b <= radix && v < Power(b, e)
    ensures |Digits(v, radix)| <= e
    decreases e
  {
    if v != 0 {
      DivMod(v, radix);
      var q, d := v / radix, v % radix;
      QuotientBound(v, q, d, radix, Power(b, e - 1), b);
      DigitsFit(q, radix, b, e - 1);
    }
  }

  lemma PowersOfUint32()
    ensures Power(2, 32) == 0x1_0000_0000 && Power(16, 8) == 0x1_0000_0000
  {
    assert Power(2, 8) == 0x100;
    assert Power(2, 16) == 0x1_0000;
    assert Power(2, 24) == 0x100_0000;
    assert Power(16, 4) == 0x1_0000;
  }

  /** The first `lo - at` and the last characters up to `hi` have changed places. */
  ghost predicate Swapped(was: seq<Byte>, now: seq<Byte>, at: nat, len: nat, lo: int, hi: int) {
    && |now| == |was| && at + len <= |was| && at <= lo <= hi + 1 && hi < at + len && lo + hi == at + at + len - 1
    && (forall k {:trigger now[k]} :: at <= k < lo || (hi < k < at + len && at <= k) ==> now[k] == was[lo + hi - k])
    && (forall k {:trigger now[k]} :: 0 <= k < at || at + len <= k < |now| || (lo <= k <= hi) ==> now[k] == was[k])
  }

  method SwapEnds(s: array<Byte>, lo: nat, hi: nat, ghost was: seq<Byte>, ghost at: nat, ghost len: nat)
    requires Swapped(was, s[..], at, len, lo, hi) && lo < hi
    modifies s
    ensures Swapped(was, s[..], at, len, lo + 1, hi - 1)
  {
    var tmp := s[hi];
    s[hi] := s[lo];
    s[lo] := tmp;
  }

  /** In-place reversal of the C string at `at`. */
  method Strrev(s: array<Byte>, at: nat)
    requires Terminated(s[..], at)
    modifies s
    ensures Written(old(s[..]), s[..], at, Reversed(CString(old(s[..]), at)))
  {
    ghost var was, str := s[..], CString(s[..], at);
    var len := Strlen(s[..], at);
    var lo, hi := at, at + len - 1;
    while lo < hi
      invariant Swapped(was, s[..], at, len, lo, hi)
    {
      SwapEnds(s, lo, hi, was, at, len);
      lo, hi := lo + 1, hi - 1;
    }
    SwappedAll(was, s[..], at, str, lo, hi);
  }

  lemma SwappedAll(was: seq<Byte>, now: seq<Byte>, at: nat, str: seq<Byte>, lo: int, hi: int)
    requires Swapped(was, now, at, |str|, lo, hi) && hi <= lo
    requires str == was[at..at + |str|]
    ensures Written(was, now, at, Reversed(str))
  {
    forall k | at <= k < at + |str| ensures now[k] == Reversed(str)[k - at] {
      assert Reversed(str)[k - at] == str[|str| - 1 - (k - at)] == was[lo + hi - k];
    }
  }

  /** One round of itoa's loop moves the lowest digit from the number to the text. */
  lemma DigitMoves(v: nat, radix: nat, low: seq<Byte>)
    requires IsRadix(radix) && v != 0
    ensures 0 <= v / radix < v && 0 <= v % radix < radix
    ensures Digits(v, radix) + Reversed(low)
         == Digits(v / radix, radix) + Reversed(low + [DigitChar(v % radix)])
    ensures Digits(v, radix) != []
  {
    DivMod(v, radix);
    var d := DigitChar(v % radix);
    assert Reversed(low + [d]) == [d] + Reversed(low);
  }

  /** The digit loop of itoa, lowest digit first. */
  method PutDigits(value: nat, buf: array<Byte>, at: nat, radix: nat) returns (newbuf: nat)
    requires IsRadix(radix) && at + |Digits(value, radix)| < buf.Length
    modifies buf
    ensures newbuf == at + |Digits(value, radix)|
    ensures Written(old(buf[..]), buf[..], at, Reversed(Digits(value, radix)))
  {
    hide Digits;
    ghost var was, digits := buf[..], Digits(value, radix);
    newbuf := at;
    var newval: nat := value;
    ghost var low: seq<Byte> := [];
    while newval > 0
      invariant digits == Digits(newval, radix) + Reversed(low)
      invariant newbuf == at + |low| && newbuf + |Digits(newval, radix)| < |was|
      invariant Written(was, buf[..], at, low)
      decreases newval
    {
      DigitMoves(newval, radix, low);
      var i := newval % radix;
      buf[newbuf] := DigitChar(i);
      low := low + [buf[newbuf]];
      newbuf, newval := newbuf + 1, newval / radix;
    }
    NoDigits(radix);
    assert digits == Reversed(low);
    assert low == Reversed(Reversed(low));
  }

  /** itoa into the bytes from `at` on; digits come out lowest first and are then reversed. */
  method Itoa(value: nat, buf: array<Byte>, at: nat, radix: nat)
    requires value < 0x1_0000_0000 && IsRadix(radix)
    requires at + |Numeral(value, radix)| < buf.Length
    modifies buf
    ensures Written(old(buf[..]), buf[..], at, Numeral(value, radix) + [0])
  {
    hide Digits, CString;
    if value == 0 {
      buf[at], buf[at + 1] := ZERO, 0;
    } else {
      ghost var digits := Digits(value, radix);
      var newbuf := PutDigits(value, buf, at, radix);
      buf[newbuf] := 0;
      DigitsHaveNoNul(value, radix);
      assert buf[..][at..at + |digits|] == Reversed(digits);
      CStringIs(buf[..], at, |digits|);
      Strrev(buf, at);
      assert Reversed(Reversed(digits)) == digits;
    }
  }

  lemma NoDigits(radix: nat)
    requires IsRadix(radix)
    ensures Digits(0, radix) == []
  {}

  lemma DigitsHaveNoNul(v: nat, radix: nat)
    requires IsRadix(radix)
    ensures 0 !in Reversed(Digits(v, radix))
  {
    DigitsMean(v, radix);
    NoNul(Digits(v, radix), radix);
  }

  /** The zero-filling loop of %#x. */
  method PadZeros(conv: array<Byte>, startingIndex: nat)
    requires startingIndex <= 8 <= conv.Length
    modifies conv
    ensures Written(old(conv[..]), conv[..], startingIndex, Zeros(8 - startingIndex))
  {
    var i := startingIndex;
    while i < 8
      invariant startingIndex <= i <= 8
      invariant Written(old(conv[..]), conv[..], startingIndex, Zeros(i - startingIndex))
    {
      conv[i] := ZERO;
      i := i + 1;
    }
  }

  /** The %#x conversion; `conv` is the 64-byte local buffer of printf. */
  method FormatHex8(value: nat, conv: array<Byte>) returns (text: seq<Byte>)
    requires value < 0x1_0000_0000 && conv.Length == 64
    modifies conv
    ensures |text| == 8 && AllDigits(text, 16) && Value(text, 16) == value
  {
    hide Digits, Value, CString, DigitValue;
    HexFits(value);
    ghost var digits := Numeral(value, 16);
    Itoa(value, conv, 8, 16);
    TextAt(conv[..], 8, digits);
    var startingIndex := Strlen(conv[..], 8);
    PadZeros(conv, startingIndex);
    PaddedValue(8 - |digits|, digits, 16);
    TextAt(conv[..], startingIndex, Zeros(8 - |digits|) + digits);
    text := Puts(conv, startingIndex);
  }

  /** NUL-free text followed by a NUL is the C string there. */
  lemma TextAt(m: seq<Byte>, at: nat, text: seq<Byte>)
    requires at + |text| < |m| && m[at + |text|] == 0
    requires forall k {:trigger m[k]} :: at <= k < at + |text| ==> m[k] == text[k - at]
    requires AllDigits(text, 16)
    ensures Terminated(m, at) && CString(m, at) == text
  {
    NoNul(text, 16);
    assert m[at..at + |text|] == text;
    CStringIs(m, at, |text|);
  }

  lemma HexFits(value: nat)
    requires value < 0x1_0000_0000
    ensures var s := Numeral(value, 16);
            1 <= |s| <= 8 && AllDigits(s, 16) && Value(s, 16) == value
  {
    PowersOfUint32();
    DigitsFit(value, 16, 16, 8);
    NumeralReadsBack(value, 16);
  }

  lemma NoNul(s: seq<Byte>, radix: nat)
    requires AllDigits(s, radix) && radix <= 36
    ensures 0 !in s
  {
    forall i | 0 <= i < |s| ensures s[i] != 0 {
      assert DigitValue(s[i]) < radix;
    }
  }

  lemma {:induction false} PaddedValue(n: nat, s: seq<Byte>, radix: nat)
    requires AllDigits(s, radix) && 0 < radix
    ensures Value(Zeros(n) + s, radix) == Value(s, radix)
    ensures AllDigits(Zeros(n) + s, radix)
    decreases n + |s|
  {
    var t := Zeros(n) + s;
    if s != [] {
      assert t[..|t| - 1] == Zeros(n) + s[..|s| - 1];
      PaddedValue(n, s[..|s| - 1], radix);
    } else if n != 0 {
      assert t[..|t| - 1] == Zeros(n - 1) + s;
      PaddedValue(n - 1, s, radix);
    }
  }

  /** The digits are those of the source's table, in its order. */
  lemma DigitTable(d: nat)
    requires d < 36
    ensures DigitChar(d) == if d < 10 then Ascii("0123456789")[d] else Ascii("ABCDEFGHIJKLMNOPQRSTUVWXYZ")[d - 10]
    ensures DigitValue(DigitChar(d)) == d
  {
    if d < 10 {
      assert forall k :: 0 <= k < 10 ==> "0123456789"[k] as int == 48 + k;
    } else {
      assert forall k :: 0 <= k < 26 ==> "ABCDEFGHIJKLMNOPQRSTUVWXYZ"[k] as int == 65 + k;
    }
  }
}
