/** The streaming line matcher of syscalls/ece391grep.c. */
module Grep {
  import opened Bytes
  import opened CStrings

  const BUFSIZE := 1024
  const COLON: Byte := 58

  // ---- What grep is for ----

  /** The pattern is not empty and occurs in the line. */
  predicate Hits(line: seq<Byte>, pat: seq<Byte>) {
    pat != [] && exists k :: 0 <= k <= |line| - |pat| && OccursAt(line, pat, k)
  }

  predicate OccursAt(line: seq<Byte>, pat: seq<Byte>, k: int) {
    0 <= k <= |line| - |pat| && line[k..k + |pat|] == pat
  }

  /** The position of the first newline among the first `limit` bytes; `limit` or the length if none. */
  function LineEnd(s: seq<Byte>, limit: nat): (e: nat)
    ensures e <= |s| && e <= limit && NEWLINE !in s[..e]
    ensures e < |s| && e < limit ==> s[e] == NEWLINE
  {
    if s == [] || limit == 0 || s[0] == NEWLINE then 0 else
      var e := 1 + LineEnd(s[1..], limit - 1);
      assert s[..e] == [s[0]] + s[1..][..e - 1];
      e
  }

  lemma LineEndIs(s: seq<Byte>, limit: nat, e: nat)
    requires e <= |s| && e <= limit && NEWLINE !in s[..e]
    requires e < |s| && e < limit ==> s[e] == NEWLINE
    ensures LineEnd(s, limit) == e
  {
    if e != 0 {
      assert s[..e] == [s[0]] + s[1..][..e - 1];
      LineEndIs(s[1..], limit - 1, e - 1);
    }
  }

  lemma SliceOfSlice(s: seq<Byte>, a: nat, b: nat, c: nat, d: nat)
    requires a <= b <= |s| && c <= d <= b - a
    ensures s[a..b][c..d] == s[a + c..a + d]
  {
    var x, y := s[a..b][c..d], s[a + c..a + d];
    assert forall i :: 0 <= i < d - c ==> x[i] == y[i];
  }

  /** The lines of a text; the newline ends a line and is not part of it. */
  function Lines(s: seq<Byte>): seq<seq<Byte>>
    decreases |s|
  {
    if s == [] then [] else [FirstLine(s)] + Lines(AfterLine(s))
  }

  function FirstLine(s: seq<Byte>): seq<Byte> {
    s[..LineEnd(s, |s|)]
  }

  function AfterLine(s: seq<Byte>): (r: seq<Byte>)
    ensures s != [] ==> |r| < |s|
  {
    var e := LineEnd(s, |s|);
    if e == |s| then [] else s[e + 1..]
  }

  function Selected(lines: seq<seq<Byte>>, pat: seq<Byte>): (r: seq<seq<Byte>>)
    ensures forall l :: l in r <==> l in lines && Hits(l, pat)
  {
    if lines == [] then [] else
      (if Hits(lines[0], pat) then [lines[0]] else []) + Selected(lines[1..], pat)
  }

  function Record(fname: seq<Byte>, line: seq<Byte>): seq<Byte> {
    fname + [COLON] + line + [NEWLINE]
  }

  function Render(fname: seq<Byte>, lines: seq<seq<Byte>>): seq<Byte> {
    if lines == [] then [] else Record(fname, lines[0]) + Render(fname, lines[1..])
  }

  // ---- What the 1024-byte buffer makes of it ----

  /** Lines cut after every 1024 bytes; a newline right after a cut ends an empty piece. */
  function Pieces(s: seq<Byte>): seq<seq<Byte>>
    decreases |s|
  {
    if s == [] then [] else [FirstPiece(s)] + Pieces(AfterPiece(s))
  }

  function FirstPiece(s: seq<Byte>): seq<Byte> {
    s[..LineEnd(s, BUFSIZE)]
  }

  function AfterPiece(s: seq<Byte>): (r: seq<Byte>)
    ensures s != [] ==> |r| < |s|
  {
    var e := LineEnd(s, BUFSIZE);
    if e < |s| && e < BUFSIZE then s[e + 1..] else s[e..]
  }

  function Report(s: seq<Byte>, pat: seq<Byte>, fname: seq<Byte>): seq<Byte> {
    Render(fname, Selected(Pieces(s), pat))
  }

  lemma SelectedPush(line: seq<Byte>, lines: seq<seq<Byte>>, pat: seq<Byte>)
    ensures Selected([line] + lines, pat) == (if Hits(line, pat) then [line] else []) + Selected(lines, pat)
  {
    assert ([line] + lines)[1..] == lines;
  }

  lemma ReportStep(s: seq<Byte>, pat: seq<Byte>, fname: seq<Byte>)
    requires s != []
    ensures Report(s, pat, fname)
         == (if Hits(FirstPiece(s), pat) then Record(fname, FirstPiece(s)) else []) + Report(AfterPiece(s), pat, fname)
  {
    var p, rest := FirstPiece(s), Selected(Pieces(AfterPiece(s)), pat);
    SelectedPush(p, Pieces(AfterPiece(s)), pat);
    if Hits(p, pat) {
      assert ([p] + rest)[0] == p && ([p] + rest)[1..] == rest;
    } else {
      assert [] + rest == rest;
    }
  }

  /** A line that is not selected contributes nothing, however it is cut. */
  lemma {:induction false} UnselectedLine(s: seq<Byte>, pat: seq<Byte>)
    requires s != [] && !Hits(FirstLine(s), pat)
    ensures Selected(Pieces(s), pat) == Selected(Pieces(AfterLine(s)), pat)
    decreases |s|
  {
    SelectedPush(FirstPiece(s), Pieces(AfterPiece(s)), pat);
    var e := LineEnd(s, |s|);
    if e < BUFSIZE || e == |s| <= BUFSIZE {
      LineEndIs(s, BUFSIZE, e);
      if e == |s| {
        assert AfterPiece(s) == [] == AfterLine(s);
      }
    } else {
      CutLine(s, e);
      PartMisses(FirstLine(s), pat, 0, BUFSIZE);
      PartMisses(FirstLine(s), pat, BUFSIZE, e);
      UnselectedLine(s[BUFSIZE..], pat);
    }
  }

  /** The first piece of a long line, and what it leaves. */
  lemma CutLine(s: seq<Byte>, e: nat)
    requires e == LineEnd(s, |s|) && BUFSIZE <= e && BUFSIZE < |s|
    ensures FirstPiece(s) == FirstLine(s)[0..BUFSIZE] && AfterPiece(s) == s[BUFSIZE..]
    ensures FirstLine(s[BUFSIZE..]) == FirstLine(s)[BUFSIZE..e] && AfterLine(s[BUFSIZE..]) == AfterLine(s)
  {
    hide LineEnd;
    assert s[..BUFSIZE] == s[..e][..BUFSIZE];
    LineEndIs(s, BUFSIZE, BUFSIZE);
    DropWithinLine(s, e, BUFSIZE);
  }

  lemma DropWithinLine(s: seq<Byte>, e: nat, n: nat)
    requires e == LineEnd(s, |s|) && n <= e
    ensures FirstLine(s[n..]) == FirstLine(s)[n..e] && AfterLine(s[n..]) == AfterLine(s)
  {
    var t := s[n..];
    LineEndAfterDrop(s, e, n);
    hide LineEnd;
    assert FirstLine(t) == t[..e - n] && FirstLine(s) == s[..e];
    assert AfterLine(t) == if e == |s| then [] else t[e - n + 1..];
    assert AfterLine(s) == if e == |s| then [] else s[e + 1..];
    TakeOfDrop(s, n, e);
    if e < |s| {
      DropOfDrop(s, n, e - n + 1);
    }
  }

  lemma TakeOfDrop(s: seq<Byte>, n: nat, e: nat)
    requires n <= e <= |s|
    ensures s[n..][..e - n] == s[..e][n..e]
  {}

  lemma DropOfDrop(s: seq<Byte>, n: nat, m: nat)
    requires n + m <= |s|
    ensures s[n..][m..] == s[n + m..]
  {}

  lemma LineEndAfterDrop(s: seq<Byte>, e: nat, n: nat)
    requires e == LineEnd(s, |s|) && n <= e
    ensures LineEnd(s[n..], |s[n..]|) == e - n
  {
    assert forall i :: 0 <= i < e ==> s[i] in s[..e];
    hide LineEnd;
    LineEndIs(s[n..], |s| - n, e - n);
  }

  lemma PartMisses(line: seq<Byte>, pat: seq<Byte>, from: nat, to: nat)
    requires !Hits(line, pat) && from <= to <= |line|
    ensures !Hits(line[from..to], pat)
  {
    if pat != [] {
      forall k | 0 <= k <= to - from - |pat| ensures !OccursAt(line[from..to], pat, k) {
        assert !OccursAt(line, pat, from + k);
        SliceOfSlice(line, from, to, k, k + |pat|);
      }
    }
  }

  /** A line of at most 1024 bytes stays whole; only an empty piece can follow it. */
  lemma ShortLine(s: seq<Byte>, pat: seq<Byte>)
    requires s != [] && |FirstLine(s)| <= BUFSIZE
    ensures Selected(Pieces(s), pat)
         == (if Hits(FirstLine(s), pat) then [FirstLine(s)] else []) + Selected(Pieces(AfterLine(s)), pat)
  {
    SelectedPush(FirstPiece(s), Pieces(AfterPiece(s)), pat);
    var e := LineEnd(s, |s|);
    LineEndIs(s, BUFSIZE, e);
    if e == |s| {
      assert AfterPiece(s) == [] == AfterLine(s);
    } else if e == BUFSIZE {
      var t := s[e..];
      assert AfterPiece(s) == t && t[0] == NEWLINE;
      LineEndIs(t, |t|, 0);
      UnselectedLine(t, pat);
      assert AfterLine(t) == t[1..] == s[e + 1..];
    }
  }

  lemma {:induction false} PiecesAreShort(s: seq<Byte>)
    ensures forall p :: p in Pieces(s) ==> |p| <= BUFSIZE
    decreases |s|
  {
    if s != [] {
      PiecesAreShort(AfterPiece(s));
    }
  }

  /** What is printed is exactly the lines that contain the pattern, in order, once each, if and only
      if every such line has at most 1024 bytes. */
  lemma PiecesAreLines(s: seq<Byte>, pat: seq<Byte>)
    ensures Selected(Pieces(s), pat) == Selected(Lines(s), pat)
       <==> forall l :: l in Lines(s) && Hits(l, pat) ==> |l| <= 1024
  {
    PiecesAreShort(s);
    if forall l :: l in Lines(s) && Hits(l, pat) ==> |l| <= BUFSIZE {
      ShortSelectedLines(s, pat);
    } else {
      var l :| l in Lines(s) && Hits(l, pat) && |l| > BUFSIZE;
      assert l in Selected(Lines(s), pat) && l !in Selected(Pieces(s), pat);
    }
  }

  /** A file of one line of 1025 letters, searched for the letter: two pieces are printed, not the line. */
  lemma LongLineIsCut()
    ensures var s := seq<Byte>(1025, _ => 97); Selected(Pieces(s), [97]) != Selected(Lines(s), [97])
  {
    var s := seq<Byte>(BUFSIZE + 1, _ => 97);
    LineEndIs(s, |s|, |s|);
    assert FirstLine(s) == s && s in Lines(s);
    assert OccursAt(s, [97], 0) && Hits(s, [97]);
    PiecesAreLines(s, [97]);
  }

  lemma {:induction false} ShortSelectedLines(s: seq<Byte>, pat: seq<Byte>)
    requires forall l :: l in Lines(s) && Hits(l, pat) ==> |l| <= BUFSIZE
    ensures Selected(Pieces(s), pat) == Selected(Lines(s), pat)
    decreases |s|
  {
    if s != [] {
      var line, rest := FirstLine(s), AfterLine(s);
      SelectedPush(line, Lines(rest), pat);
      assert line in Lines(s) && forall l :: l in Lines(rest) ==> l in Lines(s);
      if |line| <= BUFSIZE {
        ShortLine(s, pat);
      } else {
        UnselectedLine(s, pat);
      }
      ShortSelectedLines(rest, pat);
    }
  }

  // ---- The program ----

  /** ece391_strncmp of `n` characters at `at` against the pattern `s` (and its NUL). */
  method Strncmp(data: array<Byte>, at: nat, s: seq<Byte>, n: nat) returns (r: int)
    requires 0 !in s && n == |s| && Terminated(data[..], at)
    ensures r == 0 <==> s <= CString(data[..], at)
  {
    if n == 0 {
      return 0;
    }
    ghost var str := CString(data[..], at);
    var i := 0;
    while data[at + i] == s[i]
      invariant 0 <= i < n && i <= |str| && at + i < data.Length && s[..i] == str[..i]
      decreases n - i
    {
      assert s[i] in s && i < |str| && str[i] == s[i];
      assert s[..i + 1] == s[..i] + [s[i]] && str[..i + 1] == str[..i] + [str[i]];
      if data[at + i] == 0 || i + 1 == n {
        assert s[..i + 1] == s;
        return 0;
      }
      i := i + 1;
    }
    assert i < |str| ==> str[i] != s[i];
    r := data[at + i] as int - s[i] as int;
  }

  /** The search loop over one line, which has been terminated by a NUL. */
  method SearchLine(data: array<Byte>, lineStart: nat, lineEnd: nat, s: seq<Byte>) returns (found: bool)
    requires 0 !in s && lineStart <= lineEnd < data.Length && data[lineEnd] == 0
    requires 0 !in data[lineStart..lineEnd]
    ensures found <==> Hits(data[lineStart..lineEnd], s)
  {
    var check := lineStart;
    ghost var line := data[lineStart..lineEnd];
    while check < lineEnd
      invariant lineStart <= check <= lineEnd
      invariant forall k :: 0 <= k < check - lineStart ==> !(s != [] && OccursAt(line, s, k))
    {
      RestOfLine(data[..], lineStart, check, lineEnd, s);
      if s != [] && s[0] == data[check] {
        var r := Strncmp(data, check, s, |s|);
        if r == 0 {
          assert OccursAt(line, s, check - lineStart);
          return true;
        }
      }
      check := check + 1;
    }
    return false;
  }

  /** What the comparison at `check` looks at is the rest of the line. */
  lemma RestOfLine(m: seq<Byte>, lineStart: nat, check: nat, lineEnd: nat, s: seq<Byte>)
    requires lineStart <= check < lineEnd < |m| && m[lineEnd] == 0 && 0 !in m[lineStart..lineEnd]
    ensures Terminated(m, check) && CString(m, check) == m[check..lineEnd]
    ensures s <= m[check..lineEnd] <==> OccursAt(m[lineStart..lineEnd], s, check - lineStart)
    ensures s != [] && s <= m[check..lineEnd] ==> s[0] == m[check]
  {
    hide CString;
    var line, k := m[lineStart..lineEnd], check - lineStart;
    assert m[check..lineEnd] == line[k..];
    CStringIs(m, check, lineEnd - check);
    if k <= |line| - |s| {
      assert line[k..][..|s|] == line[k..k + |s|];
    }
  }

  /** The state of the buffer between two lines: `last` bytes of it are still to be searched, then
      comes what has not been read yet, `tail`. A buffer that is not full holds all there is. */
  ghost predicate Buffered(data: seq<Byte>, start: nat, last: nat, tail: seq<Byte>) {
    && |data| == BUFSIZE + 1 && data[BUFSIZE] != NEWLINE
    && start <= last <= BUFSIZE && 0 !in data[start..last]
    && (last < BUFSIZE ==> tail == [])
  }

  /** The scan for the end of the line. */
  method FindEnd(data: array<Byte>, lineStart: nat, last: nat) returns (lineEnd: nat)
    requires lineStart <= last < data.Length
    ensures lineStart <= lineEnd <= last && NEWLINE !in data[lineStart..lineEnd]
    ensures lineEnd < last ==> data[lineEnd] == NEWLINE
  {
    lineEnd := lineStart;
    while lineEnd < last && data[lineEnd] != NEWLINE
      invariant lineStart <= lineEnd <= last && NEWLINE !in data[lineStart..lineEnd]
    {
      lineEnd := lineEnd + 1;
      assert data[lineStart..lineEnd] == data[lineStart..lineEnd - 1] + [data[lineEnd - 1]];
    }
  }

  /** ece391_strcpy downwards within the buffer. */
  method MoveDown(data: array<Byte>, from: nat, n: nat)
    requires 0 < from && from + n < data.Length && data[from + n] == 0 && 0 !in data[from..from + n]
    modifies data
    ensures Written(old(data[..]), data[..], 0, old(data[from..from + n + 1]))
  {
    var i := 0;
    ghost var was := data[..];
    while true
      invariant 0 <= i <= n
      invariant Written(was, data[..], 0, was[from..from + i])
      decreases n - i
    {
      assert i < n ==> was[from + i] in was[from..from + n];
      data[i] := data[from + i];
      if data[i] == 0 {
        return;
      }
      i := i + 1;
    }
  }

  /** The part of the file from the start of the current line on. */
  ghost function Rest(data: seq<Byte>, start: nat, last: nat, tail: seq<Byte>): seq<Byte>
    requires start <= last <= |data|
  {
    data[start..last] + tail
  }

  /** The line found is the first piece of the rest, when no more of it can be waiting in the file. */
  lemma LineIsPiece(data: seq<Byte>, start: nat, last: nat, tail: seq<Byte>, lineEnd: nat)
    requires Buffered(data, start, last, tail) && start <= lineEnd <= last && start < last
    requires NEWLINE !in data[start..lineEnd]
    requires lineEnd < last ==> data[lineEnd] == NEWLINE
    requires lineEnd == last ==> tail == [] || start == 0
    ensures var rest := Rest(data, start, last, tail);
            && rest != [] && FirstPiece(rest) == data[start..lineEnd]
            && AfterPiece(rest) == if lineEnd < last then Rest(data, lineEnd + 1, last, tail) else tail
  {
    hide LineEnd;
    var rest, e := Rest(data, start, last, tail), lineEnd - start;
    assert rest[..e] == data[start..lineEnd];
    LineEndIs(rest, BUFSIZE, e);
    if lineEnd < last {
      assert rest[e + 1..] == Rest(data, lineEnd + 1, last, tail);
    } else {
      assert rest[e..] == tail;
    }
  }

  /** One line: terminate it, search it, print the file name and the line. */
  method SearchAndPrint(data: array<Byte>, lineStart: nat, lineEnd: nat, s: seq<Byte>, fname: seq<Byte>)
    returns (out: seq<Byte>)
    requires 0 !in s && lineStart <= lineEnd < data.Length && 0 !in data[lineStart..lineEnd]
    modifies data
    ensures Written(old(data[..]), data[..], lineEnd, [0])
    ensures var line := old(data[lineStart..lineEnd]);
            out == Printed(line, s, fname)
  {
    data[lineEnd] := 0;
    assert data[lineStart..lineEnd] == old(data[lineStart..lineEnd]);
    var found := SearchLine(data, lineStart, lineEnd, s);
    out := [];
    if found {
      CStringIs(data[..], lineStart, lineEnd - lineStart);
      var line := Puts(data, lineStart);
      out := fname + [COLON] + line + [NEWLINE];
    }
  }

  /** Printing the line's record leaves the records of what follows it. */
  lemma LineReported(data: seq<Byte>, start: nat, last: nat, tail: seq<Byte>, lineEnd: nat, s: seq<Byte>,
                     fname: seq<Byte>)
    requires Buffered(data, start, last, tail) && start <= lineEnd <= last && (start < last || start == 0)
    requires NEWLINE !in data[start..lineEnd]
    requires lineEnd < last ==> data[lineEnd] == NEWLINE
    requires lineEnd == last ==> tail == [] || start == 0
    ensures Report(Rest(data, start, last, tail), s, fname)
         == Printed(data[start..lineEnd], s, fname)
            + Report(if lineEnd < last then Rest(data, lineEnd + 1, last, tail) else tail, s, fname)
  {
    if start == last {
      assert Rest(data, start, last, tail) == [] && data[start..lineEnd] == [];
      assert !Hits([], s);
    } else {
      LineIsPiece(data, start, last, tail, lineEnd);
      hide Rest, Buffered, FirstPiece, AfterPiece, Hits, Report;
      ReportStep(Rest(data, start, last, tail), s, fname);
    }
  }

  function Printed(line: seq<Byte>, s: seq<Byte>, fname: seq<Byte>): seq<Byte> {
    if Hits(line, s) then Record(fname, line) else []
  }

  /** Terminating the line leaves the rest of the buffer alone. */
  lemma LineTerminated(was: seq<Byte>, now: seq<Byte>, start: nat, last: nat, tail: seq<Byte>, lineEnd: nat)
    requires Buffered(was, start, last, tail) && start <= lineEnd <= last && Written(was, now, lineEnd, [0])
    ensures now[BUFSIZE] != NEWLINE
    ensures lineEnd < last ==> Rest(now, lineEnd + 1, last, tail) == Rest(was, lineEnd + 1, last, tail)
    ensures lineEnd + 1 == last ==> Rest(was, lineEnd + 1, last, tail) == tail
    ensures lineEnd < last ==> Buffered(now, lineEnd + 1, last, tail)
    ensures Rest(now, 0, 0, tail) == tail
  {
    if lineEnd < last {
      assert now[lineEnd + 1..last] == was[start..last][lineEnd + 1 - start..];
    }
  }

  /** Copy an unfinished line to the front of the buffer. */
  method Carry(data: array<Byte>, lineStart: nat, last: nat, ghost tail: seq<Byte>) returns (carried: nat)
    requires Buffered(data[..], lineStart, last, tail) && 0 < lineStart <= last
    modifies data
    ensures carried < BUFSIZE && data[BUFSIZE] != NEWLINE && 0 !in data[..carried]
    ensures Rest(data[..], 0, carried, tail) == Rest(old(data[..]), lineStart, last, tail)
  {
    data[last] := 0;
    ghost var n := last - lineStart;
    assert data[lineStart..lineStart + n] == old(data[lineStart..last]);
    MoveDown(data, lineStart, last - lineStart);
    carried := last - lineStart;
    assert data[..carried] == old(data[lineStart..last]);
  }

  /** The inner loop: search the buffered lines and keep an unfinished one for the next round. */
  method ScanBuffer(data: array<Byte>, got: nat, cnt: nat, s: seq<Byte>, fname: seq<Byte>, ghost tail: seq<Byte>)
    returns (last: nat, out: seq<Byte>)
    requires 0 !in s && data.Length == BUFSIZE + 1
    requires Buffered(data[..], 0, got, tail) && (cnt == 0 ==> tail == [])
    modifies data
    ensures last < BUFSIZE && data[BUFSIZE] != NEWLINE && 0 !in data[..last]
    ensures cnt == 0 ==> last == 0
    ensures out + Report(Rest(data[..], 0, last, tail), s, fname)
         == Report(Rest(old(data[..]), 0, got, tail), s, fname)
  {
    hide Report, Printed, Rest, Written;
    ghost var goal := Report(Rest(data[..], 0, got, tail), s, fname);
    last, out := got, [];
    var lineStart := 0;
    while true
      invariant 0 <= lineStart && (lineStart < last || lineStart == 0)
      invariant Buffered(data[..], lineStart, last, tail)
      invariant out + Report(Rest(data[..], lineStart, last, tail), s, fname) == goal
      decreases last - lineStart
    {
      var lineEnd := FindEnd(data, lineStart, last);
      if data[lineEnd] != NEWLINE && cnt != 0 && lineStart != 0 {
        last := Carry(data, lineStart, last, tail);
        break;
      }
      ghost var was := data[..];
      LineReported(was, lineStart, last, tail, lineEnd, s, fname);
      var printed := SearchAndPrint(data, lineStart, lineEnd, s, fname);
      LineTerminated(was, data[..], lineStart, last, tail, lineEnd);
      out := out + printed;
      lineStart := lineEnd + 1;
      if lineStart >= last {
        last := 0;
        break;
      }
    }
  }

  /** A file as open and read present it: reads are full, and a read from `broken` on fails. */
  datatype File = File(content: seq<Byte>, broken: Option<nat>) {
    predicate FailsAt(pos: nat) {
      broken.Some? && broken.value <= pos
    }
  }

  /** ece391_read into `data + at`; like the kernel's file_read it refuses to read nothing. */
  method Read(file: File, pos: nat, data: array<Byte>, at: nat, n: nat) returns (cnt: int)
    requires pos <= |file.content| && at + n <= data.Length
    modifies data
    ensures cnt == if n == 0 || file.FailsAt(pos) then -1 else Min(n, |file.content| - pos)
    ensures Written(old(data[..]), data[..], at, if cnt < 0 then [] else file.content[pos..pos + cnt])
  {
    if n == 0 || file.FailsAt(pos) {
      return -1;
    }
    cnt := Min(n, |file.content| - pos);
    var i := 0;
    while i < cnt
      invariant 0 <= i <= cnt
      invariant Written(old(data[..]), data[..], at, file.content[pos..pos + i])
    {
      data[at + i] := file.content[pos + i];
      i := i + 1;
    }
  }

  lemma AfterRead(was: seq<Byte>, now: seq<Byte>, last: nat, content: seq<Byte>, pos: nat, cnt: nat)
    requires |was| == BUFSIZE + 1 && was[BUFSIZE] != NEWLINE && last < BUFSIZE
    requires 0 !in was[..last] && 0 !in content && pos <= |content|
    requires cnt == Min(BUFSIZE - last, |content| - pos)
    requires Written(was, now, last, content[pos..pos + cnt])
    ensures Buffered(now, 0, last + cnt, content[pos + cnt..])
    ensures cnt == 0 ==> content[pos + cnt..] == []
    ensures Rest(now, 0, last + cnt, content[pos + cnt..]) == Rest(was, 0, last, content[pos..])
  {
    assert now[0..last + cnt] == was[0..last] + content[pos..pos + cnt];
    assert content[pos..] == content[pos..pos + cnt] + content[pos + cnt..];
    assert 0 !in content[pos..pos + cnt];
  }

  /** Fill the buffer behind the `last` bytes carried over. */
  method ReadMore(f: File, pos: nat, data: array<Byte>, last: nat) returns (cnt: int)
    requires pos <= |f.content| && 0 !in f.content && last < BUFSIZE
    requires data.Length == BUFSIZE + 1 && data[BUFSIZE] != NEWLINE && 0 !in data[..last]
    modifies data
    ensures cnt == -1 <==> f.FailsAt(pos)
    ensures cnt != -1 ==>
      && 0 <= cnt <= |f.content| - pos && (cnt == 0 ==> pos == |f.content|)
      && last + cnt <= BUFSIZE && Buffered(data[..], 0, last + cnt, f.content[pos + cnt..])
      && Rest(data[..], 0, last + cnt, f.content[pos + cnt..]) == Rest(old(data[..]), 0, last, f.content[pos..])
  {
    cnt := Read(f, pos, data, last, BUFSIZE - last);
    if cnt != -1 {
      AfterRead(old(data[..]), data[..], last, f.content, pos, cnt);
    }
  }

  /** do_one_file, from the open file on. */
  method GrepFile(s: seq<Byte>, fname: seq<Byte>, f: File, data: array<Byte>) returns (r: int, out: seq<Byte>)
    requires 0 !in s && 0 !in f.content && data.Length == BUFSIZE + 1 && data[BUFSIZE] != NEWLINE
    modifies data
    ensures r == 0 ==> out == Report(f.content, s, fname)
    ensures r != 0 ==> r == -1 && f.broken.Some? && out <= Report(f.content, s, fname)
  {
    hide Report, Rest, Buffered;
    ghost var goal := Report(f.content, s, fname);
    WholeFile(data[..], f.content);
    out := [];
    var pos: nat, last: nat := 0, 0;
    while true
      invariant pos <= |f.content| && last < BUFSIZE && data[BUFSIZE] != NEWLINE && 0 !in data[..last]
      invariant out + Report(Rest(data[..], 0, last, f.content[pos..]), s, fname) == goal
      decreases |f.content| - pos
    {
      var cnt := ReadMore(f, pos, data, last);
      if cnt == -1 {
        return -1, out;
      }
      pos := pos + cnt;
      var printed;
      last, printed := ScanBuffer(data, last + cnt, cnt, s, fname, f.content[pos..]);
      out := out + printed;
      if cnt == 0 {
        break;
      }
    }
    NothingLeft(data[..], s, fname);
    return 0, out;
  }

  /** do_one_file: open, then read and scan until a read returns nothing. `data` is the local buffer;
      of what it happens to contain only the last byte matters. */
  method DoOneFile(s: seq<Byte>, fname: seq<Byte>, file: Option<File>, data: array<Byte>)
    returns (r: int, out: seq<Byte>)
    requires 0 !in s && (file.Some? ==> 0 !in file.value.content)
    requires data.Length == BUFSIZE + 1 && data[BUFSIZE] != NEWLINE
    modifies data
    ensures file == None ==> r == -1 && out == Ascii("file open failed\n")
    ensures file.Some? && file.value.broken == None ==> r == 0
    ensures file.Some? && r == 0 ==> out == Report(file.value.content, s, fname)
    ensures file.Some? && r != 0 ==> r == -1 && exists shown ::
      shown <= Report(file.value.content, s, fname) && out == shown + Ascii("file read failed\n")
  {
    hide Report, Ascii;
    match file
    case None =>
      return -1, Ascii("file open failed\n");
    case Some(f) =>
      r, out := GrepFile(s, fname, f, data);
      if r == -1 {
        out := out + Ascii("file read failed\n");
      }
  }

  lemma WholeFile(data: seq<Byte>, content: seq<Byte>)
    ensures Rest(data, 0, 0, content[0..]) == content
  {}

  lemma NothingLeft(data: seq<Byte>, s: seq<Byte>, fname: seq<Byte>)
    ensures Report(Rest(data, 0, 0, []), s, fname) == []
  {
    assert Rest(data, 0, 0, []) == [];
  }

  /** A record is the name, a colon, the line and a newline. */
  lemma RecordText(fname: seq<Byte>, line: seq<Byte>)
    ensures Record(fname, line) == fname + Ascii(":") + line + Ascii("\n")
  {
    assert Ascii(":") == [58] && Ascii("\n") == [10];
  }
}
