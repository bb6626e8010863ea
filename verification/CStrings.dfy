/** Loops over NUL-terminated strings in memory (student-distrib/lib.c, syscalls/ece391support.c). */
module CStrings {
  import opened Bytes

  method Strlen(m: seq<Byte>, at: nat) returns (len: nat)
    requires Terminated(m, at)
    ensures len == |CString(m, at)|
  {
    len := 0;
    while m[at + len] != 0
      invariant at + len < |m| && 0 !in m[at..at + len]
      decreases |m| - len
    {
      assert m[at..at + len + 1] == m[at..at + len] + [m[at + len]];
      len := len + 1;
    }
    CStringIs(m, at, len);
  }

  /** puts: what is sent to the console. */
  method Puts(s: array<Byte>, at: nat) returns (text: seq<Byte>)
    requires Terminated(s[..], at)
    ensures text == CString(s[..], at)
  {
    text := [];
    var index := 0;
    while s[at + index] != 0
      invariant at + index < s.Length && text == s[at..at + index] && 0 !in text
      decreases s.Length - index
    {
      text := text + [s[at + index]];
      index := index + 1;
    }
    CStringIs(s[..], at, index);
  }
}
