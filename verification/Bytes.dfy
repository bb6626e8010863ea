/** Bytes, C strings and the handful of sequence operations the other modules share. */
module Bytes {

  type Byte = b: int | 0 <= b < 256

  datatype Option<+T> = None | Some(value: T)

  const NEWLINE: Byte := 10
  const BLANK: Byte := 32

  function Min(a: int, b: int): int {
    if a <= b then a else b
  }

  /** `now` is the memory `was` with `data` stored from address `at` on, and nothing else changed. */
  ghost predicate Written<T(!new)>(was: seq<T>, now: seq<T>, at: nat, data: seq<T>) {
    && |now| == |was| && at + |data| <= |was|
    && (forall k {:trigger now[k]} :: at <= k < at + |data| ==> now[k] == data[k - at])
    && (forall k {:trigger now[k]} :: 0 <= k < at || at + |data| <= k < |was| ==> now[k] == was[k])
  }

  /** The first `n` bytes of `s`, or all of them; nothing when `n` is negative. */
  function First(s: seq<Byte>, n: int): seq<Byte> {
    if n < 0 then [] else if n < |s| then s[..n] else s
  }

  function Ascii(s: string): seq<Byte> {
    seq(|s|, i requires 0 <= i < |s| => s[i] as int % 256)
  }

  function Reversed<T>(s: seq<T>): seq<T> {
    seq(|s|, k requires 0 <= k < |s| => s[|s| - 1 - k])
  }

  /** A NUL follows somewhere at or after `at`. */
  predicate Terminated(m: seq<Byte>, at: nat) {
    exists k :: at <= k < |m| && m[k] == 0
  }

  /** The C string that starts at `at`: everything before the first NUL. */
  function CString(m: seq<Byte>, at: nat): (s: seq<Byte>)
    requires Terminated(m, at)
    ensures at + |s| < |m| && m[at + |s|] == 0
    ensures s == m[at..at + |s|] && 0 !in s
    decreases |m| - at
  {
    if m[at] == 0 then [] else [m[at]] + CString(m, at + 1)
  }

  lemma CStringIs(m: seq<Byte>, at: nat, n: nat)
    requires at + n < |m| && m[at + n] == 0
    requires 0 !in m[at..at + n]
    ensures Terminated(m, at) && CString(m, at) == m[at..at + n]
    decreases n
  {
    if n != 0 {
      assert m[at] in m[at..at + n];
      assert m[at + 1..at + n] == m[at..at + n][1..];
      CStringIs(m, at + 1, n - 1);
    }
  }
}
