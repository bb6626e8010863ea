/** Where a routine's stores land: in an array of the kernel, or at linear addresses of a process. */
module Buffers {
  import opened Bytes
  import opened Paging

  const USER_START := 0x0800_0000
  const USER_END := 0x0840_0000
  const VIDEO_ADDR := 0x0840_0000
  const MEMORY := 0x200_0000

  predicate InKernelPage(a: nat) {
    MB4 <= a < 2 * MB4
  }

  /** The addresses that a process's directory maps, for the kernel or for the program. */
  predicate Present(la: nat, video: bool) {
    || InKernelPage(la) || InVideoPage(la) || USER_START <= la < USER_END
    || (video && VIDEO_ADDR <= la < VIDEO_ADDR + PAGE)
  }

  /** Where they lie in physical memory. */
  function Phys(process: nat, la: nat): nat {
    if USER_START <= la < USER_END then (process + 1) * MB4 + (la - USER_START)
    else if VIDEO_ADDR <= la < VIDEO_ADDR + PAGE then VIDEO_PAGE * PAGE + (la - VIDEO_ADDR)
    else la
  }

  lemma SpaceIsPhys(process: nat, video: bool, la: nat)
    requires 1 <= process <= PROCESSES
    ensures var access := Space(process + 1, video, la);
      if Present(la, video) then
        access == Mapped(Phys(process, la), !InKernelPage(la), true) && Phys(process, la) < MEMORY
      else access == Fault
  {}

  /** Present addresses reach the kernel page only from itself, and no frame but the process's own. */
  lemma PhysStaysInside(process: nat, la: nat, video: bool)
    requires 1 <= process <= PROCESSES && Present(la, video)
    ensures var p := Phys(process, la);
      && p < MEMORY && (InKernelPage(p) <==> InKernelPage(la))
      && (InKernelPage(p) || InVideoPage(p) || InFrame(p, process + 1))
  {}

  datatype Buffer = Flat(at: nat) | Linear(process: nat, la: nat)
  {
    function Place(i: nat): nat {
      match this
      case Flat(at) => at + i
      case Linear(process, la) => Phys(process, la + i)
    }

    /** Every one of the first `n` bytes has a place in memory. */
    predicate Fits(n: nat, size: nat) {
      forall i {:trigger Place(i)} :: 0 <= i < n ==> Place(i) < size
    }
  }

  /** The memory `m` after `data` has been stored byte after byte. */
  function StoreAll(m: seq<Byte>, b: Buffer, data: seq<Byte>): (r: seq<Byte>)
    ensures |r| == |m|
    decreases |data|
  {
    if data == [] then m else
      var n := |data| - 1;
      var rest := StoreAll(m, b, data[..n]);
      if b.Place(n) < |m| then rest[b.Place(n) := data[n]] else rest
  }

  lemma StoreNothing(m: seq<Byte>, b: Buffer)
    ensures StoreAll(m, b, []) == m
  {}

  lemma StoreOneMore(m: seq<Byte>, b: Buffer, data: seq<Byte>, x: Byte)
    requires b.Place(|data|) < |m|
    ensures StoreAll(m, b, data + [x]) == StoreAll(m, b, data)[b.Place(|data|) := x]
  {
    assert (data + [x])[..|data|] == data;
  }

  /** A stretch of consecutive places holds the data afterwards, and nothing else has changed. */
  lemma {:induction false} StoreAllIsWritten(m: seq<Byte>, b: Buffer, at: nat, data: seq<Byte>)
    requires at + |data| <= |m| && forall i {:trigger b.Place(i)} :: 0 <= i < |data| ==> b.Place(i) == at + i
    ensures Written(m, StoreAll(m, b, data), at, data)
    decreases |data|
  {
    if data != [] {
      StoreAllIsWritten(m, b, at, data[..|data| - 1]);
    }
  }

  /** What is nowhere in the buffer stays. */
  lemma {:induction false} StoreAllSpares(m: seq<Byte>, b: Buffer, data: seq<Byte>, p: nat)
    requires p < |m| && forall i {:trigger b.Place(i)} :: 0 <= i < |data| ==> b.Place(i) != p
    ensures StoreAll(m, b, data)[p] == m[p]
    decreases |data|
  {
    if data != [] {
      StoreAllSpares(m, b, data[..|data| - 1], p);
    }
  }

  /** A place that later bytes do not overwrite holds its byte. */
  lemma {:induction false} StoreAllStores(m: seq<Byte>, b: Buffer, data: seq<Byte>, k: nat)
    requires k < |data| && b.Place(k) < |m|
    requires forall i {:trigger b.Place(i)} :: k < i < |data| ==> b.Place(i) != b.Place(k)
    ensures StoreAll(m, b, data)[b.Place(k)] == data[k]
    decreases |data|
  {
    if k < |data| - 1 {
      StoreAllStores(m, b, data[..|data| - 1], k);
    }
  }

  predicate InWindow(la: nat, n: nat) {
    USER_START <= la && la + n <= USER_END
  }

  /** Where the window's address `la` lies; also for its end. */
  function WindowPhys(process: nat, la: nat): nat
    requires USER_START <= la
  {
    (process + 1) * MB4 + (la - USER_START)
  }

  /** In the program window consecutive addresses have consecutive places. */
  lemma StoredInWindow(m: seq<Byte>, process: nat, la: nat, data: seq<Byte>)
    requires |m| == MEMORY && 1 <= process <= PROCESSES && InWindow(la, |data|)
    ensures Written(m, StoreAll(m, Linear(process, la), data), WindowPhys(process, la), data)
  {
    hide StoreAll, Written;
    StoreAllIsWritten(m, Linear(process, la), WindowPhys(process, la), data);
  }
}
