/** memset, memcpy and memmove (student-distrib/lib.c), instruction by instruction.
    `mem` is the whole memory and an index is an address, so every alignment occurs. */
module MemoryRoutines {
  import opened Bytes

  /** A 32-bit register as its four bytes, least significant first. */
  datatype Dword = Dword(b0: Byte, b1: Byte, b2: Byte, b3: Byte)

  /** Exactly the addresses `from` to `to` hold `b`; all others are as they were. */
  ghost predicate Filled(was: seq<Byte>, now: seq<Byte>, from: nat, to: nat, b: Byte) {
    && |now| == |was| && from <= to <= |was|
    && forall k {:trigger now[k]} :: 0 <= k < |was| ==> now[k] == if from <= k < to then b else was[k]
  }

  /** `done` bytes have arrived at `dest` from `src` as it was; all else is as it was. */
  ghost predicate Copied(was: seq<Byte>, now: seq<Byte>, dest: nat, src: nat, done: nat) {
    && |now| == |was| && dest + done <= |was| && src + done <= |was|
    && (forall k {:trigger now[k]} :: dest <= k < dest + done ==> now[k] == was[k - dest + src])
    && (forall k {:trigger now[k]} :: 0 <= k < |was| && !(dest <= k < dest + done) ==> now[k] == was[k])
  }

  method Stosb(mem: array<Byte>, edi: nat, al: Byte, ghost was: seq<Byte>, ghost s: nat)
    requires edi < mem.Length && Filled(was, mem[..], s, edi, al)
    modifies mem
    ensures Filled(was, mem[..], s, edi + 1, al)
  {
    mem[edi] := al;
  }

  /** All four bytes of the register go to memory, so the fill byte must have been replicated in it. */
  method Stosl(mem: array<Byte>, edi: nat, eax: Dword, ghost was: seq<Byte>, ghost s: nat)
    requires edi + 4 <= mem.Length && Filled(was, mem[..], s, edi, eax.b0)
    requires eax.b1 == eax.b0 && eax.b2 == eax.b0 && eax.b3 == eax.b0
    modifies mem
    ensures Filled(was, mem[..], s, edi + 4, eax.b0)
  {
    mem[edi], mem[edi + 1], mem[edi + 2], mem[edi + 3] := eax.b0, eax.b1, eax.b2, eax.b3;
  }

  /** Byte stores up to the first aligned address, then dwords, then the last 0 to 3 bytes. */
  method Memset(mem: array<Byte>, s: nat, c: int, n: nat)
    requires s + n <= mem.Length
    modifies mem
    ensures Written(old(mem[..]), mem[..], s, seq(n, _ => c % 0x100))
  {
    ghost var was := mem[..];
    var al := c % 0x100;
    var eax := Dword(al, al, al, al);
    var edi, ecx := s, n;
    while ecx != 0 && edi % 4 != 0
      invariant 0 <= ecx && edi + ecx == s + n
      invariant Filled(was, mem[..], s, edi, al)
    {
      Stosb(mem, edi, al, was, s);
      edi, ecx := edi + 1, ecx - 1;
    }
    if ecx != 0 {
      var edx := ecx % 4;
      ecx := ecx / 4;
      while ecx != 0
        invariant 0 <= ecx && edi + 4 * ecx + edx == s + n
        invariant Filled(was, mem[..], s, edi, al)
      {
        Stosl(mem, edi, eax, was, s);
        edi, ecx := edi + 4, ecx - 1;
      }
      while edx != 0
        invariant 0 <= edx && edi + edx == s + n
        invariant Filled(was, mem[..], s, edi, al)
      {
        Stosb(mem, edi, al, was, s);
        edi, edx := edi + 1, edx - 1;
      }
    }
  }

  method Movsb(mem: array<Byte>, edi: nat, esi: nat, ghost was: seq<Byte>, ghost dest: nat, ghost src: nat,
               ghost done: nat)
    requires edi == dest + done && esi == src + done && edi < mem.Length && esi < mem.Length
    requires dest <= src || esi < dest
    requires Copied(was, mem[..], dest, src, done)
    modifies mem
    ensures Copied(was, mem[..], dest, src, done + 1)
  {
    mem[edi] := mem[esi];
  }

  /** The dword is read before it is written. */
  method Movsl(mem: array<Byte>, edi: nat, esi: nat, ghost was: seq<Byte>, ghost dest: nat, ghost src: nat,
               ghost done: nat)
    requires edi == dest + done && esi == src + done && edi + 4 <= mem.Length && esi + 4 <= mem.Length
    requires dest <= src || esi + 3 < dest
    requires Copied(was, mem[..], dest, src, done)
    modifies mem
    ensures Copied(was, mem[..], dest, src, done + 4)
  {
    var dword := Dword(mem[esi], mem[esi + 1], mem[esi + 2], mem[esi + 3]);
    mem[edi], mem[edi + 1], mem[edi + 2], mem[edi + 3] := dword.b0, dword.b1, dword.b2, dword.b3;
  }

  /** Correct for disjoint areas, and also for overlapping ones when the destination is lower. */
  method Memcpy(mem: array<Byte>, dest: nat, src: nat, n: nat)
    requires dest + n <= mem.Length && src + n <= mem.Length
    requires dest <= src || src + n <= dest
    modifies mem
    ensures Written(old(mem[..]), mem[..], dest, old(mem[src..src + n]))
  {
    ghost var was := mem[..];
    var edi, esi, ecx := dest, src, n;
    ghost var done := 0;
    while ecx != 0 && edi % 4 != 0
      invariant done + ecx == n && edi == dest + done && esi == src + done && 0 <= ecx
      invariant Copied(was, mem[..], dest, src, done)
    {
      Movsb(mem, edi, esi, was, dest, src, done);
      edi, esi, ecx, done := edi + 1, esi + 1, ecx - 1, done + 1;
    }
    if ecx != 0 {
      var edx := ecx % 4;
      ecx := ecx / 4;
      while ecx != 0
        invariant done + 4 * ecx + edx == n && edi == dest + done && esi == src + done && 0 <= ecx
        invariant Copied(was, mem[..], dest, src, done)
      {
        Movsl(mem, edi, esi, was, dest, src, done);
        edi, esi, ecx, done := edi + 4, esi + 4, ecx - 1, done + 4;
      }
      while edx != 0
        invariant done + edx == n && edi == dest + done && esi == src + done && 0 <= edx
        invariant Copied(was, mem[..], dest, src, done)
      {
        Movsb(mem, edi, esi, was, dest, src, done);
        edi, esi, edx, done := edi + 1, esi + 1, edx - 1, done + 1;
      }
    }
  }

  /** `rep movsb`, upwards when the source is at or above the destination, downwards otherwise. */
  method Memmove(mem: array<Byte>, dest: nat, src: nat, n: nat)
    requires dest + n <= mem.Length && src + n <= mem.Length
    modifies mem
    ensures Written(old(mem[..]), mem[..], dest, old(mem[src..src + n]))
  {
    ghost var was := mem[..];
    var edi: int, esi: int, ecx: int := dest, src, n;
    var step := 1;
    if esi < edi {
      esi, edi, step := esi + ecx - 1, edi + ecx - 1, -1;
    }
    while ecx != 0
      invariant 0 <= ecx <= n
      invariant step == if src < dest then -1 else 1
      invariant edi == if step == 1 then dest + n - ecx else dest + ecx - 1
      invariant esi - edi == src - dest
      invariant step == 1 ==> Copied(was, mem[..], dest, src, n - ecx)
      invariant step == -1 ==> Copied(was, mem[..], dest + ecx, src + ecx, n - ecx)
    {
      mem[edi] := mem[esi];
      edi, esi, ecx := edi + step, esi + step, ecx - 1;
    }
  }
}
