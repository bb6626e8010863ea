/** The paging structures as words in memory: the unions of student-distrib/x86_desc.h with the entries that
    student-distrib/mypaging.c and vidmap write. */
module PagingWords {
  import opened Paging

  function Bit(b: bool): nat {
    if b then 1 else 0
  }

  /** The 32-bit word of a page-directory entry, low bit first as the structure declares its fields. */
  function DirWord(e: Pde): nat {
    Bit(e.present) + 2 * Bit(e.readWrite) + 4 * Bit(e.user) + 8 * Bit(e.writeThrough) + 16 * Bit(e.cacheDisabled)
    + 32 * Bit(e.accessed) + 64 * Bit(e.bit6) + 128 * Bit(e.pageSize) + 256 * Bit(e.global) + 512 * e.available
    + 4096 * e.bit12 + 8192 * e.bits13to21 + 4194304 * e.bits22to31
  }

  function TableWord(e: Pte): nat {
    Bit(e.present) + 2 * Bit(e.readWrite) + 4 * Bit(e.user) + 8 * e.others + 4096 * e.base
  }

  lemma KbWord(e: Pde, base: nat)
    ensures DirWord(e.SetKb(base)) == base * 4096 + 0x07
  {
    var half := base / 2;
    assert base == half * 2 + base % 2 && base / 1024 == half / 512;
    assert half == half / 512 * 512 + half % 512;
  }

  lemma MbWord(e: Pde, present: bool, readWrite: bool, user: bool, pageSize: bool, global: bool, base: nat)
    ensures DirWord(e.SetMb(present, readWrite, user, pageSize, global, base))
      == Bit(present) + 2 * Bit(readWrite) + 4 * Bit(user) + 128 * Bit(pageSize) + 256 * Bit(global)
         + 8192 * e.bits13to21 + 0x40_0000 * base
  {}

  lemma NewEntryWord(e: Pde, i: nat, process: nat, shellPage: nat)
    ensures var reserved := 8192 * e.bits13to21;
      DirWord(NewEntry(e, i, process, shellPage))
      == if i == 0 then shellPage * 4096 + 0x07
         else if i == 1 then 0x40_0183 + reserved
         else if i == 32 then (process + 1) * 0x40_0000 + 0x87 + reserved
         else 0x80 + reserved
  {
    KbWord(e, shellPage);
    MbWord(e, true, true, false, true, true, 1);
    MbWord(e, true, true, true, true, false, process + 1);
    MbWord(e, false, false, false, true, false, 0);
  }

  lemma InitEntryWord(e: Pde, i: nat, shellPage: nat)
    ensures DirWord(InitEntry(e, i, shellPage))
      == if i == 0 then shellPage * 4096 + 0x07
         else i * 0x40_0000 + (if i == 1 then 0x183 else 0) + 8192 * e.bits13to21
  {
    KbWord(e, shellPage);
    MbWord(e, i == 1, i == 1, false, i == 1, i == 1, i);
  }

  lemma ShellWord(i: nat)
    requires i < 1024
    ensures TableWord(ShellTable()[i]) == if i == 184 then 0xB_8007 else i * 4096
  {}

  /** Every word of the directory of a new process, whatever the entries held before outside their reserved bits,
      and of the page table it shares. */
  lemma WordsOfCreate(t: Tables, process: nat, i: nat)
    requires t.Ok() && 1 <= process <= 6 && i < 1024
    ensures var reserved := 8192 * t.dirs[process - 1][i].bits13to21;
      DirWord(Create(t, process).dirs[process - 1][i])
      == if i == 0 then t.shellPage * 4096 + 0x07
         else if i == 1 then 0x40_0183 + reserved
         else if i == 32 then (process + 1) * 0x40_0000 + 0x87 + reserved
         else 0x80 + reserved
    ensures TableWord(Create(t, process).shell[i]) == if i == 184 then 0xB_8007 else i * 4096
  {
    hide DirWord, TableWord, NewEntry, ShellTable;
    NewEntryWord(t.dirs[process - 1][i], i, process, t.shellPage);
    ShellWord(i);
  }

  /** vidmap writes one word of the directory and all of the second page table. */
  lemma WordsOfMapVideo(t: Tables, process: nat, i: nat)
    requires t.Ok() && 1 <= process <= 6 && i < 1024
    ensures DirWord(MapVideo(t, process).dirs[process - 1][i])
      == if i == 33 then t.videoPage * 4096 + 0x07 else DirWord(t.dirs[process - 1][i])
    ensures TableWord(MapVideo(t, process).video[i]) == if i == 0 then 0xB_8007 else 0xB_8000
  {
    KbWord(t.dirs[process - 1][33], t.videoPage);
    hide DirWord;
  }

  /** The first directory before any process. */
  lemma WordsOfInit(t: Tables, i: nat)
    requires t.Ok() && i < 1024
    ensures DirWord(Init(t).dirs[0][i])
      == if i == 0 then t.shellPage * 4096 + 0x07
         else i * 0x40_0000 + (if i == 1 then 0x183 else 0) + 8192 * t.dirs[0][i].bits13to21
    ensures TableWord(Init(t).shell[i]) == if i == 184 then 0xB_8007 else i * 4096
  {
    hide DirWord, TableWord, InitEntry, ShellTable;
    InitEntryWord(t.dirs[0][i], i, t.shellPage);
    ShellWord(i);
  }
}
