/** Page directories and page tables: student-distrib/mypaging.c, the mapping part of vidmap, and the
    address translation of section 4.3 (32-Bit Paging) of the Intel SDM, Volume 3A. */
module Paging {
  const PROCESSES := 6
  const SIZE := 1024
  const MB4 := 0x40_0000
  const PAGE := 0x1000
  const VIDEO_PAGE := 184
  const PROGRAM_IMG := 32
  const VIDEO_MEM := 33

  /** The union of the two page-directory entry layouts, as the parts in which they divide the word:
      the 4 MB layout has a PAT bit, nine reserved bits and a 10-bit base where the 4 KB layout has a
      20-bit base. */
  datatype Pde = Pde(present: bool, readWrite: bool, user: bool, writeThrough: bool, cacheDisabled: bool,
                     accessed: bool, bit6: bool, pageSize: bool, global: bool, available: nat,
                     bit12: nat, bits13to21: nat, bits22to31: nat)
  {
    function KbBase(): nat {
      bit12 + 2 * bits13to21 + 1024 * bits22to31
    }

    /** All fields of the KB view are assigned. */
    function SetKb(base: nat): Pde {
      Pde(true, true, true, false, false, false, false, false, false, 0, base % 2, base / 2 % 512, base / 1024)
    }

    /** All fields of the MB view are assigned except the reserved ones, which keep what they held. */
    function SetMb(present: bool, readWrite: bool, user: bool, pageSize: bool, global: bool, base: nat): Pde {
      this.(present := present, readWrite := readWrite, user := user, writeThrough := false,
            cacheDisabled := false, accessed := false, bit6 := false, pageSize := pageSize, global := global,
            available := 0, bit12 := 0, bits22to31 := base)
    }
  }

  /** A page-table entry; `others` stands for the six fields that are always cleared. */
  datatype Pte = Pte(present: bool, readWrite: bool, user: bool, others: nat, base: nat)

  const ZERO_PDE := Pde(false, false, false, false, false, false, false, false, false, 0, 0, 0, 0)
  const ZERO_PTE := Pte(false, false, false, 0, 0)

  /** All paging structures; the two page tables lie in the pages `shellPage` and `videoPage`. */
  datatype Tables = Tables(dirs: seq<seq<Pde>>, shell: seq<Pte>, video: seq<Pte>, shellPage: nat, videoPage: nat) {
    predicate Ok() {
      && |dirs| == PROCESSES && (forall d :: 0 <= d < PROCESSES ==> |dirs[d]| == SIZE)
      && |shell| == SIZE && |video| == SIZE
      && shellPage < 0x10_0000 && videoPage < 0x10_0000 && shellPage != videoPage
    }
  }

  // ---- Translation ----

  /** What an access to a linear address does. `Stray` is a walk through a page table that is none of ours. */
  datatype Access = Fault | Stray | Mapped(phys: nat, user: bool, write: bool)

  function Walk(t: Tables, d: nat, la: nat): Access
    requires t.Ok() && d < PROCESSES && la < 0x1_0000_0000
  {
    var pde := t.dirs[d][la / MB4];
    if !pde.present then Fault
    else if pde.pageSize then
      if pde.bits13to21 != 0 then Fault else Mapped(pde.bits22to31 * MB4 + la % MB4, pde.user, pde.readWrite)
    else if pde.KbBase() == t.shellPage then WalkTable(t.shell, pde, la)
    else if pde.KbBase() == t.videoPage then WalkTable(t.video, pde, la)
    else Stray
  }

  function WalkTable(table: seq<Pte>, pde: Pde, la: nat): Access
    requires |table| == SIZE && la < 0x1_0000_0000
  {
    var pte := table[la / PAGE % SIZE];
    if !pte.present then Fault
    else Mapped(pte.base * PAGE + la % PAGE, pde.user && pte.user, pde.readWrite && pte.readWrite)
  }

  // ---- The three operations ----

  function ShellTable(): seq<Pte> {
    seq(SIZE, i => Pte(i == VIDEO_PAGE, i == VIDEO_PAGE, i == VIDEO_PAGE, 0, if i < 0 then 0 else i))
  }

  function VideoTable(): seq<Pte> {
    seq(SIZE, i => Pte(i == 0, i == 0, i == 0, 0, VIDEO_PAGE))
  }

  function InitEntry(e: Pde, i: nat, shellPage: nat): Pde {
    if i == 0 then e.SetKb(shellPage) else e.SetMb(i == 1, i == 1, false, i == 1, i == 1, i)
  }

  function NewEntry(e: Pde, i: nat, process: nat, shellPage: nat): Pde {
    if i == 0 then e.SetKb(shellPage)
    else if i == 1 then e.SetMb(true, true, false, true, true, 1)
    else if i == PROGRAM_IMG then e.SetMb(true, true, true, true, false, process + 1)
    else e.SetMb(false, false, false, true, false, 0)
  }

  function InitDir(dir: seq<Pde>, shellPage: nat): seq<Pde> {
    seq(|dir|, i requires 0 <= i < |dir| => InitEntry(dir[i], i, shellPage))
  }

  function NewDir(dir: seq<Pde>, process: nat, shellPage: nat): seq<Pde> {
    seq(|dir|, i requires 0 <= i < |dir| => NewEntry(dir[i], i, process, shellPage))
  }

  function Init(t: Tables): (r: Tables)
    requires t.Ok()
    ensures r.Ok()
  {
    t.(dirs := t.dirs[0 := InitDir(t.dirs[0], t.shellPage)], shell := ShellTable())
  }

  function Create(t: Tables, process: nat): (r: Tables)
    requires t.Ok() && 1 <= process <= PROCESSES
    ensures r.Ok()
  {
    t.(dirs := t.dirs[process - 1 := NewDir(t.dirs[process - 1], process, t.shellPage)], shell := ShellTable())
  }

  function MapVideo(t: Tables, process: nat): (r: Tables)
    requires t.Ok() && 1 <= process <= PROCESSES
    ensures r.Ok()
  {
    var dir := t.dirs[process - 1];
    t.(dirs := t.dirs[process - 1 := dir[VIDEO_MEM := dir[VIDEO_MEM].SetKb(t.videoPage)]], video := VideoTable())
  }

  // ---- What the directories map ----

  /** The shape of a directory in use: `frame` is the 4 MB frame of the program window (0 for none). */
  ghost predicate HasShape(t: Tables, d: nat, frame: nat, video: bool)
    requires t.Ok() && d < PROCESSES
  {
    var dir := t.dirs[d];
    && t.shell == ShellTable() && (video ==> t.video == VideoTable())
    && dir[0] == ZERO_PDE.SetKb(t.shellPage)
    && dir[1] == ZERO_PDE.SetMb(true, true, false, true, true, 1)
    && (if frame != 0 then dir[PROGRAM_IMG] == ZERO_PDE.SetMb(true, true, true, true, false, frame)
        else !dir[PROGRAM_IMG].present)
    && (if video then dir[VIDEO_MEM] == ZERO_PDE.SetKb(t.videoPage) else !dir[VIDEO_MEM].present)
    && forall i {:trigger dir[i]} :: 2 <= i < SIZE && i != PROGRAM_IMG && i != VIDEO_MEM ==> !dir[i].present
  }

  /** The reserved bits of the two entries that ever become 4 MB pages are clear. */
  ghost predicate ReservedClear(t: Tables)
    requires t.Ok()
  {
    forall d :: 0 <= d < PROCESSES ==> t.dirs[d][1].bits13to21 == 0 && t.dirs[d][PROGRAM_IMG].bits13to21 == 0
  }

  /** The complete address space of such a directory. */
  function Space(frame: nat, video: bool, la: nat): Access {
    if la / MB4 == PROGRAM_IMG && frame != 0 then Mapped(frame * MB4 + la % MB4, true, true)
    else if la / MB4 == 1 then Mapped(la, false, true)
    else if la / PAGE == VIDEO_PAGE then Mapped(la, true, true)
    else if la / PAGE == VIDEO_MEM * SIZE && video then Mapped(VIDEO_PAGE * PAGE + la % PAGE, true, true)
    else Fault
  }

  lemma KbBaseIs(base: nat)
    requires base < 0x10_0000
    ensures ZERO_PDE.SetKb(base).KbBase() == base
  {}

  lemma PageOfAddress(la: nat)
    requires la < 0x1_0000_0000
    ensures la / PAGE == la / MB4 * SIZE + la / PAGE % SIZE
    ensures la == la / MB4 * MB4 + la % MB4 && la == la / PAGE * PAGE + la % PAGE
  {}

  /** For every linear address: the program window, the kernel, the video page, the mapped video page,
      and nothing else. */
  lemma WalkIsSpace(t: Tables, d: nat, frame: nat, video: bool, la: nat)
    requires t.Ok() && d < PROCESSES && la < 0x1_0000_0000 && HasShape(t, d, frame, video)
    ensures Walk(t, d, la) == Space(frame, video, la)
  {
    KbBaseIs(t.shellPage);
    KbBaseIs(t.videoPage);
    WalkTables(la);
    hide ShellTable, VideoTable, WalkTable;
  }

  lemma WalkTables(la: nat)
    requires la < 0x1_0000_0000
    ensures forall page :: (WalkTable(ShellTable(), ZERO_PDE.SetKb(page), la)
      == if la / PAGE % SIZE == VIDEO_PAGE then Mapped(VIDEO_PAGE * PAGE + la % PAGE, true, true) else Fault)
    ensures forall page :: (WalkTable(VideoTable(), ZERO_PDE.SetKb(page), la)
      == if la / PAGE % SIZE == 0 then Mapped(VIDEO_PAGE * PAGE + la % PAGE, true, true) else Fault)
    ensures la / PAGE == la / MB4 * SIZE + la / PAGE % SIZE && 0 <= la / PAGE % SIZE < SIZE
    ensures la == la / MB4 * MB4 + la % MB4 && la == la / PAGE * PAGE + la % PAGE
  {}

  lemma InitShape(t: Tables)
    requires t.Ok() && ReservedClear(t)
    ensures HasShape(Init(t), 0, 0, false) && ReservedClear(Init(t))
  {}

  /** A new process gets its own frame and no video mapping, whatever its predecessor did. */
  lemma CreateShape(t: Tables, process: nat)
    requires t.Ok() && ReservedClear(t) && 1 <= process <= PROCESSES
    ensures HasShape(Create(t, process), process - 1, process + 1, false) && ReservedClear(Create(t, process))
  {}

  lemma MapVideoShape(t: Tables, process: nat, frame: nat, video: bool)
    requires t.Ok() && ReservedClear(t) && 1 <= process <= PROCESSES && HasShape(t, process - 1, frame, video)
    ensures HasShape(MapVideo(t, process), process - 1, frame, true) && ReservedClear(MapVideo(t, process))
  {}

  /** The other directories translate as before. */
  lemma OthersKeepShape(t: Tables, process: nat, d: nat, frame: nat, video: bool)
    requires t.Ok() && 1 <= process <= PROCESSES && d < PROCESSES && d != process - 1 && HasShape(t, d, frame, video)
    ensures HasShape(Create(t, process), d, frame, video) && HasShape(MapVideo(t, process), d, frame, video)
  {}

  // ---- Isolation ----

  predicate InFrame(phys: nat, frame: nat) {
    frame * MB4 <= phys < (frame + 1) * MB4
  }

  predicate InVideoPage(phys: nat) {
    VIDEO_PAGE * PAGE <= phys < (VIDEO_PAGE + 1) * PAGE
  }

  /** User-mode accesses of a process reach its own frame and the video page only, never the kernel;
      so two processes share nothing but the video page. */
  lemma UserAccess(frame: nat, video: bool, la: nat)
    requires 2 <= frame <= PROCESSES + 1 && Space(frame, video, la).Mapped? && Space(frame, video, la).user
    ensures var phys := Space(frame, video, la).phys;
      && (InFrame(phys, frame) || InVideoPage(phys)) && !InFrame(phys, 1)
      && forall other :: 2 <= other <= PROCESSES + 1 && other != frame ==> !InFrame(phys, other)
  {
    PageOfAddress(la);
  }

  // ---- The code ----

  /** page_directories, page_table_shell, page_table_video and CR3 (as the number of the directory). */
  class PageUnit {
    const dirs: array2<Pde>
    const shell: array<Pte>
    const video: array<Pte>
    const shellPage: nat
    const videoPage: nat
    var cr3: nat

    ghost predicate Valid()
      reads this
    {
      && dirs.Length0 == PROCESSES && dirs.Length1 == SIZE && shell.Length == SIZE && video.Length == SIZE
      && shell != video && (dirs as object) != shell && (dirs as object) != video
      && shellPage < 0x10_0000 && videoPage < 0x10_0000 && shellPage != videoPage
    }

    ghost function Dir(d: nat): (s: seq<Pde>)
      requires Valid() && d < PROCESSES
      reads this, dirs
      ensures |s| == SIZE
    {
      seq(SIZE, i requires 0 <= i < SIZE reads this, dirs => dirs[d, i])
    }

    ghost function View(): (t: Tables)
      requires Valid()
      reads this, dirs, shell, video
      ensures t.Ok()
    {
      Tables(seq(PROCESSES, d requires 0 <= d < PROCESSES reads this, dirs => Dir(d)), shell[..], video[..],
             shellPage, videoPage)
    }

    /** Zeroed memory, as the loader leaves it. */
    constructor (shellPage: nat, videoPage: nat)
      requires shellPage < 0x10_0000 && videoPage < 0x10_0000 && shellPage != videoPage
      ensures Valid() && fresh(dirs) && fresh(shell) && fresh(video) && cr3 == 0
      ensures ReservedClear(View()) && View().shellPage == shellPage && View().videoPage == videoPage
    {
      dirs := new Pde[PROCESSES, SIZE]((_, _) => ZERO_PDE);
      shell := new Pte[SIZE](_ => ZERO_PTE);
      video := new Pte[SIZE](_ => ZERO_PTE);
      this.shellPage, this.videoPage, cr3 := shellPage, videoPage, 0;
    }

    /** Loading CR3 changes no table. */
    method LoadCr3(d: nat)
      requires Valid()
      modifies this`cr3
      ensures Valid() && cr3 == d && View() == old(View())
    {
      cr3 := d;
      assert forall e :: 0 <= e < PROCESSES ==> Dir(e) == old(Dir(e));
    }

    /** The loop over page_table_shell that init_paging and create_paging share. */
    method FillShellTable()
      requires Valid()
      modifies shell
      ensures shell[..] == ShellTable()
    {
      var i := 0;
      while i < SIZE
        invariant 0 <= i <= SIZE && forall k :: 0 <= k < i ==> shell[k] == ShellTable()[k]
      {
        shell[i] := Pte(i == VIDEO_PAGE, i == VIDEO_PAGE, i == VIDEO_PAGE, 0, i);
        i := i + 1;
      }
    }

    /** init_paging() */
    method InitPaging()
      requires Valid()
      modifies this`cr3, dirs, shell
      ensures Valid() && View() == Init(old(View())) && cr3 == 0
    {
      FillShellTable();
      dirs[0, 0] := dirs[0, 0].SetKb(shellPage);
      var i := 1;
      while i < SIZE
        modifies dirs
        invariant 1 <= i <= SIZE
        invariant RowIs(0, seq(SIZE, k requires 0 <= k < SIZE reads this, dirs =>
                                 if k < i then InitEntry(old(Dir(0))[k], k, shellPage) else old(Dir(0))[k]))
        invariant RowsKept(old(View()).dirs, 0)
      {
        dirs[0, i] := dirs[0, i].SetMb(i == 1, i == 1, false, i == 1, i == 1, i);
        i := i + 1;
      }
      cr3 := 0;
      RowGives(old(View()).dirs, 0, InitDir(old(Dir(0)), shellPage));
    }

    ghost predicate RowIs(d: nat, row: seq<Pde>)
      requires Valid() && d < PROCESSES
      reads this, dirs
    {
      |row| == SIZE && forall i {:trigger dirs[d, i]} {:trigger row[i]} :: 0 <= i < SIZE ==> dirs[d, i] == row[i]
    }

    ghost predicate RowsKept(was: seq<seq<Pde>>, d: nat)
      requires Valid() && d < PROCESSES && |was| == PROCESSES && forall e :: 0 <= e < PROCESSES ==> |was[e]| == SIZE
      reads this, dirs
    {
      forall e, i {:trigger dirs[e, i]} :: 0 <= e < PROCESSES && e != d && 0 <= i < SIZE ==> dirs[e, i] == was[e][i]
    }

    lemma RowGives(was: seq<seq<Pde>>, d: nat, row: seq<Pde>)
      requires Valid() && d < PROCESSES && |was| == PROCESSES && forall e :: 0 <= e < PROCESSES ==> |was[e]| == SIZE
      requires RowIs(d, row) && RowsKept(was, d)
      ensures View().dirs == was[d := row]
    {
      assert Dir(d) == row;
      forall e | 0 <= e < PROCESSES && e != d ensures Dir(e) == was[e] {
        assert forall i :: 0 <= i < SIZE ==> Dir(e)[i] == dirs[e, i];
      }
    }

    /** create_paging() */
    method CreatePaging(process: int)
      requires Valid() && process != 0
      modifies this`cr3, dirs, shell
      ensures Valid()
      ensures 1 <= process <= PROCESSES ==> View() == Create(old(View()), process) && cr3 == process - 1
      ensures !(1 <= process <= PROCESSES) ==> View() == old(View()) && cr3 == old(cr3)
    {
      if process >= 7 || process < 0 {
        return;
      }
      FillShellTable();
      var d := process - 1;
      dirs[d, 0] := dirs[d, 0].SetKb(shellPage);
      dirs[d, 1] := dirs[d, 1].SetMb(true, true, false, true, true, 1);
      var i := 2;
      while i < SIZE
        modifies dirs
        invariant 2 <= i <= SIZE
        invariant RowIs(d, seq(SIZE, k requires 0 <= k < SIZE reads this, dirs =>
                                 if k >= i then old(Dir(d))[k]
                                 else if k == PROGRAM_IMG then old(Dir(d))[k].SetMb(false, false, false, true, false, 0)
                                 else NewEntry(old(Dir(d))[k], k, process, shellPage)))
        invariant RowsKept(old(View()).dirs, d)
      {
        dirs[d, i] := dirs[d, i].SetMb(false, false, false, true, false, 0);
        i := i + 1;
      }
      dirs[d, PROGRAM_IMG] := dirs[d, PROGRAM_IMG].SetMb(true, true, true, true, false, process + 1);
      cr3 := d;
      RowGives(old(View()).dirs, d, NewDir(old(Dir(d)), process, shellPage));
    }

    /** The mapping part of vidmap(). */
    method MapVideoPage(process: nat)
      requires Valid() && 1 <= process <= PROCESSES
      modifies dirs, video
      ensures Valid() && View() == MapVideo(old(View()), process)
    {
      var i := 0;
      while i < SIZE
        modifies video
        invariant 0 <= i <= SIZE && forall k :: 0 <= k < i ==> video[k] == VideoTable()[k]
      {
        video[i] := Pte(i == 0, i == 0, i == 0, 0, VIDEO_PAGE);
        i := i + 1;
      }
      dirs[process - 1, VIDEO_MEM] := dirs[process - 1, VIDEO_MEM].SetKb(videoPage);
      var row := old(Dir(process - 1));
      RowGives(old(View()).dirs, process - 1, row[VIDEO_MEM := row[VIDEO_MEM].SetKb(videoPage)]);
    }
  }
}
