/** A disk image byte by byte, in plain numbers, and what the driver makes of it. */
module DiskLayout {
  import opened Bytes
  import opened FileSystems

  /** A file as the maker of a disk knows it: `blocks` are the numbers of its data blocks, in any order. */
  datatype File = File(name: seq<Byte>, filetype: nat, inode: nat, data: seq<Byte>, blocks: seq<nat>)

  /** The four bytes at `a` are `v`, the lowest first. */
  predicate Holds32(img: seq<Byte>, a: nat, v: nat) {
    && a + 4 <= |img| && v < 0x1_0000_0000
    && img[a] == v % 256 && img[a + 1] == v / 256 % 256 && img[a + 2] == v / 65536 % 256 && img[a + 3] == v / 16777216
  }

  /** The name and a NUL in the 32 bytes at `a`. */
  ghost predicate HoldsName(img: seq<Byte>, a: nat, name: seq<Byte>) {
    && a + 32 <= |img| && 1 <= |name| <= 31 && 0 !in name
    && (forall i {:trigger name[i]} :: 0 <= i < |name| ==> img[a + i] == name[i]) && img[a + |name|] == 0
  }

  /** The length, the table of block numbers, and the data in these blocks, which begin behind the inodes. */
  ghost predicate HoldsData(img: seq<Byte>, inodes: nat, blocks: nat, f: File) {
    && f.inode < inodes && |f.data| <= 1023 * 4096 && |f.blocks| == (|f.data| + 4095) / 4096
    && Holds32(img, 4096 * (f.inode + 1), |f.data|)
    && (forall k {:trigger f.blocks[k]} :: 0 <= k < |f.blocks| ==>
          f.blocks[k] < blocks && Holds32(img, 4096 * (f.inode + 1) + 4 + 4 * k, f.blocks[k]))
    && (forall p {:trigger HoldsByte(img, inodes, f, p)} :: 0 <= p < |f.data| ==> HoldsByte(img, inodes, f, p))
  }

  ghost predicate HoldsByte(img: seq<Byte>, inodes: nat, f: File, p: nat)
    requires p < |f.data|
  {
    && p / 4096 < |f.blocks|
    && var a := 4096 * (1 + inodes + f.blocks[p / 4096]) + p % 4096; a < |img| && img[a] == f.data[p]
  }

  /** The image holds exactly these files. */
  ghost predicate HoldsFiles(img: seq<Byte>, files: seq<File>, inodes: nat, blocks: nat) {
    && |img| == 4096 * (1 + inodes + blocks) <= 0x1_0000_0000 && |files| <= 63
    && Holds32(img, 0, |files|) && Holds32(img, 4, inodes) && Holds32(img, 8, blocks)
    && (forall e {:trigger files[e]} :: 0 <= e < |files| ==>
          && HoldsName(img, 64 + 64 * e, files[e].name)
          && Holds32(img, 64 + 64 * e + 32, files[e].filetype) && Holds32(img, 64 + 64 * e + 36, files[e].inode)
          && HoldsData(img, inodes, blocks, files[e]))
    && (forall e :: |files| <= e < 63 ==> img[64 + 64 * e] == 0)
    && (forall d, e :: 0 <= d < e < |files| ==> files[d].name != files[e].name)
  }

  /** A unit holds an inode's length and the numbers of all its blocks, and nothing more; failure is -1. */
  lemma Format()
    ensures UNIT == 4096 && 4 + 4 * MAX_BLOCKS == 4096 && 64 + 64 * ENTRIES == 4096 && FAIL == -1
  {}

  lemma WordOf(img: seq<Byte>, a: nat, v: nat)
    requires Holds32(img, a, v)
    ensures Word(img, a) == v
  {
    assert v / 65536 == v / 256 / 256 && v / 16777216 == v / 65536 / 256;
  }

  lemma NameThere(img: seq<Byte>, a: nat, name: seq<Byte>)
    requires HoldsName(img, a, name)
    ensures NulWithin(img, a, 32) && Terminated(img, a) && CString(img, a) == name
  {
    assert img[a..a + |name|] == name;
    CStringIs(img, a, |name|);
  }

  lemma LayoutHeader(img: seq<Byte>, files: seq<File>, inodes: nat, blocks: nat)
    requires HoldsFiles(img, files, inodes, blocks)
    ensures IsImage(img) && DentriesNum(img) == |files| && InodesNum(img) == inodes && BlocksNum(img) == blocks
  {
    WordOf(img, 0, |files|);
    WordOf(img, 4, inodes);
    WordOf(img, 8, blocks);
  }

  lemma LayoutNames(img: seq<Byte>, files: seq<File>, inodes: nat, blocks: nat)
    requires HoldsFiles(img, files, inodes, blocks)
    ensures NamesEnd(img)
    ensures forall e {:trigger NameOf(img, e)} :: 0 <= e < 63 ==>
      NameOf(img, e) == if e < |files| then files[e].name else []
  {
    forall e {:trigger EntryAt(e)} | 0 <= e < 63 ensures NulWithin(img, EntryAt(e), 32) {
      if e < |files| {
        NameThere(img, 64 + 64 * e, files[e].name);
      } else {
        assert img[64 + 64 * e] == 0;
      }
    }
    forall e {:trigger NameOf(img, e)} | 0 <= e < 63
      ensures NameOf(img, e) == if e < |files| then files[e].name else []
    {
      if e < |files| {
        NameThere(img, 64 + 64 * e, files[e].name);
      } else {
        assert img[64 + 64 * e] == 0;
        CStringIs(img, 64 + 64 * e, 0);
      }
    }
  }

  /** Looking up the name of a file leads to its type and its inode; any other name is not found. */
  lemma LookupOfLayout(img: seq<Byte>, files: seq<File>, inodes: nat, blocks: nat, name: seq<Byte>)
    requires HoldsFiles(img, files, inodes, blocks)
    ensures NamesEnd(img)
    ensures forall e :: 0 <= e < |files| && files[e].name == name ==>
      Lookup(img, name) == e && Entry(img, e) == Dentry(name, files[e].filetype, files[e].inode)
    ensures (forall e :: 0 <= e < |files| ==> files[e].name != name) ==> Lookup(img, name) == -1
  {
    hide Holds32, HoldsData, NameOf, NamesEnd;
    LayoutNames(img, files, inodes, blocks);
    var r := Lookup(img, name);
    forall e | 0 <= e < |files| && files[e].name == name
      ensures r == e && Entry(img, e) == Dentry(name, files[e].filetype, files[e].inode)
    {
      assert NameOf(img, e) == name && name != [];
      EntryOfLayout(img, files, inodes, blocks, e);
    }
  }

  lemma EntryOfLayout(img: seq<Byte>, files: seq<File>, inodes: nat, blocks: nat, e: nat)
    requires HoldsFiles(img, files, inodes, blocks) && e < |files|
    ensures NamesEnd(img) && Entry(img, e) == Dentry(files[e].name, files[e].filetype, files[e].inode)
  {
    hide Holds32, HoldsData, HoldsName, NameOf, NamesEnd;
    LayoutNames(img, files, inodes, blocks);
    WordOf(img, 64 + 64 * e + 32, files[e].filetype);
    WordOf(img, 64 + 64 * e + 36, files[e].inode);
  }

  /** Its inode is well formed and holds its data, whatever the order of its blocks. */
  lemma ContentsOfLayout(img: seq<Byte>, files: seq<File>, inodes: nat, blocks: nat, e: nat)
    requires HoldsFiles(img, files, inodes, blocks) && e < |files|
    ensures WellFormedInode(img, files[e].inode) && Contents(img, files[e].inode) == files[e].data
  {
    hide HoldsName, Holds32, Word, FileByte, FileLength, BlockNo;
    LayoutHeader(img, files, inodes, blocks);
    var f := files[e];
    LengthOfLayout(img, inodes, blocks, f);
    forall k | 0 <= k && k * UNIT < FileLength(img, f.inode) ensures BlockNo(img, f.inode, k) < blocks {
      assert k < |f.blocks|;
      BlockOfLayout(img, inodes, blocks, f, k);
    }
    forall p | 0 <= p < |f.data| ensures FileByte(img, f.inode, p) == f.data[p] {
      ByteOfLayout(img, inodes, blocks, f, p);
    }
  }

  lemma LengthOfLayout(img: seq<Byte>, inodes: nat, blocks: nat, f: File)
    requires HoldsData(img, inodes, blocks, f)
    ensures FileLength(img, f.inode) == |f.data|
  {
    hide Holds32, Word, HoldsByte;
    WordOf(img, 4096 * (f.inode + 1), |f.data|);
  }

  lemma BlockOfLayout(img: seq<Byte>, inodes: nat, blocks: nat, f: File, k: nat)
    requires HoldsData(img, inodes, blocks, f) && k < |f.blocks|
    ensures BlockNo(img, f.inode, k) == f.blocks[k] < blocks
  {
    hide Holds32, Word, HoldsByte;
    WordOf(img, 4096 * (f.inode + 1) + 4 + 4 * k, f.blocks[k]);
  }

  lemma ByteOfLayout(img: seq<Byte>, inodes: nat, blocks: nat, f: File, p: nat)
    requires HoldsData(img, inodes, blocks, f) && p < |f.data| && InodesNum(img) == inodes
    ensures FileByte(img, f.inode, p) == f.data[p]
  {
    hide Holds32, Word, BlockNo, InodesNum;
    assert HoldsByte(img, inodes, f, p);
    BlockOfLayout(img, inodes, blocks, f, p / 4096);
  }

  /** Reading the directory from its start lists the names of the files in order, then reports the end. */
  lemma ListingOfLayout(img: seq<Byte>, files: seq<File>, inodes: nat, blocks: nat, n: nat)
    requires HoldsFiles(img, files, inodes, blocks) && n <= |files|
    ensures NamesEnd(img) && DentriesNum(img) <= ENTRIES
    ensures var (names, counter) := Listing(img, 0, n);
      counter == n && |names| == n && forall e :: 0 <= e < n ==> names[e] == files[e].name
    ensures DirectoryStep(img, |files|) == ([], 0)
  {
    hide HoldsData, HoldsName, Holds32, NameOf, NamesEnd;
    LayoutHeader(img, files, inodes, blocks);
    LayoutNames(img, files, inodes, blocks);
    if n > 0 {
      ListingOfLayout(img, files, inodes, blocks, n - 1);
    }
  }

  // ---- A disk with two inodes and three blocks ----

  /** "a" has inode 1 and 4098 bytes in blocks 2 and 0; "b" has inode 0 and two bytes in block 1. */
  function TwoFiles(): seq<File> {
    [File([97], 2, 1, seq<Byte>(4098, p => if p == 4096 then 10 else if p == 4097 then 11 else 7), [2, 0]),
     File([98], 1, 0, [20, 21], [1])]
  }

  function TwoFilesImage(): seq<Byte> {
    seq<Byte>(24576, i =>
      if i < 4096 then
        if i == 0 || i == 4 then 2 else if i == 8 then 3
        else if i == 64 then 97 else if i == 96 then 2 else if i == 100 then 1
        else if i == 128 then 98 else if i == 160 then 1 else 0
      else if i < 8192 then
        if i == 4096 then 2 else if i == 4100 then 1 else 0
      else if i < 12288 then
        if i == 8192 then 2 else if i == 8193 then 16 else if i == 8196 then 2 else 0
      else if i < 16384 then
        if i == 12288 then 10 else if i == 12289 then 11 else 0
      else if i < 20480 then
        if i == 16384 then 20 else if i == 16385 then 21 else 0
      else 7)
  }

  lemma FirstDataHeld()
    ensures HoldsData(TwoFilesImage(), 2, 3, TwoFiles()[0])
  {
    var img, a := TwoFilesImage(), TwoFiles()[0];
    assert |a.data| == 4098 && |a.blocks| == 2 && a.blocks[0] == 2 && a.blocks[1] == 0;
    forall p | 0 <= p < |a.data| ensures HoldsByte(img, 2, a, p) {
      FirstByteHeld(p);
    }
  }

  lemma FirstByteHeld(p: nat)
    requires p < 4098
    ensures |TwoFiles()[0].data| == 4098 && HoldsByte(TwoFilesImage(), 2, TwoFiles()[0], p)
  {
    if p >= 4096 {
      assert p / 4096 == 1 && p % 4096 == p - 4096;
    } else {
      assert p / 4096 == 0 && p % 4096 == p;
    }
  }

  lemma SecondDataHeld()
    ensures HoldsData(TwoFilesImage(), 2, 3, TwoFiles()[1])
  {
    var img, b := TwoFilesImage(), TwoFiles()[1];
    assert HoldsByte(img, 2, b, 0) && HoldsByte(img, 2, b, 1);
  }

  lemma EntriesHeld()
    ensures var img, files := TwoFilesImage(), TwoFiles();
      && Holds32(img, 0, 2) && Holds32(img, 4, 2) && Holds32(img, 8, 3)
      && HoldsName(img, 64, files[0].name) && Holds32(img, 96, 2) && Holds32(img, 100, 1)
      && HoldsName(img, 128, files[1].name) && Holds32(img, 160, 1) && Holds32(img, 164, 0)
      && forall e :: 2 <= e < 63 ==> img[64 + 64 * e] == 0
  {}

  lemma TwoFilesHeld()
    ensures HoldsFiles(TwoFilesImage(), TwoFiles(), 2, 3)
  {
    hide TwoFilesImage, HoldsData, HoldsName, Holds32;
    FirstDataHeld();
    SecondDataHeld();
    EntriesHeld();
    ImageSize();
  }

  lemma ImageSize()
    ensures |TwoFilesImage()| == 24576
  {}

  /** Both are found and read. */
  lemma TwoFilesRead()
    ensures var img := TwoFilesImage();
      && NamesEnd(img) && Lookup(img, [97]) == 0 && Lookup(img, [98]) == 1 && Lookup(img, [99]) == -1
      && Entry(img, 0).inode == 1 && Entry(img, 1).inode == 0
      && Contents(img, 0) == [20, 21] && |Contents(img, 1)| == 4098 && Contents(img, 1)[4095..] == [7, 10, 11]
  {
    hide TwoFilesImage, HoldsFiles, NamesEnd, Contents, Lookup, Entry;
    var img, files := TwoFilesImage(), TwoFiles();
    TwoFilesHeld();
    LookupOfLayout(img, files, 2, 3, [97]);
    LookupOfLayout(img, files, 2, 3, [98]);
    LookupOfLayout(img, files, 2, 3, [99]);
    ContentsOfLayout(img, files, 2, 3, 0);
    ContentsOfLayout(img, files, 2, 3, 1);
    assert files[0].name == [97] && files[1].name == [98];
  }
}
