/** The read-only file system of student-distrib/files.c: a raw disk image read through block numbers,
    proved to hold flat files. */
module FileSystems {
  import opened Bytes
  import opened Buffers
  import opened CStrings

  const UNIT := 4096
  const ENTRIES := 63
  const MAX_BLOCKS := 1023
  const FAIL := -1

  // ---- The image ----

  /** The little-endian 32-bit word at `a`; 0 outside the image, where no method ever reads. */
  function Word(img: seq<Byte>, a: nat): (w: nat)
  {
    if a + 4 <= |img| then
      img[a] as nat + 0x100 * img[a + 1] as nat + 0x1_0000 * img[a + 2] as nat + 0x100_0000 * img[a + 3] as nat
    else 0
  }

  function DentriesNum(img: seq<Byte>): nat { Word(img, 0) }

  function InodesNum(img: seq<Byte>): nat { Word(img, 4) }

  function BlocksNum(img: seq<Byte>): nat { Word(img, 8) }

  function FileLength(img: seq<Byte>, inode: nat): nat {
    Word(img, UNIT * (inode + 1))
  }

  function BlockNo(img: seq<Byte>, inode: nat, k: nat): nat {
    Word(img, UNIT * (inode + 1) + 4 + 4 * k)
  }

  function BlockAt(img: seq<Byte>, block: nat): nat {
    UNIT * (InodesNum(img) + 1 + block)
  }

  /** One boot block, then the inodes, then the data blocks, all below 4 GB. */
  predicate IsImage(img: seq<Byte>) {
    12 <= |img| <= 0x1_0000_0000 && |img| == UNIT * (1 + InodesNum(img) + BlocksNum(img))
  }

  /** The three regions do not overlap: addresses in different regions or blocks differ. */
  lemma RegionsDisjoint(img: seq<Byte>, entry: nat, i: nat, j: nat, b: nat, c: nat, x: nat, y: nat)
    requires IsImage(img) && entry < ENTRIES && i < InodesNum(img) && j < InodesNum(img)
    requires b < BlocksNum(img) && c < BlocksNum(img) && x < UNIT && y < UNIT
    ensures 64 + 64 * entry + 64 <= UNIT <= UNIT * (i + 1) + x < BlockAt(img, b) + y < |img|
    ensures UNIT * (i + 1) + x == UNIT * (j + 1) + y ==> i == j && x == y
    ensures BlockAt(img, b) + x == BlockAt(img, c) + y ==> b == c && x == y
  {}

  // ---- Flat files ----

  /** Byte `p` of a file. */
  function FileByte(img: seq<Byte>, inode: nat, p: nat): Byte {
    var a := BlockAt(img, BlockNo(img, inode, p / UNIT)) + p % UNIT;
    if a < |img| then img[a] else 0
  }

  lemma FileByteAt(img: seq<Byte>, inode: nat, k: nat, x: nat)
    requires x < UNIT && BlockAt(img, BlockNo(img, inode, k)) + x < |img|
    ensures FileByte(img, inode, k * UNIT + x) == img[BlockAt(img, BlockNo(img, inode, k)) + x]
  {}

  function Slice(img: seq<Byte>, inode: nat, offset: nat, n: nat): (s: seq<Byte>)
    ensures |s| == n
    ensures forall j {:trigger s[j]} :: 0 <= j < n ==> s[j] == FileByte(img, inode, offset + j)
  {
    seq<Byte>(n, j requires 0 <= j => FileByte(img, inode, offset + j))
  }

  function Contents(img: seq<Byte>, inode: nat): seq<Byte> {
    Slice(img, inode, 0, FileLength(img, inode))
  }

  /** The inode exists, its length fits its block table and its blocks exist. */
  ghost predicate WellFormedInode(img: seq<Byte>, inode: nat) {
    && inode < InodesNum(img) && FileLength(img, inode) <= MAX_BLOCKS * UNIT
    && forall k :: 0 <= k && k * UNIT < FileLength(img, inode) ==> BlockNo(img, inode, k) < BlocksNum(img)
  }

  // ---- read_data as a function ----

  /** The last block number looked at when reading `length` bytes from `offset`: the end-of-file test
      comes after the test of the next block. */
  function LastBlock(offset: nat, length: nat, fileLength: nat): nat
    requires offset < fileLength
  {
    (offset + if length == 0 then 0 else Min(length - 1, fileLength - offset)) / UNIT
  }

  ghost predicate BlocksOk(img: seq<Byte>, inode: nat, from: nat, to: nat) {
    forall k :: from <= k <= to ==> BlockNo(img, inode, k) < BlocksNum(img)
  }

  ghost predicate ReadFails(img: seq<Byte>, inode: nat, offset: nat, length: nat) {
    var fileLength := FileLength(img, inode);
    offset < fileLength &&
    (inode >= InodesNum(img) || !BlocksOk(img, inode, offset / UNIT, LastBlock(offset, length, fileLength)))
  }

  ghost function ReadCount(img: seq<Byte>, inode: nat, offset: nat, length: nat): int {
    var fileLength := FileLength(img, inode);
    if offset >= fileLength then 0
    else if ReadFails(img, inode, offset, length) then FAIL
    else Min(length, fileLength - offset)
  }

  /** The first number from `from` to `last` under which the table holds no block, or last + 1. */
  ghost function FirstMissing(img: seq<Byte>, inode: nat, from: nat, last: nat): (m: nat)
    requires from <= last + 1
    ensures from <= m <= last + 1 && (m <= last ==> BlockNo(img, inode, m) >= BlocksNum(img))
    ensures forall k :: from <= k < m ==> BlockNo(img, inode, k) < BlocksNum(img)
    decreases last + 1 - from
  {
    if from > last || BlockNo(img, inode, from) >= BlocksNum(img) then from
    else FirstMissing(img, inode, from + 1, last)
  }

  /** How many bytes a read puts into the buffer: all it reports, or what comes before the missing block. */
  ghost function StoredCount(img: seq<Byte>, inode: nat, offset: nat, length: nat): nat {
    var fileLength := FileLength(img, inode);
    if offset >= fileLength || inode >= InodesNum(img) then 0 else
      var last := LastBlock(offset, length, fileLength);
      var m := FirstMissing(img, inode, offset / UNIT, last);
      if m > last then Min(length, fileLength - offset)
      else if m == offset / UNIT then 0 else m * UNIT - offset
  }

  /** The bytes themselves. */
  ghost function StoredBytes(img: seq<Byte>, inode: nat, offset: nat, length: nat): (s: seq<Byte>)
    ensures |s| == StoredCount(img, inode, offset, length)
  {
    Slice(img, inode, offset, StoredCount(img, inode, offset, length))
  }

  /** As long as all blocks so far exist, the next byte is stored too. */
  lemma StoredMore(img: seq<Byte>, inode: nat, offset: nat, length: nat, i: nat, block: nat)
    requires inode < InodesNum(img) && i < length && offset + i < FileLength(img, inode)
    requires BlocksOk(img, inode, offset / UNIT, block) && block * UNIT <= offset + i < (block + 1) * UNIT
    ensures i < StoredCount(img, inode, offset, length)
  {
    hide Word, BlockNo;
    assert block == (offset + i) / UNIT;
  }

  lemma StoredAtMissing(img: seq<Byte>, inode: nat, offset: nat, length: nat, i: nat, block: nat)
    requires inode < InodesNum(img) && 0 < i < length && offset + i <= FileLength(img, inode)
    requires block * UNIT == offset + i
    requires BlocksOk(img, inode, offset / UNIT, block - 1) && BlockNo(img, inode, block) >= BlocksNum(img)
    ensures StoredCount(img, inode, offset, length) == i && ReadFails(img, inode, offset, length)
  {
    hide Word, BlockNo;
    assert block <= LastBlock(offset, length, FileLength(img, inode));
    assert FirstMissing(img, inode, offset / UNIT, LastBlock(offset, length, FileLength(img, inode))) == block;
  }

  lemma StoredAll(img: seq<Byte>, inode: nat, offset: nat, length: nat, block: nat)
    requires inode < InodesNum(img) && offset < FileLength(img, inode)
    requires BlocksOk(img, inode, offset / UNIT, block) && LastBlock(offset, length, FileLength(img, inode)) <= block
    ensures StoredCount(img, inode, offset, length) == Min(length, FileLength(img, inode) - offset)
    ensures !ReadFails(img, inode, offset, length)
  {
    hide Word, BlockNo;
  }

  lemma SliceMore(img: seq<Byte>, inode: nat, offset: nat, n: nat)
    ensures Slice(img, inode, offset, n + 1) == Slice(img, inode, offset, n) + [FileByte(img, inode, offset + n)]
  {
    hide FileByte;
  }

  lemma StoredBounds(img: seq<Byte>, inode: nat, offset: nat, length: nat)
    ensures StoredCount(img, inode, offset, length) <= length
    ensures var fileLength := FileLength(img, inode);
      StoredCount(img, inode, offset, length) <= if offset < fileLength then fileLength - offset else 0
    ensures var r := ReadCount(img, inode, offset, length);
      r == FAIL || StoredCount(img, inode, offset, length) == r
  {
    hide Word, BlockNo;
  }

  /** The one read that fails on a well-formed inode: past the end of a file that fills its last block
      when the next, unused entry of the block table is not a block number. */
  ghost predicate NextEntryOk(img: seq<Byte>, inode: nat) {
    FileLength(img, inode) % UNIT == 0 ==> BlockNo(img, inode, FileLength(img, inode) / UNIT) < BlocksNum(img)
  }

  lemma WellFormedReads(img: seq<Byte>, inode: nat, offset: nat, length: nat)
    requires WellFormedInode(img, inode)
    ensures ReadFails(img, inode, offset, length)
       <==> offset < FileLength(img, inode) < offset + length && !NextEntryOk(img, inode)
  {
    var n := FileLength(img, inode);
    if offset < n {
      var last := LastBlock(offset, length, n);
      if n < offset + length {
        assert last == n / UNIT;
        assert forall k :: offset / UNIT <= k < last ==> k * UNIT < n;
        assert n % UNIT != 0 ==> last * UNIT < n;
        assert n % UNIT == 0 ==> last * UNIT == n;
      } else {
        assert forall k :: offset / UNIT <= k <= last ==> k * UNIT < n;
      }
    }
  }

  /** Such an inode: one full block, and 5 where the number of a second block would be. */
  function FullBlockImage(): seq<Byte> {
    seq<Byte>(3 * UNIT, i =>
      if i == 4 || i == 8 then 1 else if i == UNIT + 1 then 16 else if i == UNIT + 8 then 5 else 0)
  }

  /** Reading 5000 bytes of this well-formed 4096-byte file fails, although 4096 bytes are there. */
  lemma FullLastBlockFails()
    ensures var img := FullBlockImage();
      && IsImage(img) && WellFormedInode(img, 0) && FileLength(img, 0) == UNIT
      && ReadCount(img, 0, 0, UNIT) == UNIT && ReadCount(img, 0, 0, 5000) == FAIL
  {
    var img := FullBlockImage();
    assert InodesNum(img) == 1 && BlocksNum(img) == 1;
    assert FileLength(img, 0) == UNIT && BlockNo(img, 0, 0) == 0 && BlockNo(img, 0, 1) == 5;
    hide FullBlockImage, Word;
    assert forall k :: 0 <= k && k * UNIT < UNIT ==> k == 0;
    WellFormedReads(img, 0, 0, UNIT);
    WellFormedReads(img, 0, 0, 5000);
  }

  // ---- Directory entries ----

  datatype Dentry = Dentry(name: seq<Byte>, filetype: nat, inode: nat)

  function EntryAt(e: nat): nat {
    64 + 64 * e
  }

  /** The name field of each of the 63 entries holds a NUL. */
  ghost predicate NamesEnd(img: seq<Byte>) {
    |img| >= UNIT && forall e {:trigger EntryAt(e)} :: 0 <= e < ENTRIES ==> NulWithin(img, EntryAt(e), 32)
  }

  ghost predicate NulWithin(img: seq<Byte>, at: nat, n: nat) {
    exists k :: at <= k < at + n && k < |img| && img[k] == 0
  }

  lemma NameEnds(img: seq<Byte>, e: nat)
    requires NamesEnd(img) && e < ENTRIES
    ensures Terminated(img, EntryAt(e)) && |CString(img, EntryAt(e))| <= 31
  {
    hide CString;
    assert NulWithin(img, EntryAt(e), 32);
    var k :| EntryAt(e) <= k < EntryAt(e) + 32 && k < |img| && img[k] == 0;
    var s := CString(img, EntryAt(e));
    forall j | EntryAt(e) <= j < EntryAt(e) + |s| ensures img[j] != 0 {
      assert s[j - EntryAt(e)] in s;
    }
  }

  ghost function NameOf(img: seq<Byte>, e: nat): seq<Byte>
    requires NamesEnd(img) && e < ENTRIES
  {
    NameEnds(img, e);
    CString(img, EntryAt(e))
  }

  ghost function Entry(img: seq<Byte>, e: nat): Dentry
    requires NamesEnd(img) && e < ENTRIES
  {
    Dentry(NameOf(img, e), Word(img, EntryAt(e) + 32), Word(img, EntryAt(e) + 36))
  }

  /** The first entry from `e` on with exactly this name, or -1. */
  ghost function FindFrom(img: seq<Byte>, fname: seq<Byte>, e: nat): (r: int)
    requires NamesEnd(img) && e <= ENTRIES
    ensures r == -1 || (e <= r < ENTRIES && NameOf(img, r) == fname)
    ensures forall i {:trigger NameOf(img, i)} :: e <= i < (if r == -1 then ENTRIES else r) ==> NameOf(img, i) != fname
    decreases ENTRIES - e
  {
    if e == ENTRIES then -1 else if NameOf(img, e) == fname then e else FindFrom(img, fname, e + 1)
  }

  /** A lookup: no file has the empty name. */
  ghost function Lookup(img: seq<Byte>, fname: seq<Byte>): (r: int)
    requires NamesEnd(img)
    ensures -1 <= r < ENTRIES
  {
    if fname == [] then -1 else FindFrom(img, fname, 0)
  }

  /** Lookup is exact: it succeeds if and only if some entry has this very name. */
  lemma LookupIsExact(img: seq<Byte>, fname: seq<Byte>)
    requires NamesEnd(img) && fname != []
    ensures Lookup(img, fname) != -1 <==> exists e: nat :: e < ENTRIES && NameOf(img, e) == fname
    ensures Lookup(img, fname) != -1 ==> |fname| <= 31
  {
    var r := FindFrom(img, fname, 0);
    if r != -1 {
      NameEnds(img, r);
      assert NameOf(img, r) == fname;
    }
  }

  // ---- Strings ----

  /** Character `i` of a C string given by its text; behind the text comes the NUL. */
  function CharAt(text: seq<Byte>, i: nat): Byte {
    if i < |text| then text[i] else 0
  }

  /** strncmp of the C string at `at` with `text`: zero exactly when the first `n` characters, or the
      whole strings if they are shorter, are the same. */
  method Strncmp(m: seq<Byte>, at: nat, text: seq<Byte>, n: nat) returns (r: int)
    requires Terminated(m, at) && 0 !in text
    ensures r == 0 <==> First(CString(m, at), n) == First(text, n)
  {
    hide CString, CharAt, First;
    ghost var str := CString(m, at);
    var i := 0;
    while i < n
      invariant 0 <= i <= n && i <= |str| && i <= |text| && str[..i] == text[..i]
    {
      CharIs(m, at, i);
      Mismatch(str, text, i, n);
      if m[at + i] != CharAt(text, i) || m[at + i] == 0 {
        return m[at + i] as int - CharAt(text, i) as int;
      }
      i := i + 1;
    }
    AgreeOnAll(str, text, n);
    return 0;
  }

  lemma CharIs(m: seq<Byte>, at: nat, i: nat)
    requires Terminated(m, at) && i <= |CString(m, at)|
    ensures at + i < |m| && m[at + i] == CharAt(CString(m, at), i)
  {
    hide CString;
    var s := CString(m, at);
    assert i < |s| ==> m[at..at + |s|][i] == m[at + i];
  }

  lemma AgreeOnAll(s: seq<Byte>, t: seq<Byte>, n: nat)
    requires n <= |s| && n <= |t| && s[..n] == t[..n]
    ensures First(s, n) == First(t, n)
  {
    assert s == s[..|s|] && t == t[..|t|];
  }

  /** Strings that agree up to `i` and differ or end there. */
  lemma Mismatch(s: seq<Byte>, t: seq<Byte>, i: nat, n: nat)
    requires i < n && i <= |s| && i <= |t| && s[..i] == t[..i] && 0 !in s && 0 !in t
    ensures CharAt(s, i) != CharAt(t, i) ==> First(s, n) != First(t, n)
    ensures CharAt(s, i) == CharAt(t, i) == 0 ==> First(s, n) == First(t, n)
    ensures CharAt(s, i) == CharAt(t, i) != 0 ==> i < |s| && i < |t| && s[..i + 1] == t[..i + 1]
  {
    assert i < |s| ==> s[i] in s;
    assert i < |t| ==> t[i] in t;
    if i < |s| {
      assert First(s, n)[i] == s[i];
    }
    if i < |t| {
      assert First(t, n)[i] == t[i];
    }
    if CharAt(s, i) == CharAt(t, i) {
      if CharAt(s, i) == 0 {
        assert s == s[..i] && t == t[..i];
      } else {
        assert s[..i + 1] == s[..i] + [s[i]] && t[..i + 1] == t[..i] + [t[i]];
      }
    }
  }

  /** Comparing as many characters as the longer string has is comparing the strings. */
  lemma CompareByLongerLength(s: seq<Byte>, t: seq<Byte>)
    ensures var n := if |t| > |s| then |t| else |s|; First(s, n) == First(t, n) <==> s == t
  {}

  // ---- The driver ----

  class FileSystem {
    const image: seq<Byte>
    const start: nat
    // my_boot_block and file_addr
    var dentriesNum: nat
    var inodesNum: nat
    var datablocksNum: nat
    var stInode: nat
    var stData: nat
    var dentries: nat
    var entryCounter: nat

    ghost predicate Valid()
      reads this
    {
      && IsImage(image) && NamesEnd(image) && start + |image| <= 0x1_0000_0000
      && dentriesNum == DentriesNum(image) && inodesNum == InodesNum(image) && datablocksNum == BlocksNum(image)
      && stInode == start + UNIT && stData == start + BlockAt(image, 0) && dentries == start + EntryAt(0)
    }

    constructor (image: seq<Byte>, start: nat)
      requires IsImage(image) && NamesEnd(image) && start + |image| <= 0x1_0000_0000
      ensures Valid() && this.image == image && this.start == start && entryCounter == 0
    {
      this.image, this.start := image, start;
      entryCounter := 0;
      new;
      var r := Init(start, start + |image|);
    }

    /** A 32-bit load from memory. */
    method Load(a: nat) returns (w: nat)
      requires start <= a && a + 4 <= start + |image|
      ensures w == Word(image, a - start)
    {
      w := Word(image, a - start);
    }

    /** filesystem_init() */
    method Init(fsStart: nat, fsEnd: nat) returns (r: int)
      requires fsStart == start && IsImage(image) && NamesEnd(image) && start + |image| <= 0x1_0000_0000
      modifies this
      ensures r == if fsStart == fsEnd then FAIL else 0
      ensures r == 0 ==> Valid() && entryCounter == 0
      ensures r == FAIL ==> unchanged(this)
    {
      if fsStart == fsEnd {
        return FAIL;
      }
      dentriesNum := Load(fsStart);
      inodesNum := Load(fsStart + 4);
      datablocksNum := Load(fsStart + 8);
      stInode := fsStart + UNIT;
      stData := fsStart + (inodesNum + 1) * UNIT;
      dentries := fsStart + ENTRIES + 1;
      entryCounter := 0;
      return 0;
    }

    /** The comparison in read_dentry_by_name: as many characters as the longer name has. */
    method NameMatches(e: nat, fname: seq<Byte>) returns (same: bool)
      requires Valid() && e < ENTRIES && 0 !in fname
      ensures same <==> NameOf(image, e) == fname
    {
      NameEnds(image, e);
      hide CString, NamesEnd, First;
      var at := dentries - start + 64 * e;
      var sizeFile := |fname|;
      var sizeDentry := Strlen(image, at);
      var size := if sizeFile > sizeDentry then sizeFile else sizeDentry;
      var r := Strncmp(image, at, fname, size);
      CompareByLongerLength(NameOf(image, e), fname);
      return r == 0;
    }

    /** read_dentry_by_name() */
    method ReadDentryByName(fname: seq<Byte>) returns (r: int, dentry: Dentry)
      requires Valid() && 0 !in fname
      ensures r == if Lookup(image, fname) == -1 then FAIL else 0
      ensures r == 0 ==> dentry == Entry(image, Lookup(image, fname))
    {
      hide NamesEnd, NameOf, IsImage;
      dentry := Dentry([], 0, 0);
      if |fname| <= 0 {
        return FAIL, dentry;
      }
      var i := 0;
      while i < ENTRIES
        invariant 0 <= i <= ENTRIES && FindFrom(image, fname, 0) == FindFrom(image, fname, i)
      {
        var same := NameMatches(i, fname);
        if same {
          dentry := CopyDentry(i);
          return 0, dentry;
        }
        i := i + 1;
      }
      return FAIL, dentry;
    }

    /** dentry_copy() */
    method CopyDentry(e: nat) returns (dentry: Dentry)
      requires Valid() && e < ENTRIES
      ensures dentry == Entry(image, e)
    {
      NameEnds(image, e);
      hide CString, NamesEnd, Word;
      var at := dentries - start + 64 * e;
      var len := Strlen(image, at);
      var filetype := Load(start + at + 32);
      var inode := Load(start + at + 36);
      dentry := Dentry(image[at..at + len], filetype, inode);
    }

    /** The check of one entry of the block table. */
    method BlockExists(inode: nat, k: nat) returns (ok: bool)
      requires Valid() && inode < inodesNum && k <= MAX_BLOCKS
      requires k == MAX_BLOCKS ==> 0 < datablocksNum
      ensures ok <==> BlockNo(image, inode, k) < BlocksNum(image)
    {
      var b := Load(stInode + UNIT * inode + 4 + 4 * k);
      ok := b < datablocksNum;
    }

    method DataAddress(inode: nat, k: nat) returns (a: nat)
      requires Valid() && inode < inodesNum && k <= MAX_BLOCKS && BlockNo(image, inode, k) < BlocksNum(image)
      ensures a == start + BlockAt(image, BlockNo(image, inode, k)) && a + UNIT <= start + |image|
    {
      var b := Load(stInode + UNIT * inode + 4 + 4 * k);
      a := stData + b * UNIT;
    }

    /** read_data(): `dest` is the caller's buffer in the memory `mem`. */
    method ReadData(inode: nat, offset: nat, mem: array<Byte>, dest: Buffer, length: nat) returns (r: int)
      requires Valid() && UNIT * (inode + 1) + 4 <= |image| && FileLength(image, inode) <= MAX_BLOCKS * UNIT
      requires dest.Fits(StoredCount(image, inode, offset, length), mem.Length)
      modifies mem
      ensures r == ReadCount(image, inode, offset, length)
      ensures mem[..] == StoreAll(old(mem[..]), dest, StoredBytes(image, inode, offset, length))
    {
      var fileLength := Load(stInode + UNIT * inode);
      if offset >= fileLength {
        return 0;
      }
      if inode >= inodesNum {
        return FAIL;
      }
      var ok := BlockExists(inode, offset / UNIT);
      if !ok {
        return FAIL;
      }
      r := CopyBlocks(inode, offset, mem, dest, length, fileLength);
    }

    /** The byte loop of read_data, entered in a block that exists. */
    method CopyBlocks(inode: nat, offset: nat, mem: array<Byte>, dest: Buffer, length: nat, fileLength: nat)
      returns (r: int)
      requires Valid() && inode < inodesNum && fileLength == FileLength(image, inode) <= MAX_BLOCKS * UNIT
      requires offset < fileLength && BlockNo(image, inode, offset / UNIT) < BlocksNum(image)
      requires dest.Fits(StoredCount(image, inode, offset, length), mem.Length)
      modifies mem
      ensures r == ReadCount(image, inode, offset, length)
      ensures mem[..] == StoreAll(old(mem[..]), dest, StoredBytes(image, inode, offset, length))
    {
      hide NamesEnd, Slice, FileByte, Word, StoredCount, ReadFails, FirstMissing, StoreAll;
      StoreNothing(mem[..], dest);
      assert Slice(image, inode, offset, 0) == [];
      var block, inBlock := offset / UNIT, offset % UNIT;
      var base := DataAddress(inode, block);
      var readAddr := base + inBlock;
      var i := 0;
      while i < length
        invariant 0 <= i <= length && i <= fileLength - offset
        invariant 0 <= inBlock <= UNIT && block * UNIT + inBlock == offset + i && (i > 0 || inBlock < UNIT)
        invariant BlocksOk(image, inode, offset / UNIT, block)
        invariant block <= MAX_BLOCKS && readAddr == start + BlockAt(image, BlockNo(image, inode, block)) + inBlock
        invariant mem[..] == StoreAll(old(mem[..]), dest, Slice(image, inode, offset, i))
      {
        if inBlock >= UNIT {
          inBlock := 0;
          block := block + 1;
          var ok := BlockExists(inode, block);
          if !ok {
            StoredAtMissing(image, inode, offset, length, i, block);
            return FAIL;
          }
          readAddr := DataAddress(inode, block);
        }
        if i + offset >= fileLength {
          StoredAll(image, inode, offset, length, block);
          return i;
        }
        FileByteAt(image, inode, block, inBlock);
        assert offset + i == block * UNIT + inBlock;
        StoredMore(image, inode, offset, length, i, block);
        SliceMore(image, inode, offset, i);
        StoreOneMore(old(mem[..]), dest, Slice(image, inode, offset, i), FileByte(image, inode, offset + i));
        mem[dest.Place(i)] := image[readAddr - start];
        inBlock := inBlock + 1;
        readAddr := readAddr + 1;
        i := i + 1;
      }
      StoredAll(image, inode, offset, length, block);
      return i;
    }

    /** file_read() */
    method FileRead(mem: array<Byte>, dest: Buffer, offset: nat, length: nat, name: seq<Byte>) returns (r: int)
      requires Valid() && 0 !in name && HasRoom(image, name, offset, length, dest, mem.Length)
      modifies mem
      ensures r == NamedReadCount(image, name, offset, length)
      ensures mem[..] == StoreAll(old(mem[..]), dest, NamedBytes(image, name, offset, length))
    {
      hide ReadCount, NamesEnd, StoredBytes, Entry, FindFrom, StoreAll, Word;
      StoreNothing(mem[..], dest);
      if length <= 0 {
        return FAIL;
      }
      var found, d := ReadDentryByName(name);
      if found == -1 {
        return FAIL;
      }
      r := ReadData(d.inode, offset, mem, dest, length);
    }

    /** file_load(): the whole file. */
    method FileLoad(name: seq<Byte>, mem: array<Byte>, dest: Buffer) returns (r: int)
      requires Valid() && 0 !in name && HasRoom(image, name, 0, LengthOf(image, name), dest, mem.Length)
      modifies mem
      ensures r == LoadCount(image, name)
      ensures mem[..] == StoreAll(old(mem[..]), dest, LoadedBytes(image, name))
    {
      hide ReadCount, NamesEnd, StoredBytes, Entry, FindFrom, StoreAll, Word;
      StoreNothing(mem[..], dest);
      if |name| == 0 {
        return FAIL;
      }
      var found, d := ReadDentryByName(name);
      if found == -1 {
        return FAIL;
      }
      var length := Load(stInode + UNIT * d.inode);
      StoredBounds(image, d.inode, 0, length);
      r := ReadData(d.inode, 0, mem, dest, length);
    }

    /** directory_read(): the next name, padded with NULs to 33 bytes; after the last one 0 and back to
        the first. */
    method DirectoryRead(buf: array<Byte>) returns (r: nat)
      requires Valid() && DentriesNum(image) <= ENTRIES && buf.Length >= 33
      modifies this`entryCounter, buf
      ensures Valid() && DirectoryStep(image, old(entryCounter)) == (NamePart(buf[..], r), entryCounter)
      ensures forall k :: r <= k < 33 ==> buf[k] == 0
      ensures forall k :: 33 <= k < buf.Length ==> buf[k] == old(buf[k])
    {
      hide NamesEnd, CString, IsImage;
      var i := 0;
      while i < 33
        modifies buf
        invariant 0 <= i <= 33 && forall k :: 0 <= k < i ==> buf[k] == 0
        invariant forall k :: 33 <= k < buf.Length ==> buf[k] == old(buf[k])
      {
        buf[i] := 0;
        i := i + 1;
      }
      if dentriesNum <= entryCounter {
        entryCounter := 0;
        assert NamePart(buf[..], 0) == [];
        return 0;
      }
      var d := CopyDentry(entryCounter);
      NameEnds(image, entryCounter);
      r := |d.name|;
      i := 0;
      while i < r
        modifies buf
        invariant 0 <= i <= r && buf[..i] == d.name[..i]
        invariant forall k :: i <= k < 33 ==> buf[k] == 0
        invariant forall k :: 33 <= k < buf.Length ==> buf[k] == old(buf[k])
      {
        buf[i] := d.name[i];
        i := i + 1;
      }
      assert NamePart(buf[..], r) == d.name;
      entryCounter := entryCounter + 1;
    }
  }

  function NamePart(buf: seq<Byte>, n: nat): seq<Byte> {
    if n <= |buf| then buf[..n] else []
  }

  /** One directory_read as a function of the entry counter: the name delivered and the next counter. */
  ghost function DirectoryStep(img: seq<Byte>, counter: nat): (seq<Byte>, nat)
    requires NamesEnd(img) && DentriesNum(img) <= ENTRIES
  {
    if DentriesNum(img) <= counter then ([], 0) else (NameOf(img, counter), counter + 1)
  }

  /** What `n` directory reads deliver, and the counter after them. */
  ghost function Listing(img: seq<Byte>, counter: nat, n: nat): (seq<seq<Byte>>, nat)
    requires NamesEnd(img) && DentriesNum(img) <= ENTRIES
  {
    if n == 0 then ([], counter) else
      var (names, c) := Listing(img, counter, n - 1);
      var (name, c') := DirectoryStep(img, c);
      (names + [name], c')
  }

  /** Reading from counter 0 lists every name once, in order, then an empty one, and starts over. */
  lemma {:induction false} ListingIsComplete(img: seq<Byte>, n: nat)
    requires NamesEnd(img) && n <= DentriesNum(img) <= ENTRIES
    ensures |Listing(img, 0, n).0| == n == Listing(img, 0, n).1
    ensures forall e :: 0 <= e < n ==> Listing(img, 0, n).0[e] == NameOf(img, e)
    ensures n == DentriesNum(img) ==> Listing(img, 0, n + 1) == (Listing(img, 0, n).0 + [[]], 0)
  {
    if n != 0 {
      ListingIsComplete(img, n - 1);
    }
  }

  // ---- Reads by name ----

  ghost function LengthOf(img: seq<Byte>, name: seq<Byte>): nat
    requires NamesEnd(img)
  {
    if Lookup(img, name) == -1 then 0 else FileLength(img, Entry(img, Lookup(img, name)).inode)
  }

  /** The memory a read by name needs: the inode inside the image, a place for every byte stored. */
  ghost predicate HasRoom(img: seq<Byte>, name: seq<Byte>, offset: nat, length: nat, dest: Buffer, size: nat)
    requires NamesEnd(img)
  {
    && dest.Fits(|NamedBytes(img, name, offset, length)|, size)
    && (Lookup(img, name) != -1 ==>
          var inode := Entry(img, Lookup(img, name)).inode;
          UNIT * (inode + 1) + 4 <= |img| && FileLength(img, inode) <= MAX_BLOCKS * UNIT)
  }

  ghost function NamedReadCount(img: seq<Byte>, name: seq<Byte>, offset: nat, length: nat): int
    requires NamesEnd(img)
  {
    if length == 0 || Lookup(img, name) == -1 then FAIL
    else ReadCount(img, Entry(img, Lookup(img, name)).inode, offset, length)
  }

  /** file_load's result. */
  ghost function LoadCount(img: seq<Byte>, name: seq<Byte>): int
    requires NamesEnd(img)
  {
    if Lookup(img, name) == -1 then FAIL
    else ReadCount(img, Entry(img, Lookup(img, name)).inode, 0, LengthOf(img, name))
  }

  /** What a read by name stores. */
  ghost function NamedBytes(img: seq<Byte>, name: seq<Byte>, offset: nat, length: nat): seq<Byte>
    requires NamesEnd(img)
  {
    if length == 0 || Lookup(img, name) == -1 then [] else
      StoredBytes(img, Entry(img, Lookup(img, name)).inode, offset, length)
  }

  /** What a load stores. */
  ghost function LoadedBytes(img: seq<Byte>, name: seq<Byte>): seq<Byte>
    requires NamesEnd(img)
  {
    NamedBytes(img, name, 0, LengthOf(img, name))
  }

  /** Never more than asked for or left; all that a successful read reports. */
  lemma NamedBounds(img: seq<Byte>, name: seq<Byte>, offset: nat, length: nat)
    requires NamesEnd(img)
    ensures |NamedBytes(img, name, offset, length)| <= length
    ensures |NamedBytes(img, name, offset, length)|
         <= if offset < LengthOf(img, name) then LengthOf(img, name) - offset else 0
    ensures var r := NamedReadCount(img, name, offset, length);
      r == FAIL || (Lookup(img, name) != -1 && |NamedBytes(img, name, offset, length)| == r)
  {
    hide NamesEnd, FindFrom, ReadCount, StoredCount, Slice, FileLength, NameOf;
    if Lookup(img, name) != -1 {
      StoredBounds(img, Entry(img, Lookup(img, name)).inode, offset, length);
    }
  }

  /** A load that does not fail is complete. */
  lemma LoadBounds(img: seq<Byte>, name: seq<Byte>)
    requires NamesEnd(img)
    ensures |LoadedBytes(img, name)| <= LengthOf(img, name)
    ensures LoadCount(img, name) != FAIL ==>
      Lookup(img, name) != -1 && LoadCount(img, name) == LengthOf(img, name) == |LoadedBytes(img, name)|
  {
    NamedBounds(img, name, 0, LengthOf(img, name));
    hide NamesEnd, FindFrom, ReadFails, Word, StoredCount, Slice;
  }
}
