/** What formatting and each file operation do to the disk, as functions on its value. */
module MfsOps {
  import opened CommonTypes
  import opened Bits
  import opened MfsDisk

  datatype Errno = EINVAL | ENAMETOOLONG | EEXIST | ENOENT | ENOSPC | EOPNOTSUPP | EFBIG
  datatype Result<T> = Ok(value: T) | Err(errno: Errno)

  function Zeros(n: nat): seq<byte> {
    seq(n, _ => 0)
  }

  const NO_INODE := Inode(0, 0, 0, 0)
  const NO_ENTRY := DirEntry(0, "", false)

  function NoInodes(): seq<Inode> {
    seq(INODES_PER_BLOCK, _ => NO_INODE)
  }

  function NoEntries(): seq<DirEntry> {
    seq(DIR_ENTRIES, _ => NO_ENTRY)
  }

  // ---- make_mfs ----

  function MarkFirst(bitmap: seq<byte>, n: nat): (r: seq<byte>)
    requires |bitmap| == BLOCK_SIZE && n <= FIRST_DATA
    ensures |r| == BLOCK_SIZE
  {
    if n == 0 then bitmap else SetBit(MarkFirst(bitmap, n - 1), n - 1, true)
  }

  /** What formatting writes over the first six blocks of a disk; the rest it leaves as it was. */
  function Format(d: Disk): (e: Disk)
    requires 128 <= |d| <= 4096
    ensures Layout(e) && |e| == |d|
  {
    var root := Inode(ROOT_INODE, 128, 1, ROOT_DIR);
    var dots := NoEntries()[0 := DirEntry(ROOT_INODE, ".", true)][1 := DirEntry(ROOT_INODE, "..", true)];
    [Super(|d|), Bytes(MarkFirst(Zeros(BLOCK_SIZE), FIRST_DATA)), Bytes(SetBit(Zeros(BLOCK_SIZE), 0, true)),
     Inodes(NoInodes()[0 := root]), Inodes(NoInodes()), Dir(dots)] + d[FIRST_DATA..]
  }

  // ---- Names ----

  /** The file name in a path of the root directory; "" for the root itself. */
  function PathName(path: string): Option<string> {
    if path == "/" then Some("")
    else if path == "" || path[0] != '/' || '/' in path[1..] then None
    else Some(path[1..])
  }

  /** The path of `name` in the root directory. */
  predicate IsPathOf(path: string, name: string) {
    path == "/" + name && '/' !in name
  }

  /** `path_name` finds the name, of whatever length, in exactly the paths that are a slash and a name without slashes. */
  lemma PathNameMeans(path: string)
    ensures forall name :: IsPathOf(path, name) <==> PathName(path) == Some(name)
    ensures PathName(path) == None <==> path == "" || path[0] != '/' || '/' in path[1..]
  {
    forall name ensures IsPathOf(path, name) <==> PathName(path) == Some(name) {
      NameAfterSlash(path, name);
    }
  }

  lemma NameAfterSlash(path: string, name: string)
    ensures IsPathOf(path, name) <==> PathName(path) == Some(name)
  {
    if path == "/" + name {
      assert path[1..] == name;
    }
    if PathName(path) == Some(name) {
      assert path == "/" + path[1..];
    }
  }

  /** The kernel resolves these two itself and never passes them down. */
  predicate DotPath(path: string) {
    path == "/." || path == "/.."
  }

  /** First used entry of that name, or the number of entries. */
  function FindEntry(es: seq<DirEntry>, name: string, from: nat): (k: nat)
    requires from <= |es|
    ensures from <= k <= |es|
    ensures k < |es| ==> es[k].used && es[k].name == name
    ensures forall i :: from <= i < k ==> !(es[i].used && es[i].name == name)
    decreases |es| - from
  {
    if from == |es| || (es[from].used && es[from].name == name) then from else FindEntry(es, name, from + 1)
  }

  function FindUnused(es: seq<DirEntry>, from: nat): (k: nat)
    requires from <= |es|
    ensures from <= k <= |es|
    ensures k < |es| ==> !es[k].used
    ensures forall i :: from <= i < k ==> es[i].used
    decreases |es| - from
  {
    if from == |es| || !es[from].used then from else FindUnused(es, from + 1)
  }

  /** First clear bit in a range, or its end. */
  function FirstClear(bitmap: seq<byte>, from: nat, end: nat): (b: nat)
    requires from <= end <= 8 * |bitmap|
    ensures from <= b <= end
    ensures b < end ==> !GetBit(bitmap, b)
    ensures forall i :: from <= i < b ==> GetBit(bitmap, i)
    decreases end - from
  {
    if from == end || !GetBit(bitmap, from) then from else FirstClear(bitmap, from + 1, end)
  }

  function FreeInode(d: Disk): (i: nat)
    requires Layout(d)
    ensures 1 <= i <= INODE_COUNT
  {
    FirstClear(InodeMap(d), 1, INODE_COUNT)
  }

  function FreeBlock(d: Disk): (b: nat)
    requires Layout(d)
    ensures FIRST_DATA <= b <= |d|
  {
    FirstClear(BlockMap(d), FIRST_DATA, |d|)
  }

  function MarkBlock(d: Disk, b: nat, value: bool): (e: Disk)
    requires Layout(d) && b < |d|
    ensures Layout(e) && |e| == |d|
  {
    d[BLOCK_BITMAP := Bytes(SetBit(BlockMap(d), b, value))]
  }

  function MarkInode(d: Disk, i: nat, value: bool): (e: Disk)
    requires Layout(d) && i < INODE_COUNT
    ensures Layout(e) && |e| == |d|
  {
    d[INODE_BITMAP := Bytes(SetBit(InodeMap(d), i, value))]
  }

  function PutEntry(d: Disk, k: nat, e: DirEntry): (r: Disk)
    requires Layout(d) && k < DIR_ENTRIES
    ensures Layout(r) && |r| == |d|
  {
    d[ROOT_DIR := Dir(Root(d)[k := e])]
  }

  // ---- create and unlink ----

  function Create(d: Disk, path: string): (Disk, Result<()>)
    requires Layout(d)
  {
    match PathName(path)
    case None => (d, Err(EINVAL))
    case Some(name) =>
      if name == "" then (d, Err(EINVAL))
      else if |name| > MAX_FILENAME then (d, Err(ENAMETOOLONG))
      else if FindEntry(Root(d), name, 0) < DIR_ENTRIES then (d, Err(EEXIST))
      else
        var k := FindUnused(Root(d), 2);
        if k == DIR_ENTRIES then (d, Err(ENOSPC))
        else if FreeInode(d) == INODE_COUNT then (d, Err(ENOSPC))
        else (AddFile(d, k, name, FreeInode(d)), Ok(()))
  }

  /** A new empty file in slot `k`, described by inode `i + 1`. */
  function AddFile(d: Disk, k: nat, name: string, i: nat): (e: Disk)
    requires Layout(d) && k < DIR_ENTRIES && 1 <= i < INODE_COUNT
    ensures Layout(e) && |e| == |d|
  {
    PutEntry(PutInode(MarkInode(d, i, true), i + 1, Inode(i + 1, 0, 0, 0)), k, DirEntry(i + 1, name, true))
  }

  /** Frees each block in turn. `free_block` ignores numbers outside the data region. */
  function FreeAll(d: Disk, bs: seq<nat>): (e: Disk)
    requires Layout(d)
    ensures Layout(e) && |e| == |d|
    decreases |bs|
  {
    if bs == [] then d
    else FreeAll(if IsDataBlock(d, bs[0]) then MarkBlock(d, bs[0], false) else d, bs[1..])
  }

  function Unlink(d: Disk, path: string): (Disk, Result<()>)
    requires Layout(d) && SlotsKnown(d)
  {
    match PathName(path)
    case None => (d, Err(EINVAL))
    case Some(name) =>
      var k := FindEntry(Root(d), name, 0);
      if name == "" then (d, Err(EINVAL))
      else if k == DIR_ENTRIES then (d, Err(ENOENT))
      else if !Live(d, k) then (d, Err(ENOENT))
      else (RemoveFile(d, k), Ok(()))
  }

  /** Every live slot can be followed to its file. */
  ghost predicate SlotsKnown(d: Disk)
    requires Layout(d)
  {
    forall k :: Live(d, k) ==> SlotOk(d, k)
  }

  /** Data blocks are freed first, then the index block. */
  function FreeOrder(d: Disk, x: Inode): seq<nat>
    requires FileOk(d, x)
  {
    if x.indexBlock == 0 then [] else d[x.indexBlock].ptrs[..x.blockCount] + [x.indexBlock]
  }

  function RemoveFile(d: Disk, k: nat): (e: Disk)
    requires Layout(d) && Live(d, k) && SlotOk(d, k)
    ensures Layout(e) && |e| == |d|
  {
    var n := Root(d)[k].inodeNo;
    var freed := FreeAll(d, FreeOrder(d, FileAt(d, k)));
    MarkInode(PutInode(PutEntry(freed, k, NO_ENTRY), n, Inode(n, 0, 0, 0)), n - 1, false)
  }

  // ---- write ----

  function Splice(bytes: seq<byte>, at: nat, chunk: seq<byte>): (r: seq<byte>)
    requires at + |chunk| <= |bytes|
    ensures |r| == |bytes|
  {
    bytes[..at] + chunk + bytes[at + |chunk|..]
  }

  /** How much of `buf` goes into the block that holds byte `size`. */
  function ChunkSize(size: nat, buf: seq<byte>): (n: nat)
    requires buf != []
    ensures 0 < n <= |buf| && size % BLOCK_SIZE + n <= BLOCK_SIZE
  {
    var room := BLOCK_SIZE - size % BLOCK_SIZE;
    if room > |buf| then |buf| else room
  }

  /** An inode whose index block can be followed. */
  predicate Indexed(d: Disk, n: int)
    requires Layout(d)
  {
    IsInodeNo(n) &&
    var ib := InodeAt(d, n).indexBlock;
    IsDataBlock(d, ib) && d[ib].Index? && |d[ib].ptrs| == POINTERS && InodeAt(d, n).blockCount <= POINTERS &&
    forall i :: 0 <= i < POINTERS && d[ib].ptrs[i] != 0 ==> IsDataBlock(d, d[ib].ptrs[i]) && IsBytes(d[d[ib].ptrs[i]])
  }

  datatype Step = Stop(errno: Errno) | Next(disk: Disk, taken: nat)

  /** Writes `chunk` into block `b` after the file's last byte. */
  function FillTail(d: Disk, n: int, b: nat, chunk: seq<byte>): (e: Disk)
    requires Layout(d) && IsInodeNo(n) && IsDataBlock(d, b) && IsBytes(d[b])
    requires InodeAt(d, n).size % BLOCK_SIZE + |chunk| <= BLOCK_SIZE && InodeAt(d, n).size + |chunk| < 0x1_0000_0000
    ensures Layout(e) && |e| == |d|
  {
    var x := InodeAt(d, n);
    PutInode(d[b := Bytes(Splice(d[b].bytes, x.size % BLOCK_SIZE, chunk))], n, x.(size := x.size + |chunk|))
  }

  /** Writes `chunk` into the newly allocated block `b` and enters it in the index. */
  function AddBlock(d: Disk, n: int, b: nat, chunk: seq<byte>): (e: Disk)
    requires Layout(d) && IsInodeNo(n) && IsDataBlock(d, b)
    requires var x := InodeAt(d, n);
             && x.size % BLOCK_SIZE + |chunk| <= BLOCK_SIZE && x.size + |chunk| < 0x1_0000_0000
             && x.blockCount <= POINTERS && x.size / BLOCK_SIZE < POINTERS
             && IsDataBlock(d, x.indexBlock) && d[x.indexBlock].Index? && |d[x.indexBlock].ptrs| == POINTERS
    ensures Layout(e) && |e| == |d|
  {
    var x := InodeAt(d, n);
    var ptrs := d[x.indexBlock].ptrs[x.size / BLOCK_SIZE := b];
    var filled := Bytes(Splice(Zeros(BLOCK_SIZE), x.size % BLOCK_SIZE, chunk));
    PutInode(MarkBlock(d, b, true)[b := filled][x.indexBlock := Index(ptrs)],
             n, x.(size := x.size + |chunk|, blockCount := x.blockCount + 1))
  }

  /** One turn of the write loop: fill the tail block, or allocate the next one. */
  function AppendStep(d: Disk, n: int, buf: seq<byte>): (s: Step)
    requires Layout(d) && Indexed(d, n) && buf != []
    ensures s.Next? ==> 0 < s.taken <= |buf| && Layout(s.disk) && |s.disk| == |d|
  {
    var x := InodeAt(d, n);
    var ptrs := d[x.indexBlock].ptrs;
    var i := x.size / BLOCK_SIZE;
    var take := ChunkSize(x.size, buf);
    if i >= POINTERS then Stop(EFBIG)
    else if ptrs[i] != 0 then Next(FillTail(d, n, ptrs[i], buf[..take]), take)
    else if FreeBlock(d) == |d| then Stop(ENOSPC)
    else Next(AddBlock(d, n, FreeBlock(d), buf[..take]), take)
  }

  /** Gives inode `n` the empty index block `b`. */
  function GiveIndex(d: Disk, n: int, b: nat): (e: Disk)
    requires Layout(d) && IsInodeNo(n) && IsDataBlock(d, b)
    ensures Layout(e) && |e| == |d|
  {
    PutInode(MarkBlock(d, b, true)[b := Index(NoPointers())], n, InodeAt(d, n).(indexBlock := b))
  }

  function NoPointers(): seq<uint32> {
    seq(POINTERS, _ => 0)
  }
}
