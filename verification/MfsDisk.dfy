/** The on-disk format: typed blocks, where each structure lives, and what a file's inode means. */
module MfsDisk {
  import opened Bits

  type uint32 = x: int | 0 <= x < 0x1_0000_0000

  const BLOCK_SIZE := 16384
  const POINTERS := 4096          // entries of an index block
  const INODE_COUNT := 256
  const INODES_PER_BLOCK := 128
  const DIR_ENTRIES := 256
  const MAX_FILENAME := 31
  const ROOT_INODE := 1

  const SUPER_BLOCK := 0
  const BLOCK_BITMAP := 1
  const INODE_BITMAP := 2
  const INODE_TABLE := 3
  const ROOT_DIR := 5
  const FIRST_DATA := 6

  datatype Inode = Inode(inodeNo: uint32, size: uint32, blockCount: uint32, indexBlock: uint32)
  datatype DirEntry = DirEntry(inodeNo: uint32, name: string, used: bool)

  datatype Block =
    | Super(blockCount: uint32)
    | Bytes(bytes: seq<byte>)
    | Inodes(inodes: seq<Inode>)
    | Dir(entries: seq<DirEntry>)
    | Index(ptrs: seq<uint32>)

  type Disk = seq<Block>

  predicate IsBytes(b: Block) {
    b.Bytes? && |b.bytes| == BLOCK_SIZE
  }

  /** Every structure is where the format puts it. */
  predicate Layout(d: Disk) {
    && 128 <= |d| <= 4096
    && d[SUPER_BLOCK] == Super(|d|)
    && IsBytes(d[BLOCK_BITMAP]) && IsBytes(d[INODE_BITMAP])
    && d[INODE_TABLE].Inodes? && |d[INODE_TABLE].inodes| == INODES_PER_BLOCK
    && d[INODE_TABLE + 1].Inodes? && |d[INODE_TABLE + 1].inodes| == INODES_PER_BLOCK
    && d[ROOT_DIR].Dir? && |d[ROOT_DIR].entries| == DIR_ENTRIES
  }

  function BlockMap(d: Disk): seq<byte>
    requires Layout(d)
  {
    d[BLOCK_BITMAP].bytes
  }

  function InodeMap(d: Disk): seq<byte>
    requires Layout(d)
  {
    d[INODE_BITMAP].bytes
  }

  function Root(d: Disk): seq<DirEntry>
    requires Layout(d)
  {
    d[ROOT_DIR].entries
  }

  predicate IsInodeNo(n: int) {
    1 <= n <= INODE_COUNT
  }

  function InodeAt(d: Disk, n: int): Inode
    requires Layout(d) && IsInodeNo(n)
  {
    d[INODE_TABLE + (n - 1) / INODES_PER_BLOCK].inodes[(n - 1) % INODES_PER_BLOCK]
  }

  function PutInode(d: Disk, n: int, x: Inode): (e: Disk)
    requires Layout(d) && IsInodeNo(n)
    ensures Layout(e) && |e| == |d|
    ensures forall b :: 0 <= b < |d| && b != INODE_TABLE && b != INODE_TABLE + 1 ==> e[b] == d[b]
    ensures forall k :: IsInodeNo(k) ==> InodeAt(e, k) == if k == n then x else InodeAt(d, k)
  {
    var b := INODE_TABLE + (n - 1) / INODES_PER_BLOCK;
    d[b := Inodes(d[b].inodes[(n - 1) % INODES_PER_BLOCK := x])]
  }

  // ---- Files ----

  /** How many blocks hold `size` bytes. */
  function BlocksFor(size: nat): nat {
    (size + BLOCK_SIZE - 1) / BLOCK_SIZE
  }

  predicate IsDataBlock(d: Disk, b: int) {
    FIRST_DATA <= b < |d|
  }

  /** The inode describes a file whose blocks are all there. */
  predicate FileOk(d: Disk, x: Inode) {
    if x.indexBlock == 0 then x.size == 0 && x.blockCount == 0
    else
      && IsDataBlock(d, x.indexBlock) && d[x.indexBlock].Index? && |d[x.indexBlock].ptrs| == POINTERS
      && x.blockCount == BlocksFor(x.size) && x.blockCount <= POINTERS
      && (forall i :: 0 <= i < POINTERS ==> (d[x.indexBlock].ptrs[i] != 0 <==> i < x.blockCount))
      && forall i :: 0 <= i < x.blockCount ==>
           IsDataBlock(d, d[x.indexBlock].ptrs[i]) && IsBytes(d[d[x.indexBlock].ptrs[i]])
  }

  /** The blocks a file occupies: its index block, then its data blocks in order. */
  function BlocksOf(d: Disk, x: Inode): (bs: seq<nat>)
    requires FileOk(d, x)
    ensures |bs| == if x.indexBlock == 0 then 0 else 1 + x.blockCount
    ensures forall i :: 0 <= i < |bs| ==> IsDataBlock(d, bs[i])
  {
    if x.indexBlock == 0 then [] else [x.indexBlock] + d[x.indexBlock].ptrs[..x.blockCount]
  }

  lemma InBlock(size: nat, i: nat)
    requires i < size
    ensures i / BLOCK_SIZE < BlocksFor(size) && 0 <= i % BLOCK_SIZE < BLOCK_SIZE
  {
  }

  ghost function ByteAt(d: Disk, x: Inode, i: nat): byte
    requires FileOk(d, x) && i < x.size
  {
    InBlock(x.size, i);
    d[d[x.indexBlock].ptrs[i / BLOCK_SIZE]].bytes[i % BLOCK_SIZE]
  }

  /** What the file says. */
  ghost function Content(d: Disk, x: Inode): (c: seq<byte>)
    requires FileOk(d, x)
    ensures |c| == x.size && forall i :: 0 <= i < x.size ==> c[i] == ByteAt(d, x, i)
  {
    seq(x.size, i requires 0 <= i < x.size => ByteAt(d, x, i))
  }

  /** A file depends only on its own blocks. */
  lemma FileFrame(d: Disk, e: Disk, x: Inode)
    requires FileOk(d, x) && |e| == |d|
    requires forall i :: 0 <= i < |BlocksOf(d, x)| ==> e[BlocksOf(d, x)[i]] == d[BlocksOf(d, x)[i]]
    ensures FileOk(e, x) && BlocksOf(e, x) == BlocksOf(d, x) && Content(e, x) == Content(d, x)
  {
    var bs := BlocksOf(d, x);
    if x.indexBlock != 0 {
      assert bs[0] == x.indexBlock;
      forall i | 0 <= i < x.blockCount ensures e[d[x.indexBlock].ptrs[i]] == d[d[x.indexBlock].ptrs[i]] {
        assert bs[1 + i] == d[x.indexBlock].ptrs[i];
      }
      forall i | 0 <= i < x.size ensures ByteAt(e, x, i) == ByteAt(d, x, i) {
        InBlock(x.size, i);
      }
    }
  }

  // ---- The root directory ----

  predicate NameOk(name: string) {
    0 < |name| <= MAX_FILENAME && name != "." && name != ".." && '/' !in name
  }

  /** Slot `k` holds a file. Slots 0 and 1 are "." and "..". */
  predicate Live(d: Disk, k: int)
    requires Layout(d)
  {
    2 <= k < DIR_ENTRIES && Root(d)[k].used
  }

  predicate SlotOk(d: Disk, k: int)
    requires Layout(d) && Live(d, k)
  {
    var e := Root(d)[k];
    && NameOk(e.name) && 2 <= e.inodeNo <= INODE_COUNT
    && InodeAt(d, e.inodeNo).inodeNo == e.inodeNo && FileOk(d, InodeAt(d, e.inodeNo))
  }

  function FileAt(d: Disk, k: int): Inode
    requires Layout(d) && Live(d, k) && SlotOk(d, k)
  {
    InodeAt(d, Root(d)[k].inodeNo)
  }

  function SlotBlocks(d: Disk, k: int): seq<nat>
    requires Layout(d) && Live(d, k) && SlotOk(d, k)
  {
    BlocksOf(d, FileAt(d, k))
  }

  ghost predicate SlotsOk(d: Disk)
    requires Layout(d)
  {
    && Root(d)[0] == DirEntry(ROOT_INODE, ".", true) && Root(d)[1] == DirEntry(ROOT_INODE, "..", true)
    && (forall k :: Live(d, k) ==> SlotOk(d, k))
    && (forall k, l :: Live(d, k) && Live(d, l) && k != l ==>
          Root(d)[k].name != Root(d)[l].name && Root(d)[k].inodeNo != Root(d)[l].inodeNo)
  }

  /** No block belongs to two files, or twice to one. */
  ghost predicate Disjoint(d: Disk)
    requires Layout(d) && SlotsOk(d)
  {
    forall k, l, i, j ::
      (Live(d, k) && Live(d, l) && 0 <= i < |SlotBlocks(d, k)| && 0 <= j < |SlotBlocks(d, l)| &&
       SlotBlocks(d, k)[i] == SlotBlocks(d, l)[j])
      ==> k == l && i == j
  }

  ghost predicate Owned(d: Disk, b: int)
    requires Layout(d) && SlotsOk(d)
  {
    exists k :: Live(d, k) && b in SlotBlocks(d, k)
  }

  ghost predicate InodeInUse(d: Disk, n: int)
    requires Layout(d)
  {
    exists k :: Live(d, k) && Root(d)[k].inodeNo == n
  }

  /** A bit is set exactly when its block or inode is in use. */
  ghost predicate BitmapsOk(d: Disk)
    requires Layout(d) && SlotsOk(d)
  {
    && (forall b: nat :: b < 8 * BLOCK_SIZE ==> (GetBit(BlockMap(d), b) <==> b < FIRST_DATA || Owned(d, b)))
    && (forall i: nat :: i < 8 * BLOCK_SIZE ==> (GetBit(InodeMap(d), i) <==> i == 0 || InodeInUse(d, i + 1)))
  }

  /** The file-system invariant. */
  ghost predicate Consistent(d: Disk) {
    Layout(d) && SlotsOk(d) && Disjoint(d) && BitmapsOk(d)
  }
}
