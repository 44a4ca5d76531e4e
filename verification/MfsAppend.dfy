/** Appending: each turn of the write loop extends the file by exactly the chunk it took. */
module MfsAppend {
  import opened Bits
  import opened MfsDisk
  import opened MfsOps
  import opened MfsInvariant
  import opened Counting

  /** A live file that has its index block, seen from its inode number. */
  ghost predicate Appendable(d: Disk, k: int) {
    Consistent(d) && Live(d, k) && FileAt(d, k).indexBlock != 0
  }

  lemma AppendableIsIndexed(d: Disk, k: int)
    requires Appendable(d, k)
    ensures Indexed(d, Root(d)[k].inodeNo) && InodeAt(d, Root(d)[k].inodeNo) == FileAt(d, k)
    ensures SlotBlocks(d, k)[0] == FileAt(d, k).indexBlock
    ensures forall i :: 0 <= i < FileAt(d, k).blockCount ==>
              SlotBlocks(d, k)[1 + i] == d[FileAt(d, k).indexBlock].ptrs[i]
  {
  }

  /** The byte after the last is in an allocated block exactly when the last block is not full. */
  lemma TailBlock(size: nat)
    ensures size / BLOCK_SIZE < BlocksFor(size) <==> size % BLOCK_SIZE != 0
    ensures size % BLOCK_SIZE == 0 ==> size / BLOCK_SIZE == BlocksFor(size)
  {
  }

  lemma AfterChunk(size: nat, take: nat)
    requires 0 < take && size % BLOCK_SIZE + take <= BLOCK_SIZE
    ensures BlocksFor(size + take) == BlocksFor(size) + if size % BLOCK_SIZE == 0 then 1 else 0
    ensures size / BLOCK_SIZE < BlocksFor(size + take)
  {
  }

  /** Where byte `j` of the longer file is: in an untouched block, before the chunk, or in it. */
  lemma PlaceOf(size: nat, take: nat, j: nat)
    requires size % BLOCK_SIZE + take <= BLOCK_SIZE && j < size + take
    ensures j / BLOCK_SIZE <= size / BLOCK_SIZE
    ensures j < size ==> (j / BLOCK_SIZE == size / BLOCK_SIZE ==> j % BLOCK_SIZE < size % BLOCK_SIZE)
    ensures j >= size ==> j / BLOCK_SIZE == size / BLOCK_SIZE && j % BLOCK_SIZE == size % BLOCK_SIZE + (j - size)
  {
  }

  /** `e` describes the same file as `d`, with `chunk` written after its end. */
  lemma ContentExtended(d: Disk, e: Disk, x: Inode, y: Inode, chunk: seq<byte>)
    requires FileOk(d, x) && FileOk(e, y) && |e| == |d| && x.indexBlock != 0 && y.indexBlock == x.indexBlock
    requires chunk != [] && x.size % BLOCK_SIZE + |chunk| <= BLOCK_SIZE && y.size == x.size + |chunk|
    requires x.size / BLOCK_SIZE < POINTERS
    requires var i, p, q := x.size / BLOCK_SIZE, d[x.indexBlock].ptrs, e[x.indexBlock].ptrs;
             && (forall m :: 0 <= m < i ==> q[m] == p[m] && e[p[m]] == d[p[m]])
             && IsDataBlock(e, q[i]) && IsBytes(e[q[i]])
             && (forall o :: 0 <= o < |chunk| ==> e[q[i]].bytes[x.size % BLOCK_SIZE + o] == chunk[o])
             && (x.size % BLOCK_SIZE != 0 ==> q[i] == p[i])
             && (forall o :: 0 <= o < x.size % BLOCK_SIZE ==> e[q[i]].bytes[o] == d[p[i]].bytes[o])
    ensures Content(e, y) == Content(d, x) + chunk
  {
    forall j | 0 <= j < y.size ensures ByteAt(e, y, j) == (Content(d, x) + chunk)[j] {
      PlaceOf(x.size, |chunk|, j);
      InBlock(y.size, j);
      if j < x.size {
        InBlock(x.size, j);
        assert ByteAt(e, y, j) == ByteAt(d, x, j);
      }
    }
  }

  ghost predicate Appended(d: Disk, e: Disk, k: int, chunk: seq<byte>) {
    && Appendable(d, k) && Appendable(e, k) && OthersKept(d, e, k) && Root(e) == Root(d)
    && FileAt(e, k).indexBlock == FileAt(d, k).indexBlock
    && Content(e, FileAt(e, k)) == Content(d, FileAt(d, k)) + chunk
  }

  // ---- The tail block has room ----

  /** The block that holds the last, partial, stretch of the file. */
  function TailOf(d: Disk, x: Inode): (b: nat)
    requires FileOk(d, x) && x.size % BLOCK_SIZE != 0
    ensures IsDataBlock(d, b) && IsBytes(d[b]) && x.indexBlock != 0
    ensures b == BlocksOf(d, x)[1 + x.size / BLOCK_SIZE]
  {
    TailBlock(x.size);
    d[x.indexBlock].ptrs[x.size / BLOCK_SIZE]
  }

  ghost predicate Fillable(d: Disk, k: int, chunk: seq<byte>) {
    && Consistent(d) && Live(d, k) && chunk != []
    && FileAt(d, k).size % BLOCK_SIZE != 0 && FileAt(d, k).size % BLOCK_SIZE + |chunk| <= BLOCK_SIZE
  }

  ghost function Filled(d: Disk, k: int, chunk: seq<byte>): (e: Disk)
    requires Fillable(d, k, chunk)
    ensures Layout(e) && |e| == |d|
  {
    FillTail(d, Root(d)[k].inodeNo, TailOf(d, FileAt(d, k)), chunk)
  }

  lemma FilledParts(d: Disk, k: int, chunk: seq<byte>)
    requires Fillable(d, k, chunk)
    ensures var e, x, b := Filled(d, k, chunk), FileAt(d, k), TailOf(d, FileAt(d, k));
            && Root(e) == Root(d) && BlockMap(e) == BlockMap(d) && InodeMap(e) == InodeMap(d)
            && (forall c :: FIRST_DATA <= c < |d| && c != b ==> e[c] == d[c])
            && e[b] == Bytes(Splice(d[b].bytes, x.size % BLOCK_SIZE, chunk))
            && InodeAt(e, Root(d)[k].inodeNo) == x.(size := x.size + |chunk|)
            && (forall n :: IsInodeNo(n) && n != Root(d)[k].inodeNo ==> InodeAt(e, n) == InodeAt(d, n))
  {
  }

  lemma OnlyInSlot(d: Disk, k: int, m: nat)
    requires Consistent(d) && Live(d, k) && m < |SlotBlocks(d, k)|
    ensures forall l, i :: Live(d, l) && 0 <= i < |SlotBlocks(d, l)| && SlotBlocks(d, l)[i] == SlotBlocks(d, k)[m]
              ==> l == k && i == m
  {
  }

  /** One file by itself: its tail block is overwritten from the end of the file on. */
  lemma FileWithTailFilled(d: Disk, e: Disk, x: Inode, chunk: seq<byte>)
    requires FileOk(d, x) && |e| == |d| && chunk != []
    requires x.size % BLOCK_SIZE != 0 && x.size % BLOCK_SIZE + |chunk| <= BLOCK_SIZE
    requires forall c :: FIRST_DATA <= c < |d| && c != TailOf(d, x) ==> e[c] == d[c]
    requires e[TailOf(d, x)] == Bytes(Splice(d[TailOf(d, x)].bytes, x.size % BLOCK_SIZE, chunk))
    requires forall m :: 0 <= m < |BlocksOf(d, x)| && BlocksOf(d, x)[m] == TailOf(d, x) ==> m == 1 + x.size / BLOCK_SIZE
    ensures x.size + |chunk| < 0x1_0000_0000
    ensures var y := x.(size := x.size + |chunk|);
            FileOk(e, y) && BlocksOf(e, y) == BlocksOf(d, x) && Content(e, y) == Content(d, x) + chunk
  {
    var i := x.size / BLOCK_SIZE;
    AfterChunk(x.size, |chunk|);
    TailBlock(x.size);
    assert BlocksOf(d, x)[0] == x.indexBlock;
    forall m | 0 <= m < x.blockCount && m != i ensures e[d[x.indexBlock].ptrs[m]] == d[d[x.indexBlock].ptrs[m]] {
      assert BlocksOf(d, x)[1 + m] == d[x.indexBlock].ptrs[m];
    }
    ContentExtended(d, e, x, x.(size := x.size + |chunk|), chunk);
  }

  /** Same directory, same bitmaps, same blocks in the slot: the bits are right for it. */
  lemma SameBitsFor(d: Disk, e: Disk, k: int)
    requires Consistent(d) && Layout(e) && Live(d, k) && Root(e) == Root(d) && SlotOk(e, k)
    requires SlotBlocks(e, k) == SlotBlocks(d, k) && BlockMap(e) == BlockMap(d) && InodeMap(e) == InodeMap(d)
    ensures BitsFor(d, e, k)
  {
    OwnIsNotOthers(d, k);
  }

  lemma FitsWithSame(d: Disk, e: Disk, k: int)
    requires Consistent(d) && Layout(e) && Live(d, k) && Root(e) == Root(d) && SlotOk(e, k)
    requires SlotBlocks(e, k) == SlotBlocks(d, k)
    ensures FitsIn(d, e, k)
  {
    OwnIsNotOthers(d, k);
  }

  lemma FillTailAppends(d: Disk, k: int, chunk: seq<byte>)
    requires Fillable(d, k, chunk)
    ensures Appended(d, Filled(d, k, chunk), k, chunk)
    ensures FileAt(Filled(d, k, chunk), k) == FileAt(d, k).(size := FileAt(d, k).size + |chunk|)
    ensures BlockMap(Filled(d, k, chunk)) == BlockMap(d)
  {
    hide BitmapsOk, Disjoint, Filled, BitsFor;
    var e := Filled(d, k, chunk);
    FilledParts(d, k, chunk);
    OnlyInSlot(d, k, 1 + FileAt(d, k).size / BLOCK_SIZE);
    assert SlotBlocks(d, k) == BlocksOf(d, FileAt(d, k));
    FileWithTailFilled(d, e, FileAt(d, k), chunk);
    assert SlotBlocks(e, k) == SlotBlocks(d, k);
    assert OthersKept(d, e, k);
    SameBitsFor(d, e, k);
    FitsWithSame(d, e, k);
    OneSlotChanged(d, e, k);
  }

  // ---- A new block has to be found ----

  /** The last block is full, and `b` is free. */
  ghost predicate Growable(d: Disk, k: int, b: nat, chunk: seq<byte>) {
    && Appendable(d, k) && chunk != [] && |chunk| <= BLOCK_SIZE
    && FileAt(d, k).size % BLOCK_SIZE == 0 && FileAt(d, k).blockCount < POINTERS
    && IsDataBlock(d, b) && !GetBit(BlockMap(d), b)
  }

  ghost function Grown(d: Disk, k: int, b: nat, chunk: seq<byte>): (e: Disk)
    requires Growable(d, k, b, chunk)
    ensures Layout(e) && |e| == |d|
  {
    TailBlock(FileAt(d, k).size);
    AddBlock(d, Root(d)[k].inodeNo, b, chunk)
  }

  lemma GrownParts(d: Disk, k: int, b: nat, chunk: seq<byte>)
    requires Growable(d, k, b, chunk)
    ensures var e, x := Grown(d, k, b, chunk), FileAt(d, k);
            && Root(e) == Root(d) && InodeMap(e) == InodeMap(d) && BlockMap(e) == SetBit(BlockMap(d), b, true)
            && b != x.indexBlock
            && (forall c :: FIRST_DATA <= c < |d| && c != b && c != x.indexBlock ==> e[c] == d[c])
            && e[b] == Bytes(Splice(Zeros(BLOCK_SIZE), 0, chunk))
            && e[x.indexBlock] == Index(d[x.indexBlock].ptrs[x.blockCount := b])
            && InodeAt(e, Root(d)[k].inodeNo) == x.(size := x.size + |chunk|, blockCount := x.blockCount + 1)
            && (forall n :: IsInodeNo(n) && n != Root(d)[k].inodeNo ==> InodeAt(e, n) == InodeAt(d, n))
  {
    FreeIsUnowned(d, b);
    AppendableIsIndexed(d, k);
    TailBlock(FileAt(d, k).size);
  }

  lemma FileGrown(d: Disk, e: Disk, x: Inode, b: nat, chunk: seq<byte>)
    requires FileOk(d, x) && |e| == |d| && chunk != [] && x.indexBlock != 0 && |chunk| <= BLOCK_SIZE
    requires x.size % BLOCK_SIZE == 0 && x.blockCount < POINTERS && IsDataBlock(d, b) && |d| <= 4096
    requires forall c :: FIRST_DATA <= c < |d| && c != b && c != x.indexBlock ==> e[c] == d[c]
    requires e[b] == Bytes(Splice(Zeros(BLOCK_SIZE), 0, chunk))
    requires e[x.indexBlock] == Index(d[x.indexBlock].ptrs[x.blockCount := b])
    requires b !in BlocksOf(d, x)
    requires forall m :: 0 <= m < x.blockCount ==> d[x.indexBlock].ptrs[m] != x.indexBlock
    ensures x.size + |chunk| < 0x1_0000_0000
    ensures var y := x.(size := x.size + |chunk|, blockCount := x.blockCount + 1);
            FileOk(e, y) && BlocksOf(e, y) == BlocksOf(d, x) + [b] && Content(e, y) == Content(d, x) + chunk
  {
    AfterChunk(x.size, |chunk|);
    TailBlock(x.size);
    var y := x.(size := x.size + |chunk|, blockCount := x.blockCount + 1);
    var p, q := d[x.indexBlock].ptrs, e[x.indexBlock].ptrs;
    forall m | 0 <= m < x.blockCount ensures q[m] == p[m] && e[p[m]] == d[p[m]] {
      assert BlocksOf(d, x)[1 + m] == p[m];
    }
    assert q[..y.blockCount] == p[..x.blockCount] + [b];
    assert FileOk(e, y);
    ContentExtended(d, e, x, y, chunk);
  }

  lemma GrownBits(d: Disk, k: int, b: nat, chunk: seq<byte>)
    requires Growable(d, k, b, chunk)
    ensures forall c: nat :: c < 8 * BLOCK_SIZE ==>
              GetBit(BlockMap(Grown(d, k, b, chunk)), c) == (c == b || GetBit(BlockMap(d), c))
  {
    GrownParts(d, k, b, chunk);
    forall c: nat | c < 8 * BLOCK_SIZE
      ensures GetBit(BlockMap(Grown(d, k, b, chunk)), c) == (c == b || GetBit(BlockMap(d), c))
    {
      SetThenGet(BlockMap(d), b, true, c);
    }
  }

  lemma GrownSlot(d: Disk, k: int, b: nat, chunk: seq<byte>)
    requires Growable(d, k, b, chunk)
    ensures var e, x := Grown(d, k, b, chunk), FileAt(d, k);
            && Live(e, k) && SlotOk(e, k) && SlotBlocks(e, k) == SlotBlocks(d, k) + [b]
            && FileAt(e, k) == x.(size := x.size + |chunk|, blockCount := x.blockCount + 1)
            && Content(e, FileAt(e, k)) == Content(d, x) + chunk
            && OthersKept(d, e, k)
  {
    var e, x := Grown(d, k, b, chunk), FileAt(d, k);
    GrownParts(d, k, b, chunk);
    FreeIsUnowned(d, b);
    AppendableIsIndexed(d, k);
    OnlyInSlot(d, k, 0);
    assert SlotBlocks(d, k) == BlocksOf(d, x);
    FileGrown(d, e, x, b, chunk);
  }

  lemma GrownFits(d: Disk, k: int, b: nat, chunk: seq<byte>)
    requires Growable(d, k, b, chunk)
    ensures BitsFor(d, Grown(d, k, b, chunk), k) && FitsIn(d, Grown(d, k, b, chunk), k)
    ensures Root(Grown(d, k, b, chunk)) == Root(d)
  {
    hide Grown;
    GrownSlot(d, k, b, chunk);
    OwnIsNotOthers(d, k);
    FreeIsUnowned(d, b);
    GrownParts(d, k, b, chunk);
    GrownBits(d, k, b, chunk);
  }

  lemma GrowAppends(d: Disk, k: int, b: nat, chunk: seq<byte>)
    requires Growable(d, k, b, chunk)
    ensures Appended(d, Grown(d, k, b, chunk), k, chunk)
    ensures FileAt(Grown(d, k, b, chunk), k) ==
            FileAt(d, k).(size := FileAt(d, k).size + |chunk|, blockCount := FileAt(d, k).blockCount + 1)
  {
    hide Grown, BitsFor, FitsIn, OthersKept;
    GrownSlot(d, k, b, chunk);
    GrownFits(d, k, b, chunk);
    OneSlotChanged(d, Grown(d, k, b, chunk), k);
  }

  // ---- The write loop ----

  /** On a disk of at most 4096 blocks the index block never fills up. */
  lemma IndexHasRoom(d: Disk, k: int)
    requires Appendable(d, k)
    ensures FileAt(d, k).blockCount < POINTERS
  {
    OwnIsNotOthers(d, k);
    DistinctFit(SlotBlocks(d, k), FIRST_DATA, |d|);
  }

  ghost function FreeSet(d: Disk): set<nat>
    requires Layout(d)
  {
    set b: nat | FIRST_DATA <= b < |d| && !GetBit(BlockMap(d), b)
  }

  /** What one turn of the loop does to a consistent disk. */
  lemma AppendStepAppends(d: Disk, k: int, buf: seq<byte>)
    requires Appendable(d, k) && buf != []
    ensures Indexed(d, Root(d)[k].inodeNo)
    ensures var s, x := AppendStep(d, Root(d)[k].inodeNo, buf), FileAt(d, k);
            match s
            case Stop(e) => e == ENOSPC && x.size % BLOCK_SIZE == 0 && FreeSet(d) == {}
            case Next(e, t) =>
              && t == ChunkSize(x.size, buf) && Appended(d, e, k, buf[..t]) && FileAt(e, k).size == x.size + t
              && (x.size % BLOCK_SIZE != 0 ==> FreeSet(e) == FreeSet(d))
              && (x.size % BLOCK_SIZE == 0 ==> FreeBlock(d) in FreeSet(d) && FreeSet(e) == FreeSet(d) - {FreeBlock(d)})
  {
    hide Disjoint, BitmapsOk, OthersKept;
    var x, n := FileAt(d, k), Root(d)[k].inodeNo;
    AppendableIsIndexed(d, k);
    IndexHasRoom(d, k);
    TailBlock(x.size);
    var chunk := buf[..ChunkSize(x.size, buf)];
    if x.size % BLOCK_SIZE != 0 {
      FillTailAppends(d, k, chunk);
    } else if FreeBlock(d) < |d| {
      GrowAppends(d, k, FreeBlock(d), chunk);
      GrownBits(d, k, FreeBlock(d), chunk);
    }
  }

  /** The whole loop: the disk it leaves and how many bytes it wrote. */
  ghost function Append(d: Disk, k: int, buf: seq<byte>): (r: (Disk, nat))
    requires Appendable(d, k)
    ensures r.1 <= |buf| && Layout(r.0)
    decreases |buf|
  {
    if buf == [] then (d, 0)
    else
      AppendStepAppends(d, k, buf);
      match AppendStep(d, Root(d)[k].inodeNo, buf)
      case Stop(_) => (d, 0)
      case Next(e, t) => var r := Append(e, k, buf[t..]); (r.0, t + r.1)
  }

  lemma AppendedTwice(d: Disk, e: Disk, f: Disk, k: int, a: seq<byte>, b: seq<byte>)
    requires Appended(d, e, k, a) && Appended(e, f, k, b)
    ensures Appended(d, f, k, a + b)
  {
    OthersFramed(d, e, k);
    forall l | Live(d, l) && l != k ensures SlotKept(d, f, l) {
      SlotFrame(d, e, l);
      assert SlotKept(e, f, l);
    }
    assert Content(d, FileAt(d, k)) + (a + b) == Content(d, FileAt(d, k)) + a + b;
  }

  /** Room left in the last block. */
  function TailRoom(size: nat): nat {
    if size % BLOCK_SIZE == 0 then 0 else BLOCK_SIZE - size % BLOCK_SIZE
  }

  function Least(a: nat, b: nat): nat {
    if a < b then a else b
  }

  /** What the last block and `free` more blocks can take. */
  function Capacity(size: nat, free: nat): nat {
    TailRoom(size) + free * BLOCK_SIZE
  }

  /** The count of one turn and of the turns after it add up. */
  lemma CountsAddUp(size: nat, len: nat, take: nat, free: nat, after: nat, rest: nat)
    requires 0 < len && take == Least(len, BLOCK_SIZE - size % BLOCK_SIZE)
    requires free == if size % BLOCK_SIZE == 0 then after + 1 else after
    requires rest == Least(len - take, Capacity(size + take, after))
    ensures take + rest == Least(len, Capacity(size, free))
  {
    if take < len {
      assert (size + take) % BLOCK_SIZE == 0;
    }
  }

  lemma SliceJoin(s: seq<byte>, a: nat, b: nat)
    requires a + b <= |s|
    ensures s[..a] + s[a..][..b] == s[..a + b]
  {
  }

  lemma FreeSetShrinks(d: Disk, e: Disk, size: nat)
    requires Layout(d) && Layout(e)
    requires size % BLOCK_SIZE != 0 ==> FreeSet(e) == FreeSet(d)
    requires size % BLOCK_SIZE == 0 ==> FreeBlock(d) in FreeSet(d) && FreeSet(e) == FreeSet(d) - {FreeBlock(d)}
    ensures |FreeSet(e)| == if size % BLOCK_SIZE == 0 then |FreeSet(d)| - 1 else |FreeSet(d)|
  {
  }

  lemma AppendedNothing(d: Disk, k: int)
    requires Appendable(d, k)
    ensures Appended(d, d, k, [])
  {
    assert Content(d, FileAt(d, k)) + [] == Content(d, FileAt(d, k));
  }

  /** The loop appends exactly the bytes it says it wrote, and touches no other file. */
  lemma {:induction false} AppendExtends(d: Disk, k: int, buf: seq<byte>)
    requires Appendable(d, k)
    ensures Appended(d, Append(d, k, buf).0, k, buf[..Append(d, k, buf).1])
    decreases |buf|
  {
    hide Disjoint, BitmapsOk;
    var r := Append(d, k, buf);
    if r.1 == 0 {
      assert r.0 == d && buf[..0] == [] by {
        if buf != [] {
          AppendStepAppends(d, k, buf);
        }
      }
      AppendedNothing(d, k);
    } else {
      AppendStepAppends(d, k, buf);
      var s := AppendStep(d, Root(d)[k].inodeNo, buf);
      AppendExtends(s.disk, k, buf[s.taken..]);
      AppendedTwice(d, s.disk, r.0, k, buf[..s.taken], buf[s.taken..][..r.1 - s.taken]);
      SliceJoin(buf, s.taken, r.1 - s.taken);
    }
  }

  lemma AppendStepCounts(d: Disk, k: int, buf: seq<byte>)
    requires Appendable(d, k) && buf != []
    ensures Indexed(d, Root(d)[k].inodeNo)
    ensures var s, size := AppendStep(d, Root(d)[k].inodeNo, buf), FileAt(d, k).size;
            && (s.Stop? ==> Capacity(size, |FreeSet(d)|) == 0 && Append(d, k, buf).1 == 0)
            && (s.Next? ==>
                  && Appendable(s.disk, k) && FileAt(s.disk, k).size == size + s.taken
                  && s.taken == Least(|buf|, BLOCK_SIZE - size % BLOCK_SIZE)
                  && |FreeSet(d)| == (if size % BLOCK_SIZE == 0 then |FreeSet(s.disk)| + 1 else |FreeSet(s.disk)|)
                  && Append(d, k, buf).1 == s.taken + Append(s.disk, k, buf[s.taken..]).1)
  {
    AppendStepAppends(d, k, buf);
    match AppendStep(d, Root(d)[k].inodeNo, buf)
    case Stop(_) =>
    case Next(e, t) => FreeSetShrinks(d, e, FileAt(d, k).size);
  }

  /** It writes as much of `buf` as fits the last block and the free blocks, and no less. */
  lemma {:induction false} AppendIsExact(d: Disk, k: int, buf: seq<byte>)
    requires Appendable(d, k)
    ensures Append(d, k, buf).1 == Least(|buf|, Capacity(FileAt(d, k).size, |FreeSet(d)|))
    decreases |buf|
  {
    hide Append, AppendStep, Capacity, Disjoint, BitmapsOk;
    if buf == [] {
    } else {
      AppendStepCounts(d, k, buf);
      match AppendStep(d, Root(d)[k].inodeNo, buf)
      case Stop(_) =>
      case Next(e, t) =>
        AppendIsExact(e, k, buf[t..]);
        CountsAddUp(FileAt(d, k).size, |buf|, t, |FreeSet(d)|, |FreeSet(e)|, Append(e, k, buf[t..]).1);
    }
  }
}
