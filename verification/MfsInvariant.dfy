/** Every operation keeps the file system consistent and touches one file only. */
module MfsInvariant {
  import opened Bits
  import opened MfsDisk
  import opened MfsOps

  // ---- Changing one slot ----

  /** Slot `l` and everything it leads to is the same in `e`. */
  ghost predicate SlotKept(d: Disk, e: Disk, l: int)
    requires Layout(d) && Layout(e) && Live(d, l) && SlotOk(d, l)
  {
    && |e| == |d| && Root(e)[l] == Root(d)[l]
    && InodeAt(e, Root(d)[l].inodeNo) == FileAt(d, l)
    && forall i :: 0 <= i < |SlotBlocks(d, l)| ==> e[SlotBlocks(d, l)[i]] == d[SlotBlocks(d, l)[i]]
  }

  lemma SlotFrame(d: Disk, e: Disk, l: int)
    requires Layout(d) && Layout(e) && Live(d, l) && SlotOk(d, l) && SlotKept(d, e, l)
    ensures Live(e, l) && SlotOk(e, l) && FileAt(e, l) == FileAt(d, l)
    ensures SlotBlocks(e, l) == SlotBlocks(d, l) && Content(e, FileAt(e, l)) == Content(d, FileAt(d, l))
  {
    var x := FileAt(d, l);
    forall i | 0 <= i < |BlocksOf(d, x)| ensures e[BlocksOf(d, x)[i]] == d[BlocksOf(d, x)[i]] {
      assert SlotBlocks(d, l)[i] == BlocksOf(d, x)[i];
    }
    FileFrame(d, e, x);
  }

  /** `e` differs from `d` in no slot but `k`. */
  ghost predicate OthersKept(d: Disk, e: Disk, k: int)
    requires Layout(d) && Layout(e) && SlotsKnown(d)
  {
    && |e| == |d|
    && Root(e)[0] == Root(d)[0] && Root(e)[1] == Root(d)[1]
    && (forall l :: l != k ==> (Live(e, l) <==> Live(d, l)))
    && forall l :: Live(d, l) && l != k ==> SlotKept(d, e, l)
  }

  ghost predicate OwnedByOther(d: Disk, k: int, b: int)
    requires Layout(d) && SlotsKnown(d)
  {
    exists l :: Live(d, l) && l != k && b in SlotBlocks(d, l)
  }

  ghost predicate UsedByOther(d: Disk, k: int, n: int)
    requires Layout(d)
  {
    exists l :: Live(d, l) && l != k && Root(d)[l].inodeNo == n
  }

  /** What slot `k` must satisfy beside the others of `d`. */
  ghost predicate FitsIn(d: Disk, e: Disk, k: int)
    requires Layout(d) && Layout(e) && SlotsKnown(d)
  {
    Live(e, k) ==>
      && SlotOk(e, k)
      && (forall l :: Live(d, l) && l != k ==>
            Root(e)[k].name != Root(d)[l].name && Root(e)[k].inodeNo != Root(d)[l].inodeNo)
      && (forall i, j :: 0 <= i < j < |SlotBlocks(e, k)| ==> SlotBlocks(e, k)[i] != SlotBlocks(e, k)[j])
      && (forall i :: 0 <= i < |SlotBlocks(e, k)| ==> !OwnedByOther(d, k, SlotBlocks(e, k)[i]))
  }

  ghost predicate BitsFor(d: Disk, e: Disk, k: int)
    requires Layout(d) && Layout(e) && SlotsKnown(d) && (Live(e, k) ==> SlotOk(e, k))
  {
    && (forall b: nat :: b < 8 * BLOCK_SIZE ==>
          (GetBit(BlockMap(e), b) <==>
             b < FIRST_DATA || OwnedByOther(d, k, b) || (Live(e, k) && b in SlotBlocks(e, k))))
    && (forall i: nat :: i < 8 * BLOCK_SIZE ==>
          (GetBit(InodeMap(e), i) <==>
             i == 0 || UsedByOther(d, k, i + 1) || (Live(e, k) && Root(e)[k].inodeNo == i + 1)))
  }

  lemma OthersFramed(d: Disk, e: Disk, k: int)
    requires Consistent(d) && Layout(e) && OthersKept(d, e, k)
    ensures forall l :: Live(e, l) && l != k ==>
              Live(d, l) && SlotOk(e, l) && SlotBlocks(e, l) == SlotBlocks(d, l) &&
              FileAt(e, l) == FileAt(d, l) && Content(e, FileAt(e, l)) == Content(d, FileAt(d, l))
  {
    forall l | Live(e, l) && l != k
      ensures Live(d, l) && SlotOk(e, l) && SlotBlocks(e, l) == SlotBlocks(d, l) &&
              FileAt(e, l) == FileAt(d, l) && Content(e, FileAt(e, l)) == Content(d, FileAt(d, l))
    {
      SlotFrame(d, e, l);
    }
  }

  lemma DisjointAfterChange(d: Disk, e: Disk, k: int)
    requires Consistent(d) && Layout(e) && OthersKept(d, e, k) && FitsIn(d, e, k)
    ensures SlotsOk(e) && Disjoint(e)
  {
    OthersFramed(d, e, k);
    assert SlotsOk(e);
    forall l, m, i, j | Live(e, l) && Live(e, m) && 0 <= i < |SlotBlocks(e, l)| && 0 <= j < |SlotBlocks(e, m)| &&
                        SlotBlocks(e, l)[i] == SlotBlocks(e, m)[j]
      ensures l == m && i == j
    {
      if l == k && m != k {
        assert OwnedByOther(d, k, SlotBlocks(e, l)[i]);
      } else if m == k && l != k {
        assert OwnedByOther(d, k, SlotBlocks(e, m)[j]);
      }
    }
  }

  lemma OneSlotChanged(d: Disk, e: Disk, k: int)
    requires Consistent(d) && Layout(e) && OthersKept(d, e, k) && FitsIn(d, e, k) && BitsFor(d, e, k)
    ensures Consistent(e)
  {
    DisjointAfterChange(d, e, k);
    OthersFramed(d, e, k);
    forall b: nat | b < 8 * BLOCK_SIZE
      ensures OwnedByOther(d, k, b) || (Live(e, k) && b in SlotBlocks(e, k)) <==> Owned(e, b)
    {
      if OwnedByOther(d, k, b) {
        var l :| Live(d, l) && l != k && b in SlotBlocks(d, l);
        assert Live(e, l) && b in SlotBlocks(e, l);
      }
      if Owned(e, b) {
        var l :| Live(e, l) && b in SlotBlocks(e, l);
        assert l == k || OwnedByOther(d, k, b);
      }
    }
    forall n: nat
      ensures UsedByOther(d, k, n) || (Live(e, k) && Root(e)[k].inodeNo == n) <==> InodeInUse(e, n)
    {
      if UsedByOther(d, k, n) {
        var l :| Live(d, l) && l != k && Root(d)[l].inodeNo == n;
        assert Live(e, l) && Root(e)[l].inodeNo == n;
      }
      if InodeInUse(e, n) {
        var l :| Live(e, l) && Root(e)[l].inodeNo == n;
        assert l == k || UsedByOther(d, k, n);
      }
    }
  }

  /** In a consistent disk a slot's blocks and inode are its own. */
  lemma OwnIsNotOthers(d: Disk, k: int)
    requires Consistent(d)
    ensures forall b :: Owned(d, b) <==> OwnedByOther(d, k, b) || (Live(d, k) && b in SlotBlocks(d, k))
    ensures Live(d, k) ==> forall i :: 0 <= i < |SlotBlocks(d, k)| ==> !OwnedByOther(d, k, SlotBlocks(d, k)[i])
    ensures forall n :: InodeInUse(d, n) <==> UsedByOther(d, k, n) || (Live(d, k) && Root(d)[k].inodeNo == n)
    ensures Live(d, k) ==> !UsedByOther(d, k, Root(d)[k].inodeNo)
  {
  }

  // ---- create ----

  lemma AddFileBits(d: Disk, k: nat, name: string, i: nat)
    requires Consistent(d) && 2 <= k < DIR_ENTRIES && !Live(d, k) && NameOk(name)
    requires 1 <= i < INODE_COUNT
    ensures BitsFor(d, AddFile(d, k, name, i), k)
  {
    hide Disjoint, SetBit;
    var e := AddFile(d, k, name, i);
    OwnIsNotOthers(d, k);
    assert BlockMap(e) == BlockMap(d);
    forall j: nat | j < 8 * BLOCK_SIZE
      ensures GetBit(InodeMap(e), j) <==> j == 0 || UsedByOther(d, k, j + 1) || Root(e)[k].inodeNo == j + 1
    {
      SetThenGet(InodeMap(d), i, true, j);
    }
  }

  lemma AddFileConsistent(d: Disk, k: nat, name: string, i: nat)
    requires Consistent(d) && 2 <= k < DIR_ENTRIES && !Live(d, k) && NameOk(name)
    requires forall l :: Live(d, l) ==> Root(d)[l].name != name
    requires 1 <= i < INODE_COUNT && !GetBit(InodeMap(d), i)
    ensures var e := AddFile(d, k, name, i);
            && Consistent(e) && OthersKept(d, e, k)
            && Root(e)[k] == DirEntry(i + 1, name, true) && Live(e, k) && FileAt(e, k) == Inode(i + 1, 0, 0, 0)
  {
    hide Disjoint, SetBit, BitsFor;
    var e := AddFile(d, k, name, i);
    OwnIsNotOthers(d, k);
    forall l | Live(d, l) ensures SlotKept(d, e, l) {
      assert InodeInUse(d, Root(d)[l].inodeNo);
    }
    AddFileBits(d, k, name, i);
    OneSlotChanged(d, e, k);
  }

  // ---- make_mfs ----

  lemma ZerosAreClear(b: nat)
    requires b < 8 * BLOCK_SIZE
    ensures !GetBit(Zeros(BLOCK_SIZE), b)
  {
    ZeroByte(b % 8);
  }

  lemma {:induction false} MarkFirstBits(n: nat, b: nat)
    requires n <= FIRST_DATA && b < 8 * BLOCK_SIZE
    ensures GetBit(MarkFirst(Zeros(BLOCK_SIZE), n), b) <==> b < n
  {
    if n == 0 {
      ZerosAreClear(b);
    } else {
      MarkFirstBits(n - 1, b);
      SetThenGet(MarkFirst(Zeros(BLOCK_SIZE), n - 1), n - 1, true, b);
    }
  }

  /** A freshly formatted disk is consistent and has no files, whatever was on it. */
  lemma FormatConsistent(d: Disk)
    requires 128 <= |d| <= 4096
    ensures Consistent(Format(d)) && forall k :: !Live(Format(d), k)
  {
    var e := Format(d);
    forall b: nat | b < 8 * BLOCK_SIZE ensures GetBit(BlockMap(e), b) <==> b < FIRST_DATA {
      MarkFirstBits(FIRST_DATA, b);
    }
    forall i: nat | i < 8 * BLOCK_SIZE ensures GetBit(InodeMap(e), i) <==> i == 0 {
      ZerosAreClear(i);
      SetThenGet(Zeros(BLOCK_SIZE), 0, true, i);
    }
  }

  // ---- unlink ----

  lemma {:induction false} FreeAllBits(d: Disk, bs: seq<nat>, b: nat)
    requires Layout(d) && b < 8 * BLOCK_SIZE && forall i :: 0 <= i < |bs| ==> IsDataBlock(d, bs[i])
    ensures var e := FreeAll(d, bs);
            && GetBit(BlockMap(e), b) == (GetBit(BlockMap(d), b) && b !in bs)
            && e == d[BLOCK_BITMAP := e[BLOCK_BITMAP]]
    decreases |bs|
  {
    if bs == [] {
    } else {
      SetThenGet(BlockMap(d), bs[0], false, b);
      FreeAllBits(MarkBlock(d, bs[0], false), bs[1..], b);
    }
  }

  lemma FreeOrderIsBlocks(d: Disk, x: Inode, b: nat)
    requires FileOk(d, x)
    ensures b in FreeOrder(d, x) <==> b in BlocksOf(d, x)
    ensures forall i :: 0 <= i < |FreeOrder(d, x)| ==> IsDataBlock(d, FreeOrder(d, x)[i])
  {
  }

  /** The parts of the disk that unlinking touches. */
  lemma RemoveFileParts(d: Disk, k: nat)
    requires Layout(d) && Live(d, k) && SlotOk(d, k)
    ensures var e, n := RemoveFile(d, k), Root(d)[k].inodeNo;
            && Root(e) == Root(d)[k := NO_ENTRY]
            && BlockMap(e) == BlockMap(FreeAll(d, FreeOrder(d, FileAt(d, k))))
            && InodeMap(e) == SetBit(InodeMap(d), n - 1, false)
            && (forall j :: IsInodeNo(j) && j != n ==> InodeAt(e, j) == InodeAt(d, j))
            && forall b :: FIRST_DATA <= b < |d| ==> e[b] == d[b]
  {
    hide FreeAll;
    FreeOrderIsBlocks(d, FileAt(d, k), 0);
    FreeAllBits(d, FreeOrder(d, FileAt(d, k)), 0);
  }

  lemma RemoveFileBits(d: Disk, k: nat)
    requires Consistent(d) && Live(d, k)
    ensures !Live(RemoveFile(d, k), k) && BitsFor(d, RemoveFile(d, k), k)
  {
    var x, n := FileAt(d, k), Root(d)[k].inodeNo;
    var e := RemoveFile(d, k);
    RemoveFileParts(d, k);
    OwnIsNotOthers(d, k);
    forall b: nat | b < 8 * BLOCK_SIZE ensures GetBit(BlockMap(e), b) <==> b < FIRST_DATA || OwnedByOther(d, k, b) {
      FreeOrderIsBlocks(d, x, b);
      FreeAllBits(d, FreeOrder(d, x), b);
      assert b in FreeOrder(d, x) <==> b in SlotBlocks(d, k);
    }
    forall i: nat | i < 8 * BLOCK_SIZE ensures GetBit(InodeMap(e), i) <==> i == 0 || UsedByOther(d, k, i + 1) {
      SetThenGet(InodeMap(d), n - 1, false, i);
    }
  }

  lemma RemoveFileConsistent(d: Disk, k: nat)
    requires Consistent(d) && Live(d, k)
    ensures var e := RemoveFile(d, k); Consistent(e) && OthersKept(d, e, k) && !Live(e, k)
  {
    hide RemoveFile, BitsFor, Disjoint, BitmapsOk;
    RemoveFileBits(d, k);
    RemoveFileParts(d, k);
    OneSlotChanged(d, RemoveFile(d, k), k);
  }

  // ---- write ----

  lemma FreeIsUnowned(d: Disk, b: nat)
    requires Consistent(d) && b < 8 * BLOCK_SIZE && !GetBit(BlockMap(d), b)
    ensures forall l, i :: Live(d, l) && 0 <= i < |SlotBlocks(d, l)| ==> SlotBlocks(d, l)[i] != b
  {
    forall l, i | Live(d, l) && 0 <= i < |SlotBlocks(d, l)| ensures SlotBlocks(d, l)[i] != b {
      assert Owned(d, SlotBlocks(d, l)[i]);
    }
  }

  lemma GiveIndexBits(d: Disk, k: nat, b: nat)
    requires Consistent(d) && Live(d, k) && FileAt(d, k).indexBlock == 0
    requires IsDataBlock(d, b) && !GetBit(BlockMap(d), b)
    ensures BitsFor(d, GiveIndex(d, Root(d)[k].inodeNo, b), k)
  {
    var e := GiveIndex(d, Root(d)[k].inodeNo, b);
    OwnIsNotOthers(d, k);
    assert SlotBlocks(d, k) == [] && SlotBlocks(e, k) == [b];
    assert InodeMap(e) == InodeMap(d);
    forall c: nat | c < 8 * BLOCK_SIZE
      ensures GetBit(BlockMap(e), c) <==> c < FIRST_DATA || OwnedByOther(d, k, c) || c == b
    {
      SetThenGet(BlockMap(d), b, true, c);
    }
  }

  lemma GiveIndexConsistent(d: Disk, k: nat, b: nat)
    requires Consistent(d) && Live(d, k) && FileAt(d, k).indexBlock == 0
    requires IsDataBlock(d, b) && !GetBit(BlockMap(d), b)
    ensures var e := GiveIndex(d, Root(d)[k].inodeNo, b);
            && Consistent(e) && OthersKept(d, e, k) && Root(e) == Root(d)
            && FileAt(e, k) == FileAt(d, k).(indexBlock := b) && SlotBlocks(e, k) == [b]
  {
    hide BitmapsOk, Disjoint, BitsFor;
    var e := GiveIndex(d, Root(d)[k].inodeNo, b);
    FreeIsUnowned(d, b);
    assert SlotOk(e, k) && SlotBlocks(e, k) == [b];
    GiveIndexBits(d, k, b);
    assert FitsIn(d, e, k) by {
      assert forall l :: Live(d, l) ==> b !in SlotBlocks(d, l);
    }
    OneSlotChanged(d, e, k);
  }
}
