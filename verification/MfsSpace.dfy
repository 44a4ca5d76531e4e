/** Where the space goes: free blocks and the blocks of files together are the data region. */
module MfsSpace {
  import opened CommonTypes
  import opened Counting
  import opened Bits
  import opened MfsDisk
  import opened MfsOps
  import opened MfsInvariant
  import opened MfsAppend
  import opened MfsFiles
  import opened MfsRuns

  /** How many blocks the files in slots below `hi` occupy, index blocks included. */
  ghost function Occupied(d: Disk, hi: nat): nat
    requires Consistent(d) && 2 <= hi <= DIR_ENTRIES
  {
    if hi == 2 then 0 else Occupied(d, hi - 1) + if Live(d, hi - 1) then |SlotBlocks(d, hi - 1)| else 0
  }

  ghost function Taken(d: Disk, hi: nat): set<nat>
    requires Consistent(d)
  {
    set b: nat | b < |d| && TakenBelow(d, hi, b)
  }

  ghost predicate TakenBelow(d: Disk, hi: nat, b: nat)
    requires Consistent(d)
  {
    exists k :: k < hi && Live(d, k) && b in SlotBlocks(d, k)
  }

  function Members(s: seq<nat>): set<nat> {
    set b | b in s
  }

  lemma {:induction false} DistinctMembers(s: seq<nat>)
    requires Distinct(s)
    ensures |Members(s)| == |s|
  {
    if s == [] {
      assert Members(s) == {};
    } else {
      DistinctMembers(s[1..]);
      assert s == [s[0]] + s[1..];
      assert Members(s) == {s[0]} + Members(s[1..]);
      assert s[0] !in s[1..];
    }
  }

  lemma TakenGrows(d: Disk, k: nat)
    requires Consistent(d) && 2 <= k < DIR_ENTRIES
    ensures Live(d, k) ==> Taken(d, k + 1) == Taken(d, k) + Members(SlotBlocks(d, k))
    ensures !Live(d, k) ==> Taken(d, k + 1) == Taken(d, k)
  {
    hide Disjoint, BitmapsOk;
    forall b: nat | b < |d|
      ensures b in Taken(d, k + 1) <==> b in Taken(d, k) || (Live(d, k) && b in SlotBlocks(d, k))
    {
      if Live(d, k) && b in SlotBlocks(d, k) {
        assert TakenBelow(d, k + 1, b);
      }
      if TakenBelow(d, k, b) {
        assert TakenBelow(d, k + 1, b);
      }
    }
    if Live(d, k) {
      forall b | b in SlotBlocks(d, k) ensures b < |d| {
        assert IsDataBlock(d, b);
      }
    }
  }

  lemma BelowIsOther(d: Disk, k: nat, b: nat)
    requires Consistent(d)
    ensures TakenBelow(d, k, b) ==> OwnedByOther(d, k, b)
  {
  }

  lemma TakenApart(d: Disk, k: nat)
    requires Consistent(d) && Live(d, k)
    ensures Taken(d, k) !! Members(SlotBlocks(d, k)) && Distinct(SlotBlocks(d, k))
  {
    hide TakenBelow, OwnedByOther, BitmapsOk;
    OwnIsNotOthers(d, k);
    forall b: nat | b in Taken(d, k) ensures b !in SlotBlocks(d, k) {
      BelowIsOther(d, k, b);
    }
  }

  lemma {:induction false} TakenIsOccupied(d: Disk, hi: nat)
    requires Consistent(d) && 2 <= hi <= DIR_ENTRIES
    ensures |Taken(d, hi)| == Occupied(d, hi)
  {
    hide Disjoint, BitmapsOk, Taken, TakenBelow;
    if hi == 2 {
      NothingBelow(d);
    } else {
      TakenIsOccupied(d, hi - 1);
      TakenGrows(d, hi - 1);
      if Live(d, hi - 1) {
        TakenApart(d, hi - 1);
        DistinctMembers(SlotBlocks(d, hi - 1));
      }
    }
  }

  lemma NothingBelow(d: Disk)
    requires Consistent(d)
    ensures Taken(d, 2) == {}
  {
  }

  lemma TakenIsOwned(d: Disk, b: nat)
    requires Consistent(d) && b < |d|
    ensures b in Taken(d, DIR_ENTRIES) <==> FIRST_DATA <= b && Owned(d, b)
  {
    hide Disjoint, BitmapsOk;
    if Owned(d, b) {
      var k :| Live(d, k) && b in SlotBlocks(d, k);
      assert TakenBelow(d, DIR_ENTRIES, b);
    }
    if TakenBelow(d, DIR_ENTRIES, b) {
      var k :| k < DIR_ENTRIES && Live(d, k) && b in SlotBlocks(d, k);
      assert Owned(d, b) && IsDataBlock(d, b);
    }
  }

  lemma FreeOrTaken(d: Disk)
    requires Consistent(d)
    ensures FreeSet(d) !! Taken(d, DIR_ENTRIES)
    ensures FreeSet(d) + Taken(d, DIR_ENTRIES) == Range(FIRST_DATA, |d|)
  {
    hide Disjoint, Owned, TakenBelow;
    forall b: nat | b in Range(FIRST_DATA, |d|) ensures b in FreeSet(d) <==> b !in Taken(d, DIR_ENTRIES) {
      TakenIsOwned(d, b);
    }
    forall b: nat | b in Taken(d, DIR_ENTRIES) ensures b in Range(FIRST_DATA, |d|) {
      TakenIsOwned(d, b);
    }
  }

  /** Free space is what the files leave of the data region. */
  lemma SpaceIsAccounted(d: Disk)
    requires Consistent(d)
    ensures |FreeSet(d)| + Occupied(d, DIR_ENTRIES) == |d| - FIRST_DATA
  {
    hide SlotsOk, Disjoint, BitmapsOk, FreeSet, Taken, Occupied;
    FreeOrTaken(d);
    TakenIsOccupied(d, DIR_ENTRIES);
    RangeSize(FIRST_DATA, |d|);
  }

  /** How much a write can still append depends on the blocks that the files do not occupy. */
  lemma RoomIsWhatTheFilesLeave(d: Disk, name: string)
    requires Consistent(d) && name in Files(d)
    ensures Occupied(d, DIR_ENTRIES) <= |d| - FIRST_DATA
    ensures Live(d, SlotOf(d, name)) && SlotOk(d, SlotOf(d, name))
    ensures Room(d, name) == RoomOf(FileAt(d, SlotOf(d, name)), |d| - FIRST_DATA - Occupied(d, DIR_ENTRIES))
  {
    hide Disjoint, BitmapsOk, Occupied;
    SpaceIsAccounted(d);
    FindsItsSlot(d, name);
  }

  /** What one file takes: an index block once it has been written to, and a block for every 16384 bytes begun. */
  lemma FileSpace(d: Disk, k: int)
    requires Consistent(d) && Live(d, k)
    ensures Root(d)[k].name in Files(d)
    ensures var size, blocks := |Files(d)[Root(d)[k].name]|, |SlotBlocks(d, k)|;
            if size == 0 then blocks <= 1 else blocks == 1 + BlocksFor(size)
  {
    FileOfSlot(d, k);
  }

  lemma WriteKeepsSize(d: Disk, path: string, buf: seq<byte>, offset: nat)
    requires Consistent(d) && !DotPath(path) && buf != []
    ensures |Write(d, path, buf, offset).0| == |d|
  {
    hide Disjoint, BitmapsOk, WriteSlot, Write;
    WriteFindsSlot(d, path, buf, offset);
    if Exists(d, path) {
      WriteSlotMeans(d, SlotOf(d, PathName(path).value), buf);
    }
  }

  lemma DoKeepsSize(d: Disk, op: Op)
    requires Consistent(d) && !DotPath(op.path)
    ensures |Do(d, op).0| == |d|
  {
    hide AddFile, RemoveFile, Disjoint, BitmapsOk;
    if op.DoWrite? && op.buf != [] {
      WriteKeepsSize(d, op.path, op.buf, op.offset);
    }
  }

  lemma {:induction false} RunKeepsSize(d: Disk, ops: seq<Op>)
    requires Consistent(d) && NoDots(ops)
    ensures |RunOps(d, ops)| == |d|
    decreases |ops|
  {
    hide Do, Consistent;
    if ops == [] {
    } else {
      DoKeepsSize(d, ops[0]);
      RunKeepsSize(Do(d, ops[0]).0, ops[1..]);
    }
  }

  /** After formatting and any run, no block is lost: what is not free is in some file. */
  lemma SpaceAfterAnyRun(d: Disk, ops: seq<Op>)
    requires 128 <= |d| <= 4096 && NoDots(ops)
    ensures Consistent(Format(d))
    ensures var e := RunOps(Format(d), ops);
            |FreeSet(e)| + Occupied(e, DIR_ENTRIES) == |d| - FIRST_DATA
  {
    hide RunOps, Format, Consistent, FreeSet, Occupied;
    FormatConsistent(d);
    RunKeepsSize(Format(d), ops);
    SpaceIsAccounted(RunOps(Format(d), ops));
  }
}
