/**
 * The file system program itself: a disk updated block by block. Whole blocks are read
 * into local copies and written back, as `mfs_read_block` and `mfs_write_block` do.
 */
module FileSystem {
  import opened CommonTypes
  import opened Bits
  import opened MfsDisk
  import opened MfsOps
  import opened MfsInvariant
  import opened MfsAppend
  import opened MfsFiles
  import opened MfsRuns

  /** `make_mfs`: refuses disks of the wrong size, otherwise lays out the first six blocks. */
  method FormatDisk(disk: array<Block>) returns (ok: bool)
    modifies disk
    ensures ok <==> 128 <= disk.Length <= 4096
    ensures disk[..] == if ok then Format(old(disk[..])) else old(disk[..])
    ensures ok ==> Consistent(disk[..]) && Files(disk[..]) == map[]
  {
    hide SlotsOk, Disjoint, BitmapsOk, Files;
    var blockCount := disk.Length;
    if blockCount < 128 || blockCount > 4096 {
      return false;
    }
    ghost var d := disk[..];
    disk[SUPER_BLOCK] := Super(blockCount);
    var bitmap := Zeros(BLOCK_SIZE);
    for i := 0 to FIRST_DATA
      invariant |bitmap| == BLOCK_SIZE && bitmap == MarkFirst(Zeros(BLOCK_SIZE), i)
    {
      bitmap := SetBit(bitmap, i, true);
    }
    disk[BLOCK_BITMAP] := Bytes(bitmap);
    disk[INODE_BITMAP] := Bytes(SetBit(Zeros(BLOCK_SIZE), ROOT_INODE - 1, true));
    disk[INODE_TABLE] := Inodes(NoInodes()[0 := Inode(ROOT_INODE, 128, 1, ROOT_DIR)]);
    disk[INODE_TABLE + 1] := Inodes(NoInodes());
    var entries := NoEntries();
    entries := entries[0 := DirEntry(ROOT_INODE, ".", true)];
    entries := entries[1 := DirEntry(ROOT_INODE, "..", true)];
    disk[ROOT_DIR] := Dir(entries);
    assert disk[..] == Format(d);
    DiskRefinesMap(d, []);
    FormatConsistent(d);
    return true;
  }

  class Mfs {
    const disk: array<Block>
    const blockCount: nat   // from the superblock

    ghost predicate Valid()
      reads disk
    {
      Consistent(disk[..]) && blockCount == disk.Length
    }

    /** Mounting loads the superblock. */
    constructor (formatted: array<Block>)
      requires Consistent(formatted[..])
      ensures Valid() && disk == formatted
    {
      disk := formatted;
      blockCount := formatted[SUPER_BLOCK].blockCount;
    }

    // ---- Allocation ----

    method AllocateInode() returns (r: Result<nat>)
      requires Layout(disk[..])
      modifies disk
      ensures var d := old(disk[..]);
              && r == (if FreeInode(d) == INODE_COUNT then Err(ENOSPC) else Ok(FreeInode(d) + 1))
              && disk[..] == if FreeInode(d) == INODE_COUNT then d else MarkInode(d, FreeInode(d), true)
    {
      ghost var d := disk[..];
      var bitmap := disk[INODE_BITMAP].bytes;
      for i := 1 to INODE_COUNT
        invariant forall j :: 1 <= j < i ==> GetBit(bitmap, j)
      {
        if !GetBit(bitmap, i) {
          disk[INODE_BITMAP] := Bytes(SetBit(bitmap, i, true));
          FirstClearIs(bitmap, 1, INODE_COUNT, i);
          assert disk[..] == MarkInode(d, i, true);
          return Ok(i + 1);
        }
      }
      FirstClearIs(bitmap, 1, INODE_COUNT, INODE_COUNT);
      return Err(ENOSPC);
    }

    method FreeInodeNo(inodeNo: nat) returns (r: Result<()>)
      requires Layout(disk[..])
      modifies disk
      ensures r == if inodeNo <= ROOT_INODE || inodeNo > INODE_COUNT then Err(EINVAL) else Ok(())
      ensures disk[..] == if r.Ok? then MarkInode(old(disk[..]), inodeNo - 1, false) else old(disk[..])
    {
      if inodeNo <= ROOT_INODE || inodeNo > INODE_COUNT {
        return Err(EINVAL);
      }
      ghost var d := disk[..];
      disk[INODE_BITMAP] := Bytes(SetBit(disk[INODE_BITMAP].bytes, inodeNo - 1, false));
      assert disk[..] == MarkInode(d, inodeNo - 1, false);
      return Ok(());
    }

    method AllocateBlock() returns (r: Result<uint32>)
      requires Layout(disk[..]) && blockCount == disk.Length
      modifies disk
      ensures var d := old(disk[..]);
              && r == (if FreeBlock(d) == |d| then Err(ENOSPC) else Ok(FreeBlock(d)))
              && disk[..] == if FreeBlock(d) == |d| then d else MarkBlock(d, FreeBlock(d), true)
    {
      ghost var d := disk[..];
      var bitmap := disk[BLOCK_BITMAP].bytes;
      for i := FIRST_DATA to blockCount
        invariant forall j :: FIRST_DATA <= j < i ==> GetBit(bitmap, j)
      {
        if !GetBit(bitmap, i) {
          disk[BLOCK_BITMAP] := Bytes(SetBit(bitmap, i, true));
          FirstClearIs(bitmap, FIRST_DATA, blockCount, i);
          assert disk[..] == MarkBlock(d, i, true);
          return Ok(i);
        }
      }
      FirstClearIs(bitmap, FIRST_DATA, blockCount, blockCount);
      return Err(ENOSPC);
    }

    method FreeBlockNo(blockNo: nat) returns (r: Result<()>)
      requires Layout(disk[..]) && blockCount == disk.Length
      modifies disk
      ensures r.Ok? <==> IsDataBlock(old(disk[..]), blockNo)
      ensures disk[..] == if r.Ok? then MarkBlock(old(disk[..]), blockNo, false) else old(disk[..])
    {
      if blockNo < FIRST_DATA || blockNo >= blockCount {
        return Err(EINVAL);
      }
      ghost var d := disk[..];
      disk[BLOCK_BITMAP] := Bytes(SetBit(disk[BLOCK_BITMAP].bytes, blockNo, false));
      assert disk[..] == MarkBlock(d, blockNo, false);
      return Ok(());
    }

    // ---- Inodes and directory ----

    method ReadInode(inodeNo: nat) returns (r: Result<Inode>)
      requires Layout(disk[..])
      ensures r == if IsInodeNo(inodeNo) && InodeAt(disk[..], inodeNo).inodeNo != 0 then Ok(InodeAt(disk[..], inodeNo))
                   else Err(ENOENT)
    {
      if inodeNo < 1 || inodeNo > INODE_COUNT {
        return Err(ENOENT);
      }
      var index := inodeNo - 1;
      var inode := disk[INODE_TABLE + index / INODES_PER_BLOCK].inodes[index % INODES_PER_BLOCK];
      if inode.inodeNo == 0 {
        return Err(ENOENT);
      }
      return Ok(inode);
    }

    method WriteInode(inode: Inode) returns (r: Result<()>)
      requires Layout(disk[..])
      modifies disk
      ensures r.Ok? <==> IsInodeNo(inode.inodeNo)
      ensures disk[..] == if r.Ok? then PutInode(old(disk[..]), inode.inodeNo, inode) else old(disk[..])
    {
      if inode.inodeNo < 1 || inode.inodeNo > INODE_COUNT {
        return Err(EINVAL);
      }
      ghost var d := disk[..];
      var index := inode.inodeNo - 1;
      var blockNo := INODE_TABLE + index / INODES_PER_BLOCK;
      disk[blockNo] := Inodes(disk[blockNo].inodes[index % INODES_PER_BLOCK := inode]);
      assert disk[..] == PutInode(d, inode.inodeNo, inode);
      return Ok(());
    }

    method FindDirEntry(name: string) returns (index: nat)
      requires Layout(disk[..])
      ensures index == SlotOf(disk[..], name)
    {
      var entries := disk[ROOT_DIR].entries;
      for i := 0 to DIR_ENTRIES
        invariant forall j :: 0 <= j < i ==> !(entries[j].used && entries[j].name == name)
      {
        if entries[i].used && entries[i].name == name {
          FindEntryIs(entries, name, 0, i);
          return i;
        }
      }
      FindEntryIs(entries, name, 0, DIR_ENTRIES);
      return DIR_ENTRIES;
    }

    // ---- Operations ----

    method Create(path: string) returns (r: Result<()>)
      requires Valid() && !DotPath(path)
      modifies disk
      ensures Valid()
      ensures (disk[..], r) == MfsOps.Create(old(disk[..]), path)
    {
      hide Disjoint, BitmapsOk, AddFile, Files;
      ghost var d := disk[..];
      CreateMeans(d, path);
      var named := PathName(path);
      if named.None? || named.value == "" {
        return Err(EINVAL);
      }
      var name := named.value;
      if |name| > MAX_FILENAME {
        return Err(ENAMETOOLONG);
      }
      var found := FindDirEntry(name);
      if found < DIR_ENTRIES {
        return Err(EEXIST);
      }
      var entries := disk[ROOT_DIR].entries;
      var slot := 2;
      while slot < DIR_ENTRIES && entries[slot].used
        invariant 2 <= slot <= DIR_ENTRIES && forall j :: 2 <= j < slot ==> entries[j].used
      {
        slot := slot + 1;
      }
      FindUnusedIs(entries, 2, slot);
      if slot == DIR_ENTRIES {
        return Err(ENOSPC);
      }
      r := MakeFile(slot, name);
    }

    /** Takes an inode, initialises it, and enters it in a directory slot. */
    method MakeFile(slot: nat, name: string) returns (r: Result<()>)
      requires Layout(disk[..]) && slot < DIR_ENTRIES
      modifies disk
      ensures var d := old(disk[..]);
              if FreeInode(d) == INODE_COUNT then disk[..] == d && r == Err(ENOSPC)
              else disk[..] == AddFile(d, slot, name, FreeInode(d)) && r == Ok(())
    {
      var given := AllocateInode();
      if given.Err? {
        return Err(given.errno);
      }
      var inodeNo := given.value;
      var written := WriteInode(Inode(inodeNo, 0, 0, 0));
      var entries := disk[ROOT_DIR].entries;
      entries := entries[slot := DirEntry(inodeNo, name, true)];
      disk[ROOT_DIR] := Dir(entries);
      return Ok(());
    }

    method Unlink(path: string) returns (r: Result<()>)
      requires Valid() && !DotPath(path)
      modifies disk
      ensures Valid()
      ensures (disk[..], r) == MfsOps.Unlink(old(disk[..]), path)
    {
      ghost var d := disk[..];
      UnlinkMeans(d, path);
      var named := PathName(path);
      if named.None? || named.value == "" {
        return Err(EINVAL);
      }
      var slot := FindDirEntry(named.value);
      FindsItsSlot(d, named.value);
      if slot == DIR_ENTRIES {
        return Err(ENOENT);
      }
      DropFile(slot);
      return Ok(());
    }

    method DropFile(slot: nat)
      requires Valid() && Live(disk[..], slot)
      modifies disk
      ensures disk[..] == RemoveFile(old(disk[..]), slot)
    {
      hide Disjoint, BitmapsOk, FreeAll;
      ghost var d := disk[..];
      var entries := disk[ROOT_DIR].entries;
      var inodeNo := entries[slot].inodeNo;
      assert SlotOk(d, slot);
      var read := ReadInode(inodeNo);
      if read.Ok? {
        FreeFile(read.value);
      }
      FreeAllKeepsRest(d, FreeOrder(d, FileAt(d, slot)));
      entries := entries[slot := NO_ENTRY];
      disk[ROOT_DIR] := Dir(entries);
      var cleared := WriteInode(Inode(inodeNo, 0, 0, 0));
      var freed := FreeInodeNo(inodeNo);
    }

    /** Frees the data blocks and the index block of a file. */
    method FreeFile(x: Inode)
      requires Layout(disk[..]) && FileOk(disk[..], x) && blockCount == disk.Length
      modifies disk
      ensures disk[..] == FreeAll(old(disk[..]), FreeOrder(old(disk[..]), x))
    {
      hide FreeAll, MarkBlock;
      ghost var d := disk[..];
      FreeNothing(d);
      if x.indexBlock != 0 {
        var idx := disk[x.indexBlock].ptrs;
        var i := 0;
        while i < x.blockCount && i < POINTERS
          invariant 0 <= i <= x.blockCount
          invariant Layout(disk[..]) && disk[..] == FreeAll(d, idx[..i])
        {
          hide FreeAll, MarkBlock;
          if idx[i] != 0 {
            var freed := FreeBlockNo(idx[i]);
          }
          FreeAllSnoc(d, idx[..i], idx[i]);
          assert idx[..i] + [idx[i]] == idx[..i + 1];
          i := i + 1;
        }
        FreeAllSnoc(d, idx[..i], x.indexBlock);
        var last := FreeBlockNo(x.indexBlock);
      }
    }

    method Read(path: string, size: nat, offset: nat) returns (r: Result<seq<byte>>)
      requires Valid() && !DotPath(path)
      ensures size == 0 ==> r == Ok([])
      ensures size > 0 && !Exists(disk[..], path) ==>
                r == Err(if PathName(path) in {None, Some("")} then EINVAL else ENOENT)
      ensures size > 0 && Exists(disk[..], path) ==>
                var c := Files(disk[..])[PathName(path).value];
                r == Ok(if offset >= |c| then [] else c[offset..Least(offset + size, |c|)])
      ensures forall name :: IsPathOf(path, name) && size > 0 ==>
                if name in Files(disk[..]) then
                  var c := Files(disk[..])[name];
                  r == Ok(if offset >= |c| then [] else c[offset..Least(offset + size, |c|)])
                else r == Err(if name == "" then EINVAL else ENOENT)
    {
      PathNameMeans(path);
      hide Disjoint, BitmapsOk, Content, ByteAt;
      if size == 0 {
        return Ok([]);
      }
      var named := PathName(path);
      if named.None? || named.value == "" {
        if named.Some? && "" in Names(disk[..]) {
          NamesAreOk(disk[..], "");
        }
        return Err(EINVAL);
      }
      var slot := FindDirEntry(named.value);
      FindsItsSlot(disk[..], named.value);
      if slot == DIR_ENTRIES {
        return Err(ENOENT);
      }
      FileOfSlot(disk[..], slot);
      var read := ReadInode(disk[ROOT_DIR].entries[slot].inodeNo);
      var out := ReadFile(read.value, size, offset);
      return Ok(out);
    }

    /** The rest of `mfs_read`, once the file is found. */
    method ReadFile(inode: Inode, size: nat, offset: nat) returns (out: seq<byte>)
      requires FileOk(disk[..], inode) && size > 0
      ensures var c := Content(disk[..], inode);
              out == if offset >= |c| then [] else c[offset..Least(offset + size, |c|)]
    {
      hide ByteAt;
      if offset >= inode.size {
        return [];
      }
      var total := size;
      if offset + total > inode.size {
        total := inode.size - offset;
      }
      out := ReadBlocks(inode, total, offset);
    }

    /** The read loop. Every block it comes to is allocated: a file has no holes. */
    method ReadBlocks(inode: Inode, total: nat, offset: nat) returns (out: seq<byte>)
      requires FileOk(disk[..], inode) && offset + total <= inode.size && 0 < total
      ensures out == Content(disk[..], inode)[offset..offset + total]
    {
      hide ByteAt, Content;
      out := [];
      ghost var content := Content(disk[..], inode);
      var idx := disk[inode.indexBlock].ptrs;
      var bytesRead := 0;
      while bytesRead < total
        invariant 0 <= bytesRead <= total && out == content[offset..offset + bytesRead]
      {
        hide ByteAt, Content;
        var part := ReadPart(inode, idx, offset + bytesRead, total - bytesRead);
        SlicesMeet(content, offset, offset + bytesRead, offset + bytesRead + |part|);
        out := out + part;
        bytesRead := bytesRead + |part|;
      }
    }

    /** One turn of the read loop: the rest of one block, or as much of it as is wanted. */
    method ReadPart(inode: Inode, idx: seq<uint32>, at: nat, left: nat) returns (part: seq<byte>)
      requires FileOk(disk[..], inode) && at + left <= inode.size && 0 < left && idx == disk[inode.indexBlock].ptrs
      ensures 0 < |part| <= left && part == Content(disk[..], inode)[at..at + |part|]
    {
      var blockIdx := at / BLOCK_SIZE;
      var blockOff := at % BLOCK_SIZE;
      var toRead := BLOCK_SIZE - blockOff;
      if toRead > left {
        toRead := left;
      }
      InBlock(inode.size, at);
      if blockIdx >= POINTERS || idx[blockIdx] == 0 {
        assert false;   // the guards against a damaged inode and against holes
      }
      BlockIsContent(disk[..], inode, at, toRead);
      part := disk[idx[blockIdx]].bytes[blockOff..blockOff + toRead];
    }

    method Write(path: string, buf: seq<byte>, offset: nat) returns (r: Result<nat>)
      requires Valid() && !DotPath(path)
      modifies disk
      ensures Valid()
      ensures (disk[..], r) == MfsRuns.Write(old(disk[..]), path, buf, offset)
    {
      ghost var d := disk[..];
      WriteKeepsConsistent(d, path, buf, offset);
      if buf == [] {
        return Ok(0);
      }
      var named := PathName(path);
      if named.None? || named.value == "" {
        return Err(EINVAL);
      }
      var slot := FindDirEntry(named.value);
      FindsItsSlot(d, named.value);
      if slot == DIR_ENTRIES {
        return Err(ENOENT);
      }
      var read := ReadInode(disk[ROOT_DIR].entries[slot].inodeNo);
      var inode := read.value;
      if offset != inode.size {
        return Err(EOPNOTSUPP);
      }
      r := WriteFile(slot, inode, buf);
    }

    /** The rest of `mfs_write`, once the file is found and the offset is its size. */
    method WriteFile(ghost k: nat, inode0: Inode, buf: seq<byte>) returns (r: Result<nat>)
      requires Valid() && Live(disk[..], k) && inode0 == FileAt(disk[..], k) && buf != []
      modifies disk
      ensures (disk[..], r) == WriteSlot(old(disk[..]), k, buf)
    {
      ghost var d := disk[..];
      var ready, inode, idx, gaveIndex := LoadIndex(k, inode0);
      if ready.Err? {
        return Err(ready.errno);
      }
      hide Append, Commit, Committable, Appendable, Consistent;
      var rc, written: nat;
      rc, inode, idx, written := WriteLoop(k, Ready(d, k), inode, idx, buf);
      if written > 0 || gaveIndex {
        inode := inode.(size := inode.size + written);
        Store(inode, idx);
      }
      if written > 0 {
        return Ok(written);
      }
      return Err(rc.value);
    }

    /** Loads the index block, or allocates an empty one. */
    method LoadIndex(ghost k: nat, inode0: Inode)
      returns (r: Result<()>, inode: Inode, idx: seq<uint32>, gaveIndex: bool)
      requires Valid() && Live(disk[..], k) && inode0 == FileAt(disk[..], k)
      modifies disk
      ensures var d := old(disk[..]);
              && (r.Err? <==> inode0.indexBlock == 0 && FreeBlock(d) == |d|)
              && (r.Err? ==> r == Err(ENOSPC) && disk[..] == d)
              && (r.Ok? ==> Committable(disk[..], inode, idx) && Ready(d, k) == Commit(disk[..], inode, idx) &&
                            inode.inodeNo == InodeNoOf(Ready(d, k), k) && (!gaveIndex ==> Ready(d, k) == disk[..]))
    {
      ghost var d := disk[..];
      ReadyIsCommit(d, k);
      r, inode, gaveIndex := Ok(()), inode0, false;
      if inode.indexBlock == 0 {
        idx := NoPointers();
        var got := AllocateBlock();
        if got.Err? {
          return Err(got.errno), inode, idx, false;
        }
        disk[got.value] := Index(idx);
        inode := inode.(indexBlock := got.value);
        gaveIndex := true;
      } else {
        idx := disk[inode.indexBlock].ptrs;
      }
    }

    /** Writes the local copies of the index block and of the inode back. */
    method Store(inode: Inode, idx: seq<uint32>)
      requires Committable(disk[..], inode, idx)
      modifies disk
      ensures disk[..] == Commit(old(disk[..]), inode, idx)
    {
      disk[inode.indexBlock] := Index(idx);
      var put := WriteInode(inode);
    }

    method WriteLoop(ghost k: nat, ghost e: Disk, inode0: Inode, idx0: seq<uint32>, buf: seq<byte>)
      returns (rc: Option<Errno>, inode: Inode, idx: seq<uint32>, written: nat)
      requires Committable(disk[..], inode0, idx0) && e == Commit(disk[..], inode0, idx0) && blockCount == disk.Length
      requires Appendable(e, k) && InodeNoOf(e, k) == inode0.inodeNo && buf != []
      modifies disk
      ensures inode == inode0.(blockCount := inode.blockCount)
      ensures written == Append(e, k, buf).1
      ensures Committable(disk[..], inode, idx) && inode.size + written < 0x1_0000_0000
      ensures Append(e, k, buf).0 == Commit(disk[..], inode.(size := inode.size + written), idx)
      ensures written == 0 ==> disk[..] == old(disk[..]) && inode == inode0 && idx == idx0 && rc == Some(ENOSPC)
    {
      hide Append, Commit, Appendable, Total, InodeNoOf, Layout;
      inode, idx, written := inode0, idx0, 0;
      rc := None;
      ghost var v := e;
      TotalAtEnd(e, k, buf);
      while written < |buf|
        invariant written <= |buf|
        invariant inode == inode0.(blockCount := inode.blockCount) && rc == None
        invariant Appendable(v, k) && InodeNoOf(v, k) == inode0.inodeNo
        invariant Total(v, k, buf, written) == Append(e, k, buf)
        invariant Committable(disk[..], inode, idx) && inode.size + written < 0x1_0000_0000
        invariant v == Commit(disk[..], inode.(size := inode.size + written), idx)
        invariant written == 0 ==> disk[..] == old(disk[..]) && inode == inode0 && idx == idx0
        decreases |buf| - written
      {
        hide Append, Commit, Appendable, Total, InodeNoOf, Layout;
        var taken: nat;
        ghost var w;
        rc, inode, idx, taken, w := NextChunk(k, v, inode, idx, buf, written);
        if rc.Some? {
          return;
        }
        v := w;
        written := written + taken;
      }
      TotalAtEnd(v, k, buf);
    }

    /** One turn of the write loop, as seen from the whole write. */
    method NextChunk(ghost k: nat, ghost v: Disk, inode0: Inode, idx0: seq<uint32>, buf: seq<byte>, written: nat)
      returns (rc: Option<Errno>, inode: Inode, idx: seq<uint32>, taken: nat, ghost w: Disk)
      requires written < |buf| && inode0.size + written < 0x1_0000_0000 && blockCount == disk.Length
      requires Committable(disk[..], inode0, idx0)
      requires v == Commit(disk[..], inode0.(size := inode0.size + written), idx0)
      requires Appendable(v, k) && InodeNoOf(v, k) == inode0.inodeNo
      modifies disk
      ensures inode == inode0.(blockCount := inode.blockCount)
      ensures rc.Some? ==> rc == Some(ENOSPC) && disk[..] == old(disk[..]) && inode == inode0 && idx == idx0
      ensures rc.Some? ==> Total(v, k, buf, written) == (v, written)
      ensures rc.None? ==> 0 < taken <= |buf| - written
      ensures rc.None? ==> Committable(disk[..], inode, idx) && inode.size + written + taken < 0x1_0000_0000
      ensures rc.None? ==> w == Commit(disk[..], inode.(size := inode.size + written + taken), idx)
      ensures rc.None? ==> Appendable(w, k) && InodeNoOf(w, k) == InodeNoOf(v, k)
      ensures rc.None? ==> Total(w, k, buf, written + taken) == Total(v, k, buf, written)
    {
      hide Append, AppendStep, Commit, Total, Appendable, Consistent;
      TotalTurn(v, k, buf, written);
      ghost var s := AppendStep(v, inode0.inodeNo, buf[written..]);
      w := if s.Next? then s.disk else v;
      rc, inode, idx, taken := WriteChunk(inode0, idx0, buf, written);
    }

    /** One turn of the write loop. */
    method WriteChunk(inode0: Inode, idx0: seq<uint32>, buf: seq<byte>, written: nat)
      returns (rc: Option<Errno>, inode: Inode, idx: seq<uint32>, taken: nat)
      requires Committable(disk[..], inode0, idx0) && blockCount == disk.Length
      requires written < |buf| && inode0.size + written < 0x1_0000_0000
      requires Writable(Commit(disk[..], inode0.(size := inode0.size + written), idx0), inode0.inodeNo)
      modifies disk
      ensures Committable(disk[..], inode, idx) && inode == inode0.(blockCount := inode.blockCount)
      ensures var v := Commit(old(disk[..]), inode0.(size := inode0.size + written), idx0);
              ChunkDone(AppendStep(v, inode0.inodeNo, buf[written..]), rc, disk[..], inode, idx, written, taken)
      ensures rc.Some? ==> disk[..] == old(disk[..]) && inode == inode0 && idx == idx0
    {
      hide Commit, AppendStep;
      ghost var d := disk[..];
      rc, inode, idx, taken := None, inode0, idx0, 0;
      var blockIdx := (inode.size + written) / BLOCK_SIZE;
      var blockOff := (inode.size + written) % BLOCK_SIZE;
      var toWrite := BLOCK_SIZE - blockOff;
      if toWrite > |buf| - written {
        toWrite := |buf| - written;
      }
      if blockIdx >= POINTERS {
        ChunkTooBig(d, inode0, idx0, buf, written);
        return Some(EFBIG), inode, idx, 0;
      }
      var chunk := buf[written..written + toWrite];
      assert chunk == buf[written..][..toWrite];
      var dataBlk := idx[blockIdx];
      if dataBlk == 0 {
        ChunkGrows(d, inode0, idx0, buf, written, toWrite);
        var got := AllocateBlock();
        if got.Err? {
          ChunkHasNoBlock(d, inode0, idx0, buf, written);
          return Some(got.errno), inode, idx, 0;
        }
        dataBlk := got.value;
        disk[dataBlk] := Bytes(Splice(Zeros(BLOCK_SIZE), blockOff, chunk));
        idx := idx[blockIdx := dataBlk];
        inode := inode.(blockCount := inode.blockCount + 1);
      } else {
        ChunkFills(d, inode0, idx0, buf, written, toWrite);
        disk[dataBlk] := Bytes(Splice(disk[dataBlk].bytes, blockOff, chunk));
      }
      taken := toWrite;
    }
  }

  /** What the write loop relies on: the index block is neither one of its own entries nor free. */
  ghost predicate Writable(v: Disk, n: int)
    requires Layout(v)
  {
    && Indexed(v, n) && FreeBlock(v) != InodeAt(v, n).indexBlock
    && forall i :: 0 <= i < POINTERS ==>
         v[InodeAt(v, n).indexBlock].ptrs[i] != InodeAt(v, n).indexBlock
  }

  /** The turn did what the step says: stopped for the same reason, or moved the disk the same way. */
  ghost predicate ChunkDone(s: Step, rc: Option<Errno>, d: Disk, x: Inode, idx: seq<uint32>, written: nat, taken: nat)
    requires Committable(d, x, idx)
  {
    match s
    case Stop(errno) => rc == Some(errno)
    case Next(v, t) =>
      rc == None && taken == t && x.size + written + taken < 0x1_0000_0000 &&
      v == Commit(d, x.(size := x.size + written + taken), idx)
  }

  lemma AppendableIsWritable(v: Disk, k: int)
    requires Appendable(v, k)
    ensures Writable(v, Root(v)[k].inodeNo)
  {
    AppendableIsIndexed(v, k);
    OnlyInSlot(v, k, 0);
    if FreeBlock(v) < |v| {
      FreeIsUnowned(v, FreeBlock(v));
    }
    var x := FileAt(v, k);
    forall i | 0 <= i < POINTERS ensures v[x.indexBlock].ptrs[i] != x.indexBlock {
      if i < x.blockCount {
        assert SlotBlocks(v, k)[1 + i] == v[x.indexBlock].ptrs[i];
      }
    }
  }

  /** Appending, one turn at a time. */
  lemma AppendTurn(v: Disk, k: int, rest: seq<byte>)
    requires Appendable(v, k) && rest != []
    ensures Writable(v, Root(v)[k].inodeNo)
    ensures var s := AppendStep(v, Root(v)[k].inodeNo, rest);
            && (s.Stop? ==> s.errno == ENOSPC && Append(v, k, rest) == (v, 0))
            && (s.Next? ==>
                  && Appendable(s.disk, k) && Root(s.disk) == Root(v) && s.taken <= |rest|
                  && Append(v, k, rest).0 == Append(s.disk, k, rest[s.taken..]).0
                  && Append(v, k, rest).1 == s.taken + Append(s.disk, k, rest[s.taken..]).1)
  {
    AppendableIsWritable(v, k);
    AppendStepAppends(v, k, rest);
  }

  ghost function InodeNoOf(v: Disk, k: int): int
    requires Appendable(v, k)
  {
    Root(v)[k].inodeNo
  }

  /** What the whole write comes to, when the loop has reached `v` with `written` bytes done. */
  ghost function Total(v: Disk, k: int, buf: seq<byte>, written: nat): (Disk, nat)
    requires Appendable(v, k) && written <= |buf|
  {
    var r := Append(v, k, buf[written..]);
    (r.0, written + r.1)
  }

  lemma TotalTurn(v: Disk, k: int, buf: seq<byte>, written: nat)
    requires Appendable(v, k) && written < |buf|
    ensures Writable(v, Root(v)[k].inodeNo)
    ensures var s := AppendStep(v, Root(v)[k].inodeNo, buf[written..]);
            && (s.Stop? ==> s.errno == ENOSPC && Total(v, k, buf, written) == (v, written))
            && (s.Next? ==> Appendable(s.disk, k) && Root(s.disk) == Root(v) &&
                            Total(s.disk, k, buf, written + s.taken) == Total(v, k, buf, written))
  {
    hide Append, AppendStep, Disjoint, BitmapsOk;
    var rest := buf[written..];
    AppendTurn(v, k, rest);
    var s := AppendStep(v, Root(v)[k].inodeNo, rest);
    if s.Next? {
      assert rest[s.taken..] == buf[written + s.taken..];
    }
  }

  lemma TotalAtEnd(v: Disk, k: int, buf: seq<byte>)
    requires Appendable(v, k)
    ensures Total(v, k, buf, |buf|) == (v, |buf|)
    ensures Total(v, k, buf, 0) == Append(v, k, buf)
  {
    assert buf[|buf|..] == [] && buf[0..] == buf;
  }

  lemma ChunkTooBig(d: Disk, x: Inode, idx: seq<uint32>, buf: seq<byte>, written: nat)
    requires Committable(d, x, idx) && written < |buf| && x.size + written < 0x1_0000_0000
    requires Writable(Commit(d, x.(size := x.size + written), idx), x.inodeNo)
    requires (x.size + written) / BLOCK_SIZE >= POINTERS
    ensures AppendStep(Commit(d, x.(size := x.size + written), idx), x.inodeNo, buf[written..]) == Stop(EFBIG)
  {
    hide Commit;
    CommitParts(d, x.(size := x.size + written), idx);
  }

  lemma ChunkHasNoBlock(d: Disk, x: Inode, idx: seq<uint32>, buf: seq<byte>, written: nat)
    requires Committable(d, x, idx) && written < |buf| && x.size + written < 0x1_0000_0000
    requires Writable(Commit(d, x.(size := x.size + written), idx), x.inodeNo)
    requires (x.size + written) / BLOCK_SIZE < POINTERS && idx[(x.size + written) / BLOCK_SIZE] == 0
    requires FreeBlock(d) == |d|
    ensures AppendStep(Commit(d, x.(size := x.size + written), idx), x.inodeNo, buf[written..]) == Stop(ENOSPC)
  {
    hide Commit;
    CommitParts(d, x.(size := x.size + written), idx);
  }

  /** Filling the tail block, from the local copies' side. */
  lemma ChunkFills(d: Disk, x: Inode, idx: seq<uint32>, buf: seq<byte>, written: nat, take: nat)
    requires Committable(d, x, idx) && written < |buf| && x.size + written < 0x1_0000_0000
    requires Writable(Commit(d, x.(size := x.size + written), idx), x.inodeNo)
    requires (x.size + written) / BLOCK_SIZE < POINTERS && idx[(x.size + written) / BLOCK_SIZE] != 0
    requires take == ChunkSize(x.size + written, buf[written..])
    ensures var b := idx[(x.size + written) / BLOCK_SIZE];
            && IsDataBlock(d, b) && IsBytes(d[b])
            && ChunkDone(AppendStep(Commit(d, x.(size := x.size + written), idx), x.inodeNo, buf[written..]), None,
                         d[b := Bytes(Splice(d[b].bytes, (x.size + written) % BLOCK_SIZE, buf[written..][..take]))],
                         x, idx, written, take)
  {
    var cur := x.(size := x.size + written);
    CommitParts(d, cur, idx);
    CommitTail(d, cur, idx, idx[cur.size / BLOCK_SIZE], buf[written..][..take]);
  }

  /** Adding a block, likewise. */
  lemma ChunkGrows(d: Disk, x: Inode, idx: seq<uint32>, buf: seq<byte>, written: nat, take: nat)
    requires Committable(d, x, idx) && written < |buf| && x.size + written < 0x1_0000_0000
    requires Writable(Commit(d, x.(size := x.size + written), idx), x.inodeNo)
    requires (x.size + written) / BLOCK_SIZE < POINTERS && idx[(x.size + written) / BLOCK_SIZE] == 0
    requires take == ChunkSize(x.size + written, buf[written..])
    ensures FreeBlock(Commit(d, x.(size := x.size + written), idx)) == FreeBlock(d)
    ensures var b := FreeBlock(d);
            b < |d| ==>
              && x.blockCount <= POINTERS
              && ChunkDone(AppendStep(Commit(d, x.(size := x.size + written), idx), x.inodeNo, buf[written..]), None,
                           MarkBlock(d, b, true)[b := Bytes(Splice(Zeros(BLOCK_SIZE), (x.size + written) % BLOCK_SIZE,
                                                                    buf[written..][..take]))],
                           x.(blockCount := x.blockCount + 1), idx[(x.size + written) / BLOCK_SIZE := b], written, take)
  {
    hide Commit, Splice, Zeros;
    var cur := x.(size := x.size + written);
    CommitParts(d, cur, idx);
    if FreeBlock(d) < |d| {
      CommitNewBlock(d, cur, idx, FreeBlock(d), buf[written..][..take]);
    }
  }

  // ---- The disk the write loop is working towards ----

  ghost predicate Committable(d: Disk, x: Inode, idx: seq<uint32>) {
    Layout(d) && IsInodeNo(x.inodeNo) && IsDataBlock(d, x.indexBlock) && |idx| == POINTERS
  }

  /** The disk once the local copies of the inode and of the index block are written back. */
  ghost function Commit(d: Disk, x: Inode, idx: seq<uint32>): (e: Disk)
    requires Committable(d, x, idx)
    ensures Layout(e) && |e| == |d|
  {
    PutInode(d[x.indexBlock := Index(idx)], x.inodeNo, x)
  }

  lemma CommitParts(d: Disk, x: Inode, idx: seq<uint32>)
    requires Committable(d, x, idx)
    ensures var v := Commit(d, x, idx);
            && InodeAt(v, x.inodeNo) == x && v[x.indexBlock] == Index(idx)
            && BlockMap(v) == BlockMap(d) && FreeBlock(v) == FreeBlock(d)
            && forall b :: FIRST_DATA <= b < |d| && b != x.indexBlock ==> v[b] == d[b]
  {
  }

  /** The write loop starts from the disk with the local copies written back. */
  lemma ReadyIsCommit(d: Disk, k: int)
    requires Consistent(d) && Live(d, k)
    ensures var x, b := FileAt(d, k), FreeBlock(d);
            && (x.indexBlock != 0 ==> Ready(d, k) == d && Committable(d, x, d[x.indexBlock].ptrs) &&
                                      Commit(d, x, d[x.indexBlock].ptrs) == d)
            && (x.indexBlock == 0 && b < |d| ==>
                  var m := MarkBlock(d, b, true)[b := Index(NoPointers())];
                  Committable(m, x.(indexBlock := b), NoPointers()) &&
                  Ready(d, k) == Commit(m, x.(indexBlock := b), NoPointers()))
  {
    hide Disjoint, BitmapsOk, Commit, Ready;
    if FileAt(d, k).indexBlock != 0 {
      ReadyAsIs(d, k);
    } else if FreeBlock(d) < |d| {
      ReadyWithIndex(d, k);
    }
  }

  lemma ReadyAsIs(d: Disk, k: int)
    requires Consistent(d) && Live(d, k) && FileAt(d, k).indexBlock != 0
    ensures var x := FileAt(d, k);
            && Ready(d, k) == d && Committable(d, x, d[x.indexBlock].ptrs)
            && Commit(d, x, d[x.indexBlock].ptrs) == d
  {
    hide Disjoint, BitmapsOk;
    var x, n := FileAt(d, k), Root(d)[k].inodeNo;
    var t, i := INODE_TABLE + (n - 1) / INODES_PER_BLOCK, (n - 1) % INODES_PER_BLOCK;
    assert d[t].inodes[i := x] == d[t].inodes;
    assert d[x.indexBlock := Index(d[x.indexBlock].ptrs)] == d;
  }

  lemma ReadyWithIndex(d: Disk, k: int)
    requires Consistent(d) && Live(d, k) && FileAt(d, k).indexBlock == 0 && FreeBlock(d) < |d|
    ensures var x, b := FileAt(d, k), FreeBlock(d);
            var m := MarkBlock(d, b, true)[b := Index(NoPointers())];
            && Committable(m, x.(indexBlock := b), NoPointers())
            && Ready(d, k) == Commit(m, x.(indexBlock := b), NoPointers())
  {
    hide Disjoint, BitmapsOk;
    var b := FreeBlock(d);
    var m := MarkBlock(d, b, true)[b := Index(NoPointers())];
    assert m[b := Index(NoPointers())] == m;
  }

  lemma CommitTail(d: Disk, x: Inode, idx: seq<uint32>, b: nat, chunk: seq<byte>)
    requires Committable(d, x, idx) && IsDataBlock(d, b) && b != x.indexBlock && IsBytes(d[b])
    requires x.size % BLOCK_SIZE + |chunk| <= BLOCK_SIZE && x.size + |chunk| < 0x1_0000_0000
    ensures FillTail(Commit(d, x, idx), x.inodeNo, b, chunk) ==
            Commit(d[b := Bytes(Splice(d[b].bytes, x.size % BLOCK_SIZE, chunk))], x.(size := x.size + |chunk|), idx)
  {
    var filled := Bytes(Splice(d[b].bytes, x.size % BLOCK_SIZE, chunk));
    PutInodeTwice(d[x.indexBlock := Index(idx)], x.inodeNo, x, x.(size := x.size + |chunk|), b, filled);
    assert d[b := filled][x.indexBlock := Index(idx)] == d[x.indexBlock := Index(idx)][b := filled];
  }

  lemma CommitThenMark(d: Disk, x: Inode, idx: seq<uint32>, b: nat)
    requires Committable(d, x, idx) && IsDataBlock(d, b)
    ensures MarkBlock(Commit(d, x, idx), b, true) == PutInode(MarkBlock(d, b, true)[x.indexBlock := Index(idx)], x.inodeNo, x)
  {
    hide SetBit;
    CommitParts(d, x, idx);
  }

  lemma PutInodeTwice(d: Disk, n: int, x: Inode, y: Inode, b: nat, data: Block)
    requires Layout(d) && IsInodeNo(n) && IsDataBlock(d, b)
    ensures PutInode(PutInode(d, n, x)[b := data], n, y) == PutInode(d[b := data], n, y)
  {
    var t, i := INODE_TABLE + (n - 1) / INODES_PER_BLOCK, (n - 1) % INODES_PER_BLOCK;
    assert d[t].inodes[i := x][i := y] == d[t].inodes[i := y];
  }

  lemma CommitNewBlock(d: Disk, x: Inode, idx: seq<uint32>, b: nat, chunk: seq<byte>)
    requires Committable(d, x, idx) && IsDataBlock(d, b) && b != x.indexBlock
    requires x.size % BLOCK_SIZE + |chunk| <= BLOCK_SIZE && x.size + |chunk| < 0x1_0000_0000
    requires x.blockCount <= POINTERS && x.size / BLOCK_SIZE < POINTERS
    ensures AddBlock(Commit(d, x, idx), x.inodeNo, b, chunk) ==
            Commit(MarkBlock(d, b, true)[b := Bytes(Splice(Zeros(BLOCK_SIZE), x.size % BLOCK_SIZE, chunk))],
                   x.(size := x.size + |chunk|, blockCount := x.blockCount + 1), idx[x.size / BLOCK_SIZE := b])
  {
    CommitParts(d, x, idx);
    var filled := Bytes(Splice(Zeros(BLOCK_SIZE), x.size % BLOCK_SIZE, chunk));
    var y := x.(size := x.size + |chunk|, blockCount := x.blockCount + 1);
    var idx' := idx[x.size / BLOCK_SIZE := b];
    var m := MarkBlock(d, b, true);
    PutInodeTwice(m[x.indexBlock := Index(idx)], x.inodeNo, x, y, b, filled);
    var v := Commit(d, x, idx);
    CommitThenMark(d, x, idx, b);
    assert AddBlock(v, x.inodeNo, b, chunk) ==
           PutInode(MarkBlock(v, b, true)[b := filled][x.indexBlock := Index(idx')], x.inodeNo, y);
    PutInodeTwice(MarkBlock(v, b, true)[b := filled], x.inodeNo, x, y, x.indexBlock, Index(idx'));
  }

  lemma SlicesMeet(s: seq<byte>, a: nat, b: nat, c: nat)
    requires a <= b <= c <= |s|
    ensures s[a..b] + s[b..c] == s[a..c]
  {
  }

  lemma BlockIsContent(d: Disk, x: Inode, at: nat, len: nat)
    requires FileOk(d, x) && at + len <= x.size && 0 < len && at % BLOCK_SIZE + len <= BLOCK_SIZE
    ensures at / BLOCK_SIZE < x.blockCount
    ensures d[d[x.indexBlock].ptrs[at / BLOCK_SIZE]].bytes[at % BLOCK_SIZE..at % BLOCK_SIZE + len] ==
            Content(d, x)[at..at + len]
  {
    InBlock(x.size, at);
    var part := d[d[x.indexBlock].ptrs[at / BLOCK_SIZE]].bytes[at % BLOCK_SIZE..at % BLOCK_SIZE + len];
    forall i | 0 <= i < len ensures part[i] == Content(d, x)[at + i] {
      InBlock(x.size, at + i);
      assert (at + i) / BLOCK_SIZE == at / BLOCK_SIZE && (at + i) % BLOCK_SIZE == at % BLOCK_SIZE + i;
      assert Content(d, x)[at + i] == ByteAt(d, x, at + i);
    }
  }

  lemma FreeNothing(d: Disk)
    requires Layout(d)
    ensures FreeAll(d, []) == d
  {
  }

  lemma {:induction false} FreeAllSnoc(d: Disk, bs: seq<nat>, b: nat)
    requires Layout(d)
    ensures var e := FreeAll(d, bs);
            FreeAll(d, bs + [b]) == if IsDataBlock(e, b) then MarkBlock(e, b, false) else e
    decreases |bs|
  {
    if bs == [] {
      assert (bs + [b])[1..] == [];
    } else {
      assert (bs + [b])[1..] == bs[1..] + [b];
      FreeAllSnoc(if IsDataBlock(d, bs[0]) then MarkBlock(d, bs[0], false) else d, bs[1..], b);
    }
  }

  lemma {:induction false} FreeAllKeepsRest(d: Disk, bs: seq<nat>)
    requires Layout(d)
    ensures FreeAll(d, bs) == d[BLOCK_BITMAP := FreeAll(d, bs)[BLOCK_BITMAP]]
    decreases |bs|
  {
    if bs == [] {
    } else {
      FreeAllKeepsRest(if IsDataBlock(d, bs[0]) then MarkBlock(d, bs[0], false) else d, bs[1..]);
    }
  }

  lemma {:induction false} FirstClearIs(bitmap: seq<byte>, from: nat, end: nat, b: nat)
    requires from <= b <= end <= 8 * |bitmap| && (b < end ==> !GetBit(bitmap, b))
    requires forall i :: from <= i < b ==> GetBit(bitmap, i)
    ensures FirstClear(bitmap, from, end) == b
  {
  }

  lemma {:induction false} FindEntryIs(es: seq<DirEntry>, name: string, from: nat, k: nat)
    requires from <= k <= |es| && (k < |es| ==> es[k].used && es[k].name == name)
    requires forall i :: from <= i < k ==> !(es[i].used && es[i].name == name)
    ensures FindEntry(es, name, from) == k
  {
  }

  lemma {:induction false} FindUnusedIs(es: seq<DirEntry>, from: nat, k: nat)
    requires from <= k <= |es| && (k < |es| ==> !es[k].used)
    requires forall i :: from <= i < k ==> es[i].used
    ensures FindUnused(es, from) == k
  {
  }
}
