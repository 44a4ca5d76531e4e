/** Writing, reading, and whole runs of operations from a freshly formatted disk. */
module MfsRuns {
  import opened CommonTypes
  import opened Bits
  import opened MfsDisk
  import opened MfsOps
  import opened MfsInvariant
  import opened MfsAppend
  import opened MfsFiles

  // ---- write ----

  /** The write loop on slot `k`, after giving the file an index block if it has none. */
  ghost function WriteSlot(d: Disk, k: int, buf: seq<byte>): (r: (Disk, Result<nat>))
    requires Consistent(d) && Live(d, k)
    ensures Layout(r.0)
  {
    if FileAt(d, k).indexBlock == 0 && FreeBlock(d) == |d| then (d, Err(ENOSPC))
    else
      var e := Ready(d, k);
      var (f, n) := Append(e, k, buf);
      (f, if n > 0 then Ok(n) else Err(ENOSPC))
  }

  /** The disk at the start of the write loop. */
  ghost function Ready(d: Disk, k: int): (e: Disk)
    requires Consistent(d) && Live(d, k)
    requires FileAt(d, k).indexBlock == 0 ==> FreeBlock(d) < |d|
    ensures Appendable(e, k)
  {
    if FileAt(d, k).indexBlock == 0 then
      GiveIndexConsistent(d, k, FreeBlock(d));
      GiveIndex(d, Root(d)[k].inodeNo, FreeBlock(d))
    else d
  }

  ghost function Write(d: Disk, path: string, buf: seq<byte>, offset: nat): (r: (Disk, Result<nat>))
    requires Consistent(d) && !DotPath(path)
    ensures Layout(r.0)
  {
    if buf == [] then (d, Ok(0))
    else
      match PathName(path)
      case None => (d, Err(EINVAL))
      case Some(name) =>
        if name == "" then (d, Err(EINVAL))
        else
          FindsItsSlot(d, name);
          if SlotOf(d, name) == DIR_ENTRIES then (d, Err(ENOENT))
          else if offset != FileAt(d, SlotOf(d, name)).size then (d, Err(EOPNOTSUPP))
          else WriteSlot(d, SlotOf(d, name), buf)
  }

  /** How many bytes a write to this file can still take: a new index block costs one free block. */
  ghost function Room(d: Disk, name: string): nat
    requires Consistent(d) && name in Files(d)
  {
    FindsItsSlot(d, name);
    RoomOf(FileAt(d, SlotOf(d, name)), |FreeSet(d)|)
  }

  function RoomOf(x: Inode, free: nat): nat {
    if x.indexBlock != 0 then Capacity(x.size, free)
    else if free == 0 then 0
    else Capacity(x.size, free - 1)
  }

  lemma FreeBlockIsFree(d: Disk)
    requires Layout(d)
    ensures FreeBlock(d) < |d| ==> FreeBlock(d) in FreeSet(d)
    ensures FreeBlock(d) == |d| <==> FreeSet(d) == {}
  {
  }

  lemma GiveIndexTakesOne(d: Disk, n: int, b: nat)
    requires Layout(d) && IsInodeNo(n) && b in FreeSet(d)
    ensures FreeSet(GiveIndex(d, n, b)) == FreeSet(d) - {b}
    ensures |FreeSet(GiveIndex(d, n, b))| == |FreeSet(d)| - 1
  {
    var e := GiveIndex(d, n, b);
    assert BlockMap(e) == SetBit(BlockMap(d), b, true);
    forall c: nat | FIRST_DATA <= c < |d| ensures c in FreeSet(e) <==> c in FreeSet(d) && c != b {
      SetThenGet(BlockMap(d), b, true, c);
    }
    assert FreeSet(e) == FreeSet(d) - {b};
  }

  lemma ReadyMeans(d: Disk, k: int)
    requires Consistent(d) && Live(d, k)
    requires FileAt(d, k).indexBlock == 0 ==> FreeBlock(d) < |d|
    ensures var e := Ready(d, k);
            && OthersKept(d, e, k) && Root(e) == Root(d) && FileAt(e, k).size == FileAt(d, k).size
            && Content(e, FileAt(e, k)) == Content(d, FileAt(d, k))
            && Capacity(FileAt(e, k).size, |FreeSet(e)|) == RoomOf(FileAt(d, k), |FreeSet(d)|)
  {
    if FileAt(d, k).indexBlock == 0 {
      var b := FreeBlock(d);
      GiveIndexConsistent(d, k, b);
      FreeBlockIsFree(d);
      GiveIndexTakesOne(d, Root(d)[k].inodeNo, b);
    }
  }

  /** A write to a live slot appends what fits and says how much; it fails only when nothing fits. */
  lemma WriteSlotMeans(d: Disk, k: int, buf: seq<byte>)
    requires Consistent(d) && Live(d, k) && buf != []
    ensures var (e, r) := WriteSlot(d, k, buf);
            var n := Least(|buf|, RoomOf(FileAt(d, k), |FreeSet(d)|));
            && Consistent(e) && OthersKept(d, e, k) && Root(e) == Root(d) && Live(e, k)
            && r == (if n == 0 then Err(ENOSPC) else Ok(n))
            && Content(e, FileAt(e, k)) == Content(d, FileAt(d, k)) + buf[..n]
  {
    FreeBlockIsFree(d);
    if FileAt(d, k).indexBlock == 0 && FreeBlock(d) == |d| {
      assert Content(d, FileAt(d, k)) + buf[..0] == Content(d, FileAt(d, k));
    } else {
      ReadyMeans(d, k);
      var e := Ready(d, k);
      AppendIsExact(e, k, buf);
      AppendExtends(e, k, buf);
      ThroughMiddle(d, e, Append(e, k, buf).0, k);
    }
  }

  /** Keeping the other slots twice is keeping them. */
  lemma ThroughMiddle(d: Disk, e: Disk, f: Disk, k: int)
    requires Consistent(d) && Consistent(e) && Layout(f) && OthersKept(d, e, k) && OthersKept(e, f, k)
    ensures OthersKept(d, f, k)
  {
    forall l | Live(d, l) && l != k ensures SlotKept(d, f, l) {
      SlotFrame(d, e, l);
      assert SlotKept(e, f, l);
    }
  }

  /** The path names a file there is. */
  ghost predicate Exists(d: Disk, path: string)
    requires Consistent(d)
  {
    PathName(path).Some? && PathName(path).value in Files(d)
  }

  lemma WriteFindsSlot(d: Disk, path: string, buf: seq<byte>, offset: nat)
    requires Consistent(d) && !DotPath(path) && buf != []
    ensures !Exists(d, path) ==>
              Write(d, path, buf, offset) == (d, Err(if PathName(path) in {None, Some("")} then EINVAL else ENOENT))
    ensures Exists(d, path) ==>
              var k := SlotOf(d, PathName(path).value);
              && Live(d, k) && Root(d)[k].name == PathName(path).value
              && Files(d)[PathName(path).value] == Content(d, FileAt(d, k))
              && Room(d, PathName(path).value) == RoomOf(FileAt(d, k), |FreeSet(d)|)
              && Write(d, path, buf, offset) ==
                   if offset != FileAt(d, k).size then (d, Err(EOPNOTSUPP)) else WriteSlot(d, k, buf)
  {
    if PathName(path).Some? {
      var name := PathName(path).value;
      if name in Names(d) {
        NamesAreOk(d, name);
      }
      if name != "" {
        FindsItsSlot(d, name);
      }
    }
  }

  /**
   * A write at the current size appends exactly as many bytes as there is room for, says how
   * many, and changes no other file; it fails with ENOSPC exactly when there is room for none.
   */
  lemma WriteMeans(d: Disk, path: string, buf: seq<byte>, offset: nat)
    requires Consistent(d) && !DotPath(path) && buf != [] && Exists(d, path)
    ensures var (e, r) := Write(d, path, buf, offset);
            var name, was := PathName(path).value, Files(d)[PathName(path).value];
            var n := Least(|buf|, Room(d, name));
            && Consistent(e)
            && (offset != |was| ==> r == Err(EOPNOTSUPP) && e == d)
            && (offset == |was| ==>
                  && r == (if n == 0 then Err(ENOSPC) else Ok(n))
                  && Files(e) == Files(d)[name := was + buf[..n]])
  {
    WriteFindsSlot(d, path, buf, offset);
    var k := SlotOf(d, PathName(path).value);
    WriteSlotMeans(d, k, buf);
    FilesAfterChange(d, WriteSlot(d, k, buf).0, k);
  }

  lemma WriteKeepsConsistent(d: Disk, path: string, buf: seq<byte>, offset: nat)
    requires Consistent(d) && !DotPath(path)
    ensures Consistent(Write(d, path, buf, offset).0)
  {
    if buf != [] {
      WriteFindsSlot(d, path, buf, offset);
      if Exists(d, path) {
        WriteMeans(d, path, buf, offset);
      }
    }
  }

  // ---- Runs ----

  datatype Op =
    | DoCreate(path: string)
    | DoUnlink(path: string)
    | DoWrite(path: string, buf: seq<byte>, offset: nat)

  /** One operation: the disk after it, and how many bytes it reports or its error. */
  ghost function Do(d: Disk, op: Op): (r: (Disk, Result<nat>))
    requires Consistent(d) && !DotPath(op.path)
    ensures Consistent(r.0)
  {
    match op
    case DoCreate(path) =>
      CreateMeans(d, path);
      var (e, r) := Create(d, path);
      (e, if r.Ok? then Ok(0) else Err(r.errno))
    case DoUnlink(path) =>
      UnlinkMeans(d, path);
      var (e, r) := Unlink(d, path);
      (e, if r.Ok? then Ok(0) else Err(r.errno))
    case DoWrite(path, buf, offset) =>
      WriteKeepsConsistent(d, path, buf, offset);
      Write(d, path, buf, offset)
  }

  ghost predicate NoDots(ops: seq<Op>) {
    forall i :: 0 <= i < |ops| ==> !DotPath(ops[i].path)
  }

  ghost function RunOps(d: Disk, ops: seq<Op>): (e: Disk)
    requires Consistent(d) && NoDots(ops)
    ensures Consistent(e)
    decreases |ops|
  {
    if ops == [] then d else RunOps(Do(d, ops[0]).0, ops[1..])
  }

  /** What a caller who sees only the answers believes the files to be. */
  ghost function Believed(m: map<string, seq<byte>>, d: Disk, ops: seq<Op>): map<string, seq<byte>>
    requires Consistent(d) && NoDots(ops)
    decreases |ops|
  {
    if ops == [] then m
    else Believed(Told(m, ops[0], Do(d, ops[0]).1), Do(d, ops[0]).0, ops[1..])
  }

  /** What one answer says: a success took effect in full, an error not at all. */
  function Told(m: map<string, seq<byte>>, op: Op, answer: Result<nat>): map<string, seq<byte>> {
    if answer.Err? || PathName(op.path).None? then m
    else
      var name := PathName(op.path).value;
      match op
      case DoCreate(_) => m[name := []]
      case DoUnlink(_) => m - {name}
      case DoWrite(_, buf, _) =>
        if name in m && answer.value <= |buf| then m[name := m[name] + buf[..answer.value]] else m
  }

  lemma NothingAppended(m: map<string, seq<byte>>, name: string, buf: seq<byte>)
    requires name in m
    ensures m[name := m[name] + buf[..0]] == m
  {
    assert m[name] + buf[..0] == m[name];
  }

  lemma WriteRefines(d: Disk, path: string, buf: seq<byte>, offset: nat)
    requires Consistent(d) && !DotPath(path)
    ensures var (e, r) := Write(d, path, buf, offset);
            Consistent(e) && Files(e) == Told(Files(d), DoWrite(path, buf, offset), r)
  {
    if Exists(d, path) {
      NothingAppended(Files(d), PathName(path).value, buf);
    }
    if buf != [] {
      WriteFindsSlot(d, path, buf, offset);
      if Exists(d, path) {
        WriteExistingRefines(d, path, buf, offset);
      }
    }
  }

  lemma WriteExistingRefines(d: Disk, path: string, buf: seq<byte>, offset: nat)
    requires Consistent(d) && !DotPath(path) && buf != [] && Exists(d, path)
    ensures var (e, r) := Write(d, path, buf, offset);
            Consistent(e) && Files(e) == Told(Files(d), DoWrite(path, buf, offset), r)
  {
    hide Write, SlotsOk, Disjoint, BitmapsOk, Files, Room, Layout;
    WriteMeans(d, path, buf, offset);
    NothingAppended(Files(d), PathName(path).value, buf);
  }

  lemma OneOpRefines(d: Disk, op: Op)
    requires Consistent(d) && !DotPath(op.path)
    ensures Files(Do(d, op).0) == Told(Files(d), op, Do(d, op).1)
  {
    hide Create, SlotsOk, Disjoint, BitmapsOk;
    match op
    case DoCreate(path) => CreateMeans(d, path);
    case DoUnlink(path) => UnlinkMeans(d, path);
    case DoWrite(path, buf, offset) => WriteRefines(d, path, buf, offset);
  }

  lemma {:induction false} RunRefines(d: Disk, ops: seq<Op>)
    requires Consistent(d) && NoDots(ops)
    ensures Files(RunOps(d, ops)) == Believed(Files(d), d, ops)
    decreases |ops|
  {
    if ops == [] {
    } else {
      OneOpRefines(d, ops[0]);
      RunRefines(Do(d, ops[0]).0, ops[1..]);
    }
  }

  lemma NoFilesNoNames(d: Disk)
    requires Layout(d) && forall k :: !Live(d, k)
    ensures Names(d) == {}
  {
    forall k | 2 <= k < DIR_ENTRIES ensures !Root(d)[k].used {
      assert !Live(d, k);
    }
  }

  /** From formatting on, the disk always holds exactly what the answers say it holds. */
  lemma DiskRefinesMap(d: Disk, ops: seq<Op>)
    requires 128 <= |d| <= 4096 && NoDots(ops)
    ensures Consistent(Format(d)) && Files(Format(d)) == map[]
    ensures Files(RunOps(Format(d), ops)) == Believed(map[], Format(d), ops)
  {
    FormatConsistent(d);
    NoFilesNoNames(Format(d));
    assert Files(Format(d)).Keys == {};
    RunRefines(Format(d), ops);
  }

  /**
   * Ownership after any run: a data block is marked exactly if some file has it, as its index
   * block or as one entry of it, and then only one file has it, and only once.
   */
  lemma OwnershipAfterAnyRun(d: Disk, ops: seq<Op>, b: nat)
    requires 128 <= |d| <= 4096 && NoDots(ops) && FIRST_DATA <= b < 8 * BLOCK_SIZE
    ensures Consistent(Format(d))
    ensures var e := RunOps(Format(d), ops);
            && (GetBit(BlockMap(e), b) <==> exists k, i :: HasBlock(e, k, i, b))
            && (forall k, i, l, j :: HasBlock(e, k, i, b) && HasBlock(e, l, j, b) ==> k == l && i == j)
  {
    hide RunOps, Format, FileOk;
    FormatConsistent(d);
    var e := RunOps(Format(d), ops);
    if GetBit(BlockMap(e), b) {
      assert Owned(e, b);
      var k :| Live(e, k) && b in SlotBlocks(e, k);
      var i :| 0 <= i < |SlotBlocks(e, k)| && SlotBlocks(e, k)[i] == b;
      assert HasBlock(e, k, i, b);
    }
    if k, i :| HasBlock(e, k, i, b) {
      assert b in SlotBlocks(e, k);
      assert Owned(e, b);
    }
  }

  ghost predicate HasBlock(d: Disk, k: int, i: int, b: nat)
    requires Consistent(d)
  {
    Live(d, k) && 0 <= i < |SlotBlocks(d, k)| && SlotBlocks(d, k)[i] == b
  }

  // ---- What unlink undoes ----

  /** With a slot empty before and after, and the others kept, the bitmaps are the same bytes. */
  lemma BitmapsFollowFiles(d: Disk, e: Disk, k: int)
    requires Consistent(d) && Consistent(e) && OthersKept(d, e, k) && !Live(d, k) && !Live(e, k)
    ensures BlockMap(e) == BlockMap(d) && InodeMap(e) == InodeMap(d)
  {
    OthersFramed(d, e, k);
    forall b: nat | b < 8 * BLOCK_SIZE ensures GetBit(BlockMap(e), b) == GetBit(BlockMap(d), b) {
      SameOwners(d, e, k, b);
    }
    forall i: nat | i < 8 * BLOCK_SIZE ensures GetBit(InodeMap(e), i) == GetBit(InodeMap(d), i) {
      SameInodes(d, e, k, i + 1);
    }
    BitmapIsItsBits(BlockMap(e), BlockMap(d));
    BitmapIsItsBits(InodeMap(e), InodeMap(d));
  }

  lemma SameOwners(d: Disk, e: Disk, k: int, b: nat)
    requires Consistent(d) && Consistent(e) && OthersKept(d, e, k) && !Live(d, k) && !Live(e, k)
    ensures Owned(e, b) == Owned(d, b)
  {
    OthersFramed(d, e, k);
    if Owned(d, b) {
      var l :| Live(d, l) && b in SlotBlocks(d, l);
      assert Live(e, l) && b in SlotBlocks(e, l);
    }
    if Owned(e, b) {
      var l :| Live(e, l) && b in SlotBlocks(e, l);
      assert Live(d, l) && b in SlotBlocks(d, l);
    }
  }

  lemma SameInodes(d: Disk, e: Disk, k: int, n: nat)
    requires Consistent(d) && Consistent(e) && OthersKept(d, e, k) && !Live(d, k) && !Live(e, k)
    ensures InodeInUse(e, n) == InodeInUse(d, n)
  {
    if InodeInUse(d, n) {
      var l :| Live(d, l) && Root(d)[l].inodeNo == n;
      assert SlotKept(d, e, l) && Live(e, l);
    }
    if InodeInUse(e, n) {
      var l :| Live(e, l) && Root(e)[l].inodeNo == n;
      assert Live(d, l) && SlotKept(d, e, l);
    }
  }

  ghost predicate WritesTo(ops: seq<Op>, path: string) {
    forall i :: 0 <= i < |ops| ==> ops[i].DoWrite? && ops[i].path == path
  }

  lemma KeepsItself(d: Disk, k: int)
    requires Layout(d) && SlotsKnown(d)
    ensures OthersKept(d, d, k)
  {
  }

  lemma WriteStaysInSlot(d: Disk, op: Op, k: int)
    requires Consistent(d) && !DotPath(op.path) && op.DoWrite?
    requires Live(d, k) && PathName(op.path) == Some(Root(d)[k].name)
    ensures var e := Do(d, op).0; OthersKept(d, e, k) && Root(e) == Root(d)
  {
    hide WriteSlot, Disjoint, BitmapsOk, OthersKept;
    KeepsItself(d, k);
    FileOfSlot(d, k);
    if op.buf != [] {
      WriteFindsSlot(d, op.path, op.buf, op.offset);
      WriteSlotMeans(d, k, op.buf);
    }
  }

  /** Any writes to one file, successful or not, leave its slot live and the others as they were. */
  lemma {:induction false} WritesStayInSlot(d: Disk, ops: seq<Op>, path: string, k: int)
    requires Consistent(d) && !DotPath(path) && WritesTo(ops, path)
    requires Live(d, k) && PathName(path) == Some(Root(d)[k].name)
    ensures NoDots(ops)
    ensures var e := RunOps(d, ops); OthersKept(d, e, k) && Root(e) == Root(d)
    decreases |ops|
  {
    if ops == [] {
    } else {
      var e := Do(d, ops[0]).0;
      WriteStaysInSlot(d, ops[0], k);
      WritesStayInSlot(e, ops[1..], path, k);
      ThroughMiddle(d, e, RunOps(e, ops[1..]), k);
    }
  }

  lemma CreateFillsSlot(d: Disk, path: string) returns (k: int)
    requires Consistent(d) && !DotPath(path) && Do(d, DoCreate(path)).1.Ok?
    ensures var e := Do(d, DoCreate(path)).0;
            && OthersKept(d, e, k) && !Live(d, k) && Live(e, k) && PathName(path) == Some(Root(e)[k].name)
  {
    var name := PathName(path).value;
    k := FindUnused(Root(d), 2);
    CreateMeans(d, path);
    FindsItsSlot(d, name);
    AddFileConsistent(d, k, name, FreeInode(d));
  }

  lemma UnlinkClearsSlot(d: Disk, path: string, k: int)
    requires Consistent(d) && !DotPath(path) && Live(d, k) && PathName(path) == Some(Root(d)[k].name)
    ensures var (e, r) := Do(d, DoUnlink(path)); r.Ok? && OthersKept(d, e, k) && !Live(e, k)
  {
    UnlinkMeans(d, path);
    FileOfSlot(d, k);
    RemoveFileConsistent(d, k);
  }

  /** Creating a file, writing to it any number of times, and unlinking it restores both bitmaps bit for bit. */
  lemma UnlinkRestoresBitmaps(d: Disk, path: string, ops: seq<Op>)
    requires Consistent(d) && !DotPath(path) && WritesTo(ops, path)
    requires Do(d, DoCreate(path)).1.Ok?
    ensures NoDots(ops)
    ensures var (f, r) := Do(RunOps(Do(d, DoCreate(path)).0, ops), DoUnlink(path));
            r.Ok? && BlockMap(f) == BlockMap(d) && InodeMap(f) == InodeMap(d) && Files(f) == Files(d)
  {
    var k := CreateFillsSlot(d, path);
    var c := Do(d, DoCreate(path)).0;
    WritesStayInSlot(c, ops, path, k);
    var e := RunOps(c, ops);
    ThroughMiddle(d, c, e, k);
    UnlinkClearsSlot(e, path, k);
    var f := Do(e, DoUnlink(path)).0;
    ThroughMiddle(d, e, f, k);
    BitmapsFollowFiles(d, f, k);
    NoFileInSlot(d, f, k);
  }

  lemma NoFileInSlot(d: Disk, e: Disk, k: int)
    requires Consistent(d) && Consistent(e) && OthersKept(d, e, k) && !Live(d, k) && !Live(e, k)
    ensures Files(e) == Files(d)
  {
    forall name: string
      ensures name in Files(e) <==> name in Files(d)
      ensures name in Files(d) ==> Files(e)[name] == Files(d)[name]
    {
      FilesOutside(d, e, k, name);
    }
  }
}
