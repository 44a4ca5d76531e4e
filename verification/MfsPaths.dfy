/** The operations by name: what each answers and does at "/name", in numbers. */
module MfsPaths {
  import opened CommonTypes
  import opened Bits
  import opened MfsDisk
  import opened MfsOps
  import opened MfsInvariant
  import opened MfsAppend
  import opened MfsFiles
  import opened MfsRuns

  /** What `make_mfs` writes: six blocks of metadata, of which all bits and records are known; nothing else changes. */
  lemma FormatMeans(d: Disk)
    requires 128 <= |d| <= 4096
    ensures var e := Format(d);
            && |e| == |d| && e[0] == Super(|d|) && (forall b :: 6 <= b < |d| ==> e[b] == d[b])
            && (forall b: nat :: b < 131072 ==> (GetBit(BlockMap(e), b) <==> b < 6))
            && (forall i: nat :: i < 131072 ==> (GetBit(InodeMap(e), i) <==> i == 0))
            && InodeAt(e, 1) == Inode(1, 128, 1, 5) && (forall n :: 2 <= n <= 256 ==> InodeAt(e, n) == Inode(0, 0, 0, 0))
            && Root(e)[0] == DirEntry(1, ".", true) && Root(e)[1] == DirEntry(1, "..", true)
            && (forall k :: 2 <= k < 256 ==> Root(e)[k] == DirEntry(0, "", false))
  {
    var e := Format(d);
    forall b: nat | b < 131072 ensures GetBit(BlockMap(e), b) <==> b < 6 {
      MarkFirstBits(FIRST_DATA, b);
    }
    forall i: nat | i < 131072 ensures GetBit(InodeMap(e), i) <==> i == 0 {
      ZerosAreClear(i);
      SetThenGet(Zeros(BLOCK_SIZE), 0, true, i);
    }
  }

  /** A name as the kernel can pass it down. */
  predicate Passed(name: string) {
    '/' !in name && name != "." && name != ".."
  }

  lemma PassedPath(name: string)
    requires Passed(name)
    ensures PathName("/" + name) == Some(name) && !DotPath("/" + name)
  {
    NameAfterSlash("/" + name, name);
    assert ("/" + name)[1..] == name;
  }

  lemma NamesAreNotEmpty(d: Disk)
    requires Consistent(d)
    ensures forall name :: name in Files(d) ==> 0 < |name| <= 31
  {
    hide Disjoint, BitmapsOk;
    forall name | name in Files(d) ensures 0 < |name| <= 31 {
      NamesAreOk(d, name);
    }
  }

  /** `mfs_create("/name")`: the first of these answers that applies; only success changes anything. */
  lemma CreateByName(d: Disk, name: string)
    requires Consistent(d) && Passed(name)
    ensures var (e, r) := Create(d, "/" + name);
            && r == (if name == "" then Err(EINVAL)
                     else if |name| > 31 then Err(ENAMETOOLONG)
                     else if name in Files(d) then Err(EEXIST)
                     else if |Files(d)| == 254 then Err(ENOSPC)
                     else Ok(()))
            && Consistent(e) && (r.Err? ==> e == d)
            && (r.Ok? ==> Files(e) == Files(d)[name := []])
  {
    hide Files, Disjoint, BitmapsOk, SlotsOk;
    PassedPath(name);
    NamesAreNotEmpty(d);
    CreateMeans(d, "/" + name);
    CreateErrors(d, "/" + name);
    FullIff(d);
  }

  /** `mfs_unlink("/name")`. */
  lemma UnlinkByName(d: Disk, name: string)
    requires Consistent(d) && Passed(name)
    ensures var (e, r) := Unlink(d, "/" + name);
            && r == (if name == "" then Err(EINVAL) else if name !in Files(d) then Err(ENOENT) else Ok(()))
            && Consistent(e) && (r.Err? ==> e == d)
            && (r.Ok? ==> Files(e) == Files(d) - {name})
  {
    hide Files, Disjoint, BitmapsOk, SlotsOk;
    PassedPath(name);
    NamesAreNotEmpty(d);
    UnlinkMeans(d, "/" + name);
  }

  /** `mfs_write("/name")`: what is answered, and what the file and the others hold afterwards. */
  lemma WriteByName(d: Disk, name: string, buf: seq<byte>, offset: nat)
    requires Consistent(d) && Passed(name)
    ensures !DotPath("/" + name)
    ensures var (e, r) := Write(d, "/" + name, buf, offset);
            && Consistent(e) && (buf == [] ==> r == Ok(0) && e == d)
            && (buf != [] && name !in Files(d) ==> r == Err(if name == "" then EINVAL else ENOENT) && e == d)
            && (buf != [] && name in Files(d) && offset != |Files(d)[name]| ==> r == Err(EOPNOTSUPP) && e == d)
            && (buf != [] && name in Files(d) && offset == |Files(d)[name]| ==>
                  var n := Least(|buf|, Room(d, name));
                  && r == (if n == 0 then Err(ENOSPC) else Ok(n))
                  && Files(e) == Files(d)[name := Files(d)[name] + buf[..n]])
  {
    hide Files, Disjoint, BitmapsOk, SlotsOk, WriteSlot;
    PassedPath(name);
    NamesAreNotEmpty(d);
    if buf != [] {
      WriteFindsSlot(d, "/" + name, buf, offset);
      if name in Files(d) {
        WriteMeans(d, "/" + name, buf, offset);
      }
    }
  }

  /** Any other path is refused, and nothing changes. */
  lemma NoNameNoFile(d: Disk, path: string, buf: seq<byte>, offset: nat)
    requires Consistent(d) && (path == "" || path[0] != '/' || '/' in path[1..])
    ensures !DotPath(path)
    ensures Create(d, path) == (d, Err(EINVAL)) && Unlink(d, path) == (d, Err(EINVAL))
    ensures Write(d, path, buf, offset) == (d, if buf == [] then Ok(0) else Err(EINVAL))
  {
    hide Disjoint, BitmapsOk;
    PathNameMeans(path);
  }

  /**
   * The room of a file with `f` blocks free: what its last block still holds, and `f` blocks of
   * 16384 bytes, one less if it has yet to get an index block.
   */
  lemma RoomInNumbers(d: Disk, name: string)
    requires Consistent(d) && name in Files(d)
    ensures var size, f := |Files(d)[name]|, |FreeSet(d)|;
            var tail := if size % 16384 == 0 then 0 else 16384 - size % 16384;
            && (size > 0 ==> Room(d, name) == tail + 16384 * f)
            && (size == 0 ==> Room(d, name) == 16384 * f || Room(d, name) == 16384 * (if f == 0 then 0 else f - 1))
            && (size == 0 ==> (Room(d, name) == 16384 * f <== Live(d, SlotOf(d, name)) && SlotOk(d, SlotOf(d, name)) &&
                                                             FileAt(d, SlotOf(d, name)).indexBlock != 0))
  {
    hide Disjoint, BitmapsOk, FreeSet;
    FindsItsSlot(d, name);
    FileOfSlot(d, SlotOf(d, name));
  }
}
