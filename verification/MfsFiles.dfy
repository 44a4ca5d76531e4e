/** The disk as a map from names to contents, and what each operation means for it. */
module MfsFiles {
  import opened CommonTypes
  import opened Bits
  import opened MfsDisk
  import opened MfsOps
  import opened MfsInvariant
  import opened MfsAppend

  ghost function Names(d: Disk): set<string>
    requires Layout(d)
  {
    set k | 2 <= k < DIR_ENTRIES && Root(d)[k].used :: Root(d)[k].name
  }

  function SlotOf(d: Disk, name: string): nat
    requires Layout(d)
  {
    FindEntry(Root(d), name, 0)
  }

  /** `find_dir_entry` finds a file's own slot, and finds one exactly for the names there are. */
  lemma FindsItsSlot(d: Disk, name: string)
    requires Consistent(d) && ((name != "." && name != "..") || name in Names(d))
    ensures SlotOf(d, name) < DIR_ENTRIES <==> name in Names(d)
    ensures SlotOf(d, name) < DIR_ENTRIES ==> Live(d, SlotOf(d, name)) && Root(d)[SlotOf(d, name)].name == name
    ensures forall k :: Live(d, k) && Root(d)[k].name == name ==> SlotOf(d, name) == k
  {
    var j := SlotOf(d, name);
    assert name != "." && name != ".." by {
      if name in Names(d) {
        var k :| Live(d, k) && Root(d)[k].name == name;
        assert SlotOk(d, k);
      }
    }
    if j < DIR_ENTRIES {
      assert Live(d, j);
    }
  }

  /** What the file system holds. */
  ghost function Files(d: Disk): map<string, seq<byte>>
    requires Consistent(d)
  {
    map name | name in Names(d) :: FileNamed(d, name)
  }

  ghost function FileNamed(d: Disk, name: string): seq<byte>
    requires Consistent(d) && name in Names(d)
  {
    FindsItsSlot(d, name);
    Content(d, FileAt(d, SlotOf(d, name)))
  }

  lemma FileOfSlot(d: Disk, k: int)
    requires Consistent(d) && Live(d, k)
    ensures Root(d)[k].name in Names(d) && SlotOf(d, Root(d)[k].name) == k
    ensures Files(d)[Root(d)[k].name] == Content(d, FileAt(d, k))
  {
    FindsItsSlot(d, Root(d)[k].name);
  }

  /** Files in other slots come through a change of slot `k` unharmed. */
  lemma FilesOutside(d: Disk, e: Disk, k: int, name: string)
    requires Consistent(d) && Consistent(e) && OthersKept(d, e, k)
    requires Live(d, k) ==> Root(d)[k].name != name
    requires Live(e, k) ==> Root(e)[k].name != name
    ensures name in Files(e) <==> name in Files(d)
    ensures name in Files(d) ==> Files(e)[name] == Files(d)[name]
  {
    OthersFramed(d, e, k);
    if name in Names(d) {
      var l :| Live(d, l) && Root(d)[l].name == name;
      assert SlotKept(d, e, l) && Live(e, l);
      FileOfSlot(d, l);
      FileOfSlot(e, l);
    }
    if name in Names(e) {
      var l :| Live(e, l) && Root(e)[l].name == name;
      assert Live(d, l) && SlotKept(d, e, l);
    }
  }

  /** Slot `k` held nothing, and now holds `name`. */
  lemma FilesAfterAdd(d: Disk, e: Disk, k: int, name: string)
    requires Consistent(d) && Consistent(e) && OthersKept(d, e, k) && !Live(d, k) && Live(e, k)
    requires Root(e)[k].name == name
    ensures Files(e) == Files(d)[name := Content(e, FileAt(e, k))]
  {
    FileOfSlot(e, k);
    forall other: string | other != name
      ensures other in Files(e) <==> other in Files(d)
      ensures other in Files(d) ==> Files(e)[other] == Files(d)[other]
    {
      FilesOutside(d, e, k, other);
    }
  }

  lemma NameIsGone(d: Disk, e: Disk, k: int)
    requires Consistent(d) && Layout(e) && OthersKept(d, e, k) && Live(d, k) && !Live(e, k)
    ensures Root(d)[k].name !in Names(e)
  {
    forall l | Live(e, l) ensures Root(e)[l].name != Root(d)[k].name {
      assert Live(d, l) && SlotKept(d, e, l);
    }
  }

  lemma FilesAfterRemove(d: Disk, e: Disk, k: int)
    requires Consistent(d) && Consistent(e) && OthersKept(d, e, k) && Live(d, k) && !Live(e, k)
    ensures Files(e) == Files(d) - {Root(d)[k].name}
  {
    var name := Root(d)[k].name;
    NameIsGone(d, e, k);
    forall other: string | other != name
      ensures other in Files(e) <==> other in Files(d)
      ensures other in Files(d) ==> Files(e)[other] == Files(d)[other]
    {
      FilesOutside(d, e, k, other);
    }
  }

  lemma FilesAfterChange(d: Disk, e: Disk, k: int)
    requires Consistent(d) && Consistent(e) && OthersKept(d, e, k) && Live(d, k) && Live(e, k)
    requires Root(e)[k] == Root(d)[k]
    ensures Files(e) == Files(d)[Root(d)[k].name := Content(e, FileAt(e, k))]
  {
    FileOfSlot(d, k);
    FileOfSlot(e, k);
    forall other: string | other != Root(d)[k].name
      ensures other in Files(e) <==> other in Files(d)
      ensures other in Files(d) ==> Files(e)[other] == Files(d)[other]
    {
      FilesOutside(d, e, k, other);
    }
  }

  // ---- Counting slots and inodes ----

  /** How many of the slots from 2 up to `hi` are used. */
  function Used(es: seq<DirEntry>, hi: nat): (n: nat)
    requires 2 <= hi <= |es|
    ensures n <= hi - 2
    ensures n == hi - 2 <==> forall k :: 2 <= k < hi ==> es[k].used
  {
    if hi == 2 then 0 else Used(es, hi - 1) + if es[hi - 1].used then 1 else 0
  }

  function NamesIn(es: seq<DirEntry>, hi: nat): (names: set<string>)
    requires 2 <= hi <= |es|
    ensures forall k :: 2 <= k < hi && es[k].used ==> es[k].name in names
    ensures forall name :: name in names ==> exists k :: 2 <= k < hi && es[k].used && es[k].name == name
  {
    if hi == 2 then {} else NamesIn(es, hi - 1) + if es[hi - 1].used then {es[hi - 1].name} else {}
  }

  ghost predicate NamesDiffer(es: seq<DirEntry>, hi: nat)
    requires hi <= |es|
  {
    forall k, l :: 2 <= k < l < hi && es[k].used && es[l].used ==> es[k].name != es[l].name
  }

  lemma {:induction false} NamesAreCounted(es: seq<DirEntry>, hi: nat)
    requires 2 <= hi <= |es| && NamesDiffer(es, hi)
    ensures |NamesIn(es, hi)| == Used(es, hi)
  {
    hide NamesDiffer;
    if hi == 2 {
    } else {
      NewName(es, hi - 1);
      NamesAreCounted(es, hi - 1);
    }
  }

  lemma NewName(es: seq<DirEntry>, k: nat)
    requires 2 <= k < |es| && NamesDiffer(es, k + 1)
    ensures NamesDiffer(es, k) && (es[k].used ==> es[k].name !in NamesIn(es, k))
  {
    hide NamesIn;
  }

  lemma DistinctNames(d: Disk)
    requires Consistent(d)
    ensures NamesDiffer(Root(d), |Root(d)|)
  {
    hide Disjoint, BitmapsOk;
    forall k, l | 2 <= k < l < DIR_ENTRIES && Root(d)[k].used && Root(d)[l].used
      ensures Root(d)[k].name != Root(d)[l].name
    {
      assert Live(d, k) && Live(d, l);
    }
  }

  lemma NamesAreOk(d: Disk, name: string)
    requires Consistent(d) && name in Names(d)
    ensures NameOk(name)
  {
    var k :| Live(d, k) && Root(d)[k].name == name;
    assert SlotOk(d, k);
  }

  lemma NamesAgree(d: Disk)
    requires Layout(d)
    ensures Names(d) == NamesIn(Root(d), |Root(d)|)
  {
  }

  lemma NoSlotLeft(es: seq<DirEntry>, k: nat)
    requires 2 <= |es| && k == FindUnused(es, 2)
    ensures k == |es| <==> Used(es, |es|) == |es| - 2
  {
  }

  /** All slots are used exactly when there are 254 files. */
  lemma FullIff(d: Disk)
    requires Consistent(d)
    ensures FindUnused(Root(d), 2) == DIR_ENTRIES <==> |Files(d)| == DIR_ENTRIES - 2
    ensures |Files(d)| <= DIR_ENTRIES - 2
  {
    hide Disjoint, BitmapsOk, SlotsOk, FileNamed;
    var es := Root(d);
    assert |Files(d)| == Used(es, |es|) by {
      DistinctNames(d);
      NamesAreCounted(es, |es|);
      assert Files(d).Keys == Names(d);
      NamesAgree(d);
    }
    NoSlotLeft(es, FindUnused(es, 2));
  }

  /** How many used slots below `hi` have one of the inodes from 2 to `m + 1`. */
  function WithInode(es: seq<DirEntry>, hi: nat, m: nat): (n: nat)
    requires 2 <= hi <= |es|
    ensures n <= Used(es, hi)
  {
    if hi == 2 then 0
    else WithInode(es, hi - 1, m) + if es[hi - 1].used && 2 <= es[hi - 1].inodeNo <= m + 1 then 1 else 0
  }

  lemma {:induction false} OneMoreInode(es: seq<DirEntry>, hi: nat, m: nat)
    requires 2 <= hi <= |es| && 0 < m
    ensures WithInode(es, hi, m) >= WithInode(es, hi, m - 1)
    ensures (exists k :: 2 <= k < hi && es[k].used && es[k].inodeNo == m + 1) ==>
              WithInode(es, hi, m) > WithInode(es, hi, m - 1)
  {
    if hi == 2 {
    } else {
      OneMoreInode(es, hi - 1, m);
    }
  }

  lemma {:induction false} InodesNeedSlots(d: Disk, m: nat)
    requires Consistent(d) && m < INODE_COUNT
    requires forall i: nat :: 1 <= i <= m ==> GetBit(InodeMap(d), i)
    ensures m <= WithInode(Root(d), |Root(d)|, m) <= DIR_ENTRIES - 2
  {
    if m == 0 {
    } else {
      InodesNeedSlots(d, m - 1);
      OneMoreInode(Root(d), |Root(d)|, m);
      assert GetBit(InodeMap(d), m);
      assert InodeInUse(d, m + 1);
    }
  }

  /** There are more inodes than directory slots, so inodes never run out. */
  lemma InodesNeverRunOut(d: Disk)
    requires Consistent(d)
    ensures FreeInode(d) < INODE_COUNT
  {
    if FreeInode(d) == INODE_COUNT {
      InodesNeedSlots(d, INODE_COUNT - 1);
    }
  }

  // ---- What each operation means ----

  /** The path is one a new file could be made at, directory space permitting. */
  ghost predicate FreshName(d: Disk, path: string)
    requires Consistent(d)
  {
    PathName(path).Some? && NameOk(PathName(path).value) && PathName(path).value !in Files(d)
  }

  lemma CreateMeans(d: Disk, path: string)
    requires Consistent(d) && !DotPath(path)
    ensures var (e, r) := Create(d, path);
            && Consistent(e) && (r.Err? ==> e == d)
            && (r.Ok? <==> FreshName(d, path) && |Files(d)| < DIR_ENTRIES - 2)
            && (r.Ok? ==> Files(e) == Files(d)[PathName(path).value := []])
            && (r == Err(ENOSPC) <==> FreshName(d, path) && |Files(d)| == DIR_ENTRIES - 2)
  {
    hide OthersKept, AddFile, Disjoint, BitmapsOk;
    if PathName(path).Some? && NameOk(PathName(path).value) {
      var name := PathName(path).value;
      FindsItsSlot(d, name);
      FullIff(d);
      InodesNeverRunOut(d);
      var k := FindUnused(Root(d), 2);
      if name !in Names(d) && k < DIR_ENTRIES {
        AddFileConsistent(d, k, name, FreeInode(d));
        FilesAfterAdd(d, AddFile(d, k, name, FreeInode(d)), k, name);
      }
    }
  }

  /** The other answers of create, each under exactly one condition. */
  lemma CreateErrors(d: Disk, path: string)
    requires Consistent(d) && !DotPath(path)
    ensures var r := Create(d, path).1;
            && (r == Err(EEXIST) <==> PathName(path).Some? && PathName(path).value in Files(d))
            && (r == Err(ENAMETOOLONG) <==> PathName(path).Some? && |PathName(path).value| > MAX_FILENAME)
            && (r == Err(EINVAL) <==> PathName(path) in {None, Some("")})
  {
    hide AddFile, Disjoint, BitmapsOk, SlotsOk;
    if PathName(path).Some? {
      var name := PathName(path).value;
      if name in Names(d) {
        NamesAreOk(d, name);
      } else if NameOk(name) {
        FindsItsSlot(d, name);
      }
    }
  }

  lemma UnlinkMeans(d: Disk, path: string)
    requires Consistent(d) && !DotPath(path)
    ensures var (e, r) := Unlink(d, path);
            && Consistent(e) && (r.Err? ==> e == d)
            && (r.Ok? <==> PathName(path).Some? && PathName(path).value in Files(d))
            && (r.Ok? ==> Files(e) == Files(d) - {PathName(path).value})
            && (r.Err? ==> r == Err(if PathName(path) in {None, Some("")} then EINVAL else ENOENT))
  {
    hide OthersKept, RemoveFile, Disjoint, BitmapsOk;
    if PathName(path).Some? && PathName(path).value in Names(d) {
      NamesAreOk(d, PathName(path).value);
    }
    if PathName(path).Some? && PathName(path).value != "" {
      var name := PathName(path).value;
      FindsItsSlot(d, name);
      if name in Names(d) {
        assert Root(d)[SlotOf(d, name)].name == name;
        RemoveFileConsistent(d, SlotOf(d, name));
        FilesAfterRemove(d, RemoveFile(d, SlotOf(d, name)), SlotOf(d, name));
      }
    }
  }
}
