/** The order of the report: by word, then file, then line. */
module RecordOrder {
  import opened WordRecords

  /** The sign of `strcmp`, which compares bytes. */
  function StrCmp(a: string, b: string): (c: int)
    ensures c == 0 <==> a == b
  {
    if a == "" && b == "" then 0
    else if a == "" then -1
    else if b == "" then 1
    else if a[0] != b[0] then a[0] as int - b[0] as int
    else
      assert a == [a[0]] + a[1..] && b == [b[0]] + b[1..];
      StrCmp(a[1..], b[1..])
  }

  function Cmp(a: Occurrence, b: Occurrence): int {
    var c := StrCmp(a.word, b.word);
    if c != 0 then c
    else if a.fileIndex != b.fileIndex then a.fileIndex - b.fileIndex
    else a.lineNo - b.lineNo
  }

  lemma {:induction false} StrCmpIsOrder(a: string, b: string, c: string)
    ensures StrCmp(a, b) < 0 <==> StrCmp(b, a) > 0
    ensures StrCmp(a, b) <= 0 && StrCmp(b, c) <= 0 ==> StrCmp(a, c) <= 0
    ensures StrCmp(a, b) < 0 && StrCmp(b, c) <= 0 ==> StrCmp(a, c) < 0
    ensures StrCmp(a, b) <= 0 && StrCmp(b, c) < 0 ==> StrCmp(a, c) < 0
  {
    if a == "" || b == "" {
    } else {
      StrCmpIsOrder(a[1..], b[1..], if c == "" then "" else c[1..]);
    }
  }

  /** The bytes of `a` and `b` agree up to `k`, where `a` ends or has the smaller byte. */
  ghost predicate SmallerAt(a: string, b: string, k: nat) {
    && k <= |a| && k < |b| && a[..k] == b[..k]
    && (k < |a| ==> a[k] < b[k])
  }

  /** The order of byte strings. */
  ghost predicate Before(a: string, b: string) {
    exists k: nat :: SmallerAt(a, b, k)
  }

  /** `strcmp` is negative exactly if its first argument comes before its second. */
  lemma {:induction false} StrCmpMeans(a: string, b: string)
    ensures StrCmp(a, b) < 0 <==> Before(a, b)
  {
    if a == "" || b == "" || a[0] != b[0] {
      if StrCmp(a, b) < 0 {
        assert SmallerAt(a, b, 0);
      }
      forall k: nat | k > 0 && k <= |a| && k < |b| ensures !SmallerAt(a, b, k) {
        assert a[..k][0] != b[..k][0];
      }
    } else {
      StrCmpMeans(a[1..], b[1..]);
      if k: nat :| SmallerAt(a, b, k) {
        assert k > 0;
        assert a[1..][..k - 1] == a[..k][1..] && b[1..][..k - 1] == b[..k][1..];
        assert SmallerAt(a[1..], b[1..], k - 1);
      }
      if k: nat :| SmallerAt(a[1..], b[1..], k) {
        assert a[..k + 1] == [a[0]] + a[1..][..k] && b[..k + 1] == [b[0]] + b[1..][..k];
        assert SmallerAt(a, b, k + 1);
      }
    }
  }

  /** An earlier word, or the same word in an earlier file, or on an earlier line of the same file. */
  ghost predicate Comes(a: Occurrence, b: Occurrence) {
    || Before(a.word, b.word)
    || (a.word == b.word && a.fileIndex < b.fileIndex)
    || (a.word == b.word && a.fileIndex == b.fileIndex && a.lineNo < b.lineNo)
  }

  /** `cmp_occurrence` is negative exactly if its first argument comes before its second, and zero if they are equal. */
  lemma CmpMeans(a: Occurrence, b: Occurrence)
    ensures Cmp(a, b) < 0 <==> Comes(a, b)
    ensures Cmp(a, b) == 0 <==> a == b
  {
    hide StrCmp, Before;
    StrCmpMeans(a.word, b.word);
    StrCmpMeans(b.word, b.word);
  }

  /** A total order in which only equal occurrences compare equal. */
  lemma CmpIsTotalOrder(a: Occurrence, b: Occurrence, c: Occurrence)
    ensures Cmp(a, b) == 0 <==> a == b
    ensures Cmp(a, b) < 0 <==> Cmp(b, a) > 0
    ensures Cmp(a, b) <= 0 && Cmp(b, c) <= 0 ==> Cmp(a, c) <= 0
  {
    hide StrCmp;
    StrCmpIsOrder(a.word, b.word, c.word);
    StrCmpIsOrder(b.word, c.word, a.word);
    StrCmpIsOrder(a.word, c.word, b.word);
  }

  /** The subtractions do not overflow while file and line numbers are not negative. */
  lemma CmpFitsAnInt(a: Occurrence, b: Occurrence)
    requires a.fileIndex >= 0 && a.lineNo >= 0 && b.fileIndex >= 0 && b.lineNo >= 0
    ensures a.word == b.word ==> -0x8000_0000 <= Cmp(a, b) <= 0x7fff_ffff
  {
  }

  ghost predicate Sorted(s: seq<Occurrence>) {
    forall i, j :: 0 <= i < j < |s| ==> Cmp(s[i], s[j]) <= 0
  }

  function Insert(o: Occurrence, s: seq<Occurrence>): seq<Occurrence> {
    if s == [] || Cmp(o, s[0]) <= 0 then [o] + s else [s[0]] + Insert(o, s[1..])
  }

  /** What `qsort` leaves, as insertion would produce it. */
  function Sort(s: seq<Occurrence>): seq<Occurrence> {
    if s == [] then [] else Insert(s[0], Sort(s[1..]))
  }

  lemma {:induction false} InsertSorts(o: Occurrence, s: seq<Occurrence>)
    requires Sorted(s)
    ensures Sorted(Insert(o, s)) && multiset(Insert(o, s)) == multiset{o} + multiset(s)
  {
    hide Cmp;
    if s == [] {
    } else if Cmp(o, s[0]) <= 0 {
      forall j | 0 <= j < |s| ensures Cmp(o, s[j]) <= 0 {
        CmpIsTotalOrder(o, s[0], s[j]);
      }
    } else {
      InsertSorts(o, s[1..]);
      var r := Insert(o, s[1..]);
      assert s == [s[0]] + s[1..];
      forall j | 0 <= j < |r| ensures Cmp(s[0], r[j]) <= 0 {
        CmpIsTotalOrder(s[0], o, o);
        assert r[j] in multiset(r);
        assert r[j] == o || r[j] in s[1..];
      }
    }
  }

  lemma {:induction false} SortSorts(s: seq<Occurrence>)
    ensures Sorted(Sort(s)) && multiset(Sort(s)) == multiset(s)
  {
    if s == [] {
    } else {
      SortSorts(s[1..]);
      InsertSorts(s[0], Sort(s[1..]));
      assert s == [s[0]] + s[1..];
    }
  }

  lemma LeastIsFirst(s: seq<Occurrence>, o: Occurrence)
    requires Sorted(s) && o in multiset(s)
    ensures s != [] && Cmp(s[0], o) <= 0
  {
    var i :| 0 <= i < |s| && s[i] == o;
    CmpIsTotalOrder(o, o, o);
  }

  /** One bag of occurrences has one sorted arrangement, whichever way `qsort` finds it. */
  lemma {:induction false} SortedIsUnique(s: seq<Occurrence>, t: seq<Occurrence>)
    requires Sorted(s) && Sorted(t) && multiset(s) == multiset(t)
    ensures s == t
  {
    hide Cmp;
    if s == [] {
      assert |multiset(t)| == 0;
    } else {
      assert s[0] in multiset(t);
      LeastIsFirst(t, s[0]);
      assert t[0] in multiset(s);
      LeastIsFirst(s, t[0]);
      CmpIsTotalOrder(s[0], t[0], s[0]);
      SameTails(s, t);
      SortedIsUnique(s[1..], t[1..]);
      assert s == [s[0]] + s[1..] && t == [t[0]] + t[1..];
    }
  }

  lemma SameTails(s: seq<Occurrence>, t: seq<Occurrence>)
    requires s != [] && t != [] && s[0] == t[0] && multiset(s) == multiset(t)
    ensures multiset(s[1..]) == multiset(t[1..])
  {
    assert s == [s[0]] + s[1..] && t == [t[0]] + t[1..];
    assert multiset(s[1..]) == multiset(s) - multiset{s[0]};
    assert multiset(t[1..]) == multiset(t) - multiset{t[0]};
  }

  /** So a sorted arrangement of `t`, however it was found, is the one insertion finds. */
  lemma SortedIsSort(s: seq<Occurrence>, t: seq<Occurrence>)
    requires Sorted(s) && multiset(s) == multiset(t)
    ensures s == Sort(t)
  {
    SortSorts(t);
    SortedIsUnique(s, Sort(t));
  }
}
