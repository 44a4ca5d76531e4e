/** The report: sorted occurrences grouped by word. */
module WordGroups {
  import opened TextLines
  import opened WordRecords
  import opened RecordOrder

  /** Where the run of `word` that has come as far as `from` ends. */
  function RunEnd(s: seq<Occurrence>, from: nat, word: string): (j: nat)
    requires from <= |s|
    ensures from <= j <= |s| && (j < |s| ==> s[j].word != word)
    ensures forall k :: from <= k < j ==> s[k].word == word
    decreases |s| - from
  {
    if from < |s| && s[from].word == word then RunEnd(s, from + 1, word) else from
  }

  function Groups(s: seq<Occurrence>, from: nat): (gs: seq<seq<Occurrence>>)
    requires from <= |s|
    ensures forall a :: 0 <= a < |gs| ==> gs[a] != []
    decreases |s| - from
  {
    if from == |s| then []
    else
      var j := RunEnd(s, from + 1, s[from].word);
      [s[from..j]] + Groups(s, j)
  }

  // ---- What the groups are ----

  ghost predicate OneWord(g: seq<Occurrence>) {
    g != [] && forall k :: 0 <= k < |g| ==> g[k].word == g[0].word
  }

  lemma {:induction false} GroupsCover(s: seq<Occurrence>, from: nat)
    requires from <= |s|
    ensures Flatten(Groups(s, from)) == s[from..]
    ensures forall a :: 0 <= a < |Groups(s, from)| ==> OneWord(Groups(s, from)[a])
    ensures from < |s| ==> Groups(s, from) != [] && Groups(s, from)[0][0] == s[from]
    decreases |s| - from
  {
    hide RunEnd;
    if from == |s| {
    } else {
      var j := RunEnd(s, from + 1, s[from].word);
      GroupsCover(s, j);
      assert s[from..] == s[from..j] + s[j..];
      assert OneWord(s[from..j]);
    }
  }

  ghost predicate Increasing(gs: seq<seq<Occurrence>>)
    requires forall a :: 0 <= a < |gs| ==> gs[a] != []
  {
    forall a, b :: 0 <= a < b < |gs| ==> StrCmp(gs[a][0].word, gs[b][0].word) < 0
  }

  lemma {:induction false} GroupsIncrease(s: seq<Occurrence>, from: nat)
    requires from <= |s| && Sorted(s)
    ensures Increasing(Groups(s, from))
    decreases |s| - from
  {
    hide RunEnd, StrCmp;
    GroupsCover(s, from);
    if from == |s| {
    } else {
      var j := RunEnd(s, from + 1, s[from].word);
      GroupsIncrease(s, j);
      GroupsCover(s, j);
      var first: seq<Occurrence>, gs: seq<seq<Occurrence>> := s[from..j], Groups(s, j);
      forall b | 0 <= b < |gs| ensures StrCmp(first[0].word, gs[b][0].word) < 0 {
        assert Cmp(s[from], s[j]) <= 0;
        StrCmpIsOrder(s[from].word, s[j].word, gs[b][0].word);
        if b > 0 {
          assert StrCmp(gs[0][0].word, gs[b][0].word) < 0;
        }
      }
    }
  }

  /** How often a word occurs. */
  function Count(s: seq<Occurrence>, word: string): nat {
    if s == [] then 0 else Count(s[1..], word) + if s[0].word == word then 1 else 0
  }

  lemma {:induction false} CountConcat(a: seq<Occurrence>, b: seq<Occurrence>, word: string)
    ensures Count(a + b, word) == Count(a, word) + Count(b, word)
  {
    if a == [] {
      assert a + b == b;
    } else {
      assert (a + b)[1..] == a[1..] + b;
      CountConcat(a[1..], b, word);
    }
  }

  lemma {:induction false} CountOfOne(g: seq<Occurrence>, w: string, word: string)
    requires forall k :: 0 <= k < |g| ==> g[k].word == w
    ensures Count(g, word) == if w == word then |g| else 0
  {
    if g == [] {
    } else {
      CountOfOne(g[1..], w, word);
    }
  }

  function Omit(t: seq<Occurrence>, i: nat): seq<Occurrence>
    requires i < |t|
  {
    t[..i] + t[i + 1..]
  }

  lemma OmitOne(t: seq<Occurrence>, i: nat, word: string)
    requires i < |t|
    ensures |Omit(t, i)| < |t| && multiset(t) == multiset(Omit(t, i)) + multiset{t[i]}
    ensures Count(t, word) == Count(Omit(t, i), word) + if t[i].word == word then 1 else 0
  {
    var tail := t[i..];
    assert t == t[..i] + tail && tail[1..] == t[i + 1..] && tail == [t[i]] + tail[1..];
    CountConcat(t[..i], tail[1..], word);
    CountConcat(t[..i], tail, word);
  }

  lemma Cancel<T>(a: multiset<T>, b: multiset<T>, x: T)
    requires a + multiset{x} == b + multiset{x}
    ensures a == b
  {
    assert a == (a + multiset{x}) - multiset{x};
    assert b == (b + multiset{x}) - multiset{x};
  }

  lemma {:induction false} CountIsOfTheBag(s: seq<Occurrence>, t: seq<Occurrence>, word: string)
    requires multiset(s) == multiset(t)
    ensures Count(s, word) == Count(t, word)
    decreases |s|
  {
    hide Count, Omit;
    if s == [] {
      assert |multiset(t)| == 0;
    } else {
      assert s[0] in multiset(t);
      var i :| 0 <= i < |t| && t[i] == s[0];
      OmitOne(s, 0, word);
      OmitOne(t, i, word);
      Cancel(multiset(Omit(s, 0)), multiset(Omit(t, i)), s[0]);
      CountIsOfTheBag(Omit(s, 0), Omit(t, i), word);
    }
  }

  lemma {:induction false} CountInGroups(gs: seq<seq<Occurrence>>, a: nat)
    requires forall b :: 0 <= b < |gs| ==> gs[b] != [] && OneWord(gs[b])
    requires a < |gs| && forall b :: 0 <= b < |gs| && b != a ==> gs[b][0].word != gs[a][0].word
    ensures Count(Flatten(gs), gs[a][0].word) == |gs[a]|
  {
    var word := gs[a][0].word;
    CountConcat(gs[0], Flatten(gs[1..]), word);
    CountOfOne(gs[0], gs[0][0].word, word);
    if a > 0 {
      CountInGroups(gs[1..], a - 1);
    } else {
      CountElsewhere(gs[1..], word);
    }
  }

  lemma {:induction false} CountElsewhere(gs: seq<seq<Occurrence>>, word: string)
    requires forall b :: 0 <= b < |gs| ==> OneWord(gs[b]) && gs[b][0].word != word
    ensures Count(Flatten(gs), word) == 0
  {
    if gs == [] {
    } else {
      CountConcat(gs[0], Flatten(gs[1..]), word);
      CountOfOne(gs[0], gs[0][0].word, word);
      CountElsewhere(gs[1..], word);
    }
  }

  /** Words come in the order of their bytes, each once. */
  ghost predicate WordsInOrder(gs: seq<seq<Occurrence>>)
    requires forall a :: 0 <= a < |gs| ==> gs[a] != []
  {
    forall a, b :: 0 <= a < b < |gs| ==> Before(gs[a][0].word, gs[b][0].word)
  }

  /** Places go up by file, and by line within a file. */
  ghost predicate PlacesInOrder(g: seq<Occurrence>) {
    forall i, j :: 0 <= i < j < |g| ==>
      g[i].fileIndex < g[j].fileIndex || (g[i].fileIndex == g[j].fileIndex && g[i].lineNo <= g[j].lineNo)
  }

  lemma {:induction false} GroupsAreSorted(s: seq<Occurrence>, from: nat)
    requires from <= |s| && Sorted(s)
    ensures forall a :: 0 <= a < |Groups(s, from)| ==> Sorted(Groups(s, from)[a])
    decreases |s| - from
  {
    hide RunEnd, Cmp;
    if from == |s| {
    } else {
      var j := RunEnd(s, from + 1, s[from].word);
      GroupsAreSorted(s, j);
      assert Sorted(s[from..j]);
    }
  }

  lemma SortedPlaces(g: seq<Occurrence>)
    requires OneWord(g) && Sorted(g)
    ensures PlacesInOrder(g)
  {
    hide Cmp, Before;
    forall i, j | 0 <= i < j < |g|
      ensures g[i].fileIndex < g[j].fileIndex || (g[i].fileIndex == g[j].fileIndex && g[i].lineNo <= g[j].lineNo)
    {
      CmpMeans(g[i], g[j]);
      NotBeforeItself(g[i].word);
      assert g[i].word == g[j].word;
      assert Cmp(g[i], g[j]) <= 0;
    }
  }

  lemma NotBeforeItself(w: string)
    ensures !Before(w, w)
  {
  }

  lemma IncreasingIsInOrder(gs: seq<seq<Occurrence>>)
    requires forall a :: 0 <= a < |gs| ==> gs[a] != []
    requires Increasing(gs)
    ensures WordsInOrder(gs)
    ensures forall a, b :: 0 <= a < |gs| && 0 <= b < |gs| && a != b ==> gs[a][0].word != gs[b][0].word
  {
    hide StrCmp, Before;
    forall a, b | 0 <= a < b < |gs|
      ensures Before(gs[a][0].word, gs[b][0].word) && gs[a][0].word != gs[b][0].word
    {
      StrCmpMeans(gs[a][0].word, gs[b][0].word);
    }
  }

  /**
   * The report of any bag of occurrences: every occurrence once, words in the order of their bytes,
   * each word's group as large as the number of times it occurs, and its places going up.
   */
  lemma GroupsAreExact(s: seq<Occurrence>)
    ensures var gs := Groups(Sort(s), 0);
            && multiset(Flatten(gs)) == multiset(s)
            && (forall a :: 0 <= a < |gs| ==>
                  OneWord(gs[a]) && |gs[a]| == Count(s, gs[a][0].word) && PlacesInOrder(gs[a]))
            && WordsInOrder(gs)
  {
    hide StrCmp, Groups, Sort, Increasing, WordsInOrder, PlacesInOrder, Sorted, OneWord;
    var t := Sort(s);
    SortSorts(s);
    GroupsCover(t, 0);
    GroupsIncrease(t, 0);
    GroupsAreSorted(t, 0);
    assert t[0..] == t;
    var gs: seq<seq<Occurrence>> := Groups(t, 0);
    IncreasingIsInOrder(gs);
    forall a | 0 <= a < |gs| ensures |gs[a]| == Count(s, gs[a][0].word) && PlacesInOrder(gs[a]) {
      CountInGroups(gs, a);
      CountIsOfTheBag(s, t, gs[a][0].word);
      SortedPlaces(gs[a]);
    }
  }

  // ---- Text ----

  /** "file-line" for each occurrence, with ", " between. */
  function Places(g: seq<Occurrence>): string {
    if g == [] then ""
    else if |g| == 1 then Decimal(g[0].fileIndex) + "-" + Decimal(g[0].lineNo)
    else Decimal(g[0].fileIndex) + "-" + Decimal(g[0].lineNo) + ", " + Places(g[1..])
  }

  /** Places are separated by a comma and a blank, wherever the list is cut. */
  lemma {:induction false} PlacesAreSeparated(a: seq<Occurrence>, b: seq<Occurrence>)
    requires a != [] && b != []
    ensures Places(a + b) == Places(a) + ", " + Places(b)
  {
    hide Decimal;
    assert (a + b)[1..] == a[1..] + b;
    if |a| == 1 {
      assert a[1..] + b == b;
    } else {
      PlacesAreSeparated(a[1..], b);
    }
  }

  function GroupLine(g: seq<Occurrence>): string
    requires g != []
  {
    g[0].word + " (count=" + Decimal(|g|) + "): " + Places(g) + "\n"
  }

  function Render(gs: seq<seq<Occurrence>>): string
    requires forall a :: 0 <= a < |gs| ==> gs[a] != []
  {
    if gs == [] then "" else GroupLine(gs[0]) + Render(gs[1..])
  }

  lemma {:induction false} RenderConcat(a: seq<seq<Occurrence>>, b: seq<seq<Occurrence>>)
    requires forall i :: 0 <= i < |a| ==> a[i] != []
    requires forall i :: 0 <= i < |b| ==> b[i] != []
    ensures Render(a + b) == Render(a) + Render(b)
  {
    hide GroupLine;
    if a == [] {
      assert a + b == b;
    } else {
      assert (a + b)[1..] == a[1..] + b;
      RenderConcat(a[1..], b);
    }
  }

  function Report(s: seq<Occurrence>): string {
    Render(Groups(Sort(s), 0))
  }

  /** The report of two lists is the same when they hold the same occurrences. */
  lemma ReportIsOfTheBag(s: seq<Occurrence>, t: seq<Occurrence>)
    requires multiset(s) == multiset(t)
    ensures Report(s) == Report(t)
  {
    SortSorts(s);
    SortSorts(t);
    SortedIsUnique(Sort(s), Sort(t));
  }

  predicate Odd(c: char) {
    c == VERTICAL_TAB || c == FORM_FEED
  }

  predicate HasOdd(s: string) {
    exists k :: 0 <= k < |s| && Odd(s[k])
  }

  lemma HasOddConcat(a: string, b: string)
    ensures HasOdd(a + b) <==> HasOdd(a) || HasOdd(b)
  {
    var s := a + b;
    if HasOdd(a) {
      var k :| 0 <= k < |a| && Odd(a[k]);
      assert Odd(s[k]);
    }
    if HasOdd(b) {
      var k :| 0 <= k < |b| && Odd(b[k]);
      assert Odd(s[|a| + k]);
    }
  }

  lemma {:induction false} PlacesHaveNoOdd(g: seq<Occurrence>)
    ensures !HasOdd(Places(g))
  {
    if g == [] {
    } else {
      hide Decimal;
      DecimalStartsInked(g[0].fileIndex);
      DecimalStartsInked(g[0].lineNo);
      if |g| > 1 {
        PlacesHaveNoOdd(g[1..]);
      }
    }
  }

  lemma GroupLineHasOdd(g: seq<Occurrence>)
    requires g != []
    ensures HasOdd(GroupLine(g)) <==> HasOdd(g[0].word)
  {
    hide HasOdd, Decimal, Places;
    PlacesHaveNoOdd(g);
    DecimalStartsInked(|g|);
    var tail := " (count=" + Decimal(|g|) + "): " + Places(g) + "\n";
    HasOddConcat(g[0].word, tail);
    assert GroupLine(g) == g[0].word + tail;
    TailHasNoOdd(Decimal(|g|), Places(g));
    assert tail == " (count=" + Decimal(|g|) + "): " + Places(g) + "\n";
  }

  lemma TailHasNoOdd(count: string, places: string)
    requires !HasOdd(places) && forall k :: 0 <= k < |count| ==> IsInk(count[k])
    ensures !HasOdd(" (count=" + count + "): " + places + "\n")
  {
    HasOddConcat(" (count=", count);
    HasOddConcat(" (count=" + count, "): ");
    HasOddConcat(" (count=" + count + "): ", places);
    HasOddConcat(" (count=" + count + "): " + places, "\n");
  }

  lemma {:induction false} RenderHasOdd(gs: seq<seq<Occurrence>>)
    requires forall a :: 0 <= a < |gs| ==> gs[a] != []
    ensures HasOdd(Render(gs)) <==> exists a :: 0 <= a < |gs| && HasOdd(gs[a][0].word)
  {
    hide GroupLine, HasOdd;
    if gs == [] {
      EmptyHasNoOdd();
    } else {
      GroupLineHasOdd(gs[0]);
      HasOddConcat(GroupLine(gs[0]), Render(gs[1..]));
      RenderHasOdd(gs[1..]);
      assert forall a :: 0 < a < |gs| ==> gs[a] == gs[1..][a - 1];
    }
  }

  /** A vertical tab or form feed is in the report exactly if it is in some word. */
  lemma ReportHasOdd(s: seq<Occurrence>)
    ensures HasOdd(Report(s)) <==> exists k :: 0 <= k < |s| && HasOdd(s[k].word)
  {
    hide HasOdd, Sort, Groups, Render, OneWord, WordsInOrder, PlacesInOrder;
    GroupsAreExact(s);
    var gs: seq<seq<Occurrence>> := Groups(Sort(s), 0);
    RenderHasOdd(gs);
    HeadsAndMembers(s, gs);
  }

  /** Each group is headed by some occurrence, and each occurrence's word heads some group. */
  lemma HeadsAndMembers(s: seq<Occurrence>, gs: seq<seq<Occurrence>>)
    requires multiset(Flatten(gs)) == multiset(s) && forall a :: 0 <= a < |gs| ==> gs[a] != [] && OneWord(gs[a])
    ensures forall a :: 0 <= a < |gs| ==> exists k :: 0 <= k < |s| && s[k].word == gs[a][0].word
    ensures forall k :: 0 <= k < |s| ==> exists a :: 0 <= a < |gs| && gs[a][0].word == s[k].word
  {
    hide OneWord;
    forall a | 0 <= a < |gs| ensures exists k :: 0 <= k < |s| && s[k].word == gs[a][0].word {
      InFlatten(gs, a, 0);
      assert gs[a][0] in multiset(s);
      var k :| 0 <= k < |s| && s[k] == gs[a][0];
    }
    forall k | 0 <= k < |s| ensures exists a :: 0 <= a < |gs| && gs[a][0].word == s[k].word {
      assert s[k] in multiset(Flatten(gs));
      var a, b := FlattenHas(gs, s[k]);
      SameWord(gs[a], b);
    }
  }

  lemma SameWord(g: seq<Occurrence>, b: nat)
    requires OneWord(g) && b < |g|
    ensures g[b].word == g[0].word
  {
  }

  lemma {:induction false} InFlatten<T>(parts: seq<seq<T>>, a: nat, b: nat)
    requires a < |parts| && b < |parts[a]|
    ensures parts[a][b] in Flatten(parts)
  {
    if a == 0 {
      assert Flatten(parts)[b] == parts[0][b];
    } else {
      InFlatten(parts[1..], a - 1, b);
    }
  }

  lemma {:induction false} FlattenHas<T>(parts: seq<seq<T>>, x: T) returns (a: nat, b: nat)
    requires x in Flatten(parts)
    ensures a < |parts| && b < |parts[a]| && parts[a][b] == x
  {
    if x in parts[0] {
      a := 0;
      b :| 0 <= b < |parts[0]| && parts[0][b] == x;
    } else {
      a, b := FlattenHas(parts[1..], x);
      a := a + 1;
    }
  }

  lemma EmptyHasNoOdd()
    ensures !HasOdd("")
  {
  }
}
