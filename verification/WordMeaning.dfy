/** Which words both programs find: every run between blanks, counted line by line and file by file. */
module WordMeaning {
  import opened CommonTypes
  import opened TextLines
  import opened WordRecords
  import opened WordScan
  import opened WordStream

  /** What separates words. */
  const BLANKS: string := " \t\r\n"

  /** At `a` the text has `word`, all of a run that blanks or the ends of the text enclose. */
  ghost predicate WordAt(s: string, a: nat, word: string) {
    && word != "" && a + |word| <= |s| && s[a..a + |word|] == word
    && (forall k :: 0 <= k < |word| ==> word[k] !in BLANKS)
    && (a == 0 || s[a - 1] in BLANKS) && (a + |word| == |s| || s[a + |word|] in BLANKS)
  }

  /** Where from `from` on the text has `word`. */
  ghost function Places(s: string, from: nat, word: string): set<nat> {
    set a: nat | a < |s| && from <= a && WordAt(s, a, word)
  }

  lemma WordAtIsRun(s: string, a: nat, word: string)
    ensures WordAt(s, a, word) <==> IsWordAt(s, a, a + |word|) && s[a..a + |word|] == word
  {
    if a + |word| <= |s| {
      assert forall k :: a <= k < a + |word| ==> s[k] == s[a..a + |word|][k - a];
      if IsWordAt(s, a, a + |word|) && s[a..a + |word|] == word {
        forall k | 0 <= k < |word| ensures word[k] !in BLANKS {
          assert IsTokenChar(s[a + k]);
        }
      }
    }
  }

  lemma {:induction false} TokensCount(s: string, from: nat, word: string)
    requires from <= |s| && AtBoundary(s, from)
    ensures multiset(Tokens(s, from))[word] == |Places(s, from, word)|
    decreases |s| - from
  {
    hide Skip, WordAt;
    var x := Skip(s, from, IsDelimiter);
    if x == |s| {
      NoPlaces(s, from, word);
    } else {
      var y := Skip(s, x, IsTokenChar);
      TokensCount(s, y, word);
      assert Tokens(s, from) == [s[x..y]] + Tokens(s, y);
      PlacesStep(s, from, x, y, word);
    }
  }

  lemma NoPlaces(s: string, from: nat, word: string)
    requires from <= |s| && forall k :: from <= k < |s| ==> IsDelimiter(s[k])
    ensures Places(s, from, word) == {}
  {
    forall a: nat | a < |s| && from <= a ensures !WordAt(s, a, word) {
      assert IsDelimiter(s[a]);
      WordAtIsRun(s, a, word);
    }
  }

  lemma PlacesStep(s: string, from: nat, x: nat, y: nat, word: string)
    requires from <= x && IsWordAt(s, x, y) && forall k :: from <= k < x ==> IsDelimiter(s[k])
    ensures x !in Places(s, y, word)
    ensures Places(s, from, word) == Places(s, y, word) + if s[x..y] == word then {x} else {}
  {
    forall a: nat | a < |s| && from <= a < y ensures WordAt(s, a, word) <==> a == x && s[x..y] == word {
      WordAtIsRun(s, a, word);
      if !(a == x && a + |word| == y) && a + |word| <= |s| && word != "" {
        RunsDoNotOverlap(s, from, x, y, a, a + |word|);
      }
    }
  }

  lemma {:induction false} KeepLongCount(tokens: seq<string>, k: nat, fileIndex: int32, lineNo: int32, o: Occurrence)
    ensures multiset(KeepLong(tokens, k, fileIndex, lineNo))[o] ==
            if o.fileIndex == fileIndex && o.lineNo == lineNo && |o.word| >= k then multiset(tokens)[o.word] else 0
  {
    if tokens == [] {
    } else {
      KeepLongCount(tokens[1..], k, fileIndex, lineNo, o);
      assert tokens == [tokens[0]] + tokens[1..];
    }
  }

  /** How often line `line` has the word of `o`, if it is long enough. */
  ghost function Times(line: string, k: nat, o: Occurrence): nat {
    if |o.word| >= k then |Places(CString(line), 0, o.word)| else 0
  }

  lemma LineCount(line: string, k: nat, fileIndex: int32, lineNo: int32, o: Occurrence)
    ensures multiset(WordsOfLine(line, k, fileIndex, lineNo))[o] ==
            if o.fileIndex == fileIndex && o.lineNo == lineNo then Times(line, k, o) else 0
  {
    hide Places, Tokens, KeepLong, CString;
    TokensCount(CString(line), 0, o.word);
    KeepLongCount(Tokens(CString(line), 0), k, fileIndex, lineNo, o);
  }

  lemma {:induction false} LinesCount(lines: seq<string>, k: nat, fileIndex: int32, done: nat, o: Occurrence)
    requires done + |lines| <= 0x7fff_ffff
    ensures multiset(WordsOfLines(lines, k, fileIndex, done))[o] ==
            if o.fileIndex == fileIndex && done < o.lineNo <= done + |lines| then Times(lines[o.lineNo - done - 1], k, o)
            else 0
    decreases |lines|
  {
    hide Times, WordsOfLine;
    if lines == [] {
    } else {
      LineCount(lines[0], k, fileIndex, done + 1, o);
      LinesCount(lines[1..], k, fileIndex, done + 1, o);
    }
  }

  /** Not empty, and a newline nowhere but at its end, where only the last line may lack it. */
  ghost predicate IsLine(line: string, last: bool) {
    && line != "" && '\n' !in line[..|line| - 1]
    && (last || line[|line| - 1] == '\n')
  }

  lemma FirstIsLine(text: string, from: nat)
    requires from < |text|
    ensures var n := NextNewline(text, from);
            && IsLine(text[from..if n == |text| then n else n + 1], n == |text| || n + 1 == |text|)
  {
    var n := NextNewline(text, from);
    var line := text[from..if n == |text| then n else n + 1];
    forall k | 0 <= k < |line| - 1 ensures line[k] != '\n' {
      assert line[k] == text[from + k];
    }
  }

  /** The lines of a file are together its text. */
  lemma {:induction false} GetLinesMeans(text: string, from: nat)
    requires from <= |text|
    ensures var ls := GetLines(text, from);
            Flatten(ls) == text[from..] && forall i :: 0 <= i < |ls| ==> IsLine(ls[i], i == |ls| - 1)
    decreases |text| - from
  {
    hide NextNewline, IsLine;
    if from == |text| {
    } else {
      var n := NextNewline(text, from);
      var next := if n == |text| then n else n + 1;
      FirstIsLine(text, from);
      GetLinesMeans(text, next);
      assert text[from..] == text[from..next] + text[next..];
      assert GetLines(text, from)[1..] == GetLines(text, next);
    }
  }

  /** A word is in a file's list as often as its line has it between blanks, if it has at least `k` characters. */
  lemma WordsOfFileMeans(text: string, k: nat, fileIndex: int32, o: Occurrence)
    requires CountableLines(text)
    ensures var ls := GetLines(text, 0);
            multiset(WordsOfFile(text, k, fileIndex))[o] ==
            if o.fileIndex == fileIndex && 1 <= o.lineNo <= |ls| && |o.word| >= k then
              |Places(CString(ls[o.lineNo - 1]), 0, o.word)|
            else 0
  {
    hide Places, GetLines, WordsOfLines, CString;
    LinesCount(GetLines(text, 0), k, fileIndex, 0, o);
  }

  ghost function Often(os: seq<Occurrence>, o: Occurrence): nat {
    multiset(os)[o]
  }

  lemma OneFile(files: Files, i: nat, k: nat, o: Occurrence)
    requires Countable(files) && i < |files|
    ensures o.fileIndex != i + 1 ==> Often(WordsIn(files, i, k), o) == 0
    ensures o.fileIndex == i + 1 && files[i].None? ==> Often(WordsIn(files, i, k), o) == 0
    ensures o.fileIndex == i + 1 && files[i].Some? ==>
              Often(WordsIn(files, i, k), o) == multiset(WordsOfFile(files[i].value, k, o.fileIndex))[o]
  {
    hide WordsOfFile, CountableLines, GetLines;
    if files[i].Some? {
      WordsOfFileMeans(files[i].value, k, i + 1, o);
    }
  }

  lemma OneMoreFile(files: Files, n: nat, k: nat, o: Occurrence)
    requires Countable(files) && n <= |files|
    ensures Often(AllWords(files, n, k), o) ==
            if n == 0 then 0 else Often(AllWords(files, n - 1, k), o) + Often(WordsIn(files, n - 1, k), o)
  {
    hide WordsIn;
  }

  lemma {:induction false} FromItsFile(files: Files, n: nat, k: nat, o: Occurrence)
    requires Countable(files) && n <= |files|
    ensures Often(AllWords(files, n, k), o) ==
            if 1 <= o.fileIndex <= n then Often(WordsIn(files, o.fileIndex - 1, k), o) else 0
  {
    hide WordsIn, Countable, Often, AllWords, WordsOfFile;
    OneMoreFile(files, n, k, o);
    if n == 0 {
    } else {
      FromItsFile(files, n - 1, k, o);
      OneFile(files, n - 1, k, o);
    }
  }

  /** File number `i` is the `i`-th one; one that cannot be opened has no words. */
  lemma AllWordsMeans(files: Files, n: nat, k: nat, o: Occurrence)
    requires Countable(files) && n <= |files|
    ensures multiset(AllWords(files, n, k))[o] ==
            if 1 <= o.fileIndex <= n && files[o.fileIndex - 1].Some? then
              multiset(WordsOfFile(files[o.fileIndex - 1].value, k, o.fileIndex))[o]
            else 0
  {
    hide WordsOfFile, WordsIn, CountableLines, AllWords;
    FromItsFile(files, n, k, o);
    if 1 <= o.fileIndex <= n {
      OneFile(files, o.fileIndex - 1, k, o);
    }
  }
}
