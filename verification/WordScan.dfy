/** Finding the words of one input file, as each child and each worker thread does. */
module WordScan {
  import opened CommonTypes
  import opened TextLines
  import opened WordRecords

  /** The delimiters given to `strtok_r`. */
  predicate IsDelimiter(c: char) {
    c == ' ' || c == '\t' || c == '\r' || c == '\n'
  }

  predicate IsTokenChar(c: char) {
    !IsDelimiter(c)
  }

  function Tokens(s: string, from: nat): seq<string>
    requires from <= |s|
    decreases |s| - from
  {
    var a := Skip(s, from, IsDelimiter);
    if a == |s| then []
    else
      var b := Skip(s, a, IsTokenChar);
      [s[a..b]] + Tokens(s, b)
  }

  /** What `getline` returns one after the other: lines with their newlines, the last perhaps without. */
  function GetLines(text: string, from: nat): seq<string>
    requires from <= |text|
    decreases |text| - from
  {
    if from == |text| then []
    else
      var n := NextNewline(text, from);
      var next := if n == |text| then n else n + 1;
      [text[from..next]] + GetLines(text, next)
  }

  /** The tokens of at least `k` characters. */
  function KeepLong(tokens: seq<string>, k: nat, fileIndex: int32, lineNo: int32): seq<Occurrence> {
    if tokens == [] then []
    else
      (if |tokens[0]| >= k then [Occurrence(tokens[0], fileIndex, lineNo)] else [])
      + KeepLong(tokens[1..], k, fileIndex, lineNo)
  }

  function WordsOfLine(line: string, k: nat, fileIndex: int32, lineNo: int32): seq<Occurrence> {
    KeepLong(Tokens(CString(line), 0), k, fileIndex, lineNo)
  }

  /** Lines are counted by an int. */
  predicate CountableLines(text: string) {
    |GetLines(text, 0)| <= 0x7fff_ffff
  }

  function WordsOfLines(lines: seq<string>, k: nat, fileIndex: int32, done: nat): seq<Occurrence>
    requires done + |lines| <= 0x7fff_ffff
    decreases |lines|
  {
    if lines == [] then []
    else WordsOfLine(lines[0], k, fileIndex, done + 1) + WordsOfLines(lines[1..], k, fileIndex, done + 1)
  }

  function WordsOfFile(text: string, k: nat, fileIndex: int32): seq<Occurrence>
    requires CountableLines(text)
  {
    WordsOfLines(GetLines(text, 0), k, fileIndex, 0)
  }

  // ---- What tokens are ----

  /** Start and end of a maximal run of characters that are no delimiters. */
  ghost predicate IsWordAt(s: string, a: nat, b: nat) {
    && a < b <= |s|
    && (forall k :: a <= k < b ==> IsTokenChar(s[k]))
    && (a == 0 || IsDelimiter(s[a - 1])) && (b == |s| || IsDelimiter(s[b]))
  }

  ghost predicate AtBoundary(s: string, from: nat)
    requires from <= |s|
  {
    from == 0 || from == |s| || IsDelimiter(s[from]) || IsDelimiter(s[from - 1])
  }

  /** Every token is a maximal run, and every maximal run is a token. */
  lemma {:induction false} TokensAreTheRuns(s: string, from: nat, word: string)
    requires from <= |s| && AtBoundary(s, from)
    ensures word in Tokens(s, from) <==> exists a: nat, b: nat :: from <= a && IsWordAt(s, a, b) && s[a..b] == word
    decreases |s| - from
  {
    hide Skip;
    var x := Skip(s, from, IsDelimiter);
    if x < |s| {
      var y := Skip(s, x, IsTokenChar);
      TokensAreTheRuns(s, y, word);
      assert IsWordAt(s, x, y);
      forall a: nat, b: nat | from <= a < y && a < b <= |s| && !(a == x && b == y) ensures !IsWordAt(s, a, b) {
        RunsDoNotOverlap(s, from, x, y, a, b);
      }
      assert Tokens(s, from) == [s[x..y]] + Tokens(s, y);
      if word in Tokens(s, from) && word != s[x..y] {
        var a: nat, b: nat :| y <= a && IsWordAt(s, a, b) && s[a..b] == word;
      }
    } else {
      assert Tokens(s, from) == [];
      forall a: nat, b: nat | from <= a ensures !IsWordAt(s, a, b) {
        if a < b <= |s| {
          assert IsDelimiter(s[a]);
        }
      }
    }
  }

  /** No other maximal run starts before the first one ends. */
  lemma RunsDoNotOverlap(s: string, from: nat, x: nat, y: nat, a: nat, b: nat)
    requires from <= x && IsWordAt(s, x, y) && forall k :: from <= k < x ==> IsDelimiter(s[k])
    requires from <= a < y && a < b <= |s| && !(a == x && b == y)
    ensures !IsWordAt(s, a, b)
  {
    if a < x {
      assert IsDelimiter(s[a]);
    } else if a > x {
      assert IsTokenChar(s[a - 1]);
    } else if b < y {
      assert IsTokenChar(s[b]);
    } else {
      assert IsDelimiter(s[y]);
    }
  }

  function Stripped(s: string): string {
    if s == "" then "" else (if IsDelimiter(s[0]) then "" else [s[0]]) + Stripped(s[1..])
  }

  lemma {:induction false} StrippedConcat(a: string, b: string)
    ensures Stripped(a + b) == Stripped(a) + Stripped(b)
  {
    if a == "" {
      assert a + b == b;
    } else {
      assert (a + b)[1..] == a[1..] + b;
      StrippedConcat(a[1..], b);
    }
  }

  lemma {:induction false} StrippedRun(s: string)
    ensures (forall k :: 0 <= k < |s| ==> IsTokenChar(s[k])) ==> Stripped(s) == s
    ensures (forall k :: 0 <= k < |s| ==> IsDelimiter(s[k])) ==> Stripped(s) == ""
  {
    if s == "" {
    } else {
      StrippedRun(s[1..]);
      assert s == [s[0]] + s[1..];
    }
  }

  lemma StrippedStep(s: string, from: nat, a: nat, b: nat)
    requires from <= a <= b <= |s|
    requires (forall k :: from <= k < a ==> IsDelimiter(s[k])) && forall k :: a <= k < b ==> IsTokenChar(s[k])
    ensures Stripped(s[from..]) == s[a..b] + Stripped(s[b..])
  {
    hide Stripped, IsDelimiter;
    StrippedRun(s[from..a]);
    StrippedRun(s[a..b]);
    StrippedConcat(s[a..b], s[b..]);
    StrippedConcat(s[from..a], s[a..b] + s[b..]);
    assert s[from..] == s[from..a] + (s[a..b] + s[b..]);
  }

  /** In order and without loss: the tokens run together are the text without its delimiters. */
  lemma {:induction false} TokensKeepTheText(s: string, from: nat)
    requires from <= |s|
    ensures Flatten(Tokens(s, from)) == Stripped(s[from..])
    decreases |s| - from
  {
    hide Skip, Stripped, IsDelimiter;
    var a := Skip(s, from, IsDelimiter);
    if a == |s| {
      StrippedStep(s, from, a, a);
      StrippedRun("");
      assert s[a..] == "";
    } else {
      var b := Skip(s, a, IsTokenChar);
      TokensKeepTheText(s, b);
      StrippedStep(s, from, a, b);
      assert Tokens(s, from)[1..] == Tokens(s, b);
    }
  }

  /** What `strtok_r` can return. */
  predicate Token(word: string) {
    word != "" && forall k :: 0 <= k < |word| ==> IsTokenChar(word[k]) && word[k] != '\0'
  }

  lemma {:induction false} TokensAreTokens(s: string, from: nat)
    requires from <= |s| && '\0' !in s
    ensures forall t :: t in Tokens(s, from) ==> Token(t)
    decreases |s| - from
  {
    hide Skip;
    var a := Skip(s, from, IsDelimiter);
    if a == |s| {
    } else {
      var b := Skip(s, a, IsTokenChar);
      TokensAreTokens(s, b);
      assert forall k :: a <= k < b ==> s[k] in s;
      assert Token(s[a..b]);
    }
  }

  lemma {:induction false} KeepLongKeepsTokens(tokens: seq<string>, k: nat, fileIndex: int32, lineNo: int32)
    ensures forall o :: o in KeepLong(tokens, k, fileIndex, lineNo) ==>
              o.word in tokens && |o.word| >= k && o.fileIndex == fileIndex && o.lineNo == lineNo
  {
    if tokens == [] {
    } else {
      KeepLongKeepsTokens(tokens[1..], k, fileIndex, lineNo);
    }
  }

  lemma {:induction false} WordsAreTokens(lines: seq<string>, k: nat, fileIndex: int32, done: nat)
    requires done + |lines| <= 0x7fff_ffff
    ensures forall o :: o in WordsOfLines(lines, k, fileIndex, done) ==> Token(o.word)
    decreases |lines|
  {
    hide Token, CString, Tokens;
    if lines == [] {
    } else {
      TokensAreTokens(CString(lines[0]), 0);
      KeepLongKeepsTokens(Tokens(CString(lines[0]), 0), k, fileIndex, done + 1);
      WordsAreTokens(lines[1..], k, fileIndex, done + 1);
    }
  }
}
