/** Byte streams cut into lines, and C strings. One `char` stands for one byte. */
module TextLines {

  function Flatten<T>(parts: seq<seq<T>>): seq<T> {
    if parts == [] then [] else parts[0] + Flatten(parts[1..])
  }

  lemma {:induction false} FlattenConcat<T>(a: seq<seq<T>>, b: seq<seq<T>>)
    ensures Flatten(a + b) == Flatten(a) + Flatten(b)
  {
    if a == [] {
      assert a + b == b;
    } else {
      assert (a + b)[1..] == a[1..] + b;
      FlattenConcat(a[1..], b);
    }
  }

  /** What a C function sees of these bytes: all before the first NUL. */
  function CString(s: string): (c: string)
    ensures '\0' !in c && c <= s
    ensures c != s ==> s[|c|] == '\0'
  {
    if s == "" || s[0] == '\0' then "" else [s[0]] + CString(s[1..])
  }

  lemma {:induction false} CStringOfPlain(s: string)
    requires '\0' !in s
    ensures CString(s) == s
  {
    if s == "" {
    } else {
      CStringOfPlain(s[1..]);
    }
  }

  /** `memchr`: where the next newline is, or the end. */
  function NextNewline(s: string, from: nat): (p: nat)
    requires from <= |s|
    ensures from <= p <= |s| && (p < |s| ==> s[p] == '\n')
    ensures forall k :: from <= k < p ==> s[k] != '\n'
    decreases |s| - from
  {
    if from == |s| || s[from] == '\n' then from else NextNewline(s, from + 1)
  }

  lemma NewlineAt(s: string, from: nat, p: nat)
    requires from <= p <= |s| && (p < |s| ==> s[p] == '\n')
    requires forall k :: from <= k < p ==> s[k] != '\n'
    ensures NextNewline(s, from) == p
  {
  }

  /** The complete lines of `s`, without their newlines. */
  function Lines(s: string): seq<string> {
    var n := NextNewline(s, 0);
    if n == |s| then [] else [s[..n]] + Lines(s[n + 1..])
  }

  /** What follows the last newline. */
  function Rest(s: string): (r: string)
    ensures '\n' !in r
  {
    var n := NextNewline(s, 0);
    if n == |s| then s else Rest(s[n + 1..])
  }

  lemma {:induction false} CompleteLine(line: string, s: string)
    requires '\n' !in line
    ensures Lines(line + "\n" + s) == [line] + Lines(s) && Rest(line + "\n" + s) == Rest(s)
  {
    var t := line + "\n" + s;
    NewlineAt(t, 0, |line|);
    assert t[..|line|] == line && t[|line| + 1..] == s;
  }

  lemma NoLine(s: string)
    requires '\n' !in s
    ensures Lines(s) == [] && Rest(s) == s
  {
    assert forall k :: 0 <= k < |s| ==> s[k] in s;
  }

  lemma SplitAt(s: string, n: nat)
    requires n < |s|
    ensures s == s[..n] + [s[n]] + s[n + 1..]
  {
  }

  /** The stream up to its first newline, and the rest. */
  lemma FirstLine(s: string)
    requires '\n' in s
    ensures var n := NextNewline(s, 0);
            && n < |s| && '\n' !in s[..n] && s == s[..n] + "\n" + s[n + 1..]
  {
    hide NextNewline;
    var n := NextNewline(s, 0);
    var k :| 0 <= k < |s| && s[k] == '\n';
    assert n <= k;
    SplitAt(s, n);
  }

  /** Lines can be found piece by piece, carrying the unfinished line over. */
  lemma {:induction false} LinesOfPieces(a: string, b: string)
    ensures Lines(a + b) == Lines(a) + Lines(Rest(a) + b)
    ensures Rest(a + b) == Rest(Rest(a) + b)
    decreases |a|
  {
    hide NextNewline, Lines, Rest;
    if '\n' in a {
      FirstLine(a);
      var n := NextNewline(a, 0);
      var line, tail := a[..n], a[n + 1..];
      assert a + b == line + "\n" + (tail + b);
      CompleteLine(line, tail);
      CompleteLine(line, tail + b);
      LinesOfPieces(tail, b);
      assert [line] + Lines(tail) + Lines(Rest(tail) + b) == [line] + (Lines(tail) + Lines(Rest(tail) + b));
    } else {
      NoLine(a);
      assert Lines(a + b) == [] + Lines(a + b);
    }
  }

  /** However a stream is cut into chunks, the lines are those of the whole stream. */
  lemma {:induction false} ChunkingIsInvisible(chunks: seq<string>)
    ensures LinesByChunks("", chunks) == (Lines(Flatten(chunks)), Rest(Flatten(chunks)))
  {
    NoLine("");
    ChunkingFrom("", chunks);
    assert "" + Flatten(chunks) == Flatten(chunks);
  }

  /** Lines found by adding each chunk to what the chunks before left over. */
  function LinesByChunks(rest: string, chunks: seq<string>): (seq<string>, string)
    decreases |chunks|
  {
    if chunks == [] then ([], rest)
    else
      var s := rest + chunks[0];
      var (lines, last) := LinesByChunks(Rest(s), chunks[1..]);
      (Lines(s) + lines, last)
  }

  lemma {:induction false} ChunkingFrom(rest: string, chunks: seq<string>)
    requires '\n' !in rest
    ensures LinesByChunks(rest, chunks) == (Lines(rest + Flatten(chunks)), Rest(rest + Flatten(chunks)))
    decreases |chunks|
  {
    hide Lines, Rest;
    if chunks == [] {
      assert rest + Flatten(chunks) == rest;
      NoLine(rest);
    } else {
      var s := rest + chunks[0];
      ChunkingFrom(Rest(s), chunks[1..]);
      LinesOfPieces(s, Flatten(chunks[1..]));
      assert rest + Flatten(chunks) == s + Flatten(chunks[1..]);
    }
  }
}
